/** sort.Strings: byte-wise order, and why sorting forgets the order in which strings came. */
module Sorting {
  import opened Text

  predicate Leq(a: string, b: string) {
    a == "" || (b != "" && (a[0] < b[0] || (a[0] == b[0] && Leq(a[1..], b[1..]))))
  }

  lemma {:induction false} LeqTotal(a: string, b: string)
    ensures Leq(a, b) || Leq(b, a)
  {
    if a != "" && b != "" && a[0] == b[0] { LeqTotal(a[1..], b[1..]); }
  }

  lemma {:induction false} LeqReflexive(a: string)
    ensures Leq(a, a)
  {
    if a != "" { LeqReflexive(a[1..]); }
  }

  lemma {:induction false} LeqTransitive(a: string, b: string, c: string)
    requires Leq(a, b) && Leq(b, c)
    ensures Leq(a, c)
  {
    if a != "" && a[0] == b[0] == c[0] { LeqTransitive(a[1..], b[1..], c[1..]); }
  }

  lemma {:induction false} LeqAntisymmetric(a: string, b: string)
    requires Leq(a, b) && Leq(b, a)
    ensures a == b
  {
    if a != "" {
      LeqAntisymmetric(a[1..], b[1..]);
      assert a == [a[0]] + a[1..] && b == [b[0]] + b[1..];
    }
  }

  predicate Sorted(s: seq<string>) { forall i, j | 0 <= i < j < |s| :: Leq(s[i], s[j]) }

  predicate SameElements(a: seq<string>, b: seq<string>) {
    (forall x | x in a :: x in b) && forall x | x in b :: x in a
  }

  function Insert(x: string, s: seq<string>): (r: seq<string>)
    ensures |r| == |s| + 1 && x in r
    ensures forall y | y in s :: y in r
    ensures forall y | y in r :: y == x || y in s
  {
    if s == [] || Leq(x, s[0]) then [x] + s
    else
      assert s == [s[0]] + s[1..];
      [s[0]] + Insert(x, s[1..])
  }

  function Sort(s: seq<string>): (r: seq<string>)
    ensures |r| == |s| && SameElements(r, s)
  {
    if s == [] then []
    else
      assert s == [s[0]] + s[1..];
      Insert(s[0], Sort(s[1..]))
  }

  lemma SortedCons(x: string, s: seq<string>)
    ensures Sorted([x] + s) <==> Sorted(s) && forall y | y in s :: Leq(x, y)
  {
    var all := [x] + s;
    assert all[0] == x && forall i | 0 <= i < |s| :: all[i + 1] == s[i];
    if Sorted(all) {
      forall i, j | 0 <= i < j < |s|
        ensures Leq(s[i], s[j])
      {
        assert Leq(all[i + 1], all[j + 1]);
      }
      forall y | y in s
        ensures Leq(x, y)
      {
        var i :| 0 <= i < |s| && s[i] == y;
        assert Leq(all[0], all[i + 1]);
      }
    }
    if Sorted(s) && forall y | y in s :: Leq(x, y) {
      forall i, j | 0 <= i < j < |all|
        ensures Leq(all[i], all[j])
      {
        if i > 0 { assert Leq(s[i - 1], s[j - 1]); }
      }
    }
  }

  lemma {:induction false} InsertKeepsSorted(x: string, s: seq<string>)
    requires Sorted(s)
    ensures Sorted(Insert(x, s))
  {
    if s == [] {
      SortedCons(x, s);
    } else {
      assert s == [s[0]] + s[1..];
      SortedCons(s[0], s[1..]);
      if Leq(x, s[0]) {
        forall y | y in s
          ensures Leq(x, y)
        {
          if y != s[0] { LeqTransitive(x, s[0], y); }
        }
        SortedCons(x, s);
      } else {
        LeqTotal(x, s[0]);
        InsertKeepsSorted(x, s[1..]);
        SortedCons(s[0], Insert(x, s[1..]));
      }
    }
  }

  lemma {:induction false} InsertKeepsDistinct(x: string, s: seq<string>)
    requires Distinct(s) && x !in s
    ensures Distinct(Insert(x, s))
  {
    if s == [] || Leq(x, s[0]) {
      DistinctCons(x, s);
    } else {
      assert s == [s[0]] + s[1..];
      DistinctTail(s[0], s[1..]);
      InsertKeepsDistinct(x, s[1..]);
      DistinctCons(s[0], Insert(x, s[1..]));
    }
  }

  lemma DistinctCons(x: string, s: seq<string>)
    requires Distinct(s) && x !in s
    ensures Distinct([x] + s)
  {
    var all := [x] + s;
    forall i, j | 0 <= i < j < |all|
      ensures all[i] != all[j]
    {
      if i > 0 { assert s[i - 1] != s[j - 1]; } else { assert s[j - 1] in s; }
    }
  }

  lemma {:induction false} SortIsSorted(s: seq<string>)
    ensures Sorted(Sort(s))
    ensures Distinct(s) ==> Distinct(Sort(s))
  {
    if s != [] {
      assert s == [s[0]] + s[1..];
      SortIsSorted(s[1..]);
      InsertKeepsSorted(s[0], Sort(s[1..]));
      if Distinct(s) {
        DistinctTail(s[0], s[1..]);
        InsertKeepsDistinct(s[0], Sort(s[1..]));
      }
    }
  }

  lemma EmptyIsAlone(s: seq<string>)
    ensures SameElements(s, []) || SameElements([], s) ==> s == []
  {
    if s != [] { assert s[0] in s; }
  }

  /** There is only one sorted list of a set of strings. */
  lemma {:induction false} SortedListIsUnique(a: seq<string>, b: seq<string>)
    requires Sorted(a) && Sorted(b) && Distinct(a) && Distinct(b) && SameElements(a, b)
    ensures a == b
  {
    EmptyIsAlone(a);
    EmptyIsAlone(b);
    if a != [] {
      assert a == [a[0]] + a[1..] && b == [b[0]] + b[1..];
      SortedCons(a[0], a[1..]);
      SortedCons(b[0], b[1..]);
      DistinctTail(a[0], a[1..]);
      DistinctTail(b[0], b[1..]);
      LeqReflexive(a[0]);
      assert a[0] in b && b[0] in a;
      LeqAntisymmetric(a[0], b[0]);
      assert SameElements(a[1..], b[1..]) by {
        forall x | x in a[1..] ensures x in b[1..] { assert x in a; }
        forall x | x in b[1..] ensures x in a[1..] { assert x in b; }
      }
      SortedListIsUnique(a[1..], b[1..]);
    }
  }

  lemma {:induction false} SortForgetsOrder(a: seq<string>, b: seq<string>)
    requires Distinct(a) && Distinct(b) && SameElements(a, b)
    ensures Sort(a) == Sort(b)
  {
    SortIsSorted(a);
    SortIsSorted(b);
    SortedListIsUnique(Sort(a), Sort(b));
  }
}
