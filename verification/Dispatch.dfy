/** The dispatcher of a route group: the captured value is compared with each custom verb in turn. */
module Dispatch {
  import opened Text

  datatype Target = Verb(index: nat) | Base | NotFound

  /** The first case of the switch that applies, or |verbs|. */
  function FirstMatch(verbs: seq<string>, value: string): (i: nat)
    ensures i <= |verbs|
    ensures i < |verbs| ==> HasSuffix(value, verbs[i])
    ensures forall j | 0 <= j < i :: !HasSuffix(value, verbs[j])
  {
    if verbs == [] || HasSuffix(value, verbs[0]) then 0
    else
      var i := FirstMatch(verbs[1..], value) + 1;
      assert forall j | 1 <= j < |verbs| :: verbs[j] == verbs[1..][j - 1];
      i
  }

  function Choose(verbs: seq<string>, hasBase: bool, value: string): Target {
    var i := FirstMatch(verbs, value);
    if i < |verbs| then Verb(i) else if hasBase then Base else NotFound
  }

  /** No verb is a suffix of another one. */
  predicate SuffixFree(verbs: seq<string>) {
    forall i, j | 0 <= i < j < |verbs| :: !HasSuffix(verbs[i], verbs[j]) && !HasSuffix(verbs[j], verbs[i])
  }

  /** Whatever precedes the verb of a route, the route is reached. */
  ghost predicate AlwaysReached(verbs: seq<string>, hasBase: bool) {
    forall i, x | 0 <= i < |verbs| :: Choose(verbs, hasBase, x + verbs[i]) == Verb(i)
  }

  lemma TwoSuffixes(value: string, u: string, v: string)
    requires HasSuffix(value, u) && HasSuffix(value, v)
    ensures HasSuffix(u, v) || HasSuffix(v, u)
  {
    if |v| <= |u| {
      assert u[|u| - |v|..] == value[|value| - |v|..];
    } else {
      assert v[|v| - |u|..] == value[|value| - |u|..];
    }
  }

  lemma {:induction false} OnlyMatch(verbs: seq<string>, value: string, i: nat)
    requires SuffixFree(verbs) && i < |verbs| && HasSuffix(value, verbs[i])
    ensures FirstMatch(verbs, value) == i
  {
    var k := FirstMatch(verbs, value);
    if k != i { TwoSuffixes(value, verbs[k], verbs[i]); }
  }

  lemma ShadowedVerb(verbs: seq<string>, hasBase: bool, i: nat, j: nat)
    requires i < j < |verbs| && (HasSuffix(verbs[i], verbs[j]) || HasSuffix(verbs[j], verbs[i]))
    ensures exists x :: Choose(verbs, hasBase, x + verbs[j]) != Verb(j)
  {
    var x := if HasSuffix(verbs[i], verbs[j]) then verbs[i][..|verbs[i]| - |verbs[j]|] else "";
    assert x + verbs[j] == if HasSuffix(verbs[i], verbs[j]) then verbs[i] else verbs[j];
    assert HasSuffix(x + verbs[j], verbs[i]);
    assert FirstMatch(verbs, x + verbs[j]) <= i;
    assert Choose(verbs, hasBase, x + verbs[j]) != Verb(j);
  }

  /** Every verb reaches its own route exactly when none is a suffix of another. */
  lemma {:induction false} ReachedExactlyWhenSuffixFree(verbs: seq<string>, hasBase: bool)
    ensures AlwaysReached(verbs, hasBase) <==> SuffixFree(verbs)
  {
    if SuffixFree(verbs) {
      forall i, x | 0 <= i < |verbs|
        ensures Choose(verbs, hasBase, x + verbs[i]) == Verb(i)
      {
        TrimSuffixUndoesAppend(x, verbs[i]);
        OnlyMatch(verbs, x + verbs[i], i);
      }
    } else {
      var i, j :| 0 <= i < j < |verbs| && (HasSuffix(verbs[i], verbs[j]) || HasSuffix(verbs[j], verbs[i]));
      ShadowedVerb(verbs, hasBase, i, j);
    }
  }

  /** ":" followed by text without a colon. */
  predicate ColonVerb(verb: string) { verb != "" && verb[0] == ':' && ':' !in verb[1..] }

  /** The usual verbs are suffix-free as soon as they are distinct. */
  lemma {:induction false} ColonVerbsAreSuffixFree(verbs: seq<string>)
    requires Distinct(verbs) && forall v | v in verbs :: ColonVerb(v)
    ensures SuffixFree(verbs)
  {
    forall i, j | 0 <= i < j < |verbs|
      ensures !HasSuffix(verbs[i], verbs[j]) && !HasSuffix(verbs[j], verbs[i])
    {
      assert verbs[i] in verbs && verbs[j] in verbs;
      ColonSuffix(verbs[i], verbs[j]);
      ColonSuffix(verbs[j], verbs[i]);
    }
  }

  lemma ColonSuffix(u: string, v: string)
    requires ColonVerb(u) && ColonVerb(v)
    ensures HasSuffix(u, v) ==> u == v
  {
    if |v| < |u| {
      var k := |u| - |v|;
      assert u[1..][k - 1] == u[k] && u[k..][0] == u[k] && u[1..][k - 1] in u[1..];
    }
  }

  /** A value that ends in none of the verbs reaches the base route, or nothing. */
  lemma {:induction false} OtherwiseBase(verbs: seq<string>, hasBase: bool, value: string)
    ensures (forall v | v in verbs :: !HasSuffix(value, v))
      <==> Choose(verbs, hasBase, value) == if hasBase then Base else NotFound
  {
    var k := FirstMatch(verbs, value);
    if k < |verbs| { assert verbs[k] in verbs; }
  }

  /** The order in which the verbs were declared does not matter: two dispatchers over the same
      suffix-free verbs choose the same verb, or both fall through. */
  lemma {:induction false} OrderDoesNotMatter(a: seq<string>, b: seq<string>, value: string)
    requires SuffixFree(a) && SuffixFree(b) && forall v :: v in a <==> v in b
    ensures var i, j := FirstMatch(a, value), FirstMatch(b, value);
      (i == |a| <==> j == |b|) && (i < |a| && j < |b| ==> a[i] == b[j])
  {
    SameChoice(a, b, value);
    SameChoice(b, a, value);
  }

  lemma {:induction false} SameChoice(a: seq<string>, b: seq<string>, value: string)
    requires SuffixFree(b) && forall v | v in a :: v in b
    ensures var i, j := FirstMatch(a, value), FirstMatch(b, value);
      i < |a| ==> j < |b| && a[i] == b[j]
  {
    var i := FirstMatch(a, value);
    if i < |a| {
      assert a[i] in b;
      var k :| 0 <= k < |b| && b[k] == a[i];
      OnlyMatch(b, value, k);
    }
  }
}
