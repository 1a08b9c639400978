/** The string operations the plugins and runtimes use, on byte strings. */
module Text {
  predicate HasSuffix(s: string, suffix: string) {
    |suffix| <= |s| && s[|s| - |suffix|..] == suffix
  }

  function TrimPrefix(s: string, prefix: string): string {
    if prefix <= s then s[|prefix|..] else s
  }

  function TrimSuffix(s: string, suffix: string): string {
    if HasSuffix(s, suffix) then s[..|s| - |suffix|] else s
  }

  lemma TrimSuffixUndoesAppend(x: string, suffix: string)
    ensures HasSuffix(x + suffix, suffix) && TrimSuffix(x + suffix, suffix) == x
  {
  }

  /** The first position at which `sub` occurs, or -1. */
  function IndexOf(s: string, sub: string): (r: int)
    ensures -1 <= r <= |s| && (r >= 0 ==> r + |sub| <= |s|)
  {
    if sub <= s then 0
    else if s == "" then -1
    else
      var r := IndexOf(s[1..], sub);
      if r < 0 then -1 else r + 1
  }

  lemma {:induction false} IndexOfOccurs(s: string, sub: string)
    ensures IndexOf(s, sub) >= 0 ==> IndexOf(s, sub) + |sub| <= |s| && sub <= s[IndexOf(s, sub)..]
  {
    if !(sub <= s) && s != "" {
      IndexOfOccurs(s[1..], sub);
      var r := IndexOf(s[1..], sub);
      if r >= 0 { assert s[1..][r..] == s[r + 1..]; }
    }
  }

  lemma {:induction false} IndexOfIsFirst(s: string, sub: string, k: nat)
    requires k <= |s| && sub <= s[k..]
    ensures 0 <= IndexOf(s, sub) <= k
  {
    if k == 0 {
      assert s[0..] == s;
    } else {
      assert s[k..] == s[1..][k - 1..];
      IndexOfIsFirst(s[1..], sub, k - 1);
    }
  }

  /** strings.Cut: what precedes the first `sep`, what follows it, and whether there is one. */
  datatype Cut = Cut(before: string, after: string, found: bool)

  function CutAt(s: string, sep: string): (r: Cut)
    ensures |r.before| <= |s| && |r.after| <= |s|
  {
    var i := IndexOf(s, sep);
    if i < 0 then Cut(s, "", false) else Cut(s[..i], s[i + |sep|..], true)
  }

  lemma CutSplits(s: string, sep: string)
    ensures var r := CutAt(s, sep); r.found ==> s == r.before + sep + r.after && |r.before| + |sep| + |r.after| == |s|
  {
    var i := IndexOf(s, sep);
    IndexOfOccurs(s, sep);
    if i >= 0 { assert s[i..] == sep + s[i + |sep|..]; }
  }

  /** The text before the first `c`; all of `s` when `c` does not occur. */
  function Before(s: string, c: char): (r: string)
    ensures r <= s && c !in r
    ensures if c in s then |r| < |s| && s[|r|] == c else r == s
  {
    if s == "" || s[0] == c then "" else [s[0]] + Before(s[1..], c)
  }

  lemma {:induction false} BeforeOfSum(a: string, c: char, b: string)
    requires c !in a
    ensures Before(a + [c] + b, c) == a
  {
    if a != "" {
      BeforeOfSum(a[1..], c, b);
      assert (a + [c] + b)[1..] == a[1..] + [c] + b;
    } else {
      assert a + [c] + b == [c] + b;
    }
  }

  /** strings.Split on a one-byte separator. */
  function Split(s: string, c: char): (parts: seq<string>)
    ensures |parts| >= 1
    ensures forall p | p in parts :: c !in p
  {
    if s == "" then [""]
    else
      var rest := Split(s[1..], c);
      if s[0] == c then [""] + rest else [[s[0]] + rest[0]] + rest[1..]
  }

  function Join(parts: seq<string>, sep: string): string {
    if |parts| == 0 then "" else if |parts| == 1 then parts[0] else parts[0] + sep + Join(parts[1..], sep)
  }

  lemma {:induction false} JoinAfterSplit(s: string, c: char)
    ensures Join(Split(s, c), [c]) == s
  {
    if s != "" {
      var rest := Split(s[1..], c);
      JoinAfterSplit(s[1..], c);
      if s[0] == c {
        assert ([""] + rest)[1..] == rest;
        assert Join([""] + rest, [c]) == "" + [c] + Join(rest, [c]);
      } else {
        assert ([[s[0]] + rest[0]] + rest[1..])[1..] == rest[1..];
      }
      assert s == [s[0]] + s[1..];
    }
  }

  lemma {:induction false} SplitWhole(s: string, c: char)
    requires c !in s
    ensures Split(s, c) == [s]
  {
    if s != "" {
      SplitWhole(s[1..], c);
      assert [s[0]] + s[1..] == s;
    }
  }

  /** Splitting a text character by character. */
  lemma SplitCons(x: char, s: string, c: char)
    ensures Split([x] + s, c) == if x == c then [""] + Split(s, c) else [[x] + Split(s, c)[0]] + Split(s, c)[1..]
  {
    assert ([x] + s)[1..] == s;
  }

  lemma {:induction false} SplitSum(a: string, c: char, b: string)
    ensures Split(a + [c] + b, c) == Split(a, c) + Split(b, c)
  {
    if a == "" {
      assert a + [c] + b == [c] + b;
      SplitCons(c, b, c);
    } else {
      SplitSum(a[1..], c, b);
      SumCons(a, [c], b);
      SplitCons(a[0], a[1..] + [c] + b, c);
      SplitCons(a[0], a[1..], c);
      PushSum(a[0], Split(a[1..], c), Split(b, c));
    }
  }

  lemma SumCons(a: string, m: string, b: string)
    requires a != ""
    ensures a + m + b == [a[0]] + (a[1..] + m + b) && a == [a[0]] + a[1..]
  {
  }

  /** Putting a character in front of the parts, or starting a new part. */
  lemma PushSum(x: char, p: seq<string>, q: seq<string>)
    requires |p| >= 1
    ensures [""] + (p + q) == ([""] + p) + q
    ensures [[x] + (p + q)[0]] + (p + q)[1..] == ([[x] + p[0]] + p[1..]) + q
  {
  }

  lemma {:induction false} SplitAfterJoin(parts: seq<string>, c: char)
    requires |parts| >= 1 && forall p | p in parts :: c !in p
    ensures Split(Join(parts, [c]), c) == parts
  {
    SplitWhole(parts[0], c);
    if |parts| > 1 {
      SplitAfterJoin(parts[1..], c);
      SplitSum(parts[0], c, Join(parts[1..], [c]));
    }
  }

  lemma LastOfTail(parts: seq<string>, tail: string)
    requires |parts| >= 2
    ensures var rest := parts[1..];
      [parts[0]] + (rest[..|rest| - 1] + [rest[|rest| - 1] + tail])
          == parts[..|parts| - 1] + [parts[|parts| - 1] + tail]
  {
  }

  /** Text after the last part lands in the last part. */
  lemma {:induction false} SplitJoinAppend(parts: seq<string>, c: char, tail: string)
    requires |parts| >= 1 && c !in tail && forall p | p in parts :: c !in p
    ensures Split(Join(parts, [c]) + tail, c) == parts[..|parts| - 1] + [parts[|parts| - 1] + tail]
  {
    if |parts| == 1 {
      assert parts[0] in parts;
      SplitWhole(parts[0] + tail, c);
    } else {
      var rest := parts[1..];
      SplitJoinAppend(rest, c, tail);
      assert parts[0] in parts;
      SplitWhole(parts[0], c);
      SplitSum(parts[0], c, Join(rest, [c]) + tail);
      Assoc(parts[0] + [c], Join(rest, [c]), tail);
      LastOfTail(parts, tail);
    }
  }

  // ---- counting parts ----

  /** How many parts the texts have together. */
  function PartCount(texts: seq<string>, c: char): nat {
    if texts == [] then 0 else |Split(texts[0], c)| + PartCount(texts[1..], c)
  }

  lemma {:induction false} JoinParts(texts: seq<string>, c: char)
    requires texts != []
    ensures |Split(Join(texts, [c]), c)| == PartCount(texts, c)
  {
    if |texts| > 1 {
      JoinParts(texts[1..], c);
      SplitSum(texts[0], c, Join(texts[1..], [c]));
    } else {
      assert texts[1..] == [];
    }
  }

  lemma OnePart(s: string, c: char)
    ensures |Split(s, c)| == 1 <==> c !in s
  {
    JoinAfterSplit(s, c);
    if |Split(s, c)| == 1 { assert Split(s, c)[0] in Split(s, c); }
    if c !in s { SplitWhole(s, c); }
  }

  /** As many parts as texts: no text is cut. */
  lemma {:induction false} OnePartEach(texts: seq<string>, c: char)
    ensures PartCount(texts, c) >= |texts|
    ensures PartCount(texts, c) == |texts| ==> forall i | 0 <= i < |texts| :: c !in texts[i]
  {
    if texts != [] {
      OnePartEach(texts[1..], c);
      OnePart(texts[0], c);
    }
  }

  lemma {:induction false} LastPartCount(texts: seq<string>, c: char)
    requires texts != []
    ensures var n := |texts| - 1;
      PartCount(texts, c) == PartCount(texts[..n], c) + |Split(texts[n], c)|
  {
    var n := |texts| - 1;
    if n == 0 {
      assert texts[1..] == [] && texts[..0] == [];
    } else {
      LastPartCount(texts[1..], c);
      assert texts[1..][..n - 1] == texts[..n][1..];
    }
  }

  /** Text without the separator adds no part. */
  lemma {:induction false} TailKeepsParts(s: string, c: char, tail: string)
    requires c !in tail
    ensures |Split(s + tail, c)| == |Split(s, c)|
  {
    JoinAfterSplit(s, c);
    SplitJoinAppend(Split(s, c), c, tail);
  }

  lemma {:induction false} JoinHead(head: string, texts: seq<string>)
    requires |texts| >= 1
    ensures Join([head + texts[0]] + texts[1..], "/") == head + Join(texts, "/")
  {
    var joined := [head + texts[0]] + texts[1..];
    assert joined[1..] == texts[1..];
    if |texts| > 1 {
      Assoc(head, texts[0] + "/", Join(texts[1..], "/"));
      Assoc(head, texts[0], "/");
    }
  }

  predicate BraceFree(s: string) { forall c | c in s :: c != '{' && c != '}' }

  /** strings.Replace(s, old, new, 1): the leftmost occurrence is replaced. */
  function ReplaceFirst(s: string, old_: string, new_: string): string {
    if old_ <= s then new_ + s[|old_|..]
    else if s == "" then ""
    else [s[0]] + ReplaceFirst(s[1..], old_, new_)
  }

  /** str.replace for a non-empty `old_`: a left-to-right scan that resumes after each occurrence. */
  function ReplaceAll(s: string, old_: string, new_: string): string
    requires old_ != ""
    decreases |s|
  {
    if s == "" then ""
    else if old_ <= s then new_ + ReplaceAll(s[|old_|..], old_, new_)
    else [s[0]] + ReplaceAll(s[1..], old_, new_)
  }

  /** Both replacements pass over a character at which `old_` does not occur. */
  lemma {:induction false} ReplaceSkips(c: char, s: string, old_: string, new_: string)
    requires old_ != "" && !(old_ <= [c] + s)
    ensures ReplaceFirst([c] + s, old_, new_) == [c] + ReplaceFirst(s, old_, new_)
    ensures ReplaceAll([c] + s, old_, new_) == [c] + ReplaceAll(s, old_, new_)
  {
    assert ([c] + s)[1..] == s;
  }

  lemma {:induction false} ReplaceHits(s: string, old_: string, new_: string)
    requires old_ != ""
    ensures ReplaceFirst(old_ + s, old_, new_) == new_ + s
    ensures ReplaceAll(old_ + s, old_, new_) == new_ + ReplaceAll(s, old_, new_)
  {
    assert (old_ + s)[|old_|..] == s;
  }

  lemma ConsConcat<T>(a: seq<T>, b: seq<T>)
    requires a != []
    ensures a + b == [a[0]] + (a[1..] + b) && (a + b)[0] == a[0] && (a + b)[1..] == a[1..] + b
  {
  }

  /** The elements a loop has not reached yet: `all` is `done` followed by them. */
  lemma NextElement<T>(all: seq<T>, done: seq<T>, left: seq<T>)
    requires all == done + left && |done| < |all|
    ensures left == [all[|done|]] + left[1..] && all == (done + [all[|done|]]) + left[1..]
  {
    assert left[0] == all[|done|];
  }

  lemma Assoc<T>(x: seq<T>, y: seq<T>, z: seq<T>)
    ensures (x + y) + z == x + (y + z)
  {
  }

  predicate Distinct<T(==)>(s: seq<T>) { forall i, j | 0 <= i < j < |s| :: s[i] != s[j] }

  lemma DistinctTail<T>(x: T, s: seq<T>)
    requires Distinct([x] + s)
    ensures x !in s && Distinct(s)
  {
    assert forall i | 0 <= i < |s| :: ([x] + s)[i + 1] == s[i];
    assert ([x] + s)[0] == x;
  }
}
