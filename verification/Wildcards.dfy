/** Taking a resource name apart at the separators of a multi-wildcard pattern, and putting it
    back together the way the generated server does. */
module Wildcards {
  import opened Text

  /** client.go's SplitMultiWildcard, for exactly one separator. */
  function SplitMultiWildcard(value: string, prefix: string, sep: string, idx: nat): string {
    var rest := TrimPrefix(value, prefix);
    var cut := CutAt(rest, sep);
    if !cut.found then (if idx == 0 then rest else "")
    else if idx == 0 then cut.before else cut.after
  }

  lemma CutIsPart(s: string, sep: string)
    ensures forall c | c in CutAt(s, sep).before :: c in s
    ensures forall c | c in CutAt(s, sep).after :: c in s
  {
  }

  /** The value of wildcard `idx` in the text after the prefix: cut at the first occurrence of each
      separator in turn; the last wildcard takes the remainder. */
  function Piece(rest: string, seps: seq<string>, idx: nat): (r: string)
    ensures forall c | c in r :: c in rest
    decreases idx
  {
    if seps == [] then rest
    else
      var cut := CutAt(rest, seps[0]);
      CutIsPart(rest, seps[0]);
      if idx == 0 then cut.before
      else if !cut.found then ""
      else Piece(cut.after, seps[1..], idx - 1)
  }

  function SplitN(value: string, prefix: string, seps: seq<string>, idx: nat): string {
    Piece(TrimPrefix(value, prefix), seps, idx)
  }

  predicate NonEmpty(seps: seq<string>) { forall i | 0 <= i < |seps| :: seps[i] != "" }

  /** One round of the loops. */
  lemma PieceStep(rest: string, sep: string, tail: seq<string>, k: nat, goal: string)
    requires Piece(rest, [sep] + tail, k + 1) == goal
    ensures goal == if CutAt(rest, sep).found then Piece(CutAt(rest, sep).after, tail, k) else ""
  {
    assert ([sep] + tail)[0] == sep && ([sep] + tail)[1..] == tail;
  }

  lemma PieceNow(rest: string, sep: string, tail: seq<string>)
    ensures Piece(rest, [sep] + tail, 0) == if CutAt(rest, sep).found then CutAt(rest, sep).before else rest
  {
    assert ([sep] + tail)[0] == sep;
  }

  /** The separators not yet used: `seps` is `done` followed by them. */
  lemma NextSeparator(seps: seq<string>, done: seq<string>, left: seq<string>)
    requires seps == done + left && |done| < |seps| && NonEmpty(seps)
    ensures left == [seps[|done|]] + left[1..] && seps == (done + [seps[|done|]]) + left[1..]
    ensures seps[|done|] != ""
  {
    assert left[0] == seps[|done|];
  }

  lemma NextOf(seps: seq<string>, done: seq<string>, left: seq<string>)
    requires seps == done + left && |done| < |seps|
    ensures left == [seps[|done|]] + left[1..] && seps == (done + [seps[|done|]]) + left[1..]
  {
    assert left[0] == seps[|done|];
  }

  /** str.partition rejects an empty separator, so the separators are required to be non-empty. */
  method SplitMultiWildcardPython(value: string, prefix: string, seps: seq<string>, idx: nat) returns (r: string)
    requires NonEmpty(seps)
    ensures r == SplitN(value, prefix, seps, idx)
  {
    var rest := TrimPrefix(value, prefix);
    ghost var goal, done, left, k := Piece(rest, seps, idx), [], seps, idx;
    var i := 0;
    while i < idx && i < |seps|
      invariant i == |done| && seps == done + left && i + k == idx
      invariant Piece(rest, left, k) == goal
    {
      var sep := seps[i];
      NextSeparator(seps, done, left);
      PieceStep(rest, sep, left[1..], k - 1, goal);
      var cut := CutAt(rest, sep);
      if !cut.found { return ""; }
      rest := cut.after;
      done, left, k := done + [sep], left[1..], k - 1;
      i := i + 1;
    }
    if idx >= |seps| { return rest; }
    NextSeparator(seps, done, left);
    PieceNow(rest, seps[idx], left[1..]);
    var cut := CutAt(rest, seps[idx]);
    r := if cut.found then cut.before else rest;
  }

  /** indexOf, and the slice after what it finds. */
  method SliceAfter(rest: string, sep: string) returns (found: bool, tail: string)
    ensures found == CutAt(rest, sep).found && (found ==> tail == CutAt(rest, sep).after)
  {
    var at := IndexOf(rest, sep);
    if at < 0 { return false, rest; }
    return true, rest[at + |sep|..];
  }

  /** indexOf, and the slice before what it finds. */
  method SliceBefore(rest: string, sep: string) returns (head: string)
    ensures head == if CutAt(rest, sep).found then CutAt(rest, sep).before else rest
  {
    var at := IndexOf(rest, sep);
    head := if at < 0 then rest else rest[..at];
  }

  /** One round of the TypeScript loop. */
  method CutRound(rest: string, sep: string, ghost tail: seq<string>, ghost k: nat, ghost goal: string)
    returns (found: bool, next: string)
    requires Piece(rest, [sep] + tail, k + 1) == goal
    ensures if found then Piece(next, tail, k) == goal else goal == ""
  {
    PieceStep(rest, sep, tail, k, goal);
    found, next := SliceAfter(rest, sep);
  }

  method CutLast(rest: string, sep: string, ghost tail: seq<string>) returns (r: string)
    ensures r == Piece(rest, [sep] + tail, 0)
  {
    PieceNow(rest, sep, tail);
    r := SliceBefore(rest, sep);
  }

  /** The TypeScript function agrees with Python's; past the last wildcard it returns nothing. */
  method SplitMultiWildcardTypeScript(value: string, prefix: string, seps: seq<string>, idx: nat) returns (r: string)
    ensures idx <= |seps| ==> r == SplitN(value, prefix, seps, idx)
    ensures idx > |seps| ==> r == ""
  {
    var rest := TrimPrefix(value, prefix);
    ghost var goal, done, left, k := Piece(rest, seps, idx), [], seps, idx;
    var i := 0;
    while i < idx
      invariant i == |done| && seps == done + left && i + k == idx
      invariant Piece(rest, left, k) == goal
    {
      if i >= |seps| { return ""; }
      NextOf(seps, done, left);
      var found, tail := CutRound(rest, seps[i], left[1..], k - 1, goal);
      if !found { return ""; }
      rest := tail;
      done, left, k := done + [seps[i]], left[1..], k - 1;
      i := i + 1;
    }
    if idx >= |seps| { return rest; }
    NextOf(seps, done, left);
    r := CutLast(rest, seps[idx], left[1..]);
  }

  /** With one separator, the N-wildcard split is the Go runtime's, on every input. */
  lemma GoAgrees(value: string, prefix: string, sep: string, idx: nat)
    requires idx <= 1
    ensures SplitN(value, prefix, [sep], idx) == SplitMultiWildcard(value, prefix, sep, idx)
  {
    var cut := CutAt(TrimPrefix(value, prefix), sep);
    assert [sep][1..] == [];
    if idx == 1 && cut.found { assert Piece(cut.after, [], 0) == cut.after; }
  }

  // ---- joining ----

  /** How the server rebuilds the text after the prefix. */
  function Interleave(values: seq<string>, seps: seq<string>): string
    requires |values| == |seps| + 1
  {
    if seps == [] then values[0] else values[0] + seps[0] + Interleave(values[1..], seps[1..])
  }

  function Pieces(rest: string, seps: seq<string>): (values: seq<string>)
    ensures |values| == |seps| + 1
  {
    seq(|seps| + 1, i requires 0 <= i => Piece(rest, seps, i))
  }

  function Rebuild(value: string, prefix: string, seps: seq<string>): string {
    prefix + Interleave(seq(|seps| + 1, i requires 0 <= i => SplitN(value, prefix, seps, i)), seps)
  }

  /** Every separator is found in what the earlier ones left. */
  predicate InOrder(rest: string, seps: seq<string>) {
    seps == [] || (CutAt(rest, seps[0]).found && InOrder(CutAt(rest, seps[0]).after, seps[1..]))
  }

  /** A resource name that fits the pattern's literals. */
  predicate Fits(value: string, prefix: string, seps: seq<string>) {
    prefix <= value && InOrder(value[|prefix|..], seps)
  }

  lemma {:induction false} PiecesStep(rest: string, seps: seq<string>)
    requires seps != []
    ensures var cut := CutAt(rest, seps[0]);
      Pieces(rest, seps) == [cut.before] + if cut.found then Pieces(cut.after, seps[1..]) else seq(|seps|, _ => "")
  {
  }

  lemma {:induction false} RebuildFound(rest: string, seps: seq<string>)
    requires seps != [] && CutAt(rest, seps[0]).found
    ensures var cut := CutAt(rest, seps[0]);
      Interleave(Pieces(rest, seps), seps)
          == (cut.before + seps[0]) + Interleave(Pieces(cut.after, seps[1..]), seps[1..])
  {
    PiecesStep(rest, seps);
    assert Pieces(rest, seps)[1..] == Pieces(CutAt(rest, seps[0]).after, seps[1..]);
  }

  lemma {:induction false} RebuildMissing(rest: string, seps: seq<string>)
    requires seps != [] && !CutAt(rest, seps[0]).found
    ensures |Interleave(Pieces(rest, seps), seps)| >= |rest| + |seps[0]|
  {
    assert Pieces(rest, seps)[0] == rest;
  }

  /** Joining the pieces gives the text back exactly when the separators occur in order. */
  lemma {:induction false} PiecesRebuild(rest: string, seps: seq<string>)
    requires NonEmpty(seps)
    ensures |Interleave(Pieces(rest, seps), seps)| >= |rest|
    ensures Interleave(Pieces(rest, seps), seps) == rest <==> InOrder(rest, seps)
  {
    if seps != [] {
      var cut := CutAt(rest, seps[0]);
      if cut.found {
        NonEmptyTail(seps);
        CutSplits(rest, seps[0]);
        RebuildFound(rest, seps);
        PiecesRebuild(cut.after, seps[1..]);
        CancelPrefix(cut.before + seps[0], Interleave(Pieces(cut.after, seps[1..]), seps[1..]), cut.after);
      } else {
        RebuildMissing(rest, seps);
      }
    }
  }

  lemma CancelPrefix(p: string, x: string, y: string)
    ensures p + x == p + y <==> x == y
  {
    assert (p + x)[|p|..] == x && (p + y)[|p|..] == y;
  }

  /** Splitting and joining are inverse exactly on the names that fit the pattern. */
  lemma {:induction false} SplitThenJoin(value: string, prefix: string, seps: seq<string>)
    requires NonEmpty(seps)
    ensures Rebuild(value, prefix, seps) == value <==> Fits(value, prefix, seps)
  {
    var rest := TrimPrefix(value, prefix);
    assert seq(|seps| + 1, i requires 0 <= i => SplitN(value, prefix, seps, i)) == Pieces(rest, seps);
    PiecesRebuild(rest, seps);
    if prefix <= value {
      assert value == prefix + rest;
      CancelPrefix(prefix, Interleave(Pieces(rest, seps), seps), rest);
    } else {
      assert prefix <= Rebuild(value, prefix, seps);
    }
  }

  lemma CutIsFirst(rest: string, sep: string, at: nat)
    requires CutAt(rest, sep).found && sep != "" && at <= |CutAt(rest, sep).before|
    ensures !(sep <= CutAt(rest, sep).before[at..])
  {
    var cut := CutAt(rest, sep);
    CutSplits(rest, sep);
    if sep <= cut.before[at..] {
      assert rest[at..] == cut.before[at..] + (sep + cut.after);
      IndexOfIsFirst(rest, sep, at);
    }
  }

  lemma NotInFront(rest: string, sep: string)
    requires CutAt(rest, sep).found && sep != ""
    ensures IndexOf(CutAt(rest, sep).before, sep) < 0
  {
    var before := CutAt(rest, sep).before;
    var at := IndexOf(before, sep);
    IndexOfOccurs(before, sep);
    if at >= 0 { CutIsFirst(rest, sep, at); }
  }

  lemma NonEmptyTail(seps: seq<string>)
    requires seps != [] && NonEmpty(seps)
    ensures NonEmpty(seps[1..])
  {
    assert forall i | 0 <= i < |seps[1..]| :: seps[1..][i] == seps[i + 1];
  }

  /** No piece but the last contains the separator that ends it. */
  lemma {:induction false} PieceAvoidsSeparator(rest: string, seps: seq<string>, idx: nat)
    requires NonEmpty(seps) && InOrder(rest, seps) && idx < |seps|
    ensures IndexOf(Piece(rest, seps, idx), seps[idx]) < 0
  {
    if idx == 0 {
      NotInFront(rest, seps[0]);
    } else {
      NonEmptyTail(seps);
      PieceAvoidsSeparator(CutAt(rest, seps[0]).after, seps[1..], idx - 1);
    }
  }
}
