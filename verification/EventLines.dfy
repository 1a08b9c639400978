/** Event-stream lines: how the TypeScript and the Python client turn lines into events, and the
    framing both undo. Lines follow section 9.2.5 of the WHATWG HTML Living Standard, with the
    repository's ":flags N" comment. */
module EventLines {
  import opened Text
  import opened Decimal

  datatype Flavor = TypeScript | Python

  /** A dispatched event: bit 1 of the flags marks the end-of-stream trailer. */
  datatype Event = Event(isTrailer: bool, data: string)

  /** Flags and data lines collected since the last blank line. */
  datatype Lines = Lines(flags: int, data: seq<string>)

  const FRESH := Lines(0, [])

  predicate HasBit1(flags: int) { (flags / 2) % 2 == 1 }

  predicate IsSpace(c: char) {
    c == ' ' || c == '\t' || c == '\n' || c == '\r' || c == (11 as char) || c == (12 as char)
  }

  function SkipSpaces(s: string): (r: string)
    ensures |r| <= |s|
  {
    if s != "" && IsSpace(s[0]) then SkipSpaces(s[1..]) else s
  }

  function DropSpaces(s: string): (r: string)
    ensures |r| <= |s|
  {
    if s != "" && IsSpace(s[|s| - 1]) then DropSpaces(s[..|s| - 1]) else s
  }

  function LeadingDigits(s: string): (r: string)
    ensures AllDigits(r) && r <= s
  {
    if s != "" && IsDigit(s[0]) then [s[0]] + LeadingDigits(s[1..]) else ""
  }

  /** parseInt(s, 10) || 0: the digits in front, after blanks and a sign. */
  function ParseInt(s: string): int {
    var t := SkipSpaces(s);
    if t != "" && t[0] == '-' then 0 - Value(LeadingDigits(t[1..]))
    else if t != "" && t[0] == '+' then Value(LeadingDigits(t[1..]))
    else Value(LeadingDigits(t))
  }

  /** Digits, with single underscores between them. */
  predicate PyDigits(s: string) {
    && s != "" && IsDigit(s[0]) && IsDigit(s[|s| - 1])
    && forall i | 0 <= i < |s| :: IsDigit(s[i]) || (s[i] == '_' && i + 1 < |s| && IsDigit(s[i + 1]))
  }

  function WithoutUnderscores(s: string): string {
    if s == "" then "" else (if s[0] == '_' then "" else [s[0]]) + WithoutUnderscores(s[1..])
  }

  lemma {:induction false} PyDigitsAreDigits(s: string)
    requires forall i | 0 <= i < |s| :: IsDigit(s[i]) || s[i] == '_'
    ensures AllDigits(WithoutUnderscores(s))
  {
    if s != "" { PyDigitsAreDigits(s[1..]); }
  }

  datatype Number = NotANumber | Number(value: int)

  /** int(s) */
  function PyInt(s: string): Number {
    var t := DropSpaces(SkipSpaces(s));
    var digits := if t != "" && (t[0] == '-' || t[0] == '+') then t[1..] else t;
    if !PyDigits(digits) then NotANumber
    else
      PyDigitsAreDigits(digits);
      var n := Value(WithoutUnderscores(digits));
      Number(if t[0] == '-' then 0 - n else n)
  }

  /** An unreadable number resets the flags in TypeScript and leaves them alone in Python. */
  function ReadFlags(flavor: Flavor, old_: int, text: string): int {
    match flavor
    case TypeScript => ParseInt(text)
    case Python => match PyInt(text) { case NotANumber => old_ case Number(n) => n }
  }

  /** TypeScript drops one trailing carriage return. */
  function Trimmed(flavor: Flavor, line: string): string {
    if flavor.TypeScript? then TrimSuffix(line, "\r") else line
  }

  datatype Stepped = Stepped(state: Lines, events: seq<Event>)

  /** One line. A blank line dispatches what has been collected, if there is any data. */
  function Step(flavor: Flavor, s: Lines, line: string): Stepped {
    var text := Trimmed(flavor, line);
    if text == "" then
      if s.data == [] then Stepped(s, []) else Stepped(FRESH, [Event(HasBit1(s.flags), Join(s.data, "\n"))])
    else if ":flags " <= text then Stepped(s.(flags := ReadFlags(flavor, s.flags, text[7..])), [])
    else if ":" <= text then Stepped(s, [])
    else if "data: " <= text then Stepped(s.(data := s.data + [text[6..]]), [])
    else if "data:" <= text then Stepped(s.(data := s.data + [text[5..]]), [])
    else Stepped(s, [])
  }

  type Stepper = (Lines, string) -> Stepped

  function StepOf(flavor: Flavor): Stepper { (s: Lines, line: string) => Step(flavor, s, line) }

  function Run(step: Stepper, s: Lines, lines: seq<string>): Stepped
    decreases |lines|
  {
    if lines == [] then Stepped(s, [])
    else
      var first := step(s, lines[0]);
      var rest := Run(step, first.state, lines[1..]);
      Stepped(rest.state, first.events + rest.events)
  }

  function Steps(flavor: Flavor, s: Lines, lines: seq<string>): Stepped { Run(StepOf(flavor), s, lines) }

  lemma RunCons(step: Stepper, s: Lines, line: string, rest: seq<string>)
    ensures var first := step(s, line);
      var tail := Run(step, first.state, rest);
      Run(step, s, [line] + rest) == Stepped(tail.state, first.events + tail.events)
  {
    assert ([line] + rest)[1..] == rest;
  }

  lemma {:induction false} RunConcat(step: Stepper, s: Lines, a: seq<string>, b: seq<string>)
    ensures var x := Run(step, s, a);
      var y := Run(step, x.state, b);
      Run(step, s, a + b) == Stepped(y.state, x.events + y.events)
    decreases |a|
  {
    if a == [] {
      assert a + b == b;
    } else {
      var first := step(s, a[0]);
      RunConcat(step, first.state, a[1..], b);
      assert a + b == [a[0]] + (a[1..] + b);
      RunCons(step, s, a[0], a[1..] + b);
      var x := Run(step, first.state, a[1..]);
      Assoc(first.events, x.events, Run(step, x.state, b).events);
    }
  }

  // ---- where the two clients agree ----

  /** A line both read alike: no carriage return at its end, and a plain decimal flag. */
  predicate CommonLine(line: string) {
    && !HasSuffix(line, "\r")
    && (":flags " <= line ==> line[7..] != "" && AllDigits(line[7..]))
  }

  lemma {:induction false} DigitsLead(s: string)
    requires AllDigits(s)
    ensures LeadingDigits(s) == s && WithoutUnderscores(s) == s
  {
    if s != "" {
      assert s[0] in s && forall c | c in s[1..] :: c in s;
      DigitsLead(s[1..]);
      assert [s[0]] + s[1..] == s;
    }
  }

  lemma {:induction false} DecimalFlagsAgree(s: string, old_: int)
    requires s != "" && AllDigits(s)
    ensures ReadFlags(TypeScript, old_, s) == Value(s) && ReadFlags(Python, old_, s) == Value(s)
  {
    assert s[0] in s && s[|s| - 1] in s;
    DigitsLead(s);
    assert SkipSpaces(s) == s && DropSpaces(s) == s;
    assert forall i | 0 <= i < |s| :: s[i] in s;
  }

  lemma StepsAgreeOn(s: Lines, line: string)
    requires CommonLine(line)
    ensures StepOf(TypeScript)(s, line) == StepOf(Python)(s, line)
  {
    if ":flags " <= line { DecimalFlagsAgree(line[7..], s.flags); }
  }

  lemma {:induction false} RunsAgree(f: Stepper, g: Stepper, s: Lines, lines: seq<string>)
    requires forall l, t | l in lines :: f(t, l) == g(t, l)
    ensures Run(f, s, lines) == Run(g, s, lines)
    decreases |lines|
  {
    if lines != [] {
      assert lines[0] in lines && forall l | l in lines[1..] :: l in lines;
      RunsAgree(f, g, f(s, lines[0]).state, lines[1..]);
    }
  }

  lemma {:induction false} StepsAgree(s: Lines, lines: seq<string>)
    requires forall l | l in lines :: CommonLine(l)
    ensures Steps(TypeScript, s, lines) == Steps(Python, s, lines)
  {
    forall l, t | l in lines
      ensures StepOf(TypeScript)(t, l) == StepOf(Python)(t, l)
    {
      StepsAgreeOn(t, l);
    }
    RunsAgree(StepOf(TypeScript), StepOf(Python), s, lines);
  }

  // ---- framing ----

  datatype Frame = Frame(flags: nat, payload: string)

  function DataLines(parts: seq<string>): (lines: seq<string>)
    ensures |lines| == |parts| && forall i | 0 <= i < |parts| :: lines[i] == "data: " + parts[i]
  {
    if parts == [] then [] else ["data: " + parts[0]] + DataLines(parts[1..])
  }

  /** ":flags N", one "data: " line per payload line, and a blank line. */
  function FrameLines(f: Frame): seq<string> {
    [":flags " + Print(f.flags)] + DataLines(Split(f.payload, '\n')) + [""]
  }

  function AllLines(frames: seq<Frame>): seq<string> {
    if frames == [] then [] else FrameLines(frames[0]) + AllLines(frames[1..])
  }

  function EventsOf(frames: seq<Frame>): seq<Event> {
    if frames == [] then [] else [Event(HasBit1(frames[0].flags), frames[0].payload)] + EventsOf(frames[1..])
  }

  lemma NoCarriageReturn(line: string)
    requires '\r' !in line
    ensures !HasSuffix(line, "\r")
  {
    if line != "" { assert line[|line| - 1] in line; assert line[|line| - 1..][0] == line[|line| - 1]; }
  }

  lemma ReadDataLine(flavor: Flavor, s: Lines, part: string)
    requires '\r' !in part
    ensures StepOf(flavor)(s, "data: " + part) == Stepped(s.(data := s.data + [part]), [])
  {
    var line := "data: " + part;
    NoCarriageReturn(line);
    assert line[0] == 'd' && line[6..] == part;
  }

  ghost predicate ReadsData(step: Stepper) {
    forall s, part | '\r' !in part :: step(s, "data: " + part) == Stepped(s.(data := s.data + [part]), [])
  }

  lemma {:induction false} ReadDataLines(step: Stepper, s: Lines, parts: seq<string>)
    requires (forall p | p in parts :: '\r' !in p) && ReadsData(step)
    ensures Run(step, s, DataLines(parts)) == Stepped(s.(data := s.data + parts), [])
    decreases |parts|
  {
    if parts == [] {
      assert s.data + [] == s.data;
    } else {
      assert parts[0] in parts && forall p | p in parts[1..] :: p in parts;
      ReadDataLines(step, s.(data := s.data + [parts[0]]), parts[1..]);
      RunCons(step, s, "data: " + parts[0], DataLines(parts[1..]));
      Assoc(s.data, [parts[0]], parts[1..]);
      assert [parts[0]] + parts[1..] == parts;
    }
  }

  lemma FlagLine(flavor: Flavor, s: Lines, n: nat)
    ensures StepOf(flavor)(s, ":flags " + Print(n)) == Stepped(s.(flags := n), [])
  {
    var line := ":flags " + Print(n);
    assert Print(n)[|Print(n)| - 1] in Print(n);
    assert line[|line| - 1] == Print(n)[|Print(n)| - 1];
    assert !HasSuffix(line, "\r") by { assert line[|line| - 1..][0] == line[|line| - 1]; }
    assert line[7..] == Print(n);
    DecimalFlagsAgree(Print(n), s.flags);
    ValueOfPrint(n);
  }

  lemma BlankLine(flavor: Flavor, s: Lines)
    requires s.data != []
    ensures StepOf(flavor)(s, "") == Stepped(FRESH, [Event(HasBit1(s.flags), Join(s.data, "\n"))])
  {
    NoCarriageReturn("");
  }

  lemma {:induction false} SplitAvoids(s: string, c: char, x: char)
    requires x !in s
    ensures forall p | p in Split(s, c) :: x !in p
  {
    if s != "" { SplitAvoids(s[1..], c, x); }
  }

  lemma {:induction false} RunOne(step: Stepper, s: Lines, line: string)
    ensures Run(step, s, [line]) == step(s, line)
  {
    assert [line][1..] == [];
    assert step(s, line).events + [] == step(s, line).events;
  }

  lemma {:induction false} OneFrame(flavor: Flavor, f: Frame)
    requires '\r' !in f.payload
    ensures Steps(flavor, FRESH, FrameLines(f)) == Stepped(FRESH, [Event(HasBit1(f.flags), f.payload)])
  {
    var step, parts := StepOf(flavor), Split(f.payload, '\n');
    var flagLine := ":flags " + Print(f.flags);
    FlagLine(flavor, FRESH, f.flags);
    SplitAvoids(f.payload, '\n', '\r');
    forall s, part | '\r' !in part
      ensures step(s, "data: " + part) == Stepped(s.(data := s.data + [part]), [])
    {
      ReadDataLine(flavor, s, part);
    }
    ReadDataLines(step, Lines(f.flags, []), parts);
    assert [] + parts == parts;
    JoinAfterSplit(f.payload, '\n');
    BlankLine(flavor, Lines(f.flags, parts));
    RunOne(step, Lines(f.flags, parts), "");
    RunConcat(step, Lines(f.flags, []), DataLines(parts), [""]);
    RunCons(step, FRESH, flagLine, DataLines(parts) + [""]);
    Assoc([flagLine], DataLines(parts), [""]);
  }

  /** Both clients read back every framed payload, of one line, several, or none. */
  lemma {:induction false} FramingIsUndone(flavor: Flavor, frames: seq<Frame>)
    requires forall f | f in frames :: '\r' !in f.payload
    ensures Steps(flavor, FRESH, AllLines(frames)) == Stepped(FRESH, EventsOf(frames))
  {
    if frames != [] {
      assert frames[0] in frames && forall f | f in frames[1..] :: f in frames;
      FramingIsUndone(flavor, frames[1..]);
      OneFrame(flavor, frames[0]);
      RunConcat(StepOf(flavor), FRESH, FrameLines(frames[0]), AllLines(frames[1..]));
    }
  }
}
