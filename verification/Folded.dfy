/** Folded stacks as text, and the parser that reads it back (tools/viz/js/flame.js). */
module Folded {
  import opened Collections
  import opened Strings

  /** The JavaScript `Number` of a string, if it is finite. */
  type Numeral = string -> Option<real>

  /** Doubles hold whole numbers exactly up to here. */
  const EXACT: nat := 0x20_0000_0000_0000

  /** What the parser needs of `Number`: decimals of exactly representable numbers are read back. */
  ghost predicate ReadsDecimals(number: Numeral) {
    forall n: nat :: n <= EXACT ==> number(Decimal(n)) == Some(n as real)
  }

  // ---- lines ----

  /** A process or thread frame; the number may be no number. */
  datatype Task = Task(num: Option<real>, comm: string)

  datatype Line = Line(frames: seq<string>, value: real, p: Option<Task>, t: Option<Task>)

  predicate StartsWith(s: string, prefix: string) {
    |s| >= |prefix| && s[..|prefix|] == prefix
  }

  function ParseTask(s: string, number: Numeral): Task
    requires |s| >= 2
  {
    var i := IndexOf(s, '/');
    if i < |s| then Task(number(if i >= 2 then s[2..i] else ""), s[i + 1..])
    else Task(number(s[2..]), "")
  }

  function ProcessOf(frames: seq<string>, number: Numeral): Option<Task>
    requires frames != []
  {
    if StartsWith(frames[0], "p:") then Some(ParseTask(frames[0], number)) else None
  }

  function ThreadOf(frames: seq<string>, number: Numeral): Option<Task>
    requires frames != []
  {
    if |frames| > 1 && StartsWith(frames[1], "t:") then Some(ParseTask(frames[1], number))
    else if StartsWith(frames[0], "t:") then Some(ParseTask(frames[0], number))
    else None
  }

  /** `split(';').filter(Boolean)` */
  function Frames(line: string): seq<string> {
    NonEmpty(Split(line, ';'))
  }

  /** What one raw line yields, if anything. */
  function ParseLine(raw: string, number: Numeral): Option<Line> {
    var sp := LastIndexOf(raw, ' ');
    if raw == "" || sp < 0 then None
    else
      var value := number(raw[sp + 1..]);
      if value.None? || value.value <= 0.0 then None
      else
        var frames := Frames(raw[..sp]);
        if frames == [] then None
        else Some(Line(frames, value.value, ProcessOf(frames, number), ThreadOf(frames, number)))
  }

  /** A line is some frames, a blank and a positive number: the last blank decides, and nothing else is
      read. */
  lemma {:induction false} LineIsRead(line: string, value: string, number: Numeral)
    requires Free(value, ' ')
    ensures ParseLine(value, number) == None
    ensures ParseLine(line + [' '] + value, number) ==
            if number(value).Some? && number(value).value > 0.0 && Frames(line) != [] then
              Some(Line(Frames(line), number(value).value, ProcessOf(Frames(line), number),
                        ThreadOf(Frames(line), number)))
            else None
  {
    LastSeparator(line, ' ', value);
    var raw := line + [' '] + value;
    assert raw[..|line|] == line && raw[|line| + 1..] == value;
  }

  /** A task is a kind and a colon, a number, and after the first slash a name. */
  lemma {:induction false} TaskIsRead(kind: char, num: string, comm: string, number: Numeral)
    requires kind != '/' && Free(num, '/')
    ensures ParseTask([kind, ':'] + num, number) == Task(number(num), "")
    ensures ParseTask([kind, ':'] + num + ['/'] + comm, number) == Task(number(num), comm)
  {
    var head := [kind, ':'] + num;
    FreeConcat([kind, ':'], num, '/');
    FirstSeparator(head, '/', comm);
    assert head[2..] == num;
    var s := head + ['/'] + comm;
    assert s[2..|head|] == num && s[|head| + 1..] == comm;
  }

  function ParseLines(raws: seq<string>, number: Numeral): seq<Line> {
    if raws == [] then []
    else ParseLines(raws[..|raws| - 1], number) + Yield(raws[|raws| - 1], number)
  }

  function Yield(raw: string, number: Numeral): seq<Line> {
    var l := ParseLine(raw, number);
    if l.Some? then [l.value] else []
  }

  lemma {:induction false} ParseLinesAppend(raws: seq<string>, raw: string, number: Numeral)
    ensures ParseLines(raws + [raw], number) == ParseLines(raws, number) + Yield(raw, number)
  {
    assert (raws + [raw])[..|raws|] == raws;
  }

  lemma {:induction false} FramesConcat(a: string, b: string)
    ensures Frames(a + [';'] + b) == Frames(a) + Frames(b)
  {
    SplitConcat(a, ';', b);
    NonEmptyConcat(Split(a, ';'), Split(b, ';'));
  }

  lemma {:induction false} FrameOf(s: string)
    requires Free(s, ';')
    ensures Frames(s) == if s == "" then [] else [s]
  {
    SplitFree(s, ';');
    assert NonEmpty([]) == [];
    assert NonEmpty([s]) == (if s == "" then [] else [s]) + NonEmpty([]);
  }

  // ---- printing and reading back ----

  /** A row of the stored profile as the viewer writes it out. */
  function PrintLine(line: string, value: nat): string {
    line + " " + Decimal(value)
  }

  function LineOf(line: string, value: nat, number: Numeral): Line
    requires Frames(line) != []
  {
    Line(Frames(line), value as real, ProcessOf(Frames(line), number), ThreadOf(Frames(line), number))
  }

  /** A printed line is read back: the same frames, the same value. */
  lemma {:induction false} LineRoundTrip(line: string, value: nat, number: Numeral)
    requires Frames(line) != [] && 0 < value <= EXACT && ReadsDecimals(number)
    ensures ParseLine(PrintLine(line, value), number) == Some(LineOf(line, value, number))
  {
    var raw := PrintLine(line, value);
    DecimalIsFree(value, ' ');
    LastSeparator(line, ' ', Decimal(value));
    assert raw == line + [' '] + Decimal(value);
    assert raw[..|line|] == line && raw[|line| + 1..] == Decimal(value);
  }

  /** The text of a profile: one line after another, each ended by a newline. */
  function PrintText(lines: seq<string>, values: seq<nat>): string
    requires |lines| == |values|
  {
    if lines == [] then ""
    else PrintLine(lines[0], values[0]) + "\n" + PrintText(lines[1..], values[1..])
  }

  /** Lines with some frame, values a double can hold. */
  ghost predicate Printable(lines: seq<string>, values: seq<nat>) {
    |lines| == |values| && forall i :: 0 <= i < |lines| ==> Frames(lines[i]) != [] && 0 < values[i] <= EXACT
  }

  function LinesOf(lines: seq<string>, values: seq<nat>, number: Numeral): seq<Line>
    requires Printable(lines, values)
  {
    seq(|lines|, i requires 0 <= i < |lines| => LineOf(lines[i], values[i], number))
  }

  function RawLines(lines: seq<string>, values: seq<nat>): seq<string>
    requires |lines| == |values|
  {
    seq(|lines|, i requires 0 <= i < |lines| => PrintLine(lines[i], values[i]))
  }

  lemma {:induction false} TextSplits(lines: seq<string>, values: seq<nat>)
    requires |lines| == |values| && AllFree(lines, '\n')
    ensures Split(PrintText(lines, values), '\n') == RawLines(lines, values) + [""]
  {
    if lines != [] {
      TextSplits(lines[1..], values[1..]);
      DecimalIsFree(values[0], '\n');
      var raw := PrintLine(lines[0], values[0]);
      SplitFirst(raw, '\n', PrintText(lines[1..], values[1..]));
      assert RawLines(lines, values) == [raw] + RawLines(lines[1..], values[1..]);
    } else {
      assert RawLines(lines, values) == [];
    }
  }

  lemma {:induction false} ParseEach(raws: seq<string>, number: Numeral, lines: seq<Line>, n: nat)
    requires n <= |raws| == |lines| && forall i :: 0 <= i < |raws| ==> Yield(raws[i], number) == [lines[i]]
    ensures ParseLines(raws[..n], number) == lines[..n]
  {
    if n > 0 {
      ParseEach(raws, number, lines, n - 1);
      ParseLinesAppend(raws[..n - 1], raws[n - 1], number);
      PrefixGrows(raws, n - 1);
      PrefixGrows(lines, n - 1);
    }
  }

  lemma {:induction false} RawLinesParse(lines: seq<string>, values: seq<nat>, number: Numeral)
    requires Printable(lines, values) && ReadsDecimals(number)
    ensures ParseLines(RawLines(lines, values), number) == LinesOf(lines, values, number)
  {
    var raws, parsed := RawLines(lines, values), LinesOf(lines, values, number);
    forall i | 0 <= i < |raws|
      ensures Yield(raws[i], number) == [parsed[i]]
    {
      LineRoundTrip(lines[i], values[i], number);
    }
    ParseEach(raws, number, parsed, |raws|);
    assert raws[..|raws|] == raws && parsed[..|raws|] == parsed;
  }

  /** A printed profile without line breaks in its lines is read back line by line. */
  lemma {:induction false} TextRoundTrip(lines: seq<string>, values: seq<nat>, number: Numeral)
    requires Printable(lines, values) && AllFree(lines, '\n') && ReadsDecimals(number)
    ensures ParseLines(Split(PrintText(lines, values), '\n'), number) == LinesOf(lines, values, number)
  {
    TextSplits(lines, values);
    RawLinesParse(lines, values, number);
    ParseLinesAppend(RawLines(lines, values), "", number);
    assert Yield("", number) == [];
  }

  lemma {:induction false} ParsedFramesAreFree(raws: seq<string>, number: Numeral)
    requires AllFree(raws, '\n')
    ensures forall l :: l in ParseLines(raws, number) ==> AllFree(l.frames, '\n')
  {
    if raws != [] {
      var raw := raws[|raws| - 1];
      ParsedFramesAreFree(raws[..|raws| - 1], number);
      var sp := LastIndexOf(raw, ' ');
      if sp >= 0 {
        PiecesAreFree(raw[..sp], ';', '\n');
        NonEmptyBreaksIff(Split(raw[..sp], ';'), '\n');
      }
    }
  }
}
