/** The assembler's reading of its input text: lines, and the fields of a line. */
module AssemblyText {

  const MAX_LINE: nat := 256
  const LABEL_BUFFER: nat := 32
  const INSTRUCTION_BUFFER: nat := 16
  const ARGUMENT_BUFFER: nat := 64

  predicate IsSpace(c: char) {
    c == ' ' || c == '\t' || c == '\r' || c == '\n' || c == '\U{c}' || c == '\U{b}'
  }

  predicate IsVisible(c: char) { !IsSpace(c) }
  predicate EndsFirstWord(c: char) { c == ':' || IsSpace(c) }
  predicate EndsArgument(c: char) { c == ',' || IsSpace(c) }
  predicate IsNewline(c: char) { c == '\n' }
  predicate IsQuote(c: char) { c == '\'' }

  /** The first position from `i` on where `stop` holds, or the end. */
  function Scan(s: string, i: nat, stop: char -> bool): (j: nat)
    requires i <= |s|
    ensures i <= j <= |s|
    ensures forall k :: i <= k < j ==> !stop(s[k])
    ensures j < |s| ==> stop(s[j])
    decreases |s| - i
  {
    if i == |s| || stop(s[i]) then i else Scan(s, i + 1, stop)
  }

  lemma ScanStopsAt(s: string, i: nat, stop: char -> bool, j: nat)
    requires i <= j <= |s|
    requires forall k :: i <= k < j ==> !stop(s[k])
    requires j == |s| || stop(s[j])
    ensures Scan(s, i, stop) == j
  {
  }

  /** The scanning loops of `parseLine` and `getNextLine`. */
  method ScanLoop(s: string, i: nat, stop: char -> bool) returns (j: nat)
    requires i <= |s|
    ensures j == Scan(s, i, stop)
  {
    j := i;
    while j < |s| && !stop(s[j])
      invariant i <= j <= |s|
      invariant forall k :: i <= k < j ==> !stop(s[k])
      decreases |s| - j
    {
      j := j + 1;
    }
    ScanStopsAt(s, i, stop, j);
  }

  function SkipSpace(s: string, i: nat): (j: nat)
    requires i <= |s|
    ensures i <= j <= |s|
    ensures j < |s| ==> IsVisible(s[j])
  {
    Scan(s, i, IsVisible)
  }

  // ---------- fields of a line ----------

  datatype Line = Line(isLabel: bool, name: string, instruction: string, arg1: string, arg2: string)

  const EMPTY_LINE: Line := Line(false, "", "", "", "")

  /** Text that fits its buffer (with the terminator); anything longer is dropped. */
  function Fit(s: string, buffer: nat): string {
    if |s| < buffer then s else ""
  }

  /** Where the argument starting at `i` ends: past its closing quote, or at the first `stop`. */
  function ArgumentEnd(s: string, i: nat, stop: char -> bool): (j: nat)
    requires i < |s|
    ensures i <= j <= |s|
  {
    if IsQuote(s[i]) then
      var close := Scan(s, i + 1, IsQuote);
      if close < |s| then close + 1 else close
    else Scan(s, i, stop)
  }

  function ParseSecondArgument(s: string, i: nat): string
    requires i <= |s|
  {
    var comma := SkipSpace(s, i);
    if comma == |s| || s[comma] != ',' then ""
    else
      var start := SkipSpace(s, comma + 1);
      if start == |s| then "" else Fit(s[start..ArgumentEnd(s, start, IsSpace)], ARGUMENT_BUFFER)
  }

  /** The instruction `instruction`, whose arguments follow from position `i`. */
  function ParseArguments(s: string, i: nat, isLabel: bool, name: string, instruction: string): Line
    requires i <= |s|
  {
    var start := SkipSpace(s, i);
    if instruction == "" || start == |s| then Line(isLabel, name, instruction, "", "")
    else
      var end := ArgumentEnd(s, start, EndsArgument);
      var arg1 := Fit(s[start..end], ARGUMENT_BUFFER);
      Line(isLabel, name, instruction, arg1, if arg1 == "" then "" else ParseSecondArgument(s, end))
  }

  /** `parseLine`. */
  function ParseLine(s: string): Line {
    var start := SkipSpace(s, 0);
    if start == |s| then EMPTY_LINE
    else
      var end := Scan(s, start, EndsFirstWord);
      if end < |s| && s[end] == ':' then
        var name := Fit(s[start..end], LABEL_BUFFER);
        var next := SkipSpace(s, end + 1);
        var after := Scan(s, next, IsSpace);
        ParseArguments(s, after, true, name, Fit(s[next..after], INSTRUCTION_BUFFER))
      else
        ParseArguments(s, end, false, "", Fit(s[start..end], INSTRUCTION_BUFFER))
  }

  lemma {:induction false} ScanShift(before: string, s: string, i: nat, stop: char -> bool)
    requires i <= |s|
    ensures Scan(before + s, |before| + i, stop) == |before| + Scan(s, i, stop)
  {
    var j, whole := Scan(s, i, stop), before + s;
    assert forall k :: |before| + i <= k < |before| + j ==> whole[k] == s[k - |before|];
    assert j < |s| ==> whole[|before| + j] == s[j];
    ScanStopsAt(whole, |before| + i, stop, |before| + j);
  }

  lemma ArgumentEndShift(before: string, s: string, i: nat, stop: char -> bool)
    requires i < |s|
    ensures ArgumentEnd(before + s, |before| + i, stop) == |before| + ArgumentEnd(s, i, stop)
  {
    hide Scan;
    ScanShift(before, s, i, stop);
    ScanShift(before, s, i + 1, IsQuote);
  }

  lemma SecondArgumentShift(before: string, s: string, i: nat)
    requires i <= |s|
    ensures ParseSecondArgument(before + s, |before| + i) == ParseSecondArgument(s, i)
  {
    hide Scan, ArgumentEnd, Fit;
    ScanShift(before, s, i, IsVisible);
    var comma := SkipSpace(s, i);
    if comma < |s| && s[comma] == ',' {
      ScanShift(before, s, comma + 1, IsVisible);
      var start := SkipSpace(s, comma + 1);
      if start < |s| {
        ArgumentEndShift(before, s, start, IsSpace);
        var end := ArgumentEnd(s, start, IsSpace);
        assert (before + s)[|before| + start..|before| + end] == s[start..end];
      }
    }
  }

  lemma ArgumentsShift(before: string, s: string, i: nat, isLabel: bool, name: string, instruction: string)
    requires i <= |s|
    ensures ParseArguments(before + s, |before| + i, isLabel, name, instruction)
         == ParseArguments(s, i, false, "", instruction).(isLabel := isLabel, name := name)
  {
    hide Scan, ArgumentEnd, Fit, ParseSecondArgument;
    ScanShift(before, s, i, IsVisible);
    var start := SkipSpace(s, i);
    if instruction != "" && start < |s| {
      ArgumentEndShift(before, s, start, EndsArgument);
      var end := ArgumentEnd(s, start, EndsArgument);
      assert (before + s)[|before| + start..|before| + end] == s[start..end];
      SecondArgumentShift(before, s, end);
    }
  }

  lemma NoArguments(s: string)
    ensures ParseArguments(s, |s|, false, "", "") == EMPTY_LINE
  {
  }

  lemma LabelEnds(name: string, s: string)
    requires 0 < |name| < LABEL_BUFFER && forall k :: 0 <= k < |name| ==> !EndsFirstWord(name[k])
    ensures var whole := name + ":" + s;
            && SkipSpace(whole, 0) == 0 && Scan(whole, 0, EndsFirstWord) == |name| && whole[|name|] == ':'
            && whole[0..|name|] == name && Fit(name, LABEL_BUFFER) == name
  {
    var whole := name + ":" + s;
    assert forall k :: 0 <= k < |name| ==> whole[k] == name[k];
    ScanStopsAt(whole, 0, IsVisible, 0);
    ScanStopsAt(whole, 0, EndsFirstWord, |name|);
  }

  /** What `parseLine` reads behind a label. */
  lemma BehindLabel(name: string, s: string)
    requires 0 < |name| < LABEL_BUFFER && forall k :: 0 <= k < |name| ==> !EndsFirstWord(name[k])
    ensures var next := SkipSpace(s, 0);
            var after := Scan(s, next, IsSpace);
            ParseLine(name + ":" + s)
            == ParseArguments(name + ":" + s, |name + ":"| + after, true, name, Fit(s[next..after], INSTRUCTION_BUFFER))
  {
    hide Scan, ParseArguments, IsSpace, EndsFirstWord, Fit;
    var before := name + ":";
    var whole := before + s;
    LabelEnds(name, s);
    ScanShift(before, s, 0, IsVisible);
    var next := SkipSpace(s, 0);
    ScanShift(before, s, next, IsSpace);
    assert whole[|before| + next..|before| + Scan(s, next, IsSpace)] == s[next..Scan(s, next, IsSpace)];
  }

  /** A line whose first word ends at a space is no label line. */
  lemma NoLabel(s: string)
    requires Scan(s, SkipSpace(s, 0), EndsFirstWord) == Scan(s, SkipSpace(s, 0), IsSpace)
    ensures var next := SkipSpace(s, 0);
            var after := Scan(s, next, IsSpace);
            ParseLine(s) == ParseArguments(s, after, false, "", Fit(s[next..after], INSTRUCTION_BUFFER))
  {
    hide Scan, ParseArguments;
    NoArguments(s);
  }

  /** A label in front of an instruction on the same line adds the label and changes nothing else. */
  lemma LabelledLine(name: string, s: string)
    requires 0 < |name| < LABEL_BUFFER && forall k :: 0 <= k < |name| ==> !EndsFirstWord(name[k])
    requires Scan(s, SkipSpace(s, 0), EndsFirstWord) == Scan(s, SkipSpace(s, 0), IsSpace)
    ensures ParseLine(name + ":" + s) == ParseLine(s).(isLabel := true, name := name)
  {
    hide Scan, ParseArguments, Fit, ParseLine, EndsFirstWord, IsSpace;
    BehindLabel(name, s);
    NoLabel(s);
    var next := SkipSpace(s, 0);
    var after := Scan(s, next, IsSpace);
    ArgumentsShift(name + ":", s, after, true, name, Fit(s[next..after], INSTRUCTION_BUFFER));
  }

  method ArgumentEndLoop(s: string, i: nat, stop: char -> bool) returns (j: nat)
    requires i < |s|
    ensures j == ArgumentEnd(s, i, stop)
  {
    if s[i] == '\'' {
      j := ScanLoop(s, i + 1, IsQuote);
      if j < |s| { j := j + 1; }
    } else {
      j := ScanLoop(s, i, stop);
    }
  }

  method ParseSecondArgumentLoop(s: string, i: nat) returns (arg2: string)
    requires i <= |s|
    ensures arg2 == ParseSecondArgument(s, i)
  {
    hide Scan, ArgumentEnd, Fit, IsSpace;
    var comma := ScanLoop(s, i, IsVisible);
    if comma == |s| || s[comma] != ',' { return ""; }
    var start := ScanLoop(s, comma + 1, IsVisible);
    if start == |s| { return ""; }
    var end := ArgumentEndLoop(s, start, IsSpace);
    arg2 := Fit(s[start..end], ARGUMENT_BUFFER);
  }

  method ParseArgumentsLoop(s: string, i: nat, isLabel: bool, name: string, instruction: string) returns (l: Line)
    requires i <= |s|
    ensures l == ParseArguments(s, i, isLabel, name, instruction)
  {
    l := Line(isLabel, name, instruction, "", "");
    if instruction == "" { return; }
    var start := ScanLoop(s, i, IsVisible);
    if start == |s| { return; }
    var end := ArgumentEndLoop(s, start, EndsArgument);
    var arg1, arg2 := Fit(s[start..end], ARGUMENT_BUFFER), "";
    if arg1 != "" {
      arg2 := ParseSecondArgumentLoop(s, end);
    }
    l := Line(isLabel, name, instruction, arg1, arg2);
  }

  method ParseLineLoop(s: string) returns (l: Line)
    ensures l == ParseLine(s)
  {
    hide ParseArguments, Scan, Fit, EndsFirstWord;
    var start := ScanLoop(s, 0, IsVisible);
    if start == |s| { return EMPTY_LINE; }
    var end := ScanLoop(s, start, EndsFirstWord);
    if end < |s| && s[end] == ':' {
      var name := Fit(s[start..end], LABEL_BUFFER);
      start := ScanLoop(s, end + 1, IsVisible);
      end := ScanLoop(s, start, IsSpace);
      l := ParseArgumentsLoop(s, end, true, name, Fit(s[start..end], INSTRUCTION_BUFFER));
    } else {
      l := ParseArgumentsLoop(s, end, false, "", Fit(s[start..end], INSTRUCTION_BUFFER));
    }
  }

  // ---------- lines of a text ----------

  datatype NextLine = NoLine | NextLine(line: string, rest: nat)

  /** `getNextLine`: the next non-blank line without its indentation, cut to the line buffer. */
  function GetNextLine(s: string, i: nat): (n: NextLine)
    requires i <= |s|
    ensures n.NextLine? ==> i < n.rest <= |s| && n.line != "" && IsVisible(n.line[0])
  {
    var start := SkipSpace(s, i);
    if start == |s| then NoLine
    else
      var end := Scan(s, start, IsNewline);
      assert IsSpace('\n') && end > start;
      var length := if end - start > MAX_LINE - 1 then MAX_LINE - 1 else end - start;
      NextLine(s[start..start + length], if end < |s| then end + 1 else end)
  }

  method GetNextLineLoop(s: string, i: nat) returns (n: NextLine)
    requires i <= |s|
    ensures n == GetNextLine(s, i)
  {
    var start := ScanLoop(s, i, IsVisible);
    if start == |s| { return NoLine; }
    var end := ScanLoop(s, start, IsNewline);
    var length := if end - start > MAX_LINE - 1 then MAX_LINE - 1 else end - start;
    n := NextLine(s[start..start + length], if end < |s| then end + 1 else end);
  }

  predicate IsComment(line: string) {
    line != "" && (line[0] == ';' || line[0] == '#')
  }

  /** The fields of each line from position `i` on; comments are lines without fields. */
  function LinesFrom(s: string, i: nat): seq<Line>
    requires i <= |s|
    decreases |s| - i
  {
    var n := GetNextLine(s, i);
    match n
    case NoLine => []
    case NextLine(line, rest) => [if IsComment(line) then EMPTY_LINE else ParseLine(line)] + LinesFrom(s, rest)
  }

  function Lines(s: string): seq<Line> {
    LinesFrom(s, 0)
  }

  // ---------- well-formed lines read back ----------

  /** A raw line: blank lines and indentation, then visible text on one line. */
  predicate IsRawLine(raw: string) {
    var start := SkipSpace(raw, 0);
    && start < |raw|
    && |raw| - start < MAX_LINE
    && (forall k :: start <= k < |raw| ==> raw[k] != '\n')
    && !IsComment(raw[start..])
  }

  function RenderRaw(raws: seq<string>): string {
    if raws == [] then "" else raws[0] + "\n" + RenderRaw(raws[1..])
  }

  function ParseRaw(raws: seq<string>): seq<Line> {
    if raws == [] then [] else [ParseLine(raws[0][SkipSpace(raws[0], 0)..])] + ParseRaw(raws[1..])
  }

  lemma {:induction false} RenderRawAppend(a: seq<string>, b: seq<string>)
    ensures RenderRaw(a + b) == RenderRaw(a) + RenderRaw(b)
  {
    if a == [] {
      assert a + b == b;
    } else {
      assert (a + b)[1..] == a[1..] + b;
      RenderRawAppend(a[1..], b);
    }
  }

  lemma {:induction false} ParseRawAppend(a: seq<string>, b: seq<string>)
    ensures ParseRaw(a + b) == ParseRaw(a) + ParseRaw(b)
  {
    if a == [] {
      assert a + b == b;
    } else {
      assert (a + b)[1..] == a[1..] + b;
      ParseRawAppend(a[1..], b);
    }
  }

  lemma SkipSpaceShift(prefix: string, raw: string, rest: string)
    requires SkipSpace(raw, 0) < |raw|
    ensures SkipSpace(prefix + raw + rest, |prefix|) == |prefix| + SkipSpace(raw, 0)
  {
    var s := prefix + raw + rest;
    var j := SkipSpace(raw, 0);
    forall k | |prefix| <= k < |prefix| + j
      ensures IsSpace(s[k])
    {
      assert s[k] == raw[k - |prefix|];
    }
    assert s[|prefix| + j] == raw[j];
    ScanStopsAt(s, |prefix|, IsVisible, |prefix| + j);
  }

  lemma NextRawLine(prefix: string, raw: string, rest: string)
    requires IsRawLine(raw)
    ensures var n := GetNextLine(prefix + raw + "\n" + rest, |prefix|);
            n == NextLine(raw[SkipSpace(raw, 0)..], |prefix| + |raw| + 1)
  {
    var s := prefix + raw + "\n" + rest;
    var tail := "\n" + rest;
    assert s == prefix + raw + tail;
    SkipSpaceShift(prefix, raw, tail);
    var start := |prefix| + SkipSpace(raw, 0);
    var end := |prefix| + |raw|;
    forall k | start <= k < end
      ensures !IsNewline(s[k])
    {
      assert s[k] == raw[k - |prefix|];
    }
    assert s[end] == '\n';
    ScanStopsAt(s, start, IsNewline, end);
    assert s[start..end] == raw[SkipSpace(raw, 0)..];
  }

  lemma Concat4(a: string, b: string, c: string, d: string)
    ensures a + (b + c + d) == a + b + c + d
  {
  }

  lemma LinesFromStep(s: string, i: nat, line: string, rest: nat)
    requires i <= |s| && GetNextLine(s, i) == NextLine(line, rest) && !IsComment(line)
    ensures rest <= |s| && LinesFrom(s, i) == [ParseLine(line)] + LinesFrom(s, rest)
  {
    hide ParseLine, GetNextLine;
  }

  /** A comment line of any length is a line without fields, and reading goes on behind it. */
  lemma CommentRead(prefix: string, comment: string, rest: string)
    requires comment != "" && (comment[0] == ';' || comment[0] == '#') && '\n' !in comment
    ensures var s := prefix + comment + "\n" + rest;
            LinesFrom(s, |prefix|) == [EMPTY_LINE] + LinesFrom(s, |prefix| + |comment| + 1)
  {
    hide ParseLine, LinesFrom;
    var s, end := prefix + comment + "\n" + rest, |prefix| + |comment|;
    assert forall k :: |prefix| <= k < end ==> s[k] == comment[k - |prefix|];
    assert s[end] == '\n';
    ScanStopsAt(s, |prefix|, IsVisible, |prefix|);
    ScanStopsAt(s, |prefix|, IsNewline, end);
    var n := GetNextLine(s, |prefix|);
    assert n.line[0] == s[|prefix|];
    CommentStep(s, |prefix|, n.line, end + 1);
  }

  lemma CommentStep(s: string, i: nat, line: string, rest: nat)
    requires i <= |s| && GetNextLine(s, i) == NextLine(line, rest) && IsComment(line)
    ensures rest <= |s| && LinesFrom(s, i) == [EMPTY_LINE] + LinesFrom(s, rest)
  {
    hide ParseLine, GetNextLine;
  }

  lemma RawNotComment(raw: string)
    requires IsRawLine(raw)
    ensures !IsComment(raw[SkipSpace(raw, 0)..])
  {
  }

  /** Reading a text made of raw lines gives the fields of each of them, in order. */
  lemma {:induction false} LinesOfRendered(prefix: string, raws: seq<string>)
    requires forall i :: 0 <= i < |raws| ==> IsRawLine(raws[i])
    ensures LinesFrom(prefix + RenderRaw(raws), |prefix|) == ParseRaw(raws)
    decreases |raws|
  {
    hide ParseLine, SkipSpace, IsRawLine, IsComment, GetNextLine;
    if raws == [] {
      assert prefix + RenderRaw(raws) == prefix;
    } else {
      var rest := RenderRaw(raws[1..]);
      NextRawLine(prefix, raws[0], rest);
      RawNotComment(raws[0]);
      LinesFromStep(prefix + raws[0] + "\n" + rest, |prefix|, raws[0][SkipSpace(raws[0], 0)..],
        |prefix| + |raws[0]| + 1);
      LinesOfRendered(prefix + raws[0] + "\n", raws[1..]);
      RenderedStep(prefix, raws);
    }
  }

  lemma RenderedStep(prefix: string, raws: seq<string>)
    requires raws != []
    ensures prefix + raws[0] + "\n" + RenderRaw(raws[1..]) == prefix + RenderRaw(raws)
    ensures ParseRaw(raws) == [ParseLine(raws[0][SkipSpace(raws[0], 0)..])] + ParseRaw(raws[1..])
  {
    hide ParseLine, SkipSpace;
    Concat4(prefix, raws[0], "\n", RenderRaw(raws[1..]));
  }
}
