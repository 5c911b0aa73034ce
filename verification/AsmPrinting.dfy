/** The text of emitted instructions, and the assembler's reading of it. */
module AsmPrinting {
  import opened Words
  import opened LibcText
  import opened X86
  import opened CodeGenerator
  import opened AssemblyText

  function RegName(r: Reg): string {
    ["eax", "ecx", "edx", "ebx", "esp", "ebp", "esi", "edi"][r]
  }

  /** `[ebp` then the offset, which carries its own minus sign, then `]`. */
  function MemText(off: int): string {
    "[ebp" + ItoaText(Wrap(off)) + "]"
  }

  /** The fields of an emitted line. */
  function Fields(a: Asm): Line {
    match a
    case LabelDef(name) => Line(true, name, "", "", "")
    case MovText(r, text) => Line(false, "", "mov", RegName(r), text)
    case MovLoad(r, off) => Line(false, "", "mov", RegName(r), MemText(off))
    case MovStore(off, r) => Line(false, "", "mov", MemText(off), RegName(r))
    case MovReg(dst, src) => Line(false, "", "mov", RegName(dst), RegName(src))
    case AddText(r, text) => Line(false, "", "add", RegName(r), text)
    case SubText(r, text) => Line(false, "", "sub", RegName(r), text)
    case CmpText(off, text) => Line(false, "", "cmp", MemText(off), text)
    case CmpLoad(r, off) => Line(false, "", "cmp", RegName(r), MemText(off))
    case JmpTo(target) => Line(false, "", "jmp", target, "")
    case JgeTo(target) => Line(false, "", "jge", target, "")
    case JeTo(target) => Line(false, "", "je", target, "")
    case CallTo(target) => Line(false, "", "call", target, "")
    case PushReg(r) => Line(false, "", "push", RegName(r), "")
    case PopReg(r) => Line(false, "", "pop", RegName(r), "")
    case Return => Line(false, "", "ret", "", "")
  }

  /** The text the compiler writes for a line with these fields. */
  function RawOf(l: Line): string {
    if l.isLabel then l.name + ":"
    else if l.arg1 == "" then "\t" + l.instruction
    else if l.arg2 == "" then "\t" + l.instruction + " " + l.arg1
    else "\t" + l.instruction + " " + l.arg1 + ", " + l.arg2
  }

  function RawLine(a: Asm): string {
    RawOf(Fields(a))
  }

  function RawLines(code: seq<Asm>): seq<string> {
    seq(|code|, i requires 0 <= i < |code| => RawLine(code[i]))
  }

  function FieldLines(code: seq<Asm>): seq<Line> {
    seq(|code|, i requires 0 <= i < |code| => Fields(code[i]))
  }

  /** The text of emitted code. */
  function Render(code: seq<Asm>): string {
    RenderRaw(RawLines(code))
  }

  lemma RenderAppend(a: seq<Asm>, b: seq<Asm>)
    ensures Render(a + b) == Render(a) + Render(b)
  {
    hide RawLine, RenderRaw;
    assert RawLines(a + b) == RawLines(a) + RawLines(b);
    RenderRawAppend(RawLines(a), RawLines(b));
  }

  // ---------- words ----------

  /** A word that the field scanner keeps whole. */
  predicate IsWord(s: string) {
    s != "" && s[0] != '\'' && s[0] != ';' && s[0] != '#'
    && forall k :: 0 <= k < |s| ==> IsVisible(s[k]) && s[k] != ',' && s[k] != ':'
  }

  /** Lines whose fields are words that fit their buffers. */
  predicate IsPlainLine(l: Line) {
    if l.isLabel then
      IsWord(l.name) && |l.name| < LABEL_BUFFER && l.instruction == "" && l.arg1 == "" && l.arg2 == ""
    else
      && l.name == "" && IsWord(l.instruction) && |l.instruction| < INSTRUCTION_BUFFER
      && (l.arg1 != "" ==> IsWord(l.arg1) && |l.arg1| < ARGUMENT_BUFFER)
      && (l.arg2 != "" ==> l.arg1 != "" && IsWord(l.arg2) && |l.arg2| < ARGUMENT_BUFFER)
  }

  lemma WordInText(before: string, w: string, after: string, stop: char -> bool)
    requires forall k :: 0 <= k < |w| ==> !stop(w[k])
    requires after == "" || stop(after[0])
    ensures var s := before + w + after;
            Scan(s, |before|, stop) == |before| + |w| && s[|before|..|before| + |w|] == w
  {
    var s := before + w + after;
    assert forall k :: |before| <= k < |before| + |w| ==> s[k] == w[k - |before|];
    assert after != "" ==> s[|before| + |w|] == after[0];
    ScanStopsAt(s, |before|, stop, |before| + |w|);
  }

  lemma WordHead(w: string)
    requires IsWord(w)
    ensures w != "" && !IsQuote(w[0]) && IsVisible(w[0])
    ensures forall k :: 0 <= k < |w| ==> !EndsFirstWord(w[k]) && !EndsArgument(w[k]) && !IsSpace(w[k])
  {
  }

  lemma SkipToWord(before: string, gap: string, w: string, after: string)
    requires IsWord(w)
    requires gap == "" || gap == " " || gap == "\t"
    ensures SkipSpace(before + gap + w + after, |before|) == |before| + |gap|
  {
    var s := before + gap + w + after;
    if gap != "" { assert s[|before|] == gap[0]; }
    assert s[|before| + |gap|] == w[0];
    ScanStopsAt(s, |before|, IsVisible, |before| + |gap|);
  }

  lemma SkipToEnd(s: string)
    ensures SkipSpace(s, |s|) == |s|
  {
  }

  // ---------- the three shapes of an instruction line ----------

  lemma ParseOneWord(m: string)
    requires IsWord(m) && |m| < INSTRUCTION_BUFFER
    ensures ParseLine(m) == Line(false, "", m, "", "")
  {
    assert "" + "" + m + "" == m && "" + m + "" == m;
    SkipToWord("", "", m, "");
    WordHead(m);
    WordInText("", m, "", EndsFirstWord);
    SkipToEnd(m);
  }

  lemma ParseTwoWords(m: string, a: string)
    requires IsWord(m) && |m| < INSTRUCTION_BUFFER
    requires IsWord(a) && |a| < ARGUMENT_BUFFER
    ensures ParseLine(m + " " + a) == Line(false, "", m, a, "")
  {
    hide IsWord, Scan, ParseLine, EndsArgument, EndsFirstWord;
    var s := m + " " + a;
    FirstWord(m, " " + a);
    assert s == m + (" " + a);
    ArgumentWord(m, a, "");
    assert s == m + " " + a + "";
    SkipToEnd(s);
    WordHead(m);
    WordHead(a);
  }

  lemma FirstWord(m: string, after: string)
    requires IsWord(m) && |m| < INSTRUCTION_BUFFER
    requires after != "" && after[0] == ' '
    ensures ParseLine(m + after) == ParseArguments(m + after, |m|, false, "", m)
  {
    var s := m + after;
    assert "" + "" + m + after == s && "" + m + after == s;
    SkipToWord("", "", m, after);
    WordHead(m);
    WordInText("", m, after, EndsFirstWord);
    assert s[|m|] == ' ';
  }

  lemma ParseThreeWords(m: string, a: string, b: string)
    requires IsWord(m) && |m| < INSTRUCTION_BUFFER
    requires IsWord(a) && |a| < ARGUMENT_BUFFER
    requires IsWord(b) && |b| < ARGUMENT_BUFFER
    ensures ParseLine(m + " " + a + ", " + b) == Line(false, "", m, a, b)
  {
    hide IsWord, Scan, ParseLine, ParseSecondArgument, EndsArgument, EndsFirstWord;
    var s := m + " " + a + ", " + b;
    FirstWord(m, " " + a + ", " + b);
    assert s == m + (" " + a + ", " + b);
    ArgumentWord(m, a, ", " + b);
    assert s == m + " " + a + (", " + b);
    SecondWord(m + " " + a, b);
    WordHead(m);
    WordHead(a);
  }

  /** The first argument after the instruction word. */
  lemma ArgumentWord(m: string, a: string, after: string)
    requires IsWord(a)
    requires after == "" || after[0] == ','
    ensures var s := m + " " + a + after;
            && SkipSpace(s, |m|) == |m| + 1
            && ArgumentEnd(s, |m| + 1, EndsArgument) == |m| + 1 + |a|
            && s[|m| + 1..|m| + 1 + |a|] == a
  {
    var s := m + " " + a + after;
    WordHead(a);
    SkipToWord(m, " ", a, after);
    assert s == (m + " ") + a + after;
    WordInText(m + " ", a, after, EndsArgument);
    assert s[|m| + 1] == a[0];
  }

  lemma SecondWord(before: string, b: string)
    requires IsWord(b) && |b| < ARGUMENT_BUFFER
    ensures ParseSecondArgument(before + ", " + b, |before|) == b
  {
    var s := before + ", " + b;
    assert s[|before|] == ',' && !IsSpace(',');
    ScanStopsAt(s, |before|, IsVisible, |before|);
    assert s == (before + ",") + " " + b + "" && s == (before + ", ") + b + "";
    SkipToWord(before + ",", " ", b, "");
    WordHead(b);
    WordInText(before + ", ", b, "", IsSpace);
    assert s[|before| + 2] == b[0];
  }

  lemma ParseLabelLine(name: string)
    requires IsWord(name) && |name| < LABEL_BUFFER
    ensures ParseLine(name + ":") == Line(true, name, "", "", "")
  {
    var s := name + ":";
    assert "" + "" + name + ":" == s && "" + name + ":" == s;
    SkipToWord("", "", name, ":");
    WordHead(name);
    WordInText("", name, ":", EndsFirstWord);
    assert s[|name|] == ':';
    SkipToEnd(s);
  }

  /** The line without its tab. */
  function Stripped(l: Line): string {
    if l.isLabel then RawOf(l) else RawOf(l)[1..]
  }

  lemma ParseStripped(l: Line)
    requires IsPlainLine(l)
    ensures ParseLine(Stripped(l)) == l
  {
    if l.isLabel {
      ParseLabelLine(l.name);
    } else if l.arg1 == "" {
      assert Stripped(l) == l.instruction;
      ParseOneWord(l.instruction);
    } else if l.arg2 == "" {
      assert Stripped(l) == l.instruction + " " + l.arg1;
      ParseTwoWords(l.instruction, l.arg1);
    } else {
      assert Stripped(l) == l.instruction + " " + l.arg1 + ", " + l.arg2;
      ParseThreeWords(l.instruction, l.arg1, l.arg2);
    }
  }

  lemma StripPlain(l: Line)
    requires IsPlainLine(l)
    ensures IsRawLine(RawOf(l))
    ensures RawOf(l)[SkipSpace(RawOf(l), 0)..] == Stripped(l)
  {
    var raw := RawOf(l);
    if l.isLabel {
      assert raw == "" + "" + l.name + ":";
      SkipToWord("", "", l.name, ":");
      assert raw[0] == l.name[0];
    } else {
      var after := if l.arg1 == "" then "" else if l.arg2 == "" then " " + l.arg1 else " " + l.arg1 + ", " + l.arg2;
      assert raw == "" + "\t" + l.instruction + after;
      SkipToWord("", "\t", l.instruction, after);
      assert raw[1] == l.instruction[0] && raw[1..][0] == raw[1];
    }
    NoNewline(l);
  }

  lemma NoNewline(l: Line)
    requires IsPlainLine(l)
    ensures forall k :: 0 <= k < |RawOf(l)| ==> RawOf(l)[k] != '\n'
  {
    assert IsSpace('\n');
  }
}
