/** The text of a compiled program, and the lines the assembler reads from it. */
module AssemblySource {
  import opened SourceLanguage
  import opened CodeGenerator
  import opened AssemblyText
  import opened AsmPrinting
  import opened AsmOperands

  // ---------- text ----------

  function DeclText(d: StringDecl): string {
    d.name + ":\n    db '" + d.text + "'\n\n"
  }

  function DataText(decls: seq<StringDecl>): string {
    if decls == [] then "" else DeclText(decls[0]) + DataText(decls[1..])
  }

  const DATA_HEADER: string := "section .data\n"
  const TEXT_HEADER: string := "\nsection .text\n"

  /** Data header, data, text header, text. */
  function ProgramText(decls: seq<StringDecl>, code: seq<Asm>): string {
    DATA_HEADER + DataText(decls) + TEXT_HEADER + Render(code)
  }

  // ---------- lines ----------

  const DATA_LINE: Line := Line(false, "", "section", ".data", "")
  const TEXT_LINE: Line := Line(false, "", "section", ".text", "")

  function DbLine(d: StringDecl): Line {
    Line(false, "", "db", "'" + d.text + "'", "")
  }

  function NameLine(d: StringDecl): Line {
    Line(true, d.name, "", "", "")
  }

  function DeclLines(decls: seq<StringDecl>): seq<Line> {
    if decls == [] then [] else [NameLine(decls[0]), DbLine(decls[0])] + DeclLines(decls[1..])
  }

  function HeadLines(decls: seq<StringDecl>): seq<Line> {
    [DATA_LINE] + DeclLines(decls) + [TEXT_LINE]
  }

  function ProgramLines(decls: seq<StringDecl>, code: seq<Asm>): seq<Line> {
    HeadLines(decls) + FieldLines(code)
  }

  // ---------- the raw lines of the text ----------

  function DbRaw(d: StringDecl): string {
    "    db '" + d.text + "'"
  }

  /** `lead` is the blank line left by the declaration before. */
  function DataRaws(decls: seq<StringDecl>, lead: string): seq<string> {
    if decls == [] then [lead + "\nsection .text"]
    else [lead + decls[0].name + ":", DbRaw(decls[0])] + DataRaws(decls[1..], "\n")
  }

  function ProgramRaws(decls: seq<StringDecl>, code: seq<Asm>): seq<string> {
    ["section .data"] + DataRaws(decls, "") + RawLines(code)
  }

  lemma {:induction false} DataRawsText(decls: seq<StringDecl>, lead: string)
    ensures RenderRaw(DataRaws(decls, lead)) == lead + DataText(decls) + TEXT_HEADER
  {
    if decls == [] {
      assert DataRaws(decls, lead)[1..] == [];
      assert RenderRaw(DataRaws(decls, lead)) == lead + "\nsection .text" + "\n" + "";
    } else {
      var d, rest := decls[0], DataRaws(decls[1..], "\n");
      DataRawsText(decls[1..], "\n");
      RenderTwo(lead + d.name + ":", DbRaw(d), rest);
      DeclSplit(lead, d, DataText(decls[1..]) + TEXT_HEADER);
      Associate(lead, DeclText(d), DataText(decls[1..]), TEXT_HEADER);
    }
  }

  lemma RenderTwo(a: string, b: string, rest: seq<string>)
    ensures RenderRaw([a, b] + rest) == a + "\n" + b + "\n" + RenderRaw(rest)
  {
    assert ([a, b] + rest)[1..] == [b] + rest;
    assert ([b] + rest)[1..] == rest;
    assert a + "\n" + (b + "\n" + RenderRaw(rest)) == a + "\n" + b + "\n" + RenderRaw(rest);
  }

  lemma DeclSplit(lead: string, d: StringDecl, after: string)
    ensures (lead + d.name + ":") + "\n" + DbRaw(d) + "\n" + ("\n" + after) == lead + DeclText(d) + after
  {
    assert DbRaw(d) == "    db '" + d.text + "'";
  }

  lemma Associate(a: string, b: string, c: string, d: string)
    ensures a + b + (c + d) == a + (b + c) + d
    ensures "\n" + c + d == "\n" + (c + d)
  {
  }

  /** The text is made of these raw lines. */
  lemma ProgramTextRaws(decls: seq<StringDecl>, code: seq<Asm>)
    ensures RenderRaw(ProgramRaws(decls, code)) == ProgramText(decls, code)
  {
    hide *;
    var head := ["section .data"];
    var data := DataRaws(decls, "");
    ProgramRawsAre(decls, code);
    RenderRawAppend(head + data, RawLines(code));
    RenderRawAppend(head, data);
    HeadText();
    DataRawsText(decls, "");
    RenderAre(code);
    JoinParts(decls, code);
  }

  lemma ProgramRawsAre(decls: seq<StringDecl>, code: seq<Asm>)
    ensures ProgramRaws(decls, code) == ["section .data"] + DataRaws(decls, "") + RawLines(code)
  {
  }

  lemma HeadText()
    ensures RenderRaw(["section .data"]) == DATA_HEADER
  {
    assert ["section .data"][1..] == [];
  }

  lemma RenderAre(code: seq<Asm>)
    ensures RenderRaw(RawLines(code)) == Render(code)
  {
  }

  lemma JoinParts(decls: seq<StringDecl>, code: seq<Asm>)
    ensures DATA_HEADER + ("" + DataText(decls) + TEXT_HEADER) + Render(code) == ProgramText(decls, code)
  {
    hide DataText, Render;
    assert ("" + DataText(decls) + TEXT_HEADER) == DataText(decls) + TEXT_HEADER;
  }

  // ---------- reading the lines ----------

  /** String text that survives quoting on one line of assembly. */
  predicate IsQuotable(text: string) {
    |text| + 2 < ARGUMENT_BUFFER && forall k :: 0 <= k < |text| ==> text[k] != '\'' && text[k] != '\n'
  }

  predicate Declarable(d: StringDecl) {
    IsNameText(d.name) && IsQuotable(d.text)
  }

  predicate IsBlank(lead: string) {
    forall k :: 0 <= k < |lead| ==> IsSpace(lead[k])
  }

  /** A raw line with blanks before `s`. */
  lemma RawAfterBlank(lead: string, s: string)
    requires IsBlank(lead) && s != "" && IsVisible(s[0]) && |s| < MAX_LINE && s[0] != ';' && s[0] != '#'
    requires forall k :: 0 <= k < |s| ==> s[k] != '\n'
    ensures IsRawLine(lead + s) && (lead + s)[SkipSpace(lead + s, 0)..] == s
  {
    var raw := lead + s;
    assert raw[|lead|] == s[0];
    ScanStopsAt(raw, 0, IsVisible, |lead|);
    assert raw[|lead|..] == s;
  }

  lemma SectionWords()
    ensures IsWord("section") && IsWord(".data") && IsWord(".text")
    ensures |"section"| < INSTRUCTION_BUFFER && |".data"| < ARGUMENT_BUFFER && |".text"| < ARGUMENT_BUFFER
    ensures "section" + " " + ".data" == "section .data" && "section" + " " + ".text" == "section .text"
  {
  }

  lemma SectionLines()
    ensures ParseLine("section .data") == DATA_LINE && ParseLine("section .text") == TEXT_LINE
  {
    hide ParseLine, IsWord;
    SectionWords();
    ParseTwoWords("section", ".data");
    ParseTwoWords("section", ".text");
  }

  lemma QuotedArgument(d: StringDecl)
    requires IsQuotable(d.text)
    ensures var s := "db '" + d.text + "'";
            && SkipSpace(s, 2) == 3 && ArgumentEnd(s, 3, EndsArgument) == |s|
            && s[3..|s|] == "'" + d.text + "'" && |s[3..|s|]| < ARGUMENT_BUFFER
  {
    var s := "db '" + d.text + "'";
    assert s[2] == ' ' && s[3] == '\'';
    ScanStopsAt(s, 2, IsVisible, 3);
    forall k | 4 <= k < |s| - 1
      ensures !IsQuote(s[k])
    {
      assert s[k] == d.text[k - 4];
    }
    ScanStopsAt(s, 4, IsQuote, |s| - 1);
  }

  lemma DbWord()
    ensures IsWord("db") && |"db"| < INSTRUCTION_BUFFER
  {
  }

  lemma ParseDbLine(d: StringDecl)
    requires IsQuotable(d.text)
    ensures ParseLine("db '" + d.text + "'") == DbLine(d)
  {
    hide ParseLine, Scan, IsQuotable, IsWord;
    var s := "db '" + d.text + "'";
    DbWord();
    assert s == "db" + (" '" + d.text + "'");
    FirstWord("db", " '" + d.text + "'");
    QuotedArgument(d);
    SkipToEnd(s);
  }

  /** What the assembler reads from one raw line. */
  ghost predicate ReadsAs(raw: string, l: Line) {
    IsRawLine(raw) && ParseLine(raw[SkipSpace(raw, 0)..]) == l
  }

  lemma NameRead(lead: string, d: StringDecl)
    requires IsBlank(lead) && IsNameText(d.name)
    ensures ReadsAs(lead + d.name + ":", NameLine(d))
  {
    hide ParseLine, IsRawLine, SkipSpace;
    var s := d.name + ":";
    NamesAreWords(d.name);
    ParseLabelLine(d.name);
    assert lead + d.name + ":" == lead + s;
    assert forall k :: 0 <= k < |d.name| ==> s[k] == d.name[k];
    assert IsSpace('\n') && s[0] == d.name[0];
    RawAfterBlank(lead, s);
  }

  lemma DbRead(d: StringDecl)
    requires IsQuotable(d.text)
    ensures ReadsAs(DbRaw(d), DbLine(d))
  {
    hide ParseLine, IsRawLine, SkipSpace;
    var s := "db '" + d.text + "'";
    assert DbRaw(d) == "    " + s;
    ParseDbLine(d);
    forall k | 0 <= k < |s|
      ensures s[k] != '\n'
    {
      if 4 <= k < 4 + |d.text| { assert s[k] == d.text[k - 4]; }
    }
    RawAfterBlank("    ", s);
  }

  lemma TextRead(lead: string)
    requires IsBlank(lead)
    ensures ReadsAs(lead + "\nsection .text", TEXT_LINE)
  {
    hide ParseLine, IsRawLine, SkipSpace;
    SectionLines();
    assert lead + "\nsection .text" == (lead + "\n") + "section .text";
    assert IsBlank(lead + "\n");
    RawAfterBlank(lead + "\n", "section .text");
  }

  lemma DataRead()
    ensures ReadsAs("section .data", DATA_LINE)
  {
    hide ParseLine, IsRawLine, SkipSpace;
    SectionLines();
    assert "" + "section .data" == "section .data";
    RawAfterBlank("", "section .data");
  }

  /** Raw lines, read one by one. */
  ghost predicate AllReadAs(raws: seq<string>, lines: seq<Line>) {
    |raws| == |lines| && forall i :: 0 <= i < |raws| ==> ReadsAs(raws[i], lines[i])
  }

  lemma AllReadAppend(r1: seq<string>, l1: seq<Line>, r2: seq<string>, l2: seq<Line>)
    requires AllReadAs(r1, l1) && AllReadAs(r2, l2)
    ensures AllReadAs(r1 + r2, l1 + l2)
  {
    hide ReadsAs;
  }

  lemma {:induction false} AllParsed(raws: seq<string>, lines: seq<Line>)
    requires AllReadAs(raws, lines)
    ensures ParseRaw(raws) == lines
  {
    hide ParseLine, IsRawLine, SkipSpace;
    if raws != [] {
      AllParsed(raws[1..], lines[1..]);
      assert ReadsAs(raws[0], lines[0]);
    }
  }

  lemma {:induction false} DataRawsRead(decls: seq<StringDecl>, lead: string)
    requires IsBlank(lead)
    requires forall d :: d in decls ==> Declarable(d)
    ensures AllReadAs(DataRaws(decls, lead), DeclLines(decls) + [TEXT_LINE])
  {
    hide ReadsAs;
    if decls == [] {
      TextRead(lead);
    } else {
      var d := decls[0];
      assert Declarable(d);
      NameRead(lead, d);
      DbRead(d);
      DataRawsRead(decls[1..], "\n");
      AllReadAppend([lead + d.name + ":", DbRaw(d)], [NameLine(d), DbLine(d)], DataRaws(decls[1..], "\n"),
        DeclLines(decls[1..]) + [TEXT_LINE]);
      assert DeclLines(decls) + [TEXT_LINE] == [NameLine(d), DbLine(d)] + (DeclLines(decls[1..]) + [TEXT_LINE]);
    }
  }

  lemma CodeRead(code: seq<Asm>)
    requires forall a :: a in code ==> Assemblable(a)
    ensures AllReadAs(RawLines(code), FieldLines(code))
  {
    hide ParseLine, IsRawLine, SkipSpace, Assemblable, RawOf, Fields;
    forall i | 0 <= i < |code|
      ensures ReadsAs(RawLines(code)[i], FieldLines(code)[i])
    {
      PlainFields(code[i]);
      StripPlain(Fields(code[i]));
      ParseStripped(Fields(code[i]));
    }
  }

  /** The assembler reads a compiled program's text as exactly the compiler's lines. */
  lemma ProgramRead(decls: seq<StringDecl>, code: seq<Asm>)
    requires forall d :: d in decls ==> Declarable(d)
    requires forall a :: a in code ==> Assemblable(a)
    ensures Lines(ProgramText(decls, code)) == ProgramLines(decls, code)
  {
    hide *;
    var raws := ProgramRaws(decls, code);
    var lines := ProgramLines(decls, code);
    DataRead();
    SingleRead();
    BlankNothing();
    DataRawsRead(decls, "");
    CodeRead(code);
    AllReadAppend(["section .data"], [DATA_LINE], DataRaws(decls, ""), DeclLines(decls) + [TEXT_LINE]);
    AllReadAppend(["section .data"] + DataRaws(decls, ""), [DATA_LINE] + (DeclLines(decls) + [TEXT_LINE]),
      RawLines(code), FieldLines(code));
    ProgramRawsAre(decls, code);
    ProgramLinesAre(decls, code);
    AllParsed(raws, lines);
    ProgramTextRaws(decls, code);
    ReadText(raws, lines);
  }

  lemma SingleRead()
    requires ReadsAs("section .data", DATA_LINE)
    ensures AllReadAs(["section .data"], [DATA_LINE])
  {
    hide ReadsAs;
  }

  lemma BlankNothing()
    ensures IsBlank("")
  {
  }

  lemma ProgramLinesAre(decls: seq<StringDecl>, code: seq<Asm>)
    ensures ProgramLines(decls, code) == [DATA_LINE] + (DeclLines(decls) + [TEXT_LINE]) + FieldLines(code)
  {
    hide DeclLines, FieldLines;
  }

  lemma ReadText(raws: seq<string>, lines: seq<Line>)
    requires AllReadAs(raws, lines) && ParseRaw(raws) == lines
    ensures Lines(RenderRaw(raws)) == lines
  {
    hide ParseLine, IsRawLine, SkipSpace;
    assert forall i :: 0 <= i < |raws| ==> ReadsAs(raws[i], lines[i]);
    LinesOfRendered("", raws);
    assert "" + RenderRaw(raws) == RenderRaw(raws);
  }
}
