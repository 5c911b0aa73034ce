/** The executable of a compiled program: its code, its entry point and its strings, as loaded. */
module ProgramImage {
  import opened Words
  import opened X86
  import opened SourceLanguage
  import opened CodeGenerator
  import opened ProgramCorrectness
  import opened LabelUniqueness
  import opened Encoding
  import opened Disassembler
  import opened AssemblyText
  import opened Passes
  import opened Addresses
  import opened AsmPrinting
  import opened AsmOperands
  import opened ByteMachine
  import opened AssemblySource
  import opened EmittedCode
  import opened AsmMachine
  import opened Toolchain
  import opened ElfImage
  import opened LoadedImage
  import opened ImageAddresses

  lemma {:induction false} DeclLineIndex(decls: seq<StringDecl>, i: nat)
    requires i < |decls|
    ensures |DeclLines(decls)| == 2 * |decls|
    ensures DeclLines(decls)[2 * i] == NameLine(decls[i]) && DeclLines(decls)[2 * i + 1] == DbLine(decls[i])
  {
    if i > 0 {
      DeclLineIndex(decls[1..], i - 1);
    } else if |decls| > 1 {
      DeclLineIndex(decls[1..], 0);
    }
  }

  lemma DeclPlace(decls: seq<StringDecl>, code: seq<Asm>, i: nat)
    requires i < |decls|
    ensures var lines := ProgramLines(decls, code);
            && |HeadLines(decls)| == 2 + 2 * |decls| && |lines| == |HeadLines(decls)| + |code|
            && lines[1 + 2 * i] == NameLine(decls[i]) && lines[2 + 2 * i] == DbLine(decls[i])
  {
    hide DeclLines, Fields;
    DeclLineIndex(decls, i);
    var lines := ProgramLines(decls, code);
    assert lines[1 + 2 * i] == DeclLines(decls)[2 * i];
    assert lines[2 + 2 * i] == DeclLines(decls)[2 * i + 1];
  }

  lemma DeclDefined(decls: seq<StringDecl>, code: seq<Asm>, i: nat)
    requires i < |decls| && forall j :: 0 <= j < i ==> decls[j].name != decls[i].name
    ensures DefinedAt(ProgramLines(decls, code), decls[i].name, 1 + 2 * i)
  {
    hide ProgramLines;
    var lines := ProgramLines(decls, code);
    DeclPlace(decls, code, i);
    forall k | 0 <= k < 1 + 2 * i
      ensures !(lines[k].isLabel && lines[k].name == decls[i].name)
    {
      if k == 0 {
        FirstLine(decls, code);
      } else {
        DeclPlace(decls, code, (k - 1) / 2);
        assert k == 1 + 2 * ((k - 1) / 2) || k == 2 + 2 * ((k - 1) / 2);
      }
    }
  }

  lemma FirstLine(decls: seq<StringDecl>, code: seq<Asm>)
    ensures ProgramLines(decls, code)[0] == DATA_LINE
  {
    hide DeclLines, FieldLines;
  }

  /** The bytes of a string in memory: its characters and a terminator. */
  function StringBytes(text: string): seq<Byte> {
    seq(|text|, i requires 0 <= i < |text| => LowByte(text[i] as int)) + [0]
  }

  lemma {:induction false} QuotedText(text: string)
    requires forall k :: 0 <= k < |text| ==> text[k] != '\''
    ensures QuotedBytes(text + "'") + [0] == StringBytes(text)
  {
    if text == [] {
      assert text + "'" == "'";
    } else {
      assert (text + "'")[1..] == text[1..] + "'";
      QuotedText(text[1..]);
      assert StringBytes(text) == [LowByte(text[0] as int)] + StringBytes(text[1..]);
    }
  }

  lemma DbBytes(d: StringDecl)
    requires IsQuotable(d.text)
    ensures EncodeDb(DbLine(d).arg1) == StringBytes(d.text)
    ensures IsInstruction(DbLine(d)) && LineMnemonic(DbLine(d)) == DbM
  {
    var a := "'" + d.text + "'";
    assert a[1..] == d.text + "'";
    QuotedText(d.text);
    assert LowerCase("db") == "db";
    assert MnemonicOf("db") == DbM;
  }

  lemma LabelRoom(lines: seq<Line>, k: nat)
    requires k < |lines| && lines[k].isLabel && LabelLines(lines) <= MAX_LABELS
    ensures |Pass1(lines[..k]).labels| < MAX_LABELS
  {
    hide Pass1;
    LabelCount(lines[..k]);
    LabelsBefore(lines, k);
  }

  lemma DeclSection(body: Block, library: map<string, Word>, i: nat)
    requires Buildable(body, library) && i < |StringDecls(body)|
    ensures 1 + 2 * i < |MainLines(body)| && Pass1(MainLines(body)[..1 + 2 * i]).section == 1
    ensures Declarable(StringDecls(body)[i])
  {
    hide MainCode, ProgramLines, SectionAt, Pass1, FitsBuffers, Meaningful, HasIf, Spelled, Invented, Assemblable,
         TargetsDefined;
    BuildableGood(body, library);
    GoodParts(MainCode(body));
    DeclsDeclarable(StringDecls(body));
    DeclPlace(StringDecls(body), MainCode(body), i);
    CodeSections(StringDecls(body), MainCode(body));
    SectionIs(MainLines(body), 1 + 2 * i);
    assert StringDecls(body)[i] in StringDecls(body);
  }

  lemma BuildableRoom(body: Block, library: map<string, Word>)
    requires Buildable(body, library)
    ensures LabelLines(MainLines(body)) <= MAX_LABELS
            && MainLines(body) == ProgramLines(StringDecls(body), MainCode(body))
  {
    hide MainCode, ProgramLines, FitsBuffers, Meaningful, HasIf, Spelled, Invented;
  }

  /** The program of every string variable finds the string's characters and terminator at its label's address. */
  lemma StringsLoaded(body: Block, library: map<string, Word>, image: seq<Byte>, i: nat)
    requires Buildable(body, library) && IsImageOf(image, MainLines(body), library)
    requires var decls := StringDecls(body); i < |decls| && forall j :: 0 <= j < i ==> decls[j].name != decls[i].name
    ensures LoadedAt(image, ImmOrAddress(StringDecls(body)[i].name, NamesOf(MainLines(body), library)),
            StringBytes(StringDecls(body)[i].text))
  {
    hide *;
    var decls, lines := StringDecls(body), MainLines(body);
    var k := 1 + 2 * i;
    BuildableRoom(body, library);
    MainAssembles(body, library);
    DeclSection(body, library, i);
    DeclPlace(decls, MainCode(body), i);
    DeclDefined(decls, MainCode(body), i);
    NameIsLabel(decls[i]);
    LabelRoom(lines, k);
    DeclarableQuotable(decls[i]);
    DbBytes(decls[i]);
    StringLoaded(image, lines, decls[i].name, k, library);
  }

  lemma NameIsLabel(d: StringDecl)
    ensures NameLine(d).isLabel && NameLine(d).instruction == ""
  {
  }

  lemma DeclarableQuotable(d: StringDecl)
    requires Declarable(d)
    ensures IsQuotable(d.text)
  {
  }

  // ---------- the entry point ----------

  lemma NoStartLabel(body: Block, library: map<string, Word>)
    requires Buildable(body, library)
    requires forall d :: d in StringDecls(body) ==> d.name != "start"
    ensures FindLabel(Pass1(MainLines(body)).labels, "start") == -1
  {
    hide *;
    var lines := MainLines(body);
    forall i | 0 <= i < |lines|
      ensures !(lines[i].isLabel && lines[i].name == "start")
    {
      LineNotStart(body, library, i);
    }
    UnseenLabel(lines, "start");
  }

  lemma StartNotInvented()
    ensures !Invented("start") && "start" != START
  {
    forall k: nat
      ensures "start" != LoopLabel(k) && "start" != ElseLabel(k) && "start" != EndLabel(k)
    {
      assert "start"[0] == 's' && LoopLabel(k)[0] == 'l' && ElseLabel(k)[0] == 'e' && EndLabel(k)[0] == 'e';
    }
  }

  lemma LineNotStart(body: Block, library: map<string, Word>, i: nat)
    requires Buildable(body, library) && i < |MainLines(body)|
    requires forall d :: d in StringDecls(body) ==> d.name != "start"
    ensures !(MainLines(body)[i].isLabel && MainLines(body)[i].name == "start")
  {
    hide *;
    var lines, k0 := MainLines(body), FirstCodeLine(StringDecls(body));
    StartNotInvented();
    MainLength(body, library);
    BuildableRoom(body, library);
    BuildableApart(body, library);
    if lines[i].isLabel {
      if i < k0 {
        HeadNames(StringDecls(body), MainCode(body), i);
      } else {
        MainPlaced(body, library);
        PlacedLine(lines, k0, MainCode(body), i - k0);
        LabelFields(MainCode(body)[i - k0]);
        MainLabelNames(body, i - k0);
      }
    }
  }

  lemma BuildableApart(body: Block, library: map<string, Word>)
    requires Buildable(body, library)
    ensures DeclsApart(StringDecls(body))
  {
    hide MainCode, ProgramLines, FitsBuffers, Meaningful, HasIf, Spelled, DeclsApart;
  }

  lemma PlacedLine(lines: seq<Line>, k0: nat, code: seq<Asm>, i: nat)
    requires Placed(lines, k0, code) && i < |code|
    ensures k0 + i < |lines| && lines[k0 + i] == Fields(code[i])
  {
    hide Fields, SectionAt, UniqueLabels, TargetsDefined, Assemblable;
  }

  /**
    * The executable starts at `main`: its entry point is the address where the machine that runs the code
    * from its first byte begins, and all of the code is loaded from there on.
    */
  lemma ImageStartsMain(body: Block, library: map<string, Word>, image: seq<Byte>)
    requires Buildable(body, library) && IsImageOf(image, MainLines(body), library)
    requires forall d :: d in StringDecls(body) ==> d.name != "start"
    ensures Dword(image, 24) == CODE_BASE
    ensures LoadedAt(image, CODE_BASE, CodeBytes(MainLines(body), library))
  {
    hide Pass1, Pass2, Buildable, MainLines, Image, Loaded, NamesOf, FindLabel, EntryPoint, Dword;
    NoStartLabel(body, library);
    var lines := MainLines(body);
    var e := Pass2(lines, NamesOf(lines, library));
    var external := CallsLibrary(lines);
    HeadersRead(e.code, e.data, 0, external);
    EntryZero();
    forall i | 0 <= i < |e.code|
      ensures Loaded(image, CODE_BASE + i) == Some(e.code[i])
    {
      SectionsLoaded(e.code, e.data, 0, external, i);
    }
  }

  lemma EntryZero()
    ensures EntryPoint(0) == CODE_BASE
  {
  }
}
