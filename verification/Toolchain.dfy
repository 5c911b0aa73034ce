/** From C source to running bytes: the compiler's text, read and assembled, does what the source says. */
module Toolchain {
  import opened Words
  import opened LibcText
  import opened X86
  import opened SourceLanguage
  import opened CodeGenerator
  import opened AsmMachine
  import opened CompilerCorrectness
  import opened LabelUniqueness
  import opened ProgramCorrectness
  import opened Encoding
  import opened Disassembler
  import opened AssemblyText
  import opened Passes
  import opened Addresses
  import opened AsmPrinting
  import opened AsmOperands
  import opened ByteMachine
  import opened EmittedCode
  import opened AssemblySource
  import E = EmittedText

  // ---------- sections and addresses of a compiled program's lines ----------

  lemma DirectiveFacts()
    ensures !IsInstruction(DATA_LINE) && NextSection(DATA_LINE, 0) == 1 && !DATA_LINE.isLabel
    ensures !IsInstruction(TEXT_LINE) && NextSection(TEXT_LINE, 1) == 0 && !TEXT_LINE.isLabel
  {
    assert LowerCase("section") == "section";
    assert MnemonicOf("section") == SectionM;
  }

  /** Lines that stay in the data section and are exact there. */
  ghost predicate DataLine(l: Line) {
    !IsDirective(l) && forall names :: LineExact(l, 1, names)
  }

  lemma DeclFacts(d: StringDecl)
    requires IsQuotable(d.text)
    ensures DataLine(NameLine(d)) && DataLine(DbLine(d))
  {
    assert LowerCase("db") == "db";
    assert MnemonicOf("db") == DbM;
    var a := "'" + d.text + "'";
    assert forall k :: 1 <= k < |a| - 1 ==> a[k] == d.text[k - 1];
    assert ClosedQuote(a);
  }

  lemma {:induction false} DeclLinesFacts(decls: seq<StringDecl>)
    requires forall d :: d in decls ==> Declarable(d)
    ensures forall l :: l in DeclLines(decls) ==> DataLine(l)
    ensures forall l :: l in DeclLines(decls) && l.isLabel ==> exists d :: d in decls && l.name == d.name
  {
    hide DataLine, IsNameText;
    if decls != [] {
      var d := decls[0];
      assert Declarable(d);
      DeclFacts(d);
      DeclLinesFacts(decls[1..]);
    }
  }

  lemma CodeFacts(a: Asm)
    requires Assemblable(a)
    ensures !IsDirective(Fields(a))
  {
    hide Assemblable;
    if !a.LabelDef? { ReadMnemonic(a); }
  }

  /** In the data section no code is emitted. */
  lemma StepInData(lines: seq<Line>, k: nat)
    requires k < |lines| && !IsDirective(lines[k])
    ensures SectionAt(lines, k + 1) == SectionAt(lines, k)
    ensures SectionAt(lines, k) == 1 ==> Pass1(lines[..k + 1]).code == Pass1(lines[..k]).code
  {
    assert lines[..k + 1][..k] == lines[..k];
  }

  lemma {:induction false} DataSection(lines: seq<Line>, k: nat)
    requires 1 <= k <= |lines| && lines[0] == DATA_LINE
    requires forall i :: 1 <= i < k ==> !IsDirective(lines[i])
    ensures SectionAt(lines, k) == 1 && Pass1(lines[..k]).code == 0
  {
    if k == 1 {
      DirectiveFacts();
      assert lines[..1][..0] == [];
    } else {
      DataSection(lines, k - 1);
      StepInData(lines, k - 1);
    }
  }

  lemma TextStep(lines: seq<Line>, k0: nat)
    requires 2 <= k0 <= |lines| && lines[k0 - 1] == TEXT_LINE
    requires SectionAt(lines, k0 - 1) == 1 && Pass1(lines[..k0 - 1]).code == 0
    ensures SectionAt(lines, k0) == 0 && Pass1(lines[..k0]).code == 0
  {
    DirectiveFacts();
    assert lines[..k0][..k0 - 1] == lines[..k0 - 1];
  }

  lemma {:induction false} TextSection(lines: seq<Line>, k0: nat, k: nat)
    requires 2 <= k0 <= k <= |lines| && lines[0] == DATA_LINE && lines[k0 - 1] == TEXT_LINE
    requires forall i :: 0 < i < k && i != k0 - 1 ==> !IsDirective(lines[i])
    ensures SectionAt(lines, k) == 0
    ensures k == k0 ==> Pass1(lines[..k]).code == 0
  {
    hide SectionAt, Pass1, IsDirective;
    if k == k0 {
      DataSection(lines, k0 - 1);
      TextStep(lines, k0);
    } else {
      TextSection(lines, k0, k - 1);
      StepInData(lines, k - 1);
    }
  }

  function FirstCodeLine(decls: seq<StringDecl>): nat {
    |HeadLines(decls)|
  }

  /** The shape of a compiled program's lines. */
  lemma LineKinds(decls: seq<StringDecl>, code: seq<Asm>)
    requires forall d :: d in decls ==> Declarable(d)
    requires forall a :: a in code ==> Assemblable(a)
    ensures var lines, k0 := ProgramLines(decls, code), FirstCodeLine(decls);
            && 2 <= k0 && |lines| == k0 + |code|
            && lines[0] == DATA_LINE && lines[k0 - 1] == TEXT_LINE
            && (forall i :: 0 < i < k0 - 1 ==> lines[i] in DeclLines(decls))
            && (forall i :: 0 <= i < |code| ==> lines[k0 + i] == Fields(code[i]))
            && (forall i :: 0 < i < |lines| && i != k0 - 1 ==> !IsDirective(lines[i]))
  {
    hide DataLine, Assemblable, Fields, IsDirective;
    var lines, k0 := ProgramLines(decls, code), FirstCodeLine(decls);
    DeclLinesFacts(decls);
    forall i | 0 < i < |lines| && i != k0 - 1
      ensures !IsDirective(lines[i])
    {
      if i < k0 {
        assert lines[i] == DeclLines(decls)[i - 1];
        DataNotDirective(lines[i]);
      } else {
        assert lines[i] == FieldLines(code)[i - k0] == Fields(code[i - k0]);
        CodeFacts(code[i - k0]);
      }
    }
  }

  lemma DataNotDirective(l: Line)
    requires DataLine(l)
    ensures !IsDirective(l)
  {
  }

  lemma CodeSections(decls: seq<StringDecl>, code: seq<Asm>)
    requires forall d :: d in decls ==> Declarable(d)
    requires forall a :: a in code ==> Assemblable(a)
    ensures var lines, k0 := ProgramLines(decls, code), FirstCodeLine(decls);
            && k0 + |code| == |lines|
            && (forall k :: k0 <= k <= k0 + |code| ==> SectionAt(lines, k) == 0)
            && Pass1(lines[..k0]).code == 0
            && (forall k :: 0 < k < k0 ==> SectionAt(lines, k) == 1)
  {
    hide Assemblable, SectionAt, Pass1, IsDirective, ProgramLines, Declarable;
    LineKinds(decls, code);
    var lines, k0 := ProgramLines(decls, code), FirstCodeLine(decls);
    forall k | k0 <= k <= k0 + |code|
      ensures SectionAt(lines, k) == 0 && (k == k0 ==> Pass1(lines[..k]).code == 0)
    {
      TextSection(lines, k0, k);
    }
    forall k | 0 < k < k0
      ensures SectionAt(lines, k) == 1
    {
      DataSection(lines, k);
    }
  }

  // ---------- labels ----------

  lemma {:induction false} LabelLinesAppend(a: seq<Line>, b: seq<Line>)
    ensures LabelLines(a + b) == LabelLines(a) + LabelLines(b)
  {
    if b == [] {
      assert a + b == a;
    } else {
      assert (a + b)[..|a + b| - 1] == a + b[..|b| - 1];
      LabelLinesAppend(a, b[..|b| - 1]);
    }
  }

  function CodeLabels(code: seq<Asm>): nat {
    LabelLines(FieldLines(code))
  }

  lemma CodeLabelsAppend(a: seq<Asm>, b: seq<Asm>)
    ensures CodeLabels(a + b) == CodeLabels(a) + CodeLabels(b)
  {
    hide Fields;
    assert FieldLines(a + b) == FieldLines(a) + FieldLines(b);
    LabelLinesAppend(FieldLines(a), FieldLines(b));
  }

  lemma HeadCounted(k: nat, off: int, bound: string)
    ensures CodeLabels(WhileHead(k, off, bound)) >= 1
  {
    var lines := FieldLines(WhileHead(k, off, bound));
    LabelLinesAppend(lines[..1], lines[1..]);
    assert lines == lines[..1] + lines[1..];
    assert lines[..1][0].isLabel && lines[..1][..0] == [];
  }

  lemma WhileCounted(k: nat, off: int, bound: string, body: seq<Asm>)
    ensures CodeLabels(WhileCode(k, off, bound, body)) >= 1 + CodeLabels(body)
  {
    hide CodeLabels, WhileHead, WhileTail;
    HeadCounted(k, off, bound);
    CodeLabelsAppend(WhileHead(k, off, bound) + body, WhileTail(k));
    CodeLabelsAppend(WhileHead(k, off, bound), body);
  }

  /** Every loop number used has its label. */
  lemma {:induction false} BlockLoopsCounted(b: Block, t: Tables)
    requires !HasIf(b)
    ensures CompileBlock(b, t).tables.loops <= t.loops + CodeLabels(CompileBlock(b, t).code)
    decreases BlockSize(b)
  {
    hide CodeLabels;
    if b.Then? {
      var first := CompileStmt(b.head, t);
      StmtLoopsCounted(b.head, t);
      BlockLoopsCounted(b.tail, first.tables);
      CodeLabelsAppend(first.code, CompileBlock(b.tail, first.tables).code);
    }
  }

  lemma {:induction false} StmtLoopsCounted(s: Stmt, t: Tables)
    requires !StmtHasIf(s)
    ensures CompileStmt(s, t).tables.loops <= t.loops + CodeLabels(CompileStmt(s, t).code)
    decreases StmtSize(s)
  {
    hide CodeLabels, WhileCode, StoreCode, StoreSyms, CallCode, CompileArgs;
    if s.While? {
      var t0 := t.(syms := Touch(t.syms, s.left), loops := t.loops + 1);
      BlockLoopsCounted(s.body, t0);
      WhileCounted(t.loops, OffsetOf(t.syms, s.left), s.bound, CompileBlock(s.body, t0).code);
    }
  }

  lemma {:induction false} TableNames(lines: seq<Line>, l: Encoding.Label)
    requires l in Pass1(lines).labels
    ensures exists i :: 0 <= i < |lines| && lines[i].isLabel && lines[i].name == l.name
  {
    if lines != [] {
      var n := |lines| - 1;
      if l in Pass1(lines[..n]).labels {
        TableNames(lines[..n], l);
        var i :| 0 <= i < n && lines[..n][i].isLabel && lines[..n][i].name == l.name;
        assert lines[i].isLabel;
      } else {
        assert lines[n].isLabel && lines[n].name == l.name;
      }
    }
  }

  // ---------- buildable programs ----------

  /** String variables whose names are labels of their own. */
  ghost predicate DeclsApart(decls: seq<StringDecl>) {
    forall d :: d in decls ==> Declarable(d) && d.name != START && !Invented(d.name)
  }

  /** No library function is called like a numeral. */
  predicate LibraryNamed(library: map<string, Word>) {
    forall f :: f in library ==> f == "" || !IsDigit(f[0])
  }

  function MainLines(body: Block): seq<Line> {
    ProgramLines(StringDecls(body), MainCode(body))
  }

  /** A program with loops only that the compiler's expression buffers and the assembler's tables can hold. */
  ghost predicate Buildable(body: Block, library: map<string, Word>) {
    && Meaningful(body) && !HasIf(body) && Spelled(body) && E.BlockHeld(body, NO_TABLES)
    && DeclsApart(StringDecls(body)) && LibraryNamed(library)
    && LabelLines(MainLines(body)) <= MAX_LABELS
    && FitsBuffers(MainLines(body))
  }

  lemma FramePiecesGood(n: nat)
    requires 0 < n <= MAX_SYMBOLS
    ensures Good(Prologue(n)) && Good(Epilogue())
  {
    assert Power(10, 0) == 1 && Power(10, 1) == 10 && Power(10, 2) == 100 && Power(10, 3) == 1000;
    NumeralLength(n * 4, 10, 3);
    NumeralShape(n * 4, 10);
    assert IsNumeralText(Decimal(n * 4));
  }

  lemma StartGood()
    ensures Good([LabelDef(START)]) && Good([Return])
  {
  }

  lemma MainGood(body: Block)
    requires Meaningful(body) && !HasIf(body) && Spelled(body)
    requires CompileBlock(body, NO_TABLES).tables.loops <= FEW
    ensures Good(MainCode(body))
  {
    hide Good;
    var compiled := CompileBlock(body, NO_TABLES);
    var n := |compiled.tables.syms|;
    BlockGood(body, NO_TABLES, StringNames(body));
    StartGood();
    if n > 0 {
      FramePiecesGood(n);
      GoodAppend(Prologue(n), compiled.code);
      GoodAppend(Prologue(n) + compiled.code, Epilogue());
      GoodAppend([LabelDef(START)], Prologue(n) + compiled.code + Epilogue());
      GoodAppend([LabelDef(START)] + (Prologue(n) + compiled.code + Epilogue()), [Return]);
      assert MainCode(body) == [LabelDef(START)] + (Prologue(n) + compiled.code + Epilogue()) + [Return];
    } else {
      GoodAppend([LabelDef(START)], compiled.code);
      GoodAppend([LabelDef(START)] + compiled.code, [Return]);
      assert MainCode(body) == [LabelDef(START)] + compiled.code + [Return];
    }
  }

  lemma MainLoops(body: Block)
    requires !HasIf(body)
    ensures CompileBlock(body, NO_TABLES).tables.loops <= CodeLabels(MainCode(body))
  {
    hide CodeLabels;
    var compiled := CompileBlock(body, NO_TABLES);
    var n := |compiled.tables.syms|;
    BlockLoopsCounted(body, NO_TABLES);
    if n > 0 {
      assert MainCode(body) == ([LabelDef(START)] + Prologue(n)) + compiled.code + (Epilogue() + [Return]);
      CodeLabelsAppend([LabelDef(START)] + Prologue(n), compiled.code);
      CodeLabelsAppend(([LabelDef(START)] + Prologue(n)) + compiled.code, Epilogue() + [Return]);
    } else {
      assert MainCode(body) == [LabelDef(START)] + compiled.code + [Return];
      CodeLabelsAppend([LabelDef(START)], compiled.code);
      CodeLabelsAppend([LabelDef(START)] + compiled.code, [Return]);
    }
  }

  lemma BuildableGood(body: Block, library: map<string, Word>)
    requires Buildable(body, library)
    ensures Good(MainCode(body))
  {
    hide Meaningful, FitsBuffers, DeclsApart, CodeLabels, LabelLines, MainCode, HasIf, Spelled;
    LabelLinesAppend(HeadLines(StringDecls(body)), FieldLines(MainCode(body)));
    CodeLabelsAre(MainCode(body));
    MainLoops(body);
    MainGood(body);
  }

  lemma CodeLabelsAre(code: seq<Asm>)
    ensures CodeLabels(code) == LabelLines(FieldLines(code))
  {
  }

  /** The labels of compiled code are `_start` and the compiler's own inventions. */
  lemma MainLabelNames(body: Block, i: nat)
    requires i < |MainCode(body)| && MainCode(body)[i].LabelDef?
    ensures MainCode(body)[i].name == START || Invented(MainCode(body)[i].name)
  {
    var code := MainCode(body);
    var compiled := CompileBlock(body, NO_TABLES);
    var n := |compiled.tables.syms|;
    var name := code[i].name;
    var head := [LabelDef(START)] + (if n > 0 then Prologue(n) else []);
    var tail := (if n > 0 then Epilogue() else []) + [Return];
    assert code == head + compiled.code + tail;
    if |head| <= i < |head| + |compiled.code| {
      assert code[i] == compiled.code[i - |head|];
      if !Invented(name) {
        BlockInvented(body, NO_TABLES, name);
        DefsAt(compiled.code, i - |head|, name);
      }
    }
  }

  lemma HeadNames(decls: seq<StringDecl>, code: seq<Asm>, i: nat)
    requires DeclsApart(decls)
    requires i < FirstCodeLine(decls) && ProgramLines(decls, code)[i].isLabel
    ensures exists d :: d in decls && ProgramLines(decls, code)[i].name == d.name
  {
    hide Invented, DataLine;
    DeclLinesFacts(decls);
    var l := ProgramLines(decls, code)[i];
    assert l == HeadLines(decls)[i];
    if 0 < i < FirstCodeLine(decls) - 1 { assert l == DeclLines(decls)[i - 1]; }
  }

  lemma DeclsDeclarable(decls: seq<StringDecl>)
    requires DeclsApart(decls)
    ensures forall d :: d in decls ==> Declarable(d)
  {
  }

  lemma GoodParts(code: seq<Asm>)
    requires Good(code)
    ensures TargetsDefined(code) && forall a :: a in code ==> Assemblable(a)
  {
  }

  lemma MainLabelsApart(body: Block, i: nat, j: nat)
    requires DeclsApart(StringDecls(body))
    requires i < FirstCodeLine(StringDecls(body)) && j < |MainCode(body)|
    requires MainLines(body)[i].isLabel && MainCode(body)[j].LabelDef?
    ensures MainLines(body)[i].name != MainCode(body)[j].name
  {
    hide MainCode, Invented, ProgramLines;
    HeadNames(StringDecls(body), MainCode(body), i);
    MainLabelNames(body, j);
  }

  lemma MainPlaced(body: Block, library: map<string, Word>)
    requires Buildable(body, library)
    ensures Placed(MainLines(body), FirstCodeLine(StringDecls(body)), MainCode(body))
  {
    hide *;
    BuildableGood(body, library);
    GoodParts(MainCode(body));
    BuildableParts(body, library);
    DeclsDeclarable(StringDecls(body));
    MainLabels(body);
    PlaceCode(body);
  }

  lemma BuildableParts(body: Block, library: map<string, Word>)
    requires Buildable(body, library)
    ensures DeclsApart(StringDecls(body)) && LabelLines(MainLines(body)) <= MAX_LABELS
    ensures !(HasIf(body) && HasWhile(body))
  {
    hide MainCode, ProgramLines, FitsBuffers, Meaningful, Spelled, DeclsApart, HasIf;
  }

  lemma PlaceCode(body: Block)
    requires DeclsApart(StringDecls(body)) && (forall d :: d in StringDecls(body) ==> Declarable(d))
    requires LabelLines(MainLines(body)) <= MAX_LABELS
    requires UniqueLabels(MainCode(body)) && TargetsDefined(MainCode(body)) && forall a :: a in MainCode(body)
                                                                                 ==> Assemblable(a)
    ensures Placed(MainLines(body), FirstCodeLine(StringDecls(body)), MainCode(body))
  {
    hide MainCode, FirstCodeLine, ProgramLines, SectionAt, UniqueLabels, TargetsDefined, Assemblable, Declarable,
         DeclsApart, Fields, IsDirective;
    LineKinds(StringDecls(body), MainCode(body));
    CodeSections(StringDecls(body), MainCode(body));
    forall i, j | 0 <= i < FirstCodeLine(StringDecls(body)) && 0 <= j < |MainCode(body)|
                  && MainLines(body)[i].isLabel && MainCode(body)[j].LabelDef?
      ensures MainLines(body)[i].name != MainCode(body)[j].name
    {
      MainLabelsApart(body, i, j);
    }
  }

  // ---------- the program assembles ----------

  lemma TargetKnown(lines: seq<Line>, k0: nat, code: seq<Asm>, library: map<string, Word>, a: Asm)
    requires Placed(lines, k0, code)
    requires a in code && IsJump(a)
    ensures Resolved(a.target, NamesOf(lines, library))
  {
    hide DefinedAt, Pass1, SectionAt, Assemblable, UniqueLabels;
    TargetIndex(code, a);
    var target := Definition(code, a.target);
    CodeLabelAt(lines, k0, code, target);
    LabelEntry(lines, a.target, k0 + target);
  }

  lemma AssemblableWorded(a: Asm, names: Names)
    requires Assemblable(a)
    requires IsJump(a) ==> Resolved(a.target, names)
    ensures Worded(a) && TargetResolved(a, names)
  {
    hide IsNumeralText, IsSlotOffset, Resolved;
    assert forall t :: IsNumeralText(t) ==> t != "" by { NumeralsNotEmpty(); }
  }

  lemma NumeralsNotEmpty()
    ensures forall t :: IsNumeralText(t) ==> t != ""
  {
  }

  lemma CodeLinesExact(lines: seq<Line>, k0: nat, code: seq<Asm>, library: map<string, Word>, i: nat)
    requires Placed(lines, k0, code) && i < |code|
    ensures LineExact(lines[k0 + i], SectionAt(lines, k0 + i), NamesOf(lines, library))
  {
    hide Assemblable, Pass1, Fields, LineExact, Worded, TargetResolved, IsJump, UniqueLabels, TargetsDefined;
    var a := code[i];
    assert a in code && lines[k0 + i] == Fields(a);
    if IsJump(a) { TargetKnown(lines, k0, code, library, a); }
    AssemblableWorded(a, NamesOf(lines, library));
    EmittedExact(a, NamesOf(lines, library));
  }

  lemma HeadLinesExact(decls: seq<StringDecl>, code: seq<Asm>, names: Names, k: nat)
    requires DeclsApart(decls) && forall a :: a in code ==> Assemblable(a)
    requires k < FirstCodeLine(decls)
    ensures k < |ProgramLines(decls, code)|
            && LineExact(ProgramLines(decls, code)[k], SectionAt(ProgramLines(decls, code), k), names)
  {
    hide Assemblable, SectionAt, ProgramLines, Invented;
    DeclsDeclarable(decls);
    LineKinds(decls, code);
    CodeSections(decls, code);
    DirectiveFacts();
    DeclLinesFacts(decls);
  }

  lemma SectionIs(lines: seq<Line>, k: nat)
    requires k <= |lines|
    ensures SectionAt(lines, k) == Pass1(lines[..k]).section
  {
  }

  lemma MainAssembles(body: Block, library: map<string, Word>)
    requires Buildable(body, library)
    ensures Assembles(MainLines(body), NamesOf(MainLines(body), library))
  {
    hide MainCode, ProgramLines, FirstCodeLine, FitsBuffers, LineExact, SectionAt, DeclsApart, Assemblable, Pass1,
         NamesOf;
    var lines, k0, names := MainLines(body), FirstCodeLine(StringDecls(body)), NamesOf(MainLines(body), library);
    MainPlaced(body, library);
    BuildableGood(body, library);
    GoodParts(MainCode(body));
    DeclsDeclarable(StringDecls(body));
    LineKinds(StringDecls(body), MainCode(body));
    forall k | 0 <= k < |lines|
      ensures LineExact(lines[k], Pass1(lines[..k]).section, names)
    {
      SectionIs(lines, k);
      if k < k0 {
        HeadLinesExact(StringDecls(body), MainCode(body), names, k);
      } else {
        CodeLinesExact(lines, k0, MainCode(body), library, k - k0);
      }
    }
  }

  lemma MainNamesApart(body: Block, library: map<string, Word>)
    requires Buildable(body, library)
    ensures NamesApart(NamesOf(MainLines(body), library))
  {
    hide MainCode, ProgramLines, FirstCodeLine, FitsBuffers, SectionAt, Assemblable, Pass1;
    var lines, k0 := MainLines(body), FirstCodeLine(StringDecls(body));
    MainPlaced(body, library);
    forall l | l in Pass1(lines).labels
      ensures l.name == "" || !IsDigit(l.name[0])
    {
      TableNames(lines, l);
      var i :| 0 <= i < |lines| && lines[i].isLabel && lines[i].name == l.name;
      LineNameShape(body, library, i);
    }
  }

  lemma LineNameShape(body: Block, library: map<string, Word>, i: nat)
    requires Buildable(body, library)
    requires i < |MainLines(body)| && MainLines(body)[i].isLabel
    ensures IsNameText(MainLines(body)[i].name)
  {
    hide *;
    var k0 := FirstCodeLine(StringDecls(body));
    MainPlaced(body, library);
    MainLength(body, library);
    if i < k0 {
      HeadNameShape(body, library, i);
    } else {
      CodeNameShape(MainLines(body), k0, MainCode(body), i);
    }
  }

  lemma HeadNameShape(body: Block, library: map<string, Word>, i: nat)
    requires Buildable(body, library)
    requires i < |MainLines(body)| && MainLines(body)[i].isLabel && i < FirstCodeLine(StringDecls(body))
    ensures IsNameText(MainLines(body)[i].name)
  {
    hide Meaningful, HasIf, Spelled, FitsBuffers, LabelLines, MainCode, ProgramLines, FirstCodeLine, Invented,
         IsNameText, IsQuotable;
    DeclsDeclarable(StringDecls(body));
    HeadNames(StringDecls(body), MainCode(body), i);
  }

  lemma CodeNameShape(lines: seq<Line>, k0: nat, code: seq<Asm>, i: nat)
    requires Placed(lines, k0, code)
    requires k0 <= i < |lines| && |lines| == k0 + |code| && lines[i].isLabel
    ensures IsNameText(lines[i].name)
  {
    hide IsNameText, Fields, SectionAt, UniqueLabels, TargetsDefined;
    assert lines[k0 + (i - k0)] == Fields(code[i - k0]);
    AssemblableName(code, i - k0);
  }

  lemma MainLength(body: Block, library: map<string, Word>)
    requires Buildable(body, library)
    ensures |MainLines(body)| == FirstCodeLine(StringDecls(body)) + |MainCode(body)|
  {
    hide MainCode, Buildable;
  }

  lemma AssemblableName(code: seq<Asm>, i: nat)
    requires i < |code| && forall a :: a in code ==> Assemblable(a)
    requires Fields(code[i]).isLabel
    ensures IsNameText(Fields(code[i]).name)
  {
    hide IsNameText;
    assert code[i] in code;
    LabelFields(code[i]);
  }

  lemma MainEmbedded(body: Block, library: map<string, Word>)
    requires Buildable(body, library)
    ensures Embedded(MainLines(body), FirstCodeLine(StringDecls(body)), MainCode(body), library)
  {
    hide Placed, Assembles, NamesApart, Buildable, MainLines, NamesOf, FirstCodeLine;
    MainPlaced(body, library);
    MainAssembles(body, library);
    MainNamesApart(body, library);
  }

  // ---------- meaning all the way down ----------

  /** The text `main` compiles to. */
  function MainText(body: Block): string {
    ProgramText(StringDecls(body), MainCode(body))
  }

  lemma MainRead(body: Block, library: map<string, Word>)
    requires Buildable(body, library)
    ensures Lines(MainText(body)) == MainLines(body)
  {
    hide MainCode, ProgramText, ProgramLines, Lines, Invented, FitsBuffers, Meaningful, HasIf, Spelled, Assemblable,
         TargetsDefined, Declarable;
    BuildableGood(body, library);
    GoodParts(MainCode(body));
    DeclsDeclarable(StringDecls(body));
    ProgramRead(StringDecls(body), MainCode(body));
  }

  lemma StartsAtZero(body: Block, library: map<string, Word>)
    requires Buildable(body, library)
    ensures FirstCodeLine(StringDecls(body)) <= |MainLines(body)|
    ensures AddressOf(MainLines(body), FirstCodeLine(StringDecls(body)), 0, library) == 0
  {
    hide *;
    var lines, k0 := MainLines(body), FirstCodeLine(StringDecls(body));
    MainLength(body, library);
    MainAssembles(body, library);
    AddressUnfold(lines, k0, 0, library);
    CodeBound(lines, k0, NamesOf(lines, library));
    NoCodeBefore(body, library);
  }

  lemma NoCodeBefore(body: Block, library: map<string, Word>)
    requires Buildable(body, library)
    ensures FirstCodeLine(StringDecls(body)) <= |MainLines(body)|
    ensures Pass1(MainLines(body)[..FirstCodeLine(StringDecls(body))]).code == 0
  {
    hide MainCode, FirstCodeLine, ProgramLines, SectionAt, Pass1, FitsBuffers, Meaningful, HasIf, Spelled, Invented,
         Assemblable, TargetsDefined;
    BuildableGood(body, library);
    GoodParts(MainCode(body));
    DeclsDeclarable(StringDecls(body));
    CodeSections(StringDecls(body), MainCode(body));
  }

  /** A finished run of the bytes: at a `ret`, the caller's registers restored, the slots holding `env`. */
  ghost predicate BytesFinished(body: Block, library: map<string, Word>, before: State, env: Env, b: ByteConfig) {
    && Decode(CodeBytes(Lines(MainText(body)), library), b.ip).instr == Ret
    && b.s.regs[ESP] == before.regs[ESP] && b.s.regs[EBP] == before.regs[EBP]
    && forall x :: x in MainSymbols(body) ==>
         SlotValue(b.s, Base(before), FirstIndex(MainSymbols(body), x)) == Lookup(env, x)
  }

  lemma FinishedBytes(body: Block, library: map<string, Word>, before: State, env: Env, c: Config, b: ByteConfig)
    requires Buildable(body, library)
    requires Finished(body, before, env, c)
    requires Same(MainLines(body), FirstCodeLine(StringDecls(body)), MainCode(body), library, c, b)
    ensures BytesFinished(body, library, before, env, b)
  {
    hide Buildable, MainCode, MainLines, FirstCodeLine, SlotValue, FirstIndex, CodeBytes, Decode, Lines, MainText,
         AddressOf, Embedded;
    MainRead(body, library);
    MainEmbedded(body, library);
    DataDecoded(MainLines(body), FirstCodeLine(StringDecls(body)), MainCode(body), library, c.pc);
    BytesUnfold(MainLines(body), library);
  }

  lemma StartSame(body: Block, library: map<string, Word>, s: State)
    requires Buildable(body, library)
    ensures Same(MainLines(body), FirstCodeLine(StringDecls(body)), MainCode(body), library, Config(0, s),
            ByteConfig(0, s))
  {
    hide Buildable, MainCode, MainLines, FirstCodeLine, AddressOf;
    StartsAtZero(body, library);
    MainLength(body, library);
  }

  lemma BuildableMeaningful(body: Block, library: map<string, Word>)
    requires Buildable(body, library)
    ensures Meaningful(body)
  {
    hide Meaningful, FitsBuffers, LabelLines, DeclsApart, Spelled, HasIf;
  }

  /**
    * The toolchain preserves meaning. Read back from its text and assembled, a compiled program run byte by byte
    * from any machine state ends at its `ret`, with the stack and base pointers restored and every variable's
    * slot holding the source value.
    */
  lemma CompiledBytesRun(body: Block, library: map<string, Word>, s: State, fuel: nat) returns (b: ByteConfig)
    requires Buildable(body, library)
    requires ExecBlock(body, StartEnv(body, s), fuel).Some?
    ensures ByteReaches(CodeBytes(Lines(MainText(body)), library), ByteConfig(0, s), b)
    ensures BytesFinished(body, library, s, ExecBlock(body, StartEnv(body, s), fuel).value, b)
  {
    hide *;
    BuildableMeaningful(body, library);
    var c := MainRuns(body, s, fuel);
    MainRead(body, library);
    MainEmbedded(body, library);
    StartSame(body, library, s);
    b := ReachSimulated(MainLines(body), FirstCodeLine(StringDecls(body)), MainCode(body), library, Config(0, s), c,
      ByteConfig(0, s));
    FinishedBytes(body, library, s, ExecBlock(body, StartEnv(body, s), fuel).value, c, b);
  }
}
