/** What each statement adds to the compiler's output, piece by piece, and the room it needs. */
module EmittedText {
  import opened Words
  import opened LibcText
  import opened X86
  import opened SourceLanguage
  import opened CodeGenerator
  import opened CompilerCorrectness
  import opened AssemblyText
  import opened AsmPrinting
  import opened AssemblySource
  import opened Grammar
  import opened TextBuffer
  import opened ExprRecord

  const MAX_ASM_OUTPUT: nat := 0x1000

  /** A label's number is written into ten bytes, the terminator included. */
  const MAX_LABEL_NUMBER: nat := 999_999_999

  /** The text and data written so far, and the compiler's tables. */
  datatype Output = Output(text: string, data: string, tables: Tables)

  function Emit(o: Output, c: Compiled, decls: seq<StringDecl>): Output {
    Output(o.text + Render(c.code), o.data + DataText(decls), c.tables)
  }

  /** Output that fits the compiler's buffers and tables. */
  predicate Fits(o: Output) {
    && |o.text| < MAX_ASM_OUTPUT && |o.data| < MAX_ASM_OUTPUT
    && |o.tables.syms| <= MAX_SYMBOLS && |o.tables.strings| <= MAX_SYMBOLS
    && o.tables.loops <= MAX_LABEL_NUMBER && o.tables.ifs <= MAX_LABEL_NUMBER
  }

  function LocationText(loc: Location): string {
    match loc
    case Immediate(text) => text
    case Slot(off) => MemText(off)
    case DataName(name) => name
    case InEax => "eax"
  }

  // ---------- the parser's own small buffers ----------

  /** Room for an expression's first operand, as a number and as a location, and for the bound of a loop. */
  const NUMBER_BUFFER: nat := 20
  const LOCATION_BUFFER: nat := 30

  predicate PrimaryHeld(p: Primary, strings: seq<string>) {
    match p
    case Number(text) => |text| < NUMBER_BUFFER
    case Variable(name) => name in strings ==> |name| < LOCATION_BUFFER
  }

  /** The operand fits its buffers, and the record keeps the whole code. */
  predicate ExprHeld(e: Expr, syms: seq<string>, strings: seq<string>) {
    PrimaryHeld(e.first, strings) && |Render(CompileExpr(e, syms, strings).code)| <= MAX_EXPR_CODE
  }

  predicate ArgsHeld(args: seq<Expr>, syms: seq<string>, strings: seq<string>) {
    args != [] ==>
      ExprHeld(args[0], syms, strings) && ArgsHeld(args[1..], CompileExpr(args[0], syms, strings).syms, strings)
  }

  predicate StmtHeld(s: Stmt, t: Tables)
    decreases s
  {
    match s
    case DeclareInit(_, e) => ExprHeld(e, t.syms, t.strings)
    case Assign(_, e) => ExprHeld(e, t.syms, t.strings)
    case While(left, bound, body) => |bound| < NUMBER_BUFFER && BlockHeld(body, LoopTables(left, t))
    case If(left, right, thenBlock, elseBlock) =>
      var t0 := IfTables(left, right, t);
      && BlockHeld(thenBlock, t0)
      && (elseBlock.Some? ==> BlockHeld(elseBlock.value, CompileBlock(thenBlock, t0).tables))
    case CallExternal(_, args) => ArgsHeld(args, t.syms, t.strings)
    case _ => true
  }

  /** Every expression of a block fits the parser's buffers when it is parsed. */
  predicate BlockHeld(b: Block, t: Tables)
    decreases b
  {
    b.Then? ==> StmtHeld(b.head, t) && BlockHeld(b.tail, CompileStmt(b.head, t).tables)
  }

  lemma IfHeld(s: Stmt, t: Tables)
    requires s.If? && StmtHeld(s, t)
    ensures BlockHeld(s.thenBlock, IfTables(s.left, s.right, t))
    ensures s.elseBlock.Some? ==>
              BlockHeld(s.elseBlock.value, CompileBlock(s.thenBlock, IfTables(s.left, s.right, t)).tables)
  {
  }

  lemma WhileHeld(s: Stmt, t: Tables)
    requires s.While? && StmtHeld(s, t)
    ensures BlockHeld(s.body, LoopTables(s.left, t))
  {
  }

  lemma HeldCode(e: Expr, syms: seq<string>, strings: seq<string>)
    requires ExprHeld(e, syms, strings)
    ensures var code := Render(CompileExpr(e, syms, strings).code); |code| < RECORD_SIZE && Stored(code) == code
    ensures PrimaryHeld(e.first, strings)
  {
    hide Render, CompileExpr;
  }

  /** The record keeps an expression's code exactly when the code is held. */
  lemma CodeKeptIff(e: Expr, syms: seq<string>, strings: seq<string>)
    requires PrimaryHeld(e.first, strings)
    ensures var code := Render(CompileExpr(e, syms, strings).code); Stored(code) == code <==> ExprHeld(e, syms, strings)
  {
    hide Render, CompileExpr;
    StoredIff(Render(CompileExpr(e, syms, strings).code));
  }

  // ---------- the length of an expression's code ----------

  function AddsLength(adds: seq<string>): nat {
    if adds == [] then 0 else 11 + |adds[0]| + AddsLength(adds[1..])
  }

  lemma {:induction false} AddsRendered(adds: seq<string>)
    requires "" !in adds
    ensures |Render(AddChain(adds))| == AddsLength(adds)
  {
    if adds == [] {
      NothingRendered();
    } else {
      hide Render;
      AddsRendered(adds[1..]);
      AddLineText(adds[0]);
      RenderAppend([CodeGenerator.AddText(EAX, adds[0])], AddChain(adds[1..]));
    }
  }

  lemma EmittedTables()
    ensures forall o: Output, c: Compiled, decls: seq<StringDecl> :: Emit(o, c, decls).tables == c.tables
  {
  }

  lemma NothingStored()
    ensures Stored("") == ""
  {
  }

  /** The first line of a chain is no longer than the chain. */
  lemma FirstFits(loc: Location, adds: seq<string>)
    ensures |Render([LoadEax(loc)])| <= |Render([LoadEax(loc)] + AddChain(adds))|
  {
    hide Render, LoadEax;
    RenderAppend([LoadEax(loc)], AddChain(adds));
  }

  lemma StoredNulFree(memory: string, text: string)
    requires TextAt(memory, text)
    ensures NulFree(text)
  {
  }

  lemma LoadPieces(operand: string)
    ensures NulFree("\tmov eax, ") && NulFree("\n") && "" + "\tmov eax, " == "\tmov eax, "
  {
  }

  lemma AddPieces(text: string, number: string)
    ensures NulFree("\tadd eax, ") && NulFree("\n")
    ensures text + "\tadd eax, " + number + "\n" == text + ("\tadd eax, " + number + "\n")
  {
  }

  lemma NoMoreAdds(done: seq<Asm>)
    ensures done + AddChain([]) == done
  {
  }

  /** How long the code of a chain is: eleven characters and the operand for every line. */
  lemma ChainLength(e: Expr, syms: seq<string>, strings: seq<string>)
    requires e.adds != [] && "" !in e.adds && LocationText(CompilePrimary(e.first, syms, strings).0) != ""
    ensures |Render(CompileExpr(e, syms, strings).code)|
         == 11 + |LocationText(CompilePrimary(e.first, syms, strings).0)| + AddsLength(e.adds)
  {
    hide Render, LocationText, CompilePrimary, LoadEax;
    var loc := CompilePrimary(e.first, syms, strings).0;
    LoadText(loc);
    AddsRendered(e.adds);
    RenderAppend([LoadEax(loc)], AddChain(e.adds));
  }

  function Ones(n: nat): (s: seq<string>)
    ensures |s| == n && "" !in s && AddsLength(s) == 12 * n
  {
    if n == 0 then [] else ["1"] + Ones(n - 1)
  }

  /** A sum of n + 1 ones is kept exactly when n is at most 15: with 17 ones the last line is cut. */
  lemma OnesKeptIff(n: nat, syms: seq<string>, strings: seq<string>)
    requires n > 0
    ensures ExprHeld(Expr(Number("1"), Ones(n)), syms, strings) <==> n <= 15
  {
    hide Render;
    ChainLength(Expr(Number("1"), Ones(n)), syms, strings);
  }

  lemma RenderOne(a: Asm)
    ensures Render([a]) == RawLine(a) + "\n"
  {
    hide RawLine;
    assert RawLines([a]) == [RawLine(a)];
    assert RenderRaw([RawLine(a)]) == RawLine(a) + "\n" + "";
  }

  lemma LoadText(loc: Location)
    requires LocationText(loc) != ""
    ensures Render([LoadEax(loc)]) == "\tmov eax, " + LocationText(loc) + "\n"
  {
    hide MemText;
    RenderOne(LoadEax(loc));
  }

  /** What parsing an expression yields: code, and the text of the operand that holds the value. */
  datatype ExprInfo = ExprInfo(code: string, operand: string)

  ghost predicate InfoOf(info: ExprInfo, ec: ExprCode) {
    info.code == Render(ec.code) && info.operand == LocationText(ec.loc)
  }

  lemma NumberNulFree(w: Word)
    ensures NulFree(ItoaText(w))
  {
    var n: nat := if Signed(w) < 0 then -Signed(w) else w;
    NumeralShape(n, 10);
  }

  lemma NothingRendered()
    ensures Render([]) == "" && NulFree("")
  {
    assert RawLines([]) == [];
  }

  lemma EaxText()
    ensures LocationText(InEax) == "eax" && NulFree("eax")
  {
  }

  lemma AddOne(done: seq<Asm>, adds: seq<string>)
    requires adds != []
    ensures var add := CodeGenerator.AddText(EAX, adds[0]);
            && Render(done + [add]) == Render(done) + Render([add])
            && done + AddChain(adds) == done + [add] + AddChain(adds[1..])
  {
    hide Render;
    RenderAppend(done, [CodeGenerator.AddText(EAX, adds[0])]);
  }

  lemma AddLineText(text: string)
    requires text != ""
    ensures Render([CodeGenerator.AddText(EAX, text)]) == "\tadd eax, " + text + "\n"
    ensures NulFree(text) ==> NulFree("\tadd eax, " + text + "\n")
  {
    RenderOne(CodeGenerator.AddText(EAX, text));
  }

  lemma DeclarationText(d: StringDecl)
    ensures DataText([d]) == d.name + ":\n    db '" + d.text + "'\n\n"
    ensures NulFree(":\n    db '") && NulFree("'\n\n")
    ensures |DataText([d])| == |d.name| + 10 + |d.text| + 3
  {
    assert [d][1..] == [];
    assert DataText([d]) == DeclText(d) + "";
  }

  /** The text of a store: the expression's code, the load into eax, the store into the slot. */
  lemma StoreText(ec: ExprCode, off: int)
    requires LocationText(ec.loc) != ""
    ensures Render(ec.code + [LoadEax(ec.loc), MovStore(off, EAX)])
         == Render(ec.code) + ("\tmov eax, " + LocationText(ec.loc) + "\n") + ("\tmov " + MemText(off) + ", eax\n")
    ensures NulFree(LocationText(ec.loc)) ==> NulFree("\tmov eax, " + LocationText(ec.loc) + "\n")
    ensures NulFree(MemText(off)) ==> NulFree("\tmov " + MemText(off) + ", eax\n")
  {
    hide MemText, LocationText, Render;
    assert ec.code + [LoadEax(ec.loc), MovStore(off, EAX)] == ec.code + [LoadEax(ec.loc)] + [MovStore(off, EAX)];
    RenderAppend(ec.code + [LoadEax(ec.loc)], [MovStore(off, EAX)]);
    RenderAppend(ec.code, [LoadEax(ec.loc)]);
    LoadText(ec.loc);
    StoreLine(off);
  }

  lemma StoreLine(off: int)
    ensures Render([MovStore(off, EAX)]) == "\tmov " + MemText(off) + ", eax\n"
  {
    hide ItoaText;
    RenderOne(MovStore(off, EAX));
    assert MemText(off) != "";
    assert "\tmov " + MemText(off) + ", eax" + "\n" == "\tmov " + MemText(off) + ", eax\n";
  }

  lemma EmitThen(o: Output, c1: Compiled, d1: seq<StringDecl>, c2: Compiled, d2: seq<StringDecl>)
    ensures Emit(Emit(o, c1, d1), c2, d2) == Emit(o, Compiled(c1.code + c2.code, c2.tables), d1 + d2)
  {
    hide Render;
    RenderAppend(c1.code, c2.code);
    DataTextAppend(d1, d2);
    assert o.text + Render(c1.code) + Render(c2.code) == o.text + (Render(c1.code) + Render(c2.code));
    assert o.data + DataText(d1) + DataText(d2) == o.data + (DataText(d1) + DataText(d2));
  }

  lemma {:induction false} DataTextAppend(a: seq<StringDecl>, b: seq<StringDecl>)
    ensures DataText(a + b) == DataText(a) + DataText(b)
  {
    hide DeclText;
    if a == [] {
      assert a + b == b;
    } else {
      assert (a + b)[1..] == a[1..] + b;
      DataTextAppend(a[1..], b);
    }
  }

  lemma EmitNothing(o: Output)
    ensures Emit(o, Compiled([], o.tables), []) == o
  {
    NothingRendered();
    assert o.text + "" == o.text && o.data + "" == o.data;
  }

  /** Room for the whole is room for the first part. */
  lemma FitsFirst(o: Output, c1: Compiled, d1: seq<StringDecl>, c2: Compiled, d2: seq<StringDecl>)
    requires Fits(Emit(Emit(o, c1, d1), c2, d2)) && Grown(c1.tables, c2.tables)
             && c1.tables.strings <= c2.tables.strings
    ensures Fits(Emit(o, c1, d1)) && |o.text| + |Render(c1.code)| < MAX_ASM_OUTPUT
  {
    hide Render, DataText;
  }

  lemma {:induction false} BlockStringsGrow(b: Block, t: Tables)
    ensures t.strings <= CompileBlock(b, t).tables.strings
    decreases BlockSize(b)
  {
    if b.Then? {
      StmtStringsGrow(b.head, t);
      BlockStringsGrow(b.tail, CompileStmt(b.head, t).tables);
    }
  }

  lemma {:induction false} StmtStringsGrow(s: Stmt, t: Tables)
    ensures t.strings <= CompileStmt(s, t).tables.strings
    decreases StmtSize(s)
  {
    match s {
      case While(left, bound, body) =>
        BlockStringsGrow(body, t.(syms := Touch(t.syms, left), loops := t.loops + 1));
      case If(left, right, thenBlock, elseBlock) =>
        var t0 := t.(syms := Touch(Touch(t.syms, left), right), ifs := t.ifs + 1);
        BlockStringsGrow(thenBlock, t0);
        if elseBlock.Some? { BlockStringsGrow(elseBlock.value, CompileBlock(thenBlock, t0).tables); }
      case _ =>
    }
  }

  lemma BlockPlan(b: Block, o: Output)
    requires b.Then? && Fits(Emit(o, CompileBlock(b, o.tables), StringDecls(b)))
    ensures var o1 := Emit(o, CompileStmt(b.head, o.tables), StmtStringDecls(b.head));
            && Fits(o1)
            && Emit(o1, CompileBlock(b.tail, o1.tables), StringDecls(b.tail))
               == Emit(o, CompileBlock(b, o.tables), StringDecls(b))
  {
    hide Fits, CompileStmt, Grown;
    var c1 := CompileStmt(b.head, o.tables);
    var c2 := CompileBlock(b.tail, c1.tables);
    EmitThen(o, c1, StmtStringDecls(b.head), c2, StringDecls(b.tail));
    BlockGrows(b.tail, c1.tables);
    BlockStringsGrow(b.tail, c1.tables);
    FitsFirst(o, c1, StmtStringDecls(b.head), c2, StringDecls(b.tail));
  }

  lemma WhilePlan(s: Stmt, o: Output)
    requires s.While? && Fits(Emit(o, CompileStmt(s, o.tables), StmtStringDecls(s)))
    ensures var k, off := o.tables.loops, OffsetOf(o.tables.syms, s.left);
            var o1 := o.(tables := LoopTables(s.left, o.tables));
            var o2 := Emit(o1, Compiled(WhileHead(k, off, s.bound), o1.tables), []);
            var o3 := Emit(o2, CompileBlock(s.body, o2.tables), StringDecls(s.body));
            && k <= MAX_LABEL_NUMBER && o1.tables == LoopTables(s.left, o.tables)
            && |o1.text| + |Render(WhileHead(k, off, s.bound))| < MAX_ASM_OUTPUT
            && Fits(o3) && |o3.text| + |Render(WhileTail(k))| < MAX_ASM_OUTPUT
            && Emit(o3, Compiled(WhileTail(k), o3.tables), []) == Emit(o, CompileStmt(s, o.tables), StmtStringDecls(s))
  {
    hide Render, DataText, WhileHead, WhileTail, CompileBlock, OffsetOf;
    var k, off := o.tables.loops, OffsetOf(o.tables.syms, s.left);
    var o1 := o.(tables := LoopTables(s.left, o.tables));
    var head := Compiled(WhileHead(k, off, s.bound), o1.tables);
    var inner := CompileBlock(s.body, o1.tables);
    var tail := Compiled(WhileTail(k), inner.tables);
    BlockGrows(s.body, o1.tables);
    EmitThen(o1, head, [], inner, StringDecls(s.body));
    EmitThen(o1, Compiled(head.code + inner.code, inner.tables), [] + StringDecls(s.body), tail, []);
    assert [] + StringDecls(s.body) + [] == StringDecls(s.body);
    RenderAppend(head.code, inner.code);
    RenderAppend(head.code + inner.code, tail.code);
  }

  /** The text of one emitted instruction. */
  function LineText(a: Asm): string {
    RawLine(a) + "\n"
  }

  lemma LinesText(a: Asm, b: Asm)
    ensures Render([a, b]) == LineText(a) + LineText(b)
  {
    hide Render, RawLine;
    RenderAppend([a], [b]);
    RenderOne(a);
    RenderOne(b);
    assert [a] + [b] == [a, b];
  }

  lemma LinesText3(a: Asm, b: Asm, c: Asm)
    ensures Render([a, b, c]) == LineText(a) + LineText(b) + LineText(c)
  {
    hide Render, RawLine;
    RenderAppend([a, b], [c]);
    LinesText(a, b);
    RenderOne(c);
    assert [a, b] + [c] == [a, b, c];
  }

  lemma LabelLine(name: string)
    requires NulFree(name)
    ensures LineText(LabelDef(name)) == name + ":\n" && NulFree(name + ":\n")
  {
    assert name + ":" + "\n" == name + ":\n";
  }

  lemma JumpLine(a: Asm)
    requires (a.JmpTo? || a.JgeTo? || a.JeTo? || a.CallTo?) && NulFree(a.target) && a.target != ""
    ensures var word := if a.JmpTo? then "\tjmp " else if a.JgeTo? then "\tjge "
                        else if a.JeTo? then "\tje " else "\tcall ";
            LineText(a) == word + a.target + "\n" && NulFree(word + a.target + "\n")
  {
  }

  lemma JoinNulFree(a: string, b: string)
    requires NulFree(a) && NulFree(b)
    ensures NulFree(a + b)
  {
  }

  lemma LabelsNulFree(k: nat)
    ensures NulFree(LoopLabel(k)) && NulFree(ElseLabel(k)) && NulFree(EndLabel(k))
    ensures LoopLabel(k) != "" && ElseLabel(k) != "" && EndLabel(k) != ""
  {
    hide Decimal;
    DecimalNulFree(k);
  }

  lemma CompareLine(off: int, bound: string)
    requires bound != "" && NulFree(bound)
    ensures var text := "\tcmp " + MemText(off) + ", " + bound + "\n";
            LineText(CmpText(off, bound)) == text && NulFree(text)
  {
    hide ItoaText;
    MemNulFree(off);
  }

  lemma WhileHeadText(k: nat, off: int, bound: string)
    requires bound != "" && NulFree(bound)
    ensures var text := (LoopLabel(k) + ":\n") + ("\tcmp " + MemText(off) + ", " + bound + "\n")
            + ("\tjge " + EndLabel(k) + "\n");
            text == Render(WhileHead(k, off, bound)) && NulFree(text)
  {
    hide Render, MemText, LineText, LoopLabel, EndLabel, NulFree;
    LabelsNulFree(k);
    LinesText3(LabelDef(LoopLabel(k)), CmpText(off, bound), JgeTo(EndLabel(k)));
    LabelLine(LoopLabel(k));
    CompareLine(off, bound);
    JumpLine(JgeTo(EndLabel(k)));
    JoinNulFree(LineText(LabelDef(LoopLabel(k))), LineText(CmpText(off, bound)));
    JoinNulFree(LineText(LabelDef(LoopLabel(k))) + LineText(CmpText(off, bound)), LineText(JgeTo(EndLabel(k))));
  }

  lemma MemNulFree(off: int)
    ensures NulFree(MemText(off)) && MemText(off) != ""
  {
    NumberNulFree(Wrap(off));
  }

  lemma DecimalNulFree(k: nat)
    ensures NulFree(Decimal(k)) && Decimal(k) != ""
  {
    NumeralShape(k, 10);
  }

  lemma SmallItoa(k: nat)
    requires k <= MAX_LABEL_NUMBER
    ensures ItoaText(k) == Decimal(k)
  {
  }

  lemma WhileTailText(k: nat)
    ensures var text := ("\tjmp " + LoopLabel(k) + "\n") + (EndLabel(k) + ":\n");
            text == Render(WhileTail(k)) && NulFree(text)
  {
    hide Render, LineText, LoopLabel, EndLabel, NulFree;
    LabelsNulFree(k);
    LinesText(JmpTo(LoopLabel(k)), LabelDef(EndLabel(k)));
    LabelLine(EndLabel(k));
    JumpLine(JmpTo(LoopLabel(k)));
    JoinNulFree(LineText(JmpTo(LoopLabel(k))), LineText(LabelDef(EndLabel(k))));
  }

  function ElseCompiled(e: Option<Block>, t: Tables): Compiled {
    if e.Some? then CompileBlock(e.value, t) else Compiled([], t)
  }

  function ElseDecls(e: Option<Block>): seq<StringDecl> {
    if e.Some? then StringDecls(e.value) else []
  }

  lemma IfPlan(s: Stmt, o: Output)
    requires s.If? && Fits(Emit(o, CompileStmt(s, o.tables), StmtStringDecls(s)))
    ensures var k, off1, off2 := o.tables.ifs, OffsetOf(o.tables.syms, s.left),
            OffsetOf(Touch(o.tables.syms, s.left), s.right);
            var o1 := o.(tables := IfTables(s.left, s.right, o.tables));
            var o2 := Emit(o1, Compiled(IfHead(k, off1, off2), o1.tables), []);
            var o3 := Emit(o2, CompileBlock(s.thenBlock, o2.tables), StringDecls(s.thenBlock));
            var o4 := Emit(o3, Compiled(IfMiddle(k), o3.tables), []);
            var o5 := Emit(o4, ElseCompiled(s.elseBlock, o4.tables), ElseDecls(s.elseBlock));
            && k <= MAX_LABEL_NUMBER
            && |o1.text| + |Render(IfHead(k, off1, off2))| < MAX_ASM_OUTPUT
            && Fits(o3) && |o3.text| + |Render(IfMiddle(k))| < MAX_ASM_OUTPUT
            && Fits(o5) && |o5.text| + |Render([LabelDef(EndLabel(k))])| < MAX_ASM_OUTPUT
            && Emit(o5, Compiled([LabelDef(EndLabel(k))], o5.tables), [])
               == Emit(o, CompileStmt(s, o.tables), StmtStringDecls(s))
  {
    hide Render, DataText, IfHead, IfMiddle, CompileBlock, OffsetOf, StringDecls, Touch;
    var k, off1, off2 := o.tables.ifs, OffsetOf(o.tables.syms, s.left), OffsetOf(Touch(o.tables.syms, s.left), s.right);
    var o1 := o.(tables := IfTables(s.left, s.right, o.tables));
    var c2 := CompileBlock(s.thenBlock, o1.tables);
    var c4 := ElseCompiled(s.elseBlock, c2.tables);
    BlockGrows(s.thenBlock, o1.tables);
    BlockStringsGrow(s.thenBlock, o1.tables);
    if s.elseBlock.Some? {
      BlockGrows(s.elseBlock.value, c2.tables);
      BlockStringsGrow(s.elseBlock.value, c2.tables);
    }
    FiveEmits(o1, IfHead(k, off1, off2), c2, StringDecls(s.thenBlock), IfMiddle(k), c4, ElseDecls(s.elseBlock),
      [LabelDef(EndLabel(k))]);
  }

  /** Five pieces emitted in turn, two of them blocks: the whole, and the room each of them has. */
  lemma FiveEmits(o: Output, a: seq<Asm>, c2: Compiled, d2: seq<StringDecl>, b: seq<Asm>, c4: Compiled,
                  d4: seq<StringDecl>, e: seq<Asm>)
    requires Grown(o.tables, c2.tables) && Grown(c2.tables, c4.tables)
    requires o.tables.strings <= c2.tables.strings <= c4.tables.strings
    ensures var o2 := Emit(o, Compiled(a, o.tables), []);
            var o3 := Emit(o2, c2, d2);
            var o4 := Emit(o3, Compiled(b, o3.tables), []);
            var o5 := Emit(o4, c4, d4);
            var final := Emit(o, Compiled(a + c2.code + b + c4.code + e, c4.tables), d2 + d4);
            && Emit(o5, Compiled(e, o5.tables), []) == final
            && (Fits(final) ==>
                  && |o.text| + |Render(a)| < MAX_ASM_OUTPUT
                  && Fits(o3) && |o3.text| + |Render(b)| < MAX_ASM_OUTPUT
                  && Fits(o5) && |o5.text| + |Render(e)| < MAX_ASM_OUTPUT)
  {
    hide Render, DataText;
    var t := o.tables;
    EmitThen(o, Compiled(a, t), [], c2, d2);
    EmitThen(o, Compiled(a + c2.code, c2.tables), [] + d2, Compiled(b, c2.tables), []);
    EmitThen(o, Compiled(a + c2.code + b, c2.tables), [] + d2 + [], c4, d4);
    EmitThen(o, Compiled(a + c2.code + b + c4.code, c4.tables), [] + d2 + [] + d4, Compiled(e, c4.tables), []);
    assert [] + d2 + [] + d4 + [] == d2 + d4;
  }

  /** The code of an `if`'s condition. */
  function HeadOf(s: Stmt, t: Tables): seq<Asm>
    requires s.If?
  {
    IfHead(t.ifs, OffsetOf(t.syms, s.left), OffsetOf(Touch(t.syms, s.left), s.right))
  }

  /** The text between and after the blocks of an `if`. */
  lemma IfTailTexts(k: nat)
    ensures var middle := ("\tjmp " + EndLabel(k) + "\n") + (ElseLabel(k) + ":\n");
            middle == Render(IfMiddle(k)) && NulFree(middle)
    ensures var end := EndLabel(k) + ":\n"; end == Render([LabelDef(EndLabel(k))]) && NulFree(end)
  {
    hide Render, LineText, ElseLabel, EndLabel, NulFree, IfMiddle;
    LabelsNulFree(k);
    IfMiddleText(k);
    OneLine(LabelDef(EndLabel(k)));
    LabelLine(EndLabel(k));
  }

  lemma OneLine(a: Asm)
    ensures Render([a]) == LineText(a)
  {
    hide Render, RawLine;
    RenderOne(a);
  }

  lemma SlotLines(off: int)
    ensures var text := "\tmov eax, " + MemText(off) + "\n"; LineText(MovLoad(EAX, off)) == text && NulFree(text)
    ensures var text := "\tcmp eax, " + MemText(off) + "\n"; LineText(CmpLoad(EAX, off)) == text && NulFree(text)
  {
    hide ItoaText;
    MemNulFree(off);
  }

  lemma IfHeadText(k: nat, off1: int, off2: int)
    ensures var head := ("\tmov eax, " + MemText(off1) + "\n") + ("\tcmp eax, " + MemText(off2) + "\n")
            + ("\tje " + ElseLabel(k) + "\n");
            head == Render(IfHead(k, off1, off2)) && NulFree(head)
  {
    hide Render, MemText, LineText, ElseLabel, NulFree;
    LabelsNulFree(k);
    LinesText3(MovLoad(EAX, off1), CmpLoad(EAX, off2), JeTo(ElseLabel(k)));
    SlotLines(off1);
    SlotLines(off2);
    JumpLine(JeTo(ElseLabel(k)));
    JoinNulFree(LineText(MovLoad(EAX, off1)), LineText(CmpLoad(EAX, off2)));
    JoinNulFree(LineText(MovLoad(EAX, off1)) + LineText(CmpLoad(EAX, off2)), LineText(JeTo(ElseLabel(k))));
  }

  lemma IfMiddleText(k: nat)
    ensures var middle := ("\tjmp " + EndLabel(k) + "\n") + (ElseLabel(k) + ":\n");
            middle == Render(IfMiddle(k)) && NulFree(middle)
  {
    hide Render, LineText, ElseLabel, EndLabel, NulFree;
    LabelsNulFree(k);
    LinesText(JmpTo(EndLabel(k)), LabelDef(ElseLabel(k)));
    LabelLine(ElseLabel(k));
    JumpLine(JmpTo(EndLabel(k)));
    JoinNulFree(LineText(JmpTo(EndLabel(k))), LineText(LabelDef(ElseLabel(k))));
  }

  ghost predicate Infos(infos: seq<ExprInfo>, codes: seq<ExprCode>) {
    |infos| == |codes|
    && forall i :: 0 <= i < |infos|
         ==> InfoOf(infos[i], codes[i]) && NulFree(infos[i].code) && NulFree(infos[i].operand) && infos[i].operand != ""
  }

  lemma NoInfos()
    ensures Infos([], [])
  {
  }

  lemma MoreInfos(infos: seq<ExprInfo>, codes: seq<ExprCode>, info: ExprInfo, ec: ExprCode)
    requires Infos(infos, codes) && Infos([info], [ec])
    ensures Infos(infos + [info], codes + [ec])
  {
    hide InfoOf, NulFree;
    assert [info][0] == info;
  }

  lemma ArgsStep(done: seq<ExprCode>, args: seq<Expr>, syms: seq<string>, strings: seq<string>)
    requires args != []
    ensures var ec := CompileExpr(args[0], syms, strings);
            var all, more := CompileArgs(args, syms, strings), CompileArgs(args[1..], ec.syms, strings);
            && done + all.0 == done + [ec] + more.0 && all.1 == more.1
            && (|args| == 1 ==> done + [ec] + more.0 == done + [ec] && more.1 == ec.syms)
  {
    hide CompileExpr, CompileArgs;
    var ec := CompileExpr(args[0], syms, strings);
    var more := CompileArgs(args[1..], ec.syms, strings);
    ArgsUnfold(args, syms, strings);
    assert done + ([ec] + more.0) == done + [ec] + more.0;
    if |args| == 1 { assert done + [ec] + [] == done + [ec]; }
  }

  lemma ArgsUnfold(args: seq<Expr>, syms: seq<string>, strings: seq<string>)
    requires args != []
    ensures var ec := CompileExpr(args[0], syms, strings);
            var more := CompileArgs(args[1..], ec.syms, strings);
            && CompileArgs(args, syms, strings) == ([ec] + more.0, more.1)
            && (|args| == 1 ==> more == ([], ec.syms))
  {
    hide CompileExpr;
  }

  lemma InfosLength(infos: seq<ExprInfo>, codes: seq<ExprCode>)
    requires Infos(infos, codes)
    ensures |infos| == |codes|
  {
  }

  lemma NoPushes(o: Output, codes: seq<ExprCode>)
    ensures o == Emit(o, Compiled(PushArgs(codes[|codes|..]), o.tables), [])
  {
    EmitNothing(o);
    assert codes[|codes|..] == [];
  }

  lemma PushPlan(o: Output, codes: seq<ExprCode>, i: nat)
    requires i < |codes| && |o.text| + |Render(PushArgs(codes))| < MAX_ASM_OUTPUT
    ensures var step := codes[i].code + [LoadEax(codes[i].loc), PushReg(EAX)];
            var o1 := Emit(o, Compiled(PushArgs(codes[i + 1..]), o.tables), []);
            && |o1.text| + |Render(step)| < MAX_ASM_OUTPUT
            && Emit(o1, Compiled(step, o1.tables), []) == Emit(o, Compiled(PushArgs(codes[i..]), o.tables), [])
  {
    hide Render, LoadEax;
    var step := codes[i].code + [LoadEax(codes[i].loc), PushReg(EAX)];
    assert codes[i..][1..] == codes[i + 1..];
    assert PushArgs(codes[i..]) == PushArgs(codes[i + 1..]) + step;
    EmitThen(o, Compiled(PushArgs(codes[i + 1..]), o.tables), [], Compiled(step, o.tables), []);
    NothingTwice();
    PushesGrow(codes, i);
    RenderAppend(PushArgs(codes[i + 1..]), step);
  }

  lemma {:induction false} PushesGrow(codes: seq<ExprCode>, i: nat)
    requires i <= |codes|
    ensures |Render(PushArgs(codes[i..]))| <= |Render(PushArgs(codes))|
  {
    hide Render, LoadEax;
    if i == 0 {
      assert codes[0..] == codes;
    } else {
      PushesGrow(codes[1..], i - 1);
      assert codes[1..][i - 1..] == codes[i..];
      RenderAppend(PushArgs(codes[1..]), codes[0].code + [LoadEax(codes[0].loc), PushReg(EAX)]);
      assert PushArgs(codes) == PushArgs(codes[1..]) + (codes[0].code + [LoadEax(codes[0].loc), PushReg(EAX)]);
    }
  }

  lemma PushText(infos: seq<ExprInfo>, codes: seq<ExprCode>, i: nat)
    requires Infos(infos, codes) && i < |codes|
    ensures var text := infos[i].code + ("\tmov eax, " + infos[i].operand + "\n") + "\tpush eax\n";
            text == Render(codes[i].code + [LoadEax(codes[i].loc), PushReg(EAX)]) && NulFree(text)
  {
    hide Render, LoadEax, LocationText;
    var info, ec := infos[i], codes[i];
    assert InfoOf(info, ec);
    assert ec.code + [LoadEax(ec.loc), PushReg(EAX)] == ec.code + [LoadEax(ec.loc)] + [PushReg(EAX)];
    RenderAppend(ec.code + [LoadEax(ec.loc)], [PushReg(EAX)]);
    RenderAppend(ec.code, [LoadEax(ec.loc)]);
    LoadText(ec.loc);
    PushLine();
  }

  lemma PushLine()
    ensures Render([PushReg(EAX)]) == "\tpush eax\n"
  {
    RenderOne(PushReg(EAX));
  }

  /** Saving and restoring the caller's registers around a call. */
  function SaveCode(): seq<Asm> {
    [PushReg(EAX), PushReg(ECX), PushReg(EDX)]
  }

  function RestoreCode(name: string, count: nat): seq<Asm> {
    [CallTo(name), CodeGenerator.AddText(ESP, Decimal(count * 4))]
  }

  function PopCode(): seq<Asm> {
    [PopReg(EDX), PopReg(ECX), PopReg(EAX)]
  }

  lemma CallText(name: string)
    requires name != "" && NulFree(name)
    ensures Render([CallTo(name)]) == "\tcall " + name + "\n" && NulFree("\tcall " + name + "\n")
  {
    RenderOne(CallTo(name));
  }

  lemma CallPlan(s: Stmt, o: Output)
    requires s.CallDefined? && Fits(Emit(o, CompileStmt(s, o.tables), []))
    ensures |o.text| + |Render([CallTo(s.function_)])| < MAX_ASM_OUTPUT
    ensures Emit(o, Compiled([CallTo(s.function_)], o.tables), []) == Emit(o, CompileStmt(s, o.tables), [])
  {
    hide Render;
  }

  lemma ExternalPlan(s: Stmt, o: Output)
    requires s.CallExternal? && Fits(Emit(o, CompileStmt(s, o.tables), []))
    ensures var codes := CompileArgs(s.args, o.tables.syms, o.tables.strings).0;
            var o1 := o.(tables := o.tables.(syms := CompileArgs(s.args, o.tables.syms, o.tables.strings).1));
            var o2 := Emit(o1, Compiled(SaveCode(), o1.tables), []);
            var o3 := Emit(o2, Compiled(PushArgs(codes), o2.tables), []);
            var o4 := Emit(o3, Compiled(RestoreCode(s.function_, |codes|), o3.tables), []);
            && |o1.text| + |Render(SaveCode())| < MAX_ASM_OUTPUT
            && |o2.text| + |Render(PushArgs(codes))| < MAX_ASM_OUTPUT
            && |o3.text| + |Render(RestoreCode(s.function_, |codes|))| < MAX_ASM_OUTPUT
            && |o4.text| + |Render(PopCode())| < MAX_ASM_OUTPUT
            && Emit(o4, Compiled(PopCode(), o4.tables), []) == Emit(o, CompileStmt(s, o.tables), [])
  {
    hide Render, SaveCode, RestoreCode, PushArgs, CompileArgs, PopCode;
    var codes := CompileArgs(s.args, o.tables.syms, o.tables.strings).0;
    var t1 := o.tables.(syms := CompileArgs(s.args, o.tables.syms, o.tables.strings).1);
    var o1 := o.(tables := t1);
    var restore := RestoreCode(s.function_, |codes|);
    EmitThen(o1, Compiled(SaveCode(), t1), [], Compiled(PushArgs(codes), t1), []);
    EmitThen(o1, Compiled(SaveCode() + PushArgs(codes), t1), [], Compiled(restore, t1), []);
    EmitThen(o1, Compiled(SaveCode() + PushArgs(codes) + restore, t1), [], Compiled(PopCode(), t1), []);
    NothingTwice();
    CallPieces(s.function_, codes);
  }

  lemma CallPieces(name: string, codes: seq<ExprCode>)
    ensures CallCode(name, codes) == SaveCode() + PushArgs(codes) + RestoreCode(name, |codes|) + PopCode()
  {
    hide PushArgs;
  }

  /** The byte count of at most five arguments is a small number. */
  lemma CallSize(s: Stmt, codes: seq<ExprCode>, o: Output, defined: seq<string>)
    requires s.CallExternal? && StmtCallsFit(s, defined)
    requires codes == CompileArgs(s.args, o.tables.syms, o.tables.strings).0
    ensures |codes| <= MAX_ARGUMENTS
  {
    ArgCount(s.args, o.tables.syms, o.tables.strings);
  }

  lemma {:induction false} ArgCount(args: seq<Expr>, syms: seq<string>, strings: seq<string>)
    ensures |CompileArgs(args, syms, strings).0| == |args|
  {
    if args != [] { ArgCount(args[1..], CompileExpr(args[0], syms, strings).syms, strings); }
  }

  lemma SaveTexts()
    ensures Render(SaveCode()) == SAVE_TEXT && NulFree(SAVE_TEXT)
    ensures Render(PopCode()) == POP_TEXT && NulFree(POP_TEXT)
  {
    hide Render, LineText;
    LinesText3(PushReg(EAX), PushReg(ECX), PushReg(EDX));
    LinesText3(PopReg(EDX), PopReg(ECX), PopReg(EAX));
    StackLines();
  }

  lemma StackLines()
    ensures LineText(PushReg(EAX)) == "\tpush eax\n" && LineText(PushReg(ECX)) == "\tpush ecx\n"
            && LineText(PushReg(EDX)) == "\tpush edx\n"
    ensures LineText(PopReg(EAX)) == "\tpop eax\n" && LineText(PopReg(ECX)) == "\tpop ecx\n"
            && LineText(PopReg(EDX)) == "\tpop edx\n"
  {
  }

  const SAVE_TEXT: string := "\tpush eax\n" + "\tpush ecx\n" + "\tpush edx\n"

  const POP_TEXT: string := "\tpop edx\n" + "\tpop ecx\n" + "\tpop eax\n"

  lemma StackLine(size: string)
    requires size != "" && NulFree(size)
    ensures var text := "\tadd esp, " + size + "\n"; LineText(CodeGenerator.AddText(ESP, size)) == text && NulFree(text)
  {
  }

  lemma RestoreText(name: string, count: nat)
    requires name != "" && NulFree(name) && count <= MAX_ARGUMENTS
    ensures var text := ("\tcall " + name + "\n") + ("\tadd esp, " + ItoaText(count * 4) + "\n");
            text == Render(RestoreCode(name, count)) && NulFree(text)
  {
    hide Render, Decimal, ItoaText, LineText, NulFree;
    SmallItoa(count * 4);
    DecimalNulFree(count * 4);
    var size := Decimal(count * 4);
    LinesText(CallTo(name), CodeGenerator.AddText(ESP, size));
    JumpLine(CallTo(name));
    StackLine(size);
    JoinNulFree(LineText(CallTo(name)), LineText(CodeGenerator.AddText(ESP, size)));
  }

  lemma NothingTwice()
    ensures var none: seq<StringDecl> := []; none + none == none && none + none + none == none
  {
  }

  function FunctionLabel(f: Function): string {
    if f.Main? then "_start" else f.name
  }

  function CompiledFunction(f: Function, t: Tables): Compiled {
    CompileFunction(FunctionLabel(f), f.body, t)
  }

  /** The output after a program's functions. */
  function EmitProgram(fs: seq<Function>, o: Output): Output {
    if fs == [] then o else EmitProgram(fs[1..], Emit(o, CompiledFunction(fs[0], o.tables), StringDecls(fs[0].body)))
  }

  /** Every function fits the buffers and tables in turn. */
  predicate AllFit(fs: seq<Function>, o: Output) {
    fs == [] || (
      var o1 := Emit(o, CompiledFunction(fs[0], o.tables), StringDecls(fs[0].body));
      Fits(o1) && BlockHeld(fs[0].body, o.tables.(syms := [])) && AllFit(fs[1..], o1))
  }

  lemma StartNulFree()
    ensures NulFree("_start")
  {
  }

  lemma LabelLineText(name: string)
    requires NulFree(name)
    ensures Render([LabelDef(name)]) == name + ":\n" && NulFree(name + ":\n")
  {
    OneLine(LabelDef(name));
    LabelLine(name);
  }

  lemma NoMoreData(d: string)
    ensures d + DataText([]) == d
  {
    assert d + "" == d;
  }

  lemma PrologueLines(n: nat)
    requires 0 < n <= MAX_SYMBOLS
    ensures Render(Prologue(n)) == PrologueText(ItoaText(n * 4)) && NulFree(ItoaText(n * 4))
  {
    hide Render, ItoaText, Decimal, NulFree, LineText, PUSH_LINE, MOVE_LINE, SUB_START;
    SmallItoa(n * 4);
    DecimalNulFree(n * 4);
    var size := Decimal(n * 4);
    LinesText3(PushReg(EBP), MovReg(EBP, ESP), SubText(ESP, size));
    PrologueLineTexts(size);
    Join4(PUSH_LINE, MOVE_LINE, SUB_START, size, "\n");
  }

  lemma PrologueLineTexts(size: string)
    requires size != ""
    ensures LineText(PushReg(EBP)) == PUSH_LINE && LineText(MovReg(EBP, ESP)) == MOVE_LINE
    ensures LineText(SubText(ESP, size)) == SUB_START + size + "\n"
  {
  }

  lemma Join4(a: string, b: string, c: string, d: string, e: string)
    ensures a + b + (c + d + e) == a + b + c + d + e
  {
  }

  lemma EpilogueLines()
    ensures Render(Epilogue()) == "\tmov esp, ebp\n" + "\tpop ebp\n" && NulFree("\tmov esp, ebp\n" + "\tpop ebp\n")
    ensures Render([Return]) == "\tret\n" && NulFree("\tret\n")
  {
    hide Render;
    LinesText(MovReg(ESP, EBP), PopReg(EBP));
    OneLine(Return);
  }

  lemma WrapPlan(prefix: string, body: Compiled)
    ensures var n := |body.tables.syms|;
            && (n > 0 ==> prefix + Render(Prologue(n)) + Render(body.code) + Render(Epilogue()) + Render([Return])
                          == prefix + Render(WrapBody(body)))
            && (n == 0 ==> prefix + Render(body.code) + Render([Return]) == prefix + Render(WrapBody(body)))
    ensures var n := |body.tables.syms|;
            |Render(WrapBody(body))|
              == (if n > 0 then |Render(Prologue(n))| + |Render(Epilogue())| else 0) + |Render(body.code)|
                + |Render([Return])|
  {
    hide Render, Prologue, Epilogue;
    var n := |body.tables.syms|;
    if n > 0 {
      RenderAppend(Prologue(n) + body.code + Epilogue(), [Return]);
      RenderAppend(Prologue(n) + body.code, Epilogue());
      RenderAppend(Prologue(n), body.code);
      JoinAll(prefix, Render(Prologue(n)), Render(body.code), Render(Epilogue()), Render([Return]));
    } else {
      RenderAppend(body.code, [Return]);
      assert prefix + Render(body.code) + Render([Return]) == prefix + (Render(body.code) + Render([Return]));
    }
  }

  lemma JoinAll(a: string, b: string, c: string, d: string, e: string)
    ensures a + b + c + d + e == a + (b + c + d + e)
  {
  }

  lemma FunctionPlan(f: Function, o: Output)
    requires Fits(Emit(o, CompiledFunction(f, o.tables), StringDecls(f.body)))
    ensures var o1 := o.(tables := o.tables.(syms := []));
            var o2 := Emit(o1, Compiled([LabelDef(FunctionLabel(f))], o1.tables), []);
            var body := CompileBlock(f.body, o2.tables);
            var o3 := Emit(o2, body, StringDecls(f.body));
            && o2.tables == o.tables.(syms := [])
            && |o1.text| + |Render([LabelDef(FunctionLabel(f))])| < MAX_ASM_OUTPUT
            && Fits(o3) && o3.text == o2.text + Render(body.code) && o3.tables == body.tables
            && |o2.text| + |Render(WrapBody(body))| < MAX_ASM_OUTPUT && |body.tables.syms| <= MAX_SYMBOLS
            && o3.(text := o2.text + Render(WrapBody(body)))
               == Emit(o, CompiledFunction(f, o.tables), StringDecls(f.body))
  {
    hide Render, DataText, CompileBlock, WrapBody;
    var o1 := o.(tables := o.tables.(syms := []));
    var head := [LabelDef(FunctionLabel(f))];
    var body := CompileBlock(f.body, o1.tables);
    RenderAppend(head, WrapBody(body));
    WrapPlan(o.text, body);
    NoMoreData(o.data);
    assert o.text + Render(head) + Render(WrapBody(body)) == o.text + (Render(head) + Render(WrapBody(body)));
  }

  /**
    * The file that `compileSource` leaves for a text and its data: without data, the text has been shifted by a
    * header that is then not written.
    */
  function Spliced(text: string, data: string): string {
    if data != "" then DATA_HEADER + data + TEXT_HEADER + text
    else TEXT_HEADER + Overlapped(text)
  }

  /** The first |text| characters from position |TEXT_HEADER| on, after shifting the text right over itself. */
  function Overlapped(text: string): string {
    var gap := |DATA_HEADER| + |TEXT_HEADER|;
    seq(|text|, i requires 0 <= i < |text| =>
      var j := |TEXT_HEADER| + i;
      if j >= gap then text[j - gap] else if j < |text| then text[j] else NUL)
  }
}
