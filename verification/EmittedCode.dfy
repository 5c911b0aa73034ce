/** What the assembler can rely on in compiled code: readable operands, and a definition for every branch target. */
module EmittedCode {
  import opened LibcText
  import opened X86
  import opened SourceLanguage
  import opened CodeGenerator
  import opened CompilerCorrectness
  import opened Encoding
  import opened Passes
  import opened AsmPrinting
  import opened AsmOperands
  import opened ByteMachine

  // ---------- spelling of the source ----------

  predicate ExprSpelled(e: Expr) {
    (e.first.Number? ==> IsNumeralText(e.first.text)) && forall t :: t in e.adds ==> IsNumeralText(t)
  }

  /** Every number of the source is a numeral that fits its buffer. */
  predicate StmtSpelled(s: Stmt) {
    match s
    case DeclareInit(_, e) => ExprSpelled(e)
    case Assign(_, e) => ExprSpelled(e)
    case While(_, bound, body) => IsNumeralText(bound) && Spelled(body)
    case If(_, _, t, e) => Spelled(t) && (e.Some? ==> Spelled(e.value))
    case _ => true
  }

  predicate Spelled(b: Block) {
    b.Then? ==> StmtSpelled(b.head) && Spelled(b.tail)
  }

  // ---------- good code ----------

  ghost predicate Good(code: seq<Asm>) {
    TargetsDefined(code) && forall a :: a in code ==> Assemblable(a)
  }

  lemma GoodAppend(a: seq<Asm>, b: seq<Asm>)
    requires Good(a) && Good(b)
    ensures Good(a + b)
  {
    hide Assemblable;
  }

  lemma {:induction false} AddsGood(adds: seq<string>)
    requires forall t :: t in adds ==> IsNumeralText(t)
    ensures Good(AddChain(adds))
  {
    hide IsNumeralText;
    if adds != [] {
      AddsGood(adds[1..]);
      GoodAppend([AddText(EAX, adds[0])], AddChain(adds[1..]));
    }
  }

  const FEW: nat := 256

  /** Code whose tables stay within the compiler's and the assembler's limits. */
  predicate WithinLimits(t: Tables) {
    |t.syms| <= MAX_SYMBOLS && t.loops <= FEW
  }

  lemma TouchedSlot(syms: seq<string>, name: string)
    requires |Touch(syms, name)| <= MAX_SYMBOLS
    ensures IsSlotOffset(OffsetOf(syms, name))
  {
  }

  predicate LocationReadable(loc: Location) {
    match loc
    case Immediate(text) => IsNumeralText(text)
    case Slot(off) => IsSlotOffset(off)
    case DataName(_) => false
    case InEax => true
  }

  lemma LoadGood(loc: Location)
    requires LocationReadable(loc)
    ensures Good([LoadEax(loc)])
  {
    hide IsNumeralText, IsSlotOffset;
  }

  lemma ExprGood(e: Expr, syms: seq<string>, strings: seq<string>)
    requires ExprSpelled(e) && IntExpr(e, strings)
    requires |CompileExpr(e, syms, strings).syms| <= MAX_SYMBOLS
    ensures Good(CompileExpr(e, syms, strings).code) && LocationReadable(CompileExpr(e, syms, strings).loc)
  {
    hide IsNumeralText, IsSlotOffset, Good;
    if e.first.Variable? { TouchedSlot(syms, e.first.name); }
    var loc := CompilePrimary(e.first, syms, strings).0;
    assert LocationReadable(loc);
    if e.adds == [] {
      NothingGood();
    } else {
      LoadGood(loc);
      AddsGood(e.adds);
      GoodAppend([LoadEax(loc)], AddChain(e.adds));
    }
  }

  lemma NothingGood()
    ensures Good([])
  {
  }

  lemma StoreGood(name: string, e: Expr, syms: seq<string>, strings: seq<string>)
    requires ExprSpelled(e) && IntExpr(e, strings)
    requires |StoreSyms(name, e, syms, strings)| <= MAX_SYMBOLS
    ensures Good(StoreCode(name, e, syms, strings))
  {
    hide IsNumeralText, IsSlotOffset, Good, CompileExpr, LocationReadable, ExprSpelled;
    var ec := CompileExpr(e, syms, strings);
    TouchGrows(ec.syms, name);
    ExprGood(e, syms, strings);
    LoadGood(ec.loc);
    TouchedSlot(ec.syms, name);
    SingleStore(OffsetOf(ec.syms, name));
    GoodAppend([LoadEax(ec.loc)], [MovStore(OffsetOf(ec.syms, name), EAX)]);
    GoodAppend(ec.code, [LoadEax(ec.loc)] + [MovStore(OffsetOf(ec.syms, name), EAX)]);
    assert [LoadEax(ec.loc)] + [MovStore(OffsetOf(ec.syms, name), EAX)]
           == [LoadEax(ec.loc), MovStore(OffsetOf(ec.syms, name), EAX)];
  }

  lemma SingleStore(off: int)
    requires IsSlotOffset(off)
    ensures Good([MovStore(off, EAX)])
  {
  }

  lemma LabelTexts(k: nat)
    requires k <= FEW
    ensures IsNameText(LoopLabel(k)) && IsNameText(EndLabel(k))
  {
    assert Power(10, 0) == 1 && Power(10, 1) == 10 && Power(10, 2) == 100 && Power(10, 3) == 1000;
    NumeralLength(k, 10, 3);
    NumeralShape(k, 10);
  }

  lemma WhileGood(k: nat, off: int, bound: string, body: seq<Asm>)
    requires k <= FEW && IsSlotOffset(off) && IsNumeralText(bound) && Good(body)
    ensures Good(WhileCode(k, off, bound, body))
  {
    hide IsNameText, IsNumeralText, IsSlotOffset;
    LabelTexts(k);
    var code := WhileCode(k, off, bound, body);
    assert WhileHead(k, off, bound)[0] == LabelDef(LoopLabel(k)) && WhileTail(k)[1] == LabelDef(EndLabel(k));
    assert LabelDef(LoopLabel(k)) in code && LabelDef(EndLabel(k)) in code;
  }

  lemma {:induction false} StmtGood(s: Stmt, t: Tables, all: set<string>)
    requires StmtCallFree(s) && !StmtHasIf(s) && StmtSpelled(s)
    requires StmtStringNames(s) <= all && StmtIntNames(s) !! all && StringsWithin(t, all)
    requires WithinLimits(CompileStmt(s, t).tables)
    ensures Good(CompileStmt(s, t).code)
    decreases StmtSize(s)
  {
    hide Good, IsNumeralText, IsSlotOffset, ExprSpelled;
    match s {
      case DeclareInit(name, e) => StoreGood(name, e, t.syms, t.strings);
      case Assign(name, e) => StoreGood(name, e, t.syms, t.strings);
      case While(left, bound, body) =>
        var t0 := t.(syms := Touch(t.syms, left), loops := t.loops + 1);
        BlockGrows(body, t0);
        BlockGood(body, t0, all);
        TouchedSlot(t.syms, left);
        WhileGood(t.loops, OffsetOf(t.syms, left), bound, CompileBlock(body, t0).code);
      case _ => NothingGood();
    }
  }

  lemma {:induction false} BlockGood(b: Block, t: Tables, all: set<string>)
    requires CallFree(b) && !HasIf(b) && Spelled(b)
    requires StringNames(b) <= all && IntNames(b) !! all && StringsWithin(t, all)
    requires WithinLimits(CompileBlock(b, t).tables)
    ensures Good(CompileBlock(b, t).code)
    decreases BlockSize(b)
  {
    hide Good;
    if b.Empty? {
      NothingGood();
    } else {
      var first := CompileStmt(b.head, t);
      BlockGrows(b.tail, first.tables);
      StmtGood(b.head, t, all);
      StmtStrings(b.head, t, all);
      BlockGood(b.tail, first.tables, all);
      GoodAppend(first.code, CompileBlock(b.tail, first.tables).code);
    }
  }

  // ---------- the passes agree on compiled lines ----------

  /** An emitted instruction whose operands are not empty. */
  predicate Worded(a: Asm) {
    match a
    case MovText(_, text) => text != ""
    case AddText(_, text) => text != ""
    case SubText(_, text) => text != ""
    case CmpText(off, text) => IsSlotOffset(off) && text != ""
    case MovStore(off, _) => IsSlotOffset(off)
    case _ => true
  }

  predicate TargetResolved(a: Asm, names: Names) {
    match a
    case JmpTo(target) => Resolved(target, names)
    case JgeTo(target) => Resolved(target, names)
    case CallTo(target) => Resolved(target, names) || LibraryAddress(names, target) != 0
    case _ => true
  }

  lemma MemTextBracket(off: int)
    ensures MemText(off) != ""
  {
  }

  /** The sizes of an emitted data instruction's line are exact. */
  lemma OperandsExact(a: Asm, names: Names)
    requires Worded(a) && !a.LabelDef? && !a.JmpTo? && !a.JgeTo? && !a.JeTo? && !a.CallTo? && !a.Return?
    ensures SizeExact(AsmMnemonic(a), Fields(a).arg1, Fields(a).arg2, 0, names)
  {
    hide IsReg, IsMem, MemText, RegName, RegIndex, MemBase, MemOffset, ParseImm, IsSlotOffset;
    match a {
      case MovText(r, text) => RegRead(r);
      case MovLoad(r, off) => RegRead(r); MemTextBracket(off);
      case MovStore(off, r) => RegRead(r); MemRead(off);
      case MovReg(dst, src) => RegRead(dst); RegRead(src);
      case AddText(r, text) => RegRead(r);
      case SubText(r, text) => RegRead(r);
      case CmpText(off, text) => MemRead(off);
      case CmpLoad(r, off) => RegRead(r); MemTextBracket(off);
      case PushReg(r) => RegRead(r);
      case PopReg(r) => RegRead(r);
    }
  }

  lemma TransfersExact(a: Asm, names: Names)
    requires TargetResolved(a, names) && (a.JmpTo? || a.JgeTo? || a.JeTo? || a.CallTo? || a.Return?)
    ensures SizeExact(AsmMnemonic(a), Fields(a).arg1, Fields(a).arg2, 0, names)
  {
    hide IsReg, Resolved, LibraryAddress;
  }

  /** Every line the compiler emits is size-exact once its branch and call targets resolve. */
  lemma EmittedExact(a: Asm, names: Names)
    requires Worded(a) && TargetResolved(a, names)
    ensures LineExact(Fields(a), 0, names)
  {
    hide SizeExact, Fields, AsmMnemonic, MnemonicOf;
    if a.LabelDef? {
      LabelNotInstruction(a);
    } else {
      ReadMnemonic(a);
      if a.JmpTo? || a.JgeTo? || a.JeTo? || a.CallTo? || a.Return? { TransfersExact(a, names); }
        else { OperandsExact(a, names); }
    }
  }

  lemma LabelNotInstruction(a: Asm)
    requires a.LabelDef?
    ensures !IsInstruction(Fields(a))
  {
  }
}
