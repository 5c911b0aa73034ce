/** Running the emitted code leaves every variable's stack slot holding the source value. */
module CompilerCorrectness {
  import opened Words
  import opened LibcText
  import opened X86
  import opened SourceLanguage
  import opened CodeGenerator
  import opened AsmMachine

  const MAX_SYMBOLS: nat := 64

  // ---------- stable slots ----------

  lemma {:induction false} FirstIndexStable(syms: seq<string>, more: seq<string>, name: string)
    requires syms <= more && name in syms
    ensures FirstIndex(more, name) == FirstIndex(syms, name)
  {
    assert more[0] == syms[0];
    if syms[0] != name {
      assert more[1..][..|syms| - 1] == syms[1..];
      FirstIndexStable(syms[1..], more[1..], name);
    }
  }

  /** The offset used when a name is touched is its slot in every later table. */
  lemma OffsetStable(syms: seq<string>, more: seq<string>, name: string)
    requires Touch(syms, name) <= more
    ensures name in more
    ensures OffsetOf(syms, name) == OffsetOf(more, name)
  {
    var touched := Touch(syms, name);
    assert name in touched;
    FirstIndexStable(touched, more, name);
    if name in syms { FirstIndexStable(syms, touched, name); }
  }

  // ---------- the frame ----------

  /** A function's frame: its base, its stack pointer, and the caller's base saved at [ebp]. */
  datatype Frame = Frame(ebp: Word, esp: Word, saved: Word)

  function SlotAddress(ebp: Word, i: nat): Word {
    Wrap(ebp + SlotOffset(i))
  }

  function SlotValue(s: State, ebp: Word, i: nat): Word {
    Load32(s.mem, SlotAddress(ebp, i))
  }

  /** Every variable's slot holds its value, and the frame is intact. */
  ghost predicate Holding(syms: seq<string>, fr: Frame, env: Env, s: State) {
    && |syms| <= MAX_SYMBOLS
    && s.regs[EBP] == fr.ebp && s.regs[ESP] == fr.esp
    && Load32(s.mem, fr.ebp) == fr.saved
    && forall x :: x in syms ==> SlotValue(s, fr.ebp, FirstIndex(syms, x)) == Lookup(env, x)
  }

  lemma WrapNear(x: int)
    requires -0x1_0000_0000 <= x < 0x1_0000_0000
    ensures Wrap(x) == if x < 0 then x + 0x1_0000_0000 else x
  {
  }

  lemma ApartByDistance(a: Word, b: Word)
    requires 4 <= a - b <= 0xFFFF_FFFC || 4 <= b - a <= 0xFFFF_FFFC
    ensures Apart(a, b)
  {
    WrapNear(a - b);
    WrapNear(b - a);
  }

  lemma SlotsApart(ebp: Word, i: nat, j: nat)
    requires i < MAX_SYMBOLS && j < MAX_SYMBOLS && i != j
    ensures Apart(SlotAddress(ebp, i), SlotAddress(ebp, j))
  {
    WrapNear(ebp + SlotOffset(i));
    WrapNear(ebp + SlotOffset(j));
    ApartByDistance(SlotAddress(ebp, i), SlotAddress(ebp, j));
  }

  lemma SlotApartFromBase(ebp: Word, i: nat)
    requires i < MAX_SYMBOLS
    ensures Apart(SlotAddress(ebp, i), ebp)
  {
    WrapNear(ebp + SlotOffset(i));
    ApartByDistance(SlotAddress(ebp, i), ebp);
  }

  /** Storing into a variable's slot updates that variable and nothing else. */
  lemma StoreSlot(syms: seq<string>, fr: Frame, env: Env, s: State, name: string, w: Word)
    requires Holding(syms, fr, env, s) && name in syms
    ensures Holding(syms, fr, env[name := w], s.(mem := Store32(s.mem, SlotAddress(fr.ebp, FirstIndex(syms, name)), w)))
  {
    var i := FirstIndex(syms, name);
    var a := SlotAddress(fr.ebp, i);
    var s' := s.(mem := Store32(s.mem, a, w));
    LoadStored(s.mem, a, w);
    SlotApartFromBase(fr.ebp, i);
    LoadApart(s.mem, a, w, fr.ebp);
    forall x | x in syms
      ensures SlotValue(s', fr.ebp, FirstIndex(syms, x)) == Lookup(env[name := w], x)
    {
      var j := FirstIndex(syms, x);
      if x != name {
        SlotsApart(fr.ebp, i, j);
        LoadApart(s.mem, a, w, SlotAddress(fr.ebp, j));
      }
    }
  }

  /** Changing registers other than ebp and esp, or the flags, keeps the frame. */
  lemma KeepHolding(syms: seq<string>, fr: Frame, env: Env, s: State, s': State)
    requires Holding(syms, fr, env, s)
    requires s'.mem == s.mem && s'.regs[EBP] == s.regs[EBP] && s'.regs[ESP] == s.regs[ESP]
    ensures Holding(syms, fr, env, s')
  {
  }

  // ---------- expressions ----------

  /** The value a location denotes. */
  function LocationValue(loc: Location, s: State): Word {
    match loc
    case Immediate(text) => Wrap(ParseImm(text))
    case Slot(off) => Load32(s.mem, Wrap(s.regs[EBP] + off))
    case DataName(_) => 0
    case InEax => s.regs[EAX]
  }

  lemma LoadEaxStep(code: seq<Asm>, c: Config, loc: Location)
    requires c.pc < |code| && code[c.pc] == LoadEax(loc) && !loc.DataName?
    ensures Step(code, c) == Config(c.pc + 1, c.s.(regs := SetReg(c.s.regs, EAX, LocationValue(loc, c.s))))
  {
  }

  lemma AddStep(code: seq<Asm>, c: Config, text: string)
    requires c.pc < |code| && code[c.pc] == AddText(EAX, text)
    ensures var c' := Step(code, c);
            && c'.pc == c.pc + 1
            && c'.s.mem == c.s.mem
            && c'.s.regs == SetReg(c.s.regs, EAX, Wrap(c.s.regs[EAX] + ParseImm(text)))
  {
    var imm := ParseImm(text);
    ParsedIsInt32(text);
    WrappedSum(c.s.regs[EAX], imm);
  }

  lemma ParsedIsInt32(text: string)
    ensures Signed(Wrap(ParseImm(text))) == ParseImm(text)
  {
    Int32Twice(if text != [] && text[0] == '-' then -ParseUnsigned(text[1..]) else ParseUnsigned(text));
  }

  lemma WrappedSum(w: Word, imm: int)
    requires Signed(Wrap(imm)) == imm
    ensures Wrap(Signed(w) + Signed(Wrap(imm))) == Wrap(w + imm)
  {
    WrapPeriod(w + imm, -1);
  }

  lemma {:induction false} AddChainRuns(code: seq<Asm>, c: Config, adds: seq<string>) returns (c': Config)
    requires SegmentAt(code, c.pc, AddChain(adds))
    ensures Reaches(code, c, c')
    ensures c'.pc == c.pc + |AddChain(adds)|
    ensures c'.s.mem == c.s.mem
    ensures c'.s.regs == SetReg(c.s.regs, EAX, SumFrom(c.s.regs[EAX], adds))
    decreases |adds|
  {
    if adds == [] {
      c' := c;
      ReachesSelf(code, c);
    } else {
      SegmentIndex(code, c.pc, AddChain(adds), 0);
      SegmentSplit(code, c.pc, [AddText(EAX, adds[0])], AddChain(adds[1..]));
      AddStep(code, c, adds[0]);
      var d := Step(code, c);
      ReachesStep(code, c);
      c' := AddChainRuns(code, d, adds[1..]);
      ReachesTrans(code, c, d, c');
    }
  }

  /** No variable of the expression is a string. */
  predicate IntExpr(e: Expr, strings: seq<string>) {
    e.first.Variable? ==> e.first.name !in strings
  }

  lemma PrimaryLocation(p: Primary, syms: seq<string>, strings: seq<string>, final: seq<string>, fr: Frame, env: Env,
                        s: State)
    requires p.Variable? ==> p.name !in strings
    requires Holding(final, fr, env, s)
    requires CompilePrimary(p, syms, strings).1 <= final
    ensures LocationValue(CompilePrimary(p, syms, strings).0, s) == PrimaryValue(p, env)
  {
    if p.Variable? { OffsetStable(syms, final, p.name); }
  }

  /** The expression's code leaves its value where the compiler says, and keeps the frame. */
  lemma ExprRuns(code: seq<Asm>, c: Config, e: Expr, syms: seq<string>, strings: seq<string>, final: seq<string>,
                 fr: Frame, env: Env) returns (c': Config)
    requires IntExpr(e, strings)
    requires SegmentAt(code, c.pc, CompileExpr(e, syms, strings).code)
    requires CompileExpr(e, syms, strings).syms <= final
    requires Holding(final, fr, env, c.s)
    ensures Reaches(code, c, c') && c'.pc == c.pc + |CompileExpr(e, syms, strings).code|
    ensures Holding(final, fr, env, c'.s)
    ensures LocationValue(CompileExpr(e, syms, strings).loc, c'.s) == ExprValue(e, env)
    ensures !CompileExpr(e, syms, strings).loc.DataName?
  {
    PrimaryLocation(e.first, syms, strings, final, fr, env, c.s);
    var loc := CompilePrimary(e.first, syms, strings).0;
    if e.adds == [] {
      c' := c;
      ReachesSelf(code, c);
    } else {
      SegmentIndex(code, c.pc, CompileExpr(e, syms, strings).code, 0);
      SegmentSplit(code, c.pc, [LoadEax(loc)], AddChain(e.adds));
      LoadEaxStep(code, c, loc);
      var d := Step(code, c);
      ReachesStep(code, c);
      c' := AddChainRuns(code, d, e.adds);
      ReachesTrans(code, c, d, c');
      KeepHolding(final, fr, env, c.s, c'.s);
    }
  }

  // ---------- assignment ----------

  lemma StoreStep(code: seq<Asm>, c: Config, off: int)
    requires c.pc < |code| && code[c.pc] == MovStore(off, EAX)
    ensures Step(code, c) == Config(c.pc + 1, c.s.(mem := Store32(c.s.mem, Wrap(c.s.regs[EBP] + off), c.s.regs[EAX])))
  {
  }

  lemma StoreRuns(code: seq<Asm>, c: Config, name: string, e: Expr, syms: seq<string>, strings: seq<string>,
                  final: seq<string>, fr: Frame, env: Env) returns (c': Config)
    requires IntExpr(e, strings)
    requires SegmentAt(code, c.pc, StoreCode(name, e, syms, strings))
    requires StoreSyms(name, e, syms, strings) <= final
    requires Holding(final, fr, env, c.s)
    ensures Reaches(code, c, c') && c'.pc == c.pc + |StoreCode(name, e, syms, strings)|
    ensures Holding(final, fr, env[name := ExprValue(e, env)], c'.s)
  {
    var ec := CompileExpr(e, syms, strings);
    var off := OffsetOf(ec.syms, name);
    var tail := [LoadEax(ec.loc), MovStore(off, EAX)];
    SegmentSplit(code, c.pc, ec.code, tail);
    var d := ExprRuns(code, c, e, syms, strings, final, fr, env);
    SegmentIndex(code, d.pc, tail, 0);
    SegmentIndex(code, d.pc, tail, 1);
    OffsetStable(ec.syms, final, name);
    c' := LoadAndStore(code, d, ec.loc, name, final, fr, env);
    ReachesTrans(code, c, d, c');
  }

  lemma LoadAndStore(code: seq<Asm>, c: Config, loc: Location, name: string, final: seq<string>, fr: Frame, env: Env)
    returns (c': Config)
    requires Holding(final, fr, env, c.s) && name in final
    requires c.pc + 1 < |code| && !loc.DataName?
    requires code[c.pc] == LoadEax(loc) && code[c.pc + 1] == MovStore(OffsetOf(final, name), EAX)
    ensures Reaches(code, c, c') && c'.pc == c.pc + 2
    ensures Holding(final, fr, env[name := LocationValue(loc, c.s)], c'.s)
  {
    LoadEaxStep(code, c, loc);
    var f := Step(code, c);
    ReachesStep(code, c);
    KeepHolding(final, fr, env, c.s, f.s);
    StoreStep(code, f, OffsetOf(final, name));
    c' := Step(code, f);
    ReachesThenStep(code, c, f);
    StoreSlot(final, fr, env, f.s, name, LocationValue(loc, c.s));
  }

  // ---------- tables only grow ----------

  lemma TouchGrows(syms: seq<string>, name: string)
    ensures syms <= Touch(syms, name)
  {
  }

  lemma ExprSymsGrow(e: Expr, syms: seq<string>, strings: seq<string>)
    ensures syms <= CompileExpr(e, syms, strings).syms
  {
  }

  lemma StoreSymsGrow(name: string, e: Expr, syms: seq<string>, strings: seq<string>)
    ensures syms <= StoreSyms(name, e, syms, strings)
  {
    ExprSymsGrow(e, syms, strings);
    TouchGrows(CompileExpr(e, syms, strings).syms, name);
  }

  lemma {:induction false} ArgsSymsGrow(args: seq<Expr>, syms: seq<string>, strings: seq<string>)
    ensures syms <= CompileArgs(args, syms, strings).1
    decreases |args|
  {
    if args != [] { ArgsSymsGrow(args[1..], CompileExpr(args[0], syms, strings).syms, strings); }
  }

  predicate Grown(t: Tables, t': Tables) {
    t.syms <= t'.syms && t.loops <= t'.loops && t.ifs <= t'.ifs
  }

  lemma {:induction false} StmtGrows(s: Stmt, t: Tables)
    ensures Grown(t, CompileStmt(s, t).tables)
    decreases s
  {
    match s {
      case DeclareInit(name, e) => StoreSymsGrow(name, e, t.syms, t.strings);
      case Assign(name, e) => StoreSymsGrow(name, e, t.syms, t.strings);
      case While(left, bound, body) =>
        TouchGrows(t.syms, left);
        BlockGrows(body, t.(syms := Touch(t.syms, left), loops := t.loops + 1));
      case If(left, right, thenBlock, elseBlock) =>
        TouchGrows(t.syms, left);
        TouchGrows(Touch(t.syms, left), right);
        var t0 := t.(syms := Touch(Touch(t.syms, left), right), ifs := t.ifs + 1);
        BlockGrows(thenBlock, t0);
        if elseBlock.Some? { BlockGrows(elseBlock.value, CompileBlock(thenBlock, t0).tables); }
      case CallExternal(name, args) => ArgsSymsGrow(args, t.syms, t.strings);
      case _ =>
    }
  }

  lemma {:induction false} BlockGrows(b: Block, t: Tables)
    ensures Grown(t, CompileBlock(b, t).tables)
    decreases b
  {
    if b.Then? {
      StmtGrows(b.head, t);
      BlockGrows(b.tail, CompileStmt(b.head, t).tables);
    }
  }

  // ---------- string variables stay apart ----------

  ghost predicate StringsWithin(t: Tables, all: set<string>) {
    forall x :: x in t.strings ==> x in all
  }

  lemma {:induction false} StmtStrings(s: Stmt, t: Tables, all: set<string>)
    requires StringsWithin(t, all) && StmtStringNames(s) <= all
    ensures StringsWithin(CompileStmt(s, t).tables, all)
    decreases s
  {
    match s {
      case While(left, bound, body) =>
        BlockStrings(body, t.(syms := Touch(t.syms, left), loops := t.loops + 1), all);
      case If(left, right, thenBlock, elseBlock) =>
        var t0 := t.(syms := Touch(Touch(t.syms, left), right), ifs := t.ifs + 1);
        BlockStrings(thenBlock, t0, all);
        if elseBlock.Some? { BlockStrings(elseBlock.value, CompileBlock(thenBlock, t0).tables, all); }
      case _ =>
    }
  }

  lemma {:induction false} BlockStrings(b: Block, t: Tables, all: set<string>)
    requires StringsWithin(t, all) && StringNames(b) <= all
    ensures StringsWithin(CompileBlock(b, t).tables, all)
    decreases b
  {
    if b.Then? {
      StmtStrings(b.head, t, all);
      BlockStrings(b.tail, CompileStmt(b.head, t).tables, all);
    }
  }

  // ---------- branches ----------

  lemma LabelStep(code: seq<Asm>, c: Config)
    requires c.pc < |code| && code[c.pc].LabelDef?
    ensures Step(code, c) == c.(pc := c.pc + 1)
  {
  }

  lemma JumpStep(code: seq<Asm>, c: Config, k: nat)
    requires UniqueLabels(code)
    requires c.pc < |code| && code[c.pc].JmpTo?
    requires k < |code| && code[k] == LabelDef(code[c.pc].target)
    ensures Step(code, c) == c.(pc := k)
  {
    UniqueDefinition(code, k);
  }

  /** The comparison of a `while` head: falls through to the body, or jumps past the loop. */
  lemma LoopTest(code: seq<Asm>, c: Config, off: int, bound: string, end: string, k: nat)
    requires UniqueLabels(code)
    requires c.pc + 1 < |code| && code[c.pc] == CmpText(off, bound) && code[c.pc + 1] == JgeTo(end)
    requires k < |code| && code[k] == LabelDef(end)
    ensures var c' := Step(code, Step(code, c));
            var continues := Signed(LocationValue(Slot(off), c.s)) < ParseImm(bound);
            && c'.pc == (if continues then c.pc + 2 else k)
            && c'.s.mem == c.s.mem && c'.s.regs == c.s.regs
  {
    UniqueDefinition(code, k);
    ParsedIsInt32(bound);
    ComparisonMeaning(LocationValue(Slot(off), c.s), Wrap(ParseImm(bound)));
  }

  lemma CmpLoadStep(code: seq<Asm>, c: Config, off: int)
    requires c.pc < |code| && code[c.pc] == CmpLoad(EAX, off)
    ensures var c' := Step(code, c);
            && c'.pc == c.pc + 1 && c'.s.mem == c.s.mem && c'.s.regs == c.s.regs
            && (Holds(Equal, c'.s.flags) <==> c.s.regs[EAX] == LocationValue(Slot(off), c.s))
  {
    ComparisonMeaning(c.s.regs[EAX], LocationValue(Slot(off), c.s));
  }

  /** The comparison of an `if` head: falls through to the first block, or jumps to `else`. */
  lemma IfTest(code: seq<Asm>, c: Config, off1: int, off2: int, other: string, k: nat)
    requires UniqueLabels(code)
    requires c.pc + 2 < |code|
    requires code[c.pc] == MovLoad(EAX, off1) && code[c.pc + 1] == CmpLoad(EAX, off2) && code[c.pc + 2] == JeTo(other)
    requires k < |code| && code[k] == LabelDef(other)
    ensures var c' := Step(code, Step(code, Step(code, c)));
            var differ := LocationValue(Slot(off1), c.s) != LocationValue(Slot(off2), c.s);
            && c'.pc == (if differ then c.pc + 3 else k)
            && c'.s.mem == c.s.mem
            && c'.s.regs == SetReg(c.s.regs, EAX, LocationValue(Slot(off1), c.s))
  {
    UniqueDefinition(code, k);
    LoadEaxStep(code, c, Slot(off1));
    CmpLoadStep(code, Step(code, c), off2);
  }

  // ---------- statements ----------

  /** What a compiled statement or block needs of its surroundings. */
  ghost predicate Ready(code: seq<Asm>, c: Config, t: Tables, compiled: Compiled, final: seq<string>, fr: Frame,
                        env: Env, all: set<string>) {
    && UniqueLabels(code)
    && SegmentAt(code, c.pc, compiled.code)
    && compiled.tables.syms <= final
    && Holding(final, fr, env, c.s)
    && StringsWithin(t, all)
  }

  lemma {:induction false} StmtRuns(code: seq<Asm>, c: Config, s: Stmt, t: Tables, final: seq<string>, fr: Frame,
                                    env: Env, all: set<string>, fuel: nat) returns (c': Config)
    requires StmtCallFree(s) && StmtStringNames(s) <= all && StmtIntNames(s) !! all
    requires Ready(code, c, t, CompileStmt(s, t), final, fr, env, all)
    requires ExecStmt(s, env, fuel).Some?
    ensures Reaches(code, c, c') && c'.pc == c.pc + |CompileStmt(s, t).code|
    ensures Holding(final, fr, ExecStmt(s, env, fuel).value, c'.s)
    decreases fuel, StmtSize(s), 1
  {
    match s {
      case Declare(name) => c' := c; ReachesSelf(code, c);
      case DeclareString(_, _) => c' := c; ReachesSelf(code, c);
      case DeclareInit(name, e) => c' := StoreRuns(code, c, name, e, t.syms, t.strings, final, fr, env);
      case Assign(name, e) => c' := StoreRuns(code, c, name, e, t.syms, t.strings, final, fr, env);
      case While(left, bound, body) =>
        var t0 := t.(syms := Touch(t.syms, left), loops := t.loops + 1);
        BlockGrows(body, t0);
        OffsetStable(t.syms, final, left);
        c' := LoopRuns(code, c, left, bound, body, t.loops, t0, CompileBlock(body, t0), final, fr, env, all, fuel);
      case If(left, right, thenBlock, elseBlock) =>
        c' := IfRuns(code, c, left, right, thenBlock, elseBlock, t, final, fr, env, all, fuel);
    }
  }

  lemma LoopMeaning(left: string, bound: string, body: Block, env: Env, fuel: nat)
    requires ExecStmt(While(left, bound, body), env, fuel).Some?
    ensures var after := ExecStmt(While(left, bound, body), env, fuel).value;
            if !LoopContinues(left, bound, env) then after == env
            else && fuel > 0
                 && ExecBlock(body, env, fuel - 1).Some?
                 && ExecStmt(While(left, bound, body), ExecBlock(body, env, fuel - 1).value, fuel - 1) == Some(after)
  {
  }

  lemma IfMeaning(left: string, right: string, thenBlock: Block, elseBlock: Option<Block>, env: Env, fuel: nat)
    ensures ExecStmt(If(left, right, thenBlock, elseBlock), env, fuel)
         == ExecBlock(if Lookup(env, left) != Lookup(env, right) then thenBlock else ElseBlock(elseBlock), env, fuel)
  {
  }

  /** The tables with which a loop's body is compiled. */
  function LoopTables(left: string, t: Tables): Tables {
    t.(syms := Touch(t.syms, left), loops := t.loops + 1)
  }

  /** The tables with which the first block of a conditional is compiled. */
  function IfTables(left: string, right: string, t: Tables): Tables {
    t.(syms := Touch(Touch(t.syms, left), right), ifs := t.ifs + 1)
  }

  lemma CompileIf(left: string, right: string, thenBlock: Block, elseBlock: Option<Block>, t: Tables)
    ensures var t1 := CompileBlock(thenBlock, IfTables(left, right, t));
            var t2 := CompileBlock(ElseBlock(elseBlock), t1.tables);
            CompileStmt(If(left, right, thenBlock, elseBlock), t) ==
            Compiled(IfCode(t.ifs, OffsetOf(t.syms, left), OffsetOf(Touch(t.syms, left), right), t1.code, t2.code),
              t2.tables)
  {
  }

  lemma IfCodeLength(n: nat, off1: int, off2: int, first: seq<Asm>, second: seq<Asm>)
    ensures |IfCode(n, off1, off2, first, second)| == 6 + |first| + |second|
  {
  }

  /** The pieces of a compiled conditional, with the operands' offsets in the final table. */
  lemma IfPieces(code: seq<Asm>, c: Config, left: string, right: string, thenBlock: Block, elseBlock: Option<Block>,
                 t: Tables, final: seq<string>, all: set<string>)
    requires SegmentAt(code, c.pc, CompileStmt(If(left, right, thenBlock, elseBlock), t).code)
    requires CompileStmt(If(left, right, thenBlock, elseBlock), t).tables.syms <= final
    requires StringsWithin(t, all) && StringNames(thenBlock) <= all
    ensures var t0 := IfTables(left, right, t);
            var t1 := CompileBlock(thenBlock, t0);
            var t2 := CompileBlock(ElseBlock(elseBlock), t1.tables);
            && left in final && right in final && t1.tables.syms <= final && t2.tables.syms <= final
            && StringsWithin(t0, all) && StringsWithin(t1.tables, all)
            && CompileStmt(If(left, right, thenBlock, elseBlock), t).code
               == IfCode(t.ifs, OffsetOf(final, left), OffsetOf(final, right), t1.code, t2.code)
            && |CompileStmt(If(left, right, thenBlock, elseBlock), t).code| == 6 + |t1.code| + |t2.code|
  {
    hide CompileStmt, CompileBlock, IfCode, SegmentAt, StringNames, FirstIndex;
    CompileIf(left, right, thenBlock, elseBlock, t);
    var t0 := IfTables(left, right, t);
    var t1 := CompileBlock(thenBlock, t0);
    IfCodeLength(t.ifs, OffsetOf(t.syms, left), OffsetOf(Touch(t.syms, left), right), t1.code,
                 CompileBlock(ElseBlock(elseBlock), t1.tables).code);
    BlockGrows(thenBlock, t0);
    BlockGrows(ElseBlock(elseBlock), t1.tables);
    TouchGrows(Touch(t.syms, left), right);
    OffsetStable(t.syms, final, left);
    OffsetStable(Touch(t.syms, left), final, right);
    BlockStrings(thenBlock, t0, all);
  }

  lemma {:induction false} IfRuns(code: seq<Asm>, c: Config, left: string, right: string, thenBlock: Block,
                                  elseBlock: Option<Block>, t: Tables, final: seq<string>, fr: Frame, env: Env,
                                  all: set<string>, fuel: nat)
    returns (c': Config)
    requires CallFree(thenBlock) && StringNames(thenBlock) <= all && IntNames(thenBlock) !! all
    requires CallFree(ElseBlock(elseBlock)) && StringNames(ElseBlock(elseBlock)) <= all
             && IntNames(ElseBlock(elseBlock)) !! all
    requires Ready(code, c, t, CompileStmt(If(left, right, thenBlock, elseBlock), t), final, fr, env, all)
    requires ExecStmt(If(left, right, thenBlock, elseBlock), env, fuel).Some?
    ensures Reaches(code, c, c') && c'.pc == c.pc + |CompileStmt(If(left, right, thenBlock, elseBlock), t).code|
    ensures Holding(final, fr, ExecStmt(If(left, right, thenBlock, elseBlock), env, fuel).value, c'.s)
    decreases fuel, BlockSize(thenBlock) + BlockSize(ElseBlock(elseBlock)), 2
  {
    hide CompileStmt, CompileBlock, ExecStmt, ExecBlock, IfCode, Holding, SegmentAt, UniqueLabels, OffsetOf,
         StringsWithin, Reaches;
    hide CallFree, StringNames, IntNames, Touch;
    var t0 := IfTables(left, right, t);
    var t1 := CompileBlock(thenBlock, t0);
    var second := ElseBlock(elseBlock);
    var t2 := CompileBlock(second, t1.tables);
    IfPieces(code, c, left, right, thenBlock, elseBlock, t, final, all);
    IfMeaning(left, right, thenBlock, elseBlock, env, fuel);
    if Lookup(env, left) != Lookup(env, right) {
      c' := FirstBranchRuns(code, c, left, right, thenBlock, t.ifs, t0, t1, t2.code, final, fr, env, all, fuel);
    } else {
      c' := SecondBranchRuns(code, c, left, right, second, t.ifs, t1.code, t1.tables, t2, final, fr, env, all, fuel);
    }
  }

  lemma {:induction false} BlockRuns(code: seq<Asm>, c: Config, b: Block, t: Tables, final: seq<string>, fr: Frame,
                                     env: Env, all: set<string>, fuel: nat) returns (c': Config)
    requires CallFree(b) && StringNames(b) <= all && IntNames(b) !! all
    requires Ready(code, c, t, CompileBlock(b, t), final, fr, env, all)
    requires ExecBlock(b, env, fuel).Some?
    ensures Reaches(code, c, c') && c'.pc == c.pc + |CompileBlock(b, t).code|
    ensures Holding(final, fr, ExecBlock(b, env, fuel).value, c'.s)
    decreases fuel, BlockSize(b), 0
  {
    match b {
      case Empty => c' := c; ReachesSelf(code, c);
      case Then(head, tail) =>
        var first := CompileStmt(head, t);
        var rest := CompileBlock(tail, first.tables);
        SegmentSplit(code, c.pc, first.code, rest.code);
        BlockGrows(tail, first.tables);
        var d := StmtRuns(code, c, head, t, final, fr, env, all, fuel);
        StmtStrings(head, t, all);
        c' := BlockRuns(code, d, tail, first.tables, final, fr, ExecStmt(head, env, fuel).value, all, fuel);
        ReachesTrans(code, c, d, c');
    }
  }

  lemma SegmentOf3(code: seq<Asm>, k: nat, part: seq<Asm>)
    requires SegmentAt(code, k, part) && |part| == 3
    ensures code[k] == part[0] && code[k + 1] == part[1] && code[k + 2] == part[2]
  {
    SegmentIndex(code, k, part, 0);
    SegmentIndex(code, k, part, 1);
    SegmentIndex(code, k, part, 2);
  }

  lemma SegmentOf2(code: seq<Asm>, k: nat, part: seq<Asm>)
    requires SegmentAt(code, k, part) && |part| == 2
    ensures code[k] == part[0] && code[k + 1] == part[1]
  {
    SegmentIndex(code, k, part, 0);
    SegmentIndex(code, k, part, 1);
  }

  /** Where the pieces of a compiled loop stand. */
  predicate WhileLayout(code: seq<Asm>, k: nat, n: nat, off: int, bound: string, inner: seq<Asm>) {
    && k + |inner| + 5 <= |code|
    && code[k] == LabelDef(LoopLabel(n)) && code[k + 1] == CmpText(off, bound) && code[k + 2] == JgeTo(EndLabel(n))
    && SegmentAt(code, k + 3, inner)
    && code[k + 3 + |inner|] == JmpTo(LoopLabel(n)) && code[k + 4 + |inner|] == LabelDef(EndLabel(n))
  }

  lemma LayOutWhile(code: seq<Asm>, k: nat, n: nat, off: int, bound: string, inner: seq<Asm>)
    requires SegmentAt(code, k, WhileCode(n, off, bound, inner))
    ensures WhileLayout(code, k, n, off, bound, inner)
  {
    var head, tail := WhileHead(n, off, bound), WhileTail(n);
    SegmentSplit(code, k, head + inner, tail);
    SegmentSplit(code, k, head, inner);
    SegmentOf3(code, k, head);
    SegmentOf2(code, k + 3 + |inner|, tail);
  }

  /** The loop label and the test: into the body, or past the loop. */
  lemma WhileTest(code: seq<Asm>, c: Config, n: nat, left: string, bound: string, inner: seq<Asm>,
                  final: seq<string>, fr: Frame, env: Env) returns (c': Config)
    requires UniqueLabels(code) && SegmentAt(code, c.pc, WhileCode(n, OffsetOf(final, left), bound, inner))
    requires Holding(final, fr, env, c.s) && left in final
    ensures Reaches(code, c, c') && Holding(final, fr, env, c'.s)
    ensures c'.pc == if LoopContinues(left, bound, env) then c.pc + 3 else c.pc + 5 + |inner|
  {
    hide Step, WhileCode, SegmentAt, UniqueLabels, Reaches;
    var off := OffsetOf(final, left);
    LayOutWhile(code, c.pc, n, off, bound, inner);
    LabelStep(code, c);
    var c1 := Step(code, c);
    ReachesStep(code, c);
    LoopTest(code, c1, off, bound, EndLabel(n), c.pc + 4 + |inner|);
    var c2 := Step(code, c1);
    c' := Step(code, c2);
    ReachesThenStep(code, c, c1);
    ReachesThenStep(code, c, c2);
    KeepHolding(final, fr, env, c.s, c'.s);
    if c'.pc == c.pc + 4 + |inner| {
      LabelStep(code, c');
      ReachesThenStep(code, c, c');
      c' := Step(code, c');
    }
  }

  lemma WhileBody(code: seq<Asm>, k: nat, n: nat, off: int, bound: string, inner: seq<Asm>)
    requires SegmentAt(code, k, WhileCode(n, off, bound, inner))
    ensures SegmentAt(code, k + 3, inner) && k + 3 + |inner| < |code| && k < |code|
    ensures code[k] == LabelDef(LoopLabel(n)) && code[k + 3 + |inner|] == JmpTo(LoopLabel(n))
  {
    LayOutWhile(code, k, n, off, bound, inner);
  }

  /** A loop laid out at `c.pc`, whose body was compiled with the tables `t0`. */
  lemma {:induction false} LoopRuns(code: seq<Asm>, c: Config, left: string, bound: string, body: Block, n: nat,
                                    t0: Tables, inner: Compiled, final: seq<string>, fr: Frame, env: Env,
                                    all: set<string>, fuel: nat)
    returns (c': Config)
    requires CallFree(body) && StringNames(body) <= all && IntNames(body) !! all && StringsWithin(t0, all)
    requires inner == CompileBlock(body, t0) && inner.tables.syms <= final && left in final
    requires UniqueLabels(code) && SegmentAt(code, c.pc, WhileCode(n, OffsetOf(final, left), bound, inner.code))
    requires Holding(final, fr, env, c.s)
    requires ExecStmt(While(left, bound, body), env, fuel).Some?
    ensures Reaches(code, c, c') && c'.pc == c.pc + 5 + |inner.code|
    ensures Holding(final, fr, ExecStmt(While(left, bound, body), env, fuel).value, c'.s)
    decreases fuel, BlockSize(body), 1
  {
    hide *;
    WhileBody(code, c.pc, n, OffsetOf(final, left), bound, inner.code);
    c' := WhileTest(code, c, n, left, bound, inner.code, final, fr, env);
    LoopMeaning(left, bound, body, env, fuel);
    if LoopContinues(left, bound, env) {
      var d := BlockRuns(code, c', body, t0, final, fr, env, all, fuel - 1);
      ReachesTrans(code, c, c', d);
      JumpStep(code, d, c.pc);
      ReachesThenStep(code, c, d);
      var again := Step(code, d);
      c' := LoopRuns(code, again, left, bound, body, n, t0, inner, final, fr, ExecBlock(body, env, fuel - 1).value, all,
        fuel - 1);
      ReachesTrans(code, c, again, c');
    }
  }

  /** Where the pieces of a compiled conditional stand. */
  predicate IfLayout(code: seq<Asm>, k: nat, n: nat, off1: int, off2: int, first: seq<Asm>, second: seq<Asm>) {
    && k + |first| + |second| + 6 <= |code|
    && code[k] == MovLoad(EAX, off1) && code[k + 1] == CmpLoad(EAX, off2) && code[k + 2] == JeTo(ElseLabel(n))
    && SegmentAt(code, k + 3, first)
    && code[k + 3 + |first|] == JmpTo(EndLabel(n)) && code[k + 4 + |first|] == LabelDef(ElseLabel(n))
    && SegmentAt(code, k + 5 + |first|, second)
    && code[k + 5 + |first| + |second|] == LabelDef(EndLabel(n))
  }

  lemma LayOutIf(code: seq<Asm>, k: nat, n: nat, off1: int, off2: int, first: seq<Asm>, second: seq<Asm>)
    requires SegmentAt(code, k, IfCode(n, off1, off2, first, second))
    ensures IfLayout(code, k, n, off1, off2, first, second)
  {
    var head, middle, end := IfHead(n, off1, off2), IfMiddle(n), [LabelDef(EndLabel(n))];
    SegmentSplit(code, k, head + first + middle + second, end);
    SegmentSplit(code, k, head + first + middle, second);
    SegmentSplit(code, k, head + first, middle);
    SegmentSplit(code, k, head, first);
    SegmentOf3(code, k, head);
    SegmentOf2(code, k + 3 + |first|, middle);
    SegmentIndex(code, k + 5 + |first| + |second|, end, 0);
  }

  /** The comparison: into the first block, or past the `else` label. */
  lemma IfEntry(code: seq<Asm>, c: Config, n: nat, left: string, right: string, first: seq<Asm>, second: seq<Asm>,
                final: seq<string>, fr: Frame, env: Env) returns (c': Config)
    requires UniqueLabels(code)
    requires SegmentAt(code, c.pc, IfCode(n, OffsetOf(final, left), OffsetOf(final, right), first, second))
    requires Holding(final, fr, env, c.s) && left in final && right in final
    ensures Reaches(code, c, c') && Holding(final, fr, env, c'.s)
    ensures c'.pc == if Lookup(env, left) != Lookup(env, right) then c.pc + 3 else c.pc + 5 + |first|
  {
    hide Step, IfCode, SegmentAt, UniqueLabels, Reaches;
    var off1, off2 := OffsetOf(final, left), OffsetOf(final, right);
    LayOutIf(code, c.pc, n, off1, off2, first, second);
    IfTest(code, c, off1, off2, ElseLabel(n), c.pc + 4 + |first|);
    var c1 := Step(code, c);
    var c2 := Step(code, c1);
    c' := Step(code, c2);
    ReachesStep(code, c);
    ReachesThenStep(code, c, c1);
    ReachesThenStep(code, c, c2);
    KeepHolding(final, fr, env, c.s, c'.s);
    if c'.pc == c.pc + 4 + |first| {
      LabelStep(code, c');
      ReachesThenStep(code, c, c');
      c' := Step(code, c');
    }
  }

  lemma IfBlocks(code: seq<Asm>, k: nat, n: nat, off1: int, off2: int, first: seq<Asm>, second: seq<Asm>)
    requires SegmentAt(code, k, IfCode(n, off1, off2, first, second))
    ensures SegmentAt(code, k + 3, first) && SegmentAt(code, k + 5 + |first|, second)
    ensures k + 5 + |first| + |second| < |code|
    ensures code[k + 3 + |first|] == JmpTo(EndLabel(n)) && code[k + 5 + |first| + |second|] == LabelDef(EndLabel(n))
  {
    LayOutIf(code, k, n, off1, off2, first, second);
  }

  /** A conditional laid out at `c.pc` whose test takes the first block. */
  lemma {:induction false} FirstBranchRuns(code: seq<Asm>, c: Config, left: string, right: string, first: Block,
                                           n: nat, t0: Tables, t1: Compiled, second: seq<Asm>, final: seq<string>,
                                           fr: Frame, env: Env, all: set<string>, fuel: nat) returns (c': Config)
    requires CallFree(first) && StringNames(first) <= all && IntNames(first) !! all && StringsWithin(t0, all)
    requires t1 == CompileBlock(first, t0) && t1.tables.syms <= final
    requires UniqueLabels(code)
    requires SegmentAt(code, c.pc, IfCode(n, OffsetOf(final, left), OffsetOf(final, right), t1.code, second))
    requires Holding(final, fr, env, c.s) && left in final && right in final && Lookup(env, left) != Lookup(env, right)
    requires ExecBlock(first, env, fuel).Some?
    ensures Reaches(code, c, c') && c'.pc == c.pc + 6 + |t1.code| + |second|
    ensures Holding(final, fr, ExecBlock(first, env, fuel).value, c'.s)
    decreases fuel, BlockSize(first), 1
  {
    hide *;
    IfBlocks(code, c.pc, n, OffsetOf(final, left), OffsetOf(final, right), t1.code, second);
    var d := IfEntry(code, c, n, left, right, t1.code, second, final, fr, env);
    var f := BlockRuns(code, d, first, t0, final, fr, env, all, fuel);
    ReachesTrans(code, c, d, f);
    c' := JumpPast(code, f, c.pc + 5 + |t1.code| + |second|);
    ReachesTrans(code, c, f, c');
  }

  /** A conditional laid out at `c.pc` whose test takes the second block. */
  lemma {:induction false} SecondBranchRuns(code: seq<Asm>, c: Config, left: string, right: string, second: Block,
                                            n: nat, first: seq<Asm>, t1: Tables, t2: Compiled, final: seq<string>,
                                            fr: Frame, env: Env, all: set<string>, fuel: nat) returns (c': Config)
    requires CallFree(second) && StringNames(second) <= all && IntNames(second) !! all && StringsWithin(t1, all)
    requires t2 == CompileBlock(second, t1) && t2.tables.syms <= final
    requires UniqueLabels(code)
    requires SegmentAt(code, c.pc, IfCode(n, OffsetOf(final, left), OffsetOf(final, right), first, t2.code))
    requires Holding(final, fr, env, c.s) && left in final && right in final && Lookup(env, left) == Lookup(env, right)
    requires ExecBlock(second, env, fuel).Some?
    ensures Reaches(code, c, c') && c'.pc == c.pc + 6 + |first| + |t2.code|
    ensures Holding(final, fr, ExecBlock(second, env, fuel).value, c'.s)
    decreases fuel, BlockSize(second), 1
  {
    hide *;
    IfBlocks(code, c.pc, n, OffsetOf(final, left), OffsetOf(final, right), first, t2.code);
    var d := IfEntry(code, c, n, left, right, first, t2.code, final, fr, env);
    var f := BlockRuns(code, d, second, t1, final, fr, env, all, fuel);
    ReachesTrans(code, c, d, f);
    LabelStep(code, f);
    ReachesThenStep(code, c, f);
    c' := Step(code, f);
  }

  /** Jumping to a label and passing it. */
  lemma JumpPast(code: seq<Asm>, c: Config, k: nat) returns (c': Config)
    requires UniqueLabels(code)
    requires c.pc < |code| && code[c.pc].JmpTo?
    requires k < |code| && code[k] == LabelDef(code[c.pc].target)
    ensures Reaches(code, c, c') && c' == c.(pc := k + 1)
  {
    JumpStep(code, c, k);
    var d := Step(code, c);
    ReachesStep(code, c);
    LabelStep(code, d);
    ReachesThenStep(code, c, d);
    c' := Step(code, d);
  }
}
