/** A program that does not end compiles to code that does not end. */
module Divergence {
  import opened X86
  import opened SourceLanguage
  import opened CodeGenerator
  import opened AsmMachine
  import opened CompilerCorrectness
  import opened ProgramCorrectness

  /** Reached after at least `m` steps. */
  ghost predicate ReachesLate(code: seq<Asm>, c: Config, d: Config, m: nat) {
    exists n: nat :: n >= m && Run(code, n, c) == d
  }

  lemma LateTrans(code: seq<Asm>, c: Config, d: Config, e: Config, m: nat)
    requires Reaches(code, c, d) && ReachesLate(code, d, e, m)
    ensures ReachesLate(code, c, e, m)
    ensures c != d ==> ReachesLate(code, c, e, m + 1)
  {
    var i: nat :| Run(code, i, c) == d;
    var j: nat :| j >= m && Run(code, j, d) == e;
    RunSplit(code, i, j, c);
  }

  /** Going round a loop takes a step even when it returns to the same configuration. */
  lemma LateCycle(code: seq<Asm>, c: Config, d: Config, e: Config, f: Config, m: nat)
    requires Reaches(code, c, d) && c != d && Reaches(code, d, e) && ReachesLate(code, e, f, m)
    ensures ReachesLate(code, c, f, m + 1)
  {
    LateTrans(code, d, e, f, m);
    LateTrans(code, c, d, f, m);
  }

  lemma LateNow(code: seq<Asm>, c: Config)
    ensures ReachesLate(code, c, c, 0)
  {
    assert Run(code, 0, c) == c;
  }

  lemma OutOfFuel(left: string, bound: string, body: Block, env: Env, fuel: nat)
    requires ExecStmt(While(left, bound, body), env, fuel).None?
    ensures LoopContinues(left, bound, env)
    ensures fuel > 0 && ExecBlock(body, env, fuel - 1).Some? ==>
              ExecStmt(While(left, bound, body), ExecBlock(body, env, fuel - 1).value, fuel - 1).None?
  {
  }

  /** A loop that runs out of fuel keeps the machine inside its code for at least that many steps. */
  lemma {:induction false} LoopLate(code: seq<Asm>, c: Config, left: string, bound: string, body: Block, n: nat,
                                    t0: Tables, inner: Compiled, final: seq<string>, fr: Frame, env: Env,
                                    all: set<string>, fuel: nat)
    returns (c': Config)
    requires CallFree(body) && StringNames(body) <= all && IntNames(body) !! all && StringsWithin(t0, all)
    requires inner == CompileBlock(body, t0) && inner.tables.syms <= final && left in final
    requires UniqueLabels(code) && SegmentAt(code, c.pc, WhileCode(n, OffsetOf(final, left), bound, inner.code))
    requires Holding(final, fr, env, c.s)
    requires ExecStmt(While(left, bound, body), env, fuel).None?
    ensures ReachesLate(code, c, c', fuel) && c.pc <= c'.pc < c.pc + 5 + |inner.code|
    decreases fuel, BlockSize(body), 1
  {
    hide *;
    OutOfFuel(left, bound, body, env, fuel);
    if fuel == 0 {
      LateNow(code, c);
      return c;
    }
    WhileBody(code, c.pc, n, OffsetOf(final, left), bound, inner.code);
    var d := WhileTest(code, c, n, left, bound, inner.code, final, fr, env);
    if ExecBlock(body, env, fuel - 1).None? {
      c' := BlockLate(code, d, body, t0, final, fr, env, all, fuel - 1);
      LateTrans(code, c, d, c', fuel - 1);
    } else {
      var e := BlockRuns(code, d, body, t0, final, fr, env, all, fuel - 1);
      JumpStep(code, e, c.pc);
      ReachesThenStep(code, d, e);
      var again := Step(code, e);
      c' := LoopLate(code, again, left, bound, body, n, t0, inner, final, fr, ExecBlock(body, env, fuel - 1).value, all,
        fuel - 1);
      LateCycle(code, c, d, again, c', fuel - 1);
    }
  }

  lemma {:induction false} IfLate(code: seq<Asm>, c: Config, left: string, right: string, thenBlock: Block,
                                  elseBlock: Option<Block>, t: Tables, final: seq<string>, fr: Frame, env: Env,
                                  all: set<string>, fuel: nat)
    returns (c': Config)
    requires CallFree(thenBlock) && StringNames(thenBlock) <= all && IntNames(thenBlock) !! all
    requires CallFree(ElseBlock(elseBlock)) && StringNames(ElseBlock(elseBlock)) <= all
             && IntNames(ElseBlock(elseBlock)) !! all
    requires Ready(code, c, t, CompileStmt(If(left, right, thenBlock, elseBlock), t), final, fr, env, all)
    requires ExecStmt(If(left, right, thenBlock, elseBlock), env, fuel).None?
    ensures ReachesLate(code, c, c', fuel)
    ensures c.pc <= c'.pc < c.pc + |CompileStmt(If(left, right, thenBlock, elseBlock), t).code|
    decreases fuel, BlockSize(thenBlock) + BlockSize(ElseBlock(elseBlock)), 2
  {
    hide CompileStmt, CompileBlock, ExecStmt, ExecBlock, IfCode, Holding, SegmentAt, UniqueLabels, OffsetOf,
         StringsWithin, Reaches;
    hide CallFree, StringNames, IntNames, Touch;
    var t0 := IfTables(left, right, t);
    var t1 := CompileBlock(thenBlock, t0);
    var second := ElseBlock(elseBlock);
    var t2 := CompileBlock(second, t1.tables);
    IfPieces(code, c, left, right, thenBlock, elseBlock, t, final, all);
    IfMeaning(left, right, thenBlock, elseBlock, env, fuel);
    IfBlocks(code, c.pc, t.ifs, OffsetOf(final, left), OffsetOf(final, right), t1.code, t2.code);
    var d := IfEntry(code, c, t.ifs, left, right, t1.code, t2.code, final, fr, env);
    if Lookup(env, left) != Lookup(env, right) {
      c' := BlockLate(code, d, thenBlock, t0, final, fr, env, all, fuel);
    } else {
      c' := BlockLate(code, d, second, t1.tables, final, fr, env, all, fuel);
    }
    LateTrans(code, c, d, c', fuel);
  }

  lemma {:induction false} StmtLate(code: seq<Asm>, c: Config, s: Stmt, t: Tables, final: seq<string>, fr: Frame,
                                    env: Env, all: set<string>, fuel: nat) returns (c': Config)
    requires StmtCallFree(s) && StmtStringNames(s) <= all && StmtIntNames(s) !! all
    requires Ready(code, c, t, CompileStmt(s, t), final, fr, env, all)
    requires ExecStmt(s, env, fuel).None?
    ensures ReachesLate(code, c, c', fuel) && c.pc <= c'.pc < c.pc + |CompileStmt(s, t).code|
    decreases fuel, StmtSize(s), 1
  {
    match s {
      case While(left, bound, body) =>
        var t0 := t.(syms := Touch(t.syms, left), loops := t.loops + 1);
        BlockGrows(body, t0);
        OffsetStable(t.syms, final, left);
        c' := LoopLate(code, c, left, bound, body, t.loops, t0, CompileBlock(body, t0), final, fr, env, all, fuel);
      case If(left, right, thenBlock, elseBlock) =>
        c' := IfLate(code, c, left, right, thenBlock, elseBlock, t, final, fr, env, all, fuel);
    }
  }

  lemma {:induction false} BlockLate(code: seq<Asm>, c: Config, b: Block, t: Tables, final: seq<string>, fr: Frame,
                                     env: Env, all: set<string>, fuel: nat) returns (c': Config)
    requires CallFree(b) && StringNames(b) <= all && IntNames(b) !! all
    requires Ready(code, c, t, CompileBlock(b, t), final, fr, env, all)
    requires ExecBlock(b, env, fuel).None?
    ensures ReachesLate(code, c, c', fuel) && c.pc <= c'.pc < c.pc + |CompileBlock(b, t).code|
    decreases fuel, BlockSize(b), 0
  {
    var first := CompileStmt(b.head, t);
    var rest := CompileBlock(b.tail, first.tables);
    SegmentSplit(code, c.pc, first.code, rest.code);
    BlockGrows(b.tail, first.tables);
    if ExecStmt(b.head, env, fuel).None? {
      c' := StmtLate(code, c, b.head, t, final, fr, env, all, fuel);
    } else {
      var d := StmtRuns(code, c, b.head, t, final, fr, env, all, fuel);
      StmtStrings(b.head, t, all);
      c' := BlockLate(code, d, b.tail, first.tables, final, fr, ExecStmt(b.head, env, fuel).value, all, fuel);
      LateTrans(code, c, d, c', fuel);
    }
  }

  // ---------- the program ----------

  /** Out of fuel, the machine is still before the final `ret` after that many steps. */
  lemma MainLate(body: Block, s: State, fuel: nat) returns (c': Config)
    requires Meaningful(body)
    requires ExecBlock(body, StartEnv(body, s), fuel).None?
    ensures ReachesLate(MainCode(body), Config(0, s), c', fuel) && c'.pc < |MainCode(body)| - 1
  {
    hide CompileBlock, ExecBlock, Step;
    var code, syms := MainCode(body), MainSymbols(body);
    MainLabels(body);
    MainShape(body);
    var c1 := Config(1, s);
    LabelStep(code, Config(0, s));
    ReachesStep(code, Config(0, s));
    if |syms| > 0 {
      var c2 := PrologueRuns(code, c1, syms);
      ReachesTrans(code, Config(0, s), c1, c2);
      c' := BlockLate(code, c2, body, NO_TABLES, syms, InitialFrame(|syms|, s), StartEnv(body, s), StringNames(body),
        fuel);
      LateTrans(code, Config(0, s), c2, c', fuel);
    } else {
      var fr := Frame(s.regs[EBP], s.regs[ESP], Load32(s.mem, s.regs[EBP]));
      c' := BlockLate(code, c1, body, NO_TABLES, syms, fr, StartEnv(body, s), StringNames(body), fuel);
      LateTrans(code, Config(0, s), c1, c', fuel);
    }
  }

  lemma {:induction false} StoppedStays(code: seq<Asm>, c: Config, n: nat)
    requires Step(code, c) == c
    ensures Run(code, n, c) == c
    decreases n
  {
    if n > 0 { StoppedStays(code, c, n - 1); }
  }

  lemma StoppedAfter(code: seq<Asm>, c: Config, d: Config, m: nat, n: nat)
    requires Run(code, m, c) == d && Step(code, d) == d && n >= m
    ensures Run(code, n, c) == d
  {
    RunSplit(code, m, n - m, c);
    StoppedStays(code, d, n - m);
  }

  ghost predicate SourceEnds(body: Block, s: State) {
    exists fuel: nat :: ExecBlock(body, StartEnv(body, s), fuel).Some?
  }

  ghost predicate CodeEnds(body: Block, s: State) {
    exists c :: Reaches(MainCode(body), Config(0, s), c) && c.pc == |MainCode(body)| - 1
  }

  /** The emitted code reaches its final `ret` exactly when the source program ends. */
  lemma EndsIff(body: Block, s: State)
    requires Meaningful(body)
    ensures SourceEnds(body, s) <==> CodeEnds(body, s)
  {
    var code := MainCode(body);
    if SourceEnds(body, s) {
      var fuel: nat :| ExecBlock(body, StartEnv(body, s), fuel).Some?;
      var c' := MainRuns(body, s, fuel);
    }
    if CodeEnds(body, s) {
      var d :| Reaches(code, Config(0, s), d) && d.pc == |code| - 1;
      var m: nat :| Run(code, m, Config(0, s)) == d;
      EndsWithin(body, s, m);
    }
  }

  /** Code that has stopped after m steps comes from a source program that ends with fuel m. */
  lemma EndsWithin(body: Block, s: State, m: nat)
    requires Meaningful(body) && Run(MainCode(body), m, Config(0, s)).pc == |MainCode(body)| - 1
    ensures ExecBlock(body, StartEnv(body, s), m).Some?
  {
    hide Meaningful, ExecBlock, Run, MainCode;
    if ExecBlock(body, StartEnv(body, s), m).None? {
      var code, d := MainCode(body), Run(MainCode(body), m, Config(0, s));
      var c' := MainLate(body, s, m);
      var n: nat :| n >= m && Run(code, n, Config(0, s)) == c';
      MainShape(body);
      assert Step(code, d) == d;
      StoppedAfter(code, Config(0, s), d, m, n);
    }
  }
}
