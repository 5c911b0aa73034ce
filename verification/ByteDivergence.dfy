/** Termination of the assembled bytes: they come to their `ret` exactly when the source program ends. */
module ByteDivergence {
  import opened Words
  import opened X86
  import opened SourceLanguage
  import opened CodeGenerator
  import opened AsmMachine
  import opened ProgramCorrectness
  import opened Divergence
  import opened Disassembler
  import opened AssemblyText
  import opened Passes
  import opened Addresses
  import opened AsmOperands
  import opened ByteMachine
  import opened Toolchain

  // ---------- the final `ret` is the only one ----------

  predicate NoReturn(code: seq<Asm>) {
    Return !in code
  }

  lemma {:induction false} AddsNoReturn(adds: seq<string>)
    ensures NoReturn(AddChain(adds))
  {
    if adds != [] { AddsNoReturn(adds[1..]); }
  }

  lemma ExprNoReturn(e: Expr, syms: seq<string>, strings: seq<string>)
    ensures NoReturn(CompileExpr(e, syms, strings).code)
  {
    AddsNoReturn(e.adds);
  }

  lemma StoreNoReturn(name: string, e: Expr, syms: seq<string>, strings: seq<string>)
    ensures NoReturn(StoreCode(name, e, syms, strings))
  {
    hide CompileExpr;
    ExprNoReturn(e, syms, strings);
  }

  lemma {:induction false} StmtNoReturn(s: Stmt, t: Tables)
    requires StmtCallFree(s)
    ensures NoReturn(CompileStmt(s, t).code)
    decreases StmtSize(s)
  {
    hide StoreCode, CompileExpr;
    match s {
      case DeclareInit(name, e) => StoreNoReturn(name, e, t.syms, t.strings);
      case Assign(name, e) => StoreNoReturn(name, e, t.syms, t.strings);
      case While(left, _, body) => BlockNoReturn(body, t.(syms := Touch(t.syms, left), loops := t.loops + 1));
      case If(left, right, first, second) =>
        var t0 := t.(syms := Touch(Touch(t.syms, left), right), ifs := t.ifs + 1);
        BlockNoReturn(first, t0);
        if second.Some? { BlockNoReturn(second.value, CompileBlock(first, t0).tables); }
      case _ =>
    }
  }

  lemma {:induction false} BlockNoReturn(b: Block, t: Tables)
    requires CallFree(b)
    ensures NoReturn(CompileBlock(b, t).code)
    decreases BlockSize(b)
  {
    if b.Then? {
      hide CompileStmt;
      StmtNoReturn(b.head, t);
      BlockNoReturn(b.tail, CompileStmt(b.head, t).tables);
    }
  }

  lemma OnlyReturn(body: Block, i: nat)
    requires CallFree(body) && i < |MainCode(body)| && MainCode(body)[i] == Return
    ensures i == |MainCode(body)| - 1
  {
    hide CompileBlock, CallFree;
    BlockNoReturn(body, NO_TABLES);
    var inner, n := CompileBlock(body, NO_TABLES).code, |CompileBlock(body, NO_TABLES).tables.syms|;
    var before := [LabelDef(START)] + (if n > 0 then Prologue(n) + inner + Epilogue() else inner);
    assert MainCode(body) == before + [Return];
    assert Return !in before;
    assert forall k :: 0 <= k < |before| ==> MainCode(body)[k] == before[k] && before[k] in before;
  }

  // ---------- whatever the bytes reach, the emitted instructions reach ----------

  /** Label definitions take no bytes, so the machine can be taken to stand behind them. */
  lemma {:induction false} PastLabels(lines: seq<Line>, k0: nat, code: seq<Asm>, library: map<string, Word>, c: Config,
                                      b: ByteConfig)
    returns (d: Config)
    requires Embedded(lines, k0, code, library) && Same(lines, k0, code, library, c, b)
    requires c.pc < |code| && !code[|code| - 1].LabelDef?
    ensures Reaches(code, c, d) && Same(lines, k0, code, library, d, b) && d.pc < |code| && !code[d.pc].LabelDef?
    decreases |code| - c.pc
  {
    hide Embedded, AddressOf, Step, Reaches;
    d := c;
    if code[c.pc].LabelDef? {
      LabelNoBytes(lines, k0, code, library, c.pc);
      LabelPassed(code, c);
      ReachesStep(code, c);
      d := PastLabels(lines, k0, code, library, Step(code, c), b);
      ReachesTrans(code, c, Step(code, c), d);
    } else {
      ReachesSelf(code, c);
    }
  }

  lemma DataStuck(code: seq<Asm>, mem: seq<Byte>, c: Config, b: ByteConfig)
    requires c.pc < |code| && IsData(code[c.pc]) && b.s == c.s
    requires Decode(mem, b.ip).instr == Lower(code[c.pc]) && Execute(Lower(code[c.pc]), c.s) == None
    ensures ByteStep(mem, b) == b
  {
    hide Decode, Operate, Write, Read, ExecutePush, ExecutePop, Holds;
  }

  lemma ReturnStuck(s: State)
    ensures Execute(Lower(Return), s) == None
  {
  }

  /** One step over bytes is at least the matching step over emitted instructions. */
  lemma ByteStepMatched(lines: seq<Line>, k0: nat, code: seq<Asm>, library: map<string, Word>, c: Config, b: ByteConfig)
    returns (d: Config)
    requires Embedded(lines, k0, code, library) && Same(lines, k0, code, library, c, b)
    requires c.pc < |code| && code[|code| - 1] == Return
    ensures Reaches(code, c, d) && d.pc < |code|
    ensures Same(lines, k0, code, library, d, ByteStep(CodeBytes(lines, library), b))
  {
    hide Embedded, AddressOf, CodeBytes, Execute, Lower, ByteStep, Step, Reaches, Decode, Pass2, RelOf, Holds,
         Definition, NamesOf;
    var mem := CodeBytes(lines, library);
    var c1 := PastLabels(lines, k0, code, library, c, b);
    BytesUnfold(lines, library);
    d := Step(code, c1);
    ReachesThenStep(code, c, c1);
    if IsData(code[c1.pc]) {
      DataDecoded(lines, k0, code, library, c1.pc);
      DataStep(code, mem, c1, b);
      if Execute(Lower(code[c1.pc]), c1.s).None? {
        DataStuck(code, mem, c1, b);
      } else {
        ReturnStuck(c1.s);
      }
    } else {
      JumpOnly(lines, k0, code, library, c1.pc);
      JumpDecoded(lines, k0, code, library, c1.pc);
      JumpSteps(code, mem, c1, b, AddressOf(lines, k0, Definition(code, code[c1.pc].target), library));
    }
  }

  lemma {:induction false} ByteRunMatched(lines: seq<Line>, k0: nat, code: seq<Asm>, library: map<string, Word>, n: nat,
                                          c: Config, b: ByteConfig)
    returns (d: Config)
    requires Embedded(lines, k0, code, library) && Same(lines, k0, code, library, c, b)
    requires c.pc < |code| && code[|code| - 1] == Return
    ensures Reaches(code, c, d) && d.pc < |code|
    ensures Same(lines, k0, code, library, d, ByteRun(CodeBytes(lines, library), n, b))
    decreases n
  {
    hide Embedded, Same, CodeBytes, ByteStep, Step, Reaches;
    if n == 0 {
      d := c;
      ReachesSelf(code, c);
    } else {
      var c1 := ByteStepMatched(lines, k0, code, library, c, b);
      d := ByteRunMatched(lines, k0, code, library, n - 1, c1, ByteStep(CodeBytes(lines, library), b));
      ReachesTrans(code, c, c1, d);
    }
  }

  // ---------- termination ----------

  /** The bytes, run from the start in this state, come to a `ret`. */
  ghost predicate BytesEnd(bytes: seq<Byte>, s: State) {
    exists n: nat :: Decode(bytes, ByteRun(bytes, n, ByteConfig(0, s)).ip).instr == Ret
  }

  lemma ReturnDecoded(lines: seq<Line>, k0: nat, code: seq<Asm>, library: map<string, Word>, i: nat)
    requires Embedded(lines, k0, code, library) && i < |code| && !code[i].LabelDef?
    requires Decode(CodeBytes(lines, library), AddressOf(lines, k0, i, library)).instr == Ret
    ensures code[i] == Return
  {
    hide Embedded, AddressOf, CodeBytes, Decode, Pass2, RelOf, Definition, NamesOf;
    BytesUnfold(lines, library);
    if IsData(code[i]) {
      DataDecoded(lines, k0, code, library, i);
    } else {
      JumpOnly(lines, k0, code, library, i);
      JumpDecoded(lines, k0, code, library, i);
    }
  }

  lemma EndedBytes(body: Block, library: map<string, Word>, s: State, n: nat)
    requires Buildable(body, library)
    requires var bytes := CodeBytes(MainLines(body), library);
             Decode(bytes, ByteRun(bytes, n, ByteConfig(0, s)).ip).instr == Ret
    ensures CodeEnds(body, s)
  {
    hide *;
    var lines, k0, code := MainLines(body), FirstCodeLine(StringDecls(body)), MainCode(body);
    MainEmbedded(body, library);
    MainShape(body);
    MainNotEmpty(body);
    StartSame(body, library, s);
    var c := ByteRunMatched(lines, k0, code, library, n, Config(0, s), ByteConfig(0, s));
    var b := ByteRun(CodeBytes(lines, library), n, ByteConfig(0, s));
    var d := PastLabels(lines, k0, code, library, c, b);
    ReachesTrans(code, Config(0, s), c, d);
    SameAddress(lines, k0, code, library, d, b);
    ReturnDecoded(lines, k0, code, library, d.pc);
    MainCallFree(body, library);
    OnlyReturn(body, d.pc);
    AtEnd(body, s, d);
  }

  lemma MainNotEmpty(body: Block)
    ensures |MainCode(body)| > 0
  {
    hide CompileBlock;
  }

  lemma SameAddress(lines: seq<Line>, k0: nat, code: seq<Asm>, library: map<string, Word>, c: Config, b: ByteConfig)
    requires Same(lines, k0, code, library, c, b)
    ensures c.pc <= |code| && k0 + |code| <= |lines| && b.ip == AddressOf(lines, k0, c.pc, library)
  {
    hide AddressOf;
  }

  lemma MainCallFree(body: Block, library: map<string, Word>)
    requires Buildable(body, library)
    ensures CallFree(body) && Meaningful(body)
  {
    hide CallFree;
  }

  lemma AtEnd(body: Block, s: State, d: Config)
    requires Reaches(MainCode(body), Config(0, s), d) && d.pc == |MainCode(body)| - 1
    ensures CodeEnds(body, s)
  {
    hide Reaches, MainCode;
  }

  /**
    * Run byte by byte from any machine state, a compiled program comes to its `ret` exactly when the source program
    * ends.
    */
  lemma BytesEndIff(body: Block, library: map<string, Word>, s: State)
    requires Buildable(body, library)
    ensures SourceEnds(body, s) <==> BytesEnd(CodeBytes(Lines(MainText(body)), library), s)
  {
    hide Buildable, MainText, MainLines, Lines, CodeBytes, ExecBlock, StartEnv, ByteRun, Decode, Reaches, MainCode;
    MainRead(body, library);
    MainCallFree(body, library);
    var bytes := CodeBytes(MainLines(body), library);
    if SourceEnds(body, s) {
      var fuel: nat :| ExecBlock(body, StartEnv(body, s), fuel).Some?;
      var b := CompiledBytesRun(body, library, s, fuel);
      var n: nat :| ByteRun(bytes, n, ByteConfig(0, s)) == b;
    }
    if BytesEnd(bytes, s) {
      var n: nat :| Decode(bytes, ByteRun(bytes, n, ByteConfig(0, s)).ip).instr == Ret;
      EndedBytes(body, library, s, n);
      EndsIff(body, s);
    }
  }
}
