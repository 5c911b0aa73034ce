/** A whole compiled `main`: prologue, body, epilogue. */
module ProgramCorrectness {
  import opened Words
  import opened LibcText
  import opened X86
  import opened SourceLanguage
  import opened CodeGenerator
  import opened AsmMachine
  import opened CompilerCorrectness
  import opened LabelUniqueness

  const START: string := "_start"

  /** The compiler's tables before the first function. */
  const NO_TABLES: Tables := Tables([], [], 0, 0)

  function MainCode(body: Block): seq<Asm> {
    CompileFunction(START, body, NO_TABLES).code
  }

  /** The final symbol table of `main`. */
  function MainSymbols(body: Block): seq<string> {
    CompileBlock(body, NO_TABLES).tables.syms
  }

  /** The programs to which the source gives a meaning and the compiler a single target for every branch. */
  predicate Meaningful(body: Block) {
    && CallFree(body)
    && IntNames(body) !! StringNames(body)
    && !(HasIf(body) && HasWhile(body))
    && |MainSymbols(body)| <= MAX_SYMBOLS
  }

  // ---------- labels of the whole function ----------

  lemma MainLabels(body: Block)
    requires !(HasIf(body) && HasWhile(body))
    ensures UniqueLabels(MainCode(body))
  {
    hide CompileBlock, Invented, Defs, HasIf, HasWhile;
    var compiled := CompileBlock(body, NO_TABLES);
    var code := compiled.code;
    BlockLabelsUniqueIff(body, NO_TABLES);
    StartIsNotInvented();
    BlockInvented(body, NO_TABLES, START);
    forall i | 0 <= i < |code| && code[i].LabelDef?
      ensures code[i].name != START
    {
      if code[i].name == START { DefsAt(code, i, START); }
    }
    var n := |compiled.tables.syms|;
    var head := [LabelDef(START)] + (if n > 0 then Prologue(n) else []);
    var tail := (if n > 0 then Epilogue() else []) + [Return];
    assert MainCode(body) == head + code + tail;
    UniqueWithin(head, code, tail);
  }

  lemma StartIsNotInvented()
    ensures !Invented(START)
  {
    forall k: nat
      ensures START != LoopLabel(k) && START != ElseLabel(k) && START != EndLabel(k)
    {
      assert START[0] == '_' && LoopLabel(k)[0] == 'l' && ElseLabel(k)[0] == 'e' && EndLabel(k)[0] == 'e';
    }
  }

  lemma UniqueWithin(head: seq<Asm>, code: seq<Asm>, tail: seq<Asm>)
    requires UniqueLabels(code) && LabelFree(tail)
    requires head != [] && head[0].LabelDef? && LabelFree(head[1..])
    requires forall i :: 0 <= i < |code| && code[i].LabelDef? ==> code[i].name != head[0].name
    ensures UniqueLabels(head + code + tail)
  {
    var all := head + code + tail;
    forall i | 0 < i < |all|
      ensures all[i].LabelDef? ==> |head| <= i < |head| + |code| && all[i] == code[i - |head|]
    {
      if i < |head| { assert all[i] == head[1..][i - 1]; }
      if i >= |head| + |code| { assert all[i] == tail[i - |head| - |code|]; }
    }
  }

  // ---------- prologue and epilogue ----------

  lemma FrameSize(n: nat)
    requires n <= MAX_SYMBOLS
    ensures ParseImm(Decimal(n * 4)) == n * 4
  {
    NumeralReadBack(n * 4, []);
    assert Numeral(n * 4, 10) + [] == Numeral(n * 4, 10);
    ParseNonNegative(n * 4, []);
    Int32Idempotent(n * 4);
  }

  function Base(s: State): Word {
    var esp: int := s.regs[ESP];
    Wrap(esp - 4)
  }

  /** What the slots of a fresh frame hold: the stack's old contents. */
  function InitialEnv(syms: seq<string>, s: State): Env {
    map x | x in syms :: SlotValue(s, Base(s), FirstIndex(syms, x))
  }

  function InitialFrame(n: nat, s: State): Frame {
    var base: int := Base(s);
    Frame(Base(s), Wrap(base - 4 * n), s.regs[EBP])
  }

  lemma PushedSlots(syms: seq<string>, s: State)
    requires |syms| <= MAX_SYMBOLS
    ensures var s' := ExecutePush(s, s.regs[EBP]);
            && Load32(s'.mem, Base(s)) == s.regs[EBP]
            && forall x :: x in syms ==> SlotValue(s', Base(s), FirstIndex(syms, x)) == Lookup(InitialEnv(syms, s), x)
  {
    LoadStored(s.mem, Base(s), s.regs[EBP]);
    forall x | x in syms
      ensures SlotValue(ExecutePush(s, s.regs[EBP]), Base(s), FirstIndex(syms, x))
              == SlotValue(s, Base(s), FirstIndex(syms, x))
    {
      SlotApartFromBase(Base(s), FirstIndex(syms, x));
      ApartSymmetric(SlotAddress(Base(s), FirstIndex(syms, x)), Base(s));
      LoadApart(s.mem, Base(s), s.regs[EBP], SlotAddress(Base(s), FirstIndex(syms, x)));
    }
  }

  lemma ApartSymmetric(a: Word, b: Word)
    requires Apart(a, b)
    ensures Apart(b, a)
  {
  }

  lemma PushStep(code: seq<Asm>, c: Config, r: Reg)
    requires c.pc < |code| && code[c.pc] == PushReg(r)
    ensures Step(code, c) == Config(c.pc + 1, ExecutePush(c.s, c.s.regs[r]))
  {
  }

  lemma PopStep(code: seq<Asm>, c: Config, r: Reg)
    requires c.pc < |code| && code[c.pc] == PopReg(r)
    ensures Step(code, c) == Config(c.pc + 1, ExecutePop(c.s, r))
  {
  }

  lemma MoveStep(code: seq<Asm>, c: Config, dst: Reg, src: Reg)
    requires c.pc < |code| && code[c.pc] == MovReg(dst, src)
    ensures Step(code, c) == Config(c.pc + 1, c.s.(regs := SetReg(c.s.regs, dst, c.s.regs[src])))
  {
  }

  lemma SubStep(code: seq<Asm>, c: Config, text: string)
    requires c.pc < |code| && code[c.pc] == SubText(ESP, text)
    ensures var c' := Step(code, c);
            var esp: int := c.s.regs[ESP];
            && c'.pc == c.pc + 1 && c'.s.mem == c.s.mem
            && c'.s.regs == SetReg(c.s.regs, ESP, Wrap(esp - ParseImm(text)))
  {
    var esp: int := c.s.regs[ESP];
    ParsedIsInt32(text);
    WrapPeriod(esp - ParseImm(text), -1);
  }

  /** The prologue sets up the frame; the slots hold what the stack held. */
  lemma PrologueRuns(code: seq<Asm>, c: Config, syms: seq<string>) returns (c': Config)
    requires 0 < |syms| <= MAX_SYMBOLS
    requires SegmentAt(code, c.pc, Prologue(|syms|))
    ensures Reaches(code, c, c') && c'.pc == c.pc + 3
    ensures Holding(syms, InitialFrame(|syms|, c.s), InitialEnv(syms, c.s), c'.s)
  {
    hide Step;
    var n := |syms|;
    SegmentOf3(code, c.pc, Prologue(n));
    PushStep(code, c, EBP);
    var c1 := Step(code, c);
    ReachesStep(code, c);
    MoveStep(code, c1, EBP, ESP);
    var c2 := Step(code, c1);
    ReachesThenStep(code, c, c1);
    FrameSize(n);
    SubStep(code, c2, Decimal(n * 4));
    c' := Step(code, c2);
    ReachesThenStep(code, c, c2);
    PushedSlots(syms, c.s);
  }

  /** The epilogue undoes the prologue's changes to ebp and esp. */
  lemma EpilogueRuns(code: seq<Asm>, c: Config, syms: seq<string>, fr: Frame, env: Env) returns (c': Config)
    requires SegmentAt(code, c.pc, Epilogue())
    requires Holding(syms, fr, env, c.s)
    ensures Reaches(code, c, c') && c'.pc == c.pc + 2
    ensures c'.s.mem == c.s.mem && c'.s.regs[EBP] == fr.saved && c'.s.regs[ESP] == Wrap(fr.ebp + 4)
  {
    hide Step;
    SegmentOf2(code, c.pc, Epilogue());
    MoveStep(code, c, ESP, EBP);
    var c1 := Step(code, c);
    ReachesStep(code, c);
    PopStep(code, c1, EBP);
    c' := Step(code, c1);
    ReachesThenStep(code, c, c1);
  }

  // ---------- the program ----------

  /** A finished run: at the final `ret`, the caller's registers restored, the slots holding `env`. */
  ghost predicate Finished(body: Block, before: State, env: Env, c: Config) {
    var code, syms := MainCode(body), MainSymbols(body);
    && c.pc == |code| - 1 && code[c.pc] == Return
    && c.s.regs[ESP] == before.regs[ESP] && c.s.regs[EBP] == before.regs[EBP]
    && forall x :: x in syms ==> SlotValue(c.s, Base(before), FirstIndex(syms, x)) == Lookup(env, x)
  }

  lemma MainShape(body: Block)
    ensures var compiled := CompileBlock(body, NO_TABLES);
            var code := MainCode(body);
            var n := |compiled.tables.syms|;
            && code[0] == LabelDef(START) && code[|code| - 1] == Return
            && (n > 0 ==> && SegmentAt(code, 1, Prologue(n)) && SegmentAt(code, 4, compiled.code)
                          && SegmentAt(code, 4 + |compiled.code|, Epilogue()) && |code| == 7 + |compiled.code|)
            && (n == 0 ==> SegmentAt(code, 1, compiled.code) && |code| == 2 + |compiled.code|)
  {
    hide *;
    MainCodeIs(body);
    var compiled := CompileBlock(body, NO_TABLES);
    var n := |compiled.tables.syms|;
    if n > 0 {
      FrameLengths(n);
      FiveParts([LabelDef(START)], Prologue(n), compiled.code, Epilogue(), [Return]);
    } else {
      FiveParts([LabelDef(START)], [], compiled.code, [], [Return]);
    }
  }

  lemma FrameLengths(n: nat)
    ensures |Prologue(n)| == 3 && |Epilogue()| == 2
  {
  }

  lemma MainCodeIs(body: Block)
    ensures var compiled := CompileBlock(body, NO_TABLES);
            var n := |compiled.tables.syms|;
            MainCode(body) == if n > 0 then [LabelDef(START)] + Prologue(n) + compiled.code + Epilogue() + [Return]
                              else [LabelDef(START)] + [] + compiled.code + [] + [Return]
  {
    hide CompileBlock, Prologue, Epilogue;
    var compiled := CompileBlock(body, NO_TABLES);
    var n := |compiled.tables.syms|;
    if n > 0 {
      assert [LabelDef(START)] + Prologue(n) + compiled.code + Epilogue() + [Return]
          == [LabelDef(START)] + (Prologue(n) + compiled.code + Epilogue() + [Return]);
    } else {
      assert [LabelDef(START)] + [] + compiled.code + [] + [Return] == [LabelDef(START)] + (compiled.code + [Return]);
    }
  }

  lemma FiveParts(a: seq<Asm>, b: seq<Asm>, c: seq<Asm>, d: seq<Asm>, e: seq<Asm>)
    requires |a| == 1 && |e| == 1
    ensures var code := a + b + c + d + e;
            && |code| == 2 + |b| + |c| + |d|
            && code[0] == a[0] && code[|code| - 1] == e[0]
            && SegmentAt(code, 1, b) && SegmentAt(code, 1 + |b|, c) && SegmentAt(code, 1 + |b| + |c|, d)
  {
    hide SegmentAt;
    var code := a + b + c + d + e;
    SegmentWhole(code);
    SegmentSplit(code, 0, a + b + c + d, e);
    SegmentSplit(code, 0, a + b + c, d);
    SegmentSplit(code, 0, a + b, c);
    SegmentSplit(code, 0, a, b);
  }

  lemma SegmentWhole(code: seq<Asm>)
    ensures SegmentAt(code, 0, code)
  {
  }

  lemma WrapBack(w: Word)
    ensures var x: int := w; Wrap(Wrap(x - 4) + 4) == w
  {
    var x: int := w;
    WrapAdd(x - 4, 4);
    WrapWord(w);
  }

  /** The environment in which `main` starts. */
  function StartEnv(body: Block, s: State): Env {
    InitialEnv(MainSymbols(body), s)
  }

  /**
    * Compilation preserves meaning. From any machine state, if the source program ends, the emitted code runs
    * to its final `ret` with the stack and base pointers restored and every variable's slot holding the source value.
    */
  lemma MainRuns(body: Block, s: State, fuel: nat) returns (c': Config)
    requires Meaningful(body)
    requires ExecBlock(body, StartEnv(body, s), fuel).Some?
    ensures Reaches(MainCode(body), Config(0, s), c')
    ensures Finished(body, s, ExecBlock(body, StartEnv(body, s), fuel).value, c')
  {
    hide CompileBlock, ExecBlock, Step;
    var code, syms := MainCode(body), MainSymbols(body);
    MainLabels(body);
    MainShape(body);
    var c1 := Config(1, s);
    LabelStep(code, Config(0, s));
    ReachesStep(code, Config(0, s));
    if |syms| > 0 {
      var c2 := PrologueRuns(code, c1, syms);
      ReachesTrans(code, Config(0, s), c1, c2);
      var fr := InitialFrame(|syms|, s);
      var c3 := BlockRuns(code, c2, body, NO_TABLES, syms, fr, StartEnv(body, s), StringNames(body), fuel);
      ReachesTrans(code, Config(0, s), c2, c3);
      c' := EpilogueRuns(code, c3, syms, fr, ExecBlock(body, StartEnv(body, s), fuel).value);
      ReachesTrans(code, Config(0, s), c3, c');
      WrapBack(s.regs[ESP]);
    } else {
      var fr := Frame(s.regs[EBP], s.regs[ESP], Load32(s.mem, s.regs[EBP]));
      c' := BlockRuns(code, c1, body, NO_TABLES, syms, fr, StartEnv(body, s), StringNames(body), fuel);
      ReachesTrans(code, Config(0, s), c1, c');
    }
  }
}
