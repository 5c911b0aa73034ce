/** What the code of a call to an outside function does to the machine around the callee. */
module CallCorrectness {
  import opened Words
  import opened LibcText
  import opened X86
  import opened SourceLanguage
  import opened CodeGenerator
  import opened AsmMachine
  import opened CompilerCorrectness

  const SPACE: nat := 0x1_0000_0000

  // ---------- straight-line code with string operands ----------

  /** One instruction; the name of a string variable stands for its address. None for what transfers control. */
  function Effect(a: Asm, names: map<string, Word>, s: State): Option<State> {
    match a
    case LabelDef(_) => None
    case JmpTo(_) => None
    case JgeTo(_) => None
    case JeTo(_) => None
    case CallTo(_) => None
    case MovText(r, text) =>
      if text in names then Some(Write(s, InReg(r), names[text])) else Execute(Lower(a), s)
    case data => Execute(Lower(data), s)
  }

  function Effects(part: seq<Asm>, names: map<string, Word>, s: State): Option<State> {
    if part == [] then Some(s)
    else
      var first := Effect(part[0], names, s);
      if first.None? then None else Effects(part[1..], names, first.value)
  }

  lemma {:induction false} EffectsAppend(a: seq<Asm>, b: seq<Asm>, names: map<string, Word>, s: State)
    requires Effects(a, names, s).Some?
    ensures Effects(a + b, names, s) == Effects(b, names, Effects(a, names, s).value)
    decreases |a|
  {
    hide Effect;
    if a == [] {
      assert a + b == b;
    } else {
      assert (a + b)[1..] == a[1..] + b;
      EffectsAppend(a[1..], b, names, Effect(a[0], names, s).value);
    }
  }

  lemma EffectsOne(a: Asm, names: map<string, Word>, s: State)
    ensures Effects([a], names, s) == Effect(a, names, s)
  {
    hide Effect;
    assert [a][1..] == [];
  }

  /** Without string operands these are the steps of the instruction machine. */
  lemma {:induction false} EffectsReach(code: seq<Asm>, k: nat, part: seq<Asm>, s: State)
    requires SegmentAt(code, k, part) && Effects(part, map[], s).Some?
    ensures Reaches(code, Config(k, s), Config(k + |part|, Effects(part, map[], s).value))
    decreases |part|
  {
    hide Reaches, Execute, Lower;
    var c := Config(k, s);
    if part == [] {
      ReachesSelf(code, c);
    } else {
      SegmentIndex(code, k, part, 0);
      assert part == [part[0]] + part[1..];
      SegmentSplit(code, k, [part[0]], part[1..]);
      var next := Effect(part[0], map[], s).value;
      assert Step(code, c) == Config(k + 1, next);
      ReachesStep(code, c);
      EffectsReach(code, k + 1, part[1..], next);
      ReachesTrans(code, c, Config(k + 1, next), Config(k + |part|, Effects(part, map[], s).value));
    }
  }

  // ---------- memory above the stack pointer ----------

  function ByteAbove(m: map<Word, Byte>, esp: int, k: nat): Byte {
    LoadByte(m, Wrap(esp + k))
  }

  /** The `span` bytes from `esp` upward are the same. */
  ghost predicate KeptAbove(m: map<Word, Byte>, m': map<Word, Byte>, esp: int, span: nat) {
    forall k: nat :: k < span ==> ByteAbove(m', esp, k) == ByteAbove(m, esp, k)
  }

  lemma Distinct(x: int, y: int)
    requires 0 < x - y < SPACE
    ensures Wrap(x) != Wrap(y)
  {
    WrapIsModulo(x);
    WrapIsModulo(y);
  }

  lemma LoadKept(m: map<Word, Byte>, m': map<Word, Byte>, esp: int, span: nat, k: nat)
    requires KeptAbove(m, m', esp, span) && k + 4 <= span
    ensures Load32(m', Wrap(esp + k)) == Load32(m, Wrap(esp + k))
  {
    hide Wrap;
    WrapAdd(esp + k, 1);
    WrapAdd(esp + k, 2);
    WrapAdd(esp + k, 3);
    assert ByteAbove(m', esp, k) == ByteAbove(m, esp, k) && ByteAbove(m', esp, k + 1) == ByteAbove(m, esp, k + 1);
    assert ByteAbove(m', esp, k + 2) == ByteAbove(m, esp, k + 2)
           && ByteAbove(m', esp, k + 3) == ByteAbove(m, esp, k + 3);
    LoadSame(m', m, Wrap(esp + k));
  }

  /** A word stored right below `esp` leaves the bytes from `esp` upward alone. */
  lemma StoreBelow(m: map<Word, Byte>, esp: int, w: Word, span: nat)
    requires span + 4 <= SPACE
    ensures KeptAbove(m, Store32(m, Wrap(esp - 4), w), esp, span)
  {
    hide Wrap;
    forall k: nat | k < span
      ensures ByteAbove(Store32(m, Wrap(esp - 4), w), esp, k) == ByteAbove(m, esp, k)
    {
      WrapAdd(esp - 4, 1);
      WrapAdd(esp - 4, 2);
      WrapAdd(esp - 4, 3);
      Distinct(esp + k, esp - 4);
      Distinct(esp + k, esp - 3);
      Distinct(esp + k, esp - 2);
      Distinct(esp + k, esp - 1);
      Put4Other(m, Wrap(esp - 4), Wrap(Wrap(esp - 4) + 1), Wrap(Wrap(esp - 4) + 2), Wrap(Wrap(esp - 4) + 3), Le32(w),
        Wrap(esp + k));
    }
  }

  /** What is kept above a lower stack pointer is kept above a higher one. */
  lemma KeptHigher(m: map<Word, Byte>, m': map<Word, Byte>, low: int, high: int, d: nat, span: nat)
    requires KeptAbove(m, m', low, span + d) && Wrap(low + d) == Wrap(high)
    ensures KeptAbove(m, m', high, span)
  {
    hide Wrap;
    forall k: nat | k < span
      ensures ByteAbove(m', high, k) == ByteAbove(m, high, k)
    {
      WrapAdd(low + d, k);
      WrapAdd(high, k);
      assert ByteAbove(m', low, d + k) == ByteAbove(m, low, d + k);
    }
  }

  // ---------- pushing ----------

  /**
    * The values were pushed, the first one last; `span` bytes from the old top on, and all but eax and esp, are kept.
    */
  ghost predicate Pushed(s: State, s': State, values: seq<Word>, span: nat) {
    && s'.regs[ESP] == Wrap(s.regs[ESP] - 4 * |values|)
    && (forall r: Reg :: r != EAX && r != ESP ==> s'.regs[r] == s.regs[r])
    && (forall i :: 0 <= i < |values| ==> Load32(s'.mem, Wrap(s'.regs[ESP] + 4 * i)) == values[i])
    && KeptAbove(s.mem, s'.mem, s.regs[ESP], span)
  }

  lemma NothingPushed(s: State, s': State, span: nat)
    requires s'.mem == s.mem && forall r: Reg :: r != EAX ==> s'.regs[r] == s.regs[r]
    ensures Pushed(s, s', [], span)
  {
    WrapWord(s.regs[ESP]);
  }

  lemma PushOne(s: State, s1: State, values: seq<Word>, r: Reg, names: map<string, Word>, span: nat)
    requires Pushed(s, s1, values, span) && span + 4 * |values| + 4 <= SPACE
    ensures Effect(PushReg(r), names, s1).Some?
    ensures Pushed(s, Effect(PushReg(r), names, s1).value, [s1.regs[r]] + values, span)
    ensures Effect(PushReg(r), names, s1).value.regs[EAX] == s1.regs[EAX]
  {
    hide Wrap, Load32, Store32, KeptAbove;
    var s2 := ExecutePush(s1, s1.regs[r]);
    var n, esp, esp1, esp2 := |values|, s.regs[ESP], s1.regs[ESP], s2.regs[ESP];
    WrapAdd(esp - 4 * n, -4);
    assert esp2 == Wrap(esp1 - 4) == Wrap(esp - 4 * (n + 1));
    StoreBelow(s1.mem, esp1, s1.regs[r], span + 4 * n);
    LoadStored(s1.mem, esp2, s1.regs[r]);
    WrapWord(esp2);
    forall i | 0 <= i < n + 1
      ensures Load32(s2.mem, Wrap(esp2 + 4 * i)) == ([s1.regs[r]] + values)[i]
    {
      if i > 0 {
        WrapAdd(esp1 - 4, 4 * i);
        assert esp1 - 4 + 4 * i == esp1 + 4 * (i - 1);
        LoadKept(s1.mem, s2.mem, esp1, span + 4 * n, 4 * (i - 1));
      }
    }
    WrapAdd(esp - 4 * n, 4 * n);
    KeptHigher(s1.mem, s2.mem, esp1, esp, 4 * n, span);
    KeptTwice(s.mem, s1.mem, s2.mem, esp, span);
  }

  lemma KeptTwice(m: map<Word, Byte>, m': map<Word, Byte>, m'': map<Word, Byte>, esp: int, span: nat)
    requires KeptAbove(m, m', esp, span) && KeptAbove(m', m'', esp, span)
    ensures KeptAbove(m, m'', esp, span)
  {
  }

  // ---------- arguments ----------

  /** An argument's value: a string variable is its address. */
  function ArgValue(e: Expr, env: Env, strings: seq<string>, names: map<string, Word>): Word {
    SumFrom(match e.first
            case Number(text) => Wrap(ParseImm(text))
            case Variable(name) => if name in strings && name in names then names[name] else Lookup(env, name),
            e.adds)
  }

  /** The string variables of an argument have addresses, and nothing else is taken for one. */
  predicate Named(e: Expr, strings: seq<string>, names: map<string, Word>) {
    match e.first
    case Number(text) => text !in names
    case Variable(name) => name in strings ==> name in names
  }

  /** The frame's slots end `depth` bytes above the stack pointer, inside `span` bytes, and hold the variables. */
  ghost predicate SlotsHold(syms: seq<string>, env: Env, s: State, depth: nat, span: nat) {
    && depth + 4 * |syms| <= span && (syms == [] || s.regs[ESP] == Wrap(s.regs[EBP] - 4 * |syms| - depth))
    && forall x :: x in syms ==> SlotValue(s, s.regs[EBP], FirstIndex(syms, x)) == Lookup(env, x)
  }

  lemma SlotAbove(syms: seq<string>, s: State, i: nat, depth: nat)
    requires i < |syms| && s.regs[ESP] == Wrap(s.regs[EBP] - 4 * |syms| - depth)
    ensures SlotAddress(s.regs[EBP], i) == Wrap(s.regs[ESP] + (depth + 4 * (|syms| - 1 - i)))
  {
    hide Wrap;
    WrapAdd(s.regs[EBP] - 4 * |syms| - depth, depth + 4 * (|syms| - 1 - i));
  }

  /** The slots are read from any state that keeps the bytes above the stack pointer. */
  lemma SlotsKept(syms: seq<string>, env: Env, s: State, s': State, depth: nat, span: nat)
    requires SlotsHold(syms, env, s, depth, span)
    requires KeptAbove(s.mem, s'.mem, s.regs[ESP], span) && s'.regs[EBP] == s.regs[EBP]
    ensures forall x :: x in syms ==> SlotValue(s', s'.regs[EBP], FirstIndex(syms, x)) == Lookup(env, x)
  {
    hide KeptAbove, Wrap, Load32;
    forall x | x in syms
      ensures SlotValue(s', s'.regs[EBP], FirstIndex(syms, x)) == Lookup(env, x)
    {
      var i := FirstIndex(syms, x);
      SlotAbove(syms, s, i, depth);
      LoadKept(s.mem, s'.mem, s.regs[ESP], span, depth + 4 * (|syms| - 1 - i));
    }
  }

  /** `s` but for eax and the flags. */
  predicate OnlyEax(s: State, s': State, value: Word) {
    s'.mem == s.mem && s'.regs == SetReg(s.regs, EAX, value)
  }

  lemma {:induction false} AddsEffect(adds: seq<string>, names: map<string, Word>, s: State)
    ensures Effects(AddChain(adds), names, s).Some?
    ensures OnlyEax(s, Effects(AddChain(adds), names, s).value, SumFrom(s.regs[EAX], adds))
    decreases |adds|
  {
    hide Wrap;
    if adds != [] {
      var next := Effect(AddText(EAX, adds[0]), names, s).value;
      ParsedIsInt32(adds[0]);
      WrappedSum(s.regs[EAX], ParseImm(adds[0]));
      assert AddChain(adds)[1..] == AddChain(adds[1..]);
      AddsEffect(adds[1..], names, next);
    }
  }

  lemma LoadEffect(e: Expr, syms: seq<string>, strings: seq<string>, final: seq<string>, env: Env,
                   names: map<string, Word>, s: State)
    requires Named(e, strings, names) && CompilePrimary(e.first, syms, strings).1 <= final
    requires forall x :: x in final ==> SlotValue(s, s.regs[EBP], FirstIndex(final, x)) == Lookup(env, x)
    ensures var after := Effect(LoadEax(CompilePrimary(e.first, syms, strings).0), names, s);
            after.Some? && OnlyEax(s, after.value, ArgValue(e.(adds := []), env, strings, names))
  {
    hide Wrap, ParseImm, Load32, FirstIndex;
    match e.first {
      case Number(text) =>
        assert Effect(MovText(EAX, text), names, s) == Some(Write(s, InReg(EAX), Wrap(ParseImm(text))));
      case Variable(name) =>
        if name in strings {
          assert Effect(MovText(EAX, name), names, s) == Some(Write(s, InReg(EAX), names[name]));
        } else {
          OffsetStable(syms, final, name);
          assert SlotValue(s, s.regs[EBP], FirstIndex(final, name)) == Lookup(env, name);
        }
    }
  }

  /** An argument's code and the load behind it leave its value in eax, and change nothing else but the flags. */
  lemma ArgEffect(e: Expr, syms: seq<string>, strings: seq<string>, final: seq<string>, env: Env,
                  names: map<string, Word>, s: State)
    requires Named(e, strings, names) && CompileExpr(e, syms, strings).syms <= final
    requires forall x :: x in final ==> SlotValue(s, s.regs[EBP], FirstIndex(final, x)) == Lookup(env, x)
    ensures var ec := CompileExpr(e, syms, strings); var after := Effects(ec.code + [LoadEax(ec.loc)], names, s);
            after.Some? && OnlyEax(s, after.value, ArgValue(e, env, strings, names))
  {
    hide Wrap, SlotValue, Named;
    LoadEffect(e, syms, strings, final, env, names, s);
    var load := LoadEax(CompilePrimary(e.first, syms, strings).0);
    EffectsOne(load, names, s);
    if e.adds == [] {
      assert [] + [load] == [load];
    } else {
      var loaded := Effect(load, names, s).value;
      AddsEffect(e.adds, names, loaded);
      EffectsAppend([load], AddChain(e.adds), names, s);
      EffectsAppend([load] + AddChain(e.adds), [LoadEax(InEax)], names, s);
      EffectsOne(LoadEax(InEax), names, Effects([load] + AddChain(e.adds), names, s).value);
    }
  }

  function ArgValues(args: seq<Expr>, env: Env, strings: seq<string>, names: map<string, Word>): (v: seq<Word>)
    ensures |v| == |args|
  {
    seq(|args|, i requires 0 <= i < |args| => ArgValue(args[i], env, strings, names))
  }

  lemma PushedOnlyEax(s: State, s1: State, s2: State, values: seq<Word>, span: nat, value: Word)
    requires Pushed(s, s1, values, span) && OnlyEax(s1, s2, value)
    ensures Pushed(s, s2, values, span)
  {
  }

  /** The arguments' code pushes their values, the first on top. */
  lemma {:induction false} ArgsPushed(args: seq<Expr>, syms: seq<string>, strings: seq<string>, final: seq<string>,
                                      env: Env, names: map<string, Word>, s: State, depth: nat, span: nat)
    requires forall e :: e in args ==> Named(e, strings, names)
    requires CompileArgs(args, syms, strings).1 <= final && SlotsHold(final, env, s, depth, span)
    requires span + 4 * |args| <= SPACE
    ensures var after := Effects(PushArgs(CompileArgs(args, syms, strings).0), names, s);
            after.Some? && Pushed(s, after.value, ArgValues(args, env, strings, names), span)
    decreases |args|
  {
    hide Wrap, SlotsHold, Pushed, Named, CompileExpr, OnlyEax, Effect, SlotValue;
    if args == [] {
      NothingPushed(s, s, span);
    } else {
      var ec := CompileExpr(args[0], syms, strings);
      var rest := CompileArgs(args[1..], ec.syms, strings);
      ArgsPushed(args[1..], ec.syms, strings, final, env, names, s, depth, span);
      var s1 := Effects(PushArgs(rest.0), names, s).value;
      ArgsSymsGrow(args[1..], ec.syms, strings);
      PushedKeeps(final, env, s, s1, ArgValues(args[1..], env, strings, names), depth, span);
      ArgEffect(args[0], syms, strings, final, env, names, s1);
      var load := ec.code + [LoadEax(ec.loc)];
      var s2 := Effects(load, names, s1).value;
      var value := ArgValue(args[0], env, strings, names);
      PushedOnlyEax(s, s1, s2, ArgValues(args[1..], env, strings, names), span, value);
      PushOne(s, s2, ArgValues(args[1..], env, strings, names), EAX, names, span);
      EffectsAppend(PushArgs(rest.0), load, names, s);
      EffectsAppend(PushArgs(rest.0) + load, [PushReg(EAX)], names, s);
      EffectsOne(PushReg(EAX), names, s2);
      assert PushArgs(CompileArgs(args, syms, strings).0) == PushArgs(rest.0) + load + [PushReg(EAX)];
      EaxLoaded(s1, s2, value);
      assert ArgValues(args, env, strings, names) == [value] + ArgValues(args[1..], env, strings, names);
    }
  }

  lemma EaxLoaded(s: State, s': State, value: Word)
    requires OnlyEax(s, s', value)
    ensures s'.regs[EAX] == value
  {
  }

  lemma PushedKeeps(syms: seq<string>, env: Env, s: State, s': State, values: seq<Word>, depth: nat, span: nat)
    requires SlotsHold(syms, env, s, depth, span) && Pushed(s, s', values, span)
    ensures forall x :: x in syms ==> SlotValue(s', s'.regs[EBP], FirstIndex(syms, x)) == Lookup(env, x)
  {
    SlotsKept(syms, env, s, s', depth, span);
  }

  // ---------- around the call ----------

  const SAVES: seq<Asm> := [PushReg(EAX), PushReg(ECX), PushReg(EDX)]
  const RESTORES: seq<Asm> := [PopReg(EDX), PopReg(ECX), PopReg(EAX)]

  /** The saved registers, the last one on top. */
  function SavedWords(s: State): seq<Word> { [s.regs[EDX], s.regs[ECX], s.regs[EAX]] }

  lemma RegistersSaved(names: map<string, Word>, s: State, span: nat)
    requires span + 12 <= SPACE
    ensures Effects(SAVES, names, s).Some? && Pushed(s, Effects(SAVES, names, s).value, SavedWords(s), span)
  {
    hide Pushed;
    NothingPushed(s, s, span);
    PushOne(s, s, [], EAX, names, span);
    assert [s.regs[EAX]] + [] == [s.regs[EAX]];
    assert [s.regs[ECX]] + [s.regs[EAX]] == [s.regs[ECX], s.regs[EAX]];
    assert [s.regs[EDX]] + [s.regs[ECX], s.regs[EAX]] == SavedWords(s);
    var s1 := Effect(PushReg(EAX), names, s).value;
    PushedRegister(s, s1, [s.regs[EAX]], span);
    PushOne(s, s1, [s.regs[EAX]], ECX, names, span);
    var s2 := Effect(PushReg(ECX), names, s1).value;
    PushedRegister(s, s2, [s.regs[ECX], s.regs[EAX]], span);
    PushOne(s, s2, [s.regs[ECX], s.regs[EAX]], EDX, names, span);
    assert SAVES[1..] == [PushReg(ECX), PushReg(EDX)] && SAVES[1..][1..] == [PushReg(EDX)];
    EffectsOne(PushReg(EDX), names, s2);
  }

  lemma PushedRegister(s: State, s': State, values: seq<Word>, span: nat)
    requires Pushed(s, s', values, span)
    ensures s'.regs[ECX] == s.regs[ECX] && s'.regs[EDX] == s.regs[EDX]
  {
  }

  /**
    * The callee came back to the instruction behind the call: both pointers, and above its `count` arguments the
    * three saved words and `span` more bytes, are as they were. It may have changed everything else, its arguments
    * included.
    */
  ghost predicate Returned(at: State, back: State, count: nat, span: nat) {
    && back.regs[ESP] == at.regs[ESP] && back.regs[EBP] == at.regs[EBP]
    && KeptAbove(at.mem, back.mem, at.regs[ESP] + 4 * count, span + 12)
  }

  lemma DecimalRead(n: nat)
    ensures Wrap(ParseImm(Decimal(n))) == Wrap(n)
  {
    ParseNonNegative(n, "");
    assert Numeral(n, 10) + "" == Numeral(n, 10);
    Int32Idempotent(n);
  }

  lemma ArgumentsDropped(names: map<string, Word>, s: State, count: nat)
    ensures var a := AddText(ESP, Decimal(count * 4));
            && Effect(a, names, s).Some?
            && Effect(a, names, s).value.mem == s.mem
            && Effect(a, names, s).value.regs == SetReg(s.regs, ESP, Wrap(s.regs[ESP] + 4 * count))
  {
    hide Wrap;
    var imm := ParseImm(Decimal(count * 4));
    ParsedIsInt32(Decimal(count * 4));
    WrappedSum(s.regs[ESP], imm);
    DecimalRead(count * 4);
    WrapAdd(imm, s.regs[ESP]);
    WrapAdd(count * 4, s.regs[ESP]);
  }

  /** The pops give back three words above the stack pointer. */
  lemma RegistersRestored(names: map<string, Word>, s: State)
    ensures var after := Effects(RESTORES, names, s); var esp: int := s.regs[ESP];
            && after.Some? && after.value.mem == s.mem && after.value.regs[EBP] == s.regs[EBP]
            && after.value.regs[ESP] == Wrap(esp + 12)
            && after.value.regs[EDX] == Load32(s.mem, Wrap(esp))
               && after.value.regs[ECX] == Load32(s.mem, Wrap(esp + 4))
            && after.value.regs[EAX] == Load32(s.mem, Wrap(esp + 8))
  {
    hide Wrap, Load32;
    var esp: int := s.regs[ESP];
    WrapWord(esp);
    WrapAdd(esp + 4, 4);
    WrapAdd(esp + 8, 4);
    var s1 := Effect(PopReg(EDX), names, s).value;
    var s2 := Effect(PopReg(ECX), names, s1).value;
    assert RESTORES[1..] == [PopReg(ECX), PopReg(EAX)] && RESTORES[1..][1..] == [PopReg(EAX)];
    EffectsOne(PopReg(EAX), names, s2);
    WrapWord(Wrap(esp + 4));
    WrapWord(Wrap(esp + 8));
  }

  /** From behind the call on, whatever a callee that returned has changed. */
  lemma CallLeft(names: map<string, Word>, s: State, s1: State, at: State, back: State, values: seq<Word>, span: nat)
    requires span + 12 + 4 * |values| <= SPACE
    requires Pushed(s, s1, SavedWords(s), span) && Pushed(s1, at, values, span + 12)
    requires Returned(at, back, |values|, span)
    ensures var after := Effects([AddText(ESP, Decimal(|values| * 4))] + RESTORES, names, back);
            && after.Some? && KeptAbove(s.mem, after.value.mem, s.regs[ESP], span)
            && after.value.regs[ESP] == s.regs[ESP] && after.value.regs[EBP] == s.regs[EBP]
            && after.value.regs[EAX] == s.regs[EAX] && after.value.regs[ECX] == s.regs[ECX]
            && after.value.regs[EDX] == s.regs[EDX]
  {
    hide Wrap, Load32, KeptAbove, Effects, Effect, RESTORES, Decimal, SavedWords;
    var drop, n, low := AddText(ESP, Decimal(|values| * 4)), |values|, s1.regs[ESP];
    ArgumentsDropped(names, back, n);
    WrapAdd(low - 4 * n, 4 * n);
    WrapWord(low);
    var dropped := Effect(drop, names, back).value;
    assert dropped.regs[ESP] == low;
    EffectsOne(drop, names, back);
    EffectsAppend([drop], RESTORES, names, back);
    RegistersRestored(names, dropped);
    KeptHigher(at.mem, back.mem, at.regs[ESP] + 4 * n, low, 0, span + 12);
    KeptTwice(s1.mem, at.mem, back.mem, low, span + 12);
    SavedStill(s, s1, back.mem, span);
  }

  lemma SavedStill(s: State, s1: State, mem: map<Word, Byte>, span: nat)
    requires Pushed(s, s1, SavedWords(s), span) && KeptAbove(s1.mem, mem, s1.regs[ESP], span + 12)
    ensures var low: int := s1.regs[ESP];
            && Load32(mem, Wrap(low)) == s.regs[EDX] && Load32(mem, Wrap(low + 4)) == s.regs[ECX]
            && Load32(mem, Wrap(low + 8)) == s.regs[EAX] && Wrap(low + 12) == s.regs[ESP]
    ensures KeptAbove(s.mem, mem, s.regs[ESP], span)
  {
    hide Wrap, Load32, KeptAbove;
    var low: int, esp: int := s1.regs[ESP], s.regs[ESP];
    assert forall i :: 0 <= i < 3 ==> Load32(s1.mem, Wrap(low + 4 * i)) == SavedWords(s)[i];
    assert Load32(s1.mem, Wrap(low + 4 * 0)) == SavedWords(s)[0];
    assert Load32(s1.mem, Wrap(low + 4 * 1)) == SavedWords(s)[1];
    assert Load32(s1.mem, Wrap(low + 4 * 2)) == SavedWords(s)[2];
    LoadKept(s1.mem, mem, low, span + 12, 0);
    LoadKept(s1.mem, mem, low, span + 12, 4);
    LoadKept(s1.mem, mem, low, span + 12, 8);
    WrapAdd(esp - 12, 12);
    WrapWord(esp);
    KeptHigher(s1.mem, mem, low, esp, 12, span);
    KeptTwice(s.mem, s1.mem, mem, esp, span);
  }

  /**
    * Running on from `back` gives back what a call must leave alone: the registers, the `span` bytes above the stack
    * pointer, and the variables.
    */
  ghost predicate Restored(part: seq<Asm>, names: map<string, Word>, back: State, syms: seq<string>, env: Env, s: State,
    span: nat)
  {
    && Effects(part, names, back).Some?
    && var after := Effects(part, names, back).value;
    && after.regs[ESP] == s.regs[ESP] && after.regs[EBP] == s.regs[EBP]
    && after.regs[EAX] == s.regs[EAX] && after.regs[ECX] == s.regs[ECX] && after.regs[EDX] == s.regs[EDX]
    && KeptAbove(s.mem, after.mem, s.regs[ESP], span) && SlotsHold(syms, env, after, 0, span)
  }

  /**
    * A call to an outside function, from any state whose frame holds the variables: at the call the arguments'
    * values stand on the stack, the first on top; and if the callee returns, with both pointers and the caller's
    * memory as they were, the code behind the call restores the registers, and no variable has changed.
    */
  lemma ExternalCall(name: string, args: seq<Expr>, t: Tables, final: seq<string>, env: Env, names: map<string, Word>,
                     s: State, span: nat) returns (k: nat, at: State)
    requires forall e :: e in args ==> Named(e, t.strings, names)
    requires CompileStmt(CallExternal(name, args), t).tables.syms <= final && SlotsHold(final, env, s, 0, span)
    requires span + 12 + 4 * |args| <= SPACE
    ensures var code := CompileStmt(CallExternal(name, args), t).code;
            && k < |code| && code[k] == CallTo(name) && Effects(code[..k], names, s) == Some(at)
            && at.regs[ESP] == Wrap(s.regs[ESP] - 12 - 4 * |args|) && at.regs[EBP] == s.regs[EBP]
            && (forall i :: 0 <= i < |args|
                  ==> Load32(at.mem, Wrap(at.regs[ESP] + 4 * i)) == ArgValue(args[i], env, t.strings, names))
            && forall back :: Returned(at, back, |args|, span)
                 ==> Restored(code[k + 1..], names, back, final, env, s, span)
  {
    hide Wrap, SlotsHold, Pushed, Named, Effect, Effects, Load32, KeptAbove, Returned, SAVES, RESTORES, Decimal,
         PushArgs, CallCode;
    var codes := CompileArgs(args, t.syms, t.strings).0;
    ArgCount(args, t.syms, t.strings);
    RegistersSaved(names, s, span);
    var s1 := Effects(SAVES, names, s).value;
    SavedSlots(final, env, s, s1, span);
    ArgsPushed(args, t.syms, t.strings, final, env, names, s1, 12, span + 12);
    var values := ArgValues(args, env, t.strings, names);
    EffectsAppend(SAVES, PushArgs(codes), names, s);
    at := Effects(SAVES + PushArgs(codes), names, s).value;
    k := |SAVES + PushArgs(codes)|;
    var tail := [AddText(ESP, Decimal(|args| * 4))] + RESTORES;
    CallParts(name, codes);
    AtCall(s, s1, at, values, span);
    forall i | 0 <= i < |args|
      ensures Load32(at.mem, Wrap(at.regs[ESP] + 4 * i)) == ArgValue(args[i], env, t.strings, names)
    {
      assert values[i] == ArgValue(args[i], env, t.strings, names);
    }
    forall back | Returned(at, back, |args|, span)
      ensures Restored(tail, names, back, final, env, s, span)
    {
      CallLeft(names, s, s1, at, back, values, span);
      StillHold(final, env, s, Effects(tail, names, back).value, span);
    }
  }

  /** From behind the call at `pc` the machine comes to `end` with everything restored. */
  ghost predicate ComesBack(code: seq<Asm>, pc: nat, back: State, end: nat, syms: seq<string>, env: Env, s: State,
    span: nat)
    requires pc < end <= |code|
  {
    && Restored(code[pc + 1..end], map[], back, syms, env, s, span)
    && Reaches(code, Config(pc + 1, back), Config(end, Effects(code[pc + 1..end], map[], back).value))
  }

  /** The same on the instruction machine, wherever a call without string arguments stands. */
  lemma CallReaches(code: seq<Asm>, c: Config, name: string, args: seq<Expr>, t: Tables, final: seq<string>, env: Env,
                    span: nat) returns (at: Config)
    requires SegmentAt(code, c.pc, CompileStmt(CallExternal(name, args), t).code)
    requires forall e :: e in args ==> IntExpr(e, t.strings)
    requires CompileStmt(CallExternal(name, args), t).tables.syms <= final && SlotsHold(final, env, c.s, 0, span)
    requires span + 12 + 4 * |args| <= SPACE
    ensures Reaches(code, c, at) && c.pc <= at.pc < c.pc + |CompileStmt(CallExternal(name, args), t).code| <= |code|
    ensures code[at.pc] == CallTo(name)
    ensures forall i :: 0 <= i < |args|
              ==> Load32(at.s.mem, Wrap(at.s.regs[ESP] + 4 * i)) == ArgValue(args[i], env, t.strings, map[])
    ensures forall back :: Returned(at.s, back, |args|, span)
              ==> ComesBack(code, at.pc, back, c.pc + |CompileStmt(CallExternal(name, args), t).code|, final, env, c.s,
                    span)
  {
    hide Wrap, SlotsHold, Load32, Returned, Effects, Effect, CompileStmt, Reaches, ArgValue;
    var part, end := CompileStmt(CallExternal(name, args), t).code,
      c.pc + |CompileStmt(CallExternal(name, args), t).code|;
    var k, s := ExternalCall(name, args, t, final, env, map[], c.s, span);
    at := Config(c.pc + k, s);
    assert part == part[..k] + ([CallTo(name)] + part[k + 1..]);
    SegmentSplit(code, c.pc, part[..k], [CallTo(name)] + part[k + 1..]);
    SegmentSplit(code, c.pc + k, [CallTo(name)], part[k + 1..]);
    SegmentIndex(code, c.pc + k, [CallTo(name)], 0);
    assert code[at.pc + 1..end] == part[k + 1..];
    EffectsReach(code, c.pc, part[..k], c.s);
    forall back | Returned(s, back, |args|, span)
      ensures ComesBack(code, at.pc, back, end, final, env, c.s, span)
    {
      assert Restored(part[k + 1..], map[], back, final, env, c.s, span);
      EffectsReach(code, at.pc + 1, part[k + 1..], back);
    }
  }

  lemma {:induction false} ArgCount(args: seq<Expr>, syms: seq<string>, strings: seq<string>)
    ensures |CompileArgs(args, syms, strings).0| == |args|
    decreases |args|
  {
    if args != [] { ArgCount(args[1..], CompileExpr(args[0], syms, strings).syms, strings); }
  }

  lemma CallParts(name: string, codes: seq<ExprCode>)
    ensures var code, head := CallCode(name, codes), SAVES + PushArgs(codes);
            && |head| < |code| && code[|head|] == CallTo(name) && code[..|head|] == head
            && code[|head| + 1..] == [AddText(ESP, Decimal(|codes| * 4))] + RESTORES
  {
    hide PushArgs;
    var head, tail := SAVES + PushArgs(codes), [AddText(ESP, Decimal(|codes| * 4))] + RESTORES;
    assert CallCode(name, codes) == head + ([CallTo(name)] + tail);
  }

  lemma SavedSlots(syms: seq<string>, env: Env, s: State, s1: State, span: nat)
    requires SlotsHold(syms, env, s, 0, span) && Pushed(s, s1, SavedWords(s), span)
    ensures SlotsHold(syms, env, s1, 12, span + 12)
  {
    hide Wrap, SlotValue;
    PushedKeeps(syms, env, s, s1, SavedWords(s), 0, span);
    if syms != [] { WrapAdd(s.regs[EBP] - 4 * |syms|, -12); }
  }

  lemma AtCall(s: State, s1: State, at: State, values: seq<Word>, span: nat)
    requires Pushed(s, s1, SavedWords(s), span) && Pushed(s1, at, values, span + 12)
    ensures at.regs[ESP] == Wrap(s.regs[ESP] - 12 - 4 * |values|) && at.regs[EBP] == s.regs[EBP]
    ensures forall i :: 0 <= i < |values| ==> Load32(at.mem, Wrap(at.regs[ESP] + 4 * i)) == values[i]
  {
    hide Wrap, Load32, KeptAbove;
    var esp: int := s.regs[ESP];
    WrapAdd(esp - 12, -4 * |values|);
  }

  lemma StillHold(syms: seq<string>, env: Env, s: State, after: State, span: nat)
    requires SlotsHold(syms, env, s, 0, span) && KeptAbove(s.mem, after.mem, s.regs[ESP], span)
    requires after.regs[ESP] == s.regs[ESP] && after.regs[EBP] == s.regs[EBP]
    ensures SlotsHold(syms, env, after, 0, span)
  {
    hide KeptAbove, Wrap, SlotValue;
    SlotsKept(syms, env, s, after, 0, span);
  }
}
