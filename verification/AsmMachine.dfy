/** A machine that runs the emitted instructions, with branches to named labels. */
module AsmMachine {
  import opened Words
  import opened LibcText
  import opened X86
  import opened CodeGenerator

  datatype Config = Config(pc: nat, s: State)

  function Slot32(off: int): RM {
    InMem(EBP, off)
  }

  /** The machine instruction behind an emitted data instruction whose text operand is a numeral. */
  function Lower(a: Asm): Instr
    requires !a.LabelDef? && !a.JmpTo? && !a.JgeTo? && !a.JeTo? && !a.CallTo?
  {
    match a
    case MovText(r, text) => MovImm(r, Wrap(ParseImm(text)))
    case MovLoad(r, off) => BinaryLoad(Mov, r, Slot32(off))
    case MovStore(off, r) => Binary(Mov, Slot32(off), r)
    case MovReg(dst, src) => Binary(Mov, InReg(dst), src)
    case AddText(r, text) => BinaryImm(Add, InReg(r), ParseImm(text))
    case SubText(r, text) => BinaryImm(Sub, InReg(r), ParseImm(text))
    case CmpText(off, text) => BinaryImm(Cmp, Slot32(off), ParseImm(text))
    case CmpLoad(r, off) => BinaryLoad(Cmp, r, Slot32(off))
    case PushReg(r) => Push(r)
    case PopReg(r) => Pop(r)
    case Return => Ret
  }

  /** The first definition of a label, or the end of the code. */
  function DefinitionFrom(code: seq<Asm>, name: string, i: nat): (j: nat)
    requires i <= |code|
    ensures i <= j <= |code|
    ensures j < |code| ==> code[j] == LabelDef(name)
    ensures forall k :: i <= k < j ==> code[k] != LabelDef(name)
    decreases |code| - i
  {
    if i == |code| || code[i] == LabelDef(name) then i else DefinitionFrom(code, name, i + 1)
  }

  function Definition(code: seq<Asm>, name: string): nat {
    DefinitionFrom(code, name, 0)
  }

  function Goto(code: seq<Asm>, name: string, c: Config): Config {
    if Definition(code, name) < |code| then c.(pc := Definition(code, name)) else c
  }

  /** One step; calls, `ret`, unknown labels and the end of the code stop the machine. */
  function Step(code: seq<Asm>, c: Config): Config {
    if c.pc >= |code| then c
    else
      match code[c.pc]
      case LabelDef(_) => c.(pc := c.pc + 1)
      case JmpTo(target) => Goto(code, target, c)
      case JgeTo(target) => if Holds(GreaterEqual, c.s.flags) then Goto(code, target, c) else c.(pc := c.pc + 1)
      case JeTo(target) => if Holds(Equal, c.s.flags) then Goto(code, target, c) else c.(pc := c.pc + 1)
      case CallTo(_) => c
      case data =>
        var after := Execute(Lower(data), c.s);
        if after.Some? then Config(c.pc + 1, after.value) else c
  }

  function Run(code: seq<Asm>, n: nat, c: Config): Config
    decreases n
  {
    if n == 0 then c else Run(code, n - 1, Step(code, c))
  }

  ghost predicate Reaches(code: seq<Asm>, c: Config, d: Config) {
    exists n: nat :: Run(code, n, c) == d
  }

  lemma {:induction false} RunSplit(code: seq<Asm>, m: nat, n: nat, c: Config)
    ensures Run(code, m + n, c) == Run(code, n, Run(code, m, c))
    decreases m
  {
    if m > 0 { RunSplit(code, m - 1, n, Step(code, c)); }
  }

  lemma ReachesSelf(code: seq<Asm>, c: Config)
    ensures Reaches(code, c, c)
  {
    assert Run(code, 0, c) == c;
  }

  lemma ReachesStep(code: seq<Asm>, c: Config)
    ensures Reaches(code, c, Step(code, c))
  {
    assert Run(code, 1, c) == Run(code, 0, Step(code, c));
  }

  lemma ReachesTrans(code: seq<Asm>, c: Config, d: Config, e: Config)
    requires Reaches(code, c, d) && Reaches(code, d, e)
    ensures Reaches(code, c, e)
  {
    var m: nat :| Run(code, m, c) == d;
    var n: nat :| Run(code, n, d) == e;
    RunSplit(code, m, n, c);
  }

  lemma ReachesThenStep(code: seq<Asm>, c: Config, d: Config)
    requires Reaches(code, c, d)
    ensures Reaches(code, c, Step(code, d))
  {
    ReachesStep(code, d);
    ReachesTrans(code, c, d, Step(code, d));
  }

  // ---------- segments and labels ----------

  /** `part` stands in `code` from position `k`. */
  predicate SegmentAt(code: seq<Asm>, k: nat, part: seq<Asm>) {
    k + |part| <= |code| && code[k..k + |part|] == part
  }

  lemma SegmentIndex(code: seq<Asm>, k: nat, part: seq<Asm>, i: nat)
    requires SegmentAt(code, k, part) && i < |part|
    ensures code[k + i] == part[i]
  {
    assert code[k..k + |part|][i] == code[k + i];
  }

  lemma SegmentSplit(code: seq<Asm>, k: nat, a: seq<Asm>, b: seq<Asm>)
    requires SegmentAt(code, k, a + b)
    ensures SegmentAt(code, k, a) && SegmentAt(code, k + |a|, b)
  {
    assert code[k..k + |a|] == code[k..k + |a + b|][..|a|] == a;
    assert code[k + |a|..k + |a| + |b|] == code[k..k + |a + b|][|a|..] == b;
  }

  /** No label is defined twice. */
  ghost predicate UniqueLabels(code: seq<Asm>) {
    forall i, j :: 0 <= i < j < |code| && code[i].LabelDef? && code[j].LabelDef? ==> code[i].name != code[j].name
  }

  lemma UniqueDefinition(code: seq<Asm>, i: nat)
    requires UniqueLabels(code)
    requires i < |code| && code[i].LabelDef?
    ensures Definition(code, code[i].name) == i
  {
    assert code[i] == LabelDef(code[i].name);
  }
}
