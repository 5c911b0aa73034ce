/** The 32-bit x86 instructions the toolchain uses, and a machine that runs the data-moving ones. */
module X86 {
  import opened Words

  type Reg = r: int | 0 <= r < 8

  const EAX: Reg := 0
  const ECX: Reg := 1
  const EDX: Reg := 2
  const ESP: Reg := 4
  const EBP: Reg := 5

  datatype Option<T> = None | Some(value: T)

  datatype Op = Mov | Add | Sub | Cmp

  datatype Cond = Equal | NotEqual | LessEqual | GreaterEqual

  /** A register-or-memory operand. */
  datatype RM = InReg(r: Reg) | InMem(base: Reg, disp: int) | AtAddress(disp: int)

  /** Displacements of branches are relative to the end of the instruction. */
  datatype Instr =
    | Binary(op: Op, dst: RM, src: Reg)
    | BinaryLoad(op: Op, dstReg: Reg, from: RM)
    | BinaryImm(op: Op, dst: RM, imm: int)
    | MovImm(r: Reg, value: Word)
    | Push(r: Reg)
    | Pop(r: Reg)
    | Pusha
    | Popa
    | Ret
    | Interrupt(n: Byte)
    | Jmp(rel: int)
    | Jcc(cond: Cond, rel: int)
    | Call(rel: int)
    | CallReg(r: Reg)
    | Unknown(opcode: Byte)

  // ---------- machine state ----------

  datatype Flags = Flags(zero: bool, sign: bool, overflow: bool)

  type Registers = s: seq<Word> | |s| == 8 witness [0, 0, 0, 0, 0, 0, 0, 0]

  datatype State = State(regs: Registers, mem: map<Word, Byte>, flags: Flags)

  function LoadByte(mem: map<Word, Byte>, a: Word): Byte {
    if a in mem then mem[a] else 0
  }

  function Load32(mem: map<Word, Byte>, a: Word): Word {
    FromLe32(LoadByte(mem, a), LoadByte(mem, Wrap(a + 1)), LoadByte(mem, Wrap(a + 2)), LoadByte(mem, Wrap(a + 3)))
  }

  function Put4(mem: map<Word, Byte>, a0: Word, a1: Word, a2: Word, a3: Word, b: seq<Byte>): map<Word, Byte>
    requires |b| == 4
  {
    mem[a0 := b[0]][a1 := b[1]][a2 := b[2]][a3 := b[3]]
  }

  function Store32(mem: map<Word, Byte>, a: Word, w: Word): map<Word, Byte> {
    Put4(mem, a, Wrap(a + 1), Wrap(a + 2), Wrap(a + 3), Le32(w))
  }

  /** Two 32-bit cells that share no byte. */
  predicate Apart(a: Word, b: Word) {
    Wrap(a - b) >= 4 && Wrap(b - a) >= 4
  }

  lemma Put4Same(mem: map<Word, Byte>, a0: Word, a1: Word, a2: Word, a3: Word, s: seq<Byte>)
    requires |s| == 4
    requires a0 != a1 && a0 != a2 && a0 != a3 && a1 != a2 && a1 != a3 && a2 != a3
    ensures var m := Put4(mem, a0, a1, a2, a3, s);
            && LoadByte(m, a0) == s[0] && LoadByte(m, a1) == s[1]
            && LoadByte(m, a2) == s[2] && LoadByte(m, a3) == s[3]
  {
  }

  lemma OffsetsDistinct(a: Word)
    ensures a != Wrap(a + 1) && a != Wrap(a + 2) && a != Wrap(a + 3)
    ensures Wrap(a + 1) != Wrap(a + 2) && Wrap(a + 1) != Wrap(a + 3) && Wrap(a + 2) != Wrap(a + 3)
  {
  }

  lemma LoadPut4(mem: map<Word, Byte>, a: Word, s: seq<Byte>)
    requires |s| == 4
    ensures Load32(Put4(mem, a, Wrap(a + 1), Wrap(a + 2), Wrap(a + 3), s), a) == FromLe32(s[0], s[1], s[2], s[3])
  {
    OffsetsDistinct(a);
    Put4Same(mem, a, Wrap(a + 1), Wrap(a + 2), Wrap(a + 3), s);
  }

  lemma LoadStored(mem: map<Word, Byte>, a: Word, w: Word)
    ensures Load32(Store32(mem, a, w), a) == w
  {
    var s := Le32(w);
    LoadPut4(mem, a, s);
    WrapWord(w);
    Le32Value(w);
    assert FromLe32(s[0], s[1], s[2], s[3]) == w;
  }

  lemma OffsetApart(a: Word, b: Word, i: int, j: int)
    requires Apart(a, b)
    requires 0 <= i < 4 && 0 <= j < 4
    ensures Wrap(a + i) != Wrap(b + j)
  {
    var d := a - b;
    assert Wrap(d) == if d >= 0 then d else d + 0x1_0000_0000;
    assert Wrap(-d) == if d <= 0 then -d else 0x1_0000_0000 - d;
  }

  lemma Put4Other(mem: map<Word, Byte>, a0: Word, a1: Word, a2: Word, a3: Word, s: seq<Byte>, x: Word)
    requires |s| == 4
    requires x != a0 && x != a1 && x != a2 && x != a3
    ensures LoadByte(Put4(mem, a0, a1, a2, a3, s), x) == LoadByte(mem, x)
  {
  }

  lemma ByteApart(mem: map<Word, Byte>, a: Word, w: Word, b: Word, x: Word, j: int)
    requires Apart(a, b)
    requires 0 <= j < 4 && x == Wrap(b + j)
    ensures LoadByte(Store32(mem, a, w), x) == LoadByte(mem, x)
  {
    OffsetApart(a, b, 0, j);
    OffsetApart(a, b, 1, j);
    OffsetApart(a, b, 2, j);
    OffsetApart(a, b, 3, j);
    Put4Other(mem, a, Wrap(a + 1), Wrap(a + 2), Wrap(a + 3), Le32(w), x);
  }

  lemma LoadSame(m: map<Word, Byte>, m': map<Word, Byte>, b: Word)
    requires LoadByte(m, b) == LoadByte(m', b)
    requires LoadByte(m, Wrap(b + 1)) == LoadByte(m', Wrap(b + 1))
    requires LoadByte(m, Wrap(b + 2)) == LoadByte(m', Wrap(b + 2))
    requires LoadByte(m, Wrap(b + 3)) == LoadByte(m', Wrap(b + 3))
    ensures Load32(m, b) == Load32(m', b)
  {
  }

  lemma LoadApart(mem: map<Word, Byte>, a: Word, w: Word, b: Word)
    requires Apart(a, b)
    ensures Load32(Store32(mem, a, w), b) == Load32(mem, b)
  {
    ByteApart(mem, a, w, b, b, 0);
    ByteApart(mem, a, w, b, Wrap(b + 1), 1);
    ByteApart(mem, a, w, b, Wrap(b + 2), 2);
    ByteApart(mem, a, w, b, Wrap(b + 3), 3);
    LoadSame(Store32(mem, a, w), mem, b);
  }

  // ---------- executing one instruction ----------

  function Address(s: State, base: Reg, disp: int): Word {
    Wrap(s.regs[base] + disp)
  }

  function Read(s: State, rm: RM): Word {
    match rm
    case InReg(r) => s.regs[r]
    case InMem(base, disp) => Load32(s.mem, Address(s, base, disp))
    case AtAddress(disp) => Load32(s.mem, Wrap(disp))
  }

  function Write(s: State, rm: RM, w: Word): State {
    match rm
    case InReg(r) => s.(regs := SetReg(s.regs, r, w))
    case InMem(base, disp) => s.(mem := Store32(s.mem, Address(s, base, disp), w))
    case AtAddress(disp) => s.(mem := Store32(s.mem, Wrap(disp), w))
  }

  function FlagsOf(exact: int): Flags {
    Flags(Wrap(exact) == 0, Signed(Wrap(exact)) < 0, !IsInt32(exact))
  }

  /** The state after `dst := dst op value`, with the flags the operation sets. */
  function Operate(s: State, op: Op, dst: RM, value: Word): State {
    var old_ := Read(s, dst);
    match op
    case Mov => Write(s, dst, value)
    case Add =>
      var exact := Signed(old_) + Signed(value);
      Write(s, dst, Wrap(exact)).(flags := FlagsOf(exact))
    case Sub =>
      var exact := Signed(old_) - Signed(value);
      Write(s, dst, Wrap(exact)).(flags := FlagsOf(exact))
    case Cmp =>
      s.(flags := FlagsOf(Signed(old_) - Signed(value)))
  }

  function SetReg(regs: Registers, r: Reg, w: Word): Registers {
    regs[r := w]
  }

  function ExecutePush(s: State, w: Word): State {
    var esp: int := s.regs[ESP];
    var top := Wrap(esp - 4);
    State(SetReg(s.regs, ESP, top), Store32(s.mem, top, w), s.flags)
  }

  function ExecutePop(s: State, r: Reg): State {
    var esp: int := s.regs[ESP];
    State(SetReg(SetReg(s.regs, ESP, Wrap(esp + 4)), r, Load32(s.mem, esp)), s.mem, s.flags)
  }

  /** Data instructions; None for control transfers and for instructions given no meaning here. */
  function Execute(i: Instr, s: State): Option<State> {
    match i
    case Binary(op, dst, src) => Some(Operate(s, op, dst, s.regs[src]))
    case BinaryLoad(op, dst, from) => Some(Operate(s, op, InReg(dst), Read(s, from)))
    case BinaryImm(op, dst, imm) => Some(Operate(s, op, dst, Wrap(imm)))
    case MovImm(r, value) => Some(Write(s, InReg(r), value))
    case Push(r) => Some(ExecutePush(s, s.regs[r]))
    case Pop(r) => Some(ExecutePop(s, r))
    case _ => None
  }

  predicate Holds(cond: Cond, flags: Flags) {
    match cond
    case Equal => flags.zero
    case NotEqual => !flags.zero
    case LessEqual => flags.zero || flags.sign != flags.overflow
    case GreaterEqual => flags.sign == flags.overflow
  }

  /** After a comparison the conditions mean what their names say about signed values. */
  lemma ComparisonMeaning(a: Word, b: Word)
    ensures var f := FlagsOf(Signed(a) - Signed(b));
            && (Holds(Equal, f) <==> a == b)
            && (Holds(NotEqual, f) <==> a != b)
            && (Holds(LessEqual, f) <==> Signed(a) <= Signed(b))
            && (Holds(GreaterEqual, f) <==> Signed(a) >= Signed(b))
  {
    var exact := Signed(a) - Signed(b);
    assert -0x1_0000_0000 < exact < 0x1_0000_0000;
    assert Wrap(exact) == if exact < 0 then exact + 0x1_0000_0000 else exact;
  }
}
