/** The assembler's encoder and the disassembler's decoder undo each other. */
module EncodeDecode {
  import opened Words
  import opened LibcText
  import opened X86
  import opened Encoding
  import opened Disassembler

  predicate BytesAt(mem: seq<Byte>, p: nat, s: seq<Byte>) {
    p + |s| <= |mem| && mem[p..p + |s|] == s
  }

  lemma AtBytes(mem: seq<Byte>, p: nat, s: seq<Byte>, i: nat)
    requires BytesAt(mem, p, s) && i < |s|
    ensures At(mem, p + i) == s[i]
  {
    assert mem[p..p + |s|][i] == mem[p + i];
  }

  lemma DwordBytes(mem: seq<Byte>, p: nat, s: seq<Byte>, i: nat, x: int)
    requires BytesAt(mem, p, s) && i + 4 <= |s|
    requires s[i..i + 4] == Le32(x)
    ensures Dword(mem, p + i) == Wrap(x)
  {
    assert s[i..i + 4][0] == s[i] && s[i..i + 4][1] == s[i + 1] && s[i..i + 4][2] == s[i + 2]
           && s[i..i + 4][3] == s[i + 3];
    AtBytes(mem, p, s, i);
    AtBytes(mem, p, s, i + 1);
    AtBytes(mem, p, s, i + 2);
    AtBytes(mem, p, s, i + 3);
    Le32Value(x);
  }

  lemma BytesAtTail(mem: seq<Byte>, p: nat, s: seq<Byte>, t: seq<Byte>)
    requires BytesAt(mem, p, s + t)
    ensures BytesAt(mem, p, s)
    ensures BytesAt(mem, p + |s|, t)
  {
    assert mem[p..p + |s|] == mem[p..p + |s + t|][..|s|] == s;
    assert mem[p + |s|..p + |s| + |t|] == mem[p..p + |s + t|][|s|..] == t;
  }

  // ---------- operands ----------

  lemma ModRmFields(mod: int, reg: Reg, base: Reg)
    requires 0 <= mod < 4
    ensures var b := ModRm(mod, reg, base); b / 64 == mod && b / 8 % 8 == reg && b % 8 == base
  {
    var b := ModRm(mod, reg, base);
    assert b == 8 * (mod * 8 + reg) + base;
    assert b / 8 == mod * 8 + reg;
  }

  lemma DecodeMemOperand(mem: seq<Byte>, p: nat, reg: Reg, base: Reg, offset: int)
    requires base == EAX || base == EBP
    requires IsInt32(offset)
    requires BytesAt(mem, p, MemOperandBytes(reg, base, offset))
    ensures DecodeModRm(mem, p) == Operand(reg, InMem(base, offset), 1 + DispBytes(offset, base))
  {
    var s := MemOperandBytes(reg, base, offset);
    var n := DispBytes(offset, base);
    AtBytes(mem, p, s, 0);
    ModRmFields(if n == 0 then 0 else if n == 1 then 1 else 2, reg, base);
    if n == 1 {
      AtBytes(mem, p, s, 1);
      SignExtendRoundTrip(offset);
    } else if n == 4 {
      DwordBytes(mem, p, s, 1, offset);
      Int32Idempotent(offset);
    }
  }

  lemma DecodeRegOperand(mem: seq<Byte>, p: nat, field: Reg, r: Reg)
    requires BytesAt(mem, p, [ModRm(3, field, r)])
    ensures DecodeModRm(mem, p) == Operand(field, InReg(r), 1)
  {
    AtBytes(mem, p, [ModRm(3, field, r)], 0);
    ModRmFields(3, field, r);
  }

  /** Memory operands whose base register both the assembler and the architecture understand. */
  predicate KnownMem(s: string) {
    IsMem(s) && MemBase(s) != -1
  }

  predicate PlainOperand(s: string) {
    s != [] && !IsReg(s) && !IsMem(s)
  }

  function OperandOf(s: string): RM
    requires IsReg(s) || KnownMem(s)
  {
    if IsReg(s) then InReg(RegOf(s)) else InMem(MemBase(s), MemOffset(s))
  }

  function OperandBytes(field: Reg, s: string): seq<Byte>
    requires IsReg(s) || KnownMem(s)
  {
    if IsReg(s) then [ModRm(3, field, RegOf(s))] else MemBytes(field, s)
  }

  lemma ParsedInt32(s: string)
    ensures IsInt32(ParseImm(s))
    ensures IsMem(s) ==> IsInt32(MemOffset(s))
  {
  }

  lemma DecodeOperand(mem: seq<Byte>, p: nat, field: Reg, s: string)
    requires IsReg(s) || KnownMem(s)
    requires BytesAt(mem, p, OperandBytes(field, s))
    ensures DecodeModRm(mem, p) == Operand(field, OperandOf(s), |OperandBytes(field, s)|)
  {
    if IsReg(s) {
      DecodeRegOperand(mem, p, field, RegOf(s));
    } else {
      ParsedInt32(s);
      DecodeMemOperand(mem, p, field, MemBase(s), MemOffset(s));
    }
  }

  // ---------- instruction groups ----------

  function OpOfExt(ext: Reg): Op
    requires ext == 0 || ext == 5 || ext == 7
  {
    if ext == 0 then Add else if ext == 5 then Sub else Cmp
  }

  lemma DecodeImmPieces(mem: seq<Byte>, p: nat, ext: Reg, o: Operand, value: int)
    requires ext == 0 || ext == 5 || ext == 7
    requires At(mem, p) == ImmOpcode(value)
    requires DecodeModRm(mem, p + 1) == o && o.field == ext
    requires if ImmBytes(value) == 1 then SignExtend(At(mem, p + 1 + o.len)) == value
             else Signed(Dword(mem, p + 1 + o.len)) == value
    ensures Decode(mem, p) == Decoded(BinaryImm(OpOfExt(ext), o.rm, value), 1 + o.len + ImmBytes(value))
  {
    assert Decode(mem, p) == DecodeImmGroup(mem, p);
  }

  lemma DecodeImmediate(mem: seq<Byte>, q: nat, value: int)
    requires IsInt32(value)
    requires BytesAt(mem, q, ImmediateBytes(value))
    ensures if ImmBytes(value) == 1 then SignExtend(At(mem, q)) == value else Signed(Dword(mem, q)) == value
  {
    var imm := ImmediateBytes(value);
    if ImmBytes(value) == 1 {
      AtBytes(mem, q, imm, 0);
      SignExtendRoundTrip(value);
    } else {
      DwordBytes(mem, q, imm, 0, value);
      Int32Idempotent(value);
    }
  }

  lemma ThreePieces(mem: seq<Byte>, p: nat, first: Byte, s: seq<Byte>, t: seq<Byte>)
    requires BytesAt(mem, p, [first] + s + t)
    ensures At(mem, p) == first
    ensures BytesAt(mem, p + 1, s)
    ensures BytesAt(mem, p + 1 + |s|, t)
  {
    BytesAtTail(mem, p, [first] + s, t);
    BytesAtTail(mem, p, [first], s);
    AtBytes(mem, p, [first], 0);
  }

  function ImmOpcode(value: int): Byte {
    if ImmBytes(value) == 1 then 0x83 else 0x81
  }

  lemma EncodeImmSplit(ext: Reg, a1: string, value: int)
    requires IsReg(a1) || KnownMem(a1)
    ensures EncodeImm(ext, a1, value) == [ImmOpcode(value)] + OperandBytes(ext, a1) + ImmediateBytes(value)
    ensures |ImmediateBytes(value)| == ImmBytes(value)
  {
  }

  lemma DecodeImmForm(mem: seq<Byte>, p: nat, ext: Reg, a1: string, value: int)
    requires ext == 0 || ext == 5 || ext == 7
    requires IsReg(a1) || KnownMem(a1)
    requires IsInt32(value)
    requires BytesAt(mem, p, EncodeImm(ext, a1, value))
    ensures Decode(mem, p) == Decoded(BinaryImm(OpOfExt(ext), OperandOf(a1), value), |EncodeImm(ext, a1, value)|)
  {
    EncodeImmSplit(ext, a1, value);
    DecodeImmSplit(mem, p, ext, a1, value, OperandBytes(ext, a1), ImmediateBytes(value));
  }

  lemma DecodeImmSplit(mem: seq<Byte>, p: nat, ext: Reg, a1: string, value: int, operand: seq<Byte>, imm: seq<Byte>)
    requires ext == 0 || ext == 5 || ext == 7
    requires IsReg(a1) || KnownMem(a1)
    requires IsInt32(value)
    requires operand == OperandBytes(ext, a1) && imm == ImmediateBytes(value) && |imm| == ImmBytes(value)
    requires BytesAt(mem, p, [ImmOpcode(value)] + operand + imm)
    ensures Decode(mem, p) == Decoded(BinaryImm(OpOfExt(ext), OperandOf(a1), value), 1 + |operand| + |imm|)
  {
    ThreePieces(mem, p, ImmOpcode(value), operand, imm);
    DecodeOperand(mem, p + 1, ext, a1);
    DecodeImmediate(mem, p + 1 + |operand|, value);
    DecodeImmPieces(mem, p, ext, Operand(ext, OperandOf(a1), |operand|), value);
  }

  /** The opcodes with a register field that the disassembler knows. */
  predicate RegisterOpcode(opcode: Byte) {
    opcode == 0x01 || opcode == 0x29 || opcode == 0x39 || opcode == 0x89 || opcode == 0x8B
  }

  function RegisterForm(opcode: Byte, rm: RM, field: Reg): Instr
    requires RegisterOpcode(opcode)
  {
    if opcode == 0x8B then BinaryLoad(Mov, field, rm)
    else
      var op := if opcode == 0x01 then Add else if opcode == 0x29 then Sub else if opcode == 0x39 then Cmp else Mov;
      Binary(op, rm, field)
  }

  lemma DecodeRegisterPieces(mem: seq<Byte>, p: nat, opcode: Byte, o: Operand)
    requires RegisterOpcode(opcode)
    requires At(mem, p) == opcode && DecodeModRm(mem, p + 1) == o
    ensures Decode(mem, p) == Decoded(RegisterForm(opcode, o.rm, o.field), 1 + o.len)
  {
    assert Decode(mem, p) == DecodeRegGroup(mem, p);
  }

  lemma DecodeRegisterForm(mem: seq<Byte>, p: nat, opcode: Byte, field: Reg, a: string)
    requires RegisterOpcode(opcode)
    requires IsReg(a) || KnownMem(a)
    requires BytesAt(mem, p, [opcode] + OperandBytes(field, a))
    ensures Decode(mem, p) == Decoded(RegisterForm(opcode, OperandOf(a), field), 1 + |OperandBytes(field, a)|)
  {
    BytesAtTail(mem, p, [opcode], OperandBytes(field, a));
    AtBytes(mem, p, [opcode], 0);
    DecodeOperand(mem, p + 1, field, a);
    DecodeRegisterPieces(mem, p, opcode, Operand(field, OperandOf(a), |OperandBytes(field, a)|));
  }

  // ---------- whole instructions ----------

  predicate BothKnowMov(a1: string, a2: string) {
    || (IsReg(a1) && (IsReg(a2) || KnownMem(a2) || PlainOperand(a2)))
    || (KnownMem(a1) && IsReg(a2))
  }

  predicate BothKnowArithmetic(a1: string, a2: string) {
    || (IsReg(a1) && (IsReg(a2) || PlainOperand(a2)))
    || (KnownMem(a1) && PlainOperand(a2))
  }

  /** The instruction forms that the assembler emits and the disassembler knows. */
  predicate BothKnow(m: Mnemonic, a1: string, a2: string, names: Names) {
    match m
    case DbM => false
    case MovM => BothKnowMov(a1, a2)
    case AddM => BothKnowArithmetic(a1, a2)
    case SubM => BothKnowArithmetic(a1, a2)
    case CmpM => BothKnowArithmetic(a1, a2)
    case JmpM => a1 != [] && Resolved(a1, names)
    case JneM => a1 != [] && Resolved(a1, names)
    case JleM => a1 != [] && Resolved(a1, names)
    case JgeM => a1 != [] && Resolved(a1, names)
    case CallM => a1 != [] && (IsReg(a1) || Resolved(a1, names) || LibraryAddress(names, a1) != 0)
    case IntM => a1 != []
    case PushM => IsReg(a1)
    case PopM => IsReg(a1)
    case PushaM => true
    case PopaM => true
    case RetM => true
    case SectionM => false
    case OtherM => false
  }

  function DenoteMov(a1: string, a2: string, names: Names): Instr
    requires BothKnowMov(a1, a2)
  {
    if IsReg(a2) then Binary(Mov, OperandOf(a1), RegOf(a2))
    else if KnownMem(a2) then BinaryLoad(Mov, RegOf(a1), OperandOf(a2))
    else MovImm(RegOf(a1), Wrap(ImmOrAddress(a2, names)))
  }

  function DenoteArithmetic(op: Op, a1: string, a2: string): Instr
    requires BothKnowArithmetic(a1, a2)
  {
    if IsReg(a2) then Binary(op, OperandOf(a1), RegOf(a2)) else BinaryImm(op, OperandOf(a1), ParseImm(a2))
  }

  function DenoteCall(a1: string, address: nat, names: Names): Instr
    requires BothKnow(CallM, a1, [], names)
  {
    if IsReg(a1) then CallReg(RegOf(a1))
    else if Resolved(a1, names) then Call(Int32(Displacement(a1, address + 5, names)))
    else Call(Int32(LibraryDisplacement(a1, address + 5, names)))
  }

  /** What the text of an instruction means, at code address `address`. */
  function Denote(m: Mnemonic, a1: string, a2: string, address: nat, names: Names): Instr
    requires BothKnow(m, a1, a2, names)
  {
    match m
    case MovM => DenoteMov(a1, a2, names)
    case AddM => DenoteArithmetic(Add, a1, a2)
    case SubM => DenoteArithmetic(Sub, a1, a2)
    case CmpM => DenoteArithmetic(Cmp, a1, a2)
    case JmpM => Jmp(Int32(Displacement(a1, address + 5, names)))
    case JneM => Jcc(NotEqual, Int32(Displacement(a1, address + 6, names)))
    case JleM => Jcc(LessEqual, Int32(Displacement(a1, address + 6, names)))
    case JgeM => Jcc(GreaterEqual, Int32(Displacement(a1, address + 6, names)))
    case CallM => DenoteCall(a1, address, names)
    case IntM => Interrupt(LowByte(ParseImm(a1)))
    case PushM => Push(RegOf(a1))
    case PopM => Pop(RegOf(a1))
    case PushaM => Pusha
    case PopaM => Popa
    case RetM => Ret
  }

  lemma DecodeMov(mem: seq<Byte>, p: nat, a1: string, a2: string, names: Names)
    requires BothKnowMov(a1, a2)
    requires BytesAt(mem, p, EncodeMov(a1, a2, names))
    ensures Decode(mem, p) == Decoded(DenoteMov(a1, a2, names), |EncodeMov(a1, a2, names)|)
  {
    OperandKinds(a1);
    OperandKinds(a2);
    if IsReg(a2) {
      DecodeRegisterForm(mem, p, 0x89, RegOf(a2), a1);
    } else if KnownMem(a2) {
      DecodeRegisterForm(mem, p, 0x8B, RegOf(a1), a2);
    } else {
      var s := EncodeMov(a1, a2, names);
      AtBytes(mem, p, s, 0);
      DwordBytes(mem, p, s, 1, ImmOrAddress(a2, names));
    }
  }

  lemma DecodeArithmetic(mem: seq<Byte>, p: nat, regOpcode: Byte, loadOpcode: Byte, ext: Reg, a1: string, a2: string)
    requires (regOpcode, ext) == (0x01, 0) || (regOpcode, ext) == (0x29, 5) || (regOpcode, ext) == (0x39, 7)
    requires BothKnowArithmetic(a1, a2)
    requires BytesAt(mem, p, EncodeAddSub(regOpcode, loadOpcode, ext, a1, a2))
    ensures Decode(mem, p)
            == Decoded(DenoteArithmetic(OpOfExt(ext), a1, a2), |EncodeAddSub(regOpcode, loadOpcode, ext, a1, a2)|)
  {
    OperandKinds(a1);
    OperandKinds(a2);
    if IsReg(a2) {
      DecodeRegisterForm(mem, p, regOpcode, RegOf(a2), a1);
    } else {
      ParsedInt32(a2);
      DecodeImmForm(mem, p, ext, a1, ParseImm(a2));
    }
  }

  predicate RelativeOpcode(opcode: seq<Byte>) {
    opcode == [0xE9] || opcode == [0xE8] || (|opcode| == 2 && opcode[0] == 0x0F && CondOf(opcode[1]).Some?)
  }

  function RelativeForm(opcode: seq<Byte>, rel: int): Instr
    requires RelativeOpcode(opcode)
  {
    if opcode == [0xE9] then Jmp(rel) else if opcode == [0xE8] then Call(rel) else Jcc(CondOf(opcode[1]).value, rel)
  }

  lemma DecodeRelative(mem: seq<Byte>, p: nat, opcode: seq<Byte>, x: int)
    requires RelativeOpcode(opcode)
    requires BytesAt(mem, p, opcode + Le32(x))
    ensures Decode(mem, p) == Decoded(RelativeForm(opcode, Int32(x)), |opcode| + 4)
  {
    BytesAtTail(mem, p, opcode, Le32(x));
    AtBytes(mem, p, opcode, 0);
    if |opcode| == 2 { AtBytes(mem, p, opcode, 1); }
    DwordBytes(mem, p + |opcode|, Le32(x), 0, x);
  }

  lemma DecodeBranch(mem: seq<Byte>, p: nat, opcode: seq<Byte>, target: string, address: nat, names: Names)
    requires RelativeOpcode(opcode)
    requires Resolved(target, names)
    requires BytesAt(mem, p, EncodeBranch(opcode, target, address, names))
    ensures Decode(mem, p)
            == Decoded(RelativeForm(opcode, Int32(Displacement(target, address + |opcode| + 4, names))), |opcode| + 4)
  {
    DecodeRelative(mem, p, opcode, Displacement(target, address + |opcode| + 4, names));
  }

  lemma DecodeCall(mem: seq<Byte>, p: nat, a1: string, address: nat, names: Names)
    requires BothKnow(CallM, a1, [], names)
    requires BytesAt(mem, p, EncodeCall(a1, address, names))
    ensures Decode(mem, p) == Decoded(DenoteCall(a1, address, names), |EncodeCall(a1, address, names)|)
  {
    if IsReg(a1) {
      var s := EncodeCall(a1, address, names);
      AtBytes(mem, p, s, 0);
      AtBytes(mem, p, s, 1);
      ModRmFields(3, 2, RegOf(a1));
    } else if Resolved(a1, names) {
      DecodeBranch(mem, p, [0xE8], a1, address, names);
    } else {
      DecodeRelative(mem, p, [0xE8], LibraryDisplacement(a1, address + 5, names));
    }
  }

  lemma DecodeSimple(mem: seq<Byte>, p: nat, m: Mnemonic, a1: string, section: int, address: nat, names: Names)
    requires m.IntM? || m.PushM? || m.PopM? || m.PushaM? || m.PopaM? || m.RetM?
    requires BothKnow(m, a1, [], names)
    requires BytesAt(mem, p, Encode(m, a1, [], section, address, names))
    ensures Decode(mem, p) == Decoded(Denote(m, a1, [], address, names), |Encode(m, a1, [], section, address, names)|)
  {
    var s := Encode(m, a1, [], section, address, names);
    AtBytes(mem, p, s, 0);
    if m.IntM? { AtBytes(mem, p, s, 1); }
  }

  lemma DecodeJump(mem: seq<Byte>, p: nat, m: Mnemonic, a1: string, section: int, address: nat, names: Names)
    requires m.JmpM? || m.JneM? || m.JleM? || m.JgeM?
    requires BothKnow(m, a1, [], names)
    requires BytesAt(mem, p, Encode(m, a1, [], section, address, names))
    ensures Decode(mem, p) == Decoded(Denote(m, a1, [], address, names), |Encode(m, a1, [], section, address, names)|)
  {
    match m {
      case JmpM => DecodeBranch(mem, p, [0xE9], a1, address, names);
      case JneM => DecodeBranch(mem, p, [0x0F, 0x85], a1, address, names);
      case JleM => DecodeBranch(mem, p, [0x0F, 0x8E], a1, address, names);
      case JgeM => DecodeBranch(mem, p, [0x0F, 0x8D], a1, address, names);
    }
  }

  /**
    * Decoding the bytes of any known form gives back the instruction the text denotes, and consumes
    * exactly the number of bytes that pass 1 counted.
    */
  lemma DecodeEncoded(mem: seq<Byte>, p: nat, m: Mnemonic, a1: string, a2: string, section: int, address: nat,
                      names: Names)
    requires BothKnow(m, a1, a2, names)
    requires BytesAt(mem, p, Encode(m, a1, a2, section, address, names))
    ensures Decode(mem, p) == Decoded(Denote(m, a1, a2, address, names), InstructionSize(m, a1, a2))
  {
    OperandKinds(a1);
    OperandKinds(a2);
    BothKnowIsSizeExact(m, a1, a2, section, names);
    SizeExactIff(m, a1, a2, section, address, names);
    match m {
      case MovM => DecodeMov(mem, p, a1, a2, names);
      case AddM => DecodeArithmetic(mem, p, 0x01, 0x03, 0, a1, a2);
      case SubM => DecodeArithmetic(mem, p, 0x29, 0x2B, 5, a1, a2);
      case CmpM => CompareAsArithmetic(a1, a2); DecodeArithmetic(mem, p, 0x39, 0x3B, 7, a1, a2);
      case CallM => DecodeCall(mem, p, a1, address, names);
      case JmpM => DecodeJump(mem, p, m, a1, section, address, names);
      case JneM => DecodeJump(mem, p, m, a1, section, address, names);
      case JleM => DecodeJump(mem, p, m, a1, section, address, names);
      case JgeM => DecodeJump(mem, p, m, a1, section, address, names);
      case _ => DecodeSimple(mem, p, m, a1, section, address, names);
    }
  }

  lemma CompareAsArithmetic(a1: string, a2: string)
    requires BothKnowArithmetic(a1, a2)
    ensures EncodeCmp(a1, a2) == EncodeAddSub(0x39, 0x3B, 7, a1, a2)
  {
    OperandKinds(a2);
  }

  lemma BothKnowIsSizeExact(m: Mnemonic, a1: string, a2: string, section: int, names: Names)
    requires BothKnow(m, a1, a2, names)
    ensures SizeExact(m, a1, a2, section, names)
  {
    OperandKinds(a1);
    OperandKinds(a2);
  }
}
