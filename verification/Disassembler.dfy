/** The decoder of `sysDisassemble`: bytes to instructions, and instructions to text. */
module Disassembler {
  import opened Words
  import opened X86

  datatype Decoded = Decoded(instr: Instr, len: nat)

  /** Memory beyond the buffer reads as zero. */
  function At(mem: seq<Byte>, p: nat): Byte {
    if p < |mem| then mem[p] else 0
  }

  function Dword(mem: seq<Byte>, p: nat): Word {
    FromLe32(At(mem, p), At(mem, p + 1), At(mem, p + 2), At(mem, p + 3))
  }

  /** The operand described by a ModR/M byte (and what follows it), its middle field, and the bytes used. */
  datatype Operand = Operand(field: Reg, rm: RM, len: nat)

  function DecodeModRm(mem: seq<Byte>, p: nat): Operand {
    var modrm := At(mem, p);
    var mod, field, rm := modrm / 64, modrm / 8 % 8, modrm % 8;
    var hasSib := mod != 3 && rm == 4;
    var base := if hasSib then At(mem, p + 1) % 8 else rm;
    var q := if hasSib then 2 else 1;
    if mod == 3 then Operand(field, InReg(rm), q)
    else if mod == 1 then Operand(field, InMem(base, SignExtend(At(mem, p + q))), q + 1)
    else if mod == 2 then Operand(field, InMem(base, Signed(Dword(mem, p + q))), q + 4)
    else if rm == 5 then Operand(field, AtAddress(Signed(Dword(mem, p + q))), q + 4)
    else Operand(field, InMem(base, 0), q)
  }

  function CondOf(op2: Byte): Option<Cond> {
    if op2 == 0x84 then Some(Equal)
    else if op2 == 0x85 then Some(NotEqual)
    else if op2 == 0x8E then Some(LessEqual)
    else if op2 == 0x8D then Some(GreaterEqual)
    else None
  }

  function DecodeImmGroup(mem: seq<Byte>, p: nat): Decoded {
    var opcode := At(mem, p);
    var o := DecodeModRm(mem, p + 1);
    var wide := opcode == 0x81;
    var imm := if wide then Signed(Dword(mem, p + 1 + o.len)) else SignExtend(At(mem, p + 1 + o.len));
    var len := 1 + o.len + (if wide then 4 else 1);
    if o.field == 0 then Decoded(BinaryImm(Add, o.rm, imm), len)
    else if o.field == 5 then Decoded(BinaryImm(Sub, o.rm, imm), len)
    else if o.field == 7 then Decoded(BinaryImm(Cmp, o.rm, imm), len)
    else Decoded(Unknown(opcode), len)
  }

  function DecodeRegGroup(mem: seq<Byte>, p: nat): Decoded {
    var opcode := At(mem, p);
    var o := DecodeModRm(mem, p + 1);
    var instr :=
      if opcode == 0x01 then Binary(Add, o.rm, o.field)
      else if opcode == 0x29 then Binary(Sub, o.rm, o.field)
      else if opcode == 0x39 then Binary(Cmp, o.rm, o.field)
      else if opcode == 0x89 then Binary(Mov, o.rm, o.field)
      else BinaryLoad(Mov, o.field, o.rm);
    Decoded(instr, 1 + o.len)
  }

  /** The instruction at `p`, and the number of bytes the disassembler advances. */
  function Decode(mem: seq<Byte>, p: nat): Decoded {
    var opcode := At(mem, p);
    if 0x50 <= opcode <= 0x57 then Decoded(Push(opcode - 0x50), 1)
    else if 0x58 <= opcode <= 0x5F then Decoded(Pop(opcode - 0x58), 1)
    else if 0xB8 <= opcode <= 0xBF then Decoded(MovImm(opcode - 0xB8, Dword(mem, p + 1)), 5)
    else if opcode == 0x60 then Decoded(Pusha, 1)
    else if opcode == 0x61 then Decoded(Popa, 1)
    else if opcode == 0xC3 then Decoded(Ret, 1)
    else if opcode == 0xCD then Decoded(Interrupt(At(mem, p + 1)), 2)
    else if opcode == 0xE8 then Decoded(Call(Signed(Dword(mem, p + 1))), 5)
    else if opcode == 0xE9 then Decoded(Jmp(Signed(Dword(mem, p + 1))), 5)
    else if opcode == 0x0F then
      match CondOf(At(mem, p + 1))
      case Some(cond) => Decoded(Jcc(cond, Signed(Dword(mem, p + 2))), 6)
      case None => Decoded(Unknown(opcode), 2)
    else if opcode == 0x81 || opcode == 0x83 then DecodeImmGroup(mem, p)
    else if opcode == 0x01 || opcode == 0x29 || opcode == 0x39 || opcode == 0x89 || opcode == 0x8B then
      DecodeRegGroup(mem, p)
    else if opcode == 0xFF then
      var modrm := At(mem, p + 1);
      if modrm / 64 == 3 && modrm / 8 % 8 == 2 then Decoded(CallReg(modrm % 8), 2)
      else Decoded(Unknown(opcode), 1)
    else Decoded(Unknown(opcode), 1)
  }
}
