/** The disassembler's text, and why assembling it again gives the bytes it came from. */
module DisassemblyText {
  import opened Words
  import opened LibcText
  import opened X86
  import opened Encoding
  import opened Disassembler
  import opened EncodeDecode
  import opened AssemblyText
  import opened Passes
  import opened AsmPrinting
  import opened AsmOperands

  // ---------- text ----------

  function OpName(op: Op): string {
    match op
    case Mov => "mov"
    case Add => "add"
    case Sub => "sub"
    case Cmp => "cmp"
  }

  /** A magnitude in hexadecimal, as `itoaHex` writes it. */
  function HexOf(v: int): string {
    "0x" + HexText(Wrap(v))
  }

  function DisplacementText(disp: int): string {
    if disp == 0 then "" else if disp < 0 then "-" + HexOf(-disp) else "+" + HexOf(disp)
  }

  function RmText(rm: RM): string {
    match rm
    case InReg(r) => RegName(r)
    case InMem(base, disp) => "[" + RegName(base) + DisplacementText(disp) + "]"
    case AtAddress(disp) => HexOf(disp)
  }

  function ImmText(value: int): string {
    if value < 0 then "-" + HexOf(-value) else HexOf(value)
  }

  function CondName(cond: Cond): string {
    match cond
    case Equal => "je"
    case NotEqual => "jne"
    case LessEqual => "jle"
    case GreaterEqual => "jge"
  }

  /** The mnemonic and operands printed for an instruction that ends at `next`. */
  function LineOf(i: Instr, next: int): Line {
    match i
    case Binary(op, dst, src) => Line(false, "", OpName(op), RmText(dst), RegName(src))
    case BinaryLoad(op, dst, from) => Line(false, "", OpName(op), RegName(dst), RmText(from))
    case BinaryImm(op, dst, imm) => Line(false, "", OpName(op), RmText(dst), ImmText(imm))
    case MovImm(r, value) => Line(false, "", "mov", RegName(r), HexOf(value))
    case Push(r) => Line(false, "", "push", RegName(r), "")
    case Pop(r) => Line(false, "", "pop", RegName(r), "")
    case Pusha => Line(false, "", "pusha", "", "")
    case Popa => Line(false, "", "popa", "", "")
    case Ret => Line(false, "", "ret", "", "")
    case Interrupt(n) => Line(false, "", "int", HexOf(n), "")
    case Jmp(rel) => Line(false, "", "jmp", HexOf(next + rel), "")
    case Jcc(cond, rel) => Line(false, "", CondName(cond), HexOf(next + rel), "")
    case Call(rel) => Line(false, "", "call", HexOf(next + rel), "")
    case CallReg(r) => Line(false, "", "call", RegName(r), "")
    case Unknown(opcode) => Line(false, "", "db", HexOf(opcode), "")
  }

  // ---------- the row loop ----------

  /** A printed row: where the instruction starts, its length, its text. */
  datatype Row = Row(address: nat, length: nat, text: string)

  function RowAt(mem: seq<Byte>, p: nat): Row {
    var d := Decode(mem, p);
    Row(p, d.len, Stripped(LineOf(d.instr, p + d.len)))
  }

  function RowsFrom(mem: seq<Byte>, p: nat, rows: nat): seq<Row>
    decreases rows
  {
    if rows == 0 then [] else [RowAt(mem, p)] + RowsFrom(mem, p + Decode(mem, p).len, rows - 1)
  }

  /** The loop of `sysDisassemble` over the rows of the screen. */
  method Disassemble(mem: seq<Byte>, start: nat, count: nat) returns (rows: seq<Row>)
    ensures rows == RowsFrom(mem, start, count)
  {
    hide RowAt, Decode;
    rows := [];
    var address: nat := start;
    var row := 0;
    while row < count
      invariant 0 <= row <= count
      invariant rows + RowsFrom(mem, address, count - row) == RowsFrom(mem, start, count)
    {
      rows := rows + [RowAt(mem, address)];
      address := address + Decode(mem, address).len;
      row := row + 1;
    }
    assert rows + [] == rows;
  }

  // ---------- instructions that the assembler can write ----------

  predicate Writable(rm: RM) {
    rm.InReg? || (rm.InMem? && (rm.base == EAX || rm.base == EBP) && IsInt32(rm.disp))
  }

  predicate Reassemblable(i: Instr) {
    match i
    case Binary(op, dst, _) => Writable(dst) && (dst.InReg? || op == Mov)
    case BinaryLoad(op, _, from) => op == Mov && from.InMem? && Writable(from)
    case BinaryImm(op, dst, imm) => op != Mov && Writable(dst) && IsInt32(imm)
    case MovImm(_, _) => true
    case Push(_) => true
    case Pop(_) => true
    case Pusha => true
    case Popa => true
    case Ret => true
    case Interrupt(_) => true
    case CallReg(_) => true
    case _ => false
  }

  /** The bytes of such an instruction. */
  function RmBytes(field: Reg, rm: RM): seq<Byte>
    requires Writable(rm)
  {
    if rm.InReg? then [ModRm(3, field, rm.r)] else MemOperandBytes(field, rm.base, rm.disp)
  }

  function RegOpcode(op: Op): Byte {
    match op
    case Mov => 0x89
    case Add => 0x01
    case Sub => 0x29
    case Cmp => 0x39
  }

  function ExtOf(op: Op): Reg {
    match op
    case Mov => 0
    case Add => 0
    case Sub => 5
    case Cmp => 7
  }

  function InstrBytes(i: Instr): seq<Byte>
    requires Reassemblable(i)
  {
    match i
    case Binary(op, dst, src) => [RegOpcode(op)] + RmBytes(src, dst)
    case BinaryLoad(_, dst, from) => [0x8B] + RmBytes(dst, from)
    case BinaryImm(op, dst, imm) => [if ImmBytes(imm) == 1 then 0x83 else 0x81] + RmBytes(ExtOf(op), dst)
      + ImmediateBytes(imm)
    case MovImm(r, value) => [0xB8 + r] + Le32(value)
    case Push(r) => [0x50 + r]
    case Pop(r) => [0x58 + r]
    case Pusha => [0x60]
    case Popa => [0x61]
    case Ret => [0xC3]
    case Interrupt(n) => [0xCD, n]
    case CallReg(r) => [0xFF, ModRm(3, 2, r)]
  }

  /** Forms whose text does not depend on an address: everything but branches to labels. */
  predicate IsFixed(m: Mnemonic, a1: string) {
    !m.JmpM? && !m.JneM? && !m.JleM? && !m.JgeM? && (m.CallM? ==> IsReg(a1))
  }

  lemma OperandWritable(s: string)
    requires IsReg(s) || KnownMem(s)
    ensures Writable(OperandOf(s)) && (KnownMem(s) && !IsReg(s) ==> OperandOf(s).InMem?)
    ensures forall field :: OperandBytes(field, s) == RmBytes(field, OperandOf(s))
  {
    ParsedInt32(s);
  }

  lemma SameWordBytes(x: int)
    ensures Le32(Wrap(x)) == Le32(x)
  {
    WrapWord(Wrap(x));
  }

  lemma MovBytes(a1: string, a2: string, names: Names)
    requires BothKnowMov(a1, a2)
    ensures Reassemblable(DenoteMov(a1, a2, names)) && EncodeMov(a1, a2, names) == InstrBytes(DenoteMov(a1, a2, names))
  {
    hide IsReg, IsMem, MemBase, MemOffset, Le32, ImmOrAddress, MemOperandBytes, RegIndex;
    OperandKinds(a1);
    OperandKinds(a2);
    if IsReg(a2) {
      OperandWritable(a1);
    } else if KnownMem(a2) {
      OperandWritable(a2);
    } else {
      SameWordBytes(ImmOrAddress(a2, names));
    }
  }

  lemma ArithmeticBytes(op: Op, a1: string, a2: string)
    requires BothKnowArithmetic(a1, a2) && op != Mov
    ensures Reassemblable(DenoteArithmetic(op, a1, a2))
    ensures EncodeAddSub(RegOpcode(op), 0, ExtOf(op), a1, a2) == InstrBytes(DenoteArithmetic(op, a1, a2))
  {
    hide IsReg, IsMem, MemBase, MemOffset, ParseImm, MemOperandBytes, RegIndex, ImmediateBytes;
    OperandKinds(a1);
    OperandKinds(a2);
    OperandWritable(a1);
    ParsedInt32(a2);
  }

  /** The load opcode does not matter to forms both sides know. */
  lemma NoLoad(opcode: Byte, load: Byte, ext: Reg, a1: string, a2: string)
    requires BothKnowArithmetic(a1, a2)
    ensures EncodeAddSub(opcode, load, ext, a1, a2) == EncodeAddSub(opcode, 0, ext, a1, a2)
  {
    OperandKinds(a2);
  }

  /** What an instruction denotes determines its bytes. */
  lemma DenotationBytes(m: Mnemonic, a1: string, a2: string, section: int, address: nat, names: Names)
    requires BothKnow(m, a1, a2, names) && IsFixed(m, a1)
    ensures Reassemblable(Denote(m, a1, a2, address, names))
    ensures Encode(m, a1, a2, section, address, names) == InstrBytes(Denote(m, a1, a2, address, names))
  {
    hide EncodeMov, EncodeAddSub, EncodeCmp, DenoteMov, DenoteArithmetic, IsReg, IsMem, MemBase;
    OperandKinds(a1);
    OperandKinds(a2);
    match m {
      case MovM => MovBytes(a1, a2, names); KnownNonempty(a1, a2);
      case AddM => ArithmeticBytes(Add, a1, a2); NoLoad(0x01, 0x03, 0, a1, a2); KnownNonempty(a1, a2);
      case SubM => ArithmeticBytes(Sub, a1, a2); NoLoad(0x29, 0x2B, 5, a1, a2); KnownNonempty(a1, a2);
      case CmpM => ArithmeticBytes(Cmp, a1, a2); NoLoad(0x39, 0x3B, 7, a1, a2); CompareAsArithmetic(a1, a2);
        KnownNonempty(a1, a2);
      case _ =>
    }
  }

  lemma KnownNonempty(a1: string, a2: string)
    requires BothKnowMov(a1, a2) || BothKnowArithmetic(a1, a2)
    ensures a1 != [] && a2 != []
  {
    OperandKinds(a1);
    OperandKinds(a2);
  }

  // ---------- reading the text ----------

  lemma HexRead(v: int, rest: string)
    requires 0 <= v <= 0xFFFF_FFFF && StopsDigits(rest, 16)
    ensures ParseImm(HexOf(v) + rest) == Signed(v) && ParseImm("-" + HexOf(v) + rest) == Int32(-Signed(v))
    ensures HexOf(v)[0] == '0' && |HexOf(v)| <= 10 && PlainOperand(HexOf(v)) && PlainOperand("-" + HexOf(v))
    ensures IsWord(HexOf(v)) && IsWord("-" + HexOf(v))
  {
    WrapWord(v);
    HexReadBack(v, rest);
    assert "0x" + HexText(v) + rest == HexOf(v) + rest && "-0x" + HexText(v) + rest == "-" + HexOf(v) + rest;
    HexShape(v);
  }

  lemma HexShape(v: Word)
    ensures var s := "0x" + HexText(v);
            && s[0] == '0' && |s| <= 10 && PlainOperand(s) && PlainOperand("-" + s) && IsWord(s) && IsWord("-" + s)
  {
    assert Power(16, 0) == 1 && Power(16, 1) == 0x10 && Power(16, 2) == 0x100 && Power(16, 3) == 0x1000
           && Power(16, 4) == 0x1_0000;
    assert Power(16, 5) == 0x10_0000 && Power(16, 6) == 0x100_0000 && Power(16, 7) == 0x1000_0000
           && Power(16, 8) == 0x1_0000_0000;
    NumeralLength(v, 16, 8);
    NumeralShape(v, 16);
    var digits := HexText(v);
    var s := "0x" + digits;
    assert forall k :: 2 <= k < |s| ==> s[k] == digits[k - 2];
    assert forall k :: 1 <= k < |("-" + s)| ==> ("-" + s)[k] == s[k - 1];
    assert forall k :: 0 <= k < |digits| ==> DigitValue(digits[k], 16) >= 0;
    OperandKinds(s);
    OperandKinds("-" + s);
  }

  lemma ImmRead(value: int)
    requires IsInt32(value)
    ensures ParseImm(ImmText(value)) == value && PlainOperand(ImmText(value)) && IsWord(ImmText(value))
            && 0 < |ImmText(value)| < 20
  {
    hide HexOf, PlainOperand, IsWord;
    var v := if value < 0 then -value else value;
    HexRead(v, "");
    assert HexOf(v) + "" == HexOf(v) && "-" + HexOf(v) + "" == "-" + HexOf(v);
    Int32Idempotent(value);
    if value < 0 { NegatedMagnitude(value); }
  }

  lemma NegatedMagnitude(value: int)
    requires IsInt32(value) && value < 0
    ensures Int32(-Signed(-value)) == value
  {
    if value == -0x8000_0000 {
      assert Signed(0x8000_0000) == -0x8000_0000;
      assert Wrap(0x8000_0000) == 0x8000_0000;
    } else {
      Int32Idempotent(value);
    }
  }

  lemma MemTextParts(base: Reg, disp: int)
    requires (base == EAX || base == EBP) && IsInt32(disp)
    ensures var s := RmText(InMem(base, disp));
            && |s| < ARGUMENT_BUFFER && s[0] == '[' && s[|s| - 1] == ']' && s[1..4] == RegName(base)
            && s[4..] == DisplacementText(disp) + "]"
    ensures IsWord(RmText(InMem(base, disp)))
  {
    hide DisplacementText;
    DisplacementWord(disp);
    var name, tail := RegName(base), DisplacementText(disp);
    assert |name| == 3 && name[0] == 'e';
    var s := "[" + name + tail + "]";
    forall k | 0 <= k < |s|
      ensures IsVisible(s[k]) && s[k] != ',' && s[k] != ':'
    {
      if 1 <= k < 4 { assert s[k] == name[k - 1]; }
      if 4 <= k < 4 + |tail| { assert s[k] == tail[k - 4]; }
    }
  }

  lemma DisplacementWord(disp: int)
    requires IsInt32(disp)
    ensures var tail := DisplacementText(disp);
            |tail| <= 11 && forall k :: 0 <= k < |tail| ==> IsVisible(tail[k]) && tail[k] != ',' && tail[k] != ':'
  {
    hide HexOf;
    if disp != 0 {
      var digits := HexOf(if disp < 0 then -disp else disp);
      HexRead(if disp < 0 then -disp else disp, "]");
      assert forall k :: 1 <= k < |DisplacementText(disp)| ==> DisplacementText(disp)[k] == digits[k - 1];
    }
  }

  lemma DisplacementRead(disp: int)
    requires IsInt32(disp)
    ensures SignedOffset(DisplacementText(disp) + "]") == disp
  {
    var v := if disp < 0 then -disp else disp;
    HexRead(v, "]");
    Int32Idempotent(disp);
    if disp < 0 {
      var s := "-" + HexOf(v) + "]";
      assert s == DisplacementText(disp) + "]" && s[1..] == HexOf(v) + "]";
      NegatedMagnitude(disp);
    } else if disp > 0 {
      var s := "+" + HexOf(v) + "]";
      assert s == DisplacementText(disp) + "]" && s[1..] == HexOf(v) + "]";
    } else {
      assert DisplacementText(disp) + "]" == "]";
    }
  }

  lemma MemTextRead(base: Reg, disp: int)
    requires (base == EAX || base == EBP) && IsInt32(disp)
    ensures var s := RmText(InMem(base, disp)); KnownMem(s) && !IsReg(s) && OperandOf(s) == InMem(base, disp)
  {
    hide DisplacementText, SignedOffset;
    MemTextParts(base, disp);
    DisplacementRead(disp);
    var s := RmText(InMem(base, disp));
    assert s[1..][0] == s[1..4][0] && s[1..][1] == s[1..4][1] && s[1..][2] == s[1..4][2];
    OperandKinds(s);
  }

  /** A register or memory operand reads back as itself. */
  lemma RmRead(rm: RM)
    requires Writable(rm)
    ensures (IsReg(RmText(rm)) || KnownMem(RmText(rm))) && OperandOf(RmText(rm)) == rm
    ensures rm.InMem? <==> !IsReg(RmText(rm))
    ensures IsWord(RmText(rm)) && 0 < |RmText(rm)| < ARGUMENT_BUFFER
  {
    hide IsReg, IsWord, IsMem, RegName;
    match rm {
      case InReg(r) => RegRead(r);
      case InMem(base, disp) => MemTextRead(base, disp); MemTextParts(base, disp);
    }
  }

  /** The mnemonic of the printed line. */
  function MnemonicFor(i: Instr): Mnemonic {
    match i
    case Binary(op, _, _) => OpMnemonic(op)
    case BinaryLoad(_, _, _) => MovM
    case BinaryImm(op, _, _) => OpMnemonic(op)
    case MovImm(_, _) => MovM
    case Push(_) => PushM
    case Pop(_) => PopM
    case Pusha => PushaM
    case Popa => PopaM
    case Ret => RetM
    case Interrupt(_) => IntM
    case _ => CallM
  }

  lemma MnemonicText(i: Instr)
    requires Reassemblable(i)
    ensures var l := LineOf(i, 0);
            && IsInstruction(l) && !l.isLabel && l.name == "" && IsWord(l.instruction)
               && |l.instruction| < INSTRUCTION_BUFFER
            && LineMnemonic(l) == MnemonicFor(i)
  {
    hide RmText, RegName, ImmText, HexOf, MnemonicOf, LowerCase;
    LowerWords();
    MnemonicWords();
    MoreWords();
    InstructionWords();
  }

  function OpMnemonic(op: Op): Mnemonic {
    match op
    case Mov => MovM
    case Add => AddM
    case Sub => SubM
    case Cmp => CmpM
  }

  lemma MoreWords()
    ensures LowerCase("pusha") == "pusha" && LowerCase("popa") == "popa" && LowerCase("int") == "int"
    ensures MnemonicOf("pusha") == PushaM && MnemonicOf("popa") == PopaM && MnemonicOf("int") == IntM
    ensures IsWord("pusha") && IsWord("popa") && IsWord("int") && IsWord("call")
  {
    hide *;
    MoreLowerCase();
    MoreMnemonics();
  }

  lemma MoreLowerCase()
    ensures LowerCase("pusha") == "pusha" && LowerCase("popa") == "popa" && LowerCase("int") == "int"
    ensures IsWord("pusha") && IsWord("popa") && IsWord("int") && IsWord("call")
  {
  }

  lemma MoreMnemonics()
    ensures MnemonicOf("pusha") == PushaM && MnemonicOf("popa") == PopaM && MnemonicOf("int") == IntM
  {
  }

  /** Reading the printed line gives the line, and the line denotes the instruction. */
  lemma LineReads(i: Instr, next: int, address: nat, names: Names)
    requires Reassemblable(i) && NamesApart(names)
    ensures var l := LineOf(i, next);
            && l == LineOf(i, 0) && IsPlainLine(l) && ParseLine(Stripped(l)) == l
            && BothKnow(LineMnemonic(l), l.arg1, l.arg2, names) && IsFixed(LineMnemonic(l), l.arg1)
            && Denote(LineMnemonic(l), l.arg1, l.arg2, address, names) == i
  {
    hide RmText, RegName, ImmText, HexOf, LineMnemonic, ParseLine, IsReg, IsMem, MemBase, MemOffset, IsWord, NamesApart,
         Writable, RegIndex, Stripped;
    MnemonicText(i);
    LineOperands(i, address, names);
    ParseStripped(LineOf(i, 0));
  }

  lemma LineOperands(i: Instr, address: nat, names: Names)
    requires Reassemblable(i) && NamesApart(names)
    requires !LineOf(i, 0).isLabel && LineOf(i, 0).name == "" && IsWord(LineOf(i, 0).instruction)
             && |LineOf(i, 0).instruction| < INSTRUCTION_BUFFER
    requires LineMnemonic(LineOf(i, 0)) == MnemonicFor(i)
    ensures var l := LineOf(i, 0);
            && IsPlainLine(l)
            && BothKnow(LineMnemonic(l), l.arg1, l.arg2, names) && IsFixed(LineMnemonic(l), l.arg1)
            && Denote(LineMnemonic(l), l.arg1, l.arg2, address, names) == i
  {
    hide RmText, RegName, ImmText, HexOf, LineMnemonic, IsReg, IsMem, MemBase, MemOffset, IsWord, NamesApart, Writable,
         RegIndex, OperandOf, ImmOrAddress, ParseImm;
    match i {
      case Binary(op, dst, src) => RmRead(dst); RegRead(src);
      case BinaryLoad(op, dst, from) => RmRead(from); RegRead(dst);
      case BinaryImm(op, dst, imm) => RmRead(dst); ImmRead(imm);
      case MovImm(r, value) => RegRead(r); WordRead(value, names);
      case Push(r) => RegRead(r);
      case Pop(r) => RegRead(r);
      case Interrupt(n) => ByteRead(n);
      case CallReg(r) => RegRead(r);
      case _ =>
    }
  }

  lemma WordRead(value: Word, names: Names)
    requires NamesApart(names)
    ensures PlainOperand(HexOf(value)) && IsWord(HexOf(value)) && 0 < |HexOf(value)| <= 10 && !IsReg(HexOf(value))
            && !KnownMem(HexOf(value))
    ensures Wrap(ImmOrAddress(HexOf(value), names)) == value
  {
    HexRead(value, "");
    assert HexOf(value) + "" == HexOf(value);
    assert forall k :: 0 <= k < |names.labels| ==> names.labels[k] in names.labels;
    Int32OfSigned(value);
    WrapWord(value);
  }

  lemma ByteRead(n: Byte)
    ensures IsWord(HexOf(n)) && |HexOf(n)| <= 10 && HexOf(n) != [] && LowByte(ParseImm(HexOf(n))) == n
  {
    HexRead(n, "");
    assert HexOf(n) + "" == HexOf(n);
  }

  /**
    * Non-branch text from the disassembler assembles again to the same bytes: whatever known form the bytes came
    * from, the printed line, read by the assembler, encodes to exactly those bytes, wherever it stands.
    */
  lemma TextReassembles(mem: seq<Byte>, p: nat, m: Mnemonic, a1: string, a2: string, section: int, address: nat,
                        names: Names,
                        section': int, address': nat, names': Names)
    requires BothKnow(m, a1, a2, names) && IsFixed(m, a1)
    requires BytesAt(mem, p, Encode(m, a1, a2, section, address, names))
    requires NamesApart(names')
    ensures var d := Decode(mem, p);
            var l := ParseLine(RowAt(mem, p).text);
            Encode(LineMnemonic(l), l.arg1, l.arg2, section', address', names')
              == Encode(m, a1, a2, section, address, names)
  {
    hide *;
    DecodeEncoded(mem, p, m, a1, a2, section, address, names);
    DenotationBytes(m, a1, a2, section, address, names);
    var i := Denote(m, a1, a2, address, names);
    RowIs(mem, p);
    LineReads(i, p + Decode(mem, p).len, address', names');
    var l := LineOf(i, p + Decode(mem, p).len);
    DenotationBytes(LineMnemonic(l), l.arg1, l.arg2, section', address', names');
  }

  lemma RowIs(mem: seq<Byte>, p: nat)
    ensures RowAt(mem, p) == Row(p, Decode(mem, p).len, Stripped(LineOf(Decode(mem, p).instr, p + Decode(mem, p).len)))
  {
  }
}
