/** Operand parsing, instruction sizes (pass 1) and emitted bytes (pass 2) of the assembler. */
module Encoding {
  import opened Words
  import opened LibcText
  import opened X86

  // ---------- mnemonics ----------

  datatype Mnemonic =
    | DbM | MovM | AddM | SubM | CmpM | JmpM | CallM | JneM | JleM | JgeM
    | IntM | PushaM | PopaM | PushM | PopM | RetM | SectionM | OtherM

  function MnemonicOf(instruction: string): Mnemonic {
    if instruction == "db" then DbM
    else if instruction == "mov" then MovM
    else if instruction == "add" then AddM
    else if instruction == "sub" then SubM
    else if instruction == "cmp" then CmpM
    else if instruction == "jmp" then JmpM
    else if instruction == "call" then CallM
    else if instruction == "jne" then JneM
    else if instruction == "jle" then JleM
    else if instruction == "jge" then JgeM
    else if instruction == "int" then IntM
    else if instruction == "pusha" then PushaM
    else if instruction == "popa" then PopaM
    else if instruction == "push" then PushM
    else if instruction == "pop" then PopM
    else if instruction == "ret" then RetM
    else if instruction == "section" then SectionM
    else OtherM
  }

  // ---------- operands ----------

  const REGISTER_NAMES: seq<string> := ["eax", "ecx", "edx", "ebx", "esp", "ebp", "esi", "edi"]

  /** `parseRegisterIndex`: -1 when the text is no register name. */
  function RegIndexFrom(names: seq<string>, s: string, i: nat): (r: int)
    requires i <= |names|
    ensures r == -1 || (i <= r < |names| && names[r] == s)
    decreases |names| - i
  {
    if i == |names| then -1 else if names[i] == s then i else RegIndexFrom(names, s, i + 1)
  }

  function RegIndex(s: string): int {
    RegIndexFrom(REGISTER_NAMES, s, 0)
  }

  predicate IsReg(s: string) {
    RegIndex(s) != -1
  }

  function RegOf(s: string): Reg
    requires IsReg(s)
  {
    RegIndex(s)
  }

  predicate IsMem(s: string) {
    s != [] && s[0] == '[' && s[|s| - 1] == ']'
  }

  predicate StartsWithName(s: string, c0: char, c1: char, c2: char) {
    |s| >= 3 && ToLower(s[0]) == c0 && ToLower(s[1]) == c1 && ToLower(s[2]) == c2
  }

  /** The base register of a memory operand: ebp (5), eax (0), or -1 for anything else. */
  function MemBase(s: string): int
    requires IsMem(s)
  {
    if StartsWithName(s[1..], 'e', 'b', 'p') then 5
    else if StartsWithName(s[1..], 'e', 'a', 'x') then 0
    else -1
  }

  function SignedOffset(s: string): int {
    if s != [] && s[0] == '-' then Int32(-ParseImm(s[1..]))
    else if s != [] && s[0] == '+' then ParseImm(s[1..])
    else ParseImm(s)
  }

  function MemOffset(s: string): int
    requires IsMem(s)
  {
    if MemBase(s) == -1 then SignedOffset(s[1..]) else SignedOffset(s[4..])
  }

  function DispBytes(offset: int, base: int): nat {
    if offset == 0 && base != 5 then 0 else if IsInt8(offset) then 1 else 4
  }

  function ImmBytes(value: int): nat {
    if IsInt8(value) then 1 else 4
  }

  // ---------- pass 1 ----------

  function MemDispBytes(s: string): nat
    requires IsMem(s)
  {
    DispBytes(MemOffset(s), MemBase(s))
  }

  function DataMoveSize(m: Mnemonic, a1: string, a2: string): nat {
    if IsReg(a1) then
      if IsReg(a2) then 2
      else if IsMem(a2) then 2 + MemDispBytes(a2)
      else if m == MovM then 5
      else if ImmBytes(ParseImm(a2)) == 1 then 3 else 6
    else if IsMem(a1) then
      if IsReg(a2) then 2 + MemDispBytes(a1)
      else 2 + MemDispBytes(a1) + (if m == MovM then 4 else ImmBytes(ParseImm(a2)))
    else 0
  }

  function CompareSize(a1: string, a2: string): nat {
    if IsReg(a1) && IsReg(a2) then 2
    else if IsReg(a1) then if ImmBytes(ParseImm(a2)) == 1 then 3 else 6
    else if IsMem(a1) then 2 + MemDispBytes(a1) + ImmBytes(ParseImm(a2))
    else 0
  }

  /** `getInstructionSize`. */
  function InstructionSize(m: Mnemonic, a1: string, a2: string): nat {
    match m
    case DbM => if a1 == [] then 0 else |a1| - 1
    case MovM => DataMoveSize(m, a1, a2)
    case AddM => DataMoveSize(m, a1, a2)
    case SubM => DataMoveSize(m, a1, a2)
    case CmpM => CompareSize(a1, a2)
    case JmpM => if a1 != [] then 5 else 0
    case CallM => if a1 == [] then 0 else if IsReg(a1) then 2 else 5
    case JneM => if a1 != [] then 6 else 0
    case JleM => if a1 != [] then 6 else 0
    case JgeM => if a1 != [] then 6 else 0
    case IntM => if a1 != [] then 2 else 0
    case PushaM => 1
    case PopaM => 1
    case PushM => 1
    case PopM => 1
    case RetM => 1
    case SectionM => 0
    case OtherM => 0
  }

  // ---------- names ----------

  datatype Label = Label(name: string, address: nat, section: int)

  /** `findLabelIndex`: the first entry with that name, or -1. */
  function FindLabelFrom(labels: seq<Label>, name: string, i: nat): (r: int)
    requires i <= |labels|
    ensures r == -1 || (i <= r < |labels| && labels[r].name == name)
    ensures r == -1 <==> forall k :: i <= k < |labels| ==> labels[k].name != name
    ensures r != -1 ==> forall k :: i <= k < r ==> labels[k].name != name
    decreases |labels| - i
  {
    if i == |labels| then -1 else if labels[i].name == name then i else FindLabelFrom(labels, name, i + 1)
  }

  function FindLabel(labels: seq<Label>, name: string): (r: int)
    ensures r == -1 || (0 <= r < |labels| && labels[r].name == name)
    ensures r == -1 <==> forall k :: 0 <= k < |labels| ==> labels[k].name != name
    ensures r != -1 ==> forall k :: 0 <= k < r ==> labels[k].name != name
  {
    FindLabelFrom(labels, name, 0)
  }

  /** What pass 2 knows: the labels and code size of pass 1, and the library's jump table. */
  datatype Names = Names(labels: seq<Label>, codeSize: nat, library: map<string, Word>)

  const CODE_BASE: Word := 0x0040_2000
  const PAGE_SIZE: nat := 0x1000

  function PageRound(size: nat): nat {
    (size + PAGE_SIZE - 1) / PAGE_SIZE * PAGE_SIZE
  }

  /** `findLibFunctionAddr`: 0 for an unknown function. */
  function LibraryAddress(names: Names, name: string): Word {
    if name in names.library then names.library[name] else 0
  }

  function LabelVirtualAddress(names: Names, l: Label): int {
    if l.section == 0 then l.address + CODE_BASE
    else l.address + CODE_BASE + PageRound(names.codeSize)
  }

  /** The operand of `mov reg, x` when x is neither register nor memory. */
  function ImmOrAddress(a2: string, names: Names): int {
    var index := FindLabel(names.labels, a2);
    if index != -1 then LabelVirtualAddress(names, names.labels[index])
    else if LibraryAddress(names, a2) != 0 then LibraryAddress(names, a2)
    else ParseImm(a2)
  }

  // ---------- pass 2 ----------

  /** `(mod << 6) | (reg << 3) | base`; an unknown base of -1 sets every bit. */
  function ModRm(mod: int, reg: Reg, base: int): Byte
    requires 0 <= mod < 4 && -1 <= base < 8
  {
    if base == -1 then 0xFF else mod * 64 + reg * 8 + base
  }

  function MemOperandBytes(reg: Reg, base: int, offset: int): seq<Byte>
    requires -1 <= base < 8
  {
    var n := DispBytes(offset, base);
    if n == 0 then [ModRm(0, reg, base)]
    else if n == 1 then [ModRm(1, reg, base), LowByte(offset)]
    else [ModRm(2, reg, base)] + Le32(offset)
  }

  function MemBytes(reg: Reg, s: string): seq<Byte>
    requires IsMem(s)
  {
    MemOperandBytes(reg, MemBase(s), MemOffset(s))
  }

  function ImmediateBytes(value: int): seq<Byte> {
    if ImmBytes(value) == 1 then [LowByte(value)] else Le32(value)
  }

  function EncodeMov(a1: string, a2: string, names: Names): seq<Byte> {
    if IsReg(a1) then
      if IsReg(a2) then [0x89, ModRm(3, RegOf(a2), RegOf(a1))]
      else if IsMem(a2) then [0x8B] + MemBytes(RegOf(a1), a2)
      else [0xB8 + RegOf(a1)] + Le32(ImmOrAddress(a2, names))
    else if IsMem(a1) then
      if IsReg(a2) then [0x89] + MemBytes(RegOf(a2), a1)
      else
        var value := ParseImm(a2);
        [if ImmBytes(value) == 1 then 0xC6 else 0xC7] + MemBytes(0, a1) + ImmediateBytes(value)
    else []
  }

  /** The 0x83/0x81 forms, where `ext` selects the operation. */
  function EncodeImm(ext: Reg, a1: string, value: int): seq<Byte>
    requires IsReg(a1) || IsMem(a1)
  {
    [if ImmBytes(value) == 1 then 0x83 else 0x81]
    + (if IsReg(a1) then [ModRm(3, ext, RegOf(a1))] else MemBytes(ext, a1))
    + ImmediateBytes(value)
  }

  function EncodeAddSub(regOpcode: Byte, loadOpcode: Byte, ext: Reg, a1: string, a2: string): seq<Byte> {
    if IsReg(a1) && IsReg(a2) then [regOpcode, ModRm(3, RegOf(a2), RegOf(a1))]
    else if IsReg(a1) && IsMem(a2) then [loadOpcode] + MemBytes(RegOf(a1), a2)
    else if IsReg(a1) || IsMem(a1) then EncodeImm(ext, a1, ParseImm(a2))
    else []
  }

  function EncodeCmp(a1: string, a2: string): seq<Byte> {
    if IsReg(a1) && IsReg(a2) then [0x39, ModRm(3, RegOf(a2), RegOf(a1))]
    else if IsReg(a1) || IsMem(a1) then EncodeImm(7, a1, ParseImm(a2))
    else []
  }

  predicate Resolved(name: string, names: Names) {
    FindLabel(names.labels, name) != -1
  }

  /** How far a label's address lies from the address `next`, where an instruction ends. */
  function Displacement(target: string, next: int, names: Names): int
    requires Resolved(target, names)
  {
    names.labels[FindLabel(names.labels, target)].address - next
  }

  /** A branch to a label from the instruction at code address `address`; nothing if the label is unknown. */
  function EncodeBranch(opcode: seq<Byte>, target: string, address: nat, names: Names): seq<Byte> {
    if !Resolved(target, names) then []
    else opcode + Le32(Displacement(target, address + |opcode| + 4, names))
  }

  function LibraryDisplacement(target: string, next: int, names: Names): int {
    LibraryAddress(names, target) - (CODE_BASE + next)
  }

  function EncodeCall(target: string, address: nat, names: Names): seq<Byte> {
    if IsReg(target) then [0xFF, ModRm(3, 2, RegOf(target))]
    else if Resolved(target, names) then EncodeBranch([0xE8], target, address, names)
    else if LibraryAddress(names, target) != 0 then
      [0xE8] + Le32(LibraryDisplacement(target, address + 5, names))
    else []
  }

  /** The characters up to the closing quote (or the end). */
  function QuotedBytes(s: string): seq<Byte> {
    if s == [] || s[0] == '\'' then [] else [LowByte(s[0] as int)] + QuotedBytes(s[1..])
  }

  function EncodeDb(a1: string): seq<Byte> {
    if a1 != [] && a1[0] == '\'' then QuotedBytes(a1[1..]) + [0] else []
  }

  /** The bytes `secondPass` emits for one instruction in `section` (0 code, 1 data). */
  function Encode(m: Mnemonic, a1: string, a2: string, section: int, address: nat, names: Names): seq<Byte> {
    match m
    case DbM => if section == 1 then EncodeDb(a1) else []
    case MovM => if a1 == [] || a2 == [] then [] else EncodeMov(a1, a2, names)
    case AddM => if a1 == [] || a2 == [] then [] else EncodeAddSub(0x01, 0x03, 0, a1, a2)
    case SubM => if a1 == [] || a2 == [] then [] else EncodeAddSub(0x29, 0x2B, 5, a1, a2)
    case CmpM => if a1 == [] || a2 == [] then [] else EncodeCmp(a1, a2)
    case JmpM => if a1 == [] then [] else EncodeBranch([0xE9], a1, address, names)
    case JneM => if a1 == [] then [] else EncodeBranch([0x0F, 0x85], a1, address, names)
    case JleM => if a1 == [] then [] else EncodeBranch([0x0F, 0x8E], a1, address, names)
    case JgeM => if a1 == [] then [] else EncodeBranch([0x0F, 0x8D], a1, address, names)
    case CallM => if a1 == [] then [] else EncodeCall(a1, address, names)
    case IntM => if a1 == [] then [] else [0xCD, LowByte(ParseImm(a1))]
    case PushaM => [0x60]
    case PopaM => [0x61]
    case PushM => if IsReg(a1) then [0x50 + RegOf(a1)] else []
    case PopM => if IsReg(a1) then [0x58 + RegOf(a1)] else []
    case RetM => [0xC3]
    case SectionM => []
    case OtherM => []
  }

  // ---------- when the two passes agree on a line ----------

  /** A quoted string whose first closing quote is its last character. */
  predicate ClosedQuote(s: string) {
    |s| >= 2 && s[0] == '\'' && s[|s| - 1] == '\'' && forall k :: 1 <= k < |s| - 1 ==> s[k] != '\''
  }

  /** The operand forms for which the size of pass 1 is the number of bytes of pass 2. */
  predicate SizeExact(m: Mnemonic, a1: string, a2: string, section: int, names: Names) {
    match m
    case DbM => if section == 1 && a1 != [] && a1[0] == '\'' then ClosedQuote(a1) else |a1| <= 1
    case MovM => (IsReg(a1) && a2 != []) || (IsMem(a1) && (IsReg(a2) || !IsInt8(ParseImm(a2))))
      || (!IsReg(a1) && !IsMem(a1))
    case AddM => (IsReg(a1) && a2 != []) || (IsMem(a1) && !IsReg(a2) && a2 != []) || (!IsReg(a1) && !IsMem(a1))
    case SubM => (IsReg(a1) && a2 != []) || (IsMem(a1) && !IsReg(a2) && a2 != []) || (!IsReg(a1) && !IsMem(a1))
    case CmpM => a2 != [] || (!IsReg(a1) && !IsMem(a1))
    case JmpM => a1 == [] || Resolved(a1, names)
    case JneM => a1 == [] || Resolved(a1, names)
    case JleM => a1 == [] || Resolved(a1, names)
    case JgeM => a1 == [] || Resolved(a1, names)
    case CallM => a1 == [] || IsReg(a1) || Resolved(a1, names) || LibraryAddress(names, a1) != 0
    case PushM => IsReg(a1)
    case PopM => IsReg(a1)
    case _ => true
  }

  lemma MemBytesLength(reg: Reg, s: string)
    requires IsMem(s)
    ensures |MemBytes(reg, s)| == 1 + MemDispBytes(s)
  {
  }

  lemma OperandKinds(s: string)
    ensures IsReg(s) ==> s != [] && !IsMem(s) && s[0] == 'e'
  {
    if IsReg(s) { assert s in REGISTER_NAMES; }
  }

  lemma NoImmediate()
    ensures ParseImm([]) == 0
  {
  }

  lemma {:induction false} QuotedLength(s: string, k: nat)
    requires k <= |s|
    requires forall i :: 0 <= i < k ==> s[i] != '\''
    requires k == |s| || s[k] == '\''
    ensures |QuotedBytes(s)| == k
  {
    if k > 0 { QuotedLength(s[1..], k - 1); }
  }

  function FirstQuote(s: string): (k: nat)
    ensures k <= |s| && (forall i :: 0 <= i < k ==> s[i] != '\'') && (k == |s| || s[k] == '\'')
  {
    if s == [] || s[0] == '\'' then 0 else 1 + FirstQuote(s[1..])
  }

  lemma DbSizeExact(a1: string, names: Names)
    requires a1 != [] && a1[0] == '\''
    ensures |a1| - 1 == |EncodeDb(a1)| <==> ClosedQuote(a1)
  {
    var k := FirstQuote(a1[1..]);
    QuotedLength(a1[1..], k);
    assert forall i :: 1 <= i < 1 + k ==> a1[i] == a1[1..][i - 1];
    if 1 + k < |a1| { assert a1[1 + k] == a1[1..][k]; }
  }

  lemma MovSizeExact(a1: string, a2: string, names: Names)
    ensures a1 != [] && a2 != [] && IsReg(a1) ==> |EncodeMov(a1, a2, names)| == DataMoveSize(MovM, a1, a2)
    ensures a1 != [] && a2 != [] && !IsReg(a1) && IsMem(a1) ==>
              (|EncodeMov(a1, a2, names)| == DataMoveSize(MovM, a1, a2) <==> IsReg(a2) || !IsInt8(ParseImm(a2)))
  {
    if IsMem(a1) { MemBytesLength(0, a1); if IsReg(a2) { MemBytesLength(RegOf(a2), a1); } }
    if IsReg(a1) && IsMem(a2) { MemBytesLength(RegOf(a1), a2); }
  }

  /** The byte count of pass 1 is right for a line exactly when the line has one of the size-exact forms. */
  lemma SizeExactIff(m: Mnemonic, a1: string, a2: string, section: int, address: nat, names: Names)
    ensures InstructionSize(m, a1, a2) == |Encode(m, a1, a2, section, address, names)|
       <==> SizeExact(m, a1, a2, section, names)
  {
    OperandKinds(a1);
    OperandKinds(a2);
    NoImmediate();
    match m {
      case DbM =>
        if section == 1 && a1 != [] && a1[0] == '\'' { DbSizeExact(a1, names); }
      case MovM => MovSizeExact(a1, a2, names);
      case AddM => ArithmeticSizes(0, a1, a2);
      case SubM => ArithmeticSizes(5, a1, a2);
      case CmpM => ArithmeticSizes(7, a1, a2);
      case _ =>
    }
  }

  lemma ArithmeticSizes(ext: Reg, a1: string, a2: string)
    ensures IsReg(a1) && IsMem(a2) ==> |MemBytes(RegOf(a1), a2)| == 1 + MemDispBytes(a2)
    ensures IsReg(a1) ==> |EncodeImm(ext, a1, ParseImm(a2))| == if ImmBytes(ParseImm(a2)) == 1 then 3 else 6
    ensures IsMem(a1) && !IsReg(a1) ==>
              |EncodeImm(ext, a1, ParseImm(a2))| == 2 + MemDispBytes(a1) + ImmBytes(ParseImm(a2))
  {
    if IsMem(a1) { MemBytesLength(ext, a1); }
    if IsReg(a1) && IsMem(a2) { MemBytesLength(RegOf(a1), a2); }
  }
}
