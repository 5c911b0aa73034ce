/** The assembler reads an emitted line as the instruction the compiler meant. */
module AsmOperands {
  import opened Words
  import opened LibcText
  import opened X86
  import opened Encoding
  import opened EncodeDecode
  import opened CodeGenerator
  import opened AsmMachine
  import opened AsmPrinting
  import opened AssemblyText
  import opened Passes

  // ---------- characters of numerals and names ----------

  predicate IsNameChar(c: char) { IsDigit(c) || IsAlpha(c) || c == '_' }

  predicate IsNumeralText(s: string) {
    0 < |s| < 50 && IsDigit(s[0]) && forall k :: 0 <= k < |s| ==> IsNameChar(s[k])
  }

  predicate IsNameText(s: string) {
    0 < |s| < LABEL_BUFFER && !IsDigit(s[0]) && forall k :: 0 <= k < |s| ==> IsNameChar(s[k])
  }

  lemma NamesAreWords(s: string)
    requires s != "" && forall k :: 0 <= k < |s| ==> IsNameChar(s[k])
    ensures IsWord(s)
  {
  }

  // ---------- operands ----------

  lemma RegRead(r: Reg)
    ensures IsReg(RegName(r)) && RegOf(RegName(r)) == r
    ensures IsWord(RegName(r)) && |RegName(r)| == 3 && !IsMem(RegName(r))
  {
    assert REGISTER_NAMES[r] == RegName(r);
    RegIndexFound(r, 0);
    assert RegName(r)[0] == 'e';
  }

  lemma {:induction false} RegIndexFound(r: Reg, i: nat)
    requires i <= r
    ensures RegIndexFrom(REGISTER_NAMES, RegName(r), i) == r
    decreases r - i
  {
    assert REGISTER_NAMES[r] == RegName(r);
    if i < r {
      RegNamesDiffer(i, r);
      RegIndexFound(r, i + 1);
    }
  }

  lemma RegNamesDiffer(i: Reg, j: Reg)
    requires i < j
    ensures REGISTER_NAMES[i] != REGISTER_NAMES[j]
  {
    assert REGISTER_NAMES[i][1] != REGISTER_NAMES[j][1] || REGISTER_NAMES[i][2] != REGISTER_NAMES[j][2];
  }

  /** The offsets of the at most 64 slots. */
  predicate IsSlotOffset(off: int) {
    -400 <= off < 0
  }

  lemma OffsetText(off: int)
    requires IsSlotOffset(off)
    ensures ItoaText(Wrap(off)) == "-" + Numeral(-off, 10)
    ensures |Numeral(-off, 10)| <= 3
  {
    assert Wrap(off) == off + 0x1_0000_0000;
    assert Signed(Wrap(off)) == off;
    assert Power(10, 0) == 1 && Power(10, 1) == 10 && Power(10, 2) == 100 && Power(10, 3) == 1000;
    NumeralLength(-off, 10, 3);
  }

  lemma MemWord(off: int)
    requires IsSlotOffset(off)
    ensures IsWord(MemText(off)) && |MemText(off)| < ARGUMENT_BUFFER
  {
    OffsetText(off);
    var digits := Numeral(-off, 10);
    NumeralShape(-off, 10);
    assert MemText(off) == "[ebp-" + digits + "]";
    forall k | 0 <= k < |MemText(off)|
      ensures IsVisible(MemText(off)[k]) && MemText(off)[k] != ',' && MemText(off)[k] != ':'
    {
      if 5 <= k < 5 + |digits| { assert MemText(off)[k] == digits[k - 5]; }
    }
  }

  lemma MemRead(off: int)
    requires IsSlotOffset(off)
    ensures IsMem(MemText(off)) && MemBase(MemText(off)) == 5 && MemOffset(MemText(off)) == off
    ensures KnownMem(MemText(off)) && OperandOf(MemText(off)) == InMem(EBP, off)
  {
    OffsetText(off);
    var digits := Numeral(-off, 10);
    var s := MemText(off);
    assert s == "[ebp-" + digits + "]";
    assert s[1..][0] == 'e' && s[1..][1] == 'b' && s[1..][2] == 'p';
    assert s[4..] == "-" + (digits + "]");
    assert s[4..][1..] == digits + "]";
    assert s[0] == '[' && s[|s| - 1] == ']';
    ParseNonNegative(-off, "]");
    Int32Idempotent(-off);
    Int32Idempotent(off);
    OperandKinds(s);
  }

  lemma PlainText(s: string)
    requires IsNumeralText(s) || (s != "" && forall k :: 0 <= k < |s| ==> IsNameChar(s[k]))
    ensures !IsMem(s)
    ensures IsNumeralText(s) ==> PlainOperand(s)
  {
    assert IsNameChar(s[0]);
    OperandKinds(s);
  }

  // ---------- instructions ----------

  /** No label and no library function is called like a numeral. */
  predicate NamesApart(names: Names) {
    && (forall l :: l in names.labels ==> l.name == "" || !IsDigit(l.name[0]))
    && (forall f :: f in names.library ==> f == "" || !IsDigit(f[0]))
  }

  /** The emitted instructions that the assembler knows, with texts it can read. */
  predicate Assemblable(a: Asm) {
    match a
    case LabelDef(name) => IsNameText(name)
    case MovText(r, text) => IsNumeralText(text)
    case MovLoad(r, off) => IsSlotOffset(off)
    case MovStore(off, r) => IsSlotOffset(off)
    case MovReg(dst, src) => true
    case AddText(r, text) => IsNumeralText(text)
    case SubText(r, text) => IsNumeralText(text)
    case CmpText(off, text) => IsSlotOffset(off) && IsNumeralText(text)
    case CmpLoad(r, off) => false
    case JmpTo(target) => IsNameText(target)
    case JgeTo(target) => IsNameText(target)
    case JeTo(target) => false
    case CallTo(target) => false
    case PushReg(r) => true
    case PopReg(r) => true
    case Return => true
  }

  lemma InstructionWords()
    ensures IsWord("mov") && IsWord("add") && IsWord("sub") && IsWord("cmp") && IsWord("jmp") && IsWord("jge")
    ensures IsWord("push") && IsWord("pop") && IsWord("ret")
  {
  }

  lemma PlainFields(a: Asm)
    requires Assemblable(a)
    ensures IsPlainLine(Fields(a))
  {
    hide MemText, RegName, IsSlotOffset, IsWord;
    InstructionWords();
    match a {
      case LabelDef(name) => NamesAreWords(name);
      case MovText(r, text) => RegRead(r); NamesAreWords(text);
      case MovLoad(r, off) => RegRead(r); MemWord(off);
      case MovStore(off, r) => RegRead(r); MemWord(off);
      case MovReg(dst, src) => RegRead(dst); RegRead(src);
      case AddText(r, text) => RegRead(r); NamesAreWords(text);
      case SubText(r, text) => RegRead(r); NamesAreWords(text);
      case CmpText(off, text) => MemWord(off); NamesAreWords(text);
      case JmpTo(target) => NamesAreWords(target);
      case JgeTo(target) => NamesAreWords(target);
      case PushReg(r) => RegRead(r);
      case PopReg(r) => RegRead(r);
      case Return =>
    }
  }

  /** The mnemonic of an emitted instruction. */
  function AsmMnemonic(a: Asm): Mnemonic {
    match a
    case LabelDef(_) => OtherM
    case MovText(_, _) => MovM
    case MovLoad(_, _) => MovM
    case MovStore(_, _) => MovM
    case MovReg(_, _) => MovM
    case AddText(_, _) => AddM
    case SubText(_, _) => SubM
    case CmpText(_, _) => CmpM
    case CmpLoad(_, _) => CmpM
    case JmpTo(_) => JmpM
    case JgeTo(_) => JgeM
    case JeTo(_) => OtherM
    case CallTo(_) => CallM
    case PushReg(_) => PushM
    case PopReg(_) => PopM
    case Return => RetM
  }

  lemma LowerWords()
    ensures LowerCase("mov") == "mov" && LowerCase("add") == "add" && LowerCase("sub") == "sub"
    ensures LowerCase("cmp") == "cmp" && LowerCase("jmp") == "jmp" && LowerCase("jge") == "jge"
    ensures LowerCase("je") == "je" && LowerCase("call") == "call" && LowerCase("push") == "push"
    ensures LowerCase("pop") == "pop" && LowerCase("ret") == "ret"
  {
  }

  lemma MnemonicWords()
    ensures MnemonicOf("mov") == MovM && MnemonicOf("add") == AddM && MnemonicOf("sub") == SubM
    ensures MnemonicOf("cmp") == CmpM && MnemonicOf("jmp") == JmpM && MnemonicOf("jge") == JgeM
    ensures MnemonicOf("je") == OtherM && MnemonicOf("call") == CallM && MnemonicOf("push") == PushM
    ensures MnemonicOf("pop") == PopM && MnemonicOf("ret") == RetM
  {
    hide *;
    ArithmeticWords();
    JumpWords();
    StackWords();
  }

  lemma ArithmeticWords()
    ensures MnemonicOf("mov") == MovM && MnemonicOf("add") == AddM && MnemonicOf("sub") == SubM
            && MnemonicOf("cmp") == CmpM
  {
  }

  lemma JumpWords()
    ensures MnemonicOf("jmp") == JmpM && MnemonicOf("jge") == JgeM && MnemonicOf("je") == OtherM
            && MnemonicOf("call") == CallM
  {
  }

  lemma StackWords()
    ensures MnemonicOf("push") == PushM && MnemonicOf("pop") == PopM && MnemonicOf("ret") == RetM
  {
  }

  lemma ReadMnemonic(a: Asm)
    requires !a.LabelDef?
    ensures IsInstruction(Fields(a)) && LineMnemonic(Fields(a)) == AsmMnemonic(a)
  {
    hide MnemonicOf, LowerCase, MemText, RegName;
    LowerWords();
    MnemonicWords();
  }

  predicate IsData(a: Asm) {
    !a.LabelDef? && !a.JmpTo? && !a.JgeTo? && !a.JeTo? && !a.CallTo?
  }

  lemma NumeralUnresolved(text: string, names: Names)
    requires IsNumeralText(text) && NamesApart(names)
    ensures ImmOrAddress(text, names) == ParseImm(text)
  {
    assert forall k :: 0 <= k < |names.labels| ==> names.labels[k] in names.labels;
  }

  /** The assembler's meaning of an emitted data instruction is the compiler's. */
  lemma DataMeaning(a: Asm, address: nat, names: Names)
    requires Assemblable(a) && IsData(a) && NamesApart(names)
    ensures BothKnow(AsmMnemonic(a), Fields(a).arg1, Fields(a).arg2, names)
    ensures Denote(AsmMnemonic(a), Fields(a).arg1, Fields(a).arg2, address, names) == Lower(a)
  {
    match a {
      case MovText(r, text) => RegRead(r); PlainText(text); NumeralUnresolved(text, names);
      case MovLoad(r, off) => RegRead(r); MemRead(off); OperandKinds(MemText(off));
      case MovStore(off, r) => RegRead(r); MemRead(off); OperandKinds(MemText(off));
      case MovReg(dst, src) => RegRead(dst); RegRead(src);
      case AddText(r, text) => RegRead(r); PlainText(text);
      case SubText(r, text) => RegRead(r); PlainText(text);
      case CmpText(off, text) => MemRead(off); PlainText(text); OperandKinds(MemText(off));
      case PushReg(r) => RegRead(r);
      case PopReg(r) => RegRead(r);
      case Return =>
    }
  }
}
