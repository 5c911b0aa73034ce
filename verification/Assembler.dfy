/** The assembler itself: section buffers, counters and the label table, updated by two passes over the text. */
module Assembler {
  import opened Words
  import opened LibcText
  import opened X86
  import opened Encoding
  import opened AssemblyText
  import opened Passes

  /** The buffers after emitting `bytes` into the current section. */
  function EmitTo(e: Emitted, bytes: seq<Byte>): Emitted {
    if e.section == 0 then Emitted(e.section, Append(e.code, bytes), e.data)
    else Emitted(e.section, e.code, Append(e.data, bytes))
  }

  lemma AppendTwice(buffer: seq<Byte>, a: seq<Byte>, b: seq<Byte>)
    requires |buffer| <= MAX_CODE
    ensures Append(Append(buffer, a), b) == Append(buffer, a + b)
  {
    if |buffer| + |a| <= MAX_CODE {
      assert buffer + a + b == buffer + (a + b);
      if |buffer| + |a| + |b| > MAX_CODE {
        assert buffer + a + b[..MAX_CODE - |buffer| - |a|] == buffer + (a + b)[..MAX_CODE - |buffer|];
      }
    } else {
      assert a[..MAX_CODE - |buffer|] == (a + b)[..MAX_CODE - |buffer|];
    }
  }

  /** Emitting piece by piece is emitting the whole, also when the buffer fills up. */
  lemma EmitTwice(e: Emitted, a: seq<Byte>, b: seq<Byte>)
    requires |e.code| <= MAX_CODE && |e.data| <= MAX_CODE
    ensures EmitTo(EmitTo(e, a), b) == EmitTo(e, a + b)
    ensures EmitTo(e, []) == e
  {
    AppendTwice(e.code, a, b);
    AppendTwice(e.data, a, b);
  }

  class Assembler {
    const library: map<string, Word>
    var labels: seq<Label>
    const code: array<Byte>
    var codeLength: nat
    const data: array<Byte>
    var dataLength: nat
    var codeAddress: nat
    var section: int
    var codeOffset: nat
    var dataOffset: nat
    var hasExternalLabel: bool

    ghost predicate Valid()
      reads this
    {
      && code.Length == MAX_CODE && data.Length == MAX_CODE && code != data
      && codeLength <= MAX_CODE && dataLength <= MAX_CODE && codeAddress == codeLength
    }

    /** The current section and the bytes emitted so far. */
    ghost function Output(): Emitted
      reads this, code, data
      requires Valid()
    {
      Emitted(section, code[..codeLength], data[..dataLength])
    }

    /** The counters and labels of the first pass. */
    ghost function FirstPassState(): Counts
      reads this
    {
      Counts(section, codeOffset, dataOffset, labels)
    }

    function CurrentNames(): Names
      reads this
    {
      Names(labels, codeOffset, library)
    }

    constructor (library: map<string, Word>)
      ensures Valid() && fresh(code) && fresh(data) && this.library == library
      ensures Output() == Emitted(0, [], []) && labels == [] && !hasExternalLabel
    {
      this.library := library;
      labels, section := [], 0;
      code := new Byte[MAX_CODE];
      data := new Byte[MAX_CODE];
      codeLength, dataLength, codeAddress, codeOffset, dataOffset := 0, 0, 0, 0, 0;
      hasExternalLabel := false;
    }

    // ---------- first pass ----------

    /** `findLabelIndex`. */
    method FindLabelIndex(name: string) returns (index: int)
      ensures index == FindLabel(labels, name)
    {
      index := 0;
      while index < |labels|
        invariant 0 <= index <= |labels|
        invariant forall k :: 0 <= k < index ==> labels[k].name != name
      {
        if labels[index].name == name { return; }
        index := index + 1;
      }
      index := -1;
    }

    method DefineLabel(name: string)
      modifies this`labels
      ensures labels == AddLabel(old(FirstPassState()), name)
    {
      var index := FindLabelIndex(name);
      if index == -1 && |labels| < MAX_LABELS {
        labels := labels + [Label(name, if section == 0 then codeOffset else dataOffset, section)];
      }
    }

    method Directive(arg: string)
      modifies this`section
      ensures section == if arg == ".data" then 1 else if arg == ".text" || arg == ".txt" then 0 else old(section)
    {
      if arg == ".data" {
        section := 1;
      } else if arg == ".text" || arg == ".txt" {
        section := 0;
      }
    }

    method FirstPassLine(l: Line)
      requires section == 0 || section == 1
      modifies this`labels, this`section, this`codeOffset, this`dataOffset
      ensures FirstPassState() == Step1(old(FirstPassState()), l)
    {
      hide AddLabel, InstructionSize, MnemonicOf;
      if l.isLabel {
        DefineLabel(l.name);
      }
      if l.instruction != "" {
        if LineMnemonic(l) == SectionM {
          Directive(l.arg1);
        } else {
          var size := InstructionSize(LineMnemonic(l), l.arg1, l.arg2);
          if section == 0 {
            codeOffset := codeOffset + size;
          } else if section == 1 {
            dataOffset := dataOffset + size;
          }
        }
      }
    }

    /** `firstPass`: labels and section sizes of the whole text. */
    method FirstPass(text: string)
      requires Valid() && labels == []
      modifies this`labels, this`section, this`codeOffset, this`dataOffset
      ensures FirstPassState() == Pass1(Lines(text))
      ensures Valid()
    {
      hide Step1, ParseLine, GetNextLine, Pass1, LinesFrom;
      LinesStart();
      section, codeOffset, dataOffset := 0, 0, 0;
      var i := 0;
      ghost var done: seq<Line> := [];
      var n := GetNextLineLoop(text, i);
      while n.NextLine?
        invariant i <= |text| && n == GetNextLine(text, i)
        invariant Lines(text) == done + LinesFrom(text, i)
        invariant FirstPassState() == Pass1(done)
        decreases |text| - i
      {
        var l := EMPTY_LINE;
        if n.line[0] != ';' && n.line[0] != '#' {
          l := ParseLineLoop(n.line);
        }
        FirstPassLine(l);
        LinesStep(text, i, done, l);
        done := done + [l];
        i := n.rest;
        n := GetNextLineLoop(text, i);
      }
      LinesEnd(text, i, done);
    }

    // ---------- emitting ----------

    method EmitByte(b: Byte)
      requires Valid()
      modifies this`codeLength, this`dataLength, this`codeAddress, code, data
      ensures Valid() && Output() == EmitTo(old(Output()), [b])
    {
      if section == 0 {
        if codeLength < MAX_CODE {
          code[codeLength] := b;
          codeLength := codeLength + 1;
          codeAddress := codeAddress + 1;
        }
      } else {
        if dataLength < MAX_CODE {
          data[dataLength] := b;
          dataLength := dataLength + 1;
        }
      }
      assert Output().code == EmitTo(old(Output()), [b]).code;
      assert Output().data == EmitTo(old(Output()), [b]).data;
    }

    /** Two bytes in a row. */
    method EmitPair(b0: Byte, b1: Byte)
      requires Valid()
      modifies this`codeLength, this`dataLength, this`codeAddress, code, data
      ensures Valid() && Output() == EmitTo(old(Output()), [b0, b1])
    {
      hide EmitTo;
      EmitTwice(Output(), [b0], [b1]);
      EmitByte(b0);
      EmitByte(b1);
      assert [b0] + [b1] == [b0, b1];
    }

    /** `emitDword`: four bytes, least significant first. */
    method EmitDword(x: int)
      requires Valid()
      modifies this`codeLength, this`dataLength, this`codeAddress, code, data
      ensures Valid() && Output() == EmitTo(old(Output()), Le32(x))
    {
      hide EmitTo;
      var w := Wrap(x);
      EmitTwice(Output(), [w % 0x100, w / 0x100 % 0x100], [w / 0x1_0000 % 0x100, w / 0x100_0000 % 0x100]);
      EmitPair(w % 0x100, w / 0x100 % 0x100);
      EmitPair(w / 0x1_0000 % 0x100, w / 0x100_0000 % 0x100);
      Le32Bytes(x);
    }

    method EmitImmediate(value: int)
      requires Valid()
      modifies this`codeLength, this`dataLength, this`codeAddress, code, data
      ensures Valid() && Output() == EmitTo(old(Output()), ImmediateBytes(value))
    {
      if ImmBytes(value) == 1 { EmitByte(LowByte(value)); } else { EmitDword(value); }
    }

    /** The ModR/M byte and displacement of a memory operand. */
    method EmitMemory(reg: Reg, s: string)
      requires Valid() && IsMem(s)
      modifies this`codeLength, this`dataLength, this`codeAddress, code, data
      ensures Valid() && Output() == EmitTo(old(Output()), MemBytes(reg, s))
    {
      hide EmitTo, IsMem, MemOffset, StartsWithName;
      var base, offset := MemBase(s), MemOffset(s);
      var dispBytes := DispBytes(offset, base);
      var mod := if dispBytes == 0 then 0 else if dispBytes == 1 then 1 else 2;
      var first := ModRm(mod, reg, base);
      if dispBytes == 0 {
        EmitByte(first);
      } else if dispBytes == 1 {
        EmitPair(first, LowByte(offset));
      } else {
        EmitTwice(Output(), [first], Le32(offset));
        EmitByte(first);
        EmitDword(offset);
      }
    }

    /** An opcode followed by a memory operand. */
    method EmitWithMemory(opcode: Byte, reg: Reg, s: string)
      requires Valid() && IsMem(s)
      modifies this`codeLength, this`dataLength, this`codeAddress, code, data
      ensures Valid() && Output() == EmitTo(old(Output()), [opcode] + MemBytes(reg, s))
    {
      hide EmitTo, MemBytes, IsMem;
      EmitTwice(Output(), [opcode], MemBytes(reg, s));
      EmitByte(opcode);
      EmitMemory(reg, s);
    }

    method EmitMemoryImmediate(opcode: Byte, reg: Reg, s: string, value: int)
      requires Valid() && IsMem(s)
      modifies this`codeLength, this`dataLength, this`codeAddress, code, data
      ensures Valid() && Output() == EmitTo(old(Output()), [opcode] + MemBytes(reg, s) + ImmediateBytes(value))
    {
      hide EmitTo, MemBytes, IsMem, ImmediateBytes;
      EmitTwice(Output(), [opcode] + MemBytes(reg, s), ImmediateBytes(value));
      EmitWithMemory(opcode, reg, s);
      EmitImmediate(value);
    }

    method EmitWithDword(opcode: Byte, x: int)
      requires Valid()
      modifies this`codeLength, this`dataLength, this`codeAddress, code, data
      ensures Valid() && Output() == EmitTo(old(Output()), [opcode] + Le32(x))
    {
      hide EmitTo;
      EmitTwice(Output(), [opcode], Le32(x));
      EmitByte(opcode);
      EmitDword(x);
    }

    // ---------- instructions ----------

    method EmitMov(arg1: string, arg2: string)
      requires Valid()
      modifies this`codeLength, this`dataLength, this`codeAddress, code, data
      ensures Valid() && Output() == EmitTo(old(Output()), EncodeMov(arg1, arg2, CurrentNames()))
    {
      hide EmitTo, MemBytes, IsMem, IsReg, RegIndex, ImmediateBytes, Le32;
      EmitTwice(Output(), [], []);
      if IsReg(arg1) {
        if IsReg(arg2) {
          EmitPair(0x89, ModRm(3, RegOf(arg2), RegOf(arg1)));
        } else if IsMem(arg2) {
          EmitWithMemory(0x8B, RegOf(arg1), arg2);
        } else {
          var value := AddressOrImmediate(arg2);
          EmitWithDword(0xB8 + RegOf(arg1), value);
        }
      } else if IsMem(arg1) {
        if IsReg(arg2) {
          EmitWithMemory(0x89, RegOf(arg2), arg1);
        } else {
          var value := ParseImmediateValue(arg2);
          EmitMemoryImmediate(if ImmBytes(value) == 1 then 0xC6 else 0xC7, 0, arg1, value);
        }
      }
    }

    method AddressOrImmediate(arg: string) returns (value: int)
      ensures value == ImmOrAddress(arg, CurrentNames())
    {
      value := ParseImmediateValue(arg);
      var index := FindLabelIndex(arg);
      if index != -1 {
        var base := if labels[index].section == 0 then CODE_BASE else CODE_BASE + PageRound(codeOffset);
        value := labels[index].address + base;
      } else if LibraryAddress(CurrentNames(), arg) != 0 {
        value := LibraryAddress(CurrentNames(), arg);
      }
    }

    method EmitRegisterImmediate(ext: Reg, r: Reg, value: int)
      requires Valid()
      modifies this`codeLength, this`dataLength, this`codeAddress, code, data
      ensures Valid()
      ensures Output()
              == EmitTo(old(Output()),
                [if ImmBytes(value) == 1 then 0x83 else 0x81] + [ModRm(3, ext, r)] + ImmediateBytes(value))
    {
      hide EmitTo, ImmediateBytes;
      var opcode: Byte := if ImmBytes(value) == 1 then 0x83 else 0x81;
      EmitTwice(Output(), [opcode, ModRm(3, ext, r)], ImmediateBytes(value));
      EmitPair(opcode, ModRm(3, ext, r));
      EmitImmediate(value);
      assert [opcode] + [ModRm(3, ext, r)] == [opcode, ModRm(3, ext, r)];
    }

    /** The 0x83/0x81 forms of `add`, `sub` and `cmp`. */
    method EmitGroup(ext: Reg, arg1: string, value: int)
      requires Valid() && (IsReg(arg1) || IsMem(arg1))
      modifies this`codeLength, this`dataLength, this`codeAddress, code, data
      ensures Valid() && Output() == EmitTo(old(Output()), EncodeImm(ext, arg1, value))
    {
      hide EmitTo, MemBytes, IsMem, IsReg, RegIndex, ImmediateBytes, ModRm;
      if IsReg(arg1) {
        EmitRegisterImmediate(ext, RegOf(arg1), value);
      } else {
        EmitMemoryImmediate(if ImmBytes(value) == 1 then 0x83 else 0x81, ext, arg1, value);
      }
    }

    method EmitAddSub(regOpcode: Byte, loadOpcode: Byte, ext: Reg, arg1: string, arg2: string)
      requires Valid()
      modifies this`codeLength, this`dataLength, this`codeAddress, code, data
      ensures Valid() && Output() == EmitTo(old(Output()), EncodeAddSub(regOpcode, loadOpcode, ext, arg1, arg2))
    {
      hide EmitTo, MemBytes, IsMem, IsReg, RegIndex, ImmediateBytes, EncodeImm, ModRm;
      EmitTwice(Output(), [], []);
      if IsReg(arg1) && IsReg(arg2) {
        EmitPair(regOpcode, ModRm(3, RegOf(arg2), RegOf(arg1)));
      } else if IsReg(arg1) && IsMem(arg2) {
        EmitWithMemory(loadOpcode, RegOf(arg1), arg2);
      } else if IsReg(arg1) || IsMem(arg1) {
        var value := ParseImmediateValue(arg2);
        EmitGroup(ext, arg1, value);
      }
    }

    method EmitCompare(arg1: string, arg2: string)
      requires Valid()
      modifies this`codeLength, this`dataLength, this`codeAddress, code, data
      ensures Valid() && Output() == EmitTo(old(Output()), EncodeCmp(arg1, arg2))
    {
      hide EmitTo, MemBytes, IsMem, IsReg, RegIndex, ImmediateBytes, EncodeImm, ModRm;
      EmitTwice(Output(), [], []);
      if IsReg(arg1) && IsReg(arg2) {
        EmitPair(0x39, ModRm(3, RegOf(arg2), RegOf(arg1)));
      } else if IsReg(arg1) || IsMem(arg1) {
        var value := ParseImmediateValue(arg2);
        EmitGroup(7, arg1, value);
      }
    }

    /** `jmp` (one opcode byte) to a label. */
    method EmitJump(opcode: Byte, target: string)
      requires Valid()
      modifies this`codeLength, this`dataLength, this`codeAddress, code, data
      ensures Valid()
              && Output() == EmitTo(old(Output()), EncodeBranch([opcode], target, old(codeLength), CurrentNames()))
    {
      hide EmitTo, Le32;
      EmitTwice(Output(), [], []);
      var index := FindLabelIndex(target);
      if index != -1 {
        var offset: int := labels[index].address - (codeAddress + 5);
        EmitWithDword(opcode, offset);
      }
    }

    /** `jne`, `jle`, `jge` (two opcode bytes) to a label. */
    method EmitConditional(second: Byte, target: string)
      requires Valid()
      modifies this`codeLength, this`dataLength, this`codeAddress, code, data
      ensures Valid()
              && Output()
                 == EmitTo(old(Output()), EncodeBranch([0x0F, second], target, old(codeLength), CurrentNames()))
    {
      hide EmitTo, Le32;
      EmitTwice(Output(), [], []);
      var index := FindLabelIndex(target);
      if index != -1 {
        var offset: int := labels[index].address - (codeAddress + 6);
        EmitTwice(Output(), [0x0F, second], Le32(offset));
        EmitPair(0x0F, second);
        EmitDword(offset);
      }
    }

    method EmitCall(target: string)
      requires Valid()
      modifies this`codeLength, this`dataLength, this`codeAddress, this`hasExternalLabel, code, data
      ensures Valid() && Output() == EmitTo(old(Output()), EncodeCall(target, old(codeLength), CurrentNames()))
      ensures hasExternalLabel == (old(hasExternalLabel) || (!IsReg(target) && FindLabel(labels, target) == -1))
    {
      hide EmitTo, Le32, IsReg, RegIndex, ModRm;
      EmitTwice(Output(), [], []);
      if IsReg(target) {
        EmitPair(0xFF, ModRm(3, 2, RegOf(target)));
      } else {
        var index := FindLabelIndex(target);
        if index != -1 {
          EmitJump(0xE8, target);
        } else {
          hasExternalLabel := true;
          var address := LibraryAddress(CurrentNames(), target);
          if address != 0 {
            EmitWithDword(0xE8, address - (CODE_BASE + codeAddress + 5));
          }
        }
      }
    }

    /** The characters of a quoted string, then a zero byte. */
    method EmitString(arg: string)
      requires Valid()
      modifies this`codeLength, this`dataLength, this`codeAddress, code, data
      ensures Valid() && Output() == EmitTo(old(Output()), EncodeDb(arg))
    {
      hide EmitTo;
      ghost var before := Output();
      ghost var done: seq<Byte> := [];
      EmitTwice(before, [], []);
      if arg != "" && arg[0] == '\'' {
        var p := 1;
        while p < |arg| && arg[p] != '\''
          invariant Valid() && 1 <= p <= |arg|
          invariant done + QuotedBytes(arg[p..]) == QuotedBytes(arg[1..])
          invariant Output() == EmitTo(before, done)
          decreases |arg| - p
        {
          QuotedStep(arg, p);
          EmitTwice(before, done, [LowByte(arg[p] as int)]);
          EmitByte(LowByte(arg[p] as int));
          done := done + [LowByte(arg[p] as int)];
          p := p + 1;
        }
        assert QuotedBytes(arg[p..]) == [];
        assert done + [] == done;
        EmitTwice(before, done, [0]);
        EmitByte(0);
      }
    }

    method EmitSimple(m: Mnemonic, arg1: string)
      requires Valid()
      requires m.IntM? || m.PushaM? || m.PopaM? || m.PushM? || m.PopM? || m.RetM? || m.SectionM? || m.OtherM?
      modifies this`codeLength, this`dataLength, this`codeAddress, code, data
      ensures Valid()
              && Output() == EmitTo(old(Output()), Encode(m, arg1, "", section, old(codeLength), CurrentNames()))
    {
      hide EmitTo, IsReg, RegIndex, ParseImm, LowByte;
      EmitTwice(Output(), [], []);
      match m {
        case IntM =>
          if arg1 != "" {
            var value := ParseImmediateValue(arg1);
            EmitPair(0xCD, LowByte(value));
          }
        case PushaM => EmitByte(0x60);
        case PopaM => EmitByte(0x61);
        case PushM => if IsReg(arg1) { EmitByte(0x50 + RegOf(arg1)); }
        case PopM => if IsReg(arg1) { EmitByte(0x58 + RegOf(arg1)); }
        case RetM => EmitByte(0xC3);
        case _ =>
      }
    }

    method EmitData(m: Mnemonic, arg1: string, arg2: string)
      requires Valid()
      requires m.DbM? || m.MovM? || m.AddM? || m.SubM? || m.CmpM?
      modifies this`codeLength, this`dataLength, this`codeAddress, code, data
      ensures Valid()
              && Output() == EmitTo(old(Output()), Encode(m, arg1, arg2, section, old(codeLength), CurrentNames()))
    {
      hide EmitTo, EncodeMov, EncodeAddSub, EncodeCmp, EncodeDb;
      EmitTwice(Output(), [], []);
      match m {
        case DbM => if section == 1 { EmitString(arg1); }
        case MovM => if arg1 != "" && arg2 != "" { EmitMov(arg1, arg2); }
        case AddM => if arg1 != "" && arg2 != "" { EmitAddSub(0x01, 0x03, 0, arg1, arg2); }
        case SubM => if arg1 != "" && arg2 != "" { EmitAddSub(0x29, 0x2B, 5, arg1, arg2); }
        case CmpM => if arg1 != "" && arg2 != "" { EmitCompare(arg1, arg2); }
      }
    }

    method EmitTransfer(m: Mnemonic, arg1: string, arg2: string)
      requires Valid()
      requires m.JmpM? || m.JneM? || m.JleM? || m.JgeM? || m.CallM?
      modifies this`codeLength, this`dataLength, this`codeAddress, this`hasExternalLabel, code, data
      ensures Valid()
              && Output() == EmitTo(old(Output()), Encode(m, arg1, arg2, section, old(codeLength), CurrentNames()))
      ensures hasExternalLabel
              == (old(hasExternalLabel) || (m.CallM? && arg1 != "" && !IsReg(arg1) && FindLabel(labels, arg1) == -1))
    {
      hide EmitTo, EncodeBranch, EncodeCall, IsReg;
      EmitTwice(Output(), [], []);
      if arg1 != "" {
        match m {
          case JmpM => EmitJump(0xE9, arg1);
          case JneM => EmitConditional(0x85, arg1);
          case JleM => EmitConditional(0x8E, arg1);
          case JgeM => EmitConditional(0x8D, arg1);
          case CallM => EmitCall(arg1);
        }
      }
    }

    method SecondPassLine(l: Line)
      requires Valid()
      modifies this`codeLength, this`dataLength, this`codeAddress, this`hasExternalLabel, this`section, code, data
      ensures Valid() && Output() == Step2(old(Output()), l, CurrentNames())
      ensures hasExternalLabel == (old(hasExternalLabel) || IsExternalCall(l, labels))
    {
      hide Encode, MnemonicOf, FindLabel, IsReg, Append;
      if l.instruction != "" {
        var m := LineMnemonic(l);
        match m {
          case SectionM => Directive(l.arg1);
          case JmpM => EmitTransfer(m, l.arg1, l.arg2);
          case JneM => EmitTransfer(m, l.arg1, l.arg2);
          case JleM => EmitTransfer(m, l.arg1, l.arg2);
          case JgeM => EmitTransfer(m, l.arg1, l.arg2);
          case CallM => EmitTransfer(m, l.arg1, l.arg2);
          case DbM => EmitData(m, l.arg1, l.arg2);
          case MovM => EmitData(m, l.arg1, l.arg2);
          case AddM => EmitData(m, l.arg1, l.arg2);
          case SubM => EmitData(m, l.arg1, l.arg2);
          case CmpM => EmitData(m, l.arg1, l.arg2);
          case _ => EmitSimple(m, l.arg1);
            SimpleIgnoresSecond(m, l.arg1, l.arg2, section, old(codeLength), CurrentNames());
        }
      }
    }

    /** `secondPass`: the bytes of both sections. */
    method SecondPass(text: string)
      requires Valid() && codeLength == 0 && dataLength == 0
      modifies this`codeLength, this`dataLength, this`codeAddress, this`hasExternalLabel, this`section, code, data
      ensures Valid() && Output() == Pass2(Lines(text), CurrentNames())
      ensures hasExternalLabel <==> old(hasExternalLabel) || exists l :: l in Lines(text) && IsExternalCall(l, labels)
    {
      hide Step2, ParseLine, IsExternalCall, GetNextLine, Pass2, LinesFrom;
      LinesStart();
      section := 0;
      var i := 0;
      ghost var done: seq<Line> := [];
      var n := GetNextLineLoop(text, i);
      while n.NextLine?
        invariant Valid()
        invariant i <= |text| && n == GetNextLine(text, i)
        invariant Lines(text) == done + LinesFrom(text, i)
        invariant Output() == Pass2(done, CurrentNames())
        invariant hasExternalLabel <==> old(hasExternalLabel) || exists l :: l in done && IsExternalCall(l, labels)
        decreases |text| - i
      {
        var l := EMPTY_LINE;
        if n.line[0] != ';' && n.line[0] != '#' {
          l := ParseLineLoop(n.line);
        }
        SecondPassLine(l);
        LinesStep(text, i, done, l);
        done := done + [l];
        i := n.rest;
        n := GetNextLineLoop(text, i);
      }
      LinesEnd(text, i, done);
    }

    /** Both passes, as the program runs them. */
    method Assemble(text: string)
      requires Valid() && labels == [] && codeLength == 0 && dataLength == 0
      modifies this, code, data
      ensures Valid()
      ensures labels == Pass1(Lines(text)).labels
      ensures Output() == Pass2(Lines(text), NamesOf(Lines(text), library))
      ensures hasExternalLabel <==> old(hasExternalLabel) || CallsLibrary(Lines(text))
    {
      hide Pass1, Pass2, IsExternalCall;
      FirstPass(text);
      SecondPass(text);
    }
  }

  lemma LinesStart()
    ensures Pass1([]) == Counts(0, 0, 0, [])
    ensures forall names :: Pass2([], names) == Emitted(0, [], [])
  {
  }

  lemma LinesEnd(text: string, i: nat, done: seq<Line>)
    requires i <= |text| && GetNextLine(text, i).NoLine?
    ensures done + LinesFrom(text, i) == done
  {
  }

  lemma LinesStep(text: string, i: nat, done: seq<Line>, l: Line)
    requires i <= |text| && GetNextLine(text, i).NextLine?
    requires var n := GetNextLine(text, i); l == if IsComment(n.line) then EMPTY_LINE else ParseLine(n.line)
    ensures done + LinesFrom(text, i) == done + [l] + LinesFrom(text, GetNextLine(text, i).rest)
    ensures Pass1(done + [l]) == Step1(Pass1(done), l)
    ensures forall names :: Pass2(done + [l], names) == Step2(Pass2(done, names), l, names)
  {
    hide ParseLine, Step1, Step2, GetNextLine;
    assert (done + [l])[..|done|] == done;
  }

  lemma Le32Bytes(x: int)
    ensures var w := Wrap(x);
            Le32(x) == [w % 0x100, w / 0x100 % 0x100] + [w / 0x1_0000 % 0x100, w / 0x100_0000 % 0x100]
  {
    var w := Wrap(x);
    var s := LittleEndian(w, 4);
    assert s[1..] == LittleEndian(w / 0x100, 3);
    assert s[1..][1..] == LittleEndian(w / 0x100 / 0x100, 2);
    assert s[1..][1..][1..] == LittleEndian(w / 0x100 / 0x100 / 0x100, 1);
    assert w / 0x100 / 0x100 == w / 0x1_0000;
    assert w / 0x100 / 0x100 / 0x100 == w / 0x100_0000;
  }

  lemma QuotedStep(arg: string, p: nat)
    requires p < |arg| && arg[p] != '\''
    ensures QuotedBytes(arg[p..]) == [LowByte(arg[p] as int)] + QuotedBytes(arg[p + 1..])
  {
    assert arg[p..][1..] == arg[p + 1..];
  }

  lemma SimpleIgnoresSecond(m: Mnemonic, arg1: string, arg2: string, section: int, address: nat, names: Names)
    requires m.IntM? || m.PushaM? || m.PopaM? || m.PushM? || m.PopM? || m.RetM? || m.SectionM? || m.OtherM?
    ensures Encode(m, arg1, arg2, section, address, names) == Encode(m, arg1, "", section, address, names)
  {
  }
}
