/** Branches from the characters of a line to bytes, to their effect, and back to text. */
module BranchText {
  import opened Words
  import opened LibcText
  import opened X86
  import opened Encoding
  import opened Disassembler
  import opened EncodeDecode
  import opened AssemblyText
  import opened Passes
  import opened Addresses
  import opened CodeGenerator
  import opened AsmPrinting
  import opened AsmOperands
  import opened DisassemblyText

  const JUMPS: set<string> := {"jmp", "jne", "jle", "jge", "call"}

  /** When the branch with that word is taken after `a` has been compared with `b`. */
  predicate Taken(word: string, a: Word, b: Word) {
    if word == "je" then a == b
    else if word == "jne" then a != b
    else if word == "jle" then Signed(a) <= Signed(b)
    else if word == "jge" then Signed(a) >= Signed(b)
    else true
  }

  /** The opcode of the branch with that word. */
  function OpcodeOf(word: string): seq<Byte> {
    if word == "jne" then [0x0F, 0x85]
    else if word == "jle" then [0x0F, 0x8E]
    else if word == "jge" then [0x0F, 0x8D]
    else if word == "call" then [0xE8]
    else [0xE9]
  }

  /** Whether an instruction branches after `a` has been compared with `b`. */
  predicate Branches(i: Instr, a: Word, b: Word) {
    i.Jmp? || i.Call? || (i.Jcc? && Holds(i.cond, FlagsOf(Signed(a) - Signed(b))))
  }

  /** The instruction of that word: a call, or a jump under that word's condition. */
  ghost predicate IsBranchOf(i: Instr, word: string) {
    && (i.Call? <==> word == "call") && (i.Call? || i.Jmp? || i.Jcc?)
    && forall a, b :: Branches(i, a, b) <==> Taken(word, a, b)
  }

  // ---------- reading ----------

  lemma LetterWord(written: string)
    requires LowerCase(written) in JUMPS
    ensures IsWord(written) && |written| < INSTRUCTION_BUFFER && written != ""
  {
    var word := LowerCase(written);
    assert |written| == |word| <= 4;
    forall k | 0 <= k < |written|
      ensures IsAlpha(written[k])
    {
      assert word[k] == ToLower(written[k]);
    }
  }

  lemma JumpMnemonics()
    ensures MnemonicOf("jmp") == JmpM && MnemonicOf("jne") == JneM && MnemonicOf("jle") == JleM
    ensures MnemonicOf("jge") == JgeM && MnemonicOf("call") == CallM
  {
  }

  /** The line is read as that branch, in any letter case. */
  lemma BranchRead(written: string, name: string)
    requires LowerCase(written) in JUMPS && IsWord(name) && |name| < ARGUMENT_BUFFER
    ensures var l := ParseLine(written + " " + name);
            l == Line(false, "", written, name, "") && IsInstruction(l)
              && LineMnemonic(l) == MnemonicOf(LowerCase(written))
  {
    hide IsWord, ParseLine, MnemonicOf;
    LetterWord(written);
    ParseTwoWords(written, name);
    JumpMnemonics();
  }

  // ---------- bytes and meaning ----------

  lemma BranchBytes(l: Line, section: int, address: nat, names: Names)
    requires LowerCase(l.instruction) in JUMPS && l.arg1 != "" && !IsReg(l.arg1) && Resolved(l.arg1, names)
    ensures var opcode := OpcodeOf(LowerCase(l.instruction));
            LineBytes(l, section, address, names)
            == opcode + Le32(Displacement(l.arg1, address + |opcode| + 4, names))
  {
    hide MnemonicOf, Le32, Displacement, IsReg, Resolved;
    JumpMnemonics();
  }

  lemma OpcodeMeans(mem: seq<Byte>, p: nat, word: string, x: int)
    requires word in JUMPS && BytesAt(mem, p, OpcodeOf(word) + Le32(x))
    ensures var d := Decode(mem, p);
            d.len == |OpcodeOf(word)| + 4 && RelOf(d.instr) == Int32(x) && IsBranchOf(d.instr, word)
  {
    hide Le32, Dword, BytesAt, FlagsOf;
    DecodeRelative(mem, p, OpcodeOf(word), x);
    var d := Decode(mem, p);
    forall a, b
      ensures Branches(d.instr, a, b) <==> Taken(word, a, b)
    {
      ComparisonMeaning(a, b);
    }
  }

  /**
    * A branch over its characters: the line is read, assembled to that branch's opcode, and decoded as an instruction
    * that leads to the label exactly when the word says so.
    */
  lemma BranchLine(written: string, name: string, mem: seq<Byte>, p: nat, section: int, address: nat, names: Names)
    requires LowerCase(written) in JUMPS && IsWord(name) && |name| < ARGUMENT_BUFFER
    requires !IsReg(name) && Resolved(name, names)
    requires BytesAt(mem, p, LineBytes(ParseLine(written + " " + name), section, address, names))
    ensures var word, d := LowerCase(written), Decode(mem, p);
            && OpcodeOf(word) <= LineBytes(ParseLine(written + " " + name), section, address, names)
            && d.len == |OpcodeOf(word)| + 4 && IsBranchOf(d.instr, word)
            && RelOf(d.instr) == Int32(Displacement(name, address + d.len, names))
  {
    hide LineBytes, ParseLine, IsWord, Resolved, IsReg, Displacement, BytesAt, IsBranchOf;
    BranchRead(written, name);
    WordNotEmpty(name);
    BranchBytes(ParseLine(written + " " + name), section, address, names);
    OpcodeMeans(mem, p, LowerCase(written), Displacement(name, address + |OpcodeOf(LowerCase(written))| + 4, names));
  }

  lemma WordNotEmpty(w: string)
    requires IsWord(w)
    ensures w != ""
  {
  }

  // ---------- printing ----------

  function PrintedWord(i: Instr): string
    requires i.Jmp? || i.Jcc? || i.Call?
  {
    LineOf(i, 0).instruction
  }

  /** The printed word of a branch says when it is taken, and the printed number where it leads. */
  lemma BranchPrinted(mem: seq<Byte>, p: nat)
    requires var i := Decode(mem, p).instr; i.Jmp? || i.Jcc? || i.Call?
    ensures var d := Decode(mem, p);
            && IsBranchOf(d.instr, PrintedWord(d.instr))
            && RowAt(mem, p).text == PrintedWord(d.instr) + " " + HexOf(p + d.len + RelOf(d.instr))
  {
    hide HexOf, Decode, IsBranchOf, Stripped, CondName;
    var d := Decode(mem, p);
    PrintedMeans(d.instr);
    HexNotEmpty(p + d.len + RelOf(d.instr));
    TwoFields(LineOf(d.instr, p + d.len));
  }

  lemma PrintedMeans(i: Instr)
    requires i.Jmp? || i.Jcc? || i.Call?
    ensures IsBranchOf(i, PrintedWord(i))
  {
    hide HexOf, FlagsOf;
    forall a, b
      ensures Branches(i, a, b) <==> Taken(PrintedWord(i), a, b)
    {
      ComparisonMeaning(a, b);
    }
  }

  lemma TwoFields(l: Line)
    requires !l.isLabel && l.arg1 != "" && l.arg2 == ""
    ensures Stripped(l) == l.instruction + " " + l.arg1
  {
    assert ("\t" + l.instruction + " " + l.arg1)[1..] == l.instruction + " " + l.arg1;
  }

  lemma HexNotEmpty(v: int)
    ensures HexOf(v) != ""
  {
  }

  /** Taken on the same comparisons, and both calls or both not: the same word. */
  lemma SameWord(i: Instr, word: string, printed: string)
    requires word in JUMPS && printed in JUMPS + {"je"} && IsBranchOf(i, word) && IsBranchOf(i, printed)
    ensures word == printed
  {
    hide Branches;
    assert Taken(word, 0, 0) <==> Taken(printed, 0, 0);
    assert Taken(word, 0, 1) <==> Taken(printed, 0, 1);
    assert Taken(word, 1, 0) <==> Taken(printed, 1, 0);
  }

  lemma PrintedJump(i: Instr)
    requires i.Jmp? || i.Jcc? || i.Call?
    ensures PrintedWord(i) in JUMPS + {"je"}
  {
  }

  /**
    * A branch of a program, from its text and back: the row printed for its bytes is its word and the code address of
    * its label's line, which the assembler's number reader reads back.
    */
  lemma BranchRow(lines: seq<Line>, j: nat, k: nat, library: map<string, Word>, written: string, name: string)
    requires j < |lines| && lines[j] == ParseLine(written + " " + name)
    requires LowerCase(written) in JUMPS && IsWord(name) && |name| < ARGUMENT_BUFFER && !IsReg(name)
    requires Assembles(lines, NamesOf(lines, library)) && DefinedAt(lines, name, k)
    requires Pass1(lines[..j]).section == 0 && Pass1(lines[..k]).section == 0 && |Pass1(lines[..k]).labels| < MAX_LABELS
    ensures var names := NamesOf(lines, library);
            var target := CodeAddress(lines, k, names);
            && RowAt(Pass2(lines, names).code, CodeAddress(lines, j, names)).text
               == LowerCase(written) + " " + HexOf(target)
            && ParseImm(HexOf(target)) == target
  {
    assert k < |lines|;
    hide *;
    var names := NamesOf(lines, library);
    var code, a, word := Pass2(lines, names).code, CodeAddress(lines, j, names), LowerCase(written);
    BranchRead(written, name);
    WordNotEmpty(name);
    JumpIsBranch(lines[j]);
    BranchLands(lines, j, k, library);
    TargetAddress(lines, name, k, library);
    LineInCode(lines, j, names);
    BranchLine(written, name, code, a, 0, a, names);
    BranchPrinted(code, a);
    PrintedJump(Decode(code, a).instr);
    SameWord(Decode(code, a).instr, word, PrintedWord(Decode(code, a).instr));
    SmallHex(CodeAddress(lines, k, names));
  }

  lemma JumpIsBranch(l: Line)
    requires IsInstruction(l) && LowerCase(l.instruction) in JUMPS && !IsReg(l.arg1)
    ensures IsBranch(l)
  {
    hide MnemonicOf;
    JumpMnemonics();
  }

  lemma SmallHex(v: nat)
    requires v <= MAX_CODE
    ensures ParseImm(HexOf(v)) == v
  {
    HexRead(v, "");
    assert HexOf(v) + "" == HexOf(v);
  }

  // ---------- the compiler's branches ----------

  /** An emitted jump or call, read and assembled, decodes to what the compiler means by it. */
  lemma EmittedBranch(a: Asm, mem: seq<Byte>, p: nat, section: int, address: nat, names: Names)
    requires (a.JmpTo? || a.JgeTo? || a.CallTo?) && IsWord(a.target) && |a.target| < ARGUMENT_BUFFER
    requires !IsReg(a.target) && Resolved(a.target, names)
    requires BytesAt(mem, p, LineBytes(ParseLine(Stripped(Fields(a))), section, address, names))
    ensures var d := Decode(mem, p);
            && (d.instr.Call? <==> a.CallTo?) && RelOf(d.instr) == Int32(Displacement(a.target, address + d.len, names))
            && forall x, y :: Branches(d.instr, x, y) <==> (a.JgeTo? ==> Signed(x) >= Signed(y))
  {
    hide LineBytes, ParseLine, IsWord, Resolved, IsReg, Displacement, BytesAt, Branches, Stripped, LowerCase;
    WordNotEmpty(a.target);
    TwoFields(Fields(a));
    LowerWords();
    BranchLine(Fields(a).instruction, a.target, mem, p, section, address, names);
  }
}
