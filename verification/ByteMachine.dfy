/** A machine that fetches and decodes code bytes, and its agreement with the machine over emitted instructions. */
module ByteMachine {
  import opened Words
  import opened X86
  import opened Encoding
  import opened Disassembler
  import opened EncodeDecode
  import opened CodeGenerator
  import opened AsmMachine
  import opened AsmPrinting
  import opened AsmOperands
  import opened AssemblyText
  import opened Passes
  import opened Addresses

  /** An instruction pointer (relative to the start of the code) and the rest of the machine. */
  datatype ByteConfig = ByteConfig(ip: nat, s: State)

  function Branch(c: ByteConfig, target: int): ByteConfig {
    if target >= 0 then c.(ip := target) else c
  }

  /** One fetch, decode and execute; `ret`, calls and interrupts stop the machine. */
  function ByteStep(mem: seq<Byte>, c: ByteConfig): ByteConfig {
    var d := Decode(mem, c.ip);
    var next := c.ip + d.len;
    match d.instr
    case Jmp(rel) => Branch(c, next + rel)
    case Jcc(cond, rel) => if Holds(cond, c.s.flags) then Branch(c, next + rel) else c.(ip := next)
    case data =>
      var after := Execute(data, c.s);
      if after.Some? then ByteConfig(next, after.value) else c
  }

  function ByteRun(mem: seq<Byte>, n: nat, c: ByteConfig): ByteConfig
    decreases n
  {
    if n == 0 then c else ByteRun(mem, n - 1, ByteStep(mem, c))
  }

  ghost predicate ByteReaches(mem: seq<Byte>, c: ByteConfig, d: ByteConfig) {
    exists n: nat :: ByteRun(mem, n, c) == d
  }

  lemma {:induction false} ByteRunSplit(mem: seq<Byte>, m: nat, n: nat, c: ByteConfig)
    ensures ByteRun(mem, m + n, c) == ByteRun(mem, n, ByteRun(mem, m, c))
    decreases m
  {
    hide ByteStep;
    if m > 0 { ByteRunSplit(mem, m - 1, n, ByteStep(mem, c)); }
  }

  lemma ByteReachesTrans(mem: seq<Byte>, c: ByteConfig, d: ByteConfig, e: ByteConfig)
    requires ByteReaches(mem, c, d) && ByteReaches(mem, d, e)
    ensures ByteReaches(mem, c, e)
  {
    var m: nat :| ByteRun(mem, m, c) == d;
    var n: nat :| ByteRun(mem, n, d) == e;
    ByteRunSplit(mem, m, n, c);
  }

  lemma ByteReachesStep(mem: seq<Byte>, c: ByteConfig)
    ensures ByteReaches(mem, c, c) && ByteReaches(mem, c, ByteStep(mem, c))
  {
    assert ByteRun(mem, 0, c) == c;
    assert ByteRun(mem, 1, c) == ByteRun(mem, 0, ByteStep(mem, c));
  }

  // ---------- emitted code inside a program ----------

  predicate IsJump(a: Asm) {
    a.JmpTo? || a.JgeTo?
  }

  /** Every branch target is defined in the code itself. */
  predicate TargetsDefined(code: seq<Asm>) {
    forall a :: a in code && IsJump(a) ==> LabelDef(a.target) in code
  }

  function SectionAt(lines: seq<Line>, k: nat): int
    requires k <= |lines|
  {
    Pass1(lines[..k]).section
  }

  /** The label definitions of a program. */
  function LabelLines(lines: seq<Line>): nat {
    if lines == [] then 0
    else LabelLines(lines[..|lines| - 1]) + (if lines[|lines| - 1].isLabel then 1 else 0)
  }

  /** The emitted code stands at lines `k0`.., in the code section, and nothing before it uses its labels. */
  ghost predicate Placed(lines: seq<Line>, k0: nat, code: seq<Asm>) {
    && k0 + |code| <= |lines|
    && (forall i :: 0 <= i < |code| ==> lines[k0 + i] == Fields(code[i]))
    && (forall k :: k0 <= k <= k0 + |code| ==> SectionAt(lines, k) == 0)
          && (forall i, j :: 0 <= i < k0 && 0 <= j < |code| && lines[i].isLabel && code[j].LabelDef?
                ==> lines[i].name != code[j].name)
    && LabelLines(lines) <= MAX_LABELS
    && UniqueLabels(code) && TargetsDefined(code)
    && (forall a :: a in code ==> Assemblable(a))
  }

  /** Such code in a program that assembles. */
  ghost predicate Embedded(lines: seq<Line>, k0: nat, code: seq<Asm>, library: map<string, Word>) {
    && Placed(lines, k0, code)
    && Assembles(lines, NamesOf(lines, library))
    && NamesApart(NamesOf(lines, library))
  }

  lemma {:induction false} LabelCount(lines: seq<Line>)
    ensures |Pass1(lines).labels| <= LabelLines(lines)
  {
    if lines != [] { LabelCount(lines[..|lines| - 1]); }
  }

  lemma {:induction false} LabelsBefore(lines: seq<Line>, k: nat)
    requires k < |lines| && lines[k].isLabel
    ensures LabelLines(lines[..k]) < LabelLines(lines)
  {
    var n := |lines| - 1;
    if k < n {
      assert lines[..n][..k] == lines[..k];
      LabelsBefore(lines[..n], k);
    }
  }

  lemma LabelFields(a: Asm)
    ensures Fields(a).isLabel <==> a.LabelDef?
    ensures a.LabelDef? ==> Fields(a).name == a.name
  {
    hide MemText, RegName;
  }

  lemma CodeLabelAt(lines: seq<Line>, k0: nat, code: seq<Asm>, i: nat)
    requires Placed(lines, k0, code)
    requires i < |code| && code[i].LabelDef?
    ensures DefinedAt(lines, code[i].name, k0 + i)
    ensures |Pass1(lines[..k0 + i]).labels| < MAX_LABELS
  {
    hide Fields, Pass1, Assemblable, TargetsDefined, SectionAt;
    LabelCount(lines[..k0 + i]);
    LabelFields(code[i]);
    assert lines[k0 + i] == Fields(code[i]);
    LabelsBefore(lines, k0 + i);
    forall j | 0 <= j < k0 + i
      ensures !(lines[j].isLabel && lines[j].name == code[i].name)
    {
      if j >= k0 {
        assert lines[k0 + (j - k0)] == Fields(code[j - k0]);
        LabelFields(code[j - k0]);
      }
    }
  }

  function AddressOf(lines: seq<Line>, k0: nat, i: nat, library: map<string, Word>): nat
    requires k0 + i <= |lines|
  {
    CodeAddress(lines, k0 + i, NamesOf(lines, library))
  }

  /** The same machine state, at the address of the same instruction. */
  ghost predicate Same(lines: seq<Line>, k0: nat, code: seq<Asm>, library: map<string, Word>, c: Config,
                       b: ByteConfig) {
    c.pc <= |code| && k0 + |code| <= |lines| && b.s == c.s && b.ip == AddressOf(lines, k0, c.pc, library)
  }

  lemma LabelNoBytes(lines: seq<Line>, k0: nat, code: seq<Asm>, library: map<string, Word>, i: nat)
    requires Embedded(lines, k0, code, library)
    requires i < |code| && code[i].LabelDef?
    ensures AddressOf(lines, k0, i + 1, library) == AddressOf(lines, k0, i, library)
  {
    assert lines[k0 + i] == Fields(code[i]);
    NoBytesNoMove(lines, k0 + i, NamesOf(lines, library));
  }

  lemma DataDecoded(lines: seq<Line>, k0: nat, code: seq<Asm>, library: map<string, Word>, i: nat)
    requires Embedded(lines, k0, code, library)
    requires i < |code| && IsData(code[i])
    ensures var names := NamesOf(lines, library);
            var d := Decode(Pass2(lines, names).code, AddressOf(lines, k0, i, library));
            && d.instr == Lower(code[i])
            && AddressOf(lines, k0, i + 1, library) == AddressOf(lines, k0, i, library) + d.len
  {
    hide *;
    var names := NamesOf(lines, library);
    EmbeddedAt(lines, k0, code, library, i);
    ReadMnemonic(code[i]);
    DataMeaning(code[i], AddressOf(lines, k0, i, library), names);
    DataLineKnown(code[i], names);
    DecodeLine(lines, k0 + i, names);
    DataLineMeaning(code[i], AddressOf(lines, k0, i, library), names);
    AddressUnfold(lines, k0, i, library);
    AddressUnfold(lines, k0, i + 1, library);
  }

  lemma AddressUnfold(lines: seq<Line>, k0: nat, i: nat, library: map<string, Word>)
    requires k0 + i <= |lines|
    ensures AddressOf(lines, k0, i, library) == CodeAddress(lines, k0 + i, NamesOf(lines, library))
  {
  }

  lemma EmbeddedAt(lines: seq<Line>, k0: nat, code: seq<Asm>, library: map<string, Word>, i: nat)
    requires Embedded(lines, k0, code, library)
    requires i < |code|
    ensures k0 + i < |lines| && lines[k0 + i] == Fields(code[i]) && Pass1(lines[..k0 + i]).section == 0
    ensures Assemblable(code[i]) && NamesApart(NamesOf(lines, library)) && Assembles(lines, NamesOf(lines, library))
    ensures IsData(code[i]) ==> !code[i].LabelDef?
  {
    hide Fields, Pass1, Assembles, NamesApart, Assemblable, TargetsDefined, UniqueLabels;
    assert code[i] in code;
    assert SectionAt(lines, k0 + i) == 0;
  }

  lemma DataLineKnown(a: Asm, names: Names)
    requires IsData(a) && BothKnow(AsmMnemonic(a), Fields(a).arg1, Fields(a).arg2, names)
    requires IsInstruction(Fields(a)) && LineMnemonic(Fields(a)) == AsmMnemonic(a)
    ensures LineKnown(Fields(a), names)
  {
  }

  lemma DataLineMeaning(a: Asm, address: nat, names: Names)
    requires IsData(a) && LineKnown(Fields(a), names) && LineMnemonic(Fields(a)) == AsmMnemonic(a)
    requires BothKnow(AsmMnemonic(a), Fields(a).arg1, Fields(a).arg2, names)
    requires Denote(AsmMnemonic(a), Fields(a).arg1, Fields(a).arg2, address, names) == Lower(a)
    ensures LineMeaning(Fields(a), address, names) == Lower(a)
  {
  }

  // ---------- simulation ----------

  lemma JumpFields(a: Asm)
    requires IsJump(a) && Assemblable(a)
    ensures IsBranch(Fields(a)) && Fields(a).arg1 == a.target && a.target != ""
    ensures LineMnemonic(Fields(a)) == if a.JmpTo? then JmpM else JgeM
  {
    ReadMnemonic(a);
  }

  lemma JumpKind(a: Asm, address: nat, names: Names)
    requires IsJump(a) && Assemblable(a) && Resolved(a.target, names)
    ensures LineKnown(Fields(a), names)
    ensures var i := LineMeaning(Fields(a), address, names);
            if a.JmpTo? then i.Jmp? else i.Jcc? && i.cond == GreaterEqual
  {
    JumpFields(a);
  }

  lemma JumpCases(a: Asm)
    requires IsJump(a)
    ensures a.JmpTo? || a.JgeTo?
  {
  }

  lemma TargetIndex(code: seq<Asm>, a: Asm)
    requires a in code && IsJump(a) && TargetsDefined(code)
    ensures Definition(code, a.target) < |code| && code[Definition(code, a.target)] == LabelDef(a.target)
  {
    assert LabelDef(a.target) in code;
  }

  /** At the address of an emitted branch the decoder finds that branch, and it leads to the label's address. */
  lemma JumpDecoded(lines: seq<Line>, k0: nat, code: seq<Asm>, library: map<string, Word>, i: nat)
    requires Embedded(lines, k0, code, library)
    requires i < |code| && IsJump(code[i])
    ensures var d := Decode(Pass2(lines, NamesOf(lines, library)).code, AddressOf(lines, k0, i, library));
            var target := Definition(code, code[i].target);
            && target < |code|
            && (if code[i].JmpTo? then d.instr.Jmp? else d.instr.Jcc? && d.instr.cond == GreaterEqual)
            && AddressOf(lines, k0, i + 1, library) == AddressOf(lines, k0, i, library) + d.len
            && AddressOf(lines, k0, i, library) + d.len + RelOf(d.instr) == AddressOf(lines, k0, target, library)
  {
    hide *;
    var names := NamesOf(lines, library);
    EmbeddedAt(lines, k0, code, library, i);
    JumpFields(code[i]);
    JumpCases(code[i]);
    var target := JumpTarget(lines, k0, code, library, i);
    BranchLands(lines, k0 + i, k0 + target, library);
    JumpResolved(lines, k0, code[i].target, target, library);
    JumpKind(code[i], AddressOf(lines, k0, i, library), names);
    DecodeLine(lines, k0 + i, names);
    AddressUnfold(lines, k0, i, library);
    AddressUnfold(lines, k0, i + 1, library);
    AddressUnfold(lines, k0, target, library);
  }

  lemma JumpResolved(lines: seq<Line>, k0: nat, name: string, target: nat, library: map<string, Word>)
    requires Assembles(lines, NamesOf(lines, library))
    requires DefinedAt(lines, name, k0 + target) && Pass1(lines[..k0 + target]).section == 0
    requires |Pass1(lines[..k0 + target]).labels| < MAX_LABELS
    ensures Resolved(name, NamesOf(lines, library))
  {
    hide *;
    TargetAddress(lines, name, k0 + target, library);
  }

  lemma JumpTarget(lines: seq<Line>, k0: nat, code: seq<Asm>, library: map<string, Word>, i: nat) returns (target: nat)
    requires Embedded(lines, k0, code, library)
    requires i < |code| && IsJump(code[i])
    ensures target == Definition(code, code[i].target) < |code|
    ensures k0 + target < |lines| && DefinedAt(lines, code[i].target, k0 + target)
    ensures Pass1(lines[..k0 + target]).section == 0 && |Pass1(lines[..k0 + target]).labels| < MAX_LABELS
  {
    hide *;
    EmbeddedCode(lines, k0, code, library);
    JumpCases(code[i]);
    target := Definition(code, code[i].target);
    InCode(code, i);
    TargetIndex(code, code[i]);
    CodeLabelAt(lines, k0, code, target);
    EmbeddedAt(lines, k0, code, library, target);
  }

  lemma InCode(code: seq<Asm>, i: nat)
    requires i < |code|
    ensures code[i] in code
  {
  }

  lemma EmbeddedCode(lines: seq<Line>, k0: nat, code: seq<Asm>, library: map<string, Word>)
    requires Embedded(lines, k0, code, library)
    ensures TargetsDefined(code) && k0 + |code| <= |lines| && Placed(lines, k0, code)
  {
    hide Pass1, Assembles, Fields, NamesApart, UniqueLabels;
  }

  /** The bytes of the program. */
  function CodeBytes(lines: seq<Line>, library: map<string, Word>): seq<Byte> {
    Pass2(lines, NamesOf(lines, library)).code
  }

  lemma DataStep(code: seq<Asm>, mem: seq<Byte>, c: Config, b: ByteConfig)
    requires c.pc < |code| && IsData(code[c.pc]) && b.s == c.s
    requires Decode(mem, b.ip).instr == Lower(code[c.pc])
    ensures var next := b.ip + Decode(mem, b.ip).len;
            if Execute(Lower(code[c.pc]), c.s).Some? then
              && Step(code, c) == Config(c.pc + 1, Execute(Lower(code[c.pc]), c.s).value)
              && ByteStep(mem, b) == ByteConfig(next, Step(code, c).s)
            else Step(code, c) == c
  {
    hide Decode, Operate, Write, Read, ExecutePush, ExecutePop, Holds;
  }

  lemma JumpSteps(code: seq<Asm>, mem: seq<Byte>, c: Config, b: ByteConfig, address: nat)
    requires c.pc < |code| && IsJump(code[c.pc]) && b.s == c.s
    requires Definition(code, code[c.pc].target) < |code|
    requires var d := Decode(mem, b.ip);
             && (if code[c.pc].JmpTo? then d.instr.Jmp? else d.instr.Jcc? && d.instr.cond == GreaterEqual)
             && b.ip + d.len + RelOf(d.instr) == address
    ensures Step(code, c).s == c.s && ByteStep(mem, b).s == c.s
    ensures var jumps := code[c.pc].JmpTo? || Holds(GreaterEqual, c.s.flags);
            && Step(code, c).pc == (if jumps then Definition(code, code[c.pc].target) else c.pc + 1)
            && ByteStep(mem, b).ip == (if jumps then address else b.ip + Decode(mem, b.ip).len)
  {
    hide Decode, Holds;
  }

  /** One step over emitted instructions is zero or one step over bytes. */
  lemma StepSimulated(lines: seq<Line>, k0: nat, code: seq<Asm>, library: map<string, Word>, c: Config, b: ByteConfig)
    returns (b': ByteConfig)
    requires Embedded(lines, k0, code, library) && Same(lines, k0, code, library, c, b)
    ensures ByteReaches(CodeBytes(lines, library), b, b') && Same(lines, k0, code, library, Step(code, c), b')
  {
    hide Embedded, AddressOf, CodeBytes, Execute, Lower, ByteStep, Step, ByteReaches, Decode, Pass2, RelOf, Holds,
         Definition, NamesOf;
    var mem := CodeBytes(lines, library);
    ByteReachesStep(mem, b);
    b' := b;
    if c.pc >= |code| {
      StuckAtEnd(code, c);
    } else if code[c.pc].LabelDef? {
      LabelNoBytes(lines, k0, code, library, c.pc);
      LabelPassed(code, c);
    } else if IsData(code[c.pc]) {
      DataDecoded(lines, k0, code, library, c.pc);
      BytesUnfold(lines, library);
      DataStep(code, mem, c, b);
      if Execute(Lower(code[c.pc]), c.s).Some? { b' := ByteStep(mem, b); }
    } else {
      JumpOnly(lines, k0, code, library, c.pc);
      JumpDecoded(lines, k0, code, library, c.pc);
      BytesUnfold(lines, library);
      JumpSteps(code, mem, c, b, AddressOf(lines, k0, Definition(code, code[c.pc].target), library));
      b' := ByteStep(mem, b);
    }
  }

  lemma BytesUnfold(lines: seq<Line>, library: map<string, Word>)
    ensures CodeBytes(lines, library) == Pass2(lines, NamesOf(lines, library)).code
  {
  }

  lemma StuckAtEnd(code: seq<Asm>, c: Config)
    requires c.pc >= |code|
    ensures Step(code, c) == c
  {
  }

  lemma LabelPassed(code: seq<Asm>, c: Config)
    requires c.pc < |code| && code[c.pc].LabelDef?
    ensures Step(code, c) == c.(pc := c.pc + 1)
  {
  }

  lemma JumpOnly(lines: seq<Line>, k0: nat, code: seq<Asm>, library: map<string, Word>, i: nat)
    requires Embedded(lines, k0, code, library)
    requires i < |code| && !code[i].LabelDef? && !IsData(code[i])
    ensures IsJump(code[i])
  {
    hide Embedded;
    EmbeddedAt(lines, k0, code, library, i);
  }

  /** Any run over emitted instructions is a run over the assembled bytes. */
  lemma {:induction false} RunSimulated(lines: seq<Line>, k0: nat, code: seq<Asm>, library: map<string, Word>, n: nat,
                                        c: Config, b: ByteConfig)
    returns (b': ByteConfig)
    requires Embedded(lines, k0, code, library) && Same(lines, k0, code, library, c, b)
    ensures ByteReaches(CodeBytes(lines, library), b, b') && Same(lines, k0, code, library, Run(code, n, c), b')
    decreases n
  {
    hide *;
    if n == 0 {
      b' := b;
      ByteReachesStep(CodeBytes(lines, library), b);
      RunUnfold(code, 0, c);
    } else {
      var b1 := StepSimulated(lines, k0, code, library, c, b);
      b' := RunSimulated(lines, k0, code, library, n - 1, Step(code, c), b1);
      ByteReachesTrans(CodeBytes(lines, library), b, b1, b');
      RunUnfold(code, n, c);
    }
  }

  lemma RunUnfold(code: seq<Asm>, n: nat, c: Config)
    ensures Run(code, n, c) == if n == 0 then c else Run(code, n - 1, Step(code, c))
  {
  }

  /** Whatever the emitted instructions reach, their bytes reach too. */
  lemma ReachSimulated(lines: seq<Line>, k0: nat, code: seq<Asm>, library: map<string, Word>, c: Config, d: Config,
                       b: ByteConfig)
    returns (b': ByteConfig)
    requires Embedded(lines, k0, code, library) && Same(lines, k0, code, library, c, b)
    requires Reaches(code, c, d)
    ensures ByteReaches(CodeBytes(lines, library), b, b') && Same(lines, k0, code, library, d, b')
  {
    hide Embedded, Same, Run, ByteReaches, CodeBytes;
    var n: nat :| Run(code, n, c) == d;
    b' := RunSimulated(lines, k0, code, library, n, c, b);
  }
}
