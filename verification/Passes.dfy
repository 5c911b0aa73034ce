/** The two passes of the assembler over parsed lines, and why their addresses agree. */
module Passes {
  import opened Words
  import opened LibcText
  import opened Encoding
  import opened AssemblyText

  const MAX_LABELS: nat := 256
  const MAX_CODE: nat := 4096

  function LowerCase(s: string): string {
    seq(|s|, i requires 0 <= i < |s| => ToLower(s[i]))
  }

  function LineMnemonic(l: Line): Mnemonic {
    MnemonicOf(LowerCase(l.instruction))
  }

  predicate IsDirective(l: Line) {
    l.instruction != "" && LineMnemonic(l) == SectionM
  }

  predicate IsInstruction(l: Line) {
    l.instruction != "" && LineMnemonic(l) != SectionM
  }

  /** The section (0 code, 1 data) after a line read in `section`. */
  function NextSection(l: Line, section: int): int {
    if !IsDirective(l) then section
    else if l.arg1 == ".data" then 1
    else if l.arg1 == ".text" || l.arg1 == ".txt" then 0
    else section
  }

  // ---------- pass 1 ----------

  datatype Counts = Counts(section: int, code: nat, data: nat, labels: seq<Label>)

  function Offset(c: Counts): nat {
    if c.section == 0 then c.code else c.data
  }

  function AddLabel(c: Counts, name: string): seq<Label> {
    if FindLabel(c.labels, name) == -1 && |c.labels| < MAX_LABELS
    then c.labels + [Label(name, Offset(c), c.section)]
    else c.labels
  }

  function Step1(c: Counts, l: Line): Counts {
    var labels := if l.isLabel then AddLabel(c, l.name) else c.labels;
    if !IsInstruction(l) then Counts(NextSection(l, c.section), c.code, c.data, labels)
    else
      var size := InstructionSize(LineMnemonic(l), l.arg1, l.arg2);
      if c.section == 0 then Counts(c.section, c.code + size, c.data, labels)
      else Counts(c.section, c.code, c.data + size, labels)
  }

  /** The state of `firstPass` after these lines. */
  function Pass1(lines: seq<Line>): (c: Counts)
    ensures c.section == 0 || c.section == 1
  {
    if lines == [] then Counts(0, 0, 0, []) else Step1(Pass1(lines[..|lines| - 1]), lines[|lines| - 1])
  }

  // ---------- pass 2 ----------

  datatype Emitted = Emitted(section: int, code: seq<Byte>, data: seq<Byte>)

  /** `emitByte` drops what does not fit the section buffer. */
  function Append(buffer: seq<Byte>, bytes: seq<Byte>): seq<Byte> {
    if |buffer| + |bytes| <= MAX_CODE then buffer + bytes
    else if |buffer| <= MAX_CODE then buffer + bytes[..MAX_CODE - |buffer|]
    else buffer
  }

  function LineBytes(l: Line, section: int, address: nat, names: Names): seq<Byte> {
    Encode(LineMnemonic(l), l.arg1, l.arg2, section, address, names)
  }

  function Step2(e: Emitted, l: Line, names: Names): Emitted {
    if !IsInstruction(l) then Emitted(NextSection(l, e.section), e.code, e.data)
    else
      var bytes := LineBytes(l, e.section, |e.code|, names);
      if e.section == 0 then Emitted(e.section, Append(e.code, bytes), e.data)
      else Emitted(e.section, e.code, Append(e.data, bytes))
  }

  /** The state of `secondPass` after these lines. */
  function Pass2(lines: seq<Line>, names: Names): (e: Emitted)
    ensures e.section == 0 || e.section == 1
  {
    if lines == [] then Emitted(0, [], []) else Step2(Pass2(lines[..|lines| - 1], names), lines[|lines| - 1], names)
  }

  /** What pass 2 of the whole program knows. */
  function NamesOf(lines: seq<Line>, library: map<string, Word>): Names {
    var c := Pass1(lines);
    Names(c.labels, c.code, library)
  }

  // ---------- prefixes ----------

  lemma PrefixStep(lines: seq<Line>, k: nat, names: Names)
    requires k < |lines|
    ensures Pass1(lines[..k + 1]) == Step1(Pass1(lines[..k]), lines[k])
    ensures Pass2(lines[..k + 1], names) == Step2(Pass2(lines[..k], names), lines[k], names)
  {
    assert lines[..k + 1][..k] == lines[..k];
  }

  lemma {:induction false} SectionsAgree(lines: seq<Line>, names: Names)
    ensures Pass1(lines).section == Pass2(lines, names).section
  {
    if lines != [] { SectionsAgree(lines[..|lines| - 1], names); }
  }

  lemma {:induction false} Monotone(lines: seq<Line>, k: nat)
    requires k <= |lines|
    ensures Pass1(lines[..k]).code <= Pass1(lines).code
    ensures Pass1(lines[..k]).data <= Pass1(lines).data
  {
    if k < |lines| {
      var n := |lines| - 1;
      Monotone(lines[..n], k);
      assert lines[..n][..k] == lines[..k];
    } else {
      assert lines[..k] == lines;
    }
  }

  // ---------- agreement ----------

  /** A line whose size pass 1 counts exactly. */
  predicate LineExact(l: Line, section: int, names: Names) {
    IsInstruction(l) ==> SizeExact(LineMnemonic(l), l.arg1, l.arg2, section, names)
  }

  ghost predicate AllExact(lines: seq<Line>, names: Names) {
    forall k :: 0 <= k < |lines| ==> LineExact(lines[k], Pass1(lines[..k]).section, names)
  }

  predicate FitsBuffers(lines: seq<Line>) {
    Pass1(lines).code <= MAX_CODE && Pass1(lines).data <= MAX_CODE
  }

  /** Pass 1's offsets are the numbers of bytes pass 2 has emitted. */
  predicate Agree(lines: seq<Line>, names: Names) {
    && Pass1(lines).code == |Pass2(lines, names).code|
    && Pass1(lines).data == |Pass2(lines, names).data|
  }

  lemma StepAgrees(lines: seq<Line>, k: nat, names: Names)
    requires k < |lines|
    requires Agree(lines[..k], names)
    requires Pass1(lines[..k + 1]).code <= MAX_CODE && Pass1(lines[..k + 1]).data <= MAX_CODE
    ensures LineExact(lines[k], Pass1(lines[..k]).section, names) ==> Agree(lines[..k + 1], names)
    ensures Pass1(lines[..k + 1]).code < MAX_CODE && Pass1(lines[..k + 1]).data < MAX_CODE ==>
              (Agree(lines[..k + 1], names) ==> LineExact(lines[k], Pass1(lines[..k]).section, names))
  {
    PrefixStep(lines, k, names);
    SectionsAgree(lines[..k], names);
    var e, l := Pass2(lines[..k], names), lines[k];
    if IsInstruction(l) {
      SizeExactIff(LineMnemonic(l), l.arg1, l.arg2, e.section, |e.code|, names);
    }
  }

  lemma {:induction false} PrefixAgrees(lines: seq<Line>, k: nat, names: Names)
    requires k <= |lines|
    requires AllExact(lines, names) && FitsBuffers(lines)
    ensures Agree(lines[..k], names)
  {
    if k > 0 {
      PrefixAgrees(lines, k - 1, names);
      Monotone(lines, k);
      StepAgrees(lines, k - 1, names);
    }
  }

  /** With room to spare in both buffers, the passes agree after every line exactly when every line is size-exact. */
  lemma PassesAgreeIff(lines: seq<Line>, names: Names)
    requires Pass1(lines).code < MAX_CODE && Pass1(lines).data < MAX_CODE
    ensures (forall k :: 0 <= k <= |lines| ==> Agree(lines[..k], names)) <==> AllExact(lines, names)
  {
    if AllExact(lines, names) {
      forall k | 0 <= k <= |lines| ensures Agree(lines[..k], names) { PrefixAgrees(lines, k, names); }
    }
    if forall k :: 0 <= k <= |lines| ==> Agree(lines[..k], names) {
      forall k | 0 <= k < |lines|
        ensures LineExact(lines[k], Pass1(lines[..k]).section, names)
      {
        assert Agree(lines[..k], names) && Agree(lines[..k + 1], names);
        Monotone(lines, k);
        Monotone(lines, k + 1);
        StepAgrees(lines, k, names);
      }
    }
  }

  // ---------- library calls ----------

  /** A call that is neither to a register nor to a known label. */
  predicate IsExternalCall(l: Line, labels: seq<Label>) {
    IsInstruction(l) && LineMnemonic(l) == CallM && l.arg1 != "" && !IsReg(l.arg1) && FindLabel(labels, l.arg1) == -1
  }

  /** Some call goes to the shared library, by the labels of the whole program. */
  ghost predicate CallsLibrary(lines: seq<Line>) {
    exists l :: l in lines && IsExternalCall(l, Pass1(lines).labels)
  }
}
