/** Labels, branches and the whole code buffer of an assembled program. */
module Addresses {
  import opened Words
  import opened X86
  import opened Encoding
  import opened AssemblyText
  import opened Disassembler
  import opened EncodeDecode
  import opened Passes

  /** A program that assembles: size-exact lines, within both buffers. */
  ghost predicate Assembles(lines: seq<Line>, names: Names) {
    AllExact(lines, names) && FitsBuffers(lines)
  }

  /** The code address of line `k`: the bytes emitted before it. */
  function CodeAddress(lines: seq<Line>, k: nat, names: Names): nat
    requires k <= |lines|
  {
    |Pass2(lines[..k], names).code|
  }

  // ---------- labels ----------

  /** Line `k` is the first that defines the label `name`. */
  ghost predicate DefinedAt(lines: seq<Line>, name: string, k: nat) {
    && k < |lines| && lines[k].isLabel && lines[k].name == name
    && forall i :: 0 <= i < k ==> !(lines[i].isLabel && lines[i].name == name)
  }

  lemma {:induction false} UnseenLabel(lines: seq<Line>, name: string)
    requires forall i :: 0 <= i < |lines| ==> !(lines[i].isLabel && lines[i].name == name)
    ensures FindLabel(Pass1(lines).labels, name) == -1
  {
    if lines != [] {
      UnseenLabel(lines[..|lines| - 1], name);
    }
  }

  lemma FindAfterGrowth(labels: seq<Label>, more: seq<Label>, name: string)
    requires labels <= more
    requires FindLabel(labels, name) != -1
    ensures FindLabel(more, name) == FindLabel(labels, name)
  {
    assert forall x :: 0 <= x < |labels| ==> more[x] == labels[x];
  }

  lemma FindAppended(labels: seq<Label>, l: Label)
    requires FindLabel(labels, l.name) == -1
    ensures FindLabel(labels + [l], l.name) == |labels|
  {
    assert (labels + [l])[|labels|] == l;
  }

  /** The table's entry for a name is `l`. */
  predicate HasEntry(labels: seq<Label>, name: string, l: Label) {
    FindLabel(labels, name) != -1 && labels[FindLabel(labels, name)] == l
  }

  lemma LabelAdded(c: Counts, line: Line)
    requires line.isLabel && FindLabel(c.labels, line.name) == -1 && |c.labels| < MAX_LABELS
    ensures HasEntry(Step1(c, line).labels, line.name, Label(line.name, Offset(c), c.section))
  {
    FindAppended(c.labels, Label(line.name, Offset(c), c.section));
  }

  lemma LabelKept(c: Counts, line: Line, name: string, l: Label)
    requires HasEntry(c.labels, name, l)
    ensures HasEntry(Step1(c, line).labels, name, l)
  {
    FindAfterGrowth(c.labels, Step1(c, line).labels, name);
  }

  /** The label table gives each label the section and offset of the line that first defines it. */
  lemma {:induction false} LabelEntry(lines: seq<Line>, name: string, k: nat)
    requires DefinedAt(lines, name, k)
    requires |Pass1(lines[..k]).labels| < MAX_LABELS
    ensures HasEntry(Pass1(lines).labels, name, Label(name, Offset(Pass1(lines[..k])), Pass1(lines[..k]).section))
  {
    hide Step1, HasEntry, FindLabel, Offset;
    var n := |lines| - 1;
    if k == n {
      UnseenLabel(lines[..n], name);
      LabelAdded(Pass1(lines[..n]), lines[n]);
    } else {
      assert lines[..n][..k] == lines[..k];
      LabelEntry(lines[..n], name, k);
      LabelKept(Pass1(lines[..n]), lines[n], name, Label(name, Offset(Pass1(lines[..k])), Pass1(lines[..k]).section));
    }
  }

  // ---------- the bytes of a line ----------

  lemma StepGrows(e: Emitted, l: Line, names: Names)
    ensures e.code <= Step2(e, l, names).code
  {
  }

  lemma {:induction false} CodeGrows(lines: seq<Line>, k: nat, names: Names)
    requires k <= |lines|
    ensures Pass2(lines[..k], names).code <= Pass2(lines, names).code
    decreases |lines| - k
  {
    if k < |lines| {
      PrefixStep(lines, k, names);
      StepGrows(Pass2(lines[..k], names), lines[k], names);
      CodeGrows(lines, k + 1, names);
    } else {
      assert lines[..k] == lines;
    }
  }

  lemma LineExactBytes(lines: seq<Line>, k: nat, names: Names)
    requires k < |lines|
    requires Assembles(lines, names)
    requires IsInstruction(lines[k]) && Pass1(lines[..k]).section == 0
    ensures Pass2(lines[..k + 1], names).code
         == Pass2(lines[..k], names).code + LineBytes(lines[k], 0, CodeAddress(lines, k, names), names)
  {
    PrefixAgrees(lines, k, names);
    SectionsAgree(lines[..k], names);
    PrefixStep(lines, k, names);
    Monotone(lines, k + 1);
    var l := lines[k];
    SizeExactIff(LineMnemonic(l), l.arg1, l.arg2, 0, CodeAddress(lines, k, names), names);
  }

  lemma ExactSize(lines: seq<Line>, k: nat, names: Names)
    requires k < |lines|
    requires Assembles(lines, names)
    requires IsInstruction(lines[k]) && Pass1(lines[..k]).section == 0
    ensures |LineBytes(lines[k], 0, CodeAddress(lines, k, names), names)|
         == InstructionSize(LineMnemonic(lines[k]), lines[k].arg1, lines[k].arg2)
  {
    hide Pass1, Pass2, FitsBuffers;
    var l := lines[k];
    SizeExactIff(LineMnemonic(l), l.arg1, l.arg2, 0, CodeAddress(lines, k, names), names);
  }

  /** The code buffer holds each code line's bytes at the line's address, and the next line starts after them. */
  lemma LineInCode(lines: seq<Line>, k: nat, names: Names)
    requires k < |lines|
    requires Assembles(lines, names)
    requires IsInstruction(lines[k]) && Pass1(lines[..k]).section == 0
    ensures var a := CodeAddress(lines, k, names);
            && BytesAt(Pass2(lines, names).code, a, LineBytes(lines[k], 0, a, names))
            && CodeAddress(lines, k + 1, names)
               == a + InstructionSize(LineMnemonic(lines[k]), lines[k].arg1, lines[k].arg2)
  {
    hide Pass1, Assembles, LineBytes, SizeExact;
    LineExactBytes(lines, k, names);
    CodeGrows(lines, k + 1, names);
    ExactSize(lines, k, names);
  }

  lemma NoBytesNoMove(lines: seq<Line>, k: nat, names: Names)
    requires k < |lines|
    requires !IsInstruction(lines[k]) || Pass1(lines[..k]).section != 0
    ensures CodeAddress(lines, k + 1, names) == CodeAddress(lines, k, names)
  {
    PrefixStep(lines, k, names);
    SectionsAgree(lines[..k], names);
  }

  predicate LineKnown(l: Line, names: Names) {
    IsInstruction(l) && BothKnow(LineMnemonic(l), l.arg1, l.arg2, names)
  }

  function LineMeaning(l: Line, address: nat, names: Names): Instr
    requires LineKnown(l, names)
  {
    Denote(LineMnemonic(l), l.arg1, l.arg2, address, names)
  }

  /** Disassembling the code buffer at a line's address gives the line's instruction and the next line's address. */
  lemma DecodeLine(lines: seq<Line>, k: nat, names: Names)
    requires k < |lines|
    requires Assembles(lines, names)
    requires LineKnown(lines[k], names) && Pass1(lines[..k]).section == 0
    ensures var a := CodeAddress(lines, k, names);
            var d := Decode(Pass2(lines, names).code, a);
            && d.instr == LineMeaning(lines[k], a, names)
            && CodeAddress(lines, k + 1, names) == a + d.len
  {
    LineInCode(lines, k, names);
    var l := lines[k];
    DecodeEncoded(Pass2(lines, names).code, CodeAddress(lines, k, names), LineMnemonic(l), l.arg1, l.arg2, 0,
                  CodeAddress(lines, k, names), names);
  }

  // ---------- branches ----------

  predicate IsBranch(l: Line) {
    IsInstruction(l) && (LineMnemonic(l) == JmpM || LineMnemonic(l) == JneM || LineMnemonic(l) == JleM
                         || LineMnemonic(l) == JgeM || (LineMnemonic(l) == CallM && !IsReg(l.arg1)))
  }

  function RelOf(i: Instr): int {
    match i
    case Jmp(rel) => rel
    case Jcc(_, rel) => rel
    case Call(rel) => rel
    case _ => 0
  }

  lemma CodeBound(lines: seq<Line>, k: nat, names: Names)
    requires k <= |lines| && Assembles(lines, names)
    ensures CodeAddress(lines, k, names) == Pass1(lines[..k]).code <= MAX_CODE
  {
    PrefixAgrees(lines, k, names);
    Monotone(lines, k);
  }

  lemma TargetAddress(lines: seq<Line>, name: string, k: nat, library: map<string, Word>)
    requires Assembles(lines, NamesOf(lines, library))
    requires DefinedAt(lines, name, k) && Pass1(lines[..k]).section == 0
    requires |Pass1(lines[..k]).labels| < MAX_LABELS
    ensures Resolved(name, NamesOf(lines, library))
    ensures var names := NamesOf(lines, library);
            forall next :: Displacement(name, next, names) == CodeAddress(lines, k, names) - next
    ensures CodeAddress(lines, k, NamesOf(lines, library)) <= MAX_CODE
  {
    LabelEntry(lines, name, k);
    CodeBound(lines, k, NamesOf(lines, library));
  }

  /**
    * Every branch lands on its label: decoded at its own address, the address after the instruction plus
    * the displacement is the address of the line that defines the target, forward or backward.
    */
  lemma BranchLands(lines: seq<Line>, j: nat, k: nat, library: map<string, Word>)
    requires j < |lines| && IsBranch(lines[j]) && lines[j].arg1 != ""
    requires Assembles(lines, NamesOf(lines, library))
    requires DefinedAt(lines, lines[j].arg1, k)
    requires Pass1(lines[..j]).section == 0 && Pass1(lines[..k]).section == 0
    requires |Pass1(lines[..k]).labels| < MAX_LABELS
    ensures var names := NamesOf(lines, library);
            var a := CodeAddress(lines, j, names);
            var d := Decode(Pass2(lines, names).code, a);
            && (d.instr.Jmp? || d.instr.Jcc? || d.instr.Call?)
            && a + d.len + RelOf(d.instr) == CodeAddress(lines, k, names)
  {
    var names := NamesOf(lines, library);
    TargetAddress(lines, lines[j].arg1, k, library);
    BranchMeaning(lines[j], CodeAddress(lines, j, names), names);
    DecodeLine(lines, j, names);
    CodeBound(lines, j + 1, names);
    LineInCode(lines, j, names);
    Int32Idempotent(CodeAddress(lines, k, names) - CodeAddress(lines, j + 1, names));
  }

  lemma BranchMeaning(l: Line, a: nat, names: Names)
    requires IsBranch(l) && l.arg1 != "" && Resolved(l.arg1, names)
    ensures LineKnown(l, names)
    ensures var i := LineMeaning(l, a, names);
            var size := InstructionSize(LineMnemonic(l), l.arg1, l.arg2);
            (i.Jmp? || i.Jcc? || i.Call?) && RelOf(i) == Int32(Displacement(l.arg1, a + size, names))
  {
  }

  // ---------- the whole buffer ----------

  /** What the disassembler's row loop reads from `p` up to `end`. */
  function DecodeAll(mem: seq<Byte>, p: nat, end: nat): seq<Instr>
    decreases end - p
  {
    if p >= end then [] else [Decode(mem, p).instr] + DecodeAll(mem, p + Decode(mem, p).len, end)
  }

  /** The instructions of the code section, in order. */
  ghost function CodeInstructions(lines: seq<Line>, k: nat, names: Names): seq<Instr>
    requires k <= |lines|
    decreases |lines| - k
  {
    if k == |lines| then []
    else if LineKnown(lines[k], names) && Pass1(lines[..k]).section == 0 then
      [LineMeaning(lines[k], CodeAddress(lines, k, names), names)] + CodeInstructions(lines, k + 1, names)
    else CodeInstructions(lines, k + 1, names)
  }

  lemma KnownSize(m: Mnemonic, a1: string, a2: string, names: Names)
    requires BothKnow(m, a1, a2, names)
    ensures InstructionSize(m, a1, a2) > 0
  {
  }

  lemma KnownHasBytes(lines: seq<Line>, k: nat, names: Names)
    requires k < |lines| && Assembles(lines, names)
    requires LineKnown(lines[k], names) && Pass1(lines[..k]).section == 0
    ensures CodeAddress(lines, k, names) < CodeAddress(lines, k + 1, names) <= |Pass2(lines, names).code|
  {
    LineInCode(lines, k, names);
    KnownSize(LineMnemonic(lines[k]), lines[k].arg1, lines[k].arg2, names);
    CodeGrows(lines, k + 1, names);
  }

  lemma DecodeAllStep(mem: seq<Byte>, p: nat, q: nat, end: nat, instr: Instr)
    requires p < end
    requires Decode(mem, p).instr == instr && q == p + Decode(mem, p).len
    ensures DecodeAll(mem, p, end) == [instr] + DecodeAll(mem, q, end)
  {
  }


  /** The whole code buffer decodes to the program's instructions, in order. */
  lemma {:induction false} WholeBufferDecodes(lines: seq<Line>, k: nat, names: Names)
    requires k <= |lines| && Assembles(lines, names)
    requires forall i :: 0 <= i < |lines| && IsInstruction(lines[i]) && Pass1(lines[..i]).section == 0
               ==> LineKnown(lines[i], names)
    ensures var code := Pass2(lines, names).code;
            DecodeAll(code, CodeAddress(lines, k, names), |code|) == CodeInstructions(lines, k, names)
    decreases |lines| - k
  {
    if k == |lines| {
      assert lines[..k] == lines;
    } else {
      WholeBufferDecodes(lines, k + 1, names);
      if LineKnown(lines[k], names) && Pass1(lines[..k]).section == 0 {
        KnownHasBytes(lines, k, names);
        DecodeLine(lines, k, names);
        var a := CodeAddress(lines, k, names);
        DecodeAllStep(Pass2(lines, names).code, a, CodeAddress(lines, k + 1, names), |Pass2(lines, names).code|,
                      LineMeaning(lines[k], a, names));
      } else {
        NoBytesNoMove(lines, k, names);
      }
    }
  }
}
