/** The absolute addresses the assembler emits are the addresses at which the image is loaded. */
module ImageAddresses {
  import opened Words
  import opened X86
  import opened Encoding
  import opened Disassembler
  import opened EncodeDecode
  import opened AssemblyText
  import opened Passes
  import opened Addresses
  import opened ElfImage
  import opened LoadedImage

  /** The entry offset the assembler chooses: the label `start`, or the first byte. */
  function EntryOffset(labels: seq<Label>): nat {
    if FindLabel(labels, "start") != -1 then labels[FindLabel(labels, "start")].address else 0
  }

  /** The image of the assembled program, its flags word included. */
  ghost predicate IsImageOf(image: seq<Byte>, lines: seq<Line>, library: map<string, Word>) {
    var e := Pass2(lines, NamesOf(lines, library));
    && |e.code| <= MAX_CODE && |e.data| <= MAX_CODE
    && image == Image(e.code, e.data, EntryOffset(Pass1(lines).labels), CallsLibrary(lines))
  }

  function SectionBytes(lines: seq<Line>, section: int, library: map<string, Word>): seq<Byte> {
    var e := Pass2(lines, NamesOf(lines, library));
    if section == 0 then e.code else e.data
  }

  function OffsetAt(lines: seq<Line>, k: nat): nat
    requires k <= |lines|
  {
    Offset(Pass1(lines[..k]))
  }

  /** The address at which an offset of a section is loaded. */
  function VirtualAddress(lines: seq<Line>, section: int, offset: nat, library: map<string, Word>): int {
    if section == 0 then CODE_BASE + offset
    else CODE_BASE + PageRound(|SectionBytes(lines, 0, library)|) + offset
  }

  lemma WholeAgrees(lines: seq<Line>, names: Names)
    requires Assembles(lines, names)
    ensures Pass1(lines).code == |Pass2(lines, names).code| <= MAX_CODE
    ensures Pass1(lines).data == |Pass2(lines, names).data| <= MAX_CODE
  {
    PrefixAgrees(lines, |lines|, names);
    assert lines[..|lines|] == lines;
  }

  /** Every section byte is loaded at its virtual address. */
  lemma BytesLoaded(image: seq<Byte>, lines: seq<Line>, library: map<string, Word>, section: int, i: nat)
    requires IsImageOf(image, lines, library)
    requires section == 0 || section == 1
    requires i < |SectionBytes(lines, section, library)|
    ensures Loaded(image, VirtualAddress(lines, section, i, library)) == Some(SectionBytes(lines, section, library)[i])
  {
    hide Image, PageRound, Loaded, Pass1, Pass2, EntryOffset, CallsLibrary;
    var e := Pass2(lines, NamesOf(lines, library));
    SectionsLoaded(e.code, e.data, EntryOffset(Pass1(lines).labels), CallsLibrary(lines), i);
  }

  lemma LabelFound(lines: seq<Line>, name: string, k: nat, library: map<string, Word>)
    requires Assembles(lines, NamesOf(lines, library))
    requires DefinedAt(lines, name, k) && |Pass1(lines[..k]).labels| < MAX_LABELS
    ensures ImmOrAddress(name, NamesOf(lines, library))
         == VirtualAddress(lines, Pass1(lines[..k]).section, OffsetAt(lines, k), library)
  {
    hide Pass1, Pass2, PageRound, DefinedAt, AllExact, FitsBuffers;
    LabelEntry(lines, name, k);
    WholeAgrees(lines, NamesOf(lines, library));
  }

  /**
    * Absolute addresses match the image: the value of `mov reg, label` is the address at which the image is
    * loaded with the byte that the label stands before, in either section.
    */
  lemma LabelLoaded(image: seq<Byte>, lines: seq<Line>, name: string, k: nat, library: map<string, Word>)
    requires Assembles(lines, NamesOf(lines, library)) && IsImageOf(image, lines, library)
    requires DefinedAt(lines, name, k) && |Pass1(lines[..k]).labels| < MAX_LABELS
    requires OffsetAt(lines, k) < |SectionBytes(lines, Pass1(lines[..k]).section, library)|
    ensures Loaded(image, ImmOrAddress(name, NamesOf(lines, library)))
         == Some(SectionBytes(lines, Pass1(lines[..k]).section, library)[OffsetAt(lines, k)])
  {
    hide Pass2, NamesOf, Assembles, IsImageOf, Loaded, ImmOrAddress, VirtualAddress, SectionBytes, OffsetAt;
    LabelFound(lines, name, k, library);
    BytesLoaded(image, lines, library, Pass1(lines[..k]).section, OffsetAt(lines, k));
  }

  // ---------- strings ----------

  lemma {:induction false} DataGrows(lines: seq<Line>, k: nat, names: Names)
    requires k <= |lines|
    ensures Pass2(lines[..k], names).data <= Pass2(lines, names).data
    decreases |lines| - k
  {
    if k < |lines| {
      PrefixStep(lines, k, names);
      assert Pass2(lines[..k], names).data <= Step2(Pass2(lines[..k], names), lines[k], names).data;
      DataGrows(lines, k + 1, names);
    } else {
      assert lines[..k] == lines;
    }
  }

  /** The data buffer holds each data line's bytes at the line's offset. */
  lemma LineInData(lines: seq<Line>, k: nat, names: Names)
    requires k < |lines| && Assembles(lines, names)
    requires IsInstruction(lines[k]) && Pass1(lines[..k]).section == 1
    ensures BytesAt(Pass2(lines, names).data, OffsetAt(lines, k),
            LineBytes(lines[k], 1, CodeAddress(lines, k, names), names))
  {
    hide Pass1, Assembles, LineBytes, OffsetAt;
    DataLineBytes(lines, k, names);
    DataGrows(lines, k + 1, names);
  }

  lemma DataLineBytes(lines: seq<Line>, k: nat, names: Names)
    requires k < |lines| && Assembles(lines, names)
    requires IsInstruction(lines[k]) && Pass1(lines[..k]).section == 1
    ensures OffsetAt(lines, k) == |Pass2(lines[..k], names).data|
    ensures Pass2(lines[..k + 1], names).data
         == Pass2(lines[..k], names).data + LineBytes(lines[k], 1, CodeAddress(lines, k, names), names)
  {
    PrefixAgrees(lines, k, names);
    SectionsAgree(lines[..k], names);
    PrefixStep(lines, k, names);
    Monotone(lines, k + 1);
    var l := lines[k];
    SizeExactIff(LineMnemonic(l), l.arg1, l.arg2, 1, CodeAddress(lines, k, names), names);
  }

  /** The bytes `s` stand in the loaded program from address `a` on. */
  ghost predicate LoadedAt(image: seq<Byte>, a: int, s: seq<Byte>) {
    forall i :: 0 <= i < |s| ==> Loaded(image, a + i) == Some(s[i])
  }

  /**
    * A string variable's label, used as an operand, is the address at which the loaded program holds the
    * string's characters and its terminator.
    */
  lemma StringLoaded(image: seq<Byte>, lines: seq<Line>, name: string, k: nat, library: map<string, Word>)
    requires Assembles(lines, NamesOf(lines, library)) && IsImageOf(image, lines, library)
    requires k + 1 < |lines| && DefinedAt(lines, name, k) && |Pass1(lines[..k]).labels| < MAX_LABELS
    requires lines[k].instruction == "" && Pass1(lines[..k]).section == 1
    requires IsInstruction(lines[k + 1]) && LineMnemonic(lines[k + 1]) == DbM
    ensures LoadedAt(image, ImmOrAddress(name, NamesOf(lines, library)), EncodeDb(lines[k + 1].arg1))
  {
    hide Pass1, NamesOf, Assembles, IsImageOf, DefinedAt, Loaded, ImmOrAddress, Pass2, OffsetAt, EncodeDb, LineMnemonic,
         IsInstruction;
    var names := NamesOf(lines, library);
    LabelFound(lines, name, k, library);
    BareLabel(lines, k);
    LineInData(lines, k + 1, names);
    var data, at, s := SectionBytes(lines, 1, library), OffsetAt(lines, k), EncodeDb(lines[k + 1].arg1);
    forall i | 0 <= i < |s|
      ensures Loaded(image, ImmOrAddress(name, names) + i) == Some(s[i])
    {
      BytesLoaded(image, lines, library, 1, at + i);
      assert data[at..at + |s|][i] == data[at + i];
    }
  }

  lemma BareLabel(lines: seq<Line>, k: nat)
    requires k < |lines| && lines[k].instruction == ""
    ensures Pass1(lines[..k + 1]).section == Pass1(lines[..k]).section
    ensures OffsetAt(lines, k + 1) == OffsetAt(lines, k)
  {
    assert lines[..k + 1][..k] == lines[..k];
  }

  // ---------- library calls ----------

  /** A call to a library function, decoded where it stands, reaches the function's address in the jump table. */
  lemma LibraryCallLands(lines: seq<Line>, j: nat, names: Names)
    requires j < |lines| && Assembles(lines, names)
    requires IsInstruction(lines[j]) && LineMnemonic(lines[j]) == CallM && lines[j].arg1 != "" && !IsReg(lines[j].arg1)
    requires !Resolved(lines[j].arg1, names) && LibraryAddress(names, lines[j].arg1) != 0
    requires Pass1(lines[..j]).section == 0
    ensures var a := CodeAddress(lines, j, names);
            var d := Decode(Pass2(lines, names).code, a);
            && d.instr.Call?
            && Wrap(CODE_BASE + a + d.len + d.instr.rel) == LibraryAddress(names, lines[j].arg1)
  {
    hide Assembles, Pass2, Pass1, Decode, Resolved, IsReg, LibraryAddress, Wrap;
    var a := CodeAddress(lines, j, names);
    LibraryCallMeaning(lines[j], a, names);
    DecodeLine(lines, j, names);
    LineInCode(lines, j, names);
    WrapBackTo(LibraryAddress(names, lines[j].arg1), CODE_BASE + a + 5);
  }

  lemma LibraryCallMeaning(l: Line, a: nat, names: Names)
    requires IsInstruction(l) && LineMnemonic(l) == CallM && l.arg1 != "" && !IsReg(l.arg1)
    requires !Resolved(l.arg1, names) && LibraryAddress(names, l.arg1) != 0
    ensures LineKnown(l, names)
    ensures LineMeaning(l, a, names) == Call(Int32(LibraryDisplacement(l.arg1, a + 5, names)))
    ensures InstructionSize(LineMnemonic(l), l.arg1, l.arg2) == 5
  {
  }

  lemma WrapBackTo(w: Word, next: int)
    ensures Wrap(next + Int32(w - next)) == w
  {
    Int32Idempotent(w - next);
    WrapAdd(Int32(w - next), next);
    WrapAdd(w - next, next);
    WrapWord(w);
  }

  // ---------- the entry point ----------

  /** A line that puts bytes into the code section. */
  predicate CodeLine(lines: seq<Line>, i: nat)
    requires i < |lines|
  {
    IsInstruction(lines[i]) && Pass1(lines[..i]).section == 0
    && InstructionSize(LineMnemonic(lines[i]), lines[i].arg1, lines[i].arg2) > 0
  }

  /** The code offset stays as it is exactly over lines that put nothing into the code section. */
  lemma {:induction false} NoCodeIff(lines: seq<Line>, j: nat, k: nat)
    requires j <= k <= |lines|
    ensures Pass1(lines[..j]).code <= Pass1(lines[..k]).code
    ensures Pass1(lines[..j]).code == Pass1(lines[..k]).code <==> forall i :: j <= i < k ==> !CodeLine(lines, i)
    decreases k
  {
    hide *;
    if j < k {
      NoCodeIff(lines, j, k - 1);
      CodeLineGrows(lines, k - 1);
    }
  }

  lemma CodeLineGrows(lines: seq<Line>, k: nat)
    requires k < |lines|
    ensures Pass1(lines[..k + 1]).code >= Pass1(lines[..k]).code
    ensures Pass1(lines[..k + 1]).code > Pass1(lines[..k]).code <==> CodeLine(lines, k)
  {
    hide InstructionSize, MnemonicOf;
    assert lines[..k + 1][..k] == lines[..k];
  }

  /** The label `start` is first defined at line `j`, in the code section; or there is none, and `j` is 0. */
  ghost predicate EntryAt(lines: seq<Line>, j: nat) {
    || (DefinedAt(lines, "start", j) && Pass1(lines[..j]).section == 0 && |Pass1(lines[..j]).labels| < MAX_LABELS)
    || (j == 0 && forall i :: 0 <= i < |lines| ==> !(lines[i].isLabel && lines[i].name == "start"))
  }

  lemma EntryIs(lines: seq<Line>, j: nat)
    requires EntryAt(lines, j)
    ensures j <= |lines| && EntryOffset(Pass1(lines).labels) == Pass1(lines[..j]).code
  {
    hide Step1, FindLabel;
    if DefinedAt(lines, "start", j) {
      LabelEntry(lines, "start", j);
    } else {
      UnseenLabel(lines, "start");
      assert lines[..0] == [];
    }
  }

  /**
    * The compiler names the entry `_start`, but the assembler looks for `start`. The entry point is the address of
    * `_start` exactly when no code stands between `_start` and the label `start`, or the beginning without one.
    */
  lemma EntryIff(lines: seq<Line>, j: nat, k: nat, library: map<string, Word>)
    requires Assembles(lines, NamesOf(lines, library)) && EntryAt(lines, j)
    requires DefinedAt(lines, "_start", k) && Pass1(lines[..k]).section == 0 && |Pass1(lines[..k]).labels| < MAX_LABELS
    ensures EntryPoint(EntryOffset(Pass1(lines).labels)) == ImmOrAddress("_start", NamesOf(lines, library))
       <==> forall i :: j <= i < k || k <= i < j ==> !CodeLine(lines, i)
  {
    hide Pass1, NamesOf, Assembles, CodeLine, ImmOrAddress, FindLabel, EntryAt;
    LabelFound(lines, "_start", k, library);
    EntryIs(lines, j);
    if j <= k { NoCodeIff(lines, j, k); } else { NoCodeIff(lines, k, j); }
    CodeBound(lines, k, NamesOf(lines, library));
    CodeBound(lines, j, NamesOf(lines, library));
  }
}
