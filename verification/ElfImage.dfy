/** The executable file: ELF header, three program headers, and the page-aligned sections. */
module ElfImage {
  import opened Words
  import opened LibcMemory
  import opened Encoding
  import opened Passes

  const HEADER_SIZE: nat := 52
  const SEGMENT_SIZE: nat := 32
  const HEADER_BASE: Word := 0x0040_1000
  const LOAD_LIBRARIES: Word := 0xFF

  // ---------- specification ----------

  /** A loadable segment; the physical address is the virtual one, the size in memory the size in the file. */
  datatype Segment = Segment(offset: Word, vaddr: Word, size: Word, flags: Word)

  function Le16(x: nat): (s: seq<Byte>)
    ensures |s| == 2
  {
    LittleEndian(x, 2)
  }

  function SegmentBytes(s: Segment): (b: seq<Byte>)
    ensures |b| == SEGMENT_SIZE
  {
    Le32(1) + (Le32(s.offset) + (Le32(s.vaddr) + (Le32(s.vaddr) +
    (Le32(s.size) + (Le32(s.size) + (Le32(s.flags) + Le32(PAGE_SIZE)))))))
  }

  /** Magic number, class, byte order, type, machine and version. */
  function IdentBytes(): (b: seq<Byte>)
    ensures |b| == 24
  {
    [0x7F, 0x45, 0x4C, 0x46, 1, 1, 1, 0] + Zeros(8) + Le16(2) + Le16(3) + Le32(1)
  }

  /** The header's own size, and the size and number of program headers. */
  function CountBytes(): (b: seq<Byte>)
    ensures |b| == 12
  {
    Le16(HEADER_SIZE) + Le16(SEGMENT_SIZE) + Le16(3) + Le16(0) + Le16(0) + Le16(0)
  }

  function HeaderBytes(entry: Word, flags: Word): (b: seq<Byte>)
    ensures |b| == HEADER_SIZE
  {
    IdentBytes() + (Le32(entry) + (Le32(HEADER_SIZE) + (Le32(0) + (Le32(flags) + CountBytes()))))
  }

  /** Header, code and data segments of a program with these section sizes. */
  function Segments(codeSize: nat, dataSize: nat): seq<Segment>
    requires codeSize <= MAX_CODE && dataSize <= MAX_CODE
  {
    [ Segment(0, HEADER_BASE, PAGE_SIZE, 4),
      Segment(PAGE_SIZE, CODE_BASE, PageRound(codeSize), 5),
      Segment(PAGE_SIZE + PageRound(codeSize), CODE_BASE + PageRound(codeSize), PageRound(dataSize), 6) ]
  }

  function Padded(s: seq<Byte>): (p: seq<Byte>)
    ensures |p| == PageRound(|s|)
  {
    RoundUp(|s|);
    s + Zeros(PageRound(|s|) - |s|)
  }

  lemma RoundUp(n: nat)
    ensures n <= PageRound(n) < n + PAGE_SIZE && PageRound(n) % PAGE_SIZE == 0
  {
  }

  function HeaderPage(codeSize: nat, dataSize: nat, entry: Word, flags: Word): (p: seq<Byte>)
    requires codeSize <= MAX_CODE && dataSize <= MAX_CODE
    ensures |p| == PAGE_SIZE
  {
    var s := Segments(codeSize, dataSize);
    HeaderBytes(entry, flags) + SegmentBytes(s[0]) + SegmentBytes(s[1]) + SegmentBytes(s[2])
    + Zeros(PAGE_SIZE - HEADER_SIZE - 3 * SEGMENT_SIZE)
  }

  function EntryPoint(entryOffset: nat): Word {
    Wrap(CODE_BASE + entryOffset)
  }

  function ProgramFlags(external: bool): Word {
    if external then LOAD_LIBRARIES else 0
  }

  /** The whole file. */
  function Image(code: seq<Byte>, data: seq<Byte>, entryOffset: nat, external: bool): (p: seq<Byte>)
    requires |code| <= MAX_CODE && |data| <= MAX_CODE
    ensures |p| == PAGE_SIZE + PageRound(|code|) + PageRound(|data|)
  {
    HeaderPage(|code|, |data|, EntryPoint(entryOffset), ProgramFlags(external)) + Padded(code) + Padded(data)
  }

  // ---------- writing ----------

  /** Where the file stands after writing `done` bytes of `image`. */
  ghost predicate Written(destination: array<Byte>, image: seq<Byte>, before: seq<Byte>)
    reads destination
  {
    |image| <= |before| && destination[..] == image + before[|image|..]
  }

  method CopyNext(destination: array<Byte>, ghost image: seq<Byte>, ghost before: seq<Byte>, at: nat, part: seq<Byte>)
    requires at == |image| && at + |part| <= destination.Length == |before|
    requires Written(destination, image, before)
    modifies destination
    ensures Written(destination, image + part, before)
  {
    assert destination[..at] == image;
    assert destination[at + |part|..] == before[at + |part|..];
    CopyBytes(destination, at, part);
    assert image + part + before[at + |part|..] == (image + part) + before[|image + part|..];
  }

  /**
    * `writeElf`. The program gives up, after the code, when the first code byte looks like an ELF header;
    * otherwise the file holds exactly the image.
    */
  method WriteElf(output: array<Byte>, code: seq<Byte>, data: seq<Byte>, entryOffset: nat, external: bool)
    returns (malformed: bool)
    requires |code| <= MAX_CODE && |data| <= MAX_CODE
    requires PAGE_SIZE + PageRound(|code|) + PageRound(|data|) <= output.Length
    modifies output
    ensures malformed <==> code != [] && code[0] == 0x7F
    ensures !malformed ==> Written(output, Image(code, data, entryOffset, external), old(output[..]))
  {
    hide HeaderBytes, SegmentBytes, Written, Segments, PageRound, EntryPoint, ProgramFlags;
    ghost var before := output[..];
    var flags := ProgramFlags(external);
    var entry := EntryPoint(entryOffset);
    var segments := Segments(|code|, |data|);
    assert |segments| == 3 by { SegmentsLength(|code|, |data|); }
    WrittenNothing(output);
    RoundUp(|code|);
    RoundUp(|data|);
    CopyNext(output, [], before, 0, HeaderBytes(entry, flags));
    assert [] + HeaderBytes(entry, flags) == HeaderBytes(entry, flags);
    ghost var done := HeaderBytes(entry, flags);
    var pointer := HEADER_SIZE;
    CopyNext(output, done, before, pointer, SegmentBytes(segments[0]));
    done, pointer := done + SegmentBytes(segments[0]), pointer + SEGMENT_SIZE;
    CopyNext(output, done, before, pointer, SegmentBytes(segments[1]));
    done, pointer := done + SegmentBytes(segments[1]), pointer + SEGMENT_SIZE;
    CopyNext(output, done, before, pointer, SegmentBytes(segments[2]));
    done, pointer := done + SegmentBytes(segments[2]), pointer + SEGMENT_SIZE;
    CopyNext(output, done, before, pointer, Zeros(PAGE_SIZE - pointer));
    done, pointer := done + Zeros(PAGE_SIZE - pointer), PAGE_SIZE;
    assert done == HeaderPage(|code|, |data|, entry, flags);
    malformed := WriteSections(output, done, before, code, data);
    assert !malformed ==> Written(output, Image(code, data, entryOffset, external), before) by {
      ImageParts(code, data, entryOffset, external);
    }
  }

  lemma ImageParts(code: seq<Byte>, data: seq<Byte>, entryOffset: nat, external: bool)
    requires |code| <= MAX_CODE && |data| <= MAX_CODE
    ensures Image(code, data, entryOffset, external)
         == HeaderPage(|code|, |data|, EntryPoint(entryOffset), ProgramFlags(external)) + Padded(code) + Padded(data)
  {
  }

  lemma SegmentsLength(codeSize: nat, dataSize: nat)
    requires codeSize <= MAX_CODE && dataSize <= MAX_CODE
    ensures |Segments(codeSize, dataSize)| == 3
  {
  }

  lemma WrittenNothing(output: array<Byte>)
    ensures Written(output, [], output[..])
  {
  }

  method WriteSections(output: array<Byte>, ghost header: seq<Byte>, ghost before: seq<Byte>, code: seq<Byte>,
                       data: seq<Byte>)
    returns (malformed: bool)
    requires |header| == PAGE_SIZE
    requires PAGE_SIZE + PageRound(|code|) + PageRound(|data|) <= output.Length == |before|
    requires Written(output, header, before)
    modifies output
    ensures malformed <==> code != [] && code[0] == 0x7F
    ensures !malformed ==> Written(output, header + Padded(code) + Padded(data), before)
  {
    hide Written, PageRound;
    RoundUp(|code|);
    RoundUp(|data|);
    var pointer := PAGE_SIZE;
    ghost var done := header;
    malformed := false;
    if |code| > 0 {
      CopyNext(output, done, before, pointer, code);
      done, pointer := done + code, pointer + |code|;
      if code[0] == 0x7F { return true; }
    }
    var textPadding := PageRound(|code|) - |code|;
    CopyNext(output, done, before, pointer, Zeros(textPadding));
    done, pointer := done + Zeros(textPadding), pointer + textPadding;
    assert done == header + Padded(code);
    if |data| > 0 {
      CopyNext(output, done, before, pointer, data);
      done, pointer := done + data, pointer + |data|;
    }
    var dataPadding := PageRound(|data|) - |data|;
    CopyNext(output, done, before, pointer, Zeros(dataPadding));
    assert done + Zeros(dataPadding) == header + Padded(code) + Padded(data);
  }
}
