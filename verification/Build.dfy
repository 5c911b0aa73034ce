/** Building an executable from source text: the compiler, the assembler and the image writer, one after the other. */
module Build {
  import opened Words
  import opened X86
  import opened SourceLanguage
  import opened CodeGenerator
  import opened ProgramCorrectness
  import opened Encoding
  import opened Disassembler
  import opened AssemblyText
  import opened Passes
  import opened AsmPrinting
  import opened AsmOperands
  import opened ByteMachine
  import opened AssemblySource
  import opened Divergence
  import opened Toolchain
  import opened ByteDivergence
  import opened ElfImage
  import opened ImageAddresses
  import opened ProgramImage
  import opened Lexer
  import opened Grammar
  import S = SourceText
  import P = ProgramSource
  import opened TextBuffer
  import opened EmittedText
  import C = Compiler
  import A = Assembler

  // ---------- when the final splice is right ----------

  /** The file that `compileSource` means to leave. */
  function Headed(text: string, data: string): string {
    (if data != "" then DATA_HEADER + data else "") + TEXT_HEADER + text
  }

  predicate Constant(s: string) {
    forall k :: 0 <= k < |s| ==> s[k] == s[0]
  }

  lemma HeaderLengths()
    ensures |DATA_HEADER| == 14 && |TEXT_HEADER| == 15
  {
  }

  lemma OverlappedAt(text: string, i: nat)
    requires i < |text|
    ensures Overlapped(text)[i] == if i >= 14 then text[i - 14] else if 15 + i < |text| then text[15 + i] else NUL
  {
    HeaderLengths();
  }

  /** A text that equals its own overlapped shift repeats one character. */
  lemma {:induction false} OverlapConstant(text: string, i: nat)
    requires |text| >= 29 && Overlapped(text) == text && i < |text|
    ensures text[i] == text[0]
    decreases i
  {
    hide Overlapped;
    if i >= 14 {
      OverlappedAt(text, i);
      OverlapConstant(text, i - 14);
    } else if i > 0 {
      OverlappedAt(text, i - 1);
      OverlappedAt(text, i + 14);
      OverlapConstant(text, i - 1);
    }
  }

  /**
    * The compiler leaves the intended file exactly when there is string data: without it the text header is
    * followed by the text shifted over itself.
    */
  lemma SplicedIff(text: string, data: string)
    requires NulFree(text) && !Constant(text)
    ensures Spliced(text, data) == Headed(text, data) <==> data != ""
  {
    hide Overlapped, DATA_HEADER, TEXT_HEADER;
    if data == "" && Overlapped(text) == text {
      if |text| >= 29 {
        forall k | 0 <= k < |text| ensures text[k] == text[0] { OverlapConstant(text, k); }
      } else {
        var i := if |text| <= 15 then 0 else |text| - 15;
        OverlappedAt(text, i);
      }
    }
    HeadedParts(text, data);
  }

  lemma HeadedParts(text: string, data: string)
    ensures data != "" ==> Spliced(text, data) == Headed(text, data)
    ensures data == "" ==> (Spliced(text, data) == Headed(text, data) <==> Overlapped(text) == text)
  {
    hide Overlapped, DATA_HEADER, TEXT_HEADER;
    if data == "" {
      assert Spliced(text, data)[|TEXT_HEADER|..] == Overlapped(text);
      assert Headed(text, data) == TEXT_HEADER + text;
      assert Headed(text, data)[|TEXT_HEADER|..] == text;
    }
  }

  // ---------- compiling `main` ----------

  const NOTHING: Output := Output("", "", NO_TABLES)

  lemma ProgramOfMain(body: Block)
    ensures EmitProgram([Main(body)], NOTHING).text == Render(MainCode(body))
    ensures EmitProgram([Main(body)], NOTHING).data == DataText(StringDecls(body))
  {
    hide Render, DataText, CompileFunction;
    var o := Emit(NOTHING, CompiledFunction(Main(body), NO_TABLES), StringDecls(body));
    assert [Main(body)][1..] == [];
    assert EmitProgram([Main(body)], NOTHING) == o;
    assert "" + Render(MainCode(body)) == Render(MainCode(body));
    assert "" + DataText(StringDecls(body)) == DataText(StringDecls(body));
  }

  lemma DataPresent(decls: seq<StringDecl>)
    ensures DataText(decls) != "" <==> decls != []
  {
  }

  lemma SplicedMain(body: Block)
    requires StringDecls(body) != []
    ensures Spliced(Render(MainCode(body)), DataText(StringDecls(body))) == MainText(body)
  {
    hide Render, DataText, MainCode, DATA_HEADER, TEXT_HEADER;
    DataPresent(StringDecls(body));
  }

  /**
    * A source text that is `int main() { body }` and declares a string: its tokens, its expressions and the output
    * fit the compiler's buffers.
    */
  ghost predicate IsMainSource(source: string, body: Block) {
    && Stream(source, 0, Token(End, ""), ProgramTokens([Main(body)]))
    && CallsFit(body, FunctionNames([Main(body)]))
    && AllFit([Main(body)], NOTHING)
    && |MainText(body)| < MAX_ASM_OUTPUT
    && StringDecls(body) != []
  }

  lemma {:induction false} CallFreeFits(b: Block, defined: seq<string>)
    requires CallFree(b)
    ensures CallsFit(b, defined)
    decreases b
  {
    if b.Then? {
      match b.head {
        case While(_, _, body) => CallFreeFits(body, defined);
        case If(_, _, t, e) =>
          CallFreeFits(t, defined);
          if e.Some? { CallFreeFits(e.value, defined); }
        case _ =>
      }
      CallFreeFits(b.tail, defined);
    }
  }

  /** Every layout of a written `main` that fits the buffers is such a source text, and so there is always one. */
  lemma MainWritten(body: Block, layout: seq<S.Placed>)
    requires P.BlockWritten(body) && CallFree(body) && StringDecls(body) != []
    requires AllFit([Main(body)], NOTHING) && |MainText(body)| < MAX_ASM_OUTPUT
    ensures S.IsLayout(layout) && S.Tokens(layout) == ProgramTokens([Main(body)])
            ==> IsMainSource(S.LayoutText(layout), body)
    ensures IsMainSource(P.ProgramText([Main(body)]), body)
  {
    hide P.BlockWritten, ProgramTokens, P.ProgramText, Stream, AllFit, S.LayoutText, S.IsLayout, MainText, CallsFit;
    CallFreeFits(body, FunctionNames([Main(body)]));
    if S.IsLayout(layout) && S.Tokens(layout) == ProgramTokens([Main(body)]) { P.ProgramRead([Main(body)], layout); }
    P.ProgramTextRead([Main(body)]);
  }

  /** Compiling such a source gives the text of its body's code. */
  method CompileMain(source: string, ghost body: Block) returns (text: string)
    requires IsMainSource(source, body)
    ensures text == MainText(body)
  {
    hide Stream, ProgramTokens, EmitProgram, AllFit, Render, DataText, MainCode, DATA_HEADER, TEXT_HEADER, Spliced,
         CallsFit, FunctionNames;
    ProgramOfMain(body);
    SplicedMain(body);
    MainLengths(body);
    var compiler := new C.Compiler(source);
    var length := compiler.CompileSource([Main(body)]);
    text := compiler.asm[..length];
  }

  lemma MainLengths(body: Block)
    ensures |DATA_HEADER| + |DataText(StringDecls(body))| + |TEXT_HEADER| + |Render(MainCode(body))| == |MainText(body)|
  {
    hide Render, DataText, MainCode, DATA_HEADER, TEXT_HEADER;
  }

  // ---------- assembling and writing ----------

  /** The assembler's `main`: both passes, the entry point, and the image; the file's length, or nothing. */
  method AssembleFile(text: string, library: map<string, Word>, output: array<Byte>) returns (length: Option<nat>)
    requires output.Length >= PAGE_SIZE + PageRound(MAX_CODE) + PageRound(MAX_CODE)
    modifies output
    ensures length.None? <==> var code := Pass2(Lines(text), NamesOf(Lines(text), library)).code;
            code != [] && code[0] == 0x7F
    ensures length.Some? ==> length.value <= output.Length && IsImageOf(output[..length.value], Lines(text), library)
  {
    hide Lines, Pass1, Pass2, NamesOf, Image, Written, PageRound, FindLabel;
    var assembler := new A.Assembler(library);
    assembler.Assemble(text);
    var index := assembler.FindLabelIndex("start");
    var entry := if index != -1 then assembler.labels[index].address else 0;
    var code, data := assembler.code[..assembler.codeLength], assembler.data[..assembler.dataLength];
    RoundsBounded(|code|);
    RoundsBounded(|data|);
    ghost var before := output[..];
    var malformed := WriteElf(output, code, data, entry, assembler.hasExternalLabel);
    if malformed { return None; }
    length := Some(PAGE_SIZE + PageRound(|code|) + PageRound(|data|));
    WrittenPrefix(output, Image(code, data, entry, assembler.hasExternalLabel), before);
    ImageFound(output[..length.value], Lines(text), library, entry, assembler.hasExternalLabel);
  }

  lemma ImageFound(image: seq<Byte>, lines: seq<Line>, library: map<string, Word>, entry: nat, external: bool)
    requires var e := Pass2(lines, NamesOf(lines, library));
             && |e.code| <= MAX_CODE && |e.data| <= MAX_CODE
             && image == Image(e.code, e.data, entry, external)
    requires entry == EntryOffset(Pass1(lines).labels) && external == CallsLibrary(lines)
    ensures IsImageOf(image, lines, library)
  {
    hide Image, Pass1, Pass2, EntryOffset;
  }

  lemma RoundsBounded(n: nat)
    requires n <= MAX_CODE
    ensures PageRound(n) <= PageRound(MAX_CODE)
  {
  }

  lemma WrittenPrefix(output: array<Byte>, image: seq<Byte>, before: seq<Byte>)
    requires Written(output, image, before)
    ensures |image| <= output.Length && output[..|image|] == image
  {
  }

  // ---------- the whole build ----------

  /**
    * What the built file promises: it is the image of the compiled text, it starts at `main`, and its bytes come to
    * their `ret` exactly when the source ends, with the source's values.
    */
  ghost predicate Faithful(image: seq<Byte>, body: Block, library: map<string, Word>) {
    var bytes := CodeBytes(Lines(MainText(body)), library);
    && IsImageOf(image, Lines(MainText(body)), library)
    && Dword(image, 24) == CODE_BASE
    && LoadedAt(image, CODE_BASE, bytes)
    && (forall s: State :: SourceEnds(body, s) <==> BytesEnd(bytes, s))
    && forall s: State, fuel: nat :: ExecBlock(body, StartEnv(body, s), fuel).Some? ==>
         RunsTo(body, library, s, ExecBlock(body, StartEnv(body, s), fuel).value)
  }

  /** Some run of the bytes from `main`'s start finishes with these values. */
  ghost predicate RunsTo(body: Block, library: map<string, Word>, s: State, env: Env) {
    exists b :: ByteReaches(CodeBytes(Lines(MainText(body)), library), ByteConfig(0, s), b)
      && BytesFinished(body, library, s, env, b)
  }

  lemma FaithfulImage(image: seq<Byte>, body: Block, library: map<string, Word>)
    requires Buildable(body, library) && IsImageOf(image, MainLines(body), library)
    requires forall d :: d in StringDecls(body) ==> d.name != "start"
    ensures Faithful(image, body, library)
  {
    hide Buildable, IsImageOf, MainLines, MainText, Lines, CodeBytes, LoadedAt, ExecBlock, StartEnv, ByteReaches,
         BytesFinished, Dword, StringDecls,
         SourceEnds, BytesEnd;
    MainRead(body, library);
    ImageStartsMain(body, library, image);
    forall s: State
      ensures SourceEnds(body, s) <==> BytesEnd(CodeBytes(Lines(MainText(body)), library), s)
    {
      BytesEndIff(body, library, s);
    }
    forall s: State, fuel: nat | ExecBlock(body, StartEnv(body, s), fuel).Some?
      ensures RunsTo(body, library, s, ExecBlock(body, StartEnv(body, s), fuel).value)
    {
      var b := CompiledBytesRun(body, library, s, fuel);
    }
  }

  // ---------- the file is never taken for a second header ----------

  lemma LoweredKnown(a: Asm)
    requires IsData(a)
    ensures !AsmMachine.Lower(a).Unknown?
  {
  }

  /** The first instruction from address 0 on is one the disassembler knows. */
  lemma {:induction false} FirstDecoded(lines: seq<Line>, k0: nat, code: seq<Asm>, library: map<string, Word>, i: nat)
    requires Embedded(lines, k0, code, library) && code != [] && code[|code| - 1] == Return
    requires i < |code| && k0 + i <= |lines| && AddressOf(lines, k0, i, library) == 0
    ensures !Decode(CodeBytes(lines, library), 0).instr.Unknown?
    decreases |code| - i
  {
    hide *;
    BytesUnfold(lines, library);
    EmbeddedAt(lines, k0, code, library, i);
    if code[i].LabelDef? {
      LabelNoBytes(lines, k0, code, library, i);
      FirstDecoded(lines, k0, code, library, i + 1);
    } else if IsData(code[i]) {
      DataDecoded(lines, k0, code, library, i);
      LoweredKnown(code[i]);
    } else {
      JumpOnly(lines, k0, code, library, i);
      JumpDecoded(lines, k0, code, library, i);
    }
  }

  lemma UnknownByte(bytes: seq<Byte>)
    requires bytes != [] && bytes[0] == 0x7F
    ensures Decode(bytes, 0).instr.Unknown?
  {
    assert At(bytes, 0) == 0x7F;
  }

  lemma NeverMalformed(body: Block, library: map<string, Word>)
    requires Buildable(body, library)
    ensures var bytes := CodeBytes(MainLines(body), library); bytes == [] || bytes[0] != 0x7F
  {
    hide *;
    MainEmbedded(body, library);
    MainShape(body);
    StartsAtZero(body, library);
    MainNonempty(body);
    FirstDecoded(MainLines(body), FirstCodeLine(StringDecls(body)), MainCode(body), library, 0);
    var bytes := CodeBytes(MainLines(body), library);
    if bytes != [] && bytes[0] == 0x7F { UnknownByte(bytes); }
  }

  lemma MainNonempty(body: Block)
    ensures MainCode(body) != []
  {
    hide CompileBlock;
  }

  /**
    * From the characters of a C program to a file: for every source text of a loop program with a string, the
    * file that compiler, assembler and image writer leave starts at `main` and computes the source's values.
    */
  method BuildMain(source: string, library: map<string, Word>, output: array<Byte>, ghost body: Block)
    returns (length: Option<nat>)
    requires IsMainSource(source, body) && Buildable(body, library)
    requires forall d :: d in StringDecls(body) ==> d.name != "start"
    requires output.Length >= PAGE_SIZE + PageRound(MAX_CODE) + PageRound(MAX_CODE)
    modifies output
    ensures length.Some? && length.value <= output.Length && Faithful(output[..length.value], body, library)
  {
    hide IsMainSource, Buildable, IsImageOf, Faithful, MainText, Lines, StringDecls, PageRound, Pass2, NamesOf,
         MainLines;
    NeverMalformed(body, library);
    BytesUnfold(MainLines(body), library);
    var text := CompileMain(source, body);
    MainRead(body, library);
    length := AssembleFile(text, library, output);
    FaithfulImage(output[..length.value], body, library);
  }
}
