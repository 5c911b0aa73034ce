/** The compiler itself: a recursive-descent parser that writes assembly text into its buffers as it reads tokens. */
module Compiler {
  import opened Words
  import opened LibcText
  import opened LibcMemory
  import opened X86
  import opened SourceLanguage
  import opened CodeGenerator
  import opened CompilerCorrectness
  import opened AssemblyText
  import opened AsmPrinting
  import opened AssemblySource
  import opened Lexer
  import opened Grammar
  import opened TextBuffer
  import opened ExprRecord
  import opened StatementTokens
  import opened EmittedText

  datatype Symbol = Symbol(name: string, offset: int)

  function SymbolNames(symbols: seq<Symbol>): seq<string> {
    seq(|symbols|, i requires 0 <= i < |symbols| => symbols[i].name)
  }

  ghost predicate Offsets(symbols: seq<Symbol>) {
    forall i :: 0 <= i < |symbols| ==> symbols[i].offset == SlotOffset(i)
  }

  ghost predicate Blank(s: string) {
    forall k :: 0 <= k < |s| ==> s[k] == NUL
  }

  /** Token text has no terminator inside; numbers and names are not empty. */
  predicate TokenText(t: Token) {
    NulFree(t.value) && (t.kind == Kind.Numeral || t.kind == Identifier ==> t.value != "")
  }

  class Compiler {
    const source: string
    var position: nat
    var token: Token
    const asm: array<char>
    var asmPosition: nat
    const data: array<char>
    var dataPosition: nat
    var symbols: seq<Symbol>
    var dataSymbols: seq<string>
    var loops: nat
    var ifs: nat
    var defined: seq<string>

    ghost predicate Valid()
      reads this, asm, data
    {
      && position <= |source|
      && asm.Length == MAX_ASM_OUTPUT && data.Length == MAX_ASM_OUTPUT && asm != data
      && asmPosition < MAX_ASM_OUTPUT && dataPosition < MAX_ASM_OUTPUT
      && Offsets(symbols) && TokenText(token) && (forall n :: n in dataSymbols ==> NulFree(n) && n != "")
      && Blank(asm[asmPosition..])
    }

    ghost function Now(): Output
      reads this, asm, data
      requires Valid()
    {
      Output(asm[..asmPosition], data[..dataPosition], Tables(SymbolNames(symbols), dataSymbols, loops, ifs))
    }

    /** The current token and the source after it are these tokens. */
    ghost predicate At(tokens: seq<Expected>)
      reads `position, `token
    {
      && position <= |source|
      && tokens != [] && token == tokens[0].token
      && (tokens[0].leading ==> !CommentAt(source, Scan(source, position, IsVisible)))
      && Stream(source, position, token, tokens[1..])
    }

    constructor (source: string)
      ensures Valid() && fresh(asm) && fresh(data) && this.source == source
      ensures position == 0 && token == Token(End, "") && defined == []
      ensures Now() == Output("", "", Tables([], [], 0, 0))
    {
      this.source := source;
      position, token := 0, Token(End, "");
      asm := new char[MAX_ASM_OUTPUT](i => NUL);
      data := new char[MAX_ASM_OUTPUT](i => NUL);
      asmPosition, dataPosition := 0, 0;
      symbols, dataSymbols, loops, ifs, defined := [], [], 0, 0, [];
      new;
      assert asm[0..] == asm[..];
    }

    // ---------- output ----------

    /** `emitAssembly`: append, with a terminator that the next text overwrites. */
    method EmitAssembly(s: string)
      requires Valid() && NulFree(s) && asmPosition + |s| < MAX_ASM_OUTPUT
      modifies this`asmPosition, asm
      ensures Valid() && asmPosition == old(asmPosition) + |s|
      ensures asm[..asmPosition] == old(asm[..asmPosition]) + s
    {
      hide Offsets;
      ghost var tail := asm[asmPosition..];
      StringCopy(asm, asmPosition, s);
      asmPosition := asmPosition + |s|;
      assert asm[asmPosition..] == [NUL] + tail[|s| + 1..];
    }

    method EmitData(s: string)
      requires Valid() && NulFree(s) && dataPosition + |s| < MAX_ASM_OUTPUT
      modifies this`dataPosition, data
      ensures Valid() && dataPosition == old(dataPosition) + |s|
      ensures data[..dataPosition] == old(data[..dataPosition]) + s
    {
      hide Offsets;
      StringCopy(data, dataPosition, s);
      dataPosition := dataPosition + |s|;
    }

    // ---------- tokens ----------

    /** `getNextToken`. */
    method GetNextToken(ghost tokens: seq<Expected>)
      requires Valid() && At(tokens) && |tokens| > 1
      modifies this`position, this`token
      ensures Valid() && At(tokens[1..]) && Now() == old(Now())
    {
      hide Lex, Scan, Offsets, Blank;
      LexTokenText(source, position, token);
      token, position := LexLoop(source, position, token);
    }

    /** `expectToken`: a mismatch only prints a message. */
    method ExpectToken(kind: Kind, ghost tokens: seq<Expected>)
      requires Valid() && At(tokens) && |tokens| > 1
      modifies this`position, this`token
      ensures Valid() && At(tokens[1..]) && Now() == old(Now())
    {
      GetNextToken(tokens);
    }

    // ---------- symbols ----------

    method AddSymbol(name: string)
      requires Valid()
      modifies this`symbols
      ensures Valid() && SymbolNames(symbols) == SymbolNames(old(symbols)) + [name]
    {
      hide Blank;
      symbols := symbols + [Symbol(name, -(|symbols| + 1) * 4)];
    }

    /** `getSymbolOffset`: adds an unknown name. */
    method GetSymbolOffset(name: string) returns (offset: int)
      requires Valid()
      modifies this`symbols
      ensures Valid()
      ensures offset == OffsetOf(SymbolNames(old(symbols)), name)
      ensures SymbolNames(symbols) == Touch(SymbolNames(old(symbols)), name)
    {
      hide Blank;
      ghost var names := SymbolNames(symbols);
      var i := 0;
      while i < |symbols|
        invariant 0 <= i <= |symbols| && symbols == old(symbols)
        invariant forall k :: 0 <= k < i ==> names[k] != name
      {
        if symbols[i].name == name {
          FoundFirst(names, name, i);
          return symbols[i].offset;
        }
        i := i + 1;
      }
      assert name !in names;
      AddSymbol(name);
      offset := symbols[|symbols| - 1].offset;
      NameCount(symbols);
      NameCount(old(symbols));
    }

    method IsDataSymbol(name: string) returns (found: bool)
      ensures found <==> name in dataSymbols
    {
      var k := 0;
      while k < |dataSymbols|
        invariant 0 <= k <= |dataSymbols|
        invariant forall j :: 0 <= j < k ==> dataSymbols[j] != name
      {
        if dataSymbols[k] == name { return true; }
        k := k + 1;
      }
      found := false;
    }

    method IsFunctionDefined(name: string) returns (found: bool)
      ensures found <==> name in defined
    {
      var k := 0;
      while k < |defined|
        invariant 0 <= k <= |defined|
        invariant forall j :: 0 <= j < k ==> defined[j] != name
      {
        if defined[k] == name { return true; }
        k := k + 1;
      }
      found := false;
    }

    // ---------- expressions ----------

    /** `[ebp` and the offset's numeral and `]`. */
    method SlotText(offset: int) returns (text: string)
      ensures text == MemText(offset) && NulFree(text) && text != ""
    {
      hide ItoaText;
      var digits := Itoa(Wrap(offset));
      text := "[ebp" + digits + "]";
      NumberNulFree(Wrap(offset));
    }

    method ParsePrimary(ghost p: Primary, ghost rest: seq<Expected>) returns (operand: string)
      requires Valid() && At(PrimaryTokens(p) + rest) && rest != []
      modifies this`position, this`token, this`symbols
      ensures Valid() && At(rest) && NulFree(operand) && operand != ""
      ensures var (loc, syms) := CompilePrimary(p, SymbolNames(old(symbols)), dataSymbols);
              operand == LocationText(loc) && SymbolNames(symbols) == syms
    {
      hide Offsets, Blank, Stream, MemText, OffsetOf, Touch, SymbolNames;
      if token.kind == Kind.Numeral {
        operand := token.value;
      } else {
        var isData := IsDataSymbol(token.value);
        if isData {
          operand := token.value;
        } else {
          var offset := GetSymbolOffset(token.value);
          operand := SlotText(offset);
        }
      }
      GetNextToken(PrimaryTokens(p) + rest);
      assert (PrimaryTokens(p) + rest)[1..] == rest;
    }

    /**
      * `parseExpressionInfo`: a primary, and code that adds a chain of numbers to it in eax. The code is what the
      * record keeps of it: all of it, or its first 200 characters.
      */
    method ParseExpressionInfo(ghost e: Expr, ghost rest: seq<Expected>) returns (info: ExprInfo)
      requires Valid() && At(ExprTokens(e) + rest) && rest != [] && rest[0].token.kind != Plus
      requires PrimaryHeld(e.first, dataSymbols)
      requires |Render(CompileExpr(e, SymbolNames(symbols), dataSymbols).code)| < RECORD_SIZE
      modifies this`position, this`token, this`symbols
      ensures Valid() && At(rest) && NulFree(info.code) && NulFree(info.operand) && info.operand != ""
      ensures var ec := CompileExpr(e, SymbolNames(old(symbols)), dataSymbols);
              && info.code == Stored(Render(ec.code)) && info.operand == LocationText(ec.loc)
              && SymbolNames(symbols) == ec.syms
    {
      hide Offsets, Blank, Stream, MemText, SymbolNames, PrimaryTokens, CompilePrimary, LocationText, NulFree,
           TokenText,
           Render, LoadEax, TextAt, Stored;
      assert ExprTokens(e) + rest == PrimaryTokens(e.first) + (AddTokens(e.adds) + rest);
      var record := new char[RECORD_SIZE](i => NUL);
      ClearRecord(record);
      var operand := ParsePrimary(e.first, AddTokens(e.adds) + rest);
      ghost var loc := CompilePrimary(e.first, SymbolNames(old(symbols)), dataSymbols).0;
      if token.kind != Plus {
        AddsNeedPlus(e.adds, rest);
        NothingRendered();
        NothingStored();
        return ExprInfo("", operand);
      }
      AddsNeedPlus(e.adds, rest);
      FirstFits(loc, e.adds);
      AppendLoad(record, operand, loc);
      ParseAdds(record, e.adds, rest, loc);
      ghost var text := Render([LoadEax(loc)] + AddChain(e.adds));
      FinishRecord(record, text);
      var code := ReadCode(record, Stored(text));
      StoredNulFree(record[..], Stored(text));
      info := ExprInfo(code, "eax");
      EaxText();
    }

    /** `mov eax, <operand>`, into an empty record. */
    method AppendLoad(record: array<char>, operand: string, ghost loc: Location)
      requires TextAt(record[..], "") && operand == LocationText(loc) && operand != "" && NulFree(operand)
      requires |Render([LoadEax(loc)])| < record.Length
      modifies record
      ensures TextAt(record[..], Render([LoadEax(loc)]))
    {
      hide LocationText, Render, LoadEax, TextAt;
      LoadText(loc);
      LoadPieces(operand);
      AppendToCode(record, "", "\tmov eax, ");
      AppendToCode(record, "\tmov eax, ", operand);
      AppendToCode(record, "\tmov eax, " + operand, "\n");
    }

    /** The loop over `+ number`. */
    method ParseAdds(record: array<char>, ghost adds: seq<string>, ghost rest: seq<Expected>, ghost loc: Location)
      requires Valid() && At(AddTokens(adds) + rest) && rest != [] && rest[0].token.kind != Plus
      requires record != asm && record != data
      requires TextAt(record[..], Render([LoadEax(loc)])) && |Render([LoadEax(loc)] + AddChain(adds))| < record.Length
      modifies this`position, this`token, record
      ensures Valid() && At(rest) && Now() == old(Now())
      ensures TextAt(record[..], Render([LoadEax(loc)] + AddChain(adds)))
    {
      hide Valid, At, Now, Stream, Render, LoadEax, AddTokens, TextAt;
      ghost var todo := adds;
      ghost var done := [LoadEax(loc)];
      AtFirst(AddTokens(todo) + rest);
      while token.kind == Plus
        invariant Valid() && At(AddTokens(todo) + rest) && token == (AddTokens(todo) + rest)[0].token
                  && Now() == old(Now())
        invariant TextAt(record[..], Render(done)) && done + AddChain(todo) == [LoadEax(loc)] + AddChain(adds)
        decreases |todo|
      {
        AddsNeedPlus(todo, rest);
        AddOne(done, todo);
        RenderAppend(done + [CodeGenerator.AddText(EAX, todo[0])], AddChain(todo[1..]));
        ParseAdd(record, Render(done), todo, rest);
        done := done + [CodeGenerator.AddText(EAX, todo[0])];
        todo := todo[1..];
        AtFirst(AddTokens(todo) + rest);
      }
      AddsNeedPlus(todo, rest);
      NoMoreAdds(done);
    }

    /** One `+ number`. */
    method ParseAdd(record: array<char>, ghost text: string, ghost adds: seq<string>, ghost rest: seq<Expected>)
      requires Valid() && At(AddTokens(adds) + rest) && adds != [] && rest != []
      requires record != asm && record != data && TextAt(record[..], text)
      requires |text| + |Render([CodeGenerator.AddText(EAX, adds[0])])| < record.Length
      modifies this`position, this`token, record
      ensures Valid() && At(AddTokens(adds[1..]) + rest) && Now() == old(Now())
      ensures TextAt(record[..], text + Render([CodeGenerator.AddText(EAX, adds[0])]))
    {
      hide Valid, At, Now, Stream, Render, NulFree, AddTokens, TextAt;
      ghost var tokens := AddTokens(adds) + rest;
      AddSplit(adds, rest);
      GetNextToken(tokens);
      AtFirst(tokens[1..]);
      NameText();
      AddLineText(token.value);
      AddPieces(text, token.value);
      AppendToCode(record, text, "\tadd eax, ");
      AppendToCode(record, text + "\tadd eax, ", token.value);
      AppendToCode(record, text + "\tadd eax, " + token.value, "\n");
      GetNextToken(tokens[1..]);
    }

    // ---------- declarations and assignments ----------

    /** Evaluate an expression into the slot of a variable; the expression is read first. */
    method StoreExpression(name: string, ghost e: Expr, ghost rest: seq<Expected>)
      requires Valid() && At(ExprTokens(e) + rest) && rest != [] && rest[0].token.kind != Plus
      requires ExprHeld(e, SymbolNames(symbols), dataSymbols)
      requires asmPosition + |Render(StoreCode(name, e, SymbolNames(symbols), dataSymbols))| < MAX_ASM_OUTPUT
      modifies this`position, this`token, this`symbols, this`asmPosition, asm
      ensures Valid() && At(rest)
      ensures SymbolNames(symbols) == StoreSyms(name, e, SymbolNames(old(symbols)), dataSymbols)
      ensures asm[..asmPosition]
           == old(asm[..asmPosition]) + Render(StoreCode(name, e, SymbolNames(old(symbols)), dataSymbols))
    {
      hide Offsets, Blank, Stream, MemText, SymbolNames, LocationText, NulFree, TokenText, Render, LoadEax, ExprTokens,
           CompileExpr, OffsetOf, Touch,
           ExprHeld, Stored, PrimaryHeld;
      ghost var ec := CompileExpr(e, SymbolNames(symbols), dataSymbols);
      HeldCode(e, SymbolNames(symbols), dataSymbols);
      var info := ParseExpressionInfo(e, rest);
      var offset := GetSymbolOffset(name);
      EmitStore(info, offset, ec);
    }

    method EmitStore(info: ExprInfo, offset: int, ghost ec: ExprCode)
      requires Valid() && InfoOf(info, ec) && NulFree(info.code) && NulFree(info.operand) && info.operand != ""
      requires asmPosition + |Render(ec.code + [LoadEax(ec.loc), MovStore(offset, EAX)])| < MAX_ASM_OUTPUT
      modifies this`asmPosition, asm
      ensures Valid()
      ensures asm[..asmPosition] == old(asm[..asmPosition]) + Render(ec.code + [LoadEax(ec.loc), MovStore(offset, EAX)])
    {
      hide Offsets, Blank, MemText, LocationText, NulFree, TokenText, Render, LoadEax;
      ghost var before := asm[..asmPosition];
      var slot := SlotText(offset);
      StoreText(ec, offset);
      EmitAssembly(info.code);
      EmitAssembly("\tmov eax, " + info.operand + "\n");
      EmitAssembly("\tmov " + slot + ", eax\n");
      assert asm[..asmPosition]
             == before + (info.code + ("\tmov eax, " + info.operand + "\n") + ("\tmov " + slot + ", eax\n"));
    }

    /** The same, as a change of the whole output. */
    method StoreValue(name: string, ghost e: Expr, ghost rest: seq<Expected>)
      requires Valid() && At(ExprTokens(e) + rest) && rest != [] && rest[0].token.kind != Plus
      requires ExprHeld(e, Now().tables.syms, Now().tables.strings)
      requires |Now().text| + |Render(StoreCode(name, e, Now().tables.syms, Now().tables.strings))| < MAX_ASM_OUTPUT
      modifies this`position, this`token, this`symbols, this`asmPosition, asm
      ensures Valid() && At(rest)
      ensures var t := old(Now()).tables;
              var stored := t.(syms := StoreSyms(name, e, t.syms, t.strings));
              Now() == Emit(old(Now()), Compiled(StoreCode(name, e, t.syms, t.strings), stored), [])
    {
      hide Offsets, Blank, Stream, SymbolNames, NulFree, TokenText, Render, ExprTokens, StoreCode, StoreSyms, ExprHeld;
      StoreExpression(name, e, rest);
      assert data[..dataPosition] + "" == data[..dataPosition];
    }

    method DeclareSymbol(name: string)
      requires Valid()
      modifies this`symbols
      ensures Valid() && Now() == old(Now()).(tables := old(Now()).tables.(syms := old(Now()).tables.syms + [name]))
    {
      hide Offsets, Blank, SymbolNames;
      AddSymbol(name);
    }

    method DeclareData(name: string)
      requires Valid() && NulFree(name) && name != ""
      modifies this`dataSymbols
      ensures Valid()
              && Now() == old(Now()).(tables := old(Now()).tables.(strings := old(Now()).tables.strings + [name]))
    {
      hide Offsets, Blank, SymbolNames, NulFree;
      dataSymbols := dataSymbols + [name];
    }

    /** `parseDeclaration` of an int, with or without an initial value. */
    method ParseIntDeclaration(ghost s: Stmt, ghost rest: seq<Expected>)
      requires s.Declare? || s.DeclareInit?
      requires Valid() && At(StmtTokens(s) + rest) && rest != []
      requires Fits(Emit(Now(), CompileStmt(s, Now().tables), []))
      requires StmtHeld(s, Now().tables)
      modifies this, asm, data
      ensures Valid() && At(rest) && defined == old(defined)
      ensures Now() == Emit(old(Now()), CompileStmt(s, old(Now()).tables), [])
    {
      hide Valid, At, Now, Stream, StmtTokens, ExprTokens, Render, StoreCode, StoreSyms, ExprHeld, NulFree, Touch,
           OffsetOf,
           STOP, DataText, CompileExpr, TokenText, Lex, Scan;
      ghost var tokens := StmtTokens(s) + rest;
      EmitNothing(Now());
      AtFirst(tokens);
      StmtFirst(s, rest);
      DeclareTokens(s, rest);
      ExpectToken(IntWord, tokens);
      AtFirst(tokens[1..]);
      var name := token.value;
      GetNextToken(tokens[1..]);
      ParseInitializer(name, s, tokens[1..][1..], rest);
      StopThen(rest);
      DeclareSymbol(name);
      ExpectToken(Semicolon, STOP + rest);
    }

    /** The initial value of an int, if the declaration has one. */
    method ParseInitializer(name: string, ghost s: Stmt, ghost tokens: seq<Expected>, ghost rest: seq<Expected>)
      requires s.Declare? || s.DeclareInit?
      requires Valid() && At(tokens) && (s.DeclareInit? <==> tokens[0].token.kind == Equals)
      requires s.Declare? ==> tokens == STOP + rest
      requires s.DeclareInit? ==> |tokens| > 1 && tokens[1..] == ExprTokens(s.value) + (STOP + rest)
      requires s.DeclareInit? ==>
                 var t := Now().tables;
                 && ExprHeld(s.value, t.syms, t.strings)
                 && |Now().text| + |Render(StoreCode(name, s.value, t.syms, t.strings))| < MAX_ASM_OUTPUT
      modifies this`position, this`token, this`symbols, this`asmPosition, asm
      ensures Valid() && At(STOP + rest)
      ensures var t := old(Now()).tables;
              Now() == if s.Declare? then old(Now())
                       else
                         var stored := t.(syms := StoreSyms(name, s.value, t.syms, t.strings));
                         Emit(old(Now()), Compiled(StoreCode(name, s.value, t.syms, t.strings), stored), [])
    {
      hide Valid, Now, Stream, ExprTokens, Render, StoreCode, StoreSyms, ExprHeld, Lex, Scan, STOP;
      AtFirst(tokens);
      if token.kind == Equals {
        GetNextToken(tokens);
        StopThen(rest);
        StoreValue(name, s.value, STOP + rest);
      }
    }

    /** `parseDeclaration` of a string variable. */
    method ParseStringDeclaration(ghost s: Stmt, ghost rest: seq<Expected>)
      requires s.DeclareString?
      requires Valid() && At(StmtTokens(s) + rest) && rest != []
      requires Fits(Emit(Now(), CompileStmt(s, Now().tables), StmtStringDecls(s)))
      requires StmtHeld(s, Now().tables)
      modifies this, asm, data
      ensures Valid() && At(rest) && defined == old(defined)
      ensures Now() == Emit(old(Now()), CompileStmt(s, old(Now()).tables), StmtStringDecls(s))
    {
      hide Valid, At, Now, Stream, StmtTokens, Render, DataText, NulFree, ExprHeld, STOP, TokenText, Lex, Scan;
      ghost var tokens := StmtTokens(s) + rest;
      NothingRendered();
      DeclareStringTokens(s, rest);
      ExpectToken(CharWord, tokens);
      ExpectToken(Star, tokens[1..]);
      AtFirst(tokens[2..]);
      NameText();
      var name := token.value;
      GetNextToken(tokens[2..]);
      GetNextToken(tokens[3..]);
      DeclareData(name);
      AtFirst(tokens[4..]);
      NameText();
      EmitDeclaration(name, token.value);
      GetNextToken(tokens[4..]);
      ExpectToken(Semicolon, tokens[5..]);
    }

    method EmitDeclaration(name: string, text: string)
      requires Valid() && NulFree(name) && NulFree(text)
      requires |Now().data| + |DataText([StringDecl(name, text)])| < MAX_ASM_OUTPUT
      modifies this`dataPosition, data
      ensures Valid() && Now() == old(Now()).(data := old(Now()).data + DataText([StringDecl(name, text)]))
    {
      hide Offsets, Blank, DataText, NulFree, TokenText, SymbolNames;
      ghost var before := data[..dataPosition];
      DeclarationText(StringDecl(name, text));
      EmitData(name);
      EmitData(":\n    db '");
      EmitData(text);
      EmitData("'\n\n");
      assert data[..dataPosition] == before + (name + ":\n    db '" + text + "'\n\n");
    }

    /** `parseAssignment`. */
    method ParseAssignment(ghost s: Stmt, ghost rest: seq<Expected>)
      requires s.Assign?
      requires Valid() && At(StmtTokens(s) + rest) && rest != []
      requires Fits(Emit(Now(), CompileStmt(s, Now().tables), []))
      requires StmtHeld(s, Now().tables)
      modifies this, asm, data
      ensures Valid() && At(rest) && defined == old(defined)
      ensures Now() == Emit(old(Now()), CompileStmt(s, old(Now()).tables), [])
    {
      hide Valid, At, Now, Stream, StmtTokens, ExprTokens, Render, StoreCode, StoreSyms, ExprHeld, NulFree, Touch,
           OffsetOf,
           STOP, DataText, CompileExpr, TokenText, Lex, Scan;
      ghost var tokens := StmtTokens(s) + rest;
      AssignTokens(s, rest);
      AtFirst(tokens);
      var name := token.value;
      GetNextToken(tokens);
      ExpectToken(Equals, tokens[1..]);
      StopThen(rest);
      StoreValue(name, s.value, STOP + rest);
      ExpectToken(Semicolon, STOP + rest);
    }

    // ---------- control flow ----------

    method NumberedLabel(prefix: string, k: nat) returns (name: string)
      requires k <= MAX_LABEL_NUMBER && (prefix == "loop_" || prefix == "else_" || prefix == "end_")
      ensures name == prefix + Decimal(k) && NulFree(name)
    {
      hide ItoaText;
      var digits := Itoa(k);
      NumberNulFree(k);
      SmallItoa(k);
      name := prefix + digits;
    }

    method LoopLabels(k: nat) returns (loopLabel: string, endLabel: string)
      requires k <= MAX_LABEL_NUMBER
      ensures loopLabel == LoopLabel(k) && endLabel == EndLabel(k)
    {
      hide Decimal;
      loopLabel := NumberedLabel("loop_", k);
      endLabel := NumberedLabel("end_", k);
    }

    method BranchLabels(k: nat) returns (elseLabel: string, endLabel: string)
      requires k <= MAX_LABEL_NUMBER
      ensures elseLabel == ElseLabel(k) && endLabel == EndLabel(k)
    {
      hide Decimal;
      elseLabel := NumberedLabel("else_", k);
      endLabel := NumberedLabel("end_", k);
    }

    /** Appends the text of emitted instructions. */
    method EmitLines(text: string, ghost code: seq<Asm>)
      requires Valid() && text == Render(code) && NulFree(text) && |Now().text| + |text| < MAX_ASM_OUTPUT
      modifies this`asmPosition, asm
      ensures Valid() && Now() == Emit(old(Now()), Compiled(code, old(Now()).tables), [])
    {
      hide Render, NulFree, Offsets, Blank, SymbolNames;
      EmitAssembly(text);
      assert data[..dataPosition] + "" == data[..dataPosition];
    }

    /** The static label counters. */
    method TakeLoopNumber() returns (k: nat)
      requires Valid()
      modifies this`loops
      ensures Valid() && k == old(Now()).tables.loops
      ensures Now() == old(Now()).(tables := old(Now()).tables.(loops := k + 1))
    {
      hide Offsets, Blank, SymbolNames;
      k := loops;
      loops := loops + 1;
    }

    method TakeIfNumber() returns (k: nat)
      requires Valid()
      modifies this`ifs
      ensures Valid() && k == old(Now()).tables.ifs
      ensures Now() == old(Now()).(tables := old(Now()).tables.(ifs := k + 1))
    {
      hide Offsets, Blank, SymbolNames;
      k := ifs;
      ifs := ifs + 1;
    }

    /** A variable used in a condition: its slot, as text. */
    method SlotOf(name: string) returns (slot: string)
      requires Valid()
      modifies this`symbols
      ensures Valid() && NulFree(slot) && slot == MemText(OffsetOf(old(Now()).tables.syms, name))
      ensures Now() == old(Now()).(tables := old(Now()).tables.(syms := Touch(old(Now()).tables.syms, name)))
    {
      hide Offsets, Blank, SymbolNames, MemText, OffsetOf, Touch, NulFree;
      var offset := GetSymbolOffset(name);
      slot := SlotText(offset);
    }

    /** The condition `while (left < bound) {` of a loop. */
    method ParseLoopCondition(ghost s: Stmt, ghost rest: seq<Expected>) returns (slot: string, bound: string)
      requires s.While? && Valid() && At(StmtTokens(s) + rest)
      requires rest != []
      modifies this`position, this`token, this`symbols
      ensures Valid() && At(BlockTokens(s.body) + (FINISH + rest))
      ensures slot == MemText(OffsetOf(old(Now()).tables.syms, s.left)) && NulFree(slot)
      ensures bound == s.bound && NulFree(bound) && bound != ""
      ensures Now() == old(Now()).(tables := old(Now()).tables.(syms := Touch(old(Now()).tables.syms, s.left)))
    {
      hide Offsets, Blank, Stream, SymbolNames, StmtTokens, BlockTokens, Touch, OffsetOf, MemText;
      ghost var tokens := StmtTokens(s) + rest;
      WhileTokens(s, rest);
      ExpectToken(WhileWord, tokens);
      ExpectToken(LeftParen, tokens[1..]);
      slot := SlotOf(token.value);
      GetNextToken(tokens[2..]);
      GetNextToken(tokens[3..]);
      bound := token.value;
      GetNextToken(tokens[4..]);
      ExpectToken(RightParen, tokens[5..]);
      ExpectToken(LeftBrace, tokens[6..]);
    }

    /** `parseWhileStatement`. */
    method ParseWhile(ghost s: Stmt, ghost rest: seq<Expected>)
      requires s.While? && StmtCallsFit(s, defined)
      requires Valid() && At(StmtTokens(s) + rest)
      requires rest != []
      requires Fits(Emit(Now(), CompileStmt(s, Now().tables), StmtStringDecls(s)))
      requires StmtHeld(s, Now().tables)
      modifies this, asm, data
      ensures Valid() && At(rest) && defined == old(defined)
      ensures Now() == Emit(old(Now()), CompileStmt(s, old(Now()).tables), StmtStringDecls(s))
      decreases StmtSize(s), 0
    {
      hide Valid, At, Now, StmtTokens, BlockTokens, Emit, Fits, CompileStmt, CompileBlock, WhileHead, WhileTail,
           OffsetOf, Touch, MemText, Render, NulFree, LoopLabel, EndLabel, StmtHeld, BlockHeld;
      ghost var before := Now();
      WhilePlan(s, before);
      WhileHeld(s, before.tables);
      EmittedTables();
      var slot, bound := ParseLoopCondition(s, rest);
      var k := TakeLoopNumber();
      var loopLabel, endLabel := LoopLabels(k);
      WhileHeadText(k, OffsetOf(before.tables.syms, s.left), bound);
      EmitLines((loopLabel + ":\n") + ("\tcmp " + slot + ", " + bound + "\n") + ("\tjge " + endLabel + "\n"),
                WhileHead(k, OffsetOf(before.tables.syms, s.left), bound));
      FinishThen(rest);
      ParseStatementList(s.body, FINISH + rest);
      WhileTailText(k);
      ExpectToken(RightBrace, FINISH + rest);
      EmitLines(("\tjmp " + loopLabel + "\n") + (endLabel + ":\n"), WhileTail(k));
    }

    /** `parseStatementList`. */
    method ParseStatementList(ghost b: Block, ghost rest: seq<Expected>)
      requires CallsFit(b, defined)
      requires Valid() && At(BlockTokens(b) + rest)
      requires rest != [] && EndsList(rest[0].token.kind)
      requires Fits(Emit(Now(), CompileBlock(b, Now().tables), StringDecls(b)))
      requires BlockHeld(b, Now().tables)
      modifies this, asm, data
      ensures Valid() && At(rest) && defined == old(defined)
      ensures Now() == Emit(old(Now()), CompileBlock(b, old(Now()).tables), StringDecls(b))
      decreases BlockSize(b), 1
    {
      hide Valid, At, Now, StmtTokens, Emit, Fits, CompileStmt, Render, StmtHeld;
      ghost var todo := b;
      ghost var final := Emit(Now(), CompileBlock(b, Now().tables), StringDecls(b));
      EmittedTables();
      AtFirst(BlockTokens(todo) + rest);
      while token.kind != RightBrace && token.kind != End
        invariant Valid() && At(BlockTokens(todo) + rest) && token == (BlockTokens(todo) + rest)[0].token
        invariant BlockHeld(todo, Now().tables)
        invariant CallsFit(todo, defined) && defined == old(defined) && BlockSize(todo) <= BlockSize(b)
        invariant Emit(Now(), CompileBlock(todo, Now().tables), StringDecls(todo)) == final
        decreases BlockSize(todo)
      {
        assert todo.Then?;
        BlockPlan(todo, Now());
        BlockStarts(todo, rest);
        BlockStarts(todo.tail, rest);
        ParseStatement(todo.head, BlockTokens(todo.tail) + rest);
        todo := todo.tail;
        AtFirst(BlockTokens(todo) + rest);
      }
      BlockStarts(todo, rest);
      EmitNothing(Now());
    }

    /** The condition `if (left != right) {`. */
    method ParseIfCondition(ghost s: Stmt, ghost rest: seq<Expected>) returns (slot1: string, slot2: string)
      requires s.If? && Valid() && At(StmtTokens(s) + rest)
      requires rest != []
      modifies this`position, this`token, this`symbols
      ensures Valid() && At(BlockTokens(s.thenBlock) + (FINISH + (ElseTokens(s.elseBlock) + rest)))
      ensures slot1 == MemText(OffsetOf(old(Now()).tables.syms, s.left)) && NulFree(slot1)
      ensures slot2 == MemText(OffsetOf(Touch(old(Now()).tables.syms, s.left), s.right)) && NulFree(slot2)
      ensures var t := old(Now()).tables;
              Now() == old(Now()).(tables := t.(syms := Touch(Touch(t.syms, s.left), s.right)))
    {
      hide Offsets, Blank, Stream, SymbolNames, StmtTokens, BlockTokens, ElseTokens, Touch, OffsetOf, MemText, Now,
           NulFree, Valid;
      ghost var tokens := StmtTokens(s) + rest;
      IfTokens(s, rest);
      ExpectToken(IfWord, tokens);
      ExpectToken(LeftParen, tokens[1..]);
      slot1 := SlotOf(token.value);
      GetNextToken(tokens[2..]);
      GetNextToken(tokens[3..]);
      slot2 := SlotOf(token.value);
      GetNextToken(tokens[4..]);
      ExpectToken(RightParen, tokens[5..]);
      ExpectToken(LeftBrace, tokens[6..]);
    }

    /** The condition of an `if`, and its code, with the labels of the statement. */
    method ParseIfHead(ghost s: Stmt, ghost rest: seq<Expected>) returns (elseLabel: string, endLabel: string)
      requires s.If? && Valid() && At(StmtTokens(s) + rest) && rest != []
      requires Now().tables.ifs <= MAX_LABEL_NUMBER
      requires |Now().text| + |Render(HeadOf(s, Now().tables))| < MAX_ASM_OUTPUT
      modifies this`position, this`token, this`symbols, this`ifs, this`asmPosition, asm
      ensures Valid() && At(BlockTokens(s.thenBlock) + (FINISH + (ElseTokens(s.elseBlock) + rest)))
      ensures var t := old(Now()).tables;
              && elseLabel == ElseLabel(t.ifs) && endLabel == EndLabel(t.ifs)
              && var inner := IfTables(s.left, s.right, t);
                 Now() == Emit(old(Now()).(tables := inner), Compiled(HeadOf(s, t), inner), [])
    {
      hide Valid, At, Now, StmtTokens, BlockTokens, ElseTokens, Emit, IfHead, OffsetOf, Touch, MemText, Render, NulFree,
           ElseLabel, EndLabel;
      ghost var before := Now();
      var slot1, slot2 := ParseIfCondition(s, rest);
      var k := TakeIfNumber();
      elseLabel, endLabel := BranchLabels(k);
      IfHeadText(k, OffsetOf(before.tables.syms, s.left), OffsetOf(Touch(before.tables.syms, s.left), s.right));
      EmitLines(("\tmov eax, " + slot1 + "\n") + ("\tcmp eax, " + slot2 + "\n") + ("\tje " + elseLabel + "\n"),
                HeadOf(s, before.tables));
    }

    /** `parseIfStatement`. */
    method ParseIf(ghost s: Stmt, ghost rest: seq<Expected>)
      requires s.If? && StmtCallsFit(s, defined)
      requires Valid() && At(StmtTokens(s) + rest)
      requires rest != [] && rest[0].token.kind != ElseWord
      requires Fits(Emit(Now(), CompileStmt(s, Now().tables), StmtStringDecls(s)))
      requires StmtHeld(s, Now().tables)
      modifies this, asm, data
      ensures Valid() && At(rest) && defined == old(defined)
      ensures Now() == Emit(old(Now()), CompileStmt(s, old(Now()).tables), StmtStringDecls(s))
      decreases StmtSize(s), 0
    {
      hide Valid, At, Now, StmtTokens, BlockTokens, ElseTokens, Emit, Fits, CompileStmt, CompileBlock, IfHead, IfMiddle,
           OffsetOf, Touch, MemText, Render, NulFree, ElseLabel, EndLabel, StmtCallsFit, StmtHeld, BlockHeld, IfTables;
      ghost var before := Now();
      ghost var rest1 := ElseTokens(s.elseBlock) + rest;
      IfPlan(s, before);
      IfCallsFit(s, defined);
      IfHeld(s, before.tables);
      EmittedTables();
      ElseFirst(s.elseBlock, rest);
      var elseLabel, endLabel := ParseIfHead(s, rest);
      IfTailTexts(before.tables.ifs);
      FinishThen(rest1);
      ParseStatementList(s.thenBlock, FINISH + rest1);
      ExpectToken(RightBrace, FINISH + rest1);
      EmitLines(("\tjmp " + endLabel + "\n") + (elseLabel + ":\n"), IfMiddle(before.tables.ifs));
      ParseElse(s.elseBlock, rest);
      EmitLines(endLabel + ":\n", [LabelDef(EndLabel(before.tables.ifs))]);
    }

    /** The `else` part of an `if`, or nothing. */
    method ParseElse(ghost e: Option<Block>, ghost rest: seq<Expected>)
      requires e.Some? ==> CallsFit(e.value, defined)
      requires Valid() && At(ElseTokens(e) + rest)
      requires rest != [] && rest[0].token.kind != ElseWord
      requires Fits(Emit(Now(), ElseCompiled(e, Now().tables), ElseDecls(e)))
      requires e.Some? ==> BlockHeld(e.value, Now().tables)
      modifies this, asm, data
      ensures Valid() && At(rest) && defined == old(defined)
      ensures Now() == Emit(old(Now()), ElseCompiled(e, old(Now()).tables), ElseDecls(e))
      decreases if e.Some? then BlockSize(e.value) else 0, 2
    {
      hide Valid, At, Now, BlockTokens, ElseTokens, Emit, Fits, CompileBlock, CallsFit, BlockHeld;
      ghost var tokens := ElseTokens(e) + rest;
      ElseFirst(e, rest);
      AtFirst(tokens);
      if token.kind == ElseWord {
        ElseSplit(e, rest);
        ExpectToken(ElseWord, tokens);
        ExpectToken(LeftBrace, tokens[1..]);
        FinishThen(rest);
        ParseStatementList(e.value, FINISH + rest);
        ExpectToken(RightBrace, FINISH + rest);
      } else {
        EmitNothing(Now());
      }
    }

    // ---------- calls ----------

    /** One argument, as a change of the symbol table. */
    method ParseArgument(ghost e: Expr, ghost rest: seq<Expected>) returns (info: ExprInfo)
      requires Valid() && At(ExprTokens(e) + rest)
      requires rest != [] && rest[0].token.kind != Plus
      requires ExprHeld(e, Now().tables.syms, Now().tables.strings)
      modifies this`position, this`token, this`symbols
      ensures Valid() && At(rest)
      ensures var t := old(Now()).tables; var ec := CompileExpr(e, t.syms, t.strings);
              Infos([info], [ec]) && Now() == old(Now()).(tables := t.(syms := ec.syms))
    {
      hide Offsets, Blank, Stream, CompileExpr, ExprTokens, NulFree, TokenText, SymbolNames, Render, LocationText,
           ExprHeld,
           Stored, PrimaryHeld;
      HeldCode(e, SymbolNames(symbols), dataSymbols);
      info := ParseExpressionInfo(e, rest);
    }

    /** The arguments of a call, each parsed before any code is emitted. */
    method ParseArguments(ghost args: seq<Expr>, ghost rest: seq<Expected>) returns (infos: seq<ExprInfo>)
      requires Valid() && At(ArgTokens(args) + rest)
      requires rest != [] && rest[0].token.kind == RightParen
      requires ArgsHeld(args, Now().tables.syms, Now().tables.strings)
      modifies this`position, this`token, this`symbols
      ensures Valid() && At(rest)
      ensures var t := old(Now()).tables; var compiled := CompileArgs(args, t.syms, t.strings);
              Infos(infos, compiled.0) && Now() == old(Now()).(tables := t.(syms := compiled.1))
    {
      hide Valid, At, Now, CompileExpr, ExprTokens, Infos, ArgTokens, ExprHeld;
      infos := [];
      NoInfos();
      ArgsStart(args, rest);
      AtFirst(ArgTokens(args) + rest);
      if token.kind != RightParen {
        ghost var todo := args;
        ghost var done: seq<ExprCode> := [];
        ghost var before := Now();
        ghost var compiled := CompileArgs(args, before.tables.syms, before.tables.strings);
        ghost var codes, final := compiled.0, compiled.1;
        while true
          invariant Valid() && At(ArgTokens(todo) + rest) && todo != []
          invariant Infos(infos, done) && ArgsHeld(todo, Now().tables.syms, before.tables.strings)
          invariant Now() == before.(tables := before.tables.(syms := Now().tables.syms))
          invariant codes == done + CompileArgs(todo, Now().tables.syms, before.tables.strings).0
          invariant final == CompileArgs(todo, Now().tables.syms, before.tables.strings).1
          decreases |todo|
        {
          ArgsSplit(todo, rest);
          ghost var ec := CompileExpr(todo[0], Now().tables.syms, before.tables.strings);
          ArgsStep(done, todo, Now().tables.syms, before.tables.strings);
          var info := ParseArgument(todo[0], ArgsAfter(todo, rest));
          MoreInfos(infos, done, info, ec);
          infos, done := infos + [info], done + [ec];
          AtFirst(ArgsAfter(todo, rest));
          if token.kind == Comma {
            GetNextToken(ArgsAfter(todo, rest));
            todo := todo[1..];
          } else {
            break;
          }
        }
      }
    }

    /** Pushes the arguments, last first. */
    method EmitPushes(infos: seq<ExprInfo>, ghost codes: seq<ExprCode>)
      requires Valid() && Infos(infos, codes) && |Now().text| + |Render(PushArgs(codes))| < MAX_ASM_OUTPUT
      modifies this`asmPosition, asm
      ensures Valid() && Now() == Emit(old(Now()), Compiled(PushArgs(codes), old(Now()).tables), [])
    {
      hide Valid, Now, InfoOf, Render, NulFree, LoadEax, Infos;
      ghost var before := Now();
      var i := |infos|;
      InfosLength(infos, codes);
      NoPushes(before, codes);
      while i > 0
        invariant 0 <= i <= |infos| == |codes| && Valid()
        invariant Now() == Emit(before, Compiled(PushArgs(codes[i..]), before.tables), [])
      {
        i := i - 1;
        PushPlan(before, codes, i);
        PushText(infos, codes, i);
        EmitLines(infos[i].code + ("\tmov eax, " + infos[i].operand + "\n") + "\tpush eax\n",
                  codes[i].code + [LoadEax(codes[i].loc), PushReg(EAX)]);
      }
      assert codes[0..] == codes;
    }

    /** The code of a call to a function that this program does not define. */
    method EmitExternalCall(name: string, infos: seq<ExprInfo>, ghost s: Stmt, ghost before: Output)
      requires s.CallExternal? && name == s.function_ && name != "" && NulFree(name) && StmtCallsFit(s, defined)
      requires Fits(Emit(before, CompileStmt(s, before.tables), []))
      requires Valid() && Infos(infos, CompileArgs(s.args, before.tables.syms, before.tables.strings).0)
      requires var t := before.tables;
               Now() == before.(tables := t.(syms := CompileArgs(s.args, t.syms, t.strings).1))
      modifies this`asmPosition, asm
      ensures Valid() && Now() == Emit(before, CompileStmt(s, before.tables), [])
    {
      ghost var codes := CompileArgs(s.args, before.tables.syms, before.tables.strings).0;
      hide Valid, Now, Emit, Fits, CompileArgs, CompileStmt, Render, NulFree, CallCode, Infos, SaveCode, RestoreCode,
           PopCode, PushArgs;
      InfosLength(infos, codes);
      CallSize(s, codes, before, defined);
      ExternalPlan(s, before);
      SaveTexts();
      RestoreText(name, |infos|);
      EmitLines(SAVE_TEXT, SaveCode());
      EmitPushes(infos, codes);
      var size := Itoa(|infos| * 4);
      EmitLines(("\tcall " + name + "\n") + ("\tadd esp, " + size + "\n"), RestoreCode(name, |infos|));
      EmitLines(POP_TEXT, PopCode());
    }

    /** `parseFunctionCall`. */
    method ParseCall(ghost s: Stmt, ghost rest: seq<Expected>)
      requires (s.CallDefined? || s.CallExternal?) && StmtCallsFit(s, defined)
      requires Valid() && At(StmtTokens(s) + rest)
      requires rest != []
      requires Fits(Emit(Now(), CompileStmt(s, Now().tables), []))
      requires StmtHeld(s, Now().tables)
      modifies this, asm, data
      ensures Valid() && At(rest) && defined == old(defined)
      ensures Now() == Emit(old(Now()), CompileStmt(s, old(Now()).tables), [])
    {
      hide Valid, At, Now, StmtTokens, ArgTokens, Emit, Fits, CompileArgs, Render, NulFree, CallCode;
      ghost var before := Now();
      ghost var tokens := StmtTokens(s) + rest;
      CallTokens(s, rest);
      AtFirst(tokens);
      NameText();
      var name := token.value;
      GetNextToken(tokens);
      ExpectToken(LeftParen, tokens[1..]);
      var known := IsFunctionDefined(name);
      StopThen(rest);
      CloseThen(STOP + rest);
      if known {
        NothingBefore(CLOSE + (STOP + rest));
        ExpectToken(RightParen, CLOSE + (STOP + rest));
        CallPlan(s, before);
        CallText(name);
        EmitLines("\tcall " + name + "\n", [CallTo(name)]);
      } else {
        var infos := ParseArguments(s.args, CLOSE + (STOP + rest));
        ExpectToken(RightParen, CLOSE + (STOP + rest));
        EmitExternalCall(name, infos, s, before);
      }
      ExpectToken(Semicolon, STOP + rest);
    }

    /** `parseStatement`. */
    method ParseStatement(ghost s: Stmt, ghost rest: seq<Expected>)
      requires StmtCallsFit(s, defined)
      requires Valid() && At(StmtTokens(s) + rest)
      requires rest != [] && rest[0].token.kind != ElseWord
      requires Fits(Emit(Now(), CompileStmt(s, Now().tables), StmtStringDecls(s)))
      requires StmtHeld(s, Now().tables)
      modifies this, asm, data
      ensures Valid() && At(rest) && defined == old(defined)
      ensures Now() == Emit(old(Now()), CompileStmt(s, old(Now()).tables), StmtStringDecls(s))
      decreases StmtSize(s), 1
    {
      hide Valid, At, Now, StmtTokens, Emit, Fits, CompileStmt, StmtCallsFit, Scan, StmtHeld;
      AtFirst(StmtTokens(s) + rest);
      StmtFirst(s, rest);
      if token.kind == IntWord {
        ParseIntDeclaration(s, rest);
      } else if token.kind == CharWord {
        ParseStringDeclaration(s, rest);
      } else if token.kind == Identifier {
        PeekStatement(s, rest);
        var next := ScanLoop(source, position, IsVisible);
        if CharAt(source, next) == '=' {
          ParseAssignment(s, rest);
        } else if CharAt(source, next) == '(' {
          ParseCall(s, rest);
        }
      } else if token.kind == IfWord {
        ParseIf(s, rest);
      } else if token.kind == WhileWord {
        ParseWhile(s, rest);
      }
    }

    /** At an identifier that starts a statement, the next visible character tells which statement it is. */
    lemma PeekStatement(s: Stmt, rest: seq<Expected>)
      requires At(StmtTokens(s) + rest) && rest != [] && token.kind == Identifier
      ensures CharAt(source, Scan(source, position, IsVisible)) == '=' <==> s.Assign?
      ensures CharAt(source, Scan(source, position, IsVisible)) == '(' <==> s.CallDefined? || s.CallExternal?
    {
      hide Lex, Scan, CommentAt;
      StmtSecond(s, rest);
      PeekTells(source, position, token);
    }

    lemma NameText()
      requires Valid()
      ensures NulFree(token.value) && (token.kind == Identifier || token.kind == Kind.Numeral ==> token.value != "")
    {
      hide Offsets, Blank;
    }

    // ---------- functions ----------

    method ResetSymbols()
      requires Valid()
      modifies this`symbols
      ensures Valid() && Now() == old(Now()).(tables := old(Now()).tables.(syms := []))
    {
      hide Blank;
      symbols := [];
    }

    /** Back-patches the prologue before the body that starts at `start`. */
    method PatchPrologue(start: nat, ghost prefix: string, ghost body: string)
      requires Valid() && Now().text == prefix + body && start == |prefix|
      requires 0 < |symbols| <= MAX_SYMBOLS
      requires |Now().text| + |Render(Prologue(|symbols|))| < MAX_ASM_OUTPUT
      modifies this`asmPosition, asm
      ensures Valid() && Now() == old(Now()).(text := prefix + Render(Prologue(|symbols|)) + body)
    {
      hide Offsets, SymbolNames, Prologue, Render, PrologueText, TokenText;
      var size := Itoa(|symbols| * 4);
      PrologueLines(|symbols|);
      ghost var before := asm[..];
      assert before[..asmPosition] == prefix + body;
      BackPatch(asm, start, asmPosition - start, size);
      PatchedText(before, prefix, body, PrologueText(size), asmPosition);
      asmPosition := asmPosition + |PrologueText(size)|;
    }

    /** The end of a function: back-patched prologue and epilogue if it has locals, then `ret`. */
    method FinishFunction(start: nat, ghost prefix: string, ghost body: Compiled)
      requires Valid() && Now().text == prefix + Render(body.code) && start == |prefix|
      requires Now().tables == body.tables && |body.tables.syms| <= MAX_SYMBOLS
      requires |prefix| + |Render(WrapBody(body))| < MAX_ASM_OUTPUT
      modifies this`asmPosition, asm
      ensures Valid() && Now() == old(Now()).(text := prefix + Render(WrapBody(body)))
    {
      hide Valid, Render, Prologue, Epilogue;
      WrapPlan(prefix, body);
      SymbolCount();
      EpilogueLines();
      if |symbols| > 0 {
        PatchPrologue(start, prefix, Render(body.code));
        EmitLines("\tmov esp, ebp\n" + "\tpop ebp\n", Epilogue());
        NoMoreData(Now().data);
      }
      EmitLines("\tret\n", [Return]);
      NoMoreData(Now().data);
    }

    lemma SymbolCount()
      requires Valid()
      ensures |symbols| == |Now().tables.syms|
    {
    }

    /** `parseFunctionDefinition` and `generateMainCode`. */
    method ParseFunction(ghost f: Function, ghost rest: seq<Expected>)
      requires CallsFit(f.body, defined)
      requires Valid() && At(FunctionTokens(f) + rest)
      requires rest != []
      requires Fits(Emit(Now(), CompiledFunction(f, Now().tables), StringDecls(f.body)))
      requires BlockHeld(f.body, Now().tables.(syms := []))
      modifies this, asm, data
      ensures Valid() && At(rest) && defined == old(defined)
      ensures Now() == Emit(old(Now()), CompiledFunction(f, old(Now()).tables), StringDecls(f.body))
    {
      hide Valid, At, Now, FunctionTokens, BlockTokens, Emit, Fits, CompileBlock, Render, WrapBody, CompileFunction,
           NulFree, BlockHeld;
      ghost var before := Now();
      FunctionPlan(f, before);
      var name := ParseFunctionHead(f, rest);
      ResetSymbols();
      LabelLineText(name);
      EmitLines(name + ":\n", [LabelDef(name)]);
      var start := TextLength();
      ghost var prefix := Now().text;
      FinishThen(rest);
      ParseStatementList(f.body, FINISH + rest);
      ExpectToken(RightBrace, FINISH + rest);
      FinishFunction(start, prefix, CompileBlock(f.body, before.tables.(syms := [])));
    }

    method TextLength() returns (n: nat)
      requires Valid()
      ensures n == |Now().text|
    {
      n := asmPosition;
    }

    /** The tokens up to a function's opening brace; yields its label. */
    method ParseFunctionHead(ghost f: Function, ghost rest: seq<Expected>) returns (name: string)
      requires Valid() && At(FunctionTokens(f) + rest)
      requires rest != []
      modifies this`position, this`token
      ensures Valid() && At(BlockTokens(f.body) + (FINISH + rest)) && Now() == old(Now())
      ensures name == FunctionLabel(f) && NulFree(name)
    {
      hide Valid, At, Now, FunctionTokens, BlockTokens, NulFree;
      ghost var tokens := FunctionTokens(f) + rest;
      FunctionHead(f, rest);
      AtFirst(tokens);
      StartNulFree();
      if token.kind == VoidWord {
        ExpectToken(VoidWord, tokens);
        AtFirst(tokens[1..]);
        NameText();
        name := token.value;
        GetNextToken(tokens[1..]);
      } else {
        name := "_start";
        ExpectToken(IntWord, tokens);
        ExpectToken(MainWord, tokens[1..]);
      }
      ExpectToken(LeftParen, tokens[2..]);
      ExpectToken(RightParen, tokens[3..]);
      ExpectToken(LeftBrace, tokens[4..]);
    }

    /** `parseProgram`. */
    method ParseProgram(ghost fs: seq<Function>)
      requires ProgramCallsFit(fs, defined)
      requires Valid() && At(ProgramTokens(fs))
      requires AllFit(fs, Now())
      modifies this, asm, data
      ensures Valid() && Now() == EmitProgram(fs, old(Now())) && defined == old(defined)
    {
      hide Valid, At, Now, FunctionTokens, Emit, Fits, CompiledFunction, CallsFit, BlockHeld;
      ghost var todo := fs;
      ghost var final := EmitProgram(fs, Now());
      AtFirst(ProgramTokens(todo));
      ProgramStarts(todo);
      while token.kind != End
        invariant Valid() && At(ProgramTokens(todo))
        invariant defined == old(defined) && ProgramCallsFit(todo, defined)
        invariant EmitProgram(todo, Now()) == final && AllFit(todo, Now())
        invariant token.kind != End <==> todo != []
        decreases |todo|
      {
        ProgramStarts(todo[1..]);
        assert todo[0] in todo;
        ParseFunction(todo[0], ProgramTokens(todo[1..]));
        todo := todo[1..];
        AtFirst(ProgramTokens(todo));
      }
    }

    // ---------- the names of all functions, collected before parsing ----------

    /** Skips a function's body: the loop that counts braces. */
    method SkipBody(ghost tokens: seq<Expected>, ghost rest: seq<Expected>)
      requires Valid() && At(tokens) && SkipTo(tokens, 1) == rest && rest != []
      requires forall k :: 0 <= k < |tokens| - |rest| ==> tokens[k].token.kind != End
      modifies this`position, this`token
      ensures Valid() && At(rest) && Now() == old(Now())
    {
      hide Valid, At, Now;
      ghost var todo := tokens;
      var braceCount := 1;
      AtFirst(tokens);
      SkipToShort(tokens, 1);
      while braceCount > 0 && token.kind != End
        invariant Valid() && At(todo) && todo != [] && token == todo[0].token && Now() == old(Now())
        invariant SkipTo(todo, braceCount) == rest && |rest| <= |todo|
        invariant forall k :: 0 <= k < |todo| - |rest| ==> todo[k].token.kind != End
        decreases |todo|
      {
        if token.kind == LeftBrace {
          braceCount := braceCount + 1;
        } else if token.kind == RightBrace {
          braceCount := braceCount - 1;
        }
        SkipToShort(todo[1..], braceCount);
        GetNextToken(todo);
        todo := todo[1..];
        AtFirst(todo);
      }
      SkipToShort(todo, braceCount);
    }

    /** Reads the first token of a stream that starts here. */
    method FirstToken(ghost tokens: seq<Expected>)
      requires Valid() && tokens != [] && Stream(source, position, token, tokens)
      modifies this`position, this`token
      ensures Valid() && At(tokens) && Now() == old(Now())
    {
      hide Lex, Scan, Offsets, Blank;
      LexTokenText(source, position, token);
      token, position := LexLoop(source, position, token);
    }

    /** Skips a function's parameter list: the loop up to the opening brace. */
    method SkipToBrace(ghost tokens: seq<Expected>)
      requires Valid() && |tokens| > 5 && At(tokens[2..])
      requires tokens[2].token.kind == LeftParen && tokens[3].token.kind == RightParen
               && tokens[4].token.kind == LeftBrace
      modifies this`position, this`token
      ensures Valid() && At(tokens[4..]) && Now() == old(Now())
    {
      hide Valid, At, Now;
      ghost var k := 2;
      AtFirst(tokens[k..]);
      while token.kind != LeftBrace && token.kind != End
        invariant Valid() && 2 <= k <= 4 && At(tokens[k..]) && token == tokens[k].token && Now() == old(Now())
        decreases 4 - k
      {
        GetNextToken(tokens[k..]);
        Tails(tokens, k);
        k := k + 1;
        AtFirst(tokens[k..]);
      }
    }

    /** One function seen by the scan for defined names. */
    method CollectFunction(ghost f: Function, ghost rest: seq<Expected>)
      requires Valid() && At(FunctionTokens(f) + rest)
      requires rest != []
      modifies this`position, this`token, this`defined
      ensures Valid() && At(rest) && Now() == old(Now())
      ensures defined == old(defined) + FunctionNames([f])
    {
      hide Valid, At, Now, FunctionTokens, BlockTokens, SkipTo;
      ghost var tokens := FunctionTokens(f) + rest;
      FunctionHead(f, rest);
      AtFirst(tokens);
      if token.kind == VoidWord {
        GetNextToken(tokens);
        AtFirst(tokens[1..]);
        if token.kind == Identifier { AddDefined(token.value); }
        GetNextToken(tokens[1..]);
      } else {
        GetNextToken(tokens);
        AtFirst(tokens[1..]);
        if token.kind == MainWord { AddDefined("main"); }
        GetNextToken(tokens[1..]);
      }
      SkipToBrace(tokens);
      GetNextToken(tokens[4..]);
      BodySkipped(f.body, rest);
      SkipBody(BlockTokens(f.body) + (FINISH + rest), rest);
    }

    method AddDefined(name: string)
      requires Valid()
      modifies this`defined
      ensures Valid() && Now() == old(Now()) && defined == old(defined) + [name]
    {
      defined := defined + [name];
    }

    /** `collectDefinedFunctions`: the scan starts over afterwards, where it was. */
    method CollectDefinedFunctions(ghost fs: seq<Function>)
      requires Valid() && position == 0 && Stream(source, 0, token, ProgramTokens(fs))
      modifies this`position, this`token, this`defined
      ensures Valid() && position == 0 && token == old(token) && Now() == old(Now())
      ensures defined == FunctionNames(fs)
    {
      hide Valid, At, Now, FunctionTokens, Stream, ProgramTokens, FunctionNames;
      var savedPosition, savedToken := position, token;
      ValidToken();
      ProgramNotEmpty(fs);
      Rewind(0, token);
      FirstToken(ProgramTokens(fs));
      ClearDefined();
      ghost var todo := fs;
      AtFirst(ProgramTokens(todo));
      ProgramStarts(todo);
      while token.kind != End
        invariant Valid() && At(ProgramTokens(todo)) && Now() == old(Now())
        invariant defined + FunctionNames(todo) == FunctionNames(fs)
        invariant token.kind != End <==> todo != []
        invariant token.kind == VoidWord || token.kind == IntWord || token.kind == End
        decreases |todo|
      {
        ProgramStarts(todo);
        ProgramStarts(todo[1..]);
        if token.kind == VoidWord || token.kind == IntWord {
          CollectFunction(todo[0], ProgramTokens(todo[1..]));
          NamesStep(todo);
        }
        todo := todo[1..];
        AtFirst(ProgramTokens(todo));
      }
      NamesStep(todo);
      Rewind(savedPosition, savedToken);
    }

    lemma NamesStep(fs: seq<Function>)
      ensures fs == [] ==> FunctionNames(fs) == [] && defined + FunctionNames(fs) == defined
      ensures fs != [] ==> FunctionNames(fs) == FunctionNames([fs[0]]) + FunctionNames(fs[1..])
    {
    }

    lemma ValidToken()
      requires Valid()
      ensures TokenText(token)
    {
    }

    /** Moves the parser to a position and a current token. */
    method Rewind(to: nat, current: Token)
      requires Valid() && to <= |source| && TokenText(current)
      modifies this`position, this`token
      ensures Valid() && position == to && token == current && Now() == old(Now())
    {
      hide TokenText, Offsets, Blank;
      position, token := to, current;
    }

    method ClearDefined()
      requires Valid()
      modifies this`defined
      ensures Valid() && defined == [] && Now() == old(Now())
    {
      hide TokenText, Offsets, Blank;
      defined := [];
    }

    // ---------- the whole compiler ----------

    /**
      * `compileSource`: parse, then shift the text and write the headers before it. The result is the
      * intended file exactly when the program declares string data.
      */
    method CompileSource(ghost fs: seq<Function>) returns (length: nat)
      requires Valid() && position == 0 && Stream(source, 0, token, ProgramTokens(fs))
      requires Now() == Output("", "", Tables([], [], 0, 0))
      requires ProgramCallsFit(fs, FunctionNames(fs)) && AllFit(fs, Now())
      requires var o := EmitProgram(fs, Now()); |DATA_HEADER| + |o.data| + |TEXT_HEADER| + |o.text| < MAX_ASM_OUTPUT
      requires |fs| <= MAX_SYMBOLS
      modifies this, asm, data
      ensures length < asm.Length
      ensures var o := EmitProgram(fs, old(Now()));
              asm[..length] == Spliced(o.text, o.data) && (o.data != "" ==> asm[length] == NUL)
    {
      hide At, Stream, Offsets, SymbolNames, TokenText, ProgramTokens, EmitProgram, AllFit, ProgramCallsFit,
           FunctionNames;
      CollectDefinedFunctions(fs);
      ProgramNotEmpty(fs);
      FirstToken(ProgramTokens(fs));
      ParseProgram(fs);
      length := SpliceHeaders();
    }

    method SpliceHeaders() returns (length: nat)
      requires Valid() && |DATA_HEADER| + dataPosition + |TEXT_HEADER| + asmPosition < MAX_ASM_OUTPUT
      modifies this`asmPosition, asm
      ensures length < asm.Length && asm[..length] == Spliced(old(Now()).text, old(Now()).data)
      ensures old(Now()).data != "" ==> asm[length] == NUL
    {
      hide Offsets, SymbolNames, TokenText, DATA_HEADER, TEXT_HEADER, Shifted, Spliced, Blank;
      ghost var before, text, written := asm[..], asm[..asmPosition], data[..dataPosition];
      var textLength, dataLength := asmPosition, dataPosition;
      ShiftRight(asm, 0, textLength, |DATA_HEADER| + dataLength + |TEXT_HEADER|);
      ghost var shifted := asm[..];
      asmPosition := WriteHeaders(asm, data[..dataLength]);
      asmPosition := asmPosition + textLength;
      length := asmPosition;
      SplicedText(before, text, written, shifted, asm[..]);
    }

    /** The current token is the first one expected. */
    lemma AtFirst(tokens: seq<Expected>)
      requires At(tokens)
      ensures tokens != [] && token == tokens[0].token
    {
    }
  }

  lemma NameCount(symbols: seq<Symbol>)
    ensures |SymbolNames(symbols)| == |symbols|
  {
  }

  lemma {:induction false} FoundFirst(syms: seq<string>, name: string, i: nat)
    requires i < |syms| && syms[i] == name && forall k :: 0 <= k < i ==> syms[k] != name
    ensures FirstIndex(syms, name) == i
  {
    if i > 0 { FoundFirst(syms[1..], name, i - 1); }
  }

  lemma SliceNulFree(s: string, p: nat, e: nat)
    requires p <= e <= |s| && forall k :: p <= k < e ==> s[k] != NUL
    ensures NulFree(s[p..e])
  {
  }

  lemma NumeralNulFree(s: string, p: nat)
    requires p < |s| && IsDigit(s[p])
    ensures NulFree(s[p..NumeralEnd(s, p)])
  {
    var e := NumeralEnd(s, p);
    assert forall k :: p <= k < e ==> s[k] != NUL;
    SliceNulFree(s, p, e);
  }

  lemma LexTokenText(s: string, i: nat, previous: Token)
    requires i <= |s| && TokenText(previous)
    ensures TokenText(Lex(s, i, previous).token)
  {
    hide SkipBlanks, NumeralEnd;
    var p := SkipBlanks(s, i);
    var c := CharAt(s, p);
    if c == NUL {
    } else if c == '"' {
      SliceNulFree(s, p + 1, Scan(s, p + 1, EndsText));
    } else if IsDigit(c) {
      NumeralNulFree(s, p);
    } else if IsAlpha(c) {
      SliceNulFree(s, p, Scan(s, p, EndsIdentifier));
    }
  }

  lemma PatchedText(before: string, prefix: string, body: string, prologue: string, end: nat)
    requires end + |prologue| < |before| && before[..end] == prefix + body && Blank(before[end..])
    ensures var after := before[..|prefix|] + prologue + before[|prefix|..end] + before[end + |prologue|..];
            && after[..end + |prologue|] == prefix + prologue + body
            && Blank(after[end + |prologue|..])
  {
    assert before[..|prefix|] == prefix;
    assert before[|prefix|..end] == body;
    assert before[end + |prologue|..] == before[end..][|prologue|..];
  }

  /** Writes the headers, and the data if there is any. */
  method WriteHeaders(asm: array<char>, written: string) returns (position: nat)
    requires |DATA_HEADER| + |written| + |TEXT_HEADER| <= asm.Length
    modifies asm
    ensures var head := if written != "" then DATA_HEADER + written else "";
            position == |head| + |TEXT_HEADER| && asm[..] == head + TEXT_HEADER + old(asm[position..])
  {
    hide DATA_HEADER, TEXT_HEADER;
    position := 0;
    ghost var before := asm[..];
    if |written| > 0 {
      CopyBytes(asm, 0, DATA_HEADER);
      position := |DATA_HEADER|;
      assert asm[..position] == DATA_HEADER;
      CopyBytes(asm, position, written);
      position := position + |written|;
      assert asm[..position] == DATA_HEADER + written && asm[position..] == before[position..];
    }
    CopyBytes(asm, position, TEXT_HEADER);
    position := position + |TEXT_HEADER|;
  }

  lemma SplicedText(before: string, text: string, written: string, shifted: string, after: string)
    requires |DATA_HEADER| + |written| + |TEXT_HEADER| + |text| < |before|
    requires before[..|text|] == text && Blank(before[|text|..])
    requires shifted == Shifted(before, 0, |text|, |DATA_HEADER| + |written| + |TEXT_HEADER|)
    requires |after| == |before|
    requires written != ""
             ==> after == DATA_HEADER + written + TEXT_HEADER + shifted[|DATA_HEADER| + |written| + |TEXT_HEADER|..]
    requires written == "" ==> after == TEXT_HEADER + shifted[|TEXT_HEADER|..]
    ensures var length := (if written != "" then |DATA_HEADER| + |written| else 0) + |TEXT_HEADER| + |text|;
            && length < |after| && after[..length] == Spliced(text, written)
            && (written != "" ==> after[length] == NUL)
  {
    hide DATA_HEADER, TEXT_HEADER;
    var gap := |DATA_HEADER| + |written| + |TEXT_HEADER|;
    if written != "" {
      assert shifted[gap..][..|text|] == text;
      assert shifted[gap..][|text|] == before[gap + |text|] == before[|text|..][gap];
    } else {
      forall i | 0 <= i < |text|
        ensures shifted[|TEXT_HEADER| + i] == Overlapped(text)[i]
      {
        var j := |TEXT_HEADER| + i;
        if j < gap && j >= |text| { assert before[j] == before[|text|..][j - |text|]; }
      }
      assert after[..|TEXT_HEADER| + |text|] == TEXT_HEADER + Overlapped(text);
    }
  }
}
