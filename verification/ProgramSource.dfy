/** The text of a program, and that every layout of it is read as the program. */
module ProgramSource {
  import opened LibcText
  import opened AssemblyText
  import opened SourceLanguage
  import opened Lexer
  import opened Grammar
  import opened SourceText

  // ---------- written programs ----------

  const KEYWORDS: set<string> := {"int", "char", "void", "main", "return", "if", "else", "syscall", "while"}

  predicate IsName(name: string) {
    IsWordText(name) && |name| < MAX_TOKEN_VALUE && name !in KEYWORDS
  }

  predicate IsNumber(text: string) {
    IsNumberText(text) && |text| < MAX_TOKEN_VALUE
  }

  predicate ExprWritten(e: Expr) {
    && (match e.first case Number(text) => IsNumber(text) case Variable(name) => IsName(name))
    && forall t :: t in e.adds ==> IsNumber(t)
  }

  /** Names, numbers and strings of a statement can be written, and fit the token buffer. */
  predicate StmtWritten(s: Stmt) {
    match s
    case Declare(name) => IsName(name)
    case DeclareInit(name, e) => IsName(name) && ExprWritten(e)
    case DeclareString(name, text) =>
      IsName(name) && |text| < MAX_TOKEN_VALUE && '"' !in text && '\0' !in text
    case Assign(name, e) => IsName(name) && ExprWritten(e)
    case While(left, bound, body) => IsName(left) && IsNumber(bound) && BlockWritten(body)
    case If(left, right, thenBlock, elseBlock) =>
      IsName(left) && IsName(right) && BlockWritten(thenBlock) && (elseBlock.Some? ==> BlockWritten(elseBlock.value))
    case CallDefined(name) => IsName(name)
    case CallExternal(name, args) => IsName(name) && forall e :: e in args ==> ExprWritten(e)
  }

  predicate BlockWritten(b: Block) {
    b.Then? ==> StmtWritten(b.head) && BlockWritten(b.tail)
  }

  predicate ProgramWritten(fs: seq<Function>) {
    forall f :: f in fs ==> BlockWritten(f.body) && (f.Void? ==> IsName(f.name))
  }

  /** Tokens inside a program. */
  predicate Inner(tokens: seq<Expected>) {
    forall t :: t in tokens ==> Lexable(t.token) && t.token.kind != End
  }

  lemma WordLexable(word: string, kind: Kind)
    requires IsWordText(word) && |word| < MAX_TOKEN_VALUE && KeywordKind(word) == kind
    ensures Lexable(Token(kind, word))
  {
  }

  lemma WordTexts()
    ensures IsWordText("int") && IsWordText("char") && IsWordText("void") && IsWordText("main")
    ensures IsWordText("if") && IsWordText("else") && IsWordText("while")
  {
  }

  lemma DeclarationWords()
    ensures KeywordKind("int") == IntWord && KeywordKind("char") == CharWord
    ensures KeywordKind("void") == VoidWord && KeywordKind("main") == MainWord
  {
  }

  lemma ControlWords()
    ensures KeywordKind("if") == IfWord && KeywordKind("else") == ElseWord && KeywordKind("while") == WhileWord
  {
  }

  lemma Keywords()
    ensures Lexable(Token(IntWord, "int")) && Lexable(Token(CharWord, "char")) && Lexable(Token(VoidWord, "void"))
    ensures Lexable(Token(MainWord, "main")) && Lexable(Token(IfWord, "if")) && Lexable(Token(ElseWord, "else"))
    ensures Lexable(Token(WhileWord, "while"))
  {
    hide Lexable, IsWordText, KeywordKind;
    WordTexts();
    DeclarationWords();
    ControlWords();
    WordLexable("int", IntWord);
    WordLexable("char", CharWord);
    WordLexable("void", VoidWord);
    WordLexable("main", MainWord);
    WordLexable("if", IfWord);
    WordLexable("else", ElseWord);
    WordLexable("while", WhileWord);
  }

  lemma SymbolLexable(c: char, kind: Kind)
    requires SymbolKind(c) == kind != End
    ensures Lexable(Token(kind, [c]))
  {
    hide KeywordKind, IsWordText;
  }

  lemma Symbols()
    ensures Lexable(Token(LeftParen, "(")) && Lexable(Token(RightParen, ")")) && Lexable(Token(LeftBrace, "{"))
    ensures Lexable(Token(RightBrace, "}")) && Lexable(Token(Semicolon, ";")) && Lexable(Token(Equals, "="))
    ensures Lexable(Token(Comma, ",")) && Lexable(Token(Plus, "+")) && Lexable(Token(Less, "<"))
    ensures Lexable(Token(Star, "*")) && Lexable(Token(Differs, "!="))
  {
    hide Lexable;
    SymbolLexable('(', LeftParen);
    SymbolLexable(')', RightParen);
    SymbolLexable('{', LeftBrace);
    SymbolLexable('}', RightBrace);
    SymbolLexable(';', Semicolon);
    SymbolLexable('=', Equals);
    SymbolLexable(',', Comma);
    SymbolLexable('+', Plus);
    SymbolLexable('<', Less);
    SymbolLexable('*', Star);
    DiffersLexable();
  }

  lemma DiffersLexable()
    ensures Lexable(Token(Differs, "!="))
  {
  }

  lemma NameKindIff(word: string)
    ensures KeywordKind(word) == Identifier <==> word !in KEYWORDS
  {
  }

  lemma NameLexable(name: string)
    requires IsName(name)
    ensures Lexable(Token(Identifier, name))
  {
    hide KeywordKind, KEYWORDS;
    NameKindIff(name);
    WordLexable(name, Identifier);
  }

  lemma NumberLexable(text: string)
    requires IsNumber(text)
    ensures Lexable(Token(Kind.Numeral, text))
  {
  }

  lemma {:induction false} AddsInner(adds: seq<string>)
    requires forall t :: t in adds ==> IsNumber(t)
    ensures Inner(AddTokens(adds))
  {
    hide Lexable, IsNumber;
    if adds != [] {
      Symbols();
      NumberLexable(adds[0]);
      AddsInner(adds[1..]);
    }
  }

  lemma ExprInner(e: Expr)
    requires ExprWritten(e)
    ensures Inner(ExprTokens(e))
  {
    hide Lexable, IsNumber, IsName, AddTokens;
    AddsInner(e.adds);
    match e.first {
      case Number(text) => NumberLexable(text);
      case Variable(name) => NameLexable(name);
    }
  }

  lemma {:induction false} ArgsInner(args: seq<Expr>)
    requires forall e :: e in args ==> ExprWritten(e)
    ensures Inner(ArgTokens(args))
  {
    hide Lexable, ExprWritten, ExprTokens;
    if args != [] {
      Symbols();
      ExprInner(args[0]);
      ArgsInner(args[1..]);
    }
  }

  lemma InnerAppend(a: seq<Expected>, b: seq<Expected>)
    requires Inner(a) && Inner(b)
    ensures Inner(a + b)
  {
    hide Lexable;
  }

  lemma PunctuationInner()
    ensures Inner(OPEN) && Inner(CLOSE) && Inner(BEGIN) && Inner(FINISH) && Inner(STOP)
  {
    hide Lexable;
    Symbols();
  }

  lemma DeclareInner(name: string)
    requires IsName(name)
    ensures Inner([Tok(IntWord, "int"), Name(name)]) && Inner([Tok(IntWord, "int"), Name(name), Tok(Equals, "=")])
  {
    hide Lexable, IsName;
    Keywords();
    Symbols();
    NameLexable(name);
  }

  lemma StringInner(name: string, text: string)
    requires IsName(name) && Lexable(Token(Text, text))
    ensures Inner([Tok(CharWord, "char"), Tok(Star, "*"), Name(name), Tok(Equals, "="), Tok(Text, text)])
  {
    hide Lexable, IsName;
    Keywords();
    Symbols();
    NameLexable(name);
  }

  lemma LeadingInner(name: string)
    requires IsName(name)
    ensures Inner([LeadingName(name)]) && Inner([LeadingName(name), Tok(Equals, "=")])
  {
    hide Lexable, IsName;
    Symbols();
    NameLexable(name);
  }

  lemma PlainInner(s: Stmt)
    requires StmtWritten(s) && !s.While? && !s.If?
    ensures Inner(StmtTokens(s))
  {
    hide Inner, Lexable, IsNumber, IsName, ExprTokens, ArgTokens, ExprWritten;
    PunctuationInner();
    match s {
      case Declare(name) =>
        DeclareInner(name);
        InnerAppend([Tok(IntWord, "int"), Name(name)], STOP);
      case DeclareInit(name, e) =>
        DeclareInner(name);
        ExprInner(e);
        InnerAppend([Tok(IntWord, "int"), Name(name), Tok(Equals, "=")], ExprTokens(e));
        InnerAppend([Tok(IntWord, "int"), Name(name), Tok(Equals, "=")] + ExprTokens(e), STOP);
      case DeclareString(name, text) =>
        TextLexable(text);
        StringInner(name, text);
        InnerAppend([Tok(CharWord, "char"), Tok(Star, "*"), Name(name), Tok(Equals, "="), Tok(Text, text)], STOP);
      case Assign(name, e) =>
        LeadingInner(name);
        ExprInner(e);
        InnerAppend([LeadingName(name), Tok(Equals, "=")], ExprTokens(e));
        InnerAppend([LeadingName(name), Tok(Equals, "=")] + ExprTokens(e), STOP);
      case _ => CallInner(s);
    }
  }

  lemma CallInner(s: Stmt)
    requires StmtWritten(s) && (s.CallDefined? || s.CallExternal?)
    ensures Inner(StmtTokens(s))
  {
    hide Inner, Lexable, IsName, ArgTokens, ExprWritten;
    PunctuationInner();
    var head := [LeadingName(s.function_)];
    LeadingInner(s.function_);
    InnerAppend(head, OPEN);
    if s.CallExternal? {
      ArgsInner(s.args);
      InnerAppend(head + OPEN, ArgTokens(s.args));
      InnerAppend(head + OPEN + ArgTokens(s.args), CLOSE);
      InnerAppend(head + OPEN + ArgTokens(s.args) + CLOSE, STOP);
    } else {
      InnerAppend(head + OPEN, CLOSE);
      InnerAppend(head + OPEN + CLOSE, STOP);
    }
  }

  /** A head in parentheses and a block in braces. */
  lemma BracedInner(head: seq<Expected>, block: seq<Expected>)
    requires Inner(head) && Inner(block)
    ensures Inner(head + CLOSE + BEGIN + block + FINISH)
  {
    hide Inner;
    PunctuationInner();
    InnerAppend(head, CLOSE);
    InnerAppend(head + CLOSE, BEGIN);
    InnerAppend(head + CLOSE + BEGIN, block);
    InnerAppend(head + CLOSE + BEGIN + block, FINISH);
  }

  lemma LoopHeadInner(left: string, bound: string)
    requires IsName(left) && IsNumber(bound)
    ensures Inner([Tok(WhileWord, "while"), Tok(LeftParen, "("), Name(left), Tok(Less, "<"), Tok(Kind.Numeral, bound)])
  {
    hide Lexable, IsNumber, IsName;
    Keywords();
    Symbols();
    NameLexable(left);
    NumberLexable(bound);
  }

  lemma BranchHeadInner(left: string, right: string)
    requires IsName(left) && IsName(right)
    ensures Inner([Tok(IfWord, "if"), Tok(LeftParen, "("), Name(left), Tok(Differs, "!="), Name(right)])
  {
    hide Lexable, IsName;
    Keywords();
    Symbols();
    NameLexable(left);
    NameLexable(right);
  }

  lemma ElseInner(block: seq<Expected>)
    requires Inner(block)
    ensures Inner([Tok(ElseWord, "else")] + BEGIN + block + FINISH)
  {
    hide Inner, Lexable;
    PunctuationInner();
    ElseWordInner();
    var head := [Tok(ElseWord, "else")];
    InnerAppend(head, BEGIN);
    InnerAppend(head + BEGIN, block);
    InnerAppend(head + BEGIN + block, FINISH);
  }

  lemma ElseWordInner()
    ensures Inner([Tok(ElseWord, "else")])
  {
    hide Lexable;
    Keywords();
  }

  lemma LoopInner(s: Stmt)
    requires s.While? && IsName(s.left) && IsNumber(s.bound) && Inner(BlockTokens(s.body))
    ensures Inner(StmtTokens(s))
  {
    hide Inner, IsNumber, IsName, BlockTokens;
    LoopHeadInner(s.left, s.bound);
    BracedInner([Tok(WhileWord, "while"), Tok(LeftParen, "("), Name(s.left), Tok(Less, "<"),
      Tok(Kind.Numeral, s.bound)],
      BlockTokens(s.body));
  }

  lemma BranchInner(s: Stmt)
    requires s.If? && IsName(s.left) && IsName(s.right) && Inner(BlockTokens(s.thenBlock))
    requires s.elseBlock.Some? ==> Inner(BlockTokens(s.elseBlock.value))
    ensures Inner(StmtTokens(s))
  {
    hide Inner, IsName, BlockTokens;
    BranchHeadInner(s.left, s.right);
    var head := [Tok(IfWord, "if"), Tok(LeftParen, "("), Name(s.left), Tok(Differs, "!="), Name(s.right)];
    var first := head + CLOSE + BEGIN + BlockTokens(s.thenBlock) + FINISH;
    BracedInner(head, BlockTokens(s.thenBlock));
    if s.elseBlock.Some? {
      ElseInner(BlockTokens(s.elseBlock.value));
      InnerAppend(first, [Tok(ElseWord, "else")] + BEGIN + BlockTokens(s.elseBlock.value) + FINISH);
    } else {
      assert StmtTokens(s) == first;
    }
  }

  lemma {:induction false} StmtInner(s: Stmt)
    requires StmtWritten(s)
    ensures Inner(StmtTokens(s))
    decreases StmtSize(s)
  {
    hide Inner, IsNumber, IsName, StmtTokens, ExprWritten;
    if s.While? {
      BlockInner(s.body);
      LoopInner(s);
    } else if s.If? {
      BlockInner(s.thenBlock);
      if s.elseBlock.Some? { BlockInner(s.elseBlock.value); }
      BranchInner(s);
    } else {
      PlainInner(s);
    }
  }

  lemma TextLexable(text: string)
    requires |text| < MAX_TOKEN_VALUE && '"' !in text && '\0' !in text
    ensures Lexable(Token(Text, text))
  {
  }

  lemma {:induction false} BlockInner(b: Block)
    requires BlockWritten(b)
    ensures Inner(BlockTokens(b))
    decreases BlockSize(b)
  {
    hide Lexable, StmtTokens;
    if b.Then? {
      StmtInner(b.head);
      BlockInner(b.tail);
    }
  }

  lemma FunctionHeadInner(f: Function)
    requires f.Void? ==> IsName(f.name)
    ensures Inner([Tok(IntWord, "int"), Tok(MainWord, "main")])
    ensures f.Void? ==> Inner([Tok(VoidWord, "void"), Name(f.name)])
  {
    hide Lexable, IsName;
    Keywords();
    if f.Void? { NameLexable(f.name); }
  }

  lemma FunctionInner(f: Function)
    requires BlockWritten(f.body) && (f.Void? ==> IsName(f.name))
    ensures Inner(FunctionTokens(f))
  {
    hide Inner, IsName, BlockTokens, BlockWritten;
    BlockInner(f.body);
    FunctionHeadInner(f);
    PunctuationInner();
    var head := if f.Main? then [Tok(IntWord, "int"), Tok(MainWord, "main")] else [Tok(VoidWord, "void"), Name(f.name)];
    InnerAppend(head, OPEN);
    BracedInner(head + OPEN, BlockTokens(f.body));
  }

  lemma {:induction false} ProgramLexable(fs: seq<Function>)
    requires ProgramWritten(fs)
    ensures AllLexable(ProgramTokens(fs))
  {
    hide Lexable, FunctionTokens, BlockWritten, IsName;
    if fs == [] {
      EndLexable();
    } else {
      FunctionInner(fs[0]);
      ProgramLexable(fs[1..]);
      InnerThen(FunctionTokens(fs[0]), ProgramTokens(fs[1..]));
    }
  }

  lemma EndLexable()
    ensures Lexable(Token(End, ""))
  {
  }

  lemma InnerThen(a: seq<Expected>, b: seq<Expected>)
    requires Inner(a) && AllLexable(b)
    ensures AllLexable(a + b)
  {
    hide Lexable;
    assert forall k :: 0 <= k < |a| ==> (a + b)[k] == a[k] && a[k] in a;
    assert forall k :: |a| <= k < |a + b| ==> (a + b)[k] == b[k - |a|];
  }

  /** A program written in any layout is read as its tokens. */
  lemma ProgramRead(fs: seq<Function>, layout: seq<Placed>)
    requires ProgramWritten(fs) && IsLayout(layout) && Tokens(layout) == ProgramTokens(fs)
    ensures Stream(LayoutText(layout), 0, Token(End, ""), ProgramTokens(fs))
  {
    hide ProgramTokens, IsLayout, AllLexable, Stream, LayoutText, ProgramWritten;
    ProgramLexable(fs);
    var s := LayoutText(layout);
    assert s[0..] == s;
    LayoutRead(s, 0, Token(End, ""), layout);
  }

  // ---------- a plain text for every program ----------

  function Sum(adds: seq<string>): string {
    if adds == [] then "" else " + " + adds[0] + Sum(adds[1..])
  }

  function ExprText(e: Expr): string {
    " " + (if e.first.Number? then e.first.text else e.first.name) + Sum(e.adds)
  }

  function ArgText(args: seq<Expr>): string {
    if args == [] then "" else if |args| == 1 then ExprText(args[0]) else ExprText(args[0]) + " ," + ArgText(args[1..])
  }

  function Quoted(text: string): string { " \"" + text + "\"" }

  /** A comparison and an opening brace behind a keyword. */
  function HeadText(word: string, left: string, sign: string, right: string): string {
    " " + word + " ( " + left + " " + sign + " " + right + " ) {"
  }

  function StmtText(s: Stmt): string {
    match s
    case Declare(name) => " int " + name + " ;"
    case DeclareInit(name, e) => " int " + name + " =" + ExprText(e) + " ;"
    case DeclareString(name, text) => " char * " + name + " =" + Quoted(text) + " ;"
    case Assign(name, e) => " " + name + " =" + ExprText(e) + " ;"
    case While(left, bound, body) => HeadText("while", left, "<", bound) + BlockText(body) + " }"
    case If(left, right, thenBlock, elseBlock) =>
      HeadText("if", left, "!=", right) + BlockText(thenBlock) + " }"
      + (if elseBlock.Some? then " else {" + BlockText(elseBlock.value) + " }" else "")
    case CallDefined(name) => " " + name + " ( ) ;"
    case CallExternal(name, args) => " " + name + " (" + ArgText(args) + " ) ;"
  }

  function BlockText(b: Block): string {
    if b.Empty? then "" else StmtText(b.head) + BlockText(b.tail)
  }

  function FunctionText(f: Function): string {
    (if f.Main? then " int main ( ) {" else " void " + f.name + " ( ) {") + BlockText(f.body) + " }"
  }

  function ProgramText(fs: seq<Function>): string {
    if fs == [] then " " else FunctionText(fs[0]) + ProgramText(fs[1..])
  }

  /** Each token behind one blank. */
  function Spaced(tokens: seq<Expected>): string {
    if tokens == [] then "" else " " + Spelling(tokens[0].token) + Spaced(tokens[1..])
  }

  lemma {:induction false} SpacedAppend(a: seq<Expected>, b: seq<Expected>)
    ensures Spaced(a + b) == Spaced(a) + Spaced(b)
  {
    if a == [] {
      assert a + b == b;
    } else {
      hide Spelling;
      assert (a + b)[1..] == a[1..] + b;
      SpacedAppend(a[1..], b);
      assert " " + Spelling(a[0].token) + (Spaced(a[1..]) + Spaced(b)) == Spaced(a) + Spaced(b);
    }
  }

  lemma SpacedOne(t: Expected)
    ensures Spaced([t]) == " " + Spelling(t.token)
  {
    assert [t][1..] == [];
  }

  lemma SpacedTwo(a: Expected, b: Expected)
    ensures Spaced([a, b]) == " " + Spelling(a.token) + " " + Spelling(b.token)
  {
    hide Spelling;
    assert [a, b] == [a] + [b];
    SpacedAppend([a], [b]);
    SpacedOne(a);
    SpacedOne(b);
  }

  lemma {:induction false} SumSpaced(adds: seq<string>)
    ensures Spaced(AddTokens(adds)) == Sum(adds)
  {
    if adds != [] {
      var plus, number := Tok(Plus, "+"), Tok(Kind.Numeral, adds[0]);
      SumSpaced(adds[1..]);
      SpacedAppend([plus, number], AddTokens(adds[1..]));
      SpacedTwo(plus, number);
      assert " + " + adds[0] == " " + "+" + " " + adds[0];
    }
  }

  lemma ExprSpaced(e: Expr)
    ensures Spaced(ExprTokens(e)) == ExprText(e)
  {
    SpacedAppend(PrimaryTokens(e.first), AddTokens(e.adds));
    SpacedOne(PrimaryTokens(e.first)[0]);
    SumSpaced(e.adds);
  }

  lemma {:induction false} ArgsSpaced(args: seq<Expr>)
    ensures Spaced(ArgTokens(args)) == ArgText(args)
  {
    hide ExprTokens, ExprText;
    if args != [] {
      var comma := [Tok(Comma, ",")];
      ExprSpaced(args[0]);
      ArgsSpaced(args[1..]);
      SpacedAppend(ExprTokens(args[0]) + comma, ArgTokens(args[1..]));
      SpacedAppend(ExprTokens(args[0]), comma);
      SpacedOne(comma[0]);
      assert " " + "," == " ,";
    }
  }

  lemma SymbolsSpaced()
    ensures Spaced(OPEN) == " (" && Spaced(CLOSE) == " )" && Spaced(BEGIN) == " {" && Spaced(FINISH) == " }"
    ensures Spaced(STOP) == " ;" && Spaced([Tok(Equals, "=")]) == " ="
  {
    SpacedOne(OPEN[0]);
    SpacedOne(CLOSE[0]);
    SpacedOne(BEGIN[0]);
    SpacedOne(FINISH[0]);
    SpacedOne(STOP[0]);
    SpacedOne(Tok(Equals, "="));
  }

  lemma DeclareSpaced(name: string)
    ensures Spaced([Tok(IntWord, "int"), Name(name)]) == " int " + name
    ensures Spaced([Tok(IntWord, "int"), Name(name), Tok(Equals, "=")]) == " int " + name + " ="
  {
    SpacedTwo(Tok(IntWord, "int"), Name(name));
    var head := [Tok(IntWord, "int"), Name(name)];
    SpacedAppend(head, [Tok(Equals, "=")]);
    SymbolsSpaced();
    assert head + [Tok(Equals, "=")] == [Tok(IntWord, "int"), Name(name), Tok(Equals, "=")];
    assert " " + "int" + " " + name == " int " + name;
  }

  lemma StringSpaced(name: string, text: string)
    ensures Spaced([Tok(CharWord, "char"), Tok(Star, "*"), Name(name), Tok(Equals, "="), Tok(Text, text)])
         == " char * " + name + " =" + Quoted(text)
  {
    hide Spaced;
    var a, b, c := [Tok(CharWord, "char"), Tok(Star, "*")], [Name(name), Tok(Equals, "=")], [Tok(Text, text)];
    SpacedAppend(a, b);
    SpacedAppend(a + b, c);
    SpacedTwo(a[0], a[1]);
    SpacedTwo(b[0], b[1]);
    SpacedOne(c[0]);
    assert a + b + c == [Tok(CharWord, "char"), Tok(Star, "*"), Name(name), Tok(Equals, "="), Tok(Text, text)];
    StringText(name);
    assert " " + ("\"" + text + "\"") == Quoted(text);
  }

  lemma StringText(name: string)
    ensures " " + "char" + " " + "*" + (" " + name + " " + "=") == " char * " + name + " ="
  {
    assert " " + "char" + " " + "*" == " char *";
  }

  /** A comparison in parentheses. */
  lemma HeadSpaced(word: Expected, left: Expected, sign: Expected, right: Expected)
    requires word.token.kind != Text && left.token.kind != Text && sign.token.kind != Text && right.token.kind != Text
    ensures Spaced([word, Tok(LeftParen, "("), left, sign, right] + CLOSE + BEGIN)
         == HeadText(word.token.value, left.token.value, sign.token.value, right.token.value)
  {
    hide Spaced;
    var a, b := [word, Tok(LeftParen, "(")], [left, sign];
    SpacedAppend(a, b);
    SpacedAppend(a + b, [right]);
    SpacedAppend(a + b + [right], CLOSE);
    SpacedAppend(a + b + [right] + CLOSE, BEGIN);
    SpacedTwo(a[0], a[1]);
    SpacedTwo(b[0], b[1]);
    SpacedOne(right);
    SymbolsSpaced();
    assert a + b + [right] == [word, Tok(LeftParen, "("), left, sign, right];
    HeadJoined(word.token.value, left.token.value, sign.token.value, right.token.value);
  }

  lemma HeadJoined(word: string, left: string, sign: string, right: string)
    ensures " " + word + " " + "(" + (" " + left + " " + sign) + (" " + right) + " )" + " {"
         == HeadText(word, left, sign, right)
  {
  }

  lemma BracedSpaced(head: seq<Expected>, block: seq<Expected>)
    ensures Spaced(head + block + FINISH) == Spaced(head) + Spaced(block) + " }"
  {
    SpacedAppend(head + block, FINISH);
    SpacedAppend(head, block);
    SymbolsSpaced();
  }

  lemma PlainSpaced(s: Stmt)
    requires !s.While? && !s.If?
    ensures Spaced(StmtTokens(s)) == StmtText(s)
  {
    hide Spaced, ExprTokens, ExprText, Spelling;
    SymbolsSpaced();
    match s {
      case Declare(name) =>
        DeclareSpaced(name);
        SpacedAppend([Tok(IntWord, "int"), Name(name)], STOP);
      case DeclareInit(name, e) =>
        DeclareSpaced(name);
        ExprSpaced(e);
        SpacedAppend([Tok(IntWord, "int"), Name(name), Tok(Equals, "=")], ExprTokens(e));
        SpacedAppend([Tok(IntWord, "int"), Name(name), Tok(Equals, "=")] + ExprTokens(e), STOP);
      case DeclareString(name, text) =>
        StringSpaced(name, text);
        SpacedAppend([Tok(CharWord, "char"), Tok(Star, "*"), Name(name), Tok(Equals, "="), Tok(Text, text)], STOP);
      case Assign(name, e) =>
        AssignSpaced(name);
        ExprSpaced(e);
        SpacedAppend([LeadingName(name), Tok(Equals, "=")], ExprTokens(e));
        SpacedAppend([LeadingName(name), Tok(Equals, "=")] + ExprTokens(e), STOP);
      case _ => CallSpaced(s);
    }
  }

  lemma AssignSpaced(name: string)
    ensures Spaced([LeadingName(name), Tok(Equals, "=")]) == " " + name + " ="
  {
    SpacedTwo(LeadingName(name), Tok(Equals, "="));
    assert " " + name + " " + "=" == " " + name + " =";
  }

  lemma CallSpaced(s: Stmt)
    requires s.CallDefined? || s.CallExternal?
    ensures Spaced(StmtTokens(s)) == StmtText(s)
  {
    hide Spaced, ArgTokens, ArgText;
    SymbolsSpaced();
    var head := [LeadingName(s.function_)];
    SpacedOne(head[0]);
    SpacedAppend(head, OPEN);
    if s.CallExternal? {
      ArgsSpaced(s.args);
      SpacedAppend(head + OPEN, ArgTokens(s.args));
      SpacedAppend(head + OPEN + ArgTokens(s.args), CLOSE);
      SpacedAppend(head + OPEN + ArgTokens(s.args) + CLOSE, STOP);
      CallText(" " + s.function_, ArgText(s.args));
    } else {
      SpacedAppend(head + OPEN, CLOSE);
      SpacedAppend(head + OPEN + CLOSE, STOP);
      assert " " + s.function_ + " (" + " )" + " ;" == " " + s.function_ + " ( ) ;";
    }
  }

  lemma CallText(name: string, args: string)
    ensures name + " (" + args + " )" + " ;" == name + " (" + args + " ) ;"
  {
  }

  lemma {:induction false} StmtSpaced(s: Stmt)
    ensures Spaced(StmtTokens(s)) == StmtText(s)
    decreases StmtSize(s)
  {
    hide Spaced, Spelling, HeadText;
    if s.While? {
      var while_, less := Tok(WhileWord, "while"), Tok(Less, "<");
      var head := [while_, Tok(LeftParen, "("), Name(s.left), less, Tok(Kind.Numeral, s.bound)] + CLOSE + BEGIN;
      HeadSpaced(while_, Name(s.left), less, Tok(Kind.Numeral, s.bound));
      BlockSpaced(s.body);
      BracedSpaced(head, BlockTokens(s.body));
    } else if s.If? {
      BlockSpaced(s.thenBlock);
      if s.elseBlock.Some? { BlockSpaced(s.elseBlock.value); }
      BranchSpaced(s);
    } else {
      PlainSpaced(s);
    }
  }

  lemma ElseSpaced(block: seq<Expected>)
    ensures Spaced([Tok(ElseWord, "else")] + BEGIN + block + FINISH) == " else {" + Spaced(block) + " }"
  {
    SpacedOne(Tok(ElseWord, "else"));
    SpacedAppend([Tok(ElseWord, "else")], BEGIN);
    SymbolsSpaced();
    assert " " + "else" + " {" == " else {";
    BracedSpaced([Tok(ElseWord, "else")] + BEGIN, block);
  }

  lemma BranchSpaced(s: Stmt)
    requires s.If? && Spaced(BlockTokens(s.thenBlock)) == BlockText(s.thenBlock)
    requires s.elseBlock.Some? ==> Spaced(BlockTokens(s.elseBlock.value)) == BlockText(s.elseBlock.value)
    ensures Spaced(StmtTokens(s)) == StmtText(s)
  {
    hide Spaced, Spelling, BlockTokens, BlockText, HeadText;
    var if_, differs := Tok(IfWord, "if"), Tok(Differs, "!=");
    var head := [if_, Tok(LeftParen, "("), Name(s.left), differs, Name(s.right)] + CLOSE + BEGIN;
    HeadSpaced(if_, Name(s.left), differs, Name(s.right));
    BracedSpaced(head, BlockTokens(s.thenBlock));
    var first := head + BlockTokens(s.thenBlock) + FINISH;
    if s.elseBlock.Some? {
      var second := [Tok(ElseWord, "else")] + BEGIN + BlockTokens(s.elseBlock.value) + FINISH;
      ElseSpaced(BlockTokens(s.elseBlock.value));
      SpacedAppend(first, second);
    } else {
      assert StmtTokens(s) == first;
    }
  }

  lemma {:induction false} BlockSpaced(b: Block)
    ensures Spaced(BlockTokens(b)) == BlockText(b)
    decreases BlockSize(b)
  {
    hide StmtTokens, StmtText;
    if b.Then? {
      StmtSpaced(b.head);
      BlockSpaced(b.tail);
      SpacedAppend(StmtTokens(b.head), BlockTokens(b.tail));
    }
  }

  lemma FunctionSpaced(f: Function)
    ensures Spaced(FunctionTokens(f)) == FunctionText(f)
  {
    hide Spaced, BlockTokens, BlockText;
    var head := if f.Main? then [Tok(IntWord, "int"), Tok(MainWord, "main")] else [Tok(VoidWord, "void"), Name(f.name)];
    SpacedTwo(head[0], head[1]);
    SymbolsSpaced();
    SpacedAppend(head, OPEN);
    SpacedAppend(head + OPEN, CLOSE);
    SpacedAppend(head + OPEN + CLOSE, BEGIN);
    BlockSpaced(f.body);
    BracedSpaced(head + OPEN + CLOSE + BEGIN, BlockTokens(f.body));
    if f.Main? { MainHead(); } else { VoidHead(f.name); }
  }

  lemma MainHead()
    ensures " " + "int" + " " + "main" + " (" + " )" + " {" == " int main ( ) {"
  {
  }

  lemma VoidHead(name: string)
    ensures " " + "void" + " " + name + " (" + " )" + " {" == " void " + name + " ( ) {"
  {
  }

  /** The text of a program is its tokens, one blank before each. */
  lemma {:induction false} ProgramSpaced(fs: seq<Function>)
    ensures Spaced(ProgramTokens(fs)) == ProgramText(fs)
  {
    if fs == [] {
      SpacedOne(Tok(End, ""));
    } else {
      hide FunctionTokens, FunctionText;
      FunctionSpaced(fs[0]);
      ProgramSpaced(fs[1..]);
      SpacedAppend(FunctionTokens(fs[0]), ProgramTokens(fs[1..]));
    }
  }

  function SpacedLayout(tokens: seq<Expected>): (layout: seq<Placed>)
    ensures |layout| == |tokens|
  {
    seq(|tokens|, i requires 0 <= i < |tokens| => Placed([Blank(' ')], tokens[i]))
  }

  lemma {:induction false} SpacedIs(tokens: seq<Expected>)
    ensures LayoutText(SpacedLayout(tokens)) == Spaced(tokens)
  {
    hide Spelling;
    if tokens != [] {
      SpacedIs(tokens[1..]);
      assert SpacedLayout(tokens)[1..] == SpacedLayout(tokens[1..]);
      assert GapText([Blank(' ')]) == " " by { assert [Blank(' ')][1..] == []; }
      assert " " + (Spelling(tokens[0].token) + Spaced(tokens[1..])) == Spaced(tokens);
    }
  }

  /** The text of a written program is read as the program's tokens. */
  lemma ProgramTextRead(fs: seq<Function>)
    requires ProgramWritten(fs)
    ensures Stream(ProgramText(fs), 0, Token(End, ""), ProgramTokens(fs))
  {
    hide ProgramTokens, ProgramText, ProgramWritten, Stream, LayoutText, Spaced, Spelling;
    var tokens := ProgramTokens(fs);
    ProgramSpaced(fs);
    SpacedIs(tokens);
    assert Tokens(SpacedLayout(tokens)) == tokens;
    ProgramRead(fs, SpacedLayout(tokens));
  }
}
