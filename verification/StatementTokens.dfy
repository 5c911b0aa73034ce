/** Where the pieces of a statement stand in its tokens, and how function bodies are skipped. */
module StatementTokens {
  import opened X86
  import opened SourceLanguage
  import opened Lexer
  import opened Grammar

  lemma Regroup(a: seq<Expected>, b: seq<Expected>, c: seq<Expected>)
    ensures a + b + c == a + (b + c)
    ensures a != [] ==> (a + b + c)[0] == a[0]
  {
  }

  lemma Tails(tokens: seq<Expected>, k: nat)
    requires k < |tokens|
    ensures tokens[k..][1..] == tokens[k + 1..]
  {
  }

  lemma AddTokensStep(adds: seq<string>)
    requires adds != []
    ensures AddTokens(adds) == [Tok(Plus, "+"), Tok(Kind.Numeral, adds[0])] + AddTokens(adds[1..])
  {
  }

  /** A chain of additions starts with `+` exactly when it is not empty. */
  lemma AddsNeedPlus(adds: seq<string>, rest: seq<Expected>)
    requires rest != [] && rest[0].token.kind != Plus
    ensures adds != [] <==> (AddTokens(adds) + rest)[0].token.kind == Plus
    ensures adds == [] ==> AddTokens(adds) + rest == rest
  {
  }

  lemma AddSplit(adds: seq<string>, rest: seq<Expected>)
    requires adds != []
    ensures var tokens := AddTokens(adds) + rest;
            && |tokens| == 2 + |AddTokens(adds[1..]) + rest|
            && tokens[1..] != [] && tokens[1..][0].token == Token(Kind.Numeral, adds[0])
            && tokens[1..][1..] == AddTokens(adds[1..]) + rest
  {
    var first, more := [Tok(Plus, "+"), Tok(Kind.Numeral, adds[0])], AddTokens(adds[1..]);
    hide AddTokens;
    AddTokensStep(adds);
    Regroup(first, more, rest);
    TwoThen(first[0], first[1], more + rest);
  }

  lemma TwoThen(a: Expected, b: Expected, rest: seq<Expected>)
    ensures var tokens := [a, b] + rest;
            |tokens| == 2 + |rest| && tokens[1..] != [] && tokens[1..][0] == b && tokens[1..][1..] == rest
  {
  }

  lemma NothingBefore(tokens: seq<Expected>)
    ensures [] + tokens == tokens
  {
  }

  lemma StopThen(rest: seq<Expected>)
    ensures STOP + rest != [] && (STOP + rest)[0] == Tok(Semicolon, ";") && (STOP + rest)[1..] == rest
    ensures |STOP + rest| == 1 + |rest|
  {
  }

  lemma CloseThen(rest: seq<Expected>)
    ensures CLOSE + rest != [] && (CLOSE + rest)[0].token.kind == RightParen && (CLOSE + rest)[1..] == rest
    ensures |CLOSE + rest| == 1 + |rest|
  {
  }

  predicate EndsList(kind: Kind) {
    kind == RightBrace || kind == End
  }

  lemma FinishThen(rest: seq<Expected>)
    ensures FINISH + rest != [] && (FINISH + rest)[0].token.kind == RightBrace && (FINISH + rest)[1..] == rest
    ensures |FINISH + rest| == 1 + |rest|
  {
  }

  lemma ExprNotEmpty(e: Expr)
    ensures |ExprTokens(e)| > 0
  {
  }

  lemma ExprStart(e: Expr)
    ensures ExprTokens(e) != []
            && (ExprTokens(e)[0].token.kind == Kind.Numeral || ExprTokens(e)[0].token.kind == Identifier)
  {
    hide AddTokens;
  }

  lemma DeclareTokens(s: Stmt, rest: seq<Expected>)
    requires s.Declare? || s.DeclareInit?
    ensures var tokens := StmtTokens(s) + rest;
            && |tokens| > 2 && tokens[1].token == Token(Identifier, s.name)
            && tokens[1..] != [] && tokens[1..][0] == tokens[1] && tokens[1..][1..] != []
            && (s.DeclareInit? <==> tokens[1..][1..][0].token.kind == Equals)
            && (s.Declare? ==> tokens[1..][1..] == STOP + rest)
            && (s.DeclareInit?
               ==> |tokens[1..][1..]| > 1 && tokens[1..][1..][1..] == ExprTokens(s.value) + (STOP + rest))
  {
    hide ExprTokens;
    var tokens := StmtTokens(s) + rest;
    if s.DeclareInit? {
      var head := [Tok(IntWord, "int"), Name(s.name), Tok(Equals, "=")];
      assert tokens == head + (ExprTokens(s.value) + (STOP + rest));
      ExprNotEmpty(s.value);
    }
  }

  lemma DeclareStringTokens(s: Stmt, rest: seq<Expected>)
    requires s.DeclareString?
    ensures var tokens := StmtTokens(s) + rest;
            && |tokens| == 6 + |rest| && tokens[6..] == rest
            && tokens[2].token == Token(Identifier, s.name) && tokens[4].token == Token(Text, s.text)
            && tokens[2..][0] == tokens[2] && tokens[4..][0] == tokens[4]
            && tokens[1..][1..] == tokens[2..] && tokens[2..][1..] == tokens[3..] && tokens[3..][1..] == tokens[4..]
            && tokens[4..][1..] == tokens[5..] && tokens[5..][1..] == tokens[6..]
  {
  }

  lemma AssignTokens(s: Stmt, rest: seq<Expected>)
    requires s.Assign?
    ensures var tokens := StmtTokens(s) + rest;
            && |tokens| > 2 && tokens[0].token == Token(Identifier, s.name)
            && tokens[1..][1..] == ExprTokens(s.value) + (STOP + rest)
  {
    hide ExprTokens;
    var tokens := StmtTokens(s) + rest;
    var head := [LeadingName(s.name), Tok(Equals, "=")];
    assert tokens == head + (ExprTokens(s.value) + (STOP + rest));
    assert |head| == 2;
    ExprNotEmpty(s.value);
  }

  lemma WhileTokens(s: Stmt, rest: seq<Expected>)
    requires s.While?
    ensures var tokens := StmtTokens(s) + rest;
            && |tokens| > 7 && tokens[7..] == BlockTokens(s.body) + (FINISH + rest)
            && tokens[2].token == Token(Identifier, s.left) && tokens[4].token == Token(Kind.Numeral, s.bound)
            && tokens[1..][1..] == tokens[2..] && tokens[2..][1..] == tokens[3..] && tokens[3..][1..] == tokens[4..]
            && tokens[4..][1..] == tokens[5..] && tokens[5..][1..] == tokens[6..] && tokens[6..][1..] == tokens[7..]
  {
    hide BlockTokens;
    var tokens := StmtTokens(s) + rest;
    var head := [Tok(WhileWord, "while"), Tok(LeftParen, "("), Name(s.left), Tok(Less, "<"), Tok(Kind.Numeral, s.bound)]
      + CLOSE + BEGIN;
    assert |head| == 7;
    assert tokens == head + (BlockTokens(s.body) + (FINISH + rest));
  }

  function ElseTokens(e: Option<Block>): seq<Expected> {
    if e.Some? then [Tok(ElseWord, "else")] + BEGIN + BlockTokens(e.value) + FINISH else []
  }

  lemma IfTokens(s: Stmt, rest: seq<Expected>)
    requires s.If?
    ensures var tokens := StmtTokens(s) + rest;
            && |tokens| > 7 && tokens[7..] == BlockTokens(s.thenBlock) + (FINISH + (ElseTokens(s.elseBlock) + rest))
            && tokens[2].token == Token(Identifier, s.left) && tokens[4].token == Token(Identifier, s.right)
            && tokens[1..][1..] == tokens[2..] && tokens[2..][1..] == tokens[3..] && tokens[3..][1..] == tokens[4..]
            && tokens[4..][1..] == tokens[5..] && tokens[5..][1..] == tokens[6..] && tokens[6..][1..] == tokens[7..]
  {
    hide BlockTokens;
    var tokens := StmtTokens(s) + rest;
    var head := [Tok(IfWord, "if"), Tok(LeftParen, "("), Name(s.left), Tok(Differs, "!="), Name(s.right)] + CLOSE
      + BEGIN;
    assert |head| == 7;
    assert StmtTokens(s) == head + BlockTokens(s.thenBlock) + FINISH + ElseTokens(s.elseBlock);
    assert tokens == head + (BlockTokens(s.thenBlock) + (FINISH + (ElseTokens(s.elseBlock) + rest)));
  }

  /** An `else` part starts with its keyword. */
  lemma ElseFirst(e: Option<Block>, rest: seq<Expected>)
    requires rest != [] && rest[0].token.kind != ElseWord
    ensures ElseTokens(e) + rest != []
    ensures e.Some? <==> (ElseTokens(e) + rest)[0].token.kind == ElseWord
    ensures e.None? ==> ElseTokens(e) + rest == rest
  {
    hide BlockTokens;
  }

  lemma ElseSplit(e: Option<Block>, rest: seq<Expected>)
    requires e.Some?
    ensures var tokens := ElseTokens(e) + rest;
            |tokens| > 2 && |tokens[1..]| > 1 && tokens[1..][1..] == BlockTokens(e.value) + (FINISH + rest)
  {
    hide BlockTokens;
    var tokens := ElseTokens(e) + rest;
    var head := [Tok(ElseWord, "else")] + BEGIN;
    assert tokens == head + (BlockTokens(e.value) + (FINISH + rest));
    assert |head| == 2;
  }

  lemma IfCallsFit(s: Stmt, defined: seq<string>)
    requires s.If? && StmtCallsFit(s, defined)
    ensures CallsFit(s.thenBlock, defined) && (s.elseBlock.Some? ==> CallsFit(s.elseBlock.value, defined))
  {
  }

  lemma CallTokens(s: Stmt, rest: seq<Expected>)
    requires s.CallDefined? || s.CallExternal?
    ensures var tokens := StmtTokens(s) + rest;
            && |tokens| > 2 && tokens[0].token == Token(Identifier, s.function_)
            && tokens[1..][1..] == (if s.CallExternal? then ArgTokens(s.args) else []) + (CLOSE + (STOP + rest))
  {
    hide ArgTokens;
    var tokens := StmtTokens(s) + rest;
    var middle := if s.CallExternal? then ArgTokens(s.args) else [];
    assert tokens == [LeadingName(s.function_), Tok(LeftParen, "(")] + (middle + (CLOSE + (STOP + rest)));
  }

  /** What follows the first argument. */
  function ArgsAfter(args: seq<Expr>, rest: seq<Expected>): seq<Expected>
    requires args != []
  {
    if |args| == 1 then rest else [Tok(Comma, ",")] + (ArgTokens(args[1..]) + rest)
  }

  lemma ArgsSplit(args: seq<Expr>, rest: seq<Expected>)
    requires args != [] && rest != [] && rest[0].token.kind == RightParen
    ensures ArgTokens(args) + rest == ExprTokens(args[0]) + ArgsAfter(args, rest)
    ensures var after := ArgsAfter(args, rest);
            && after != [] && after[0].token.kind != Plus
            && (|args| == 1 ==> after[0].token.kind == RightParen)
            && (|args| > 1 ==> after[0].token.kind == Comma && |after| > 1 && after[1..] == ArgTokens(args[1..]) + rest)
  {
    hide ExprTokens;
    if |args| > 1 {
      var comma := [Tok(Comma, ",")];
      Regroup(ExprTokens(args[0]) + comma, ArgTokens(args[1..]), rest);
      Regroup(ExprTokens(args[0]), comma, ArgTokens(args[1..]) + rest);
    }
  }

  lemma ArgsStart(args: seq<Expr>, rest: seq<Expected>)
    requires rest != [] && rest[0].token.kind == RightParen
    ensures args == [] <==> (ArgTokens(args) + rest)[0].token.kind == RightParen
    ensures args == [] ==> ArgTokens(args) + rest == rest
  {
    if args != [] {
      ExprStart(args[0]);
      ArgsSplit(args, rest);
    }
  }

  /** How a statement's tokens start. */
  lemma StmtStarts(s: Stmt)
    ensures StmtTokens(s) != [] && !EndsList(StmtTokens(s)[0].token.kind) && StmtTokens(s)[0].token.kind != ElseWord
  {
    hide BlockTokens, ExprTokens, ArgTokens;
  }

  /** A list of statements is empty exactly when the token that ends it comes first. */
  lemma BlockStarts(b: Block, rest: seq<Expected>)
    requires rest != [] && EndsList(rest[0].token.kind)
    ensures b.Then? <==> !EndsList((BlockTokens(b) + rest)[0].token.kind)
    ensures b.Empty? ==> BlockTokens(b) + rest == rest
    ensures b.Then? ==> BlockTokens(b) + rest == StmtTokens(b.head) + (BlockTokens(b.tail) + rest)
    ensures (BlockTokens(b) + rest)[0].token.kind != ElseWord
  {
    hide StmtTokens;
    if b.Then? {
      StmtStarts(b.head);
      Regroup(StmtTokens(b.head), BlockTokens(b.tail), rest);
    }
  }

  lemma StmtFirst(s: Stmt, rest: seq<Expected>)
    ensures StmtTokens(s) + rest != []
    ensures var kind := (StmtTokens(s) + rest)[0].token.kind;
            && (kind == IntWord <==> s.Declare? || s.DeclareInit?)
            && (kind == CharWord <==> s.DeclareString?)
            && (kind == Identifier <==> s.Assign? || s.CallDefined? || s.CallExternal?)
            && (kind == IfWord <==> s.If?)
            && (kind == WhileWord <==> s.While?)
  {
    hide BlockTokens, ExprTokens, ArgTokens;
  }

  lemma StmtSecond(s: Stmt, rest: seq<Expected>)
    requires s.Assign? || s.CallDefined? || s.CallExternal? || (StmtTokens(s) + rest)[0].token.kind == Identifier
    ensures |StmtTokens(s) + rest| > 1 && (StmtTokens(s) + rest)[0].leading
    ensures (StmtTokens(s) + rest)[1..][0].token.kind == if s.Assign? then Equals else LeftParen
    ensures s.Assign? || s.CallDefined? || s.CallExternal?
  {
    hide BlockTokens, ExprTokens, ArgTokens;
  }

  lemma FunctionHead(f: Function, rest: seq<Expected>)
    ensures var tokens := FunctionTokens(f) + rest;
            && |tokens| > 5 && tokens[5..] == BlockTokens(f.body) + (FINISH + rest)
            && tokens[0].token.kind == (if f.Main? then IntWord else VoidWord)
            && tokens[1] == (if f.Main? then Tok(MainWord, "main") else Name(f.name))
            && tokens[1..] != [] && tokens[1..][0] == tokens[1]
            && tokens[2].token.kind == LeftParen && tokens[3].token.kind == RightParen
               && tokens[4].token.kind == LeftBrace
            && tokens[1..][1..] == tokens[2..] && tokens[2..][1..] == tokens[3..] && tokens[3..][1..] == tokens[4..]
            && tokens[4..][1..] == tokens[5..] && |tokens[4..]| > 1
  {
    hide BlockTokens;
    var first := if f.Main? then [Tok(IntWord, "int"), Tok(MainWord, "main")]
      else [Tok(VoidWord, "void"), Name(f.name)];
    var head := first + OPEN + CLOSE + BEGIN;
    assert |head| == 5;
    Regroup(head, BlockTokens(f.body), FINISH);
    Regroup(head, BlockTokens(f.body) + FINISH, rest);
    Regroup(BlockTokens(f.body), FINISH, rest);
    FinishThen(rest);
  }

  lemma ProgramStarts(fs: seq<Function>)
    ensures ProgramTokens(fs) != []
    ensures fs != [] <==> ProgramTokens(fs)[0].token.kind != End
    ensures fs != [] ==> ProgramTokens(fs) == FunctionTokens(fs[0]) + ProgramTokens(fs[1..])
    ensures fs != [] ==> ProgramTokens(fs)[0].token.kind == VoidWord || ProgramTokens(fs)[0].token.kind == IntWord
  {
    hide BlockTokens;
  }

  lemma ProgramNotEmpty(fs: seq<Function>)
    ensures ProgramTokens(fs) != []
  {
    ProgramStarts(fs);
  }

  /** What is left after the brace that closes `depth` open ones. */
  function SkipTo(tokens: seq<Expected>, depth: nat): seq<Expected> {
    if depth == 0 || tokens == [] then tokens
    else
      var kind := tokens[0].token.kind;
      SkipTo(tokens[1..], if kind == LeftBrace then depth + 1 else if kind == RightBrace then depth - 1 else depth)
  }

  lemma {:induction false} SkipToShort(tokens: seq<Expected>, depth: nat)
    ensures |SkipTo(tokens, depth)| <= |tokens|
    ensures depth > 0 && tokens != [] ==> |SkipTo(tokens, depth)| < |tokens|
  {
    if depth > 0 && tokens != [] {
      var kind := tokens[0].token.kind;
      SkipToShort(tokens[1..], if kind == LeftBrace then depth + 1 else if kind == RightBrace then depth - 1
        else depth);
    }
  }

  /** Tokens without braces and without the end of the text. */
  predicate Flat(tokens: seq<Expected>) {
    forall k :: 0 <= k < |tokens|
      ==> tokens[k].token.kind != LeftBrace && tokens[k].token.kind != RightBrace && tokens[k].token.kind != End
  }

  /** Tokens with matching braces: skipping them changes no depth. */
  ghost predicate Balanced(tokens: seq<Expected>) {
    && (forall k :: 0 <= k < |tokens| ==> tokens[k].token.kind != End)
    && forall rest: seq<Expected>, depth: nat :: depth > 0 ==> SkipTo(tokens + rest, depth) == SkipTo(rest, depth)
  }

  lemma {:induction false} FlatSkip(tokens: seq<Expected>, rest: seq<Expected>, depth: nat)
    requires Flat(tokens) && depth > 0
    ensures SkipTo(tokens + rest, depth) == SkipTo(rest, depth)
  {
    if tokens == [] {
      assert tokens + rest == rest;
    } else {
      assert (tokens + rest)[1..] == tokens[1..] + rest;
      FlatSkip(tokens[1..], rest, depth);
    }
  }

  lemma FlatBalanced(tokens: seq<Expected>)
    requires Flat(tokens)
    ensures Balanced(tokens)
  {
    forall rest: seq<Expected>, depth: nat | depth > 0
      ensures SkipTo(tokens + rest, depth) == SkipTo(rest, depth)
    {
      FlatSkip(tokens, rest, depth);
    }
  }

  lemma BalancedAppend(a: seq<Expected>, b: seq<Expected>)
    requires Balanced(a) && Balanced(b)
    ensures Balanced(a + b)
  {
    hide SkipTo;
    forall rest: seq<Expected>, depth: nat | depth > 0
      ensures SkipTo(a + b + rest, depth) == SkipTo(rest, depth)
    {
      Regroup(a, b, rest);
    }
  }

  /** Balanced tokens between braces are balanced. */
  lemma Braced(tokens: seq<Expected>)
    requires Balanced(tokens)
    ensures Balanced(BEGIN + tokens + FINISH)
  {
    var all := BEGIN + tokens + FINISH;
    forall rest: seq<Expected>, depth: nat | depth > 0
      ensures SkipTo(all + rest, depth) == SkipTo(rest, depth)
    {
      BraceSkip(tokens, rest, depth);
    }
  }

  lemma BraceSkip(tokens: seq<Expected>, rest: seq<Expected>, depth: nat)
    requires Balanced(tokens) && depth > 0
    ensures SkipTo(BEGIN + tokens + FINISH + rest, depth) == SkipTo(rest, depth)
  {
    var all := BEGIN + tokens + FINISH + rest;
    assert all[1..] == tokens + (FINISH + rest);
    assert SkipTo(all, depth) == SkipTo(tokens + (FINISH + rest), depth + 1);
    assert SkipTo(tokens + (FINISH + rest), depth + 1) == SkipTo(FINISH + rest, depth + 1);
    FinishThen(rest);
  }

  lemma {:induction false} AddsFlat(adds: seq<string>)
    ensures Flat(AddTokens(adds))
  {
    if adds != [] { AddsFlat(adds[1..]); }
  }

  lemma ExprFlat(e: Expr)
    ensures Flat(ExprTokens(e))
  {
    AddsFlat(e.adds);
  }

  lemma {:induction false} ArgsFlat(args: seq<Expr>)
    ensures Flat(ArgTokens(args))
  {
    hide ExprTokens;
    if args != [] {
      ExprFlat(args[0]);
      if |args| > 1 { ArgsFlat(args[1..]); }
    }
  }

  lemma PlainFlat(s: Stmt)
    requires !s.While? && !s.If?
    ensures Flat(StmtTokens(s))
  {
    hide ExprTokens, ArgTokens;
    match s {
      case DeclareInit(_, e) => ExprFlat(e);
      case Assign(_, e) => ExprFlat(e);
      case CallExternal(_, args) => ArgsFlat(args);
      case _ =>
    }
  }

  lemma WhileParts(s: Stmt)
    requires s.While? && Balanced(BEGIN + BlockTokens(s.body) + FINISH)
    ensures Balanced(StmtTokens(s))
  {
    hide Balanced, BlockTokens;
    var head := [Tok(WhileWord, "while"), Tok(LeftParen, "("), Name(s.left), Tok(Less, "<"), Tok(Kind.Numeral, s.bound)]
      + CLOSE;
    var part := BEGIN + BlockTokens(s.body) + FINISH;
    FlatBalanced(head);
    BalancedAppend(head, part);
    assert StmtTokens(s) == head + part;
  }

  lemma IfParts(s: Stmt)
    requires s.If? && Balanced(BEGIN + BlockTokens(s.thenBlock) + FINISH) && Balanced(ElseTokens(s.elseBlock))
    ensures Balanced(StmtTokens(s))
  {
    hide Balanced, BlockTokens;
    var head := [Tok(IfWord, "if"), Tok(LeftParen, "("), Name(s.left), Tok(Differs, "!="), Name(s.right)] + CLOSE;
    var part := BEGIN + BlockTokens(s.thenBlock) + FINISH;
    FlatBalanced(head);
    BalancedAppend(head, part);
    BalancedAppend(head + part, ElseTokens(s.elseBlock));
    assert StmtTokens(s) == head + part + ElseTokens(s.elseBlock);
  }

  lemma {:induction false} StmtBalanced(s: Stmt)
    ensures Balanced(StmtTokens(s))
    decreases StmtSize(s), 0
  {
    hide Balanced, BlockTokens, StmtTokens, Flat;
    if s.While? {
      BlockBalanced(s.body);
      Braced(BlockTokens(s.body));
      WhileParts(s);
    } else if s.If? {
      BlockBalanced(s.thenBlock);
      Braced(BlockTokens(s.thenBlock));
      ElseBalanced(s.elseBlock);
      IfParts(s);
    } else {
      PlainFlat(s);
      FlatBalanced(StmtTokens(s));
    }
  }

  lemma {:induction false} ElseBalanced(e: Option<Block>)
    ensures Balanced(ElseTokens(e))
    decreases if e.Some? then BlockSize(e.value) else 0, 1
  {
    hide Balanced, BlockTokens;
    if e.Some? {
      BlockBalanced(e.value);
      Braced(BlockTokens(e.value));
      FlatBalanced([Tok(ElseWord, "else")]);
      BalancedAppend([Tok(ElseWord, "else")], BEGIN + BlockTokens(e.value) + FINISH);
      assert ElseTokens(e) == [Tok(ElseWord, "else")] + (BEGIN + BlockTokens(e.value) + FINISH);
    } else {
      FlatBalanced([]);
    }
  }

  lemma {:induction false} BlockBalanced(b: Block)
    ensures Balanced(BlockTokens(b))
    decreases BlockSize(b), 0
  {
    hide Balanced, StmtTokens;
    if b.Empty? {
      FlatBalanced([]);
    } else {
      StmtBalanced(b.head);
      BlockBalanced(b.tail);
      BalancedAppend(StmtTokens(b.head), BlockTokens(b.tail));
    }
  }

  lemma CloseSkip(rest: seq<Expected>)
    ensures SkipTo(FINISH + rest, 1) == rest
  {
    var tokens := FINISH + rest;
    assert tokens[0].token.kind == RightBrace && tokens[1..] == rest;
    assert SkipTo(tokens[1..], 0) == rest;
  }

  lemma BodySkipped(body: Block, rest: seq<Expected>)
    ensures var tokens := BlockTokens(body) + (FINISH + rest);
            && SkipTo(tokens, 1) == rest
            && forall k :: 0 <= k < |tokens| - |rest| ==> tokens[k].token.kind != End
  {
    hide BlockTokens, SkipTo;
    BlockBalanced(body);
    FinishThen(rest);
    CloseSkip(rest);
    assert SkipTo(BlockTokens(body) + (FINISH + rest), 1) == SkipTo(FINISH + rest, 1);
  }
}
