/** The compiler's tokens: `getNextToken` as a function of the source text and a position. */
module Lexer {
  import opened LibcText
  import opened AssemblyText

  datatype Kind =
    | IntWord | CharWord | VoidWord | MainWord | ReturnWord | IfWord | ElseWord | SyscallWord | WhileWord
    | Identifier | Numeral | Text | LeftParen | RightParen | LeftBrace | RightBrace | Semicolon | Equals
    | Comma | Plus | Less | Star | Differs | End

  datatype Token = Token(kind: Kind, value: string)

  /** Room for a token's characters, the terminator included. */
  const MAX_TOKEN_VALUE: nat := 50

  datatype Lexed = Lexed(token: Token, next: nat)

  /** The character at a position; the text ends with a terminator. */
  function CharAt(s: string, i: nat): char {
    if i < |s| then s[i] else '\0'
  }

  predicate IsHexDigit(c: char) { IsDigit(c) || 'a' <= c <= 'f' || 'A' <= c <= 'F' }
  predicate EndsDigits(c: char) { !IsDigit(c) }
  predicate EndsHexDigits(c: char) { !IsHexDigit(c) }
  predicate EndsIdentifier(c: char) { !(IsAlpha(c) || IsDigit(c) || c == '_') }
  predicate EndsComment(c: char) { c == '\n' || c == '\0' }
  predicate EndsText(c: char) { c == '"' || c == '\0' }

  predicate CommentAt(s: string, i: nat) {
    CharAt(s, i) == '/' && CharAt(s, i + 1) == '/'
  }

  /** The first position from `i` on that is neither white space nor inside a line comment. */
  function SkipBlanks(s: string, i: nat): (j: nat)
    requires i <= |s|
    ensures i <= j <= |s|
    decreases |s| - i
  {
    var p := Scan(s, i, IsVisible);
    if !CommentAt(s, p) then p
    else
      var e := Scan(s, p + 2, EndsComment);
      SkipBlanks(s, if CharAt(s, e) == '\n' then e + 1 else e)
  }

  function KeywordKind(word: string): Kind {
    if word == "int" then IntWord
    else if word == "char" then CharWord
    else if word == "void" then VoidWord
    else if word == "main" then MainWord
    else if word == "return" then ReturnWord
    else if word == "if" then IfWord
    else if word == "else" then ElseWord
    else if word == "syscall" then SyscallWord
    else if word == "while" then WhileWord
    else Identifier
  }

  /** The token of a single character, or End for a character that starts no token. */
  function SymbolKind(c: char): Kind {
    if c == '(' then LeftParen
    else if c == ')' then RightParen
    else if c == '{' then LeftBrace
    else if c == '}' then RightBrace
    else if c == ';' then Semicolon
    else if c == '=' then Equals
    else if c == ',' then Comma
    else if c == '+' then Plus
    else if c == '<' then Less
    else if c == '*' then Star
    else End
  }

  function NumeralEnd(s: string, p: nat): (e: nat)
    requires p < |s| && IsDigit(s[p])
    ensures p < e <= |s|
  {
    if s[p] == '0' && (CharAt(s, p + 1) == 'x' || CharAt(s, p + 1) == 'X') then Scan(s, p + 2, EndsHexDigits)
    else Scan(s, p, EndsDigits)
  }

  /** The token from position `i` on; an invalid character leaves the token `previous` and does not advance. */
  function Lex(s: string, i: nat, previous: Token): (l: Lexed)
    requires i <= |s|
    ensures l.next <= |s|
  {
    var p := SkipBlanks(s, i);
    var c := CharAt(s, p);
    if c == '\0' then Lexed(Token(End, ""), p)
    else if c == '"' then
      var e := Scan(s, p + 1, EndsText);
      Lexed(Token(Text, s[p + 1..e]), if CharAt(s, e) == '"' then e + 1 else e)
    else if IsDigit(c) then
      var e := NumeralEnd(s, p);
      Lexed(Token(Numeral, s[p..e]), e)
    else if IsAlpha(c) then
      var e := Scan(s, p, EndsIdentifier);
      Lexed(Token(KeywordKind(s[p..e]), s[p..e]), e)
    else if SymbolKind(c) != End then Lexed(Token(SymbolKind(c), [c]), p + 1)
    else if c == '!' && CharAt(s, p + 1) == '=' then Lexed(Token(Differs, "!="), p + 2)
    else Lexed(previous, p)
  }

  // ---------- expected token streams ----------

  /** A token; `leading` ones start a statement and must not be followed by a comment. */
  datatype Expected = Expected(token: Token, leading: bool)

  /** The source from position `i` on starts with these tokens, each short enough for the token buffer. */
  ghost predicate Stream(s: string, i: nat, previous: Token, tokens: seq<Expected>)
    requires i <= |s|
    decreases |tokens|
  {
    tokens == [] || (
      var l := Lex(s, i, previous);
      && l.token == tokens[0].token && |l.token.value| < MAX_TOKEN_VALUE
      && (tokens[0].leading ==> !CommentAt(s, Scan(s, l.next, IsVisible)))
      && Stream(s, l.next, l.token, tokens[1..]))
  }

  /** The next visible character tells an `=` or `(` token, if no comment stands before it. */
  lemma PeekTells(s: string, i: nat, previous: Token)
    requires i <= |s| && !CommentAt(s, Scan(s, i, IsVisible))
    requires previous.kind == Identifier
    ensures CharAt(s, Scan(s, i, IsVisible)) == '=' <==> Lex(s, i, previous).token.kind == Equals
    ensures CharAt(s, Scan(s, i, IsVisible)) == '(' <==> Lex(s, i, previous).token.kind == LeftParen
  {
  }

  // ---------- the loops ----------

  /** One round of the loop: the blanks, and the comment after them if there is one. */
  lemma BlanksStep(s: string, i: nat)
    requires i <= |s|
    ensures var p := Scan(s, i, IsVisible); var e := if CommentAt(s, p) then Scan(s, p + 2, EndsComment) else p;
            SkipBlanks(s, i) == if !CommentAt(s, p) then p else SkipBlanks(s, if CharAt(s, e) == '\n' then e + 1 else e)
  {
  }

  method SkipBlanksLoop(s: string, i: nat) returns (j: nat)
    requires i <= |s|
    ensures j == SkipBlanks(s, i)
  {
    hide Scan, SkipBlanks;
    j := i;
    while true
      invariant j <= |s| && SkipBlanks(s, i) == SkipBlanks(s, j)
      decreases |s| - j
    {
      BlanksStep(s, j);
      j := ScanLoop(s, j, IsVisible);
      if CommentAt(s, j) {
        j := ScanLoop(s, j + 2, EndsComment);
        if CharAt(s, j) == '\n' { j := j + 1; }
      } else {
        break;
      }
    }
  }

  /** `getNextToken`. */
  method LexLoop(s: string, i: nat, previous: Token) returns (token: Token, next: nat)
    requires i <= |s|
    ensures Lexed(token, next) == Lex(s, i, previous)
  {
    hide Scan, SkipBlanks, KeywordKind;
    var p := SkipBlanksLoop(s, i);
    var c := CharAt(s, p);
    token, next := previous, p;
    if c == '\0' {
      token := Token(End, "");
    } else if c == '"' {
      next := ScanLoop(s, p + 1, EndsText);
      token := Token(Text, s[p + 1..next]);
      if CharAt(s, next) == '"' { next := next + 1; }
    } else if IsDigit(c) {
      if c == '0' && (CharAt(s, p + 1) == 'x' || CharAt(s, p + 1) == 'X') {
        next := ScanLoop(s, p + 2, EndsHexDigits);
      } else {
        next := ScanLoop(s, p, EndsDigits);
      }
      token := Token(Numeral, s[p..next]);
    } else if IsAlpha(c) {
      next := ScanLoop(s, p, EndsIdentifier);
      token := Token(KeywordKind(s[p..next]), s[p..next]);
    } else if SymbolKind(c) != End {
      token, next := Token(SymbolKind(c), [c]), p + 1;
    } else if c == '!' && CharAt(s, p + 1) == '=' {
      token, next := Token(Differs, "!="), p + 2;
    }
  }
}
