/** The token sequences of the C subset's statements. */
module Grammar {
  import opened SourceLanguage
  import opened Lexer

  function Tok(kind: Kind, value: string): Expected {
    Expected(Token(kind, value), false)
  }

  function Name(name: string): Expected { Tok(Identifier, name) }

  /** An identifier at the start of a statement, told apart by the character after it. */
  function LeadingName(name: string): Expected {
    Expected(Token(Identifier, name), true)
  }

  const OPEN: seq<Expected> := [Tok(LeftParen, "(")]
  const CLOSE: seq<Expected> := [Tok(RightParen, ")")]
  const BEGIN: seq<Expected> := [Tok(LeftBrace, "{")]
  const FINISH: seq<Expected> := [Tok(RightBrace, "}")]
  const STOP: seq<Expected> := [Tok(Semicolon, ";")]

  function PrimaryTokens(p: Primary): seq<Expected> {
    match p
    case Number(text) => [Tok(Numeral, text)]
    case Variable(name) => [Name(name)]
  }

  function AddTokens(adds: seq<string>): seq<Expected> {
    if adds == [] then [] else [Tok(Plus, "+"), Tok(Numeral, adds[0])] + AddTokens(adds[1..])
  }

  function ExprTokens(e: Expr): seq<Expected> {
    PrimaryTokens(e.first) + AddTokens(e.adds)
  }

  function ArgTokens(args: seq<Expr>): seq<Expected> {
    if args == [] then []
    else if |args| == 1 then ExprTokens(args[0])
    else ExprTokens(args[0]) + [Tok(Comma, ",")] + ArgTokens(args[1..])
  }

  function StmtTokens(s: Stmt): seq<Expected> {
    match s
    case Declare(name) => [Tok(IntWord, "int"), Name(name)] + STOP
    case DeclareInit(name, e) => [Tok(IntWord, "int"), Name(name), Tok(Equals, "=")] + ExprTokens(e) + STOP
    case DeclareString(name, text) =>
      [Tok(CharWord, "char"), Tok(Star, "*"), Name(name), Tok(Equals, "="), Tok(Text, text)] + STOP
    case Assign(name, e) => [LeadingName(name), Tok(Equals, "=")] + ExprTokens(e) + STOP
    case While(left, bound, body) =>
      [Tok(WhileWord, "while"), Tok(LeftParen, "("), Name(left), Tok(Less, "<"), Tok(Numeral, bound)] + CLOSE + BEGIN
      + BlockTokens(body) + FINISH
    case If(left, right, thenBlock, elseBlock) =>
      [Tok(IfWord, "if"), Tok(LeftParen, "("), Name(left), Tok(Differs, "!="), Name(right)] + CLOSE + BEGIN
      + BlockTokens(thenBlock) + FINISH
      + (if elseBlock.Some? then [Tok(ElseWord, "else")] + BEGIN + BlockTokens(elseBlock.value) + FINISH else [])
    case CallDefined(name) => [LeadingName(name)] + OPEN + CLOSE + STOP
    case CallExternal(name, args) => [LeadingName(name)] + OPEN + ArgTokens(args) + CLOSE + STOP
  }

  function BlockTokens(b: Block): seq<Expected> {
    match b
    case Empty => []
    case Then(head, tail) => StmtTokens(head) + BlockTokens(tail)
  }

  const MAX_ARGUMENTS: nat := 5

  /** Calls are to the functions that the program defines, or to others with at most five arguments. */
  predicate StmtCallsFit(s: Stmt, defined: seq<string>) {
    match s
    case While(_, _, body) => CallsFit(body, defined)
    case If(_, _, t, e) => CallsFit(t, defined) && (e.Some? ==> CallsFit(e.value, defined))
    case CallDefined(name) => name in defined
    case CallExternal(name, args) => name !in defined && |args| <= MAX_ARGUMENTS
    case _ => true
  }

  predicate CallsFit(b: Block, defined: seq<string>) {
    b.Then? ==> StmtCallsFit(b.head, defined) && CallsFit(b.tail, defined)
  }

  // ---------- programs ----------

  /** `int main() { body }`, or `void name() { body }`. */
  datatype Function = Main(body: Block) | Void(name: string, body: Block)

  function FunctionTokens(f: Function): seq<Expected> {
    (match f
     case Main(_) => [Tok(IntWord, "int"), Tok(MainWord, "main")]
     case Void(name, _) => [Tok(VoidWord, "void"), Name(name)])
    + OPEN + CLOSE + BEGIN + BlockTokens(f.body) + FINISH
  }

  function ProgramTokens(fs: seq<Function>): seq<Expected> {
    if fs == [] then [Tok(End, "")] else FunctionTokens(fs[0]) + ProgramTokens(fs[1..])
  }

  /** The names under which functions can be called. */
  function FunctionNames(fs: seq<Function>): seq<string> {
    if fs == [] then [] else [if fs[0].Main? then "main" else fs[0].name] + FunctionNames(fs[1..])
  }

  predicate ProgramCallsFit(fs: seq<Function>, defined: seq<string>) {
    forall f :: f in fs ==> CallsFit(f.body, defined)
  }
}
