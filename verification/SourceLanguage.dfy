/** The C subset of the compiler: syntax and meaning. */
module SourceLanguage {
  import opened Words
  import opened LibcText
  import opened X86

  datatype Primary = Number(text: string) | Variable(name: string)

  /** A primary followed by a chain of `+ number`. */
  datatype Expr = Expr(first: Primary, adds: seq<string>)

  datatype Stmt =
    | Declare(name: string)
    | DeclareInit(name: string, value: Expr)
    | DeclareString(name: string, text: string)
    | Assign(name: string, value: Expr)
    | While(left: string, bound: string, body: Block)
    | If(left: string, right: string, thenBlock: Block, elseBlock: Option<Block>)
    | CallDefined(function_: string)
    | CallExternal(function_: string, args: seq<Expr>)

  datatype Block = Empty | Then(head: Stmt, tail: Block)

  // ---------- meaning ----------

  /** Values of the int variables. */
  type Env = map<string, Word>

  function Lookup(env: Env, name: string): Word {
    if name in env then env[name] else 0
  }

  function PrimaryValue(p: Primary, env: Env): Word {
    match p
    case Number(text) => Wrap(ParseImm(text))
    case Variable(name) => Lookup(env, name)
  }

  function SumFrom(value: Word, adds: seq<string>): Word
    decreases |adds|
  {
    if adds == [] then value else SumFrom(Wrap(value + ParseImm(adds[0])), adds[1..])
  }

  function ExprValue(e: Expr, env: Env): Word {
    SumFrom(PrimaryValue(e.first, env), e.adds)
  }

  predicate LoopContinues(left: string, bound: string, env: Env) {
    Signed(Lookup(env, left)) < ParseImm(bound)
  }

  function ElseBlock(b: Option<Block>): Block {
    if b.Some? then b.value else Empty
  }

  /**
    * The variables after a statement, or None if it needs more than `fuel` nested loop iterations
    * (or calls a function, which has no meaning here).
    */
  function ExecStmt(s: Stmt, env: Env, fuel: nat): Option<Env>
    decreases fuel, s
  {
    match s
    case Declare(_) => Some(env)
    case DeclareString(_, _) => Some(env)
    case DeclareInit(name, e) => Some(env[name := ExprValue(e, env)])
    case Assign(name, e) => Some(env[name := ExprValue(e, env)])
    case While(left, bound, body) =>
      if !LoopContinues(left, bound, env) then Some(env)
      else if fuel == 0 then None
      else
        var once := ExecBlock(body, env, fuel - 1);
        if once.None? then None else ExecStmt(s, once.value, fuel - 1)
    case If(left, right, thenBlock, elseBlock) =>
      if Lookup(env, left) != Lookup(env, right) then ExecBlock(thenBlock, env, fuel)
      else if elseBlock.Some? then ExecBlock(elseBlock.value, env, fuel)
      else Some(env)
    case CallDefined(_) => None
    case CallExternal(_, _) => None
  }

  function ExecBlock(b: Block, env: Env, fuel: nat): Option<Env>
    decreases fuel, b
  {
    match b
    case Empty => Some(env)
    case Then(head, tail) =>
      var first := ExecStmt(head, env, fuel);
      if first.None? then None else ExecBlock(tail, first.value, fuel)
  }

  // ---------- classification ----------

  function StmtSize(s: Stmt): nat {
    match s
    case While(_, _, body) => 1 + BlockSize(body)
    case If(_, _, t, e) => 1 + BlockSize(t) + (if e.Some? then BlockSize(e.value) else 0)
    case _ => 1
  }

  function BlockSize(b: Block): nat {
    if b.Empty? then 0 else 1 + StmtSize(b.head) + BlockSize(b.tail)
  }

  predicate HasWhile(b: Block) {
    b.Then? && (StmtHasWhile(b.head) || HasWhile(b.tail))
  }

  predicate StmtHasWhile(s: Stmt) {
    match s
    case While(_, _, _) => true
    case If(_, _, t, e) => HasWhile(t) || (e.Some? && HasWhile(e.value))
    case _ => false
  }

  predicate HasIf(b: Block) {
    b.Then? && (StmtHasIf(b.head) || HasIf(b.tail))
  }

  predicate StmtHasIf(s: Stmt) {
    match s
    case If(_, _, _, _) => true
    case While(_, _, body) => HasIf(body)
    case _ => false
  }

  /** The string variables a block declares. */
  function StringNames(b: Block): set<string> {
    match b
    case Empty => {}
    case Then(head, tail) => StmtStringNames(head) + StringNames(tail)
  }

  function StmtStringNames(s: Stmt): set<string> {
    match s
    case DeclareString(name, _) => {name}
    case While(_, _, body) => StringNames(body)
    case If(_, _, t, e) => StringNames(t) + (if e.Some? then StringNames(e.value) else {})
    case _ => {}
  }

  /** A string variable and its text. */
  datatype StringDecl = StringDecl(name: string, text: string)

  /** The string declarations of a block, in order. */
  function StringDecls(b: Block): seq<StringDecl> {
    match b
    case Empty => []
    case Then(head, tail) => StmtStringDecls(head) + StringDecls(tail)
  }

  function StmtStringDecls(s: Stmt): seq<StringDecl> {
    match s
    case DeclareString(name, text) => [StringDecl(name, text)]
    case While(_, _, body) => StringDecls(body)
    case If(_, _, t, e) => StringDecls(t) + (if e.Some? then StringDecls(e.value) else [])
    case _ => []
  }

  function ExprNames(e: Expr): set<string> {
    if e.first.Variable? then {e.first.name} else {}
  }

  /** The int variables a block mentions. */
  function IntNames(b: Block): set<string> {
    match b
    case Empty => {}
    case Then(head, tail) => StmtIntNames(head) + IntNames(tail)
  }

  function StmtIntNames(s: Stmt): set<string> {
    match s
    case Declare(name) => {name}
    case DeclareInit(name, e) => {name} + ExprNames(e)
    case Assign(name, e) => {name} + ExprNames(e)
    case While(left, _, body) => {left} + IntNames(body)
    case If(left, right, t, e) => {left, right} + IntNames(t) + (if e.Some? then IntNames(e.value) else {})
    case _ => {}
  }

  /** No calls: every statement has a meaning. */
  predicate CallFree(b: Block) {
    b.Then? ==> StmtCallFree(b.head) && CallFree(b.tail)
  }

  predicate StmtCallFree(s: Stmt) {
    match s
    case While(_, _, body) => CallFree(body)
    case If(_, _, t, e) => CallFree(t) && (e.Some? ==> CallFree(e.value))
    case CallDefined(_) => false
    case CallExternal(_, _) => false
    case _ => true
  }
}
