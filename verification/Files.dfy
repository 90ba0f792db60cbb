/**
 What the text of a file declares: the statements the parser makes of it, with the positions and the comments of their
 tokens, as the analysis of a program sees them.
 */
module Files {
  import opened Tokens
  import opened Grammar
  import opened Lexis
  import opened Source
  import opened DataTypes
  import opened Comments
  import opened Declared
  import opened ParseSpec
  import opened PathSpec
  import opened TypeStatements
  import opened Stream
  import opened Formatting
  import opened NodeText
  import Imports
  import S = StatementSpec
  import T = SyntaxTrees
  import TreesKept

  type Path = Imports.Path

  // ---- names -----------------------------------------------------------------------------------------

  /** A name that is token `i`, and where it stands. */
  function NameAt(nodes: seq<TokenNode>, i: nat, text: string): Node {
    Node(text, NodeAt(nodes, i).token.position)
  }

  /** Token `i` with its comments. */
  function WordAt(nodes: seq<TokenNode>, i: nat, kind: Kind, text: string): TokenNode {
    NodeAt(nodes, i).(token := Token(kind, text, NodeAt(nodes, i).token.position))
  }

  /** A word made of the tokens `i` to `j`: it stands where the first does, and has the comments behind the last. */
  function JoinedAt(nodes: seq<TokenNode>, i: nat, j: nat, kind: Kind, text: string): TokenNode {
    TokenNode([], Token(kind, text, NodeAt(nodes, i).token.position), NodeAt(nodes, j).leading)
  }

  function NamesAt(values: seq<string>, nodes: seq<TokenNode>, i: nat): seq<Node> {
    if values == [] then [] else [NameAt(nodes, i, values[0])] + NamesAt(values[1..], nodes, i + 1)
  }

  function KeysAt(list: seq<S.KV>, nodes: seq<TokenNode>, i: nat): seq<Node> {
    if list == [] then [] else [NameAt(nodes, i, list[0].key)] + KeysAt(list[1..], nodes, i + 2)
  }

  // ---- types -----------------------------------------------------------------------------------------

  function Slice(nodes: seq<TokenNode>, i: nat, n: nat): seq<TokenNode> {
    if i + n <= |nodes| then nodes[i..i + n] else []
  }

  function ExprAt(e: NamedType, nodes: seq<TokenNode>, i: nat): TypeExpr {
    TypeExpr(NameAt(nodes, i, e.name), e.tp, Slice(nodes, if e.assign then i + 2 else i + 1, |Print(e.tp, false)|))
  }

  function ExprsAt(exprs: seq<NamedType>, nodes: seq<TokenNode>, i: nat): seq<TypeExpr> {
    if exprs == [] then []
    else [ExprAt(exprs[0], nodes, i)] + ExprsAt(exprs[1..], nodes, i + |PrintExpr(exprs[0], true)|)
  }

  function TypesAt(t: Types, nodes: seq<TokenNode>, i: nat): TypeStmt {
    match t
    case Single(e) => TypeLiteral(ExprAt(e, nodes, i))
    case Group(exprs) => TypeGroup(ExprsAt(exprs, nodes, i + 1))
  }

  // ---- services --------------------------------------------------------------------------------------

  /** Where the name of a body stands, when its opening parenthesis is token `i`. */
  function ValueStart(b: S.Body, i: nat): nat {
    i + 1 + (if b.list then 2 else 0) + (if b.star then 1 else 0)
  }

  function BodyAt(b: Option<S.Body>, nodes: seq<TokenNode>, i: nat): BodyStmt {
    match b
    case None => BodyStmt(WordAt(nodes, i, LPAREN, "("), None, WordAt(nodes, i + 1, RPAREN, ")"))
    case Some(e) =>
      var v := ValueStart(e, i);
      var list := if e.list then Some((WordAt(nodes, i + 1, LBRACK, "["), WordAt(nodes, i + 2, RBRACK, "]"))) else None;
      var star := if e.star then Some(WordAt(nodes, v - 1, MUL, "*")) else None;
      BodyStmt(
        WordAt(nodes, i, LPAREN, "("), Some(BodyExpr(list, star, WordAt(nodes, v, IDENT, e.name))),
        WordAt(nodes, v + 1, RPAREN, ")"))
  }

  /** Where the token behind the request stands, when the method is token `i`. */
  function RequestEnd(r: T.RouteTree, i: nat): nat {
    i + 1 + |r.path| + if r.request.None? then 0 else |T.PrintBodyStmt(r.request.value)|
  }

  function RouteAt(handler: Node, r: T.RouteTree, nodes: seq<TokenNode>, i: nat): Route {
    var k := RequestEnd(r, i);
    Route(
      handler, WordAt(nodes, i, IDENT, r.verb), JoinedAt(nodes, i + 1, i + |r.path|, PATH, Texts(r.path)),
      if r.request.None? then None else Some(BodyAt(r.request.value, nodes, i + 1 + |r.path|)),
      if r.response.None? then None
      else Some((WordAt(nodes, k, IDENT, "returns"), BodyAt(r.response.value, nodes, k + 1))))
  }

  /** Where the word `@handler` stands, when the item starts with token `i`. */
  function HandlerStart(item: T.ItemTree, i: nat): nat {
    if item.doc.None? then i else i + 1 + |T.PrintDoc(item.doc.value)|
  }

  /** The routes of the items; an item without a handler has none. */
  function RoutesAt(items: seq<T.ItemTree>, nodes: seq<TokenNode>, i: nat): seq<Route> {
    if items == [] then []
    else
      var item := items[0];
      var h := HandlerStart(item, i);
      (if item.handled.None? then []
       else [RouteAt(NameAt(nodes, h + 1, item.handled.value.0), item.handled.value.1, nodes, h + 2)]) +
      RoutesAt(items[1..], nodes, i + |T.PrintItem(item)|)
  }

  /** The first value of the key, or nothing. */
  function ValueOf(list: seq<S.KV>, key: string): string {
    if list == [] then "" else if list[0].key == key then list[0].value else ValueOf(list[1..], key)
  }

  function ServerValue(s: T.ServiceTree, key: string): string {
    if s.server.None? then "" else ValueOf(T.PlainKVs(s.server.value), key)
  }

  /** Where the name of a service stands, when `i` is the token behind `@server` or `service`. */
  function NameStart(s: T.ServiceTree, i: nat): nat {
    if s.server.None? then i else i + |T.Parens(T.PrintServerKVs(s.server.value))| + 1
  }

  function ServiceAt(s: T.ServiceTree, nodes: seq<TokenNode>, i: nat): Service {
    var n, m := NameStart(s, i), |T.PrintName(s)|;
    Service(
      JoinedAt(nodes, n, n + m - 1, IDENT, T.PlainService(s).name), ServerValue(s, "group:"), ServerValue(s, "prefix:"),
      RoutesAt(s.items, nodes, n + m + 1))
  }

  // ---- files -----------------------------------------------------------------------------------------

  /** The tokens of a statement. */
  function StmtLength(t: T.StmtTree): nat {
    1 + |T.PrintAfter(t)|
  }

  function ImportsAt(trees: seq<T.StmtTree>, nodes: seq<TokenNode>, i: nat): seq<Node> {
    if trees == [] then []
    else
      (match trees[0]
       case ImportTree(OneImport(value)) => [NameAt(nodes, i + 1, value)]
       case ImportTree(ManyImports(values)) => NamesAt(values, nodes, i + 2)
       case _ => []) + ImportsAt(trees[1..], nodes, i + StmtLength(trees[0]))
  }

  function InfosAt(trees: seq<T.StmtTree>, nodes: seq<TokenNode>, i: nat): seq<seq<Node>> {
    if trees == [] then []
    else
      (if trees[0].InfoTree? then [KeysAt(trees[0].info, nodes, i + 2)] else []) +
      InfosAt(trees[1..], nodes, i + StmtLength(trees[0]))
  }

  function SyntaxesAt(trees: seq<T.StmtTree>, nodes: seq<TokenNode>, i: nat): seq<TokenNode> {
    if trees == [] then []
    else
      (if trees[0].SyntaxTree? then [WordAt(nodes, i + 2, STRING, trees[0].value)] else []) +
      SyntaxesAt(trees[1..], nodes, i + StmtLength(trees[0]))
  }

  /** The printed value of the syntax, comments included: that of the first statement, or else the default. */
  function SyntaxOf(trees: seq<T.StmtTree>, nodes: seq<TokenNode>): string {
    if trees != [] && trees[0].SyntaxTree? then TextOf(SyntaxesAt(trees, nodes, 0)[0]) else "\"v1\""
  }

  function TypeStmtsAt(trees: seq<T.StmtTree>, nodes: seq<TokenNode>, i: nat): seq<TypeStmt> {
    if trees == [] then []
    else
      (if trees[0].TypeTree? then [TypesAt(trees[0].types, nodes, i + 1)] else []) +
      TypeStmtsAt(trees[1..], nodes, i + StmtLength(trees[0]))
  }

  function ServicesAt(trees: seq<T.StmtTree>, nodes: seq<TokenNode>, i: nat): seq<Service> {
    if trees == [] then []
    else
      (if trees[0].ServiceStmtTree? then [ServiceAt(trees[0].service, nodes, i + 1)] else []) +
      ServicesAt(trees[1..], nodes, i + StmtLength(trees[0]))
  }

  function Unquoted(text: string): string {
    if text == "" then "" else (if text[0] == '"' then "" else [text[0]]) + Unquoted(text[1..])
  }

  /** Has every item of every service a handler? On others the source panics when it checks the services. */
  predicate Handled(trees: seq<T.StmtTree>) {
    forall t <- trees :: t.ServiceStmtTree? ==> forall i <- t.service.items :: i.handled.Some?
  }

  /**
   The file with these statements. Its syntax is that of its first statement, with its comments, or else the default; of
   syntax and of information statements there may be one. `resolve` says where an import leads.
   */
  function FileOf(trees: seq<T.StmtTree>, nodes: seq<TokenNode>, resolve: string -> Path): Imports.File {
    var syntaxes, infos, values := SyntaxesAt(trees, nodes, 0), InfosAt(trees, nodes, 0), ImportsAt(trees, nodes, 0);
    if |syntaxes| > 1 || |infos| > 1 || !Handled(trees) then Imports.Broken
    else
      var paths := set n <- values :: Unquoted(n.text);
      Imports.Parsed(
        map value <- paths :: resolve(value), values, if infos == [] then [] else infos[0],
        SyntaxOf(trees, nodes),
        TypeStmtsAt(trees, nodes, 0), ServicesAt(trees, nodes, 0))
  }

  // ---- source texts ----------------------------------------------------------------------------------

  /** What the parser sees of a text. */
  function MarksIn(file: string, data: string): seq<Mark> {
    MarksAt(Tokenize(file, data, START), 0)
  }

  /** The tokens of a text with their comments. */
  function NodesIn(file: string, data: string): seq<TokenNode> {
    Nodes(Tokenize(file, data, START), [], None)
  }

  /** The syntax trees of the statements that the parser makes of a text, token by token. */
  ghost predicate IsReading(trees: seq<T.StmtTree>, file: string, data: string)
    requires S.ParseFile(MarksIn(file, data)).Ok?
  {
    var Ok(stmts, rest) := S.ParseFile(MarksIn(file, data));
    && T.PlainFile(trees) == stmts && (forall t <- trees :: T.TreeOk(t))
    && Words(MarksIn(file, data)) == Words(T.PrintFile(trees)) + Words(rest) && Peek(rest) == EOF
  }

  lemma HasReading(file: string, data: string)
    requires S.ParseFile(MarksIn(file, data)).Ok?
    ensures exists trees: seq<T.StmtTree> :: IsReading(trees, file, data)
  {
    hide MarksAt, Tokenize, S.ParseFile, T.PrintFile, T.PlainFile, Words, T.TreeOk;
    var trees := TreesKept.SourceKept(file, data);
    assert IsReading(trees, file, data);
  }

  ghost function TreesIn(file: string, data: string): (trees: seq<T.StmtTree>)
    requires S.ParseFile(MarksIn(file, data)).Ok?
    ensures IsReading(trees, file, data)
  {
    HasReading(file, data);
    var trees: seq<T.StmtTree> :| IsReading(trees, file, data);
    trees
  }

  /** The file of a text. One with neither a statement nor a comment, on which the source panics, counts as broken. */
  ghost function FileIn(file: string, data: string, resolve: string -> Path): Imports.File {
    if S.ParseFile(MarksIn(file, data)).Fail? then Imports.Broken
    else
      var trees := TreesIn(file, data);
      if trees == [] && CommentsIn(Tokenize(file, data, START)) == [] then Imports.Broken
      else FileOf(trees, NodesIn(file, data), resolve)
  }

  /** Source texts, the names that their positions carry, and where the imports of each of them lead. */
  datatype Program = Program(sources: map<Path, string>, base: Path -> string, resolve: Path -> string -> Path)

  ghost function DiskOf(p: Program): Imports.Disk {
    map path <- p.sources :: FileIn(p.base(path), p.sources[path], p.resolve(path))
  }
}
