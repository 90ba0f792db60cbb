/** What an .api file declares, as far as the checks on it and the conversion look. */
module Declared {
  import opened Tokens
  import opened DataTypes
  import opened Comments

  /** A name and where it stands. */
  datatype Node = Node(text: string, position: Position)

  /** `type name tp`, with the nodes of the tokens of the type. */
  datatype TypeExpr = TypeExpr(name: Node, tp: DataType, nodes: seq<TokenNode>)

  datatype TypeStmt = TypeLiteral(expr: TypeExpr) | TypeGroup(exprs: seq<TypeExpr>)

  /** A type name, maybe of a pointer, maybe of a slice. */
  datatype BodyExpr = BodyExpr(list: Option<(TokenNode, TokenNode)>, star: Option<TokenNode>, value: TokenNode)

  /** Parentheses, maybe with nothing in them. */
  datatype BodyStmt = BodyStmt(lparen: TokenNode, body: Option<BodyExpr>, rparen: TokenNode)

  /** A route with its handler; a response comes with the word before it. */
  datatype Route = Route(
    handler: Node, verb: TokenNode, path: TokenNode, request: Option<BodyStmt>,
    response: Option<(TokenNode, BodyStmt)>)

  /** Without an `@server` annotation, or a key in it, group and prefix are empty. */
  datatype Service = Service(name: TokenNode, group: string, prefix: string, routes: seq<Route>)

  /** A token stands where the first comment above it stands. */
  function Pos(n: TokenNode): Position {
    if n.head != [] then n.head[0].position else n.token.position
  }

  function End(n: TokenNode): Position {
    if n.leading != [] then n.leading[|n.leading| - 1].position else n.token.position
  }

  /** The body that is printed, if there is one: of parentheses with nothing in them nothing is. */
  function Shown(b: Option<BodyStmt>): Option<BodyExpr> {
    if b.None? then None else b.value.body
  }

  function Request(r: Route): Option<BodyExpr> {
    Shown(r.request)
  }

  function Response(r: Route): Option<BodyExpr> {
    if r.response.None? then None else r.response.value.1.body
  }

  /** A body without its comments. */
  datatype Body = Body(list: bool, star: bool, name: string)

  function Bare(b: Option<BodyExpr>): Option<Body> {
    if b.None? then None else Some(Body(b.value.list.Some?, b.value.star.Some?, b.value.value.token.text))
  }
}
