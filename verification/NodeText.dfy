/**
 The text of tokens with their comments, of several nodes written one behind the other, and of routes. The comments of a
 token are the ones that the parser attached to it; none of them is blank, since each begins with a slash.
 */
module NodeText {
  import opened Tokens
  import opened DataTypes
  import opened Comments
  import opened Declared
  import opened Printer

  // ---- tokens ----------------------------------------------------------------------------------------

  /** Each comment above a token on a line of its own. */
  function Above(comments: seq<Token>): string {
    if comments == [] then "" else comments[0].text + ("\n" + Above(comments[1..]))
  }

  /** The comments behind a token, each after a blank. */
  function Behind(comments: seq<Token>): string {
    if comments == [] then "" else " " + (comments[0].text + Behind(comments[1..]))
  }

  function TextOf(n: TokenNode): string {
    Above(n.head) + (n.token.text + Behind(n.leading))
  }

  function WithoutHead(n: TokenNode): TokenNode {
    n.(head := [])
  }

  function WithoutLeading(n: TokenNode): TokenNode {
    n.(leading := [])
  }

  function WithoutComments(n: TokenNode): TokenNode {
    n.(head := [], leading := [])
  }

  // ---- the writer ------------------------------------------------------------------------------------

  /** What the writer sees of a node: its text, whether it has comments above and behind it, and its lines. */
  datatype Item = Item(text: string, above: bool, behind: bool, first: int, last: int)

  function ItemOf(n: TokenNode): Item {
    Item(TextOf(n), n.head != [], n.leading != [], Pos(n).line, End(n).line)
  }

  predicate Blank(text: string) {
    forall c <- text :: c == ' ' || c == '\t' || c == '\n' || c == '\r' || c == '\U{0C}'
  }

  /** Does a line break come before a node, when the one before it ended on `line` and maybe with a comment? */
  predicate Breaks(i: Item, line: int, behind: bool, sameLine: bool) {
    (!sameLine || i.above || behind) && i.first > line
  }

  /** The texts of the nodes and the line breaks between them; a node without text is left out, but not its break. */
  function TextList(items: seq<Item>, line: int, behind: bool, sameLine: bool): seq<string> {
    if items == [] then []
    else
      var i := items[0];
      (if Breaks(i, line, behind, sameLine) then ["\n"] else []) + ((if Blank(i.text) then [] else [i.text]) +
                                                                    TextList(items[1..], i.last, i.behind, sameLine))
  }

  function Join(list: seq<string>, infix: string): string {
    if list == [] then "" else if |list| == 1 then list[0] else list[0] + (infix + Join(list[1..], infix))
  }

  /** What the writer writes of the nodes. */
  function Written(items: seq<Item>, infix: string, sameLine: bool, w: Writer): string
    requires items != []
  {
    w.pad(Squeeze(Join(TextList(items, items[0].last, false, sameLine), infix)))
  }

  // ---- routes ----------------------------------------------------------------------------------------

  function ExprText(b: BodyExpr, w: Writer): string {
    match (b.list, b.star)
    case (Some((l, r)), Some(star)) =>
      var items := [ItemOf(WithoutComments(l)), ItemOf(WithoutComments(r)), ItemOf(WithoutComments(star))];
      Written(items + [ItemOf(b.value)], "", true, w)
    case (Some((l, r)), None) =>
      Written([ItemOf(WithoutComments(l)), ItemOf(WithoutComments(r)), ItemOf(b.value)], "", true, w)
    case (None, Some(star)) => Written([ItemOf(WithoutComments(star)), ItemOf(b.value)], "", true, w)
    case (None, None) => Written([ItemOf(b.value)], " ", false, w)
  }

  /** The token that a body begins with. */
  function FirstOf(b: BodyExpr): TokenNode {
    if b.list.Some? then b.list.value.0 else if b.star.Some? then b.star.value else b.value
  }

  function ExprItem(b: BodyExpr, w: Writer): Item {
    Item(ExprText(b, w), FirstOf(b).head != [], b.value.leading != [], Pos(FirstOf(b)).line, End(b.value).line)
  }

  function BodyText(b: BodyStmt, w: Writer): string {
    if b.body.None? then ""
    else Written([ItemOf(b.lparen), ExprItem(b.body.value, w), ItemOf(b.rparen)], "", true, w)
  }

  function BodyItem(b: BodyStmt, w: Writer): Item {
    Item(BodyText(b, w), b.lparen.head != [], b.rparen.leading != [], Pos(b.lparen).line, End(b.rparen).line)
  }

  /** The last body of a route loses the comments above its closing parenthesis. */
  function LastBody(b: BodyStmt): BodyStmt {
    b.(rparen := WithoutHead(b.rparen))
  }

  function PathItem(path: TokenNode): Item {
    ItemOf(path).(text := path.token.text)
  }

  function BodyItems(b: Option<BodyStmt>, w: Writer): seq<Item> {
    if b.None? then [] else [BodyItem(b.value, w)]
  }

  /** The nodes that are printed of a route; only without bodies the path keeps the comments behind it. */
  function RouteItems(r: Route, w: Writer): seq<Item> {
    var verb := ItemOf(WithoutLeading(r.verb));
    match r.response
    case Some((word, response)) =>
      [verb] + ([PathItem(r.path)] + (BodyItems(r.request, w) +
                                      if response.body.None? then []
                                      else [ItemOf(word)] + [BodyItem(LastBody(response), w)]))
    case None =>
      if r.request.Some? then [verb] + ([PathItem(r.path)] + [BodyItem(LastBody(r.request.value), w)])
      else [verb] + [ItemOf(WithoutHead(r.path))]
  }

  function RouteText(r: Route, w: Writer): string {
    Written(RouteItems(r, w), " ", true, w)
  }

  // ---- other texts that are compared -----------------------------------------------------------------

  /** The text of a service's name, which is a format without arguments. */
  function NameText(name: TokenNode, w: Writer): string {
    w.pad(w.verbs(TextOf(name)))
  }

  /** The text of an empty struct with the comments above and behind its braces. */
  function BracesText(braces: TokenNode, w: Writer): string {
    w.pad(Squeeze(Above(braces.head) + ("{}" + Behind(braces.leading))))
  }
}
