/** Which comments are printed of a route, and where: all that is written of it, told from its tokens. */
module RouteRemarks {
  import opened Tokens
  import opened Lexis
  import opened Grammar
  import opened Layout
  import opened DataTypes
  import opened RoundTrip
  import opened Comments
  import opened Declared
  import opened Printer
  import opened NodeText
  import opened Reading
  import opened Weaving
  import opened RouteTrip

  // ---- what a route says -----------------------------------------------------------------------------

  function Texts(comments: seq<Token>): seq<string> {
    seq(|comments|, k requires 0 <= k < |comments| => comments[k].text)
  }

  /** A token between its comments. */
  function Said(n: TokenNode): seq<string> {
    Texts(n.head) + ([n.token.text] + Texts(n.leading))
  }

  /** The comments at the brackets and the star are not printed. */
  function ExprSaid(b: BodyExpr): seq<string> {
    (if b.list.Some? then [b.list.value.0.token.text] + [b.list.value.1.token.text] else []) +
    ((if b.star.Some? then [b.star.value.token.text] else []) + Said(b.value))
  }

  /** Of the last body, the comments above the closing parenthesis are not printed, and of an empty body nothing is. */
  function BodySaid(b: BodyStmt, last: bool): seq<string> {
    if b.body.None? then []
    else
      Said(b.lparen) +
      (ExprSaid(b.body.value) +
       ((if last then [] else Texts(b.rparen.head)) + ([b.rparen.token.text] + Texts(b.rparen.leading))))
  }

  /** Behind the method no comment is printed, and at the path only those behind it if no body follows. */
  function RouteSaid(r: Route): seq<string> {
    (Texts(r.verb.head) + [r.verb.token.text]) +
    match r.response
    case Some((word, response)) =>
      [r.path.token.text] + ((if r.request.None? then [] else BodySaid(r.request.value, false)) +
                             if response.body.None? then [] else Said(word) + BodySaid(response, true))
    case None =>
      if r.request.Some? then [r.path.token.text] + BodySaid(r.request.value, true)
      else [r.path.token.text] + Texts(r.path.leading)
  }

  // ---- what is written -------------------------------------------------------------------------------

  /** The words and comments of pieces. */
  function Written(pieces: seq<Piece>): seq<string> {
    seq(|pieces|, k requires 0 <= k < |pieces| => pieces[k].text)
  }

  function AllWritten(parts: seq<Part>): seq<string> {
    if parts == [] then [] else Written(parts[0].pieces) + AllWritten(parts[1..])
  }

  lemma WrittenJoin(p: seq<Piece>, q: seq<Piece>)
    ensures Written(p + q) == Written(p) + Written(q)
  {
  }

  lemma {:induction false} AllWrittenJoin(p: seq<Part>, q: seq<Part>)
    ensures AllWritten(p + q) == AllWritten(p) + AllWritten(q)
  {
    hide Written;
    if p == [] {
      assert p + q == q;
    } else {
      assert (p + q)[1..] == p[1..] + q;
      AllWrittenJoin(p[1..], q);
      Assoc(Written(p[0].pieces), AllWritten(p[1..]), AllWritten(q));
    }
  }

  lemma OneWritten(p: Part)
    ensures AllWritten([p]) == Written(p.pieces)
  {
    assert [p][1..] == [] && Written(p.pieces) + [] == Written(p.pieces);
  }

  lemma NothingWritten()
    ensures AllWritten([]) == [] && Written([]) == []
  {
  }

  lemma GapWritten(gap: string, pieces: seq<Piece>)
    requires pieces != []
    ensures Written(WithGap(gap, pieces)) == Written(pieces)
  {
  }

  lemma {:induction false} WeaveWritten(parts: seq<Part>, line: int, behind: bool, n: nat, infix: string)
    ensures Written(Weave(parts, line, behind, n, infix)) == AllWritten(parts)
    decreases |parts|
  {
    hide BreakIf, Written, WithGap, EmptyLines;
    NothingWritten();
    if parts == [] {
    } else {
      var p, rest := parts[0], parts[1..];
      var m := n + BreakIf(p.item, line, behind);
      WeaveFront(parts, line, behind, n, infix);
      if p.pieces == [] {
        WeaveWritten(rest, p.item.last, p.item.behind, m, infix);
        assert [] + AllWritten(rest) == AllWritten(rest);
      } else {
        var gap := if m == 0 then infix else EmptyLines(m);
        WeaveWritten(rest, p.item.last, p.item.behind, 0, infix);
        WrittenJoin(WithGap(gap, p.pieces), Weave(rest, p.item.last, p.item.behind, 0, infix));
        GapWritten(gap, p.pieces);
      }
    }
  }

  lemma WholeWrittenIs(parts: seq<Part>, infix: string)
    requires parts != []
    ensures Written(Whole(parts, infix)) == AllWritten(parts)
  {
    hide Written, Weave;
    WeaveWritten(parts[1..], parts[0].item.last, parts[0].item.behind, 0, infix);
    WrittenJoin(parts[0].pieces, Weave(parts[1..], parts[0].item.last, parts[0].item.behind, 0, infix));
  }

  // ---- tokens and bodies -----------------------------------------------------------------------------

  lemma {:induction false} BehindWritten(comments: seq<Token>)
    ensures Written(BehindPieces(comments)) == Texts(comments)
    decreases |comments|
  {
    if comments == [] {
    } else {
      BehindWritten(comments[1..]);
      WrittenJoin([Piece(" ", comments[0].kind, comments[0].text)], BehindPieces(comments[1..]));
      assert Texts(comments) == [comments[0].text] + Texts(comments[1..]);
    }
  }

  lemma {:induction false} NodeWritten(gap: string, head: seq<Token>, text: string, leading: seq<Token>)
    ensures Written(NodeFrom(gap, head, text, leading)) == Texts(head) + ([text] + Texts(leading))
    decreases |head|
  {
    if head == [] {
      BehindWritten(leading);
      WrittenJoin([Piece(gap, IDENT, text)], BehindPieces(leading));
    } else {
      NodeWritten("\n", head[1..], text, leading);
      WrittenJoin([Piece(gap, head[0].kind, head[0].text)], NodeFrom("\n", head[1..], text, leading));
      assert Texts(head) == [head[0].text] + Texts(head[1..]);
    }
  }

  lemma PartWritten(n: TokenNode)
    ensures AllWritten([PartOf(n)]) == Said(n)
  {
    hide Written;
    NodeWritten("", n.head, n.token.text, n.leading);
    OneWritten(PartOf(n));
  }

  lemma BareWritten(n: TokenNode)
    ensures AllWritten([PartOf(WithoutComments(n))]) == [n.token.text]
  {
    PartWritten(WithoutComments(n));
  }

  lemma ExprWritten(b: BodyExpr)
    ensures AllWritten([ExprPart(b)]) == ExprSaid(b)
  {
    hide PartOf, Whole, Written, AllWritten, Said;
    WholeWrittenIs(ExprParts(b), "");
    OneWritten(ExprPart(b));
    PartWritten(b.value);
    NothingWritten();
    var list := if b.list.Some? then
                  [PartOf(WithoutComments(b.list.value.0))] + [PartOf(WithoutComments(b.list.value.1))] else [];
    var star := if b.star.Some? then [PartOf(WithoutComments(b.star.value))] else [];
    if b.list.Some? {
      BareWritten(b.list.value.0);
      BareWritten(b.list.value.1);
      AllWrittenJoin([PartOf(WithoutComments(b.list.value.0))], [PartOf(WithoutComments(b.list.value.1))]);
    }
    if b.star.Some? {
      BareWritten(b.star.value);
    }
    AllWrittenJoin(star, [PartOf(b.value)]);
    AllWrittenJoin(list, star + [PartOf(b.value)]);
  }

  lemma BodyWritten(b: BodyStmt, last: bool)
    requires last ==> b.rparen.head == []
    ensures AllWritten([BodyPart(b)]) == BodySaid(b, last)
  {
    hide PartOf, Whole, Written, AllWritten, ExprPart, ExprSaid;
    OneWritten(BodyPart(b));
    NothingWritten();
    if b.body.Some? {
      var e := b.body.value;
      WholeWrittenIs(BodyParts(b.lparen, e, b.rparen), "");
      PartWritten(b.lparen);
      PartWritten(b.rparen);
      ExprWritten(e);
      AllWrittenJoin([ExprPart(e)], [PartOf(b.rparen)]);
      AllWrittenJoin([PartOf(b.lparen)], [ExprPart(e)] + [PartOf(b.rparen)]);
      assert [] + ([b.rparen.token.text] + Texts(b.rparen.leading)) == [b.rparen.token.text] + Texts(b.rparen.leading);
    }
  }

  lemma LastWritten(b: BodyStmt)
    ensures AllWritten([BodyPart(LastBody(b))]) == BodySaid(b, true)
  {
    hide AllWritten, BodyPart;
    BodyWritten(LastBody(b), true);
  }

  // ---- routes ----------------------------------------------------------------------------------------

  lemma VerbWritten(n: TokenNode)
    ensures AllWritten([PartOf(WithoutLeading(n))]) == Texts(n.head) + [n.token.text]
  {
    hide AllWritten, PartOf;
    PartWritten(WithoutLeading(n));
    assert [n.token.text] + Texts([]) == [n.token.text];
  }

  lemma PathWritten(path: TokenNode)
    ensures AllWritten([PathPart(path)]) == [path.token.text]
    ensures AllWritten([PartOf(WithoutHead(path))]) == [path.token.text] + Texts(path.leading)
  {
    OneWritten(PathPart(path));
    PartWritten(WithoutHead(path));
    assert Texts([]) + ([path.token.text] + Texts(path.leading)) == [path.token.text] + Texts(path.leading);
  }

  /** All words and comments that are printed of a route, in the order in which they are. */
  lemma RouteSaysAll(r: Route)
    ensures Written(RoutePieces(r)) == RouteSaid(r)
  {
    hide PartOf, Whole, Written, AllWritten, BodyPart, BodySaid, PathPart, LastBody, Said, Texts;
    WholeWrittenIs(RouteParts(r), " ");
    VerbWritten(r.verb);
    PathWritten(r.path);
    AllWrittenJoin([PartOf(WithoutLeading(r.verb))], PartsBehind(r));
    match r.response
    case Some((word, response)) => ResponseWritten(r);
    case None =>
      if r.request.Some? {
        LastWritten(r.request.value);
        AllWrittenJoin([PathPart(r.path)], [BodyPart(LastBody(r.request.value))]);
      }
  }

  lemma ResponseWritten(r: Route)
    requires r.response.Some?
    ensures var (word, response) := r.response.value;
            AllWritten(PartsBehind(r)) ==
            [r.path.token.text] + ((if r.request.None? then [] else BodySaid(r.request.value, false)) +
                                   if response.body.None? then [] else Said(word) + BodySaid(response, true))
  {
    hide PartOf, Whole, Written, AllWritten, BodyPart, BodySaid, PathPart, LastBody, Said, Texts;
    var (word, response) := r.response.value;
    var more := if response.body.None? then [] else [PartOf(word)] + [BodyPart(LastBody(response))];
    NothingWritten();
    PathWritten(r.path);
    AllWrittenJoin([PathPart(r.path)], RequestParts(r.request) + more);
    AllWrittenJoin(RequestParts(r.request), more);
    if r.request.Some? {
      BodyWritten(r.request.value, false);
    }
    if response.body.Some? {
      PartWritten(word);
      LastWritten(response);
      AllWrittenJoin([PartOf(word)], [BodyPart(LastBody(response))]);
    }
  }

  /** Routes with one text say the same, comments included, so that different comments keep routes apart. */
  lemma PrintedAlikeSayAlike(r: Route, q: Route, w: Writer)
    requires RouteShaped(r) && RouteTidy(r) && RouteShaped(q) && RouteTidy(q) && Pads(w.pad)
    requires RouteText(r, w) == RouteText(q, w)
    ensures RouteSaid(r) == RouteSaid(q)
  {
    hide RouteShaped, RouteTidy, Pads, RouteText, RoutePieces, RouteLeft, RouteSaid;
    RouteTextExact(r, q, w);
    RouteSaysAll(r);
    RouteSaysAll(q);
  }
}
