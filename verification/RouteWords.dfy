/** The words that are printed of a route tell which route it is, whatever its comments. */
module RouteWords {
  import opened Tokens
  import opened Lexis
  import opened Grammar
  import opened Layout
  import opened DataTypes
  import opened RoundTrip
  import opened Comments
  import opened Declared
  import opened Printer
  import opened NodeText
  import opened Reading
  import opened Weaving
  import opened RouteTrip

  // ---- the route itself ------------------------------------------------------------------------------

  /** The same route, but for comments: the methods, the paths and the bodies with something in them are the same. */
  predicate SameRoute(r: Route, q: Route) {
    && r.verb.token.text == q.verb.token.text && r.path.token.text == q.path.token.text
    && Bare(Request(r)) == Bare(Request(q)) && Bare(Response(r)) == Bare(Response(q))
  }

  function WordsOf(pieces: seq<Piece>): seq<string> {
    if pieces == [] then []
    else (if pieces[0].kind == IDENT then [pieces[0].text] else []) + WordsOf(pieces[1..])
  }

  function BodyWords(b: Option<Body>): seq<string> {
    if b.None? then []
    else
      ["("] + ((if b.value.list then ["["] + ["]"] else []) + ((if b.value.star then ["*"] else []) +
                                                               ([b.value.name] + [")"])))
  }

  function RouteWords(r: Route): seq<string> {
    [r.verb.token.text] + ([r.path.token.text] + (BodyWords(Bare(Request(r))) +
                                                  if Response(r).None? then []
                                                  else ["returns"] + BodyWords(Bare(Response(r)))))
  }

  lemma {:induction false} WordsJoin(p: seq<Piece>, q: seq<Piece>)
    ensures WordsOf(p + q) == WordsOf(p) + WordsOf(q)
  {
    if p == [] {
      assert p + q == q;
    } else {
      assert (p + q)[1..] == p[1..] + q;
      WordsJoin(p[1..], q);
    }
  }

  lemma {:induction false} BehindWords(comments: seq<Token>)
    requires forall c <- comments :: Shaped(c)
    ensures WordsOf(BehindPieces(comments)) == []
    decreases |comments|
  {
    hide Shaped;
    if comments == [] {
    } else {
      assert comments[0] in comments;
      ShapedKind(comments[0]);
      BehindWords(comments[1..]);
      assert BehindPieces(comments)[1..] == BehindPieces(comments[1..]);
    }
  }

  lemma {:induction false} NodeWords(gap: string, head: seq<Token>, text: string, leading: seq<Token>)
    requires (forall c <- head :: Shaped(c)) && forall c <- leading :: Shaped(c)
    ensures WordsOf(NodeFrom(gap, head, text, leading)) == [text]
    decreases |head|
  {
    hide Shaped;
    if head == [] {
      BehindWords(leading);
      assert NodeFrom(gap, head, text, leading)[1..] == BehindPieces(leading);
    } else {
      assert head[0] in head;
      ShapedKind(head[0]);
      NodeWords("\n", head[1..], text, leading);
      assert NodeFrom(gap, head, text, leading)[1..] == NodeFrom("\n", head[1..], text, leading);
    }
  }

  lemma PartWords(n: TokenNode)
    requires NodeShaped(n)
    ensures WordsOf(PartOf(n).pieces) == [n.token.text]
  {
    hide Shaped, IsPlainWord;
    NodeWords("", n.head, n.token.text, n.leading);
  }

  lemma BarePartWords(n: TokenNode)
    ensures WordsOf(PartOf(WithoutComments(n)).pieces) == [n.token.text]
  {
    NodeWords("", [], n.token.text, []);
  }

  /** The words of all parts. */
  function AllWords(parts: seq<Part>): seq<string> {
    if parts == [] then [] else WordsOf(parts[0].pieces) + AllWords(parts[1..])
  }

  lemma {:induction false} AllWordsJoin(p: seq<Part>, q: seq<Part>)
    ensures AllWords(p + q) == AllWords(p) + AllWords(q)
  {
    if p == [] {
      assert p + q == q;
    } else {
      assert (p + q)[1..] == p[1..] + q;
      AllWordsJoin(p[1..], q);
      Assoc(WordsOf(p[0].pieces), AllWords(p[1..]), AllWords(q));
    }
  }

  lemma OneWord(p: Part)
    ensures AllWords([p]) == WordsOf(p.pieces)
  {
    assert [p][1..] == [] && WordsOf(p.pieces) + [] == WordsOf(p.pieces);
  }

  lemma {:induction false} WeaveWords(parts: seq<Part>, line: int, behind: bool, n: nat, infix: string)
    ensures WordsOf(Weave(parts, line, behind, n, infix)) == AllWords(parts)
    decreases |parts|
  {
    hide BreakIf;
    if parts == [] {
    } else {
      var p, rest := parts[0], parts[1..];
      var m := n + BreakIf(p.item, line, behind);
      WeaveFront(parts, line, behind, n, infix);
      if p.pieces == [] {
        WeaveWords(rest, p.item.last, p.item.behind, m, infix);
        assert [] + AllWords(rest) == AllWords(rest);
      } else {
        var gap := if m == 0 then infix else EmptyLines(m);
        WeaveWords(rest, p.item.last, p.item.behind, 0, infix);
        WordsJoin(WithGap(gap, p.pieces), Weave(rest, p.item.last, p.item.behind, 0, infix));
        assert WithGap(gap, p.pieces)[1..] == p.pieces[1..];
      }
    }
  }

  lemma WholeWords(parts: seq<Part>, infix: string)
    requires parts != []
    ensures WordsOf(Whole(parts, infix)) == AllWords(parts)
  {
    WeaveWords(parts[1..], parts[0].item.last, parts[0].item.behind, 0, infix);
    WordsJoin(parts[0].pieces, Weave(parts[1..], parts[0].item.last, parts[0].item.behind, 0, infix));
  }

  lemma ExprWords(b: BodyExpr)
    requires ExprShaped(b)
    ensures ["("] + (WordsOf(ExprPart(b).pieces) + [")"]) == BodyWords(Bare(Some(b)))
  {
    hide NodeShaped, PartOf, IsPlainWord, Whole, WordsOf;
    WholeWords(ExprParts(b), "");
    PartWords(b.value);
    OneWord(PartOf(b.value));
    var list := if b.list.Some? then
                  [PartOf(WithoutComments(b.list.value.0))] + [PartOf(WithoutComments(b.list.value.1))] else [];
    var star := if b.star.Some? then [PartOf(WithoutComments(b.star.value))] else [];
    var name, lw := [PartOf(b.value)], if b.list.Some? then ["["] + ["]"] else [];
    var sw := if b.star.Some? then ["*"] else [];
    if b.list.Some? {
      BarePartWords(b.list.value.0);
      BarePartWords(b.list.value.1);
      OneWord(PartOf(WithoutComments(b.list.value.0)));
      OneWord(PartOf(WithoutComments(b.list.value.1)));
      AllWordsJoin([PartOf(WithoutComments(b.list.value.0))], [PartOf(WithoutComments(b.list.value.1))]);
    }
    if b.star.Some? {
      BarePartWords(b.star.value);
      OneWord(PartOf(WithoutComments(b.star.value)));
    }
    AllWordsJoin(star, name);
    AllWordsJoin(list, star + name);
    assert AllWords(list) == lw && AllWords(star) == sw;
    assert (lw + (sw + [b.value.token.text])) + [")"] == lw + (sw + ([b.value.token.text] + [")"]));
  }

  lemma BodyPartWords(b: BodyStmt)
    requires BodyShaped(b)
    ensures WordsOf(BodyPart(b).pieces) == BodyWords(Bare(b.body))
  {
    if b.body.Some? {
      hide NodeShaped, PartOf, IsPlainWord, Whole, WordsOf, ExprPart, ExprShaped, Adjacent, BodyWords;
      var e := b.body.value;
      WholeWords(BodyParts(b.lparen, e, b.rparen), "");
      PartWords(b.lparen);
      PartWords(b.rparen);
      OneWord(PartOf(b.lparen));
      OneWord(ExprPart(e));
      OneWord(PartOf(b.rparen));
      AllWordsJoin([ExprPart(e)], [PartOf(b.rparen)]);
      AllWordsJoin([PartOf(b.lparen)], [ExprPart(e)] + [PartOf(b.rparen)]);
      ExprWords(e);
    }
  }

  /** The words that are printed of a route. */
  lemma RouteWordsAre(r: Route)
    requires RouteShaped(r) && RouteTidy(r)
    ensures WordsOf(RoutePieces(r)) == RouteWords(r)
  {
    hide NodeShaped, PartOf, IsPlainWord, Whole, WordsOf, BodyPart, BodyShaped, BodyTidy, NodeTidy, Adjacent, BodyWords,
      PathPart, AllWords;
    var v := PartOf(WithoutLeading(r.verb));
    WholeWords(RouteParts(r), " ");
    WithoutShaped(r.verb);
    WithoutShaped(r.path);
    PartWords(WithoutLeading(r.verb));
    PartWords(WithoutHead(r.path));
    PathWords(r.path);
    OneWord(v);
    OneWord(PathPart(r.path));
    OneWord(PartOf(WithoutHead(r.path)));
    AllWordsJoin([v], PartsBehind(r));
    match r.response
    case Some((word, response)) => ResponseWords(r);
    case None =>
      NothingWords();
      if r.request.Some? {
        var b := LastBody(r.request.value);
        LastBodyShaped(r.request.value);
        BodyPartWords(b);
        OneWord(BodyPart(b));
        AllWordsJoin([PathPart(r.path)], [BodyPart(b)]);
        assert BodyWords(Bare(b.body)) + [] == BodyWords(Bare(b.body));
      }
  }

  lemma NothingWords()
    ensures BodyWords(None) + [] == [] && AllWords([]) == [] && BodyWords(None) == []
  {
  }

  lemma PathWords(path: TokenNode)
    ensures WordsOf(PathPart(path).pieces) == [path.token.text]
  {
  }

  lemma ResponseWords(r: Route)
    requires RouteShaped(r) && RouteTidy(r) && r.response.Some?
    ensures AllWords(PartsBehind(r)) ==
            [r.path.token.text] + (BodyWords(Bare(Request(r))) +
                                   if Response(r).None? then [] else ["returns"] + BodyWords(Bare(Response(r))))
  {
    hide NodeShaped, PartOf, IsPlainWord, WordsOf, BodyPart, BodyShaped, BodyTidy, NodeTidy, Adjacent, BodyWords,
      PathPart, AllWords;
    var (word, response) := r.response.value;
    var q, last := RequestParts(r.request), LastBody(response);
    var more := if response.body.None? then [] else [PartOf(word)] + [BodyPart(last)];
    NothingWords();
    PathWords(r.path);
    OneWord(PathPart(r.path));
    AllWordsJoin([PathPart(r.path)], q + more);
    AllWordsJoin(q, more);
    if r.request.Some? {
      BodyPartWords(r.request.value);
      OneWord(BodyPart(r.request.value));
    }
    if response.body.Some? {
      LastBodyShaped(response);
      BodyPartWords(last);
      PartWords(word);
      OneWord(PartOf(word));
      OneWord(BodyPart(last));
      AllWordsJoin([PartOf(word)], [BodyPart(last)]);
    }
  }

  // ---- words tell the route --------------------------------------------------------------------------

  predicate Named(b: Option<Body>) {
    b.Some? ==> b.value.name !in {"(", ")", "[", "]", "*"}
  }

  lemma BodyWordsTell(a: Body, x: seq<string>, b: Body, y: seq<string>)
    requires Named(Some(a)) && Named(Some(b)) && BodyWords(Some(a)) + x == BodyWords(Some(b)) + y
    ensures a == b && x == y
  {
    var s, t := BodyWords(Some(a)) + x, BodyWords(Some(b)) + y;
    assert a.list <==> s[1] == "[";
    assert b.list <==> t[1] == "[";
    var i := if a.list then 3 else 1;
    assert a.star <==> s[i] == "*";
    assert b.star <==> t[i] == "*";
    var j := if a.star then i + 1 else i;
    assert s[j] == a.name && t[j] == b.name;
    assert s[j + 2..] == x && t[j + 2..] == y;
  }

  lemma WordsTell(r: Route, q: Route)
    requires Named(Bare(Request(r))) && Named(Bare(Request(q))) && Named(Bare(Response(r))) && Named(Bare(Response(q)))
    requires RouteWords(r) == RouteWords(q)
    ensures SameRoute(r, q)
  {
    hide BodyWords;
    var a, b := Bare(Request(r)), Bare(Request(q));
    var c, d := Bare(Response(r)), Bare(Response(q));
    var x, y := if c.None? then [] else ["returns"] + BodyWords(c), if d.None? then [] else ["returns"] + BodyWords(d);
    assert RouteWords(r)[0] == r.verb.token.text && RouteWords(q)[0] == q.verb.token.text;
    assert RouteWords(r)[1..] == [r.path.token.text] + (BodyWords(a) + x);
    assert RouteWords(q)[1..] == [q.path.token.text] + (BodyWords(b) + y);
    assert RouteWords(r)[1..][0] == r.path.token.text && RouteWords(q)[1..][0] == q.path.token.text;
    assert BodyWords(a) + x == RouteWords(r)[1..][1..] == RouteWords(q)[1..][1..] == BodyWords(b) + y;
    BodiesTell(a, c, b, d);
  }

  lemma BodiesTell(a: Option<Body>, c: Option<Body>, b: Option<Body>, d: Option<Body>)
    requires Named(a) && Named(b) && Named(c) && Named(d)
    requires BodyWords(a) + (if c.None? then [] else ["returns"] + BodyWords(c)) ==
             BodyWords(b) + (if d.None? then [] else ["returns"] + BodyWords(d))
    ensures a == b && c == d
  {
    var x, y := if c.None? then [] else ["returns"] + BodyWords(c), if d.None? then [] else ["returns"] + BodyWords(d);
    var s, t := BodyWords(a) + x, BodyWords(b) + y;
    assert a.Some? ==> s != [] && s[0] == "(";
    assert b.Some? ==> t != [] && t[0] == "(";
    assert a.None? ==> s == x;
    assert b.None? ==> t == y;
    assert c.Some? ==> x[0] == "returns";
    assert d.Some? ==> y[0] == "returns";
    if a.Some? && b.Some? {
      BodyWordsTell(a.value, x, b.value, y);
    }
    assert x == y;
    if c.Some? && d.Some? {
      assert x[1..] == BodyWords(c) && y[1..] == BodyWords(d);
      assert BodyWords(c) + [] == BodyWords(d) + [];
      BodyWordsTell(c.value, [], d.value, []);
    }
  }

  lemma RouteNamed(r: Route)
    requires RouteShaped(r)
    ensures Named(Bare(Request(r))) && Named(Bare(Response(r)))
  {
    hide NodeShaped, Adjacent, IsPlainWord;
  }

  /** Routes of one text are one route, whatever their comments, if no comment needs squeezing. */
  lemma PrintedAlikeIsSame(r: Route, q: Route, w: Writer)
    requires RouteShaped(r) && RouteTidy(r) && RouteShaped(q) && RouteTidy(q) && Pads(w.pad)
    requires RouteText(r, w) == RouteText(q, w)
    ensures SameRoute(r, q)
  {
    hide RouteShaped, RouteTidy, Pads, RoutePieces, RouteLeft, RouteText, RouteWords, SameRoute;
    RouteTextExact(r, q, w);
    RouteWordsAre(r);
    RouteWordsAre(q);
    RouteNamed(r);
    RouteNamed(q);
    WordsTell(r, q);
  }
}
