/** Routes without comments are printed as nothing but their words, so that the same route is always printed alike. */
module BareRoutes {
  import opened Tokens
  import opened Lexis
  import opened Grammar
  import opened Layout
  import opened DataTypes
  import opened RoundTrip
  import opened Comments
  import opened Declared
  import opened Printer
  import opened NodeText
  import opened Reading
  import opened Weaving
  import opened RouteTrip
  import opened RouteWords

  // ---- routes without comments -----------------------------------------------------------------------

  predicate NodeBare(n: TokenNode) {
    n.head == [] && n.leading == []
  }

  predicate BodyBare(b: BodyStmt) {
    && NodeBare(b.lparen) && NodeBare(b.rparen)
    && (b.body.Some? ==> NodeBare(FirstOf(b.body.value)) && NodeBare(b.body.value.value))
  }

  predicate RouteBare(r: Route) {
    && NodeBare(r.verb) && NodeBare(r.path)
    && (r.request.Some? ==> BodyBare(r.request.value))
    && (r.response.Some? ==> NodeBare(r.response.value.0) && BodyBare(r.response.value.1))
  }

  lemma WordIsClean(t: string)
    requires IsPlainWord(t)
    ensures Clean(t)
  {
    assert t[0] in t && t[|t| - 1] in t;
    assert forall k :: 0 <= k < |t| ==> t[k] in t;
  }

  lemma BareIsTidy(r: Route)
    requires RouteShaped(r) && RouteBare(r)
    ensures RouteTidy(r)
  {
    hide Adjacent, IsPlainWord, Clean;
    WordIsClean(r.verb.token.text);
    WordIsClean(r.path.token.text);
    if r.request.Some? {
      BareBodyIsTidy(r.request.value);
    }
    if r.response.Some? {
      WordIsClean(r.response.value.0.token.text);
      BareBodyIsTidy(r.response.value.1);
    }
  }

  lemma BareBodyIsTidy(b: BodyStmt)
    requires BodyShaped(b) && BodyBare(b)
    ensures BodyTidy(b)
  {
    hide Adjacent, IsPlainWord, Clean;
    WordIsClean(b.lparen.token.text);
    WordIsClean(b.rparen.token.text);
    if b.body.Some? {
      WordIsClean(b.body.value.value.token.text);
    }
  }

  /** The texts of parts. */
  function TextsOf(parts: seq<Part>): seq<string> {
    if parts == [] then []
    else (if parts[0].pieces == [] then [] else [parts[0].item.text]) + TextsOf(parts[1..])
  }

  function JoinAll(list: seq<string>, infix: string): string {
    if list == [] then "" else infix + (list[0] + JoinAll(list[1..], infix))
  }

  function FirstJoin(list: seq<string>, infix: string): string {
    if list == [] then "" else list[0] + JoinAll(list[1..], infix)
  }

  /** Nothing breaks a line between the parts. */
  ghost predicate Quiet(parts: seq<Part>) {
    forall p <- parts :: PartOk(p) && !p.item.above && !p.item.behind
  }

  lemma {:induction false} TextsJoin(p: seq<Part>, q: seq<Part>)
    ensures TextsOf(p + q) == TextsOf(p) + TextsOf(q)
  {
    if p == [] {
      assert p + q == q;
    } else {
      assert (p + q)[1..] == p[1..] + q;
      TextsJoin(p[1..], q);
      Assoc(if p[0].pieces == [] then [] else [p[0].item.text], TextsOf(p[1..]), TextsOf(q));
    }
  }

  lemma OneText(p: Part)
    ensures TextsOf([p]) == if p.pieces == [] then [] else [p.item.text]
  {
    assert [p][1..] == [];
  }

  lemma {:induction false} QuietWeave(parts: seq<Part>, line: int, infix: string)
    requires Quiet(parts)
    ensures Text(Weave(parts, line, false, 0, infix)) == JoinAll(TextsOf(parts), infix)
    ensures Left(parts, line, false, 0) == 0
    decreases |parts|
  {
    hide Clean, Readable;
    if parts == [] {
    } else {
      var p, rest := parts[0], parts[1..];
      assert p in parts && BreakIf(p.item, line, false) == 0;
      WeaveFront(parts, line, false, 0, infix);
      QuietWeave(rest, p.item.last, infix);
      if p.pieces == [] {
        assert [] + TextsOf(rest) == TextsOf(rest);
      } else {
        GapText(infix, p.pieces);
        TextJoin(WithGap(infix, p.pieces), Weave(rest, p.item.last, false, 0, infix));
        assert ([p.item.text] + TextsOf(rest))[1..] == TextsOf(rest);
        Assoc(infix, p.item.text, JoinAll(TextsOf(rest), infix));
      }
    }
  }

  lemma QuietWhole(parts: seq<Part>, infix: string)
    requires parts != [] && Quiet(parts) && parts[0].pieces != []
    ensures Text(Whole(parts, infix)) == FirstJoin(TextsOf(parts), infix) && LeftOf(parts) == 0
  {
    hide Clean, Readable;
    var p, rest := parts[0], parts[1..];
    assert p in parts && forall q :: q in rest ==> q in parts;
    QuietWeave(rest, p.item.last, infix);
    TextJoin(p.pieces, Weave(rest, p.item.last, false, 0, infix));
    assert ([p.item.text] + TextsOf(rest))[1..] == TextsOf(rest);
  }

  lemma QuietJoin(p: seq<Part>, q: seq<Part>)
    requires Quiet(p) && Quiet(q)
    ensures Quiet(p + q)
  {
    hide PartOk;
  }

  lemma BarePart(n: TokenNode)
    requires NodeShaped(n) && NodeBare(n)
    ensures Quiet([PartOf(n)]) && PartOf(n).pieces != [] && TextsOf([PartOf(n)]) == [n.token.text]
  {
    hide PartOk, Clean;
    WordIsClean(n.token.text);
    NodePartOk(n);
    assert "" + (n.token.text + "") == n.token.text;
    OneText(PartOf(n));
  }

  lemma BareSign(n: TokenNode)
    requires n.token.text in {"[", "]", "*"}
    ensures var p := PartOf(WithoutComments(n)); Quiet([p]) && p.pieces != [] && TextsOf([p]) == [n.token.text]
  {
    hide PartOk;
    SignPart(n);
    assert "" + (n.token.text + "") == n.token.text;
    OneText(PartOf(WithoutComments(n)));
  }

  // ---- the texts of bodies and routes ----------------------------------------------------------------

  function ExprTexts(b: Body): seq<string> {
    (if b.list then ["["] + ["]"] else []) + ((if b.star then ["*"] else []) + [b.name])
  }

  function BodyTexts(b: Option<Body>): seq<string> {
    if b.None? then [] else [FirstJoin(["("] + ([FirstJoin(ExprTexts(b.value), "")] + [")"]), "")]
  }

  function RouteTexts(verb: string, path: string, a: Option<Body>, c: Option<Body>): seq<string> {
    [verb] + ([path] + (BodyTexts(a) + if c.None? then [] else ["returns"] + BodyTexts(c)))
  }

  lemma BareExpr(b: BodyExpr)
    requires ExprShaped(b) && NodeBare(b.value) && NodeBare(FirstOf(b))
    ensures var p := ExprPart(b);
            Quiet([p]) && p.pieces != [] && TextsOf([p]) == [FirstJoin(ExprTexts(Bare(Some(b)).value), "")]
  {
    hide NodeShaped, PartOk, PartOf, IsPlainWord, Whole, Clean, TextsOf, FirstJoin, Quiet;
    WordIsClean(b.value.token.text);
    BarePart(b.value);
    ExprPartOk(b);
    var list := if b.list.Some? then
                  [PartOf(WithoutComments(b.list.value.0))] + [PartOf(WithoutComments(b.list.value.1))] else [];
    var star := if b.star.Some? then [PartOf(WithoutComments(b.star.value))] else [];
    NoParts();
    if b.list.Some? {
      BareSign(b.list.value.0);
      BareSign(b.list.value.1);
      TextsJoin([PartOf(WithoutComments(b.list.value.0))], [PartOf(WithoutComments(b.list.value.1))]);
      QuietJoin([PartOf(WithoutComments(b.list.value.0))], [PartOf(WithoutComments(b.list.value.1))]);
    }
    if b.star.Some? {
      BareSign(b.star.value);
    }
    TextsJoin(star, [PartOf(b.value)]);
    TextsJoin(list, star + [PartOf(b.value)]);
    QuietJoin(star, [PartOf(b.value)]);
    QuietJoin(list, star + [PartOf(b.value)]);
    assert ExprParts(b) == list + (star + [PartOf(b.value)]) && ExprParts(b)[0].pieces != [];
    QuietWhole(ExprParts(b), "");
    OneText(ExprPart(b));
    OneQuiet(ExprPart(b));
  }

  lemma NoParts()
    ensures TextsOf([]) == [] && Quiet([])
  {
  }

  lemma OneQuiet(p: Part)
    requires PartOk(p) && !p.item.above && !p.item.behind
    ensures Quiet([p])
  {
  }

  lemma BareBody(b: BodyStmt)
    requires BodyShaped(b) && BodyBare(b)
    ensures Quiet([BodyPart(b)]) && TextsOf([BodyPart(b)]) == BodyTexts(Bare(b.body))
  {
    hide NodeShaped, PartOk, PartOf, IsPlainWord, Whole, Clean, ExprPart, ExprShaped, Adjacent, NodeTidy, TextsOf,
      FirstJoin, Quiet, ExprTexts;
    BareBodyIsTidy(b);
    BodyPartOk(b);
    OneText(BodyPart(b));
    OneQuiet(BodyPart(b));
    if b.body.Some? {
      var e := b.body.value;
      BarePart(b.lparen);
      BarePart(b.rparen);
      BareExpr(e);
      var l, x, r := PartOf(b.lparen), ExprPart(e), PartOf(b.rparen);
      TextsJoin([x], [r]);
      TextsJoin([l], [x] + [r]);
      QuietJoin([x], [r]);
      QuietJoin([l], [x] + [r]);
      QuietWhole(BodyParts(b.lparen, e, b.rparen), "");
    }
  }

  lemma BareParts(r: Route)
    requires RouteShaped(r) && RouteBare(r)
    ensures Quiet(RouteParts(r)) && RouteParts(r) != [] && RouteParts(r)[0].pieces != []
    ensures TextsOf(RouteParts(r)) ==
            RouteTexts(r.verb.token.text, r.path.token.text, Bare(Request(r)), Bare(Response(r)))
  {
    hide NodeShaped, PartOk, PartOf, IsPlainWord, Clean, BodyPart, BodyShaped, Adjacent, NodeTidy, BodyBare, BodyTidy,
      PathPart, TextsOf, Quiet, BodyTexts;
    BareIsTidy(r);
    BareWithout(r.verb);
    BareWithout(r.path);
    BarePart(r.verb);
    BarePart(r.path);
    BarePath(r);
    NoParts();
    NoBodyTexts();
    TextsJoin([PartOf(r.verb)], PartsBehind(r));
    if r.response.Some? {
      BareResponse(r);
    } else if r.request.Some? {
      BareWithoutHead(r.request.value);
      BareBody(r.request.value);
      TextsJoin([PathPart(r.path)], [BodyPart(r.request.value)]);
      QuietJoin([PathPart(r.path)], [BodyPart(r.request.value)]);
      var t := BodyTexts(Bare(Request(r)));
      assert t + [] == t;
    }
    QuietJoin([PartOf(r.verb)], PartsBehind(r));
  }

  lemma NoBodyTexts()
    ensures BodyTexts(None) == [] == BodyTexts(None) + []
  {
  }

  lemma BareWithout(n: TokenNode)
    requires NodeBare(n)
    ensures WithoutLeading(n) == n == WithoutHead(n)
  {
  }

  lemma BareWithoutHead(b: BodyStmt)
    requires BodyBare(b)
    ensures LastBody(b) == b
  {
  }

  lemma BarePath(r: Route)
    requires RouteShaped(r) && RouteBare(r)
    ensures Quiet([PathPart(r.path)]) && TextsOf([PathPart(r.path)]) == [r.path.token.text]
  {
    hide PartOk, NodeShaped, BodyShaped, BodyBare, Adjacent;
    BareIsTidy(r);
    PathPartOk(r);
    OneText(PathPart(r.path));
  }

  lemma BareResponse(r: Route)
    requires RouteShaped(r) && RouteBare(r) && r.response.Some?
    ensures Quiet(PartsBehind(r))
    ensures TextsOf(PartsBehind(r)) ==
            [r.path.token.text] + (BodyTexts(Bare(Request(r))) +
                                   if Response(r).None? then [] else ["returns"] + BodyTexts(Bare(Response(r))))
  {
    hide NodeShaped, PartOk, PartOf, IsPlainWord, Clean, BodyPart, BodyShaped, Adjacent, NodeTidy, BodyBare, BodyTidy,
      PathPart, TextsOf, Quiet, BodyTexts;
    var (word, response) := r.response.value;
    var q := RequestParts(r.request);
    var more := if response.body.None? then [] else [PartOf(word)] + [BodyPart(response)];
    BareWithoutHead(response);
    BarePath(r);
    BarePart(word);
    BareBody(response);
    NoParts();
    NoBodyTexts();
    TextsJoin([PartOf(word)], [BodyPart(response)]);
    QuietJoin([PartOf(word)], [BodyPart(response)]);
    if r.request.Some? {
      BareBody(r.request.value);
    }
    TextsJoin(q, more);
    QuietJoin(q, more);
    TextsJoin([PathPart(r.path)], q + more);
    QuietJoin([PathPart(r.path)], q + more);
  }

  /** The text of a route without comments depends on nothing but the route. */
  lemma BareText(r: Route, w: Writer)
    requires RouteShaped(r) && RouteBare(r) && Pads(w.pad)
    ensures RouteText(r, w) ==
            FirstJoin(RouteTexts(r.verb.token.text, r.path.token.text, Bare(Request(r)), Bare(Response(r))), " ")
  {
    hide RouteShaped, RouteTidy, Pads, RouteText, RouteBare, RouteTexts, RouteParts, Whole, LeftOf, TextsOf, Quiet,
      FirstJoin;
    BareIsTidy(r);
    RouteTextIs(r, w);
    BareParts(r);
    QuietWhole(RouteParts(r), " ");
    assert EmptyLines(0) == "" && Text(RoutePieces(r)) + "" == Text(RoutePieces(r));
  }

  /** Routes without comments have one text exactly if they are one route. */
  lemma BareRoutesExact(r: Route, q: Route, w: Writer)
    requires RouteShaped(r) && RouteBare(r) && RouteShaped(q) && RouteBare(q) && Pads(w.pad)
    ensures RouteText(r, w) == RouteText(q, w) <==> SameRoute(r, q)
  {
    hide RouteShaped, RouteTidy, Pads, RouteText, RouteBare, RouteTexts, FirstJoin;
    BareIsTidy(r);
    BareIsTidy(q);
    if RouteText(r, w) == RouteText(q, w) {
      PrintedAlikeIsSame(r, q, w);
    }
    BareText(r, w);
    BareText(q, w);
  }
}
