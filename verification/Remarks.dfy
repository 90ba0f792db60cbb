/** Programs that differ in nothing but comments, and that the checks and the conversion tell apart all the same. */
module Remarks {
  import opened Tokens
  import opened Lexis
  import opened Grammar
  import opened Layout
  import opened DataTypes
  import opened RoundTrip
  import opened Comments
  import opened Declared
  import opened Printer
  import opened NodeText
  import opened Reading
  import opened Weaving
  import opened RouteTrip
  import opened RouteWords
  import opened Conversion
  import opened Services
  import Filter
  import Imports

  // ---- routes ----------------------------------------------------------------------------------------

  /** Routes without bodies, with different comments at the end of their lines, have different texts. */
  lemma RemarksKeepApart(r: Route, q: Route, w: Writer)
    requires RouteShaped(r) && RouteTidy(r) && RouteShaped(q) && RouteTidy(q) && Pads(w.pad)
    requires r.request.None? && r.response.None? && q.request.None? && q.response.None?
    requires r.path.leading != [] && q.path.leading != []
    requires r.path.leading[|r.path.leading| - 1].text != q.path.leading[|q.path.leading| - 1].text
    ensures RouteText(r, w) != RouteText(q, w)
  {
    hide RouteShaped, RouteTidy, Pads, RouteText, RoutePieces, RouteLeft;
    RouteTextExact(r, q, w);
    LastRemark(r);
    LastRemark(q);
  }

  lemma LastRemark(r: Route)
    requires RouteShaped(r) && RouteTidy(r) && r.request.None? && r.response.None? && r.path.leading != []
    ensures RoutePieces(r) != []
    ensures RoutePieces(r)[|RoutePieces(r)| - 1].text == r.path.leading[|r.path.leading| - 1].text
  {
    hide PartOk, Clean, Whole, Shaped, IsPlainWord;
    VerbPartOk(r);
    WithoutShaped(r.path);
    NodePartOk(WithoutHead(r.path));
    LastOfNode("", [], r.path.token.text, r.path.leading);
    WholeLast(RouteParts(r), " ");
  }

  /** `get /x` with a comment behind it. */
  function CommentedRoute(comment: string, line: int): Route {
    Route(
      Node("h", Position("a.api", line - 1, 12)), Plain(IDENT, "get", line, 3),
      TokenNode(
        [], Token(PATH, "/x", Position("a.api", line, 7)), [Token(COMMENT, comment, Position("a.api", line, 10))]),
      None, None)
  }

  lemma CommentedIsShaped(comment: string, line: int)
    requires IsLineComment(comment) && Clean(comment)
    ensures RouteShaped(CommentedRoute(comment, line)) && RouteTidy(CommentedRoute(comment, line))
  {
    hide IsLineComment;
    assert IsPlainWord("get") && IsPlainWord("/x") && Clean("get") && Clean("/x");
  }

  lemma FirstAndSecond()
    ensures IsLineComment("// first") && Clean("// first") && IsLineComment("// second") && Clean("// second")
  {
  }

  /** The same route twice, with different comments behind it, passes the check. */
  lemma CommentedRoutesPass(filename: string, w: Writer)
    requires Pads(w.pad)
    ensures var r, q := CommentedRoute("// first", 4), CommentedRoute("// second", 6);
            var s := Service(Plain(IDENT, "demo", 2, 9), "", "", [r, q]);
            && SameRoute(r, q) && Pos(r.verb) != Pos(q.verb)
            && Filter.Duplicates(Filter.AllRouteKeys(filename, [s], w)) == []
  {
    hide RouteShaped, RouteTidy, Pads, RouteText, Filter.Duplicates, Filter.AllRouteKeys;
    var r, q := CommentedRoute("// first", 4), CommentedRoute("// second", 6);
    var s := Service(Plain(IDENT, "demo", 2, 9), "", "", [r, q]);
    FirstAndSecond();
    CommentedIsShaped("// first", 4);
    CommentedIsShaped("// second", 6);
    assert "// first" != "// second" by { assert "// first"[3] != "// second"[3]; }
    RemarksKeepApart(r, q, w);
    Filter.RoutesDistinct(filename, [s], w);
  }

  /** Comments above the same route that differ in a blank at the end are printed alike. */
  lemma BlanksPrintedAlike(r: Route, q: Route, above: Token, other: Token, w: Writer)
    requires r.request.None? && r.response.None? && q == r.(verb := r.verb.(head := [other]))
    requires r.verb.head == [above] && above.text == "//c" && other.text == "//c " && above.position == other.position
    requires r.path.leading == [] && r.verb.leading == [] && IsPlainWord(r.verb.token.text) &&
             IsPlainWord(r.path.token.text)
    requires r.path.token.position.line <= r.verb.token.position.line == above.position.line + 1
    ensures RouteText(r, w) == RouteText(q, w)
  {
    var more := r.verb.token.text + (" " + r.path.token.text);
    hide Squeeze, RouteText, IsPlainWord;
    assert "//c" + " " == "//c ";
    OneRouteText(r, w, "//c", more);
    OneRouteText(q, w, "//c ", more);
    BlankDropped("//c", more);
  }

  lemma BlankDropped(c: string, more: string)
    requires c != "" && Firm(c[|c| - 1])
    ensures Squeeze((c + " ") + ("\n" + more)) == Squeeze(c + ("\n" + more))
  {
    hide Squeeze;
    BlankLost(more);
    assert (c + " ") + ("\n" + more) == c + (" " + ("\n" + more));
    SqueezeJoin(c, " " + ("\n" + more));
    SqueezeJoin(c, "\n" + more);
  }

  lemma OneRouteText(r: Route, w: Writer, above: string, more: string)
    requires r.request.None? && r.response.None? && |r.verb.head| == 1 && r.verb.head[0].text == above
    requires r.path.leading == [] && r.verb.leading == [] && IsPlainWord(r.verb.token.text) &&
             IsPlainWord(r.path.token.text)
    requires r.path.token.position.line <= r.verb.token.position.line == r.verb.head[0].position.line + 1
    requires above != "" && !IsSpace(above[0]) && more == r.verb.token.text + (" " + r.path.token.text)
    ensures RouteText(r, w) == w.pad(Squeeze(above + ("\n" + more)))
  {
    hide Squeeze, Blank, TextList, Join;
    var verb, path := ItemOf(WithoutLeading(r.verb)), ItemOf(WithoutHead(r.path));
    assert r.verb.head[1..] == [] && verb.text == above + ("\n" + r.verb.token.text);
    assert path.text == r.path.token.text && path.text[0] in r.path.token.text;
    assert RouteItems(r, w) == [verb] + [path];
    TwoItems(verb, path);
    assert verb.text + (" " + path.text) == above + ("\n" + more);
  }

  lemma TwoItems(a: Item, b: Item)
    requires a.text != "" && !IsSpace(a.text[0]) && b.text != "" && !IsSpace(b.text[0])
    requires a.first <= a.last && !a.behind && !b.above
    ensures Join(TextList([a] + [b], a.last, false, true), " ") == a.text + (" " + b.text)
  {
    var items := [a] + [b];
    assert a.text[0] in a.text && b.text[0] in b.text;
    assert items[1..] == [b] && [b][1..] == [];
    assert !Blank(a.text) && !Blank(b.text) && TextList([], b.last, b.behind, true) == [];
    assert !Breaks(b, a.last, a.behind, true) && !Breaks(a, a.last, false, true);
    var last := TextList([b], a.last, a.behind, true);
    assert last == [] + ([b.text] + []) == [b.text];
    var list := TextList(items, a.last, false, true);
    assert list == [] + ([a.text] + last) == [a.text] + [b.text];
    assert list[1..] == [b.text];
  }

  // ---- services --------------------------------------------------------------------------------------

  /** A text without a percent sign is its own format. */
  ghost predicate Verbs(verbs: string -> string) {
    forall s :: '%' !in s ==> verbs(s) == s
  }

  lemma PlainName(name: TokenNode, w: Writer)
    requires Pads(w.pad) && Verbs(w.verbs)
    requires forall c <- TextOf(name) :: c != '%' && !Special(c)
    ensures NameText(name, w) == TextOf(name)
  {
    hide Padded, Special;
    var s := TextOf(name);
    assert '%' !in s && w.verbs(s) == s;
    assert Padded(s, w.pad(s));
    PaddedNone(s, w.pad(s));
  }

  /** One service twice, the first time with a comment behind its name: they count as services of two names. */
  lemma CommentedNamesDiffer(types: seq<SpecType>, r: Route, w: Writer)
    requires Pads(w.pad) && Verbs(w.verbs)
    ensures var name := Token(IDENT, "a-api", Position("a.api", 2, 9));
            var s := Service(TokenNode([], name, [Token(DOCUMENT, "/*c*/", Position("a.api", 2, 15))]), "", "", [r]);
            var t := Service(Plain(IDENT, "a-api", 6, 9), "", "", [r]);
            !NamesAgree([s, t], w) && (RouteSpec(types, r, w).Good? ==> Groups(types, [s, t], w) == Bad(ManyNames))
  {
    hide Pads, Verbs, NameText, RouteSpec;
    var name := Token(IDENT, "a-api", Position("a.api", 2, 9));
    var s := Service(TokenNode([], name, [Token(DOCUMENT, "/*c*/", Position("a.api", 2, 15))]), "", "", [r]);
    var t := Service(Plain(IDENT, "a-api", 6, 9), "", "", [r]);
    NameTexts(s.name, t.name);
    PlainName(s.name, w);
    PlainName(t.name, w);
    var both := [s, t];
    assert both[0] == s && both[1] == t && NameText(s.name, w) != NameText(t.name, w);
    if RouteSpec(types, r, w).Good? {
      assert both[..1] == [s] && [s][..0] == [];
      assert RoutesOf(types, "", s, 0, w) == Good(([], ""));
      assert RoutesOf(types, "", s, 1, w).Good? && RoutesOf(types, "", s, 1, w).value.1 == NameText(s.name, w);
      assert Groups(types, [], w) == Good(([], ""));
      assert Groups(types, [s], w).Good? && Groups(types, [s], w).value.1 == NameText(s.name, w);
      assert RoutesOf(types, NameText(s.name, w), t, 0, w) == Good(([], NameText(s.name, w)));
    }
  }

  lemma NameTexts(a: TokenNode, b: TokenNode)
    requires a.head == [] == b.head && b.leading == [] && |a.leading| == 1 && a.leading[0].text == "/*c*/"
    requires a.token.text == "a-api" == b.token.text
    ensures TextOf(a) == "a-api /*c*/" && TextOf(b) == "a-api"
    ensures forall c <- TextOf(a) :: c != '%' && !Special(c)
    ensures forall c <- TextOf(b) :: c != '%' && !Special(c)
  {
    hide Special;
    var c := "/*c*/";
    assert a.leading[1..] == [] && c + "" == c && Behind(a.leading) == " " + c;
    assert TextOf(a) == "" + ("a-api" + (" " + c)) == "a-api /*c*/" && TextOf(b) == "" + ("a-api" + "") == "a-api";
    NoVerbs(TextOf(a) + TextOf(b));
  }

  lemma NoVerbs(t: string)
    requires t == "a-api /*c*/a-api"
    ensures forall c <- t :: c != '%' && !Special(c)
  {
  }

  // ---- the syntax ------------------------------------------------------------------------------------

  /** A file whose syntax value has a comment behind it, and one without, are of different syntax. */
  lemma CommentedSyntaxDiffers()
    ensures var value := Token(STRING, "\"v1\"", Position("r.api", 1, 10));
            var noted := TokenNode([], value, [Token(COMMENT, "// c", Position("r.api", 1, 15))]);
            var disk := map[
              "r.api" := Imports.Parsed(map["a.api" := "a.api"], [], [], TextOf(noted), [], []),
              "a.api" := Imports.Parsed(map[], [], [], TextOf(TokenNode([], value, [])), [], [])];
            !Imports.OneSyntax(disk, "r.api") && !Imports.Resolvable(disk, "r.api")
  {
    var value := Token(STRING, "\"v1\"", Position("r.api", 1, 10));
    var noted := TokenNode([], value, [Token(COMMENT, "// c", Position("r.api", 1, 15))]);
    var root := Imports.Parsed(map["a.api" := "a.api"], [], [], TextOf(noted), [], []);
    var other := Imports.Parsed(map[], [], [], TextOf(TokenNode([], value, [])), [], []);
    var disk := map["r.api" := root, "a.api" := other];
    assert noted.leading[1..] == [] && |Behind(noted.leading)| > 0;
    assert |TextOf(noted)| > |TextOf(TokenNode([], value, []))|;
    var walk := ["r.api", "a.api"];
    assert "a.api" in root.imports.Values by { assert root.imports["a.api"] == "a.api"; }
    assert Imports.Edge(disk, walk[0], walk[1]);
    assert Imports.Joins(disk, walk, "r.api", "a.api");
    assert Imports.Reachable(disk, "r.api", "a.api") && Imports.Parses(disk, "r.api") && Imports.Parses(disk, "a.api");
    assert disk["a.api"].syntax != disk["r.api"].syntax;
  }

  // ---- empty structs ---------------------------------------------------------------------------------

  /** `type T { A {} }`, with what stands behind the inner braces. */
  function WithEmpty(behind: seq<Token>): TypeExpr {
    var close := Plain(RBRACE, "}", 2, 6).(leading := behind);
    TypeExpr(
      Node("T", Position("a.api", 1, 6)), StructType([Elem(["A"], StructType([]), None)]),
      [Plain(LBRACE, "{", 1, 8), Plain(IDENT, "A", 2, 3), Plain(LBRACE, "{", 2, 5), close, Plain(RBRACE, "}", 3, 1)])
  }

  /** A field of an empty struct is converted only if there is a comment at its braces. */
  lemma CommentedStructConverts(w: Writer)
    ensures ExprConvertible(WithEmpty([Token(COMMENT, "// c", Position("a.api", 2, 8))]), w)
    ensures !ExprConvertible(WithEmpty([]), w)
  {
    var c := Token(COMMENT, "// c", Position("a.api", 2, 8));
    EmptyBraces([c], w);
    EmptyBraces([], w);
  }

  lemma EmptyBraces(behind: seq<Token>, w: Writer)
    ensures ExprConvertible(WithEmpty(behind), w) <==> behind != []
  {
    var e := WithEmpty(behind);
    var elems := e.tp.elems;
    var v := WriterFor(e, w);
    assert elems[..0] == [] && elems[0].names[1..] == [] && TypeStart(elems, 1, 0) == 2;
    assert v.At(0).braces([]) == v.braces([0] + []) && [0] + [] == [0];
    assert BracesAt(e.tp, e.nodes, 0, [0]) == BracesAt(StructType([]), e.nodes, 2, [0][1..]);
    assert v.At(0).braces([]) == e.nodes[2].(leading := e.nodes[3].leading);
    assert Convertible(elems[0].tp, v.At(0)) <==> behind != [];
  }
}
