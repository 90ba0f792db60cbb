/**
 What the parser makes sure of in every program: the types it declares are well formed, and its routes consist of words
 and of comments that are where they should be. With that, what the checks of a program say of it.
 */
module Sources {
  import opened Tokens
  import opened Lexis
  import opened Grammar
  import opened Source
  import opened DataTypes
  import opened Comments
  import opened Declared
  import opened ParseSpec
  import opened RoundTrip
  import opened PathSpec
  import opened TypeStatements
  import opened Stream
  import opened Formatting
  import opened Printer
  import opened NodeText
  import opened Reading
  import opened RouteTrip
  import opened Files
  import opened NodeFacts
  import opened Alignment
  import S = StatementSpec
  import T = SyntaxTrees
  import Conversion
  import Declarations
  import Filter
  import Imports
  import TypeText

  // ---- words -----------------------------------------------------------------------------------------

  predicate Wordly(text: string) {
    forall c <- text :: !IsSpace(c) && !IsMark(c)
  }

  lemma LegalIsWordly(m: Mark)
    requires Legal(m) && m.kind in {QUO, COLON, IDENT, INT, SUB}
    ensures Wordly(m.text) && m.text != "" && (m.text[0] == '/' <==> m.kind == QUO) && (m.kind == QUO ==> m.text == "/")
  {
    match m.kind
    case IDENT =>
      forall k | 0 <= k < |m.text|
        ensures !IsSpace(m.text[k]) && !IsMark(m.text[k])
      {
        assert Ident.Has(m.text[k]);
      }
    case INT =>
      forall k | 0 <= k < |m.text|
        ensures !IsSpace(m.text[k]) && !IsMark(m.text[k])
      {
        assert Digit.Has(m.text[k]);
      }
      assert Digit.Has(m.text[0]);
    case _ =>
  }

  lemma {:induction false} TextsWordly(ms: seq<Mark>)
    requires AllLegal(ms) && forall m <- ms :: m.kind in {QUO, COLON, IDENT, INT, SUB}
    ensures Wordly(Texts(ms))
  {
    hide Legal;
    if ms == [] {
    } else {
      var init, last := ms[..|ms| - 1], ms[|ms| - 1];
      TextsWordly(init);
      LegalIsWordly(last);
    }
  }

  lemma LegalIsOpen(m: Mark)
    requires Legal(m) && m.kind in {QUO, COLON, IDENT, INT, SUB, COMMA, DURATION}
    ensures ']' !in m.text
  {
    if m.kind != COMMA && m.kind != DURATION {
      LegalIsWordly(m);
    }
  }

  lemma {:induction false} TextsOpen(ms: seq<Mark>)
    requires AllLegal(ms) && forall m <- ms :: m.kind in {QUO, COLON, IDENT, INT, SUB, COMMA, DURATION}
    ensures ']' !in Texts(ms)
  {
    hide Legal;
    if ms == [] {
    } else {
      var init, last := ms[..|ms| - 1], ms[|ms| - 1];
      TextsOpen(init);
      LegalIsOpen(last);
    }
  }

  lemma {:induction false} PathKinds(a: Kind, ms: seq<Mark>)
    requires GoesOnAs(a, ms)
    ensures forall m <- ms :: m.kind in {QUO, COLON, IDENT, INT, SUB}
    decreases |ms|
  {
    if ms == [] {
    } else {
      PathKinds(ms[0].kind, ms[1..]);
      assert ms == [ms[0]] + ms[1..];
    }
  }

  lemma {:induction false} PartsKinds(v: seq<Mark>, sign: Kind, dashed: bool)
    requires T.IsParts(v, sign, dashed)
    ensures forall m <- v :: m.kind in {sign, IDENT, SUB}
    decreases |v|
  {
    if v == [] {
    } else if dashed && |v| > 2 && v[2].kind == SUB {
      PartsKinds(v[4..], sign, dashed);
      assert v == [v[0], v[1], v[2], v[3]] + v[4..];
    } else {
      PartsKinds(v[2..], sign, dashed);
      assert v == [v[0], v[1]] + v[2..];
    }
  }

  lemma ServerValuePlain(key: string, v: seq<Mark>)
    requires T.IsServerValue(key, v) && key != "summary:" && AllLegal(v)
    ensures ']' !in Texts(v)
  {
    hide Legal, Texts, T.IsParts;
    assert v == [v[0]] + v[1..];
    if v[0].kind == QUO {
      PartsKinds(v, QUO, true);
    } else if v[0].kind == IDENT {
      if T.IsParts(v[1..], COMMA, false) {
        PartsKinds(v[1..], COMMA, false);
      } else if T.IsParts(v[1..], SUB, false) {
        PartsKinds(v[1..], SUB, false);
      } else {
        PartsKinds(v[1..], QUO, true);
      }
    }
    TextsOpen(v);
  }

  lemma LegalSplit(a: seq<Mark>, b: seq<Mark>)
    ensures AllLegal(a + b) <==> AllLegal(a) && AllLegal(b)
  {
    hide Legal;
    if AllLegal(a + b) {
      assert forall k :: 0 <= k < |a| ==> (a + b)[k] == a[k];
      assert forall k :: 0 <= k < |b| ==> (a + b)[|a| + k] == b[k];
    }
  }

  lemma {:induction false} KVsOpen(list: seq<T.ServerKV>)
    requires T.KVsOk(list) && AllLegal(T.PrintServerKVs(list))
    ensures ']' !in ValueOf(T.PlainKVs(list), "prefix:")
    decreases |list|
  {
    hide Legal, AllLegal, T.IsServerValue, Texts;
    if list == [] {
    } else {
      var kv, more := list[0], T.PrintServerKVs(list[1..]);
      LegalSplit([Mark(KEY, kv.key, false)], kv.value + more);
      LegalSplit(kv.value, more);
      assert kv in list;
      if kv.key == "prefix:" {
        ServerValuePlain(kv.key, kv.value);
      } else {
        KVsOpen(list[1..]);
      }
    }
  }

  /** The text of a path is one word. */
  lemma PathIsWord(path: seq<Mark>)
    requires IsPath(path) && path != [] && AllLegal(path)
    ensures IsPlainWord(Texts(path))
  {
    hide Legal, AllLegal, Texts, IsSpace, IsMark;
    var rest := path[1..];
    PathKinds(QUO, rest);
    assert path == [path[0]] + rest;
    TextsWordly(path);
    LegalSplit([path[0]], rest);
    T.TextsCons(path[0], rest);
    OneLegal(path[0]);
    LegalIsWordly(path[0]);
    if rest != [] {
      assert rest == [rest[0]] + rest[1..];
      LegalSplit([rest[0]], rest[1..]);
      T.TextsCons(rest[0], rest[1..]);
      OneLegal(rest[0]);
      LegalIsWordly(rest[0]);
      assert Texts(path)[1] == rest[0].text[0];
    } else {
      assert Texts(rest) == "" && Texts(path) == "/" by { T.NoTexts(); }
    }
  }

  lemma OneLegal(m: Mark)
    requires AllLegal([m])
    ensures Legal(m)
  {
    assert Legal([m][0]);
  }

  lemma IdentIsWord(t: string)
    requires IsIdent(t)
    ensures IsNameWord(t)
  {
    forall k | 0 <= k < |t|
      ensures !IsSpace(t[k]) && !IsMark(t[k]) && t[k] != '/'
    {
      assert Ident.Has(t[k]);
    }
  }

  lemma LegalName(name: string)
    requires AllLegal([T.Word(name)])
    ensures IsIdent(name) && IsNameWord(name)
  {
    OneLegal(T.Word(name));
    IdentIsWord(name);
  }

  lemma VerbIsWord(verb: string)
    requires verb in S.HTTP_METHODS
    ensures IsPlainWord(verb)
  {
  }

  // ---- routes ----------------------------------------------------------------------------------------

  lemma WordShaped(nodes: seq<TokenNode>, i: nat, kind: Kind, text: string)
    requires WellNodes(nodes) && i < |nodes| && IsPlainWord(text)
    ensures NodeShaped(WordAt(nodes, i, kind, text))
  {
    hide Shaped, IsPlainWord;
    assert nodes[i] in nodes;
  }

  /** Neighbours in a text are neighbours in what is declared. */
  lemma WordsAdjacent(nodes: seq<TokenNode>, i: nat, a: TokenNode, b: TokenNode)
    requires WellNodes(nodes) && i + 1 < |nodes|
    requires a.leading == nodes[i].leading && a.head == nodes[i].head && a.token.position == nodes[i].token.position
    requires b.leading == nodes[i + 1].leading && b.head == nodes[i + 1].head
    requires b.token.position == nodes[i + 1].token.position
    ensures Adjacent(a, b)
  {
    hide WellNode;
    assert RightBefore(nodes[i + 1 - 1], nodes[i + 1]);
  }

  lemma {:induction false} LinesRise(nodes: seq<TokenNode>, i: nat, j: nat)
    requires WellNodes(nodes) && i <= j < |nodes|
    ensures nodes[i].token.position.line <= nodes[j].token.position.line
    decreases j - i
  {
    hide Shaped, Rowed, Adjacent;
    assert nodes[i] in nodes && nodes[j] in nodes;
    if i == j {
    } else {
      assert nodes[i + 1] in nodes && RightBefore(nodes[i + 1 - 1], nodes[i + 1]);
      LinesRise(nodes, i + 1, j);
    }
  }

  lemma JoinedShaped(nodes: seq<TokenNode>, i: nat, j: nat, kind: Kind, text: string)
    requires WellNodes(nodes) && i <= j < |nodes| && IsPlainWord(text)
    ensures NodeShaped(JoinedAt(nodes, i, j, kind, text))
  {
    hide Shaped, IsPlainWord;
    LinesRise(nodes, i, j);
    assert nodes[j] in nodes;
  }

  lemma SignsAreWords()
    ensures IsPlainWord("(") && IsPlainWord(")") && IsPlainWord("[") && IsPlainWord("]") && IsPlainWord("*")
    ensures IsPlainWord("returns")
  {
  }

  lemma BodyIsShaped(b: Option<S.Body>, nodes: seq<TokenNode>, i: nat)
    requires WellNodes(nodes) && i + |T.PrintBodyStmt(b)| <= |nodes| && AllLegal(T.PrintBodyStmt(b))
    ensures BodyShaped(BodyAt(b, nodes, i))
    ensures BodyAt(b, nodes, i).rparen == WordAt(nodes, i + |T.PrintBodyStmt(b)| - 1, RPAREN, ")")
    ensures BodyAt(b, nodes, i).lparen == WordAt(nodes, i, LPAREN, "(") && |T.PrintBodyStmt(b)| >= 2
  {
    hide WellNodes, NodeShaped, Adjacent, IsPlainWord, AllLegal;
    SignsAreWords();
    WordShaped(nodes, i, LPAREN, "(");
    if b.None? {
      WordShaped(nodes, i + 1, RPAREN, ")");
    } else {
      var e, v := b.value, ValueStart(b.value, i);
      BodyLength(e);
      BodyNameLegal(e);
      LegalName(e.name);
      WordShaped(nodes, v, IDENT, e.name);
      WordShaped(nodes, v + 1, RPAREN, ")");
      WordsAdjacent(nodes, i, WordAt(nodes, i, LPAREN, "("), FirstOf(BodyAt(b, nodes, i).body.value));
      WordsAdjacent(nodes, v, WordAt(nodes, v, IDENT, e.name), WordAt(nodes, v + 1, RPAREN, ")"));
    }
  }

  lemma BodyLength(e: S.Body)
    ensures |T.PrintBodyStmt(Some(e))| == ValueStart(e, 0) + 2
  {
  }

  lemma BodyNameLegal(e: S.Body)
    requires AllLegal(T.PrintBodyStmt(Some(e)))
    ensures AllLegal([T.Word(e.name)])
  {
    hide Legal, AllLegal;
    var star := if e.star then [Sign(MUL)] else [];
    var list := if e.list then [Sign(LBRACK)] + [Sign(RBRACK)] else [];
    var inner := T.PrintBodyExpr(e);
    assert inner == list + (star + [T.Word(e.name)]);
    LegalSplit([Sign(LPAREN)], inner + [Sign(RPAREN)]);
    LegalSplit(inner, [Sign(RPAREN)]);
    LegalSplit(list, star + [T.Word(e.name)]);
    LegalSplit(star, [T.Word(e.name)]);
  }

  /** What is left of a route behind its path. */
  lemma BodiesLegal(r: T.RouteTree)
    requires AllLegal(T.PrintBodies(r))
    ensures r.request.Some? ==> AllLegal(T.PrintBodyStmt(r.request.value))
    ensures r.response.Some? ==> AllLegal(T.PrintBodyStmt(r.response.value))
    ensures |T.PrintBodies(r)| >= (if r.request.Some? then |T.PrintBodyStmt(r.request.value)| else 0) +
                                  (if r.response.Some? then 1 + |T.PrintBodyStmt(r.response.value)| else 0)
  {
    hide Legal, AllLegal, T.PrintBodyStmt;
    var semicolon := if r.semicolon then [Sign(SEMICOLON)] else [];
    var request := if r.request.None? then [] else T.PrintBodyStmt(r.request.value);
    var response := T.PrintReturns(r.response);
    assert T.PrintBodies(r) == request + (response + semicolon);
    LegalSplit(request, response + semicolon);
    LegalSplit(response, semicolon);
    if r.response.Some? {
      LegalSplit([T.Word("returns")], T.PrintBodyStmt(r.response.value));
    }
  }

  lemma RouteIsShaped(h: Node, r: T.RouteTree, nodes: seq<TokenNode>, i: nat)
    requires WellNodes(nodes) && i + |T.PrintRoute(r)| <= |nodes| && T.RouteOk(r) && AllLegal(T.PrintRoute(r))
    ensures RouteShaped(RouteAt(h, r, nodes, i))
  {
    hide WellNodes, NodeShaped, Adjacent, IsPlainWord, AllLegal, T.PrintBodyStmt, BodyShaped, BodyAt, WordAt, JoinedAt,
      T.PrintBodies;
    LegalSplit([T.Word(r.verb)], r.path + T.PrintBodies(r));
    LegalSplit(r.path, T.PrintBodies(r));
    VerbIsWord(r.verb);
    PathIsWord(r.path);
    SignsAreWords();
    BodiesLegal(r);
    WordShaped(nodes, i, IDENT, r.verb);
    JoinedShaped(nodes, i + 1, i + |r.path|, PATH, Texts(r.path));
    JoinedHead(nodes, i + 1, i + |r.path|, PATH, Texts(r.path));
    var j, k := i + 1 + |r.path|, RequestEnd(r, i);
    if r.request.Some? {
      BodyIsShaped(r.request.value, nodes, j);
    }
    if r.response.Some? {
      ResponseIsShaped(r, nodes, j, k);
    }
  }

  lemma JoinedHead(nodes: seq<TokenNode>, i: nat, j: nat, kind: Kind, text: string)
    ensures JoinedAt(nodes, i, j, kind, text).head == []
  {
  }

  lemma ResponseIsShaped(r: T.RouteTree, nodes: seq<TokenNode>, j: nat, k: nat)
    requires WellNodes(nodes) && r.response.Some? && AllLegal(T.PrintBodyStmt(r.response.value))
    requires k + 1 + |T.PrintBodyStmt(r.response.value)| <= |nodes|
    requires r.request.Some? ==> AllLegal(T.PrintBodyStmt(r.request.value))
    requires k == j + if r.request.None? then 0 else |T.PrintBodyStmt(r.request.value)|
    ensures var word, b := WordAt(nodes, k, IDENT, "returns"), BodyAt(r.response.value, nodes, k + 1);
            && NodeShaped(word) && word.token.text == "returns" && BodyShaped(b) && Adjacent(word, b.lparen)
            && (r.request.Some? ==> Adjacent(BodyAt(r.request.value, nodes, j).rparen, word))
  {
    hide WellNodes, NodeShaped, Adjacent, IsPlainWord, AllLegal, T.PrintBodyStmt, BodyShaped, BodyAt;
    SignsAreWords();
    var word := WordAt(nodes, k, IDENT, "returns");
    WordShaped(nodes, k, IDENT, "returns");
    BodyIsShaped(r.response.value, nodes, k + 1);
    WordsAdjacent(nodes, k, word, WordAt(nodes, k + 1, LPAREN, "("));
    if r.request.Some? {
      BodyIsShaped(r.request.value, nodes, j);
      WordsAdjacent(nodes, k - 1, WordAt(nodes, k - 1, RPAREN, ")"), word);
    }
  }

  // ---- services --------------------------------------------------------------------------------------

  /**
   A route as the parser lets it through: its handler is an identifier, and its words and comments have their shape.
   */
  ghost predicate RouteSound(r: Route) {
    IsIdent(r.handler.text) && RouteShaped(r)
  }

  lemma {:induction false} RoutesAreSound(items: seq<T.ItemTree>, nodes: seq<TokenNode>, i: nat)
    requires WellNodes(nodes) && i + |T.PrintItems(items)| <= |nodes|
    requires (forall item <- items :: T.ItemTreeOk(item)) && AllLegal(T.PrintItems(items))
    ensures forall r <- RoutesAt(items, nodes, i) :: RouteSound(r)
    decreases |items|
  {
    hide WellNodes, AllLegal, T.ItemTreeOk, T.PrintItem, RouteAt, RouteSound, HandlerStart;
    if items == [] {
    } else {
      var item, rest := items[0], items[1..];
      assert item in items;
      LegalSplit(T.PrintItem(item), T.PrintItems(rest));
      RoutesAreSound(rest, nodes, i + |T.PrintItem(item)|);
      if item.handled.Some? {
        ItemIsSound(item, nodes, i);
      }
    }
  }

  lemma ItemIsSound(item: T.ItemTree, nodes: seq<TokenNode>, i: nat)
    requires WellNodes(nodes) && i + |T.PrintItem(item)| <= |nodes| && item.handled.Some?
    requires T.ItemTreeOk(item) && AllLegal(T.PrintItem(item))
    ensures var h := HandlerStart(item, i);
            RouteSound(RouteAt(NameAt(nodes, h + 1, item.handled.value.0), item.handled.value.1, nodes, h + 2))
  {
    hide WellNodes, AllLegal, T.RouteOk, T.PrintRoute, RouteAt, RouteShaped, T.PrintDoc;
    var (name, route) := item.handled.value;
    var doc := if item.doc.None? then [] else [Sign(AT_DOC)] + T.PrintDoc(item.doc.value);
    var first, words := [Sign(if item.brace then RBRACE else AT_HANDLER)], [T.Word(name)];
    assert T.PrintItem(item) == doc + (first + (words + T.PrintRoute(route)));
    LegalSplit(doc, first + (words + T.PrintRoute(route)));
    LegalSplit(first, words + T.PrintRoute(route));
    LegalSplit(words, T.PrintRoute(route));
    LegalName(name);
    var h := HandlerStart(item, i);
    assert h == i + |doc|;
    RouteIsShaped(NameAt(nodes, h + 1, name), route, nodes, h + 2);
    HandlerKept(NameAt(nodes, h + 1, name), route, nodes, h + 2);
  }

  lemma HandlerKept(h: Node, r: T.RouteTree, nodes: seq<TokenNode>, i: nat)
    ensures RouteAt(h, r, nodes, i).handler == h
  {
  }

  ghost predicate ServiceSound(s: Service) {
    ']' !in s.prefix && forall r <- s.routes :: RouteSound(r)
  }

  lemma ServiceIsSound(s: T.ServiceTree, nodes: seq<TokenNode>, i: nat)
    requires WellNodes(nodes) && i + |T.PrintService(s)| <= |nodes| && T.ServiceOk(s) && AllLegal(T.PrintService(s))
    ensures ServiceSound(ServiceAt(s, nodes, i))
  {
    hide WellNodes, AllLegal, T.KVsOk, T.ItemTreeOk, RouteSound, T.PrintServerKVs, T.PrintItems, RoutesAt, JoinedAt;
    var named, close := T.PrintNamed(s), [Sign(RBRACE)];
    if s.server.Some? {
      var kvs := T.PrintServerKVs(s.server.value);
      LegalSplit(T.Parens(kvs), [T.Word("service")] + named);
      LegalSplit([T.Word("service")], named);
      LegalSplit([Sign(LPAREN)], kvs + [Sign(RPAREN)]);
      LegalSplit(kvs, [Sign(RPAREN)]);
      KVsOpen(s.server.value);
    }
    LegalSplit(T.PrintName(s), [Sign(LBRACE)] + (T.PrintItems(s.items) + close));
    LegalSplit([Sign(LBRACE)], T.PrintItems(s.items) + close);
    LegalSplit(T.PrintItems(s.items), close);
    RoutesAreSound(s.items, nodes, NameStart(s, i) + |T.PrintName(s)| + 1);
  }

  // ---- types -----------------------------------------------------------------------------------------

  /** A declared type has a name and is well formed, and what is attached to its tokens are comments. */
  predicate ExprSound(x: TypeExpr) {
    IsName(x.name.text) && WellFormed(x.tp) && Conversion.ExprSlashed(x)
  }

  lemma RemarkSlashed(c: Token)
    requires Shaped(c)
    ensures '/' in c.text
  {
    assert c.text[0] in c.text;
  }

  lemma NodesSlashed(nodes: seq<TokenNode>)
    requires WellNodes(nodes)
    ensures forall n <- nodes :: Conversion.Slashed(n.head) && Conversion.Slashed(n.leading)
  {
    hide Shaped;
    forall n, c | n in nodes && (c in n.head || c in n.leading)
      ensures '/' in c.text
    {
      assert WellNode(n);
      RemarkSlashed(c);
    }
  }

  lemma ExprIsSound(e: NamedType, nodes: seq<TokenNode>, i: nat)
    requires WellNodes(nodes) && ExprOk(e)
    ensures ExprSound(ExprAt(e, nodes, i))
  {
    hide WellNodes, WellFormed, Conversion.Slashed;
    NodesSlashed(nodes);
    var x := ExprAt(e, nodes, i);
    assert forall n :: n in x.nodes ==> n in nodes;
  }

  lemma {:induction false} ExprsAreSound(exprs: seq<NamedType>, nodes: seq<TokenNode>, i: nat)
    requires WellNodes(nodes) && forall e <- exprs :: ExprOk(e)
    ensures forall x <- ExprsAt(exprs, nodes, i) :: ExprSound(x)
    decreases |exprs|
  {
    hide WellNodes, ExprOk, ExprSound, ExprAt;
    if exprs == [] {
    } else {
      assert exprs[0] in exprs;
      ExprIsSound(exprs[0], nodes, i);
      ExprsAreSound(exprs[1..], nodes, i + |PrintExpr(exprs[0], true)|);
    }
  }

  ghost predicate TypeSound(stmt: TypeStmt) {
    forall x <- Declarations.ExprsOf(stmt) :: ExprSound(x)
  }

  lemma TypeIsSound(t: Types, nodes: seq<TokenNode>, i: nat)
    requires WellNodes(nodes) && TypesOk(t)
    ensures TypeSound(TypesAt(t, nodes, i))
  {
    hide WellNodes, ExprOk, ExprSound, ExprAt;
    match t
    case Single(e) => ExprIsSound(e, nodes, i);
    case Group(exprs) => ExprsAreSound(exprs, nodes, i + 1);
  }

  // ---- files -----------------------------------------------------------------------------------------

  ghost predicate FileSound(d: Imports.File) {
    d.Parsed? ==> (forall t <- d.types :: TypeSound(t)) && forall s <- d.services :: ServiceSound(s)
  }

  lemma {:induction false} StmtsAreSound(trees: seq<T.StmtTree>, nodes: seq<TokenNode>, i: nat)
    requires WellNodes(nodes) && i + |T.PrintFile(trees)| <= |nodes|
    requires (forall t <- trees :: T.TreeOk(t)) && AllLegal(T.PrintFile(trees))
    ensures forall t <- TypeStmtsAt(trees, nodes, i) :: TypeSound(t)
    ensures forall s <- ServicesAt(trees, nodes, i) :: ServiceSound(s)
    decreases |trees|
  {
    hide WellNodes, AllLegal, ServiceAt, TypesAt, TypeSound, ServiceSound, T.TreeOk, T.FirstOf, T.PrintAfter;
    if trees == [] {
    } else {
      var t, rest := trees[0], trees[1..];
      assert t in trees;
      LegalSplit([T.FirstOf(t)] + T.PrintAfter(t), T.PrintFile(rest));
      LegalSplit([T.FirstOf(t)], T.PrintAfter(t));
      StmtsAreSound(rest, nodes, i + StmtLength(t));
      StmtIsSound(t, nodes, i + 1);
    }
  }

  lemma StmtIsSound(t: T.StmtTree, nodes: seq<TokenNode>, i: nat)
    requires WellNodes(nodes) && i + |T.PrintAfter(t)| <= |nodes| && T.TreeOk(t) && AllLegal(T.PrintAfter(t))
    ensures t.TypeTree? ==> TypeSound(TypesAt(t.types, nodes, i))
    ensures t.ServiceStmtTree? ==> ServiceSound(ServiceAt(t.service, nodes, i))
  {
    hide WellNodes, AllLegal, T.ServiceOk, T.PrintService, ServiceAt, TypesAt, TypesOk, TypeSound, ServiceSound;
    if t.TypeTree? {
      TypeIsSound(t.types, nodes, i);
    }
    if t.ServiceStmtTree? {
      ServiceIsSound(t.service, nodes, i);
    }
  }

  /** Marks with the words of legal marks are legal. */
  lemma {:induction false} SameWordsLegal(ms: seq<Mark>, a: seq<Mark>, b: seq<Mark>)
    requires AllLegal(ms) && Words(ms) == Words(a) + Words(b)
    ensures AllLegal(a)
    decreases |a|
  {
    hide IsWord, IsIdent;
    if a == [] {
    } else {
      assert Words(a) == [(a[0].kind, a[0].text)] + Words(a[1..]);
      assert Words(ms) != [];
      assert Words(ms)[0] == (ms[0].kind, ms[0].text) && Words(ms)[1..] == Words(ms[1..]);
      assert Words(ms)[1..] == Words(a[1..]) + Words(b);
      SameWordsLegal(ms[1..], a[1..], b);
      assert Legal(a[0]) by { assert Legal(ms[0]); }
      LegalSplit([a[0]], a[1..]);
      assert [a[0]] + a[1..] == a;
    }
  }

  /** What the text of a file declares is sound. */
  lemma FileIsSound(file: string, data: string, resolve: string -> Path)
    ensures FileSound(FileIn(file, data, resolve))
  {
    hide AllLegal, MarksAt, Tokenize, S.ParseFile, T.PrintFile, T.PlainFile, Words, T.TreeOk, Nodes, TypeSound,
      ServiceSound, WellNodes, SyntaxesAt, InfosAt, ImportsAt, TypeStmtsAt, ServicesAt;
    if S.ParseFile(MarksIn(file, data)).Ok? {
      var trees, nodes := TreesIn(file, data), NodesIn(file, data);
      TypeText.ScannedLegal(file, data, START, 0);
      SameWordsLegal(MarksIn(file, data), T.PrintFile(trees), S.ParseFile(MarksIn(file, data)).rest);
      TextNodesAreWell(file, data);
      Aligned(file, data, trees);
      StmtsAreSound(trees, nodes, 0);
    }
  }

  // ---- programs --------------------------------------------------------------------------------------

  ghost predicate TypesSound(types: seq<TypeStmt>) {
    forall x <- Declarations.Exprs(types) :: ExprSound(x)
  }

  ghost predicate ServicesSound(services: seq<Service>) {
    forall s <- services :: ServiceSound(s)
  }

  lemma {:induction false} ExprsSound(types: seq<TypeStmt>)
    requires forall t <- types :: TypeSound(t)
    ensures TypesSound(types)
    decreases |types|
  {
    hide ExprSound, Declarations.ExprsOf;
    if types == [] {
    } else {
      var init, last := types[..|types| - 1], types[|types| - 1];
      assert last in types && forall t :: t in init ==> t in types;
      ExprsSound(init);
    }
  }

  /** What the files of a program declare together is sound, in whatever order they are merged. */
  lemma {:induction false} MergedAreSound(p: Program, order: seq<Path>)
    ensures forall t <- Imports.TypesOf(DiskOf(p), order) :: TypeSound(t)
    ensures forall s <- Imports.ServicesOf(DiskOf(p), order) :: ServiceSound(s)
    decreases |order|
  {
    hide TypeSound, ServiceSound, FileIn;
    if order == [] {
    } else {
      var path := order[0];
      MergedAreSound(p, order[1..]);
      if Imports.Parses(DiskOf(p), path) {
        FileIsSound(p.base(path), p.sources[path], p.resolve(path));
      }
    }
  }

  lemma ProgramIsSound(p: Program, order: seq<Path>)
    ensures TypesSound(Imports.TypesOf(DiskOf(p), order)) && ServicesSound(Imports.ServicesOf(DiskOf(p), order))
  {
    hide TypeSound, ServiceSound, TypesSound, DiskOf;
    MergedAreSound(p, order);
    ExprsSound(Imports.TypesOf(DiskOf(p), order));
  }

  /**
   The checks of a program: its handlers pass exactly if no two of one name and one group stand in different places, and
   its routes exactly if no two of one text, comments included, under one prefix do.
   */
  lemma ChecksOfSources(p: Program, root: Path, order: seq<Path>, w: Writer)
    ensures var services := Imports.ServicesOf(DiskOf(p), order);
            && (Filter.Duplicates(Filter.AllHandlerKeys(services)) == [] <==>
                forall s, r, t, q :: Filter.Serves(services, s, r) && Filter.Serves(services, t, q) ==>
                  !Filter.SameHandler(s, r, t, q))
            && (Filter.Duplicates(Filter.AllRouteKeys(root, services, w)) == [] <==>
                forall s, r, t, q :: Filter.Serves(services, s, r) && Filter.Serves(services, t, q) ==>
                  !Filter.RoutesClash(s, r, t, q, w))
  {
    hide TypesSound, RouteShaped, Filter.Duplicates, Filter.AllHandlerKeys, Filter.AllRouteKeys, Filter.SameHandler,
      Filter.RoutesClash, IsIdent, DiskOf;
    ProgramIsSound(p, order);
    Filter.HandlersDistinct(Imports.ServicesOf(DiskOf(p), order));
    Filter.RoutesDistinct(root, Imports.ServicesOf(DiskOf(p), order), w);
  }
}
