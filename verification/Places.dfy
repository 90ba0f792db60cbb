/**
 Where the declarations of a file stand: every name, and every word and comment of a route, is taken from the tokens of
 the text that spell it, in their order.
 */
module Places {
  import opened Tokens
  import opened Grammar
  import opened Lexis
  import opened Source
  import opened DataTypes
  import opened Comments
  import opened Declared
  import opened ParseSpec
  import opened PathSpec
  import opened TypeStatements
  import opened Stream
  import opened Formatting
  import opened NodeText
  import opened Files
  import opened NodeFacts
  import opened Alignment
  import S = StatementSpec
  import T = SyntaxTrees
  import Declarations
  import Imports

  // ---- tokens in a text --------------------------------------------------------------------------------

  /** The marks are spelled by the tokens from `i` on. */
  predicate Stand(ms: seq<Mark>, nodes: seq<TokenNode>, i: nat) {
    && i + |ms| <= |nodes|
    && forall k :: 0 <= k < |ms| ==> nodes[i + k].token.kind == ms[k].kind && nodes[i + k].token.text == ms[k].text
  }

  lemma StandSplit(a: seq<Mark>, b: seq<Mark>, nodes: seq<TokenNode>, i: nat)
    requires Stand(a + b, nodes, i)
    ensures Stand(a, nodes, i) && Stand(b, nodes, i + |a|)
  {
    assert forall k :: 0 <= k < |a| ==> (a + b)[k] == a[k];
    assert forall k :: 0 <= k < |b| ==> (a + b)[|a| + k] == b[k] && i + (|a| + k) == (i + |a|) + k;
  }

  lemma StandWord(kind: Kind, text: string, nodes: seq<TokenNode>, i: nat)
    requires Stand([Mark(kind, text, false)], nodes, i)
    ensures i < |nodes| && WordAt(nodes, i, kind, text) == nodes[i]
    ensures nodes[i].token == Token(kind, text, NameAt(nodes, i, text).position)
  {
    var m := [Mark(kind, text, false)][0];
    assert nodes[i + 0].token.kind == m.kind && nodes[i + 0].token.text == m.text;
  }

  /** A name is a token of the text, and stands where that stands. */
  ghost predicate IsToken(n: Node, kind: Kind, nodes: seq<TokenNode>) {
    exists k :: 0 <= k < |nodes| && nodes[k].token == Token(kind, n.text, n.position)
  }

  /** The texts of tokens put together. */
  function TextsIn(nodes: seq<TokenNode>): string {
    if nodes == [] then "" else TextsIn(nodes[..|nodes| - 1]) + nodes[|nodes| - 1].token.text
  }

  lemma {:induction false} StandText(ms: seq<Mark>, nodes: seq<TokenNode>, i: nat)
    requires Stand(ms, nodes, i)
    ensures TextsIn(nodes[i..i + |ms|]) == Texts(ms)
    decreases |ms|
  {
    if ms == [] {
    } else {
      var n := |ms| - 1;
      assert ms[..n] + [ms[n]] == ms;
      StandSplit(ms[..n], [ms[n]], nodes, i);
      StandText(ms[..n], nodes, i);
      assert nodes[i..i + |ms|][..n] == nodes[i..i + n];
      assert nodes[i + n].token.text == ms[n].text;
    }
  }

  /** A word made of the tokens from `a` to `b`: where the first stands, and with the comments behind the last. */
  predicate IsRun(n: TokenNode, nodes: seq<TokenNode>, a: nat, b: nat)
    requires a <= b < |nodes|
  {
    && n.head == [] && n.token.text == TextsIn(nodes[a..b + 1])
    && n.token.position == nodes[a].token.position && n.leading == nodes[b].leading
  }

  // ---- routes ------------------------------------------------------------------------------------------

  /** The tokens of a body, with their comments. */
  function BodyNodes(b: BodyStmt): seq<TokenNode> {
    [b.lparen] + ((if b.body.None? then [] else ExprNodes(b.body.value)) + [b.rparen])
  }

  function ExprNodes(b: BodyExpr): seq<TokenNode> {
    (if b.list.None? then [] else [b.list.value.0] + [b.list.value.1]) +
    ((if b.star.None? then [] else [b.star.value]) + [b.value])
  }

  /** The tokens of the bodies of a route, and of the word between them. */
  function BodiesNodes(r: Route): seq<TokenNode> {
    (if r.request.None? then [] else BodyNodes(r.request.value)) +
    (if r.response.None? then [] else [r.response.value.0] + BodyNodes(r.response.value.1))
  }

  /** `ns` are the tokens of the text from `i` on. */
  predicate Are(ns: seq<TokenNode>, nodes: seq<TokenNode>, i: nat) {
    i + |ns| <= |nodes| && nodes[i..i + |ns|] == ns
  }

  lemma AreJoin(a: seq<TokenNode>, b: seq<TokenNode>, nodes: seq<TokenNode>, i: nat)
    requires Are(a, nodes, i) && Are(b, nodes, i + |a|)
    ensures Are(a + b, nodes, i)
  {
    assert nodes[i..i + |a + b|] == nodes[i..i + |a|] + nodes[i + |a|..i + |a| + |b|];
  }

  lemma AreOne(kind: Kind, text: string, nodes: seq<TokenNode>, i: nat)
    requires Stand([Mark(kind, text, false)], nodes, i)
    ensures Are([WordAt(nodes, i, kind, text)], nodes, i)
  {
    StandWord(kind, text, nodes, i);
  }

  lemma AreNone(nodes: seq<TokenNode>, i: nat)
    requires i <= |nodes|
    ensures Are([], nodes, i)
  {
  }

  /** Token `i` is the method, the one before it the handler; then come the `n` tokens of the path, and the bodies. */
  predicate RouteStands(r: Route, nodes: seq<TokenNode>, i: nat, n: nat)
    requires 0 < i && 0 < n && i + n < |nodes|
  {
    && nodes[i - 1].token == Token(IDENT, r.handler.text, r.handler.position)
    && nodes[i] == r.verb && r.verb.token.kind == IDENT
    && IsRun(r.path, nodes, i + 1, i + n)
    && Are(BodiesNodes(r), nodes, i + n + 1)
  }

  ghost predicate RoutePlaced(r: Route, nodes: seq<TokenNode>) {
    exists i: nat, n: nat :: 0 < i && 0 < n && i + n < |nodes| && RouteStands(r, nodes, i, n)
  }

  lemma ExprIsPlaced(e: S.Body, nodes: seq<TokenNode>, i: nat)
    requires Stand(T.PrintBodyExpr(e), nodes, i + 1)
    ensures Are(ExprNodes(BodyAt(Some(e), nodes, i).body.value), nodes, i + 1)
    ensures |ExprNodes(BodyAt(Some(e), nodes, i).body.value)| == |T.PrintBodyExpr(e)|
  {
    hide Stand, Are, WordAt;
    var list, tail := if e.list then [Sign(LBRACK)] + [Sign(RBRACK)] else [],
                      (if e.star then [Sign(MUL)] else []) + [T.Word(e.name)];
    StandSplit(list, tail, nodes, i + 1);
    StarIsPlaced(e, nodes, i + 1 + |list|);
    var b := BodyAt(Some(e), nodes, i).body.value;
    var rest := (if b.star.None? then [] else [b.star.value]) + [b.value];
    if e.list {
      StandSplit([Sign(LBRACK)], [Sign(RBRACK)], nodes, i + 1);
      AreOne(LBRACK, "[", nodes, i + 1);
      AreOne(RBRACK, "]", nodes, i + 2);
      AreJoin([b.list.value.0], [b.list.value.1], nodes, i + 1);
      AreJoin([b.list.value.0] + [b.list.value.1], rest, nodes, i + 1);
    } else {
      assert [] + rest == rest;
    }
  }

  lemma StarIsPlaced(e: S.Body, nodes: seq<TokenNode>, j: nat)
    requires Stand((if e.star then [Sign(MUL)] else []) + [T.Word(e.name)], nodes, j)
    ensures var v := if e.star then j + 1 else j;
            Are((if e.star then [WordAt(nodes, j, MUL, "*")] else []) + [WordAt(nodes, v, IDENT, e.name)], nodes, j)
  {
    hide Stand, Are, WordAt;
    var star := if e.star then [Sign(MUL)] else [];
    StandSplit(star, [T.Word(e.name)], nodes, j);
    AreOne(IDENT, e.name, nodes, j + |star|);
    if e.star {
      AreOne(MUL, "*", nodes, j);
      AreJoin([WordAt(nodes, j, MUL, "*")], [WordAt(nodes, j + 1, IDENT, e.name)], nodes, j);
    } else {
      assert [] + [WordAt(nodes, j, IDENT, e.name)] == [WordAt(nodes, j, IDENT, e.name)];
    }
  }

  lemma BodyIsPlaced(b: Option<S.Body>, nodes: seq<TokenNode>, i: nat)
    requires Stand(T.PrintBodyStmt(b), nodes, i)
    ensures Are(BodyNodes(BodyAt(b, nodes, i)), nodes, i)
    ensures |BodyNodes(BodyAt(b, nodes, i))| == |T.PrintBodyStmt(b)|
  {
    hide Stand, Are, WordAt, T.PrintBodyExpr, ExprNodes;
    var inner := if b.None? then [] else T.PrintBodyExpr(b.value);
    StandSplit([Sign(LPAREN)], inner + [Sign(RPAREN)], nodes, i);
    StandSplit(inner, [Sign(RPAREN)], nodes, i + 1);
    AreOne(LPAREN, "(", nodes, i);
    var x := BodyAt(b, nodes, i);
    ParenIs(b, nodes, i);
    AreOne(RPAREN, ")", nodes, i + 1 + |inner|);
    var ns := if x.body.None? then [] else ExprNodes(x.body.value);
    if b.None? {
      assert [] + [x.rparen] == [x.rparen];
    } else {
      ExprIsPlaced(b.value, nodes, i);
      AreJoin(ns, [x.rparen], nodes, i + 1);
    }
    AreJoin([x.lparen], ns + [x.rparen], nodes, i);
  }

  lemma ParenIs(b: Option<S.Body>, nodes: seq<TokenNode>, i: nat)
    ensures var x := BodyAt(b, nodes, i);
            && x.lparen == WordAt(nodes, i, LPAREN, "(")
            && x.rparen == WordAt(nodes, i + 1 + (if b.None? then 0 else |T.PrintBodyExpr(b.value)|), RPAREN, ")")
            && (x.body.None? <==> b.None?)
  {
    hide WordAt;
  }

  lemma BodiesArePlaced(h: Node, r: T.RouteTree, nodes: seq<TokenNode>, i: nat)
    requires Stand(T.PrintBodies(r), nodes, i + 1 + |r.path|)
    ensures Are(BodiesNodes(RouteAt(h, r, nodes, i)), nodes, i + 1 + |r.path|)
  {
    hide Stand, Are, WordAt, T.PrintBodyStmt, BodyNodes, BodyAt, JoinedAt, T.PrintReturns;
    var semicolon := if r.semicolon then [Sign(SEMICOLON)] else [];
    var request := if r.request.None? then [] else T.PrintBodyStmt(r.request.value);
    var response, j, k := T.PrintReturns(r.response), i + 1 + |r.path|, RequestEnd(r, i);
    StandSplit(request, response + semicolon, nodes, j);
    StandSplit(response, semicolon, nodes, k);
    var x := RouteAt(h, r, nodes, i);
    var a, b := if x.request.None? then [] else BodyNodes(x.request.value),
                if x.response.None? then [] else [x.response.value.0] + BodyNodes(x.response.value.1);
    if r.request.Some? {
      BodyIsPlaced(r.request.value, nodes, j);
    } else {
      StandBound(request, nodes, j);
      AreNone(nodes, j);
    }
    ResponseIsPlaced(r.response, nodes, k);
    AreJoin(a, b, nodes, j);
  }

  lemma ResponseIsPlaced(b: Option<Option<S.Body>>, nodes: seq<TokenNode>, k: nat)
    requires Stand(T.PrintReturns(b), nodes, k)
    ensures var ns := if b.None? then []
                      else [WordAt(nodes, k, IDENT, "returns")] + BodyNodes(BodyAt(b.value, nodes, k + 1));
            Are(ns, nodes, k)
  {
    hide Stand, Are, WordAt, T.PrintBodyStmt, BodyNodes, BodyAt;
    if b.Some? {
      StandSplit([T.Word("returns")], T.PrintBodyStmt(b.value), nodes, k);
      AreOne(IDENT, "returns", nodes, k);
      BodyIsPlaced(b.value, nodes, k + 1);
      AreJoin([WordAt(nodes, k, IDENT, "returns")], BodyNodes(BodyAt(b.value, nodes, k + 1)), nodes, k);
    } else {
      StandBound(T.PrintReturns(b), nodes, k);
      AreNone(nodes, k);
    }
  }

  lemma StandBound(ms: seq<Mark>, nodes: seq<TokenNode>, i: nat)
    requires Stand(ms, nodes, i)
    ensures i + |ms| <= |nodes|
  {
  }

  lemma RouteIsPlaced(h: Node, r: T.RouteTree, nodes: seq<TokenNode>, i: nat)
    requires Stand(T.PrintRoute(r), nodes, i) && r.path != [] && 0 < i
    requires nodes[i - 1].token == Token(IDENT, h.text, h.position)
    ensures RoutePlaced(RouteAt(h, r, nodes, i), nodes)
  {
    hide Stand, Are, WordAt, T.PrintBodies, BodiesNodes, BodyAt;
    var n := |r.path|;
    StandSplit([T.Word(r.verb)], r.path + T.PrintBodies(r), nodes, i);
    StandSplit(r.path, T.PrintBodies(r), nodes, i + 1);
    StandBound(r.path, nodes, i + 1);
    StandWord(IDENT, r.verb, nodes, i);
    StandText(r.path, nodes, i + 1);
    BodiesArePlaced(h, r, nodes, i);
    assert RouteStands(RouteAt(h, r, nodes, i), nodes, i, n);
  }

  // ---- services ----------------------------------------------------------------------------------------

  lemma {:induction false} RoutesArePlaced(items: seq<T.ItemTree>, nodes: seq<TokenNode>, i: nat)
    requires Stand(T.PrintItems(items), nodes, i) && forall item <- items :: T.ItemTreeOk(item)
    ensures forall r <- RoutesAt(items, nodes, i) :: RoutePlaced(r, nodes)
    decreases |items|
  {
    hide Stand, T.ItemTreeOk, T.PrintItem, RouteAt, RoutePlaced, HandlerStart;
    if items == [] {
    } else {
      var item, rest := items[0], items[1..];
      assert item in items;
      StandSplit(T.PrintItem(item), T.PrintItems(rest), nodes, i);
      RoutesArePlaced(rest, nodes, i + |T.PrintItem(item)|);
      if item.handled.Some? {
        ItemIsPlaced(item, nodes, i);
      }
    }
  }

  lemma ItemIsPlaced(item: T.ItemTree, nodes: seq<TokenNode>, i: nat)
    requires Stand(T.PrintItem(item), nodes, i) && item.handled.Some? && T.ItemTreeOk(item)
    ensures var h := HandlerStart(item, i);
            RoutePlaced(RouteAt(NameAt(nodes, h + 1, item.handled.value.0), item.handled.value.1, nodes, h + 2), nodes)
  {
    hide Stand, T.PrintRoute, RouteAt, RoutePlaced, T.PrintDoc;
    var (name, route) := item.handled.value;
    var doc := if item.doc.None? then [] else [Sign(AT_DOC)] + T.PrintDoc(item.doc.value);
    var first, words := [Sign(if item.brace then RBRACE else AT_HANDLER)], [T.Word(name)];
    assert T.PrintItem(item) == doc + (first + (words + T.PrintRoute(route)));
    StandSplit(doc, first + (words + T.PrintRoute(route)), nodes, i);
    var h := HandlerStart(item, i);
    assert h == i + |doc|;
    StandSplit(first, words + T.PrintRoute(route), nodes, h);
    StandSplit(words, T.PrintRoute(route), nodes, h + 1);
    StandWord(IDENT, name, nodes, h + 1);
    RouteIsPlaced(NameAt(nodes, h + 1, name), route, nodes, h + 2);
  }

  /** The name of a service is one token, or three, and a brace follows it. */
  predicate NameStands(s: Service, nodes: seq<TokenNode>, i: nat, n: nat)
    requires 0 < n && i + n < |nodes|
  {
    IsRun(s.name, nodes, i, i + n - 1) && nodes[i + n].token.kind == LBRACE && nodes[i].token.kind == IDENT
  }

  ghost predicate ServicePlaced(s: Service, nodes: seq<TokenNode>) {
    && (exists i: nat, n: nat :: 0 < n && i + n < |nodes| && NameStands(s, nodes, i, n))
    && forall r <- s.routes :: RoutePlaced(r, nodes)
  }

  lemma ServiceIsPlaced(s: T.ServiceTree, nodes: seq<TokenNode>, i: nat)
    requires Stand(T.PrintService(s), nodes, i) && T.ServiceOk(s)
    ensures ServicePlaced(ServiceAt(s, nodes, i), nodes)
  {
    hide Stand, T.KVsOk, T.ItemTreeOk, T.PrintItems, RoutesAt, T.PrintName, RoutePlaced, T.PrintNamed, IsRun, NameStart;
    NamedStands(s, nodes, i);
    var n, m := NameStart(s, i), |T.PrintName(s)|;
    RoutesArePlaced(s.items, nodes, n + m + 1);
    NameIsPlaced(s, nodes, i);
    assert NameStands(ServiceAt(s, nodes, i), nodes, n, m);
  }

  /** The name of a service, the brace behind it and the items stand where they are looked for. */
  lemma NamedStands(s: T.ServiceTree, nodes: seq<TokenNode>, i: nat)
    requires Stand(T.PrintService(s), nodes, i)
    ensures var n, m := NameStart(s, i), |T.PrintName(s)|;
            && Stand(T.PrintName(s), nodes, n) && n + m < |nodes| && nodes[n + m].token.kind == LBRACE
            && Stand(T.PrintItems(s.items), nodes, n + m + 1)
  {
    hide Stand, T.PrintServerKVs, T.PrintItems, T.PrintName;
    var named, close, n, m := T.PrintNamed(s), [Sign(RBRACE)], NameStart(s, i), |T.PrintName(s)|;
    if s.server.Some? {
      StandSplit(T.Parens(T.PrintServerKVs(s.server.value)), [T.Word("service")] + named, nodes, i);
      StandSplit([T.Word("service")], named, nodes, n - 1);
    }
    StandSplit(T.PrintName(s), [Sign(LBRACE)] + (T.PrintItems(s.items) + close), nodes, n);
    StandSplit([Sign(LBRACE)], T.PrintItems(s.items) + close, nodes, n + m);
    StandSplit(T.PrintItems(s.items), close, nodes, n + m + 1);
    FirstStands(Sign(LBRACE), nodes, n + m);
  }

  lemma NameIsPlaced(s: T.ServiceTree, nodes: seq<TokenNode>, i: nat)
    requires var n := NameStart(s, i); Stand(T.PrintName(s), nodes, n)
    ensures var n, m := NameStart(s, i), |T.PrintName(s)|;
            0 < m && n + m <= |nodes| && IsRun(ServiceAt(s, nodes, i).name, nodes, n, n + m - 1) &&
            nodes[n].token.kind == IDENT
  {
    hide Texts, TextsIn;
    var n, name := NameStart(s, i), T.PrintName(s);
    StandText(name, nodes, n);
    assert nodes[n + 0].token.kind == name[0].kind;
    NameTexts(s);
  }

  lemma NameTexts(s: T.ServiceTree)
    ensures Texts(T.PrintName(s)) == T.PlainService(s).name
  {
    hide Texts;
    var api := if s.api then [Sign(SUB)] + [T.Word("api")] else [];
    T.TextsCons(T.Word(s.name), api);
    T.NoTexts();
    if s.api {
      assert [T.Word("api")] == [T.Word("api")] + [];
      T.TextsCons(Sign(SUB), [T.Word("api")]);
      T.TextsCons(T.Word("api"), []);
    } else {
      assert s.name + "" == s.name;
    }
  }

  // ---- types -------------------------------------------------------------------------------------------

  /** Token `k` is the name; the type is behind it, or behind an equals sign, and its tokens spell it. */
  predicate ExprStands(e: TypeExpr, nodes: seq<TokenNode>, k: nat)
    requires k < |nodes|
  {
    && nodes[k].token == Token(IDENT, e.name.text, e.name.position)
    && Stand(Print(e.tp, false), e.nodes, 0) && |e.nodes| == |Print(e.tp, false)|
    && (Are(e.nodes, nodes, k + 1) ||
        (k + 1 < |nodes| && nodes[k + 1].token.kind == ASSIGN && Are(e.nodes, nodes, k + 2)))
  }

  ghost predicate ExprPlaced(e: TypeExpr, nodes: seq<TokenNode>) {
    exists k: nat :: k < |nodes| && ExprStands(e, nodes, k)
  }

  lemma ExprAtIsPlaced(e: NamedType, later: bool, nodes: seq<TokenNode>, i: nat)
    requires Stand(PrintExpr(e, later), nodes, i)
    ensures ExprPlaced(ExprAt(e, nodes, i), nodes)
  {
    hide Stand, Print, Are;
    var assign, tp := if e.assign then [Sign(ASSIGN)] else [], Print(e.tp, false);
    StandSplit([Mark(IDENT, e.name, later)], assign + tp, nodes, i);
    StandSplit(assign, tp, nodes, i + 1);
    FirstStands(Mark(IDENT, e.name, later), nodes, i);
    if e.assign {
      FirstStands(Sign(ASSIGN), nodes, i + 1);
    }
    var x := ExprAt(e, nodes, i);
    SliceStands(tp, nodes, i + 1 + |assign|);
    assert x.nodes == Files.Slice(nodes, i + 1 + |assign|, |tp|);
    assert ExprStands(x, nodes, i);
  }

  lemma FirstStands(m: Mark, nodes: seq<TokenNode>, i: nat)
    requires Stand([m], nodes, i)
    ensures i < |nodes| && nodes[i].token.kind == m.kind && nodes[i].token.text == m.text
  {
    assert nodes[i + 0].token.kind == [m][0].kind;
  }

  lemma SliceStands(ms: seq<Mark>, nodes: seq<TokenNode>, i: nat)
    requires Stand(ms, nodes, i)
    ensures var ns := Files.Slice(nodes, i, |ms|); |ns| == |ms| && Are(ns, nodes, i) && Stand(ms, ns, 0)
  {
    var ns := Files.Slice(nodes, i, |ms|);
    assert forall k :: 0 <= k < |ms| ==> ns[k] == nodes[i + k];
  }

  lemma {:induction false} ExprsArePlaced(exprs: seq<NamedType>, nodes: seq<TokenNode>, i: nat)
    requires Stand(PrintExprs(exprs), nodes, i)
    ensures forall x <- ExprsAt(exprs, nodes, i) :: ExprPlaced(x, nodes)
    decreases |exprs|
  {
    hide Stand, ExprAt, ExprPlaced, PrintExpr;
    if exprs == [] {
    } else {
      StandSplit(PrintExpr(exprs[0], true), PrintExprs(exprs[1..]), nodes, i);
      ExprAtIsPlaced(exprs[0], true, nodes, i);
      ExprsArePlaced(exprs[1..], nodes, i + |PrintExpr(exprs[0], true)|);
    }
  }

  ghost predicate TypePlaced(t: TypeStmt, nodes: seq<TokenNode>) {
    forall x <- Declarations.ExprsOf(t) :: ExprPlaced(x, nodes)
  }

  lemma TypeIsPlaced(t: Types, nodes: seq<TokenNode>, i: nat)
    requires Stand(PrintTypes(t), nodes, i)
    ensures TypePlaced(TypesAt(t, nodes, i), nodes)
  {
    hide Stand, ExprAt, ExprPlaced, PrintExpr;
    match t
    case Single(e) => ExprAtIsPlaced(e, false, nodes, i);
    case Group(exprs) =>
      StandSplit([Mark(LPAREN, "(", false)], PrintExprs(exprs) + [Mark(RPAREN, ")", true)], nodes, i);
      StandSplit(PrintExprs(exprs), [Mark(RPAREN, ")", true)], nodes, i + 1);
      ExprsArePlaced(exprs, nodes, i + 1);
  }

  // ---- files -------------------------------------------------------------------------------------------

  lemma {:induction false} NamesArePlaced(values: seq<string>, nodes: seq<TokenNode>, i: nat)
    requires Stand(T.PrintStrings(values), nodes, i)
    ensures forall n <- NamesAt(values, nodes, i) :: IsToken(n, STRING, nodes)
    decreases |values|
  {
    hide Stand;
    if values == [] {
    } else {
      StandSplit([T.StringMark(values[0])], T.PrintStrings(values[1..]), nodes, i);
      StandWord(STRING, values[0], nodes, i);
      NamesArePlaced(values[1..], nodes, i + 1);
    }
  }

  ghost predicate KeysPlaced(keys: seq<Node>, nodes: seq<TokenNode>) {
    forall n <- keys :: IsToken(n, KEY, nodes)
  }

  lemma {:induction false} KeysArePlaced(list: seq<S.KV>, nodes: seq<TokenNode>, i: nat)
    requires Stand(T.PrintKVs(list), nodes, i)
    ensures KeysPlaced(KeysAt(list, nodes, i), nodes)
    decreases |list|
  {
    hide Stand;
    if list == [] {
    } else {
      var value, rest := [T.StringMark(list[0].value)], T.PrintKVs(list[1..]);
      StandSplit([Mark(KEY, list[0].key, false)], value + rest, nodes, i);
      StandSplit(value, rest, nodes, i + 1);
      StandWord(KEY, list[0].key, nodes, i);
      KeysArePlaced(list[1..], nodes, i + 2);
    }
  }

  /** The statements of a file stand in its text. */
  ghost predicate StmtsPlaced(trees: seq<T.StmtTree>, nodes: seq<TokenNode>, i: nat) {
    && (forall n <- ImportsAt(trees, nodes, i) :: IsToken(n, STRING, nodes))
    && (forall keys <- InfosAt(trees, nodes, i) :: KeysPlaced(keys, nodes))
    && (forall t <- TypeStmtsAt(trees, nodes, i) :: TypePlaced(t, nodes))
    && (forall s <- ServicesAt(trees, nodes, i) :: ServicePlaced(s, nodes))
  }

  lemma {:induction false} StmtsArePlaced(trees: seq<T.StmtTree>, nodes: seq<TokenNode>, i: nat)
    requires Stand(T.PrintFile(trees), nodes, i) && forall t <- trees :: T.TreeOk(t)
    ensures StmtsPlaced(trees, nodes, i)
    decreases |trees|
  {
    hide Stand, ServiceAt, TypesAt, TypePlaced, ServicePlaced, T.TreeOk, T.FirstOf, T.PrintAfter, IsToken,
      KeysPlaced;
    if trees == [] {
    } else {
      var t, rest := trees[0], trees[1..];
      assert t in trees;
      StandSplit([T.FirstOf(t)] + T.PrintAfter(t), T.PrintFile(rest), nodes, i);
      StandSplit([T.FirstOf(t)], T.PrintAfter(t), nodes, i);
      StmtsArePlaced(rest, nodes, i + StmtLength(t));
      match t
      case SyntaxTree(_) =>
      case ImportTree(imports) => ImportsArePlaced(imports, nodes, i);
      case InfoTree(info) => InfoIsPlaced(info, nodes, i);
      case TypeTree(types) => TypeTreeIsPlaced(types, nodes, i);
      case ServiceStmtTree(service) => ServiceTreeIsPlaced(service, nodes, i);
    }
  }

  lemma ImportsArePlaced(imports: S.Imports, nodes: seq<TokenNode>, i: nat)
    requires Stand(T.PrintAfter(T.ImportTree(imports)), nodes, i + 1)
    ensures imports.OneImport? ==> IsToken(NameAt(nodes, i + 1, imports.value), STRING, nodes)
    ensures imports.ManyImports? ==> forall n <- NamesAt(imports.values, nodes, i + 2) :: IsToken(n, STRING, nodes)
  {
    hide Stand;
    match imports
    case OneImport(value) => StandWord(STRING, value, nodes, i + 1);
    case ManyImports(values) =>
      StandSplit([Sign(LPAREN)], T.PrintStrings(values) + [Sign(RPAREN)], nodes, i + 1);
      StandSplit(T.PrintStrings(values), [Sign(RPAREN)], nodes, i + 2);
      NamesArePlaced(values, nodes, i + 2);
  }

  lemma InfoIsPlaced(info: seq<S.KV>, nodes: seq<TokenNode>, i: nat)
    requires Stand(T.PrintAfter(T.InfoTree(info)), nodes, i + 1)
    ensures KeysPlaced(KeysAt(info, nodes, i + 2), nodes)
  {
    hide Stand;
    StandSplit([Sign(LPAREN)], T.PrintKVs(info) + [Sign(RPAREN)], nodes, i + 1);
    StandSplit(T.PrintKVs(info), [Sign(RPAREN)], nodes, i + 2);
    KeysArePlaced(info, nodes, i + 2);
  }

  lemma TypeTreeIsPlaced(types: Types, nodes: seq<TokenNode>, i: nat)
    requires Stand(T.PrintAfter(T.TypeTree(types)), nodes, i + 1)
    ensures TypePlaced(TypesAt(types, nodes, i + 1), nodes)
  {
    TypeIsPlaced(types, nodes, i + 1);
  }

  lemma ServiceTreeIsPlaced(s: T.ServiceTree, nodes: seq<TokenNode>, i: nat)
    requires Stand(T.PrintAfter(T.ServiceStmtTree(s)), nodes, i + 1) && T.TreeOk(T.ServiceStmtTree(s))
    ensures ServicePlaced(ServiceAt(s, nodes, i + 1), nodes)
  {
    ServiceIsPlaced(s, nodes, i + 1);
  }

  /** The printed value of the syntax: that of the third token, if the first is the word, and else the default. */
  function SyntaxIn(nodes: seq<TokenNode>): string {
    if |nodes| > 2 && nodes[0].token.text == "syntax" then TextOf(nodes[2]) else "\"v1\""
  }

  /** What a file declares stands in its text: its names, its types, and its services with their routes. */
  ghost predicate FilePlaced(d: Imports.File, nodes: seq<TokenNode>) {
    d.Parsed? ==>
      && d.syntax == SyntaxIn(nodes)
      && (forall n <- d.importValues :: IsToken(n, STRING, nodes))
      && KeysPlaced(d.infoKeys, nodes)
      && (forall t <- d.types :: TypePlaced(t, nodes))
      && (forall s <- d.services :: ServicePlaced(s, nodes))
  }

  lemma FileIsPlaced(file: string, data: string, resolve: string -> Path)
    ensures FilePlaced(FileIn(file, data, resolve), NodesIn(file, data))
  {
    hide MarksAt, Tokenize, S.ParseFile, T.PrintFile, T.PlainFile, Words, T.TreeOk, Nodes, TypePlaced, ServicePlaced,
      SyntaxesAt, InfosAt, ImportsAt, TypeStmtsAt, ServicesAt, IsToken, SyntaxIn, SyntaxOf,
      NodesOfMarks;
    if S.ParseFile(MarksIn(file, data)).Ok? {
      var trees, nodes := TreesIn(file, data), NodesIn(file, data);
      Aligned(file, data, trees);
      assert Stand(T.PrintFile(trees), nodes, 0);
      StmtsArePlaced(trees, nodes, 0);
      if trees == [] {
        NodesAndMarks(Tokenize(file, data, START), 0, false, [], None);
        NoneAtEnd(nodes, MarksIn(file, data), S.ParseFile(MarksIn(file, data)).rest);
      }
      SyntaxIsPlaced(trees, nodes);
      var infos := InfosAt(trees, nodes, 0);
      assert infos != [] ==> infos[0] in infos;
    }
  }

  lemma SyntaxIsPlaced(trees: seq<T.StmtTree>, nodes: seq<TokenNode>)
    requires Stand(T.PrintFile(trees), nodes, 0) && (trees == [] ==> nodes == [])
    ensures SyntaxOf(trees, nodes) == SyntaxIn(nodes)
  {
    hide Stand, TextOf, T.PrintAfter, WordAt;
    if trees != [] {
      var t := trees[0];
      StandSplit([T.FirstOf(t)] + T.PrintAfter(t), T.PrintFile(trees[1..]), nodes, 0);
      StandSplit([T.FirstOf(t)], T.PrintAfter(t), nodes, 0);
      FirstStands(T.FirstOf(t), nodes, 0);
      if t.SyntaxTree? {
        ValueStands(t.value, nodes);
        assert SyntaxesAt(trees, nodes, 0)[0] == WordAt(nodes, 2, STRING, t.value);
      } else {
        assert T.FirstOf(t).text != "syntax";
      }
    }
  }

  lemma ValueStands(value: string, nodes: seq<TokenNode>)
    requires Stand(T.PrintAfter(T.SyntaxTree(value)), nodes, 1)
    ensures |nodes| > 2 && WordAt(nodes, 2, STRING, value) == nodes[2]
  {
    StandSplit([Sign(ASSIGN)], [T.StringMark(value)], nodes, 1);
    StandWord(STRING, value, nodes, 2);
  }

  /** A text of no words has no tokens. */
  lemma NoneAtEnd(nodes: seq<TokenNode>, ms: seq<Mark>, rest: seq<Mark>)
    requires NodesOfMarks(nodes, 0, ms) && Words(ms) == Words(T.PrintFile([])) + Words(rest) && Peek(rest) == EOF
    ensures nodes == []
  {
    assert T.PrintFile([]) == [] && Words([]) == [] && [] + Words(rest) == Words(rest);
    if ms != [] {
      assert Words(ms)[0] == (ms[0].kind, ms[0].text);
      assert rest != [] && Words(rest)[0] == (rest[0].kind, rest[0].text);
    }
  }
}
