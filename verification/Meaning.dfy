/** What a file declares is what the statements say that the parser returns for it: no more, no less, and in order. */
module Meaning {
  import opened Tokens
  import opened Grammar
  import opened Lexis
  import opened Source
  import opened DataTypes
  import opened Comments
  import opened Declared
  import opened ParseSpec
  import opened PathSpec
  import opened TypeStatements
  import opened Stream
  import opened Files
  import S = StatementSpec
  import T = SyntaxTrees
  import Imports

  // ---- what statements say -----------------------------------------------------------------------------

  /** The values of all imports, in order. */
  function ImportTexts(stmts: seq<S.Stmt>): seq<string> {
    if stmts == [] then []
    else
      (match stmts[0]
       case ImportStmt(OneImport(value)) => [value]
       case ImportStmt(ManyImports(values)) => values
       case _ => []) + ImportTexts(stmts[1..])
  }

  /** The information statements. */
  function Infos(stmts: seq<S.Stmt>): seq<seq<S.KV>> {
    if stmts == [] then [] else (if stmts[0].InfoStmt? then [stmts[0].info] else []) + Infos(stmts[1..])
  }

  function TypeDecls(stmts: seq<S.Stmt>): seq<Types> {
    if stmts == [] then [] else (if stmts[0].TypeStmt? then [stmts[0].types] else []) + TypeDecls(stmts[1..])
  }

  function ServiceDecls(stmts: seq<S.Stmt>): seq<S.Service> {
    if stmts == [] then [] else (if stmts[0].ServiceStmt? then [stmts[0].service] else []) + ServiceDecls(stmts[1..])
  }

  function Syntaxes(stmts: seq<S.Stmt>): seq<string> {
    if stmts == [] then [] else (if stmts[0].SyntaxStmt? then [stmts[0].value] else []) + Syntaxes(stmts[1..])
  }

  predicate AllHandled(items: seq<S.Item>) {
    forall item <- items :: item.handled.Some?
  }

  /** Statements a file may consist of: one of syntax and one of information at most, and every item has a handler. */
  predicate Permitted(stmts: seq<S.Stmt>) {
    |Syntaxes(stmts)| <= 1 && |Infos(stmts)| <= 1 && forall s <- ServiceDecls(stmts) :: AllHandled(s.items)
  }

  /** The routes of the items with the names of their handlers. */
  function RouteDecls(items: seq<S.Item>): seq<(string, S.Route)> {
    if items == [] then []
    else (if items[0].handled.None? then [] else [items[0].handled.value]) + RouteDecls(items[1..])
  }

  // ---- what is declared, without positions and comments ------------------------------------------------

  function TextsOf(ns: seq<Node>): seq<string> {
    if ns == [] then [] else [ns[0].text] + TextsOf(ns[1..])
  }

  function UnquotedAll(values: seq<string>): set<string> {
    set v <- values :: Unquoted(v)
  }

  function KeysOf(list: seq<S.KV>): seq<string> {
    if list == [] then [] else [list[0].key] + KeysOf(list[1..])
  }

  predicate SameExpr(x: TypeExpr, e: NamedType) {
    x.name.text == e.name && x.tp == e.tp
  }

  predicate SameExprs(xs: seq<TypeExpr>, es: seq<NamedType>) {
    |xs| == |es| && forall k :: 0 <= k < |xs| ==> SameExpr(xs[k], es[k])
  }

  predicate SameType(t: TypeStmt, u: Types) {
    match u
    case Single(e) => t.TypeLiteral? && SameExpr(t.expr, e)
    case Group(es) => t.TypeGroup? && SameExprs(t.exprs, es)
  }

  predicate SameTypes(ts: seq<TypeStmt>, us: seq<Types>) {
    |ts| == |us| && forall k :: 0 <= k < |ts| ==> SameType(ts[k], us[k])
  }

  /** The body that a statement gives, if there are parentheses and something in them. */
  function BodyOf(b: Option<Option<S.Body>>): Option<Body> {
    if b.None? || b.value.None? then None else Some(Body(b.value.value.list, b.value.value.star, b.value.value.name))
  }

  predicate IsRouteOf(r: Route, u: (string, S.Route)) {
    && r.handler.text == u.0 && r.verb.token.text == u.1.method_ && r.path.token.text == u.1.path
    && Bare(Request(r)) == BodyOf(u.1.request) && Bare(Response(r)) == BodyOf(u.1.response)
  }

  predicate AreRoutesOf(rs: seq<Route>, us: seq<(string, S.Route)>) {
    |rs| == |us| && forall k :: 0 <= k < |rs| ==> IsRouteOf(rs[k], us[k])
  }

  /** Entry `i` is the first of that key. */
  predicate FirstFor(list: seq<S.KV>, key: string, i: nat) {
    i < |list| && list[i].key == key && forall j :: 0 <= j < i ==> list[j].key != key
  }

  /** The value of the first entry of the key, and nothing if there is none. */
  ghost predicate IsFirstValue(value: string, list: seq<S.KV>, key: string) {
    || (exists i: nat :: FirstFor(list, key, i) && value == list[i].value)
    || (value == "" && forall kv <- list :: kv.key != key)
  }

  /** What the annotation of a service says for a key; without an annotation, nothing. */
  ghost predicate IsAnnotated(value: string, u: S.Service, key: string) {
    if u.server.None? then value == "" else IsFirstValue(value, u.server.value, key)
  }

  ghost predicate SameService(s: Service, u: S.Service) {
    && s.name.token.text == u.name && IsAnnotated(s.group, u, "group:") && IsAnnotated(s.prefix, u, "prefix:")
    && AreRoutesOf(s.routes, RouteDecls(u.items))
  }

  ghost predicate SameServices(ss: seq<Service>, us: seq<S.Service>) {
    |ss| == |us| && forall k :: 0 <= k < |ss| ==> SameService(ss[k], us[k])
  }

  // ---- they are the same -------------------------------------------------------------------------------

  lemma {:induction false} NamesSay(values: seq<string>, nodes: seq<TokenNode>, i: nat)
    ensures TextsOf(NamesAt(values, nodes, i)) == values
    decreases |values|
  {
    if values == [] {
    } else {
      NamesSay(values[1..], nodes, i + 1);
    }
  }

  lemma {:induction false} KeysSay(list: seq<S.KV>, nodes: seq<TokenNode>, i: nat)
    ensures TextsOf(KeysAt(list, nodes, i)) == KeysOf(list)
    decreases |list|
  {
    if list == [] {
    } else {
      KeysSay(list[1..], nodes, i + 2);
    }
  }

  lemma {:induction false} TextsJoin(a: seq<Node>, b: seq<Node>)
    ensures TextsOf(a + b) == TextsOf(a) + TextsOf(b)
  {
    if a == [] {
      assert a + b == b;
    } else {
      assert (a + b)[1..] == a[1..] + b;
      TextsJoin(a[1..], b);
    }
  }

  lemma {:induction false} ExprsSay(exprs: seq<NamedType>, nodes: seq<TokenNode>, i: nat)
    ensures SameExprs(ExprsAt(exprs, nodes, i), exprs)
    decreases |exprs|
  {
    if exprs == [] {
    } else {
      ExprsSay(exprs[1..], nodes, i + |PrintExpr(exprs[0], true)|);
    }
  }

  lemma TypeSays(t: Types, nodes: seq<TokenNode>, i: nat)
    ensures SameType(TypesAt(t, nodes, i), t)
  {
    hide SameExprs;
    if t.Group? {
      ExprsSay(t.exprs, nodes, i + 1);
    }
  }

  lemma RouteSays(h: Node, r: T.RouteTree, nodes: seq<TokenNode>, i: nat)
    ensures IsRouteOf(RouteAt(h, r, nodes, i), (h.text, T.PlainRoute(r)))
  {
    hide Texts, T.PrintBodyStmt;
  }

  lemma {:induction false} RoutesSay(items: seq<T.ItemTree>, nodes: seq<TokenNode>, i: nat)
    ensures AreRoutesOf(RoutesAt(items, nodes, i), RouteDecls(T.PlainItems(items)))
    decreases |items|
  {
    hide RouteAt, IsRouteOf, AreRoutesOf, T.PrintItem, T.PlainRoute, HandlerStart;
    NoRoutes();
    if items == [] {
    } else {
      var item, more := items[0], RoutesAt(items[1..], nodes, i + |T.PrintItem(items[0])|);
      RoutesSay(items[1..], nodes, i + |T.PrintItem(item)|);
      var decls := RouteDecls(T.PlainItems(items[1..]));
      assert T.PlainItems(items)[1..] == T.PlainItems(items[1..]);
      if item.handled.None? {
        assert [] + more == more && [] + decls == decls;
      } else {
        var (name, route) := item.handled.value;
        var h := HandlerStart(item, i);
        RouteSays(NameAt(nodes, h + 1, name), route, nodes, h + 2);
        RoutesCons(RouteAt(NameAt(nodes, h + 1, name), route, nodes, h + 2), (name, T.PlainRoute(route)), more, decls);
      }
    }
  }

  lemma NoRoutes()
    ensures AreRoutesOf([], [])
  {
  }

  lemma RoutesCons(r: Route, u: (string, S.Route), rs: seq<Route>, us: seq<(string, S.Route)>)
    requires IsRouteOf(r, u) && AreRoutesOf(rs, us)
    ensures AreRoutesOf([r] + rs, [u] + us)
  {
    hide IsRouteOf;
  }

  /** The lookup finds the first entry of the key, if there is one. */
  lemma {:induction false} ValueIsFirst(list: seq<S.KV>, key: string, i: nat)
    ensures FirstFor(list, key, i) ==> ValueOf(list, key) == list[i].value
    ensures (forall kv <- list :: kv.key != key) ==> ValueOf(list, key) == ""
    decreases |list|
  {
    if list == [] {
    } else {
      ValueIsFirst(list[1..], key, if i > 0 then i - 1 else 0);
      assert forall kv <- list[1..] :: kv in list;
      if FirstFor(list, key, i) && i > 0 {
        assert list[0].key != key;
      }
    }
  }

  lemma {:induction false} HasFirst(list: seq<S.KV>, key: string) returns (i: nat)
    requires exists kv <- list :: kv.key == key
    ensures FirstFor(list, key, i)
    decreases |list|
  {
    if list[0].key == key {
      i := 0;
    } else {
      var rest := HasFirst(list[1..], key);
      i := rest + 1;
    }
  }

  lemma ValueIsFirstValue(list: seq<S.KV>, key: string)
    ensures IsFirstValue(ValueOf(list, key), list, key)
  {
    hide ValueOf;
    ValueIsFirst(list, key, 0);
    if exists kv <- list :: kv.key == key {
      var i := HasFirst(list, key);
      ValueIsFirst(list, key, i);
      assert FirstFor(list, key, i) && ValueOf(list, key) == list[i].value;
    }
  }

  lemma Annotates(s: T.ServiceTree, key: string)
    ensures IsAnnotated(ServerValue(s, key), T.PlainService(s), key)
  {
    hide ValueOf, T.PlainKVs, T.PlainItems, IsFirstValue;
    if s.server.Some? {
      ValueIsFirstValue(T.PlainKVs(s.server.value), key);
    }
  }

  lemma ServiceSays(s: T.ServiceTree, nodes: seq<TokenNode>, i: nat)
    ensures SameService(ServiceAt(s, nodes, i), T.PlainService(s))
  {
    hide AreRoutesOf, RoutesAt, RouteDecls, T.PlainKVs, T.PrintName, T.Parens, IsAnnotated, ServerValue;
    Annotates(s, "group:");
    Annotates(s, "prefix:");
    RoutesSay(s.items, nodes, NameStart(s, i) + |T.PrintName(s)| + 1);
  }

  /** Of a value in quotes without quotes in it, what is between them. */
  lemma UnquotedIsBody(body: string)
    requires '"' !in body
    ensures Unquoted("\"" + body + "\"") == body
  {
    assert ("\"" + body + "\"")[1..] == body + "\"";
    UnquotedFrom(body);
  }

  lemma {:induction false} UnquotedFrom(body: string)
    requires '"' !in body
    ensures Unquoted(body + "\"") == body
  {
    if body == "" {
      assert Unquoted("\""[1..]) == "";
    } else {
      assert (body + "\"")[1..] == body[1..] + "\"" && body[0] in body && forall c <- body[1..] :: c in body;
      UnquotedFrom(body[1..]);
    }
  }

  lemma {:induction false} ImportsSay(trees: seq<T.StmtTree>, nodes: seq<TokenNode>, i: nat)
    ensures TextsOf(ImportsAt(trees, nodes, i)) == ImportTexts(T.PlainFile(trees))
    decreases |trees|
  {
    hide TextsOf, NamesAt, NameAt, T.PlainService, StmtLength;
    NoTexts();
    if trees == [] {
    } else {
      var t, j := trees[0], i + StmtLength(trees[0]);
      var more := ImportsAt(trees[1..], nodes, j);
      ImportsSay(trees[1..], nodes, j);
      assert T.PlainFile(trees)[1..] == T.PlainFile(trees[1..]);
      if t.ImportTree? {
        ImportSays(t.imports, nodes, i, more);
      } else {
        assert [] + more == more && [] + ImportTexts(T.PlainFile(trees[1..])) == ImportTexts(T.PlainFile(trees[1..]));
      }
    }
  }

  lemma NoTexts()
    ensures TextsOf([]) == []
  {
  }

  predicate SameInfos(keys: seq<seq<Node>>, infos: seq<seq<S.KV>>) {
    |keys| == |infos| && forall k :: 0 <= k < |keys| ==> TextsOf(keys[k]) == KeysOf(infos[k])
  }

  lemma {:induction false} InfosSay(trees: seq<T.StmtTree>, nodes: seq<TokenNode>, i: nat)
    ensures SameInfos(InfosAt(trees, nodes, i), Infos(T.PlainFile(trees)))
    decreases |trees|
  {
    hide TextsOf, KeysOf, KeysAt, T.PlainService, StmtLength;
    if trees == [] {
    } else {
      InfosSay(trees[1..], nodes, i + StmtLength(trees[0]));
      assert T.PlainFile(trees)[1..] == T.PlainFile(trees[1..]);
      if trees[0].InfoTree? {
        KeysSay(trees[0].info, nodes, i + 2);
      }
    }
  }

  lemma {:induction false} TypesSay(trees: seq<T.StmtTree>, nodes: seq<TokenNode>, i: nat)
    ensures SameTypes(TypeStmtsAt(trees, nodes, i), TypeDecls(T.PlainFile(trees)))
    decreases |trees|
  {
    hide SameType, TypesAt, T.PlainService, StmtLength;
    if trees == [] {
    } else {
      TypesSay(trees[1..], nodes, i + StmtLength(trees[0]));
      assert T.PlainFile(trees)[1..] == T.PlainFile(trees[1..]);
      if trees[0].TypeTree? {
        TypeSays(trees[0].types, nodes, i + 1);
      }
    }
  }

  lemma {:induction false} ServicesSay(trees: seq<T.StmtTree>, nodes: seq<TokenNode>, i: nat)
    ensures SameServices(ServicesAt(trees, nodes, i), ServiceDecls(T.PlainFile(trees)))
    decreases |trees|
  {
    hide SameService, ServiceAt, T.PlainService, StmtLength;
    if trees == [] {
    } else {
      ServicesSay(trees[1..], nodes, i + StmtLength(trees[0]));
      assert T.PlainFile(trees)[1..] == T.PlainFile(trees[1..]);
      if trees[0].ServiceStmtTree? {
        ServiceSays(trees[0].service, nodes, i + 1);
      }
    }
  }

  lemma ImportSays(imports: S.Imports, nodes: seq<TokenNode>, i: nat, more: seq<Node>)
    ensures imports.OneImport? ==>
              TextsOf([NameAt(nodes, i + 1, imports.value)] + more) == [imports.value] + TextsOf(more)
    ensures imports.ManyImports? ==>
              TextsOf(NamesAt(imports.values, nodes, i + 2) + more) == imports.values + TextsOf(more)
  {
    if imports.OneImport? {
      assert ([NameAt(nodes, i + 1, imports.value)] + more)[1..] == more;
    } else {
      NamesSay(imports.values, nodes, i + 2);
      TextsJoin(NamesAt(imports.values, nodes, i + 2), more);
    }
  }

  lemma {:induction false} SyntaxesSay(trees: seq<T.StmtTree>, nodes: seq<TokenNode>, i: nat)
    ensures |SyntaxesAt(trees, nodes, i)| == |Syntaxes(T.PlainFile(trees))|
    decreases |trees|
  {
    hide T.PlainService, StmtLength, WordAt;
    if trees == [] {
    } else {
      SyntaxesSay(trees[1..], nodes, i + StmtLength(trees[0]));
      assert T.PlainFile(trees)[1..] == T.PlainFile(trees[1..]);
    }
  }

  predicate TreeHandled(t: T.StmtTree) {
    t.ServiceStmtTree? ==> forall item <- t.service.items :: item.handled.Some?
  }

  lemma {:induction false} ItemsHandled(items: seq<T.ItemTree>)
    ensures AllHandled(T.PlainItems(items)) <==> forall item <- items :: item.handled.Some?
    decreases |items|
  {
    if items == [] {
    } else {
      var more := T.PlainItems(items[1..]);
      ItemsHandled(items[1..]);
      assert items == [items[0]] + items[1..] && T.PlainItems(items) == [T.PlainItem(items[0])] + more;
      assert T.PlainItem(items[0]) in T.PlainItems(items);
      assert forall x :: x in T.PlainItems(items) <==> x == T.PlainItem(items[0]) || x in more;
    }
  }

  lemma {:induction false} HandledSay(trees: seq<T.StmtTree>)
    ensures (forall s <- ServiceDecls(T.PlainFile(trees)) :: AllHandled(s.items)) <==>
            forall t <- trees :: TreeHandled(t)
    decreases |trees|
  {
    hide AllHandled, TreeHandled;
    if trees == [] {
    } else {
      var t := trees[0];
      HandledSay(trees[1..]);
      assert T.PlainFile(trees)[1..] == T.PlainFile(trees[1..]) && trees == [t] + trees[1..];
      TreeSays(t);
    }
  }

  lemma TreeSays(t: T.StmtTree)
    ensures TreeHandled(t) <==> (t.ServiceStmtTree? ==> AllHandled(T.PlainService(t.service).items))
  {
    hide AllHandled;
    if t.ServiceStmtTree? {
      ItemsHandled(t.service.items);
    }
  }

  /** A text is a file exactly if it parses to statements that are permitted, and has a statement or a comment. */
  lemma FileParsesIff(file: string, data: string, resolve: string -> Path)
    ensures FileIn(file, data, resolve).Parsed? <==>
            && S.ParseFile(MarksIn(file, data)).Ok? && Permitted(S.ParseFile(MarksIn(file, data)).value)
            && (S.ParseFile(MarksIn(file, data)).value != [] || CommentsIn(Tokenize(file, data, START)) != [])
  {
    hide MarksIn, NodesIn, S.ParseFile, T.PrintFile, T.TreeOk, SyntaxesAt, InfosAt, ImportsAt, TypeStmtsAt, ServicesAt,
      SyntaxOf, Syntaxes, Infos, ServiceDecls, T.PlainStmt, AllHandled, CommentsIn, Tokenize, TextsOf, KeysOf;
    if S.ParseFile(MarksIn(file, data)).Ok? {
      var trees, nodes := TreesIn(file, data), NodesIn(file, data);
      SyntaxesSay(trees, nodes, 0);
      InfosSay(trees, nodes, 0);
      HandledSay(trees);
      assert Handled(trees) <==> forall t <- trees :: TreeHandled(t);
    }
  }

  /** A file with those statements, which has one information statement at most. */
  ghost predicate FileSays(d: Imports.File, stmts: seq<S.Stmt>, resolve: string -> Path)
    requires d.Parsed?
  {
    && d.imports == (map value <- UnquotedAll(ImportTexts(stmts)) :: resolve(value))
    && TextsOf(d.importValues) == ImportTexts(stmts)
    && TextsOf(d.infoKeys) == (if Infos(stmts) == [] then [] else KeysOf(Infos(stmts)[0])) && |Infos(stmts)| <= 1
    && SameTypes(d.types, TypeDecls(stmts)) && SameServices(d.services, ServiceDecls(stmts))
  }

  /** What the text of a file declares is what the statements that the parser makes of it say. */
  lemma FileSaysStatements(file: string, data: string, resolve: string -> Path)
    requires FileIn(file, data, resolve).Parsed?
    ensures S.ParseFile(MarksIn(file, data)).Ok?
    ensures FileSays(FileIn(file, data, resolve), S.ParseFile(MarksIn(file, data)).value, resolve)
  {
    hide MarksIn, NodesIn, S.ParseFile, T.PrintFile, T.TreeOk, FileOf, T.PlainFile, FileSays;
    TreesSay(TreesIn(file, data), NodesIn(file, data), resolve);
  }

  lemma TreesSay(trees: seq<T.StmtTree>, nodes: seq<TokenNode>, resolve: string -> Path)
    requires FileOf(trees, nodes, resolve).Parsed?
    ensures FileSays(FileOf(trees, nodes, resolve), T.PlainFile(trees), resolve)
  {
    hide SameTypes, SameServices, SyntaxesAt, InfosAt, ImportsAt, TypeStmtsAt, ServicesAt, Handled, SyntaxOf,
      ImportTexts, Infos, TypeDecls, ServiceDecls, T.PlainFile, Unquoted, UnquotedAll, TextsOf, KeysOf;
    ImportsSay(trees, nodes, 0);
    InfosSay(trees, nodes, 0);
    TypesSay(trees, nodes, 0);
    ServicesSay(trees, nodes, 0);
    NoTexts();
    SameTexts(ImportsAt(trees, nodes, 0));
    var d, stmts := FileOf(trees, nodes, resolve), T.PlainFile(trees);
    assert d.imports.Keys == UnquotedAll(ImportTexts(stmts));
  }

  lemma {:induction false} SameTexts(ns: seq<Node>)
    ensures (set n <- ns :: Unquoted(n.text)) == UnquotedAll(TextsOf(ns))
  {
    hide Unquoted;
    if ns == [] {
    } else {
      SameTexts(ns[1..]);
      assert ns == [ns[0]] + ns[1..];
      assert (set n <- ns :: Unquoted(n.text)) == {Unquoted(ns[0].text)} + (set n <- ns[1..] :: Unquoted(n.text));
      assert UnquotedAll(TextsOf(ns)) == {Unquoted(ns[0].text)} + UnquotedAll(TextsOf(ns[1..]));
    }
  }
}
