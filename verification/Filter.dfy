/** The checks for duplicate declarations: of types, of handlers in their groups, and of routes. */
module Filter {
  import opened Tokens
  import opened Lexis
  import opened Grammar
  import opened DataTypes
  import opened Declared
  import opened Declarations
  import opened Comments
  import opened Printer
  import opened NodeText
  import opened RouteTrip
  import opened Offsets
  import opened RouteWords

  // ---- what a duplicate is ---------------------------------------------------------------------------

  /** Where the first of the nodes of that text stands. */
  function First(nodes: seq<Node>, text: string): Option<Position> {
    if nodes == [] then None
    else
      var init := First(nodes[..|nodes| - 1], text);
      if init.Some? then init
      else if nodes[|nodes| - 1].text == text then Some(nodes[|nodes| - 1].position) else None
  }

  /** The positions of the nodes that stand elsewhere than the first node of their text. */
  function Duplicates(nodes: seq<Node>): seq<Position> {
    if nodes == [] then []
    else
      var init, last := nodes[..|nodes| - 1], nodes[|nodes| - 1];
      var first := First(init, last.text);
      Duplicates(init) + if first.Some? && first.value != last.position then [last.position] else []
  }

  /** Two declarations of one text in different places. */
  predicate Clash(a: Node, b: Node) {
    a.text == b.text && a.position != b.position
  }

  lemma {:induction false} FirstIsExact(nodes: seq<Node>, text: string)
    ensures First(nodes, text).None? <==> forall n <- nodes :: n.text != text
    ensures First(nodes, text).Some? ==> Node(text, First(nodes, text).value) in nodes
  {
    if nodes == [] {
    } else {
      var init, last := nodes[..|nodes| - 1], nodes[|nodes| - 1];
      FirstIsExact(init, text);
      assert forall n :: n in nodes <==> n in init || n == last;
    }
  }

  /** Node `i` is the first of its text. */
  predicate IsFirst(nodes: seq<Node>, i: nat)
    requires i < |nodes|
  {
    forall j :: 0 <= j < i ==> nodes[j].text != nodes[i].text
  }

  /** The position that is found is that of the first of the nodes. */
  lemma {:induction false} FirstIsFirst(nodes: seq<Node>, i: nat)
    requires i < |nodes| && IsFirst(nodes, i)
    ensures First(nodes, nodes[i].text) == Some(nodes[i].position)
  {
    var init := nodes[..|nodes| - 1];
    FirstIsExact(init, nodes[i].text);
    if i < |init| {
      FirstIsFirst(init, i);
    }
  }

  /** Node `k` stands elsewhere than the first node of its text. */
  predicate IsDuplicate(nodes: seq<Node>, k: nat)
    requires k < |nodes|
  {
    exists i :: 0 <= i < k && IsFirst(nodes, i) && nodes[i].text == nodes[k].text &&
                nodes[i].position != nodes[k].position
  }

  /** The errors are the positions of the nodes with these numbers, in order. */
  predicate AreAt(errors: seq<Position>, nodes: seq<Node>, at: seq<nat>) {
    && |errors| == |at|
    && (forall j :: 0 <= j < |at| ==> at[j] < |nodes| && errors[j] == nodes[at[j]].position)
    && forall j, k :: 0 <= j < k < |at| ==> at[j] < at[k]
  }

  lemma AreAtMore(errors: seq<Position>, nodes: seq<Node>, at: seq<nat>)
    requires nodes != [] && AreAt(errors, nodes[..|nodes| - 1], at)
    ensures AreAt(errors, nodes, at)
    ensures AreAt(errors + [nodes[|nodes| - 1].position], nodes, at + [|nodes| - 1])
  {
  }

  /** An error is recorded for each of the nodes that stand elsewhere than the first of their text, and for no other. */
  lemma {:induction false} DuplicatesAreAt(nodes: seq<Node>) returns (at: seq<nat>)
    ensures AreAt(Duplicates(nodes), nodes, at)
    ensures forall k :: 0 <= k < |nodes| ==> (k in at <==> IsDuplicate(nodes, k))
  {
    hide First, IsDuplicate, AreAt;
    if nodes == [] {
      at := [];
      NoneAt();
    } else {
      var n := |nodes| - 1;
      var init := nodes[..n];
      var before := DuplicatesAreAt(init);
      at := if IsDuplicate(nodes, n) then before + [n] else before;
      LastDuplicate(nodes);
      AreAtMore(Duplicates(init), nodes, before);
      assert Duplicates(init) + [] == Duplicates(init);
      AtBelow(Duplicates(init), init, before);
      forall k | 0 <= k < |nodes|
        ensures k in at <==> IsDuplicate(nodes, k)
      {
        if k < n {
          SameDuplicate(nodes, k);
        }
      }
    }
  }

  lemma NoneAt()
    ensures AreAt([], [], [])
  {
  }

  lemma AtBelow(errors: seq<Position>, nodes: seq<Node>, at: seq<nat>)
    requires AreAt(errors, nodes, at)
    ensures |nodes| !in at
  {
  }

  lemma SameDuplicate(nodes: seq<Node>, k: nat)
    requires k < |nodes| - 1
    ensures IsDuplicate(nodes, k) <==> IsDuplicate(nodes[..|nodes| - 1], k)
  {
    var init := nodes[..|nodes| - 1];
    assert forall i :: 0 <= i < |init| ==> (IsFirst(nodes, i) <==> IsFirst(init, i));
  }

  lemma LastDuplicate(nodes: seq<Node>)
    requires nodes != []
    ensures var n := |nodes| - 1;
            var first := First(nodes[..n], nodes[n].text);
            IsDuplicate(nodes, n) <==> first.Some? && first.value != nodes[n].position
  {
    hide First;
    var n := |nodes| - 1;
    var init, text := nodes[..n], nodes[n].text;
    FirstIsExact(init, text);
    assert forall i :: 0 <= i < n ==> (IsFirst(nodes, i) <==> IsFirst(init, i));
    if First(init, text).Some? {
      var i := Earliest(init, text);
      FirstIsFirst(init, i);
    }
    if IsDuplicate(nodes, n) {
      var i :| 0 <= i < n && IsFirst(nodes, i) && nodes[i].text == text && nodes[i].position != nodes[n].position;
      FirstIsFirst(init, i);
    }
  }

  lemma {:induction false} Earliest(nodes: seq<Node>, text: string) returns (i: nat)
    requires exists n <- nodes :: n.text == text
    ensures i < |nodes| && IsFirst(nodes, i) && nodes[i].text == text
    decreases |nodes|
  {
    var init, last := nodes[..|nodes| - 1], nodes[|nodes| - 1];
    if exists n <- init :: n.text == text {
      i := Earliest(init, text);
    } else {
      i := |init|;
    }
  }

  /** A duplicate is found exactly if two of the nodes have one text and different positions. */
  lemma {:induction false} DuplicatesExact(nodes: seq<Node>)
    ensures Duplicates(nodes) != [] <==> exists a, b :: a in nodes && b in nodes && Clash(a, b)
  {
    if nodes == [] {
    } else {
      var init, last := nodes[..|nodes| - 1], nodes[|nodes| - 1];
      var first := First(init, last.text);
      DuplicatesExact(init);
      FirstIsExact(init, last.text);
      assert forall n :: n in nodes <==> n in init || n == last;
      if first.Some? && first.value != last.position {
        assert Clash(Node(last.text, first.value), last);
      }
      if a, b :| a in nodes && b in nodes && Clash(a, b) && Duplicates(init) == [] {
        var other := if a == last then b else a;
        assert other in init && other.text == last.text && other.position != last.position;
        if first.value == last.position {
          assert Clash(other, Node(last.text, first.value));
        }
      }
    }
  }

  // ---- keys ----------------------------------------------------------------------------------------

  function Keyed(prefix: string, n: Node): Node {
    Node(prefix + "/" + n.text, n.position)
  }

  /** Joined with a slash, a prefix and a text without slashes can be told apart again. */
  lemma JoinIsInjective(p: string, t: string, q: string, u: string)
    requires '/' !in t && '/' !in u
    ensures p + "/" + t == q + "/" + u <==> p == q && t == u
  {
    var a, b := p + "/" + t, q + "/" + u;
    if a == b {
      forall k | |p| < k < |a|
        ensures a[k] != '/'
      {
        assert a[k] == t[k - |p| - 1];
      }
      forall k | |q| < k < |b|
        ensures b[k] != '/'
      {
        assert b[k] == u[k - |q| - 1];
      }
      assert a[|p|] == '/' && b[|q|] == '/';
      assert a[..|p|] == p && b[..|q|] == q && a[|p| + 1..] == t && b[|q| + 1..] == u;
    }
  }

  /** With a slash in the text the joined key can mean two different pairs. */
  lemma JoinIsAmbiguous()
    ensures "a" + "/" + "b/c" == "a/b" + "/" + "c"
  {
    assert "a" + "/" + "b/c" == "a/b/c" == "a/b" + "/" + "c";
  }

  lemma IdentHasNoSlash(t: string)
    requires IsIdent(t)
    ensures '/' !in t
  {
    forall k | 0 <= k < |t|
      ensures t[k] != '/'
    {
      assert Ident.Has(t[k]);
    }
  }

  /** Keys of nodes under one prefix clash exactly if the nodes do. */
  lemma KeyedClash(prefix: string, a: Node, b: Node)
    ensures Clash(Keyed(prefix, a), Keyed(prefix, b)) <==> Clash(a, b)
  {
    var p := prefix + "/";
    assert (p + a.text)[|p|..] == a.text && (p + b.text)[|p|..] == b.text;
  }

  // ---- the filter ----------------------------------------------------------------------------------

  class FilterBuilder {
    const filename: string
    var m: map<string, Position>
    var errors: seq<Position>
    /** All keys checked so far. */
    ghost var seen: seq<Node>

    /** The map holds the first position of every key, and an error was recorded for each duplicate. */
    ghost predicate Valid()
      reads this
    {
      && (forall key :: if key in m then First(seen, key) == Some(m[key]) else First(seen, key) == None)
      && errors == Duplicates(seen)
    }

    constructor (filename: string)
      ensures Valid() && this.filename == filename && seen == []
    {
      this.filename, m, errors, seen := filename, map[], [], [];
    }

    method CheckKey(key: string, position: Position)
      requires Valid()
      modifies this
      ensures Valid() && seen == old(seen) + [Node(key, position)]
    {
      seen := seen + [Node(key, position)];
      assert seen[..|seen| - 1] == old(seen);
      if key in m && m[key] != position {
        errors := errors + [position];
      } else {
        m := m[key := position];
      }
    }

    method Check(nodes: seq<Node>)
      requires Valid()
      modifies this
      ensures Valid() && seen == old(seen) + KeyedAll(filename, nodes)
    {
      for i := 0 to |nodes|
        invariant Valid() && seen == old(seen) + KeyedAll(filename, nodes[..i])
      {
        assert nodes[..i + 1][..i] == nodes[..i];
        CheckKey(filename + "/" + nodes[i].text, nodes[i].position);
      }
      assert nodes[..|nodes|] == nodes;
    }

    method CheckNodeWithPrefix(prefix: string, nodes: seq<Node>)
      requires Valid()
      modifies this
      ensures Valid() && seen == old(seen) + KeyedAll(prefix, nodes)
    {
      for i := 0 to |nodes|
        invariant Valid() && seen == old(seen) + KeyedAll(prefix, nodes[..i])
      {
        assert nodes[..i + 1][..i] == nodes[..i];
        CheckKey(prefix + "/" + nodes[i].text, nodes[i].position);
      }
      assert nodes[..|nodes|] == nodes;
    }
  }

  function KeyedAll(prefix: string, nodes: seq<Node>): seq<Node> {
    if nodes == [] then [] else KeyedAll(prefix, nodes[..|nodes| - 1]) + [Keyed(prefix, nodes[|nodes| - 1])]
  }

  // ---- the checks ----------------------------------------------------------------------------------

  function NamesOf(exprs: seq<TypeExpr>): seq<Node> {
    if exprs == [] then [] else NamesOf(exprs[..|exprs| - 1]) + [exprs[|exprs| - 1].name]
  }

  lemma {:induction false} NamesAre(exprs: seq<TypeExpr>)
    ensures |NamesOf(exprs)| == |exprs| && forall k :: 0 <= k < |exprs| ==> NamesOf(exprs)[k] == exprs[k].name
  {
    if exprs == [] {
    } else {
      NamesAre(exprs[..|exprs| - 1]);
    }
  }

  lemma {:induction false} KeyedAre(prefix: string, nodes: seq<Node>)
    ensures |KeyedAll(prefix, nodes)| == |nodes|
    ensures forall k :: 0 <= k < |nodes| ==> KeyedAll(prefix, nodes)[k] == Keyed(prefix, nodes[k])
  {
    if nodes == [] {
    } else {
      KeyedAre(prefix, nodes[..|nodes| - 1]);
    }
  }

  lemma {:induction false} NamesOfHas(exprs: seq<TypeExpr>, n: Node)
    ensures n in NamesOf(exprs) <==> exists e :: e in exprs && e.name == n
  {
    if exprs == [] {
    } else {
      var init, last := exprs[..|exprs| - 1], exprs[|exprs| - 1];
      NamesOfHas(init, n);
      assert forall e :: e in exprs <==> e in init || e == last;
    }
  }

  lemma {:induction false} KeyedAllHas(prefix: string, nodes: seq<Node>, n: Node)
    ensures n in KeyedAll(prefix, nodes) <==> exists x :: x in nodes && Keyed(prefix, x) == n
  {
    if nodes == [] {
    } else {
      var init, last := nodes[..|nodes| - 1], nodes[|nodes| - 1];
      KeyedAllHas(prefix, init, n);
      assert forall x :: x in nodes <==> x in init || x == last;
    }
  }

  lemma {:induction false} KeyedAllConcat(prefix: string, a: seq<Node>, b: seq<Node>)
    ensures KeyedAll(prefix, a + b) == KeyedAll(prefix, a) + KeyedAll(prefix, b)
    decreases |b|
  {
    if b == [] {
      assert a + b == a;
    } else {
      assert (a + b)[..|a + b| - 1] == a + b[..|b| - 1];
      KeyedAllConcat(prefix, a, b[..|b| - 1]);
    }
  }

  lemma {:induction false} NamesOfConcat(a: seq<TypeExpr>, b: seq<TypeExpr>)
    ensures NamesOf(a + b) == NamesOf(a) + NamesOf(b)
    decreases |b|
  {
    if b == [] {
      assert a + b == a;
    } else {
      assert (a + b)[..|a + b| - 1] == a + b[..|b| - 1];
      NamesOfConcat(a, b[..|b| - 1]);
    }
  }

  /** Checks the names of all declared types. */
  method CheckTypeStmt(filename: string, stmts: seq<TypeStmt>) returns (errors: seq<Position>)
    ensures errors == Duplicates(KeyedAll(filename, NamesOf(Exprs(stmts))))
  {
    hide Duplicates, First, KeyedAll, NamesOf, Exprs;
    var b := new FilterBuilder(filename);
    NoKeys(filename);
    for i := 0 to |stmts|
      invariant fresh(b) && b.Valid() && b.seen == KeyedAll(filename, NamesOf(Exprs(stmts[..i])))
    {
      ExprsMore(stmts, i);
      NamesOfConcat(Exprs(stmts[..i]), ExprsOf(stmts[i]));
      KeyedAllConcat(filename, NamesOf(Exprs(stmts[..i])), NamesOf(ExprsOf(stmts[i])));
      match stmts[i] {
        case TypeLiteral(expr) =>
          OneName(expr);
          b.Check([expr.name]);
        case TypeGroup(exprs) => CheckGroup(b, exprs);
      }
    }
    assert stmts[..|stmts|] == stmts;
    errors := b.errors;
  }

  /** Checks the values of the imports of one file, or the keys of its information block. */
  method CheckNodes(filename: string, nodes: seq<Node>) returns (errors: seq<Position>)
    ensures errors == Duplicates(KeyedAll(filename, nodes))
  {
    hide Duplicates, First;
    var b := new FilterBuilder(filename);
    b.Check(nodes);
    assert [] + KeyedAll(filename, nodes) == KeyedAll(filename, nodes);
    errors := b.errors;
  }

  /** No two nodes of one text stand in different places. */
  ghost predicate NoneClash(nodes: seq<Node>) {
    forall a, b :: a in nodes && b in nodes ==> !Clash(a, b)
  }

  /** Nodes pass the check exactly if no two of one text stand in different places. */
  lemma NodesDistinct(filename: string, nodes: seq<Node>)
    ensures Duplicates(KeyedAll(filename, nodes)) == [] <==> NoneClash(nodes)
  {
    hide Duplicates, Clash, Keyed;
    var keys := KeyedAll(filename, nodes);
    DuplicatesExact(keys);
    if a, b :| a in keys && b in keys && Clash(a, b) {
      KeyedAllHas(filename, nodes, a);
      KeyedAllHas(filename, nodes, b);
      var x, y :| x in nodes && y in nodes && Keyed(filename, x) == a && Keyed(filename, y) == b;
      KeyedClash(filename, x, y);
    }
    if x, y :| x in nodes && y in nodes && Clash(x, y) {
      KeyedAllHas(filename, nodes, Keyed(filename, x));
      KeyedAllHas(filename, nodes, Keyed(filename, y));
      KeyedClash(filename, x, y);
    }
  }

  method CheckGroup(b: FilterBuilder, exprs: seq<TypeExpr>)
    requires b.Valid()
    modifies b
    ensures b.Valid() && b.seen == old(b.seen) + KeyedAll(b.filename, NamesOf(exprs))
  {
    hide Duplicates, First;
    for j := 0 to |exprs|
      invariant b.Valid() && b.seen == old(b.seen) + KeyedAll(b.filename, NamesOf(exprs[..j]))
    {
      assert exprs[..j + 1][..j] == exprs[..j];
      KeyedAllConcat(b.filename, NamesOf(exprs[..j]), [exprs[j].name]);
      b.Check([exprs[j].name]);
    }
    assert exprs[..|exprs|] == exprs;
  }

  lemma NoKeys(filename: string)
    ensures KeyedAll(filename, NamesOf(Exprs([]))) == []
  {
  }

  lemma OneName(e: TypeExpr)
    ensures NamesOf([e]) == [e.name]
  {
    assert [e][..0] == [];
  }

  /** Type names pass the check exactly if no two declarations of one name stand in different places. */
  lemma TypesDistinct(filename: string, exprs: seq<TypeExpr>)
    ensures Duplicates(KeyedAll(filename, NamesOf(exprs))) == [] <==>
            forall d, e :: d in exprs && e in exprs ==> !Clash(d.name, e.name)
  {
    hide Duplicates, Clash, KeyedAll;
    var names := NamesOf(exprs);
    NodesDistinct(filename, names);
    if a, b :| a in names && b in names && Clash(a, b) {
      NamesOfHas(exprs, a);
      NamesOfHas(exprs, b);
    }
    if d, e :| d in exprs && e in exprs && Clash(d.name, e.name) {
      NamesOfHas(exprs, d.name);
      NamesOfHas(exprs, e.name);
    }
  }

  // ---- services ------------------------------------------------------------------------------------

  function HandlerKeys(group: string, routes: seq<Route>): seq<Node> {
    if routes == [] then []
    else HandlerKeys(group, routes[..|routes| - 1]) + [Keyed(group, routes[|routes| - 1].handler)]
  }

  /** The prefix of the service in brackets, and the text of the route with its comments. */
  function RouteKey(prefix: string, r: Route, w: Writer): string {
    "[" + (prefix + ("]:" + RouteText(r, w)))
  }

  /** A route stands where its method does, or the first comment above that. */
  function RouteNode(prefix: string, r: Route, w: Writer): Node {
    Node(RouteKey(prefix, r, w), Pos(r.verb))
  }

  function RouteKeys(filename: string, prefix: string, routes: seq<Route>, w: Writer): seq<Node> {
    if routes == [] then []
    else
      RouteKeys(filename, prefix, routes[..|routes| - 1], w) +
      [Keyed(filename, RouteNode(prefix, routes[|routes| - 1], w))]
  }

  function AllHandlerKeys(services: seq<Service>): seq<Node> {
    if services == [] then []
    else
      var s := services[|services| - 1];
      AllHandlerKeys(services[..|services| - 1]) + HandlerKeys(s.group, s.routes)
  }

  function AllRouteKeys(filename: string, services: seq<Service>, w: Writer): seq<Node> {
    if services == [] then []
    else
      var s := services[|services| - 1];
      AllRouteKeys(filename, services[..|services| - 1], w) + RouteKeys(filename, s.prefix, s.routes, w)
  }

  function TrimSuffix(text: string, suffix: string): string {
    if |suffix| <= |text| && text[|text| - |suffix|..] == suffix then text[..|text| - |suffix|] else text
  }

  /**
   Checks handlers and routes. The names of the services are looked up under themselves, and so never differ from what
   is found: several names in one program are no error here.
   */
  method CheckServiceStmt(filename: string, services: seq<Service>, w: Writer)
    returns (names: seq<Position>, handlers: seq<Position>, routes: seq<Position>)
    ensures names == []
    ensures handlers == Duplicates(AllHandlerKeys(services))
    ensures routes == Duplicates(AllRouteKeys(filename, services, w))
  {
    hide Duplicates, First, HandlerKeys, RouteKeys, TrimSuffix, NameText;
    var handlerChecker := new FilterBuilder(filename);
    var pathChecker := new FilterBuilder(filename);
    var serviceName: map<string, string> := map[];
    names := [];
    for i := 0 to |services|
      invariant fresh(handlerChecker) && fresh(pathChecker) && handlerChecker != pathChecker
      invariant names == [] && forall name <- serviceName :: serviceName[name] == name
      invariant handlerChecker.Valid() && handlerChecker.seen == AllHandlerKeys(services[..i])
      invariant pathChecker.Valid() && pathChecker.seen == AllRouteKeys(filename, services[..i], w)
    {
      assert services[..i + 1][..i] == services[..i];
      var s := services[i];
      var name := TrimSuffix(NameText(s.name, w), "-api");
      if name in serviceName {
        if serviceName[name] != name {
          names := names + [Pos(s.name)];
        }
      } else {
        serviceName := serviceName[name := name];
      }
      CheckRoutes(handlerChecker, pathChecker, s, w);
    }
    assert services[..|services|] == services;
    handlers, routes := handlerChecker.errors, pathChecker.errors;
  }

  method CheckRoutes(handlerChecker: FilterBuilder, pathChecker: FilterBuilder, s: Service, w: Writer)
    requires handlerChecker.Valid() && pathChecker.Valid() && handlerChecker != pathChecker
    modifies handlerChecker, pathChecker
    ensures handlerChecker.Valid() && handlerChecker.seen == old(handlerChecker.seen) + HandlerKeys(s.group, s.routes)
    ensures pathChecker.Valid()
    ensures pathChecker.seen == old(pathChecker.seen) + RouteKeys(pathChecker.filename, s.prefix, s.routes, w)
  {
    hide Duplicates, First, RouteText;
    for j := 0 to |s.routes|
      invariant handlerChecker.Valid() && pathChecker.Valid()
      invariant handlerChecker.seen == old(handlerChecker.seen) + HandlerKeys(s.group, s.routes[..j])
      invariant pathChecker.seen == old(pathChecker.seen) + RouteKeys(pathChecker.filename, s.prefix, s.routes[..j], w)
    {
      assert s.routes[..j + 1][..j] == s.routes[..j];
      var item := s.routes[j];
      OneKey(s.group, item.handler);
      handlerChecker.CheckNodeWithPrefix(s.group, [item.handler]);
      OneKey(pathChecker.filename, RouteNode(s.prefix, item, w));
      pathChecker.Check([RouteNode(s.prefix, item, w)]);
    }
    assert s.routes[..|s.routes|] == s.routes;
  }

  lemma OneKey(prefix: string, n: Node)
    ensures KeyedAll(prefix, [n]) == [Keyed(prefix, n)]
  {
    assert [n][..0] == [];
  }

  lemma {:induction false} HandlerKeysHas(group: string, routes: seq<Route>, n: Node)
    ensures n in HandlerKeys(group, routes) <==> exists r :: r in routes && Keyed(group, r.handler) == n
  {
    hide Keyed;
    if routes == [] {
    } else {
      var init, last := routes[..|routes| - 1], routes[|routes| - 1];
      HandlerKeysHas(group, init, n);
      assert forall r :: r in routes <==> r in init || r == last;
    }
  }

  // ---- the keys, one by one --------------------------------------------------------------------------

  /** The keys of the handlers of a service, route by route. */
  function HandlersOf(s: Service): (keys: seq<Node>)
    ensures |keys| == |s.routes|
  {
    seq(|s.routes|, k requires 0 <= k < |s.routes| => Keyed(s.group, s.routes[k].handler))
  }

  function RoutesOf(filename: string, s: Service, w: Writer): (keys: seq<Node>)
    ensures |keys| == |s.routes|
  {
    seq(|s.routes|, k requires 0 <= k < |s.routes| => Keyed(filename, RouteNode(s.prefix, s.routes[k], w)))
  }

  function HandlerPartsOf(services: seq<Service>): seq<seq<Node>> {
    seq(|services|, i requires 0 <= i < |services| => HandlersOf(services[i]))
  }

  function RoutePartsOf(filename: string, services: seq<Service>, w: Writer): seq<seq<Node>> {
    seq(|services|, i requires 0 <= i < |services| => RoutesOf(filename, services[i], w))
  }

  lemma {:induction false} HandlersAre(s: Service, n: nat)
    requires n <= |s.routes|
    ensures HandlerKeys(s.group, s.routes[..n]) == HandlersOf(s)[..n]
  {
    hide Keyed;
    if n == 0 {
    } else {
      HandlersAre(s, n - 1);
      assert s.routes[..n][..n - 1] == s.routes[..n - 1];
    }
  }

  lemma {:induction false} RoutesAre(filename: string, s: Service, n: nat, w: Writer)
    requires n <= |s.routes|
    ensures RouteKeys(filename, s.prefix, s.routes[..n], w) == RoutesOf(filename, s, w)[..n]
  {
    hide Keyed, RouteNode;
    if n == 0 {
    } else {
      RoutesAre(filename, s, n - 1, w);
      assert s.routes[..n][..n - 1] == s.routes[..n - 1];
    }
  }

  /** The keys that are checked are those of the services in order, and of each service those of its routes in order. */
  lemma {:induction false} HandlersListed(services: seq<Service>)
    ensures exists at :: IsCut(AllHandlerKeys(services), HandlerPartsOf(services), at)
  {
    hide HandlersOf, HandlerKeys, IsCut;
    if services == [] {
      CutNone<Node>();
      assert IsCut(AllHandlerKeys(services), HandlerPartsOf(services), [0]);
    } else {
      var init, last := services[..|services| - 1], services[|services| - 1];
      HandlersListed(init);
      var at :| IsCut(AllHandlerKeys(init), HandlerPartsOf(init), at);
      CutMore(AllHandlerKeys(init), HandlerPartsOf(init), at, HandlersOf(last));
      HandlersAre(last, |last.routes|);
      AllOfIt(last.routes, HandlersOf(last));
      assert HandlerPartsOf(services) == HandlerPartsOf(init) + [HandlersOf(last)];
      assert AllHandlerKeys(services) == AllHandlerKeys(init) + HandlersOf(last);
    }
  }

  lemma {:induction false} RoutesListed(filename: string, services: seq<Service>, w: Writer)
    ensures exists at :: IsCut(AllRouteKeys(filename, services, w), RoutePartsOf(filename, services, w), at)
  {
    hide RoutesOf, RouteKeys, IsCut;
    if services == [] {
      CutNone<Node>();
      assert IsCut(AllRouteKeys(filename, services, w), RoutePartsOf(filename, services, w), [0]);
    } else {
      var init, last := services[..|services| - 1], services[|services| - 1];
      var parts := RoutePartsOf(filename, init, w);
      RoutesListed(filename, init, w);
      var at :| IsCut(AllRouteKeys(filename, init, w), parts, at);
      CutMore(AllRouteKeys(filename, init, w), parts, at, RoutesOf(filename, last, w));
      RoutesAre(filename, last, |last.routes|, w);
      AllOfIt(last.routes, RoutesOf(filename, last, w));
      assert RoutePartsOf(filename, services, w) == parts + [RoutesOf(filename, last, w)];
      assert AllRouteKeys(filename, services, w) == AllRouteKeys(filename, init, w) + RoutesOf(filename, last, w);
    }
  }

  lemma AllOfIt<T, U>(s: seq<T>, t: seq<U>)
    ensures s[..|s|] == s && (|t| == |s| ==> t[..|s|] == t)
  {
  }

  /** Route `r` of service `s`, which is one of `services`. */
  predicate Serves(services: seq<Service>, s: Service, r: Route) {
    s in services && r in s.routes
  }

  lemma {:induction false} AllHandlerKeysHas(services: seq<Service>, n: Node)
    ensures n in AllHandlerKeys(services) <==> exists s, r :: Serves(services, s, r) && Keyed(s.group, r.handler) == n
  {
    hide Keyed;
    if services == [] {
    } else {
      var init, last := services[..|services| - 1], services[|services| - 1];
      AllHandlerKeysHas(init, n);
      HandlerKeysHas(last.group, last.routes, n);
      assert forall s, r :: Serves(services, s, r) <==> Serves(init, s, r) || (s == last && r in last.routes);
    }
  }

  /** Two routes whose handlers have one name in one group, in different places. */
  predicate SameHandler(s: Service, r: Route, t: Service, q: Route) {
    s.group == t.group && Clash(r.handler, q.handler)
  }

  /**
   Handlers pass the check exactly if no two of one name and one group stand in different places, whatever the groups
   are called: a handler is an identifier, so a slash never makes two pairs look like one.
   */
  lemma HandlersDistinct(services: seq<Service>)
    requires forall s, r :: Serves(services, s, r) ==> IsIdent(r.handler.text)
    ensures Duplicates(AllHandlerKeys(services)) == [] <==>
            forall s, r, t, q :: Serves(services, s, r) && Serves(services, t, q) ==> !SameHandler(s, r, t, q)
  {
    hide Duplicates, IsIdent;
    var keys := AllHandlerKeys(services);
    DuplicatesExact(keys);
    if a, b :| a in keys && b in keys && Clash(a, b) {
      AllHandlerKeysHas(services, a);
      AllHandlerKeysHas(services, b);
      var s, r :| Serves(services, s, r) && Keyed(s.group, r.handler) == a;
      var t, q :| Serves(services, t, q) && Keyed(t.group, q.handler) == b;
      HandlerClash(s, r, t, q);
    }
    if s, r, t, q :| Serves(services, s, r) && Serves(services, t, q) && SameHandler(s, r, t, q) {
      HandlerClash(s, r, t, q);
      AllHandlerKeysHas(services, Keyed(s.group, r.handler));
      AllHandlerKeysHas(services, Keyed(t.group, q.handler));
    }
  }

  // ---- the keys of routes ----------------------------------------------------------------------------

  /** Two texts without `stop`, each followed by nothing or by `stop`, can be told apart. */
  lemma {:induction false} SplitAt(a: string, b: string, c: string, d: string, stop: char)
    requires a + b == c + d && stop !in a && stop !in c
    requires (b == "" || b[0] == stop) && (d == "" || d[0] == stop)
    ensures a == c && b == d
  {
    if |a| < |c| {
      SplitFirst(a, b, c, d, stop);
    } else if |c| < |a| {
      SplitFirst(c, d, a, b, stop);
    } else {
      assert a == (a + b)[..|a|] && c == (c + d)[..|c|] && b == (a + b)[|a|..] && d == (c + d)[|c|..];
    }
  }

  lemma SplitFirst(a: string, b: string, c: string, d: string, stop: char)
    requires a + b == c + d && |a| < |c| && (b == "" || b[0] == stop)
    ensures stop in c
  {
    assert |a + b| == |c + d|;
    assert b != [] && (a + b)[|a|] == b[0] && (c + d)[|a|] == c[|a|];
  }

  /** Two routes have one key exactly if they have one text under one prefix, which has no bracket in it. */
  lemma RouteKeyExact(p: string, r: Route, u: string, q: Route, w: Writer)
    requires ']' !in p && ']' !in u
    ensures RouteKey(p, r, w) == RouteKey(u, q, w) <==> p == u && RouteText(r, w) == RouteText(q, w)
  {
    hide RouteText;
    if RouteKey(p, r, w) == RouteKey(u, q, w) {
      var x, y := "]:" + RouteText(r, w), "]:" + RouteText(q, w);
      assert RouteKey(p, r, w)[1..] == p + x && RouteKey(u, q, w)[1..] == u + y;
      SplitAt(p, x, u, y, ']');
      assert x[2..] == RouteText(r, w) && y[2..] == RouteText(q, w);
    }
  }

  lemma {:induction false} RouteKeysHas(filename: string, prefix: string, routes: seq<Route>, n: Node, w: Writer)
    ensures n in RouteKeys(filename, prefix, routes, w) <==>
            exists r :: r in routes && Keyed(filename, RouteNode(prefix, r, w)) == n
  {
    hide Keyed, RouteNode;
    if routes == [] {
    } else {
      var init, last := routes[..|routes| - 1], routes[|routes| - 1];
      RouteKeysHas(filename, prefix, init, n, w);
      assert forall r :: r in routes <==> r in init || r == last;
    }
  }

  lemma {:induction false} AllRouteKeysHas(filename: string, services: seq<Service>, n: Node, w: Writer)
    ensures n in AllRouteKeys(filename, services, w) <==>
            exists s, r :: Serves(services, s, r) && Keyed(filename, RouteNode(s.prefix, r, w)) == n
  {
    hide Keyed, RouteNode;
    if services == [] {
    } else {
      var init, last := services[..|services| - 1], services[|services| - 1];
      AllRouteKeysHas(filename, init, n, w);
      RouteKeysHas(filename, last.prefix, last.routes, n, w);
      assert forall s, r :: Serves(services, s, r) <==> Serves(init, s, r) || (s == last && r in last.routes);
    }
  }

  /** Routes of services with one prefix that have one text, in different places. */
  predicate RoutesClash(s: Service, r: Route, t: Service, q: Route, w: Writer) {
    s.prefix == t.prefix && RouteText(r, w) == RouteText(q, w) && Pos(r.verb) != Pos(q.verb)
  }

  /** Routes pass the check exactly if no two of one text under one prefix stand in different places. */
  lemma RoutesDistinct(filename: string, services: seq<Service>, w: Writer)
    requires forall s, r :: Serves(services, s, r) ==> ']' !in s.prefix
    ensures Duplicates(AllRouteKeys(filename, services, w)) == [] <==>
            forall s, r, t, q :: Serves(services, s, r) && Serves(services, t, q) ==> !RoutesClash(s, r, t, q, w)
  {
    hide Duplicates, Clash, RouteText;
    var keys := AllRouteKeys(filename, services, w);
    DuplicatesExact(keys);
    if a, b :| a in keys && b in keys && Clash(a, b) {
      AllRouteKeysHas(filename, services, a, w);
      AllRouteKeysHas(filename, services, b, w);
      var s, r :| Serves(services, s, r) && Keyed(filename, RouteNode(s.prefix, r, w)) == a;
      var t, q :| Serves(services, t, q) && Keyed(filename, RouteNode(t.prefix, q, w)) == b;
      RouteClash(filename, s, r, t, q, w);
    }
    if s, r, t, q :| Serves(services, s, r) && Serves(services, t, q) && RoutesClash(s, r, t, q, w) {
      RouteClash(filename, s, r, t, q, w);
      AllRouteKeysHas(filename, services, Keyed(filename, RouteNode(s.prefix, r, w)), w);
      AllRouteKeysHas(filename, services, Keyed(filename, RouteNode(t.prefix, q, w)), w);
    }
  }

  lemma RouteClash(filename: string, s: Service, r: Route, t: Service, q: Route, w: Writer)
    requires ']' !in s.prefix && ']' !in t.prefix
    ensures Clash(Keyed(filename, RouteNode(s.prefix, r, w)), Keyed(filename, RouteNode(t.prefix, q, w))) <==>
            RoutesClash(s, r, t, q, w)
  {
    hide RouteKey, RouteText;
    KeyedClash(filename, RouteNode(s.prefix, r, w), RouteNode(t.prefix, q, w));
    RouteKeyExact(s.prefix, r, t.prefix, q, w);
  }

  /** If no comment needs squeezing, routes that clash are the same route, and have the same comments printed. */
  lemma ClashIsSame(s: Service, r: Route, t: Service, q: Route, w: Writer)
    requires RouteShaped(r) && RouteTidy(r) && RouteShaped(q) && RouteTidy(q) && Pads(w.pad)
    ensures RoutesClash(s, r, t, q, w) <==>
            && s.prefix == t.prefix && SameRoute(r, q) && RoutePieces(r) == RoutePieces(q)
            && RouteLeft(r) == RouteLeft(q) && Pos(r.verb) != Pos(q.verb)
  {
    hide RouteShaped, RouteTidy, Pads, RouteText, SameRoute, RoutePieces, RouteLeft;
    RouteTextExact(r, q, w);
    if RouteText(r, w) == RouteText(q, w) {
      PrintedAlikeIsSame(r, q, w);
    }
  }

  // ---- declarations in files of one base name --------------------------------------------------------

  /**
   Positions carry the base name of a file only: two types of one name, in one place of two files of one base name,
   pass the check.
   */
  lemma SameBaseNamePasses(filename: string, name: string, base: string, line: int, column: int)
    ensures var n := Node(name, Position(base, line, column));
            var t, u := TypeExpr(n, StructType([]), []), TypeExpr(n, AnyType, []);
            t != u && Duplicates(KeyedAll(filename, NamesOf([t] + [u]))) == []
  {
    var n := Node(name, Position(base, line, column));
    var t, u := TypeExpr(n, StructType([]), []), TypeExpr(n, AnyType, []);
    TypesDistinct(filename, [t] + [u]);
    assert forall e :: e in [t] + [u] ==> e.name == n;
  }

  lemma HandlerClash(s: Service, r: Route, t: Service, q: Route)
    requires IsIdent(r.handler.text) && IsIdent(q.handler.text)
    ensures Clash(Keyed(s.group, r.handler), Keyed(t.group, q.handler)) <==> SameHandler(s, r, t, q)
  {
    IdentHasNoSlash(r.handler.text);
    IdentHasNoSlash(q.handler.text);
    JoinIsInjective(s.group, r.handler.text, t.group, q.handler.text);
  }
}
