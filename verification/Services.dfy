/** The conversion of services: the types of the bodies of their routes, which no check before it has looked at. */
module Services {
  import opened Tokens
  import opened DataTypes
  import opened Declared
  import opened Declarations
  import opened Printer
  import opened Conversion
  import opened Comments
  import opened NodeText
  import Filter

  /** Why a service cannot be converted: a request is a list, a body names no type, or the services have two names. */
  datatype ServiceError = ListRequest | UndefinedBody(name: string) | ManyNames

  datatype Converted<T> = Good(value: T) | Bad(error: ServiceError)

  datatype SpecRoute = SpecRoute(
    handler: string, verb: string, path: string, request: Option<SpecType>, response: Option<SpecType>)

  /** The type of a body; of a list of pointers it is a pointer. */
  function BodyType(types: seq<SpecType>, b: BodyExpr, request: bool, w: Writer): Converted<SpecType> {
    var name := b.value.token.text;
    if request && b.list.Some? then Bad(ListRequest)
    else if !IsBaseType(name) && Find(types, name).None? then Bad(UndefinedBody(name))
    else
      var tp := if IsBaseType(name) then PrimitiveSpec(name) else Find(types, name).value;
      Good(if b.star.Some? then PointerSpec(ExprText(b, w), tp)
           else if b.list.Some? then ArraySpec(ExprText(b, w), tp) else tp)
  }

  /** No body, or one in parentheses with nothing in them, has no type. */
  function BodyTypeOf(types: seq<SpecType>, body: Option<BodyExpr>, request: bool, w: Writer)
    : Converted<Option<SpecType>>
  {
    match body
    case None => Good(None)
    case Some(b) => match BodyType(types, b, request, w) case Good(tp) => Good(Some(tp)) case Bad(e) => Bad(e)
  }

  function RouteSpec(types: seq<SpecType>, r: Route, w: Writer): Converted<SpecRoute> {
    match BodyTypeOf(types, Request(r), true, w)
    case Bad(e) => Bad(e)
    case Good(request) =>
      match BodyTypeOf(types, Response(r), false, w)
      case Bad(e) => Bad(e)
      case Good(response) =>
        Good(SpecRoute(r.handler.text, r.verb.token.text, r.path.token.text, request, response))
  }

  /**
   The first `n` routes of a service, when the services before it are called `name`; and what they are called then.
   */
  function RoutesOf(types: seq<SpecType>, name: string, s: Service, n: nat,
      w: Writer): Converted<(seq<SpecRoute>, string)>
    requires n <= |s.routes|
  {
    if n == 0 then Good(([], name))
    else
      match RoutesOf(types, name, s, n - 1, w)
      case Bad(e) => Bad(e)
      case Good((init, before)) =>
        match RouteSpec(types, s.routes[n - 1], w)
        case Bad(e) => Bad(e)
        case Good(route) =>
          var here := NameText(s.name, w);
          if before != "" && before != here then Bad(ManyNames) else Good((init + [route], here))
  }

  /** The routes of all services, and what the services are called. */
  function Groups(types: seq<SpecType>, services: seq<Service>, w: Writer): Converted<(seq<seq<SpecRoute>>, string)> {
    if services == [] then Good(([], ""))
    else
      match Groups(types, services[..|services| - 1], w)
      case Bad(e) => Bad(e)
      case Good((groups, name)) =>
        var s := services[|services| - 1];
        match RoutesOf(types, name, s, |s.routes|, w)
        case Bad(e) => Bad(e)
        case Good((routes, name')) => Good((groups + [routes], name'))
  }

  // ---- what converted services hold --------------------------------------------------------------------

  /** The type of a name: a primitive one if it is built in, and else the first declared struct of that name. */
  predicate IsNamed(tp: SpecType, types: seq<SpecType>, name: string) {
    if IsBaseType(name) then tp == PrimitiveSpec(name)
    else exists i :: 0 <= i < |types| && tp == types[i] && IsFirst(types, name, i)
  }

  /** A body with a star has a pointer to the type that it names, a list without one an array, and others that type. */
  predicate IsBodyType(tp: SpecType, types: seq<SpecType>, b: BodyExpr, w: Writer) {
    var name := b.value.token.text;
    if b.star.Some? then tp.PointerSpec? && tp.rawName == ExprText(b, w) && IsNamed(tp.value, types, name)
    else if b.list.Some? then tp.ArraySpec? && tp.rawName == ExprText(b, w) && IsNamed(tp.value, types, name)
    else IsNamed(tp, types, name)
  }

  predicate IsTypeOf(tp: Option<SpecType>, types: seq<SpecType>, b: Option<BodyExpr>, w: Writer) {
    (tp.Some? <==> b.Some?) && (b.Some? ==> IsBodyType(tp.value, types, b.value, w))
  }

  /** A converted route has the handler, the method, the path and the types of the bodies of the declared one. */
  predicate IsRouteOf(c: SpecRoute, types: seq<SpecType>, r: Route, w: Writer) {
    && c.handler == r.handler.text && c.verb == r.verb.token.text && c.path == r.path.token.text
    && IsTypeOf(c.request, types, Request(r), w) && IsTypeOf(c.response, types, Response(r), w)
  }

  predicate AreRoutesOf(cs: seq<SpecRoute>, types: seq<SpecType>, rs: seq<Route>, w: Writer) {
    |cs| == |rs| && forall k :: 0 <= k < |rs| ==> IsRouteOf(cs[k], types, rs[k], w)
  }

  /** There is a group for each service, and in it a route for each of its routes, in order. */
  predicate AreGroupsOf(groups: seq<seq<SpecRoute>>, types: seq<SpecType>, services: seq<Service>, w: Writer) {
    |groups| == |services| && forall i :: 0 <= i < |services| ==> AreRoutesOf(groups[i], types, services[i].routes, w)
  }

  lemma BodyHolds(types: seq<SpecType>, b: Option<BodyExpr>, request: bool, w: Writer)
    requires BodyTypeOf(types, b, request, w).Good?
    ensures IsTypeOf(BodyTypeOf(types, b, request, w).value, types, b, w)
  {
    hide Find, IsBaseType, ExprText, IsFirst;
    if b.Some? {
      FoundIsFirst(types, b.value.value.token.text);
    }
  }

  lemma RouteHolds(types: seq<SpecType>, r: Route, w: Writer)
    requires RouteSpec(types, r, w).Good?
    ensures IsRouteOf(RouteSpec(types, r, w).value, types, r, w)
  {
    hide BodyTypeOf, IsTypeOf;
    BodyHolds(types, Request(r), true, w);
    BodyHolds(types, Response(r), false, w);
  }

  lemma {:induction false} RoutesHold(types: seq<SpecType>, name: string, s: Service, n: nat, w: Writer)
    requires n <= |s.routes| && RoutesOf(types, name, s, n, w).Good?
    ensures AreRoutesOf(RoutesOf(types, name, s, n, w).value.0, types, s.routes[..n], w)
  {
    hide RouteSpec, IsRouteOf;
    if n == 0 {
    } else {
      RoutesHold(types, name, s, n - 1, w);
      RouteHolds(types, s.routes[n - 1], w);
    }
  }

  /** The groups that services are converted to hold their routes. */
  lemma {:induction false} GroupsHold(types: seq<SpecType>, services: seq<Service>, w: Writer)
    requires Groups(types, services, w).Good?
    ensures AreGroupsOf(Groups(types, services, w).value.0, types, services, w)
  {
    hide RoutesOf, AreRoutesOf;
    if services == [] {
    } else {
      var init, s := services[..|services| - 1], services[|services| - 1];
      GroupsHold(types, init, w);
      RoutesHold(types, Groups(types, init, w).value.1, s, |s.routes|, w);
      assert s.routes[..|s.routes|] == s.routes;
    }
  }

  // ---- when services are converted -------------------------------------------------------------------

  /** A body is fine if it names a type that is built in or declared, and is no list if it is a request. */
  predicate BodyFine(declared: set<string>, body: Option<Body>, request: bool) {
    body.Some? ==> !(request && body.value.list) && (IsBaseType(body.value.name) || body.value.name in declared)
  }

  predicate RouteFine(declared: set<string>, r: Route) {
    BodyFine(declared, Bare(Request(r)), true) && BodyFine(declared, Bare(Response(r)), false)
  }

  /** No service with routes has another name, comments included, than one before it, which has a name. */
  predicate NamesAgree(services: seq<Service>, w: Writer) {
    forall i, j :: 0 <= i < j < |services| && services[i].routes != [] && services[j].routes != [] ==>
                     NameText(services[i].name, w) == "" ||
                     NameText(services[i].name, w) == NameText(services[j].name, w)
  }

  /** The name of the last service that has routes. */
  function LastName(services: seq<Service>, w: Writer): string {
    if services == [] then ""
    else if services[|services| - 1].routes != [] then NameText(services[|services| - 1].name, w)
    else LastName(services[..|services| - 1], w)
  }

  /** The types define exactly the declared names. */
  ghost predicate Defines(types: seq<SpecType>, declared: set<string>) {
    forall name :: Find(types, name).Some? <==> name in declared
  }

  lemma RouteConverts(types: seq<SpecType>, declared: set<string>, r: Route, w: Writer)
    requires Defines(types, declared)
    ensures RouteSpec(types, r, w).Good? <==> RouteFine(declared, r)
  {
    hide Find, IsBaseType, ExprText;
  }

  lemma {:induction false} RoutesConvert(types: seq<SpecType>, declared: set<string>,
      name: string, s: Service, n: nat, w: Writer)
    requires Defines(types, declared) && n <= |s.routes|
    ensures RoutesOf(types, name, s, n, w).Good? <==>
            (forall k :: 0 <= k < n ==> RouteFine(declared, s.routes[k])) &&
            (n > 0 ==> name == "" || name == NameText(s.name, w))
    ensures RoutesOf(types, name, s, n, w).Good? ==>
              var Good((routes, after)) := RoutesOf(types, name, s, n, w);
              |routes| == n && after == if n > 0 then NameText(s.name, w) else name
  {
    hide Defines, RouteSpec, RouteFine;
    if n == 0 {
    } else {
      RoutesConvert(types, declared, name, s, n - 1, w);
      RouteConverts(types, declared, s.routes[n - 1], w);
    }
  }

  /** The names agree exactly if that of each service is the last one before it, if there was one. */
  lemma {:induction false} AgreeWithLast(services: seq<Service>, w: Writer)
    ensures services != [] ==>
              var init, last := services[..|services| - 1], services[|services| - 1];
              (NamesAgree(services, w) <==>
               NamesAgree(init, w) && (last.routes != [] ==>
                 LastName(init, w) == "" || LastName(init, w) == NameText(last.name, w)))
    ensures NamesAgree(services, w) ==>
              forall i :: 0 <= i < |services| && services[i].routes != [] ==>
                            NameText(services[i].name, w) == "" ||
                              NameText(services[i].name, w) == LastName(services, w)
    ensures LastName(services, w) != "" ==>
              exists i :: 0 <= i < |services| && services[i].routes != [] &&
                NameText(services[i].name, w) == LastName(services, w)
  {
    if services == [] {
    } else {
      var n := |services| - 1;
      var init, last := services[..n], services[n];
      AgreeWithLast(init, w);
      if NamesAgree(services, w) && last.routes != [] && LastName(init, w) != "" {
        var i :| 0 <= i < |init| && init[i].routes != [] && NameText(init[i].name, w) == LastName(init, w);
        assert services[i] == init[i];
      }
      if LastName(services, w) != "" && last.routes == [] {
        var i :| 0 <= i < |init| && init[i].routes != [] && NameText(init[i].name, w) == LastName(init, w);
        assert services[i] == init[i];
      }
      assert forall i :: 0 <= i < n ==> services[i] == init[i];
    }
  }

  /**
   Services are converted exactly if every body names a type that is built in or declared, no request is a list, and
   the services with routes have one name.
   */
  lemma {:induction false} ServicesConvert(
      types: seq<SpecType>, declared: set<string>, services: seq<Service>, w: Writer)
    requires Defines(types, declared)
    ensures Groups(types, services, w).Good? <==>
            (forall s, r :: Filter.Serves(services, s, r) ==> RouteFine(declared, r)) && NamesAgree(services, w)
    ensures Groups(types, services, w).Good? ==> Groups(types, services, w).value.1 == LastName(services, w)
  {
    hide Defines, RoutesOf, RouteFine, NamesAgree;
    AgreeWithLast(services, w);
    if services == [] {
      NoServices(w);
    } else {
      var init, last := services[..|services| - 1], services[|services| - 1];
      ServicesConvert(types, declared, init, w);
      RoutesConvert(types, declared, LastName(init, w), last, |last.routes|, w);
      assert forall s, r :: Filter.Serves(services, s, r) <==>
             Filter.Serves(init, s, r) || (s == last && r in last.routes);
      if forall s, r :: Filter.Serves(services, s, r) ==> RouteFine(declared, r) {
        forall k | 0 <= k < |last.routes|
          ensures RouteFine(declared, last.routes[k])
        {
          assert Filter.Serves(services, last, last.routes[k]);
        }
        assert forall s, r :: Filter.Serves(init, s, r) ==> RouteFine(declared, r);
      }
    }
  }

  // ---- what is wrong with services that are not converted ----------------------------------------------

  predicate NamesType(b: Option<BodyExpr>, name: string) {
    b.Some? && b.value.value.token.text == name
  }

  /** Is the error called for by the route? */
  predicate RouteCalls(e: ServiceError, types: seq<SpecType>, r: Route) {
    match e
    case ListRequest => Request(r).Some? && Request(r).value.list.Some?
    case UndefinedBody(name) =>
      (NamesType(Request(r), name) || NamesType(Response(r), name)) && !IsBaseType(name) && Find(types, name).None?
    case ManyNames => false
  }

  /** Is the error called for by a route, or by the names of the services? */
  ghost predicate IsReal(e: ServiceError, types: seq<SpecType>, services: seq<Service>, w: Writer) {
    if e.ManyNames? then !NamesAgree(services, w)
    else exists s, r :: Filter.Serves(services, s, r) && RouteCalls(e, types, r)
  }

  lemma RouteErrorIsReal(types: seq<SpecType>, r: Route, w: Writer)
    requires RouteSpec(types, r, w).Bad?
    ensures RouteCalls(RouteSpec(types, r, w).error, types, r)
  {
    hide Find, IsBaseType, ExprText;
  }

  lemma {:induction false} RoutesErrorIsReal(types: seq<SpecType>, name: string, s: Service, n: nat, w: Writer)
    requires n <= |s.routes| && RoutesOf(types, name, s, n, w).Bad?
    ensures var e := RoutesOf(types, name, s, n, w).error;
            if e.ManyNames? then name != "" && name != NameText(s.name, w) && s.routes != []
            else exists r :: r in s.routes && RouteCalls(e, types, r)
  {
    hide RouteSpec, RouteCalls, Find;
    var before := RoutesOf(types, name, s, n - 1, w);
    if before.Bad? {
      RoutesErrorIsReal(types, name, s, n - 1, w);
    } else if RouteSpec(types, s.routes[n - 1], w).Bad? {
      RouteErrorIsReal(types, s.routes[n - 1], w);
      OnlyRouteErrors(types, s.routes[n - 1], w);
    } else {
      RoutesName(types, name, s, n - 1, w);
    }
  }

  lemma OnlyRouteErrors(types: seq<SpecType>, r: Route, w: Writer)
    requires RouteSpec(types, r, w).Bad?
    ensures !RouteSpec(types, r, w).error.ManyNames?
  {
    hide Find, IsBaseType, ExprText;
  }

  /** What the services are called after some routes of a service. */
  lemma RoutesName(types: seq<SpecType>, name: string, s: Service, n: nat, w: Writer)
    requires n <= |s.routes| && RoutesOf(types, name, s, n, w).Good?
    ensures RoutesOf(types, name, s, n, w).value.1 == if n == 0 then name else NameText(s.name, w)
  {
    hide RouteSpec;
  }

  /** The error that is reported is there. */
  lemma {:induction false} ErrorIsReal(types: seq<SpecType>, services: seq<Service>, w: Writer)
    requires Groups(types, services, w).Bad?
    ensures IsReal(Groups(types, services, w).error, types, services, w)
  {
    hide RoutesOf, RouteCalls, NamesAgree;
    var init, s := services[..|services| - 1], services[|services| - 1];
    assert forall t, r :: Filter.Serves(services, t, r) <==> Filter.Serves(init, t, r) || (t == s && r in s.routes);
    AgreeWithLast(services, w);
    match Groups(types, init, w) {
      case Bad(e) => ErrorIsReal(types, init, w);
      case Good((groups, name)) =>
        LastNameIs(types, init, w);
        RoutesErrorIsReal(types, name, s, |s.routes|, w);
        var e := RoutesOf(types, name, s, |s.routes|, w).error;
        if !e.ManyNames? {
          var r :| r in s.routes && RouteCalls(e, types, r);
          assert Filter.Serves(services, s, r);
        }
    }
  }

  lemma {:induction false} LastNameIs(types: seq<SpecType>, services: seq<Service>, w: Writer)
    requires Groups(types, services, w).Good?
    ensures Groups(types, services, w).value.1 == LastName(services, w)
  {
    hide RoutesOf;
    if services == [] {
    } else {
      var init, s := services[..|services| - 1], services[|services| - 1];
      LastNameIs(types, init, w);
      RoutesName(types, LastName(init, w), s, |s.routes|, w);
    }
  }

  lemma NoServices(w: Writer)
    ensures NamesAgree([], w)
  {
  }

  /** A token without comments. */
  function Plain(kind: Kind, text: string, line: int, column: int): TokenNode {
    TokenNode([], Token(kind, text, Position("a.api", line, column)), [])
  }

  /** `service demo { @handler h get /x (Foo) }`, with the route on line 4. */
  function DemoService(): Service {
    var foo := BodyExpr(None, None, Plain(IDENT, "Foo", 4, 11));
    var body := BodyStmt(Plain(LPAREN, "(", 4, 10), Some(foo), Plain(RPAREN, ")", 4, 14));
    var r := Route(
      Node("h", Position("a.api", 3, 12)), Plain(IDENT, "get", 4, 3), Plain(PATH, "/x", 4, 7), Some(body), None);
    Service(Plain(IDENT, "demo", 2, 9), "", "", [r])
  }

  /** A body that names no declared type passes all checks before the conversion, and fails there. */
  lemma UndefinedBodyFails(types: seq<SpecType>, w: Writer)
    requires Find(types, "Foo").None?
    ensures Groups(types, [DemoService()], w) == Bad(UndefinedBody("Foo"))
  {
    hide ExprText;
    var s := DemoService();
    var r := s.routes[0];
    assert [s][..0] == [] && RouteSpec(types, r, w) == Bad(UndefinedBody("Foo"));
    assert RoutesOf(types, "", s, 0, w) == Good(([], "")) && RoutesOf(types, "", s, 1, w) == Bad(UndefinedBody("Foo"));
  }

  lemma {:induction false} StaysBad(types: seq<SpecType>, a: seq<Service>, b: seq<Service>, w: Writer)
    requires Groups(types, a, w).Bad?
    ensures Groups(types, a + b, w) == Groups(types, a, w)
    decreases |b|
  {
    hide RoutesOf;
    if b == [] {
      assert a + b == a;
    } else {
      assert (a + b)[..|a + b| - 1] == a + b[..|b| - 1];
      StaysBad(types, a, b[..|b| - 1], w);
    }
  }

  lemma {:induction false} RoutesStayBad(types: seq<SpecType>, name: string, s: Service, k: nat, n: nat, w: Writer)
    requires k <= n <= |s.routes| && RoutesOf(types, name, s, k, w).Bad?
    ensures RoutesOf(types, name, s, n, w) == RoutesOf(types, name, s, k, w)
    decreases n
  {
    hide RouteSpec;
    if k == n {
    } else {
      RoutesStayBad(types, name, s, k, n - 1, w);
    }
  }
}
