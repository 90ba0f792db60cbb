/** The analyzer: it converts the declarations and the services of a program, and fills in the types they name. */
module Analyzer {
  import opened Tokens
  import opened DataTypes
  import opened Declared
  import opened Declarations
  import opened Printer
  import opened Conversion
  import opened Services
  import opened NodeText

  /** Why the types could not be filled in: a declaration does not convert, or a member's type is not defined. */
  datatype FillError = Unsupported | NotDefined

  class Analyzer {
    const stmts: seq<TypeStmt>
    const w: Writer
    var types: seq<SpecType>
    var groups: seq<seq<SpecRoute>>
    var serviceName: string

    constructor (stmts: seq<TypeStmt>, w: Writer)
      ensures this.stmts == stmts && this.w == w && types == [] && groups == [] && serviceName == ""
    {
      this.stmts, this.w, types, groups, serviceName := stmts, w, [], [], "";
    }

    method FindDefinedType(name: string) returns (tp: Option<SpecType>)
      ensures tp == Find(types, name)
    {
      for i := 0 to |types|
        invariant Find(types, name) == Find(types[i..], name)
      {
        if types[i].DefineStruct? && types[i].rawName == name {
          return Some(types[i]);
        }
        assert types[i..][1..] == types[i + 1..];
      }
      tp := None;
    }

    method FillTypeExpr(e: TypeExpr) returns (ok: bool)
      modifies this`types
      ensures ok == StructOf(e, w).Some?
      ensures types == old(types) + if ok then [StructOf(e, w).value] else []
    {
      if !e.tp.StructType? {
        return false;
      }
      var members := MembersOf(e.tp.elems, WriterFor(e, w));
      if members.None? {
        return false;
      }
      types := types + [DefineStruct(e.name.text, members.value)];
      ok := true;
    }

    method FillStmt(stmt: TypeStmt, ghost before: seq<TypeExpr>) returns (ok: bool)
      requires StructsOf(before, w) == Some(types)
      modifies this`types
      ensures StructsOf(before + ExprsOf(stmt), w) == if ok then Some(types) else None
    {
      hide StructOf, StructsOf;
      match stmt {
        case TypeLiteral(expr) =>
          ok := FillTypeExpr(expr);
          StructsMore(before, expr, w);
        case TypeGroup(exprs) =>
          assert before + exprs[..0] == before;
          for j := 0 to |exprs|
            invariant StructsOf(before + exprs[..j], w) == Some(types)
          {
            ghost var init := before + exprs[..j];
            StructsMore(init, exprs[j], w);
            assert before + exprs[..j + 1] == init + [exprs[j]];
            ok := FillTypeExpr(exprs[j]);
            if !ok {
              assert before + exprs == (init + [exprs[j]]) + exprs[j + 1..];
              NoConversion(init + [exprs[j]], exprs[j + 1..], w);
              return;
            }
          }
          assert exprs[..|exprs|] == exprs;
          ok := true;
      }
    }

    /** The members of every type, filled in. */
    method FillAllMembers() returns (filled: Option<seq<SpecType>>)
      ensures filled == FillAll(types, types)
    {
      hide FillMember;
      var all := [];
      for i := 0 to |types|
        invariant FillAll(types, types[..i]) == Some(all)
      {
        assert types[..i + 1][..i] == types[..i];
        if !types[i].DefineStruct? {
          NoFilling(types, types[..i + 1], types[i + 1..]);
          assert types[..i + 1] + types[i + 1..] == types;
          return None;
        }
        var ms, members := types[i].members, [];
        for j := 0 to |ms|
          invariant FillMembers(types, ms[..j]) == Some(members)
        {
          assert ms[..j + 1][..j] == ms[..j];
          var m := FillOne(ms[j]);
          if m.None? {
            NoMembers(types, ms[..j + 1], ms[j + 1..]);
            assert ms[..j + 1] + ms[j + 1..] == ms;
            NoFilling(types, types[..i + 1], types[i + 1..]);
            assert types[..i + 1] + types[i + 1..] == types;
            return None;
          }
          members := members + [m.value];
        }
        assert ms[..|ms|] == ms;
        all := all + [types[i].(members := members)];
      }
      assert types[..|types|] == types;
      filled := Some(all);
    }

    method FillOne(m: Member) returns (r: Option<Member>)
      ensures r == FillMember(types, m)
    {
      if !m.tp.DefineStruct? {
        return Some(m);
      }
      var tp := FindDefinedType(m.tp.rawName);
      r := if tp.None? then None else Some(m.(tp := tp.value));
    }

    /** Converts all declarations, and then fills in the members that name defined types. */
    method FillTypes() returns (err: Option<FillError>)
      requires types == []
      modifies this`types
      ensures err == Some(Unsupported) <==> StructsOf(Exprs(stmts), w).None?
      ensures err == Some(NotDefined) ==> CheckAll(DeclaredNames(Exprs(stmts)), Exprs(stmts)) != []
      ensures err.None? ==> TypesFor(Exprs(stmts), w) == Some(types)
      ensures err.None? ==> AreTypesOf(types, Exprs(stmts), w)
    {
      hide StructOf, CheckAll, AreTypesOf;
      for i := 0 to |stmts|
        invariant StructsOf(Exprs(stmts[..i]), w) == Some(types)
      {
        assert stmts[..i + 1][..i] == stmts[..i];
        var ok := FillStmt(stmts[i], Exprs(stmts[..i]));
        if !ok {
          ExprsConcat(stmts[..i + 1], stmts[i + 1..]);
          assert stmts[..i + 1] + stmts[i + 1..] == stmts;
          NoConversion(Exprs(stmts[..i + 1]), Exprs(stmts[i + 1..]), w);
          return Some(Unsupported);
        }
      }
      assert stmts[..|stmts|] == stmts;
      var filled := FillAllMembers();
      if filled.None? {
        if CheckAll(DeclaredNames(Exprs(stmts)), Exprs(stmts)) == [] {
          CheckedDeclarationsFill(Exprs(stmts), w);
        }
        return Some(NotDefined);
      }
      TypesHold(Exprs(stmts), w);
      types := filled.value;
      err := None;
    }

    // ---- services --------------------------------------------------------------------------------

    /** The type of a body. */
    method GetType(b: BodyExpr, request: bool) returns (r: Converted<SpecType>)
      ensures r == BodyType(types, b, request, w)
      ensures r.Good? ==> IsBodyType(r.value, types, b, w)
    {
      hide ExprText;
      FoundIsFirst(types, b.value.token.text);
      if request && b.list.Some? {
        return Bad(ListRequest);
      }
      var tp;
      var raw, name := ExprText(b, w), b.value.token.text;
      if IsBaseType(name) {
        tp := PrimitiveSpec(name);
      } else {
        var found := FindDefinedType(name);
        if found.None? {
          return Bad(UndefinedBody(name));
        }
        tp := found.value;
      }
      if b.list.Some? {
        return Good(if b.star.Some? then PointerSpec(raw, tp) else ArraySpec(raw, tp));
      }
      r := Good(if b.star.Some? then PointerSpec(raw, tp) else tp);
    }

    /** Looks up a type that is a struct once more, which finds it again. */
    method FillRouteType(tp: Option<SpecType>) returns (r: Option<SpecType>)
      requires tp.Some? && tp.value.DefineStruct? ==> Find(types, tp.value.rawName) == tp
      ensures r == tp
    {
      if tp.Some? && tp.value.DefineStruct? {
        r := FindDefinedType(tp.value.rawName);
      } else {
        r := tp;
      }
    }

    method GetTypeOf(body: Option<BodyExpr>, request: bool) returns (r: Converted<Option<SpecType>>)
      ensures r == BodyTypeOf(types, body, request, w)
      ensures r.Good? && r.value.Some? && r.value.value.DefineStruct? ==> Find(types, r.value.value.rawName) == r.value
    {
      if body.None? {
        return Good(None);
      }
      var tp := GetType(body.value, request);
      FindIsExact(types, body.value.value.token.text);
      r := match tp case Good(t) => Good(Some(t)) case Bad(e) => Bad(e);
    }

    method ConvertRoute(r: Route) returns (route: Converted<SpecRoute>)
      ensures route == RouteSpec(types, r, w)
      ensures route.Good? ==> IsRouteOf(route.value, types, r, w)
    {
      hide BodyTypeOf, Find, IsRouteOf;
      if RouteSpec(types, r, w).Good? {
        RouteHolds(types, r, w);
      }
      var request := GetTypeOf(Request(r), true);
      if request.Bad? {
        return Bad(request.error);
      }
      var response := GetTypeOf(Response(r), false);
      if response.Bad? {
        return Bad(response.error);
      }
      var req := FillRouteType(request.value);
      var resp := FillRouteType(response.value);
      route := Good(SpecRoute(r.handler.text, r.verb.token.text, r.path.token.text, req, resp));
    }

    /** Converts the routes of all services, which must have one name. */
    method FillService(services: seq<Service>) returns (err: Option<ServiceError>)
      requires serviceName == ""
      modifies this`groups, this`serviceName
      ensures match Groups(types, services, w)
              case Bad(e) => err == Some(e)
              case Good(value) => err.None? && (groups, serviceName) == value
      ensures if err.None? then AreGroupsOf(groups, types, services, w) else IsReal(err.value, types, services, w)
    {
      hide RouteSpec, IsRouteOf, AreGroupsOf, IsReal;
      var all := [];
      for i := 0 to |services|
        invariant Groups(types, services[..i], w) == Good((all, serviceName))
      {
        assert services[..i + 1][..i] == services[..i];
        var s, routes := services[i], [];
        ghost var before := serviceName;
        for j := 0 to |s.routes|
          invariant RoutesOf(types, before, s, j, w) == Good((routes, serviceName))
        {
          var route := ConvertRoute(s.routes[j]);
          if route.Bad? || (serviceName != "" && serviceName != NameText(s.name, w)) {
            err := Some(if route.Bad? then route.error else ManyNames);
            RoutesStayBad(types, before, s, j + 1, |s.routes|, w);
            StaysBad(types, services[..i + 1], services[i + 1..], w);
            assert services[..i + 1] + services[i + 1..] == services;
            ErrorIsReal(types, services, w);
            return;
          }
          routes := routes + [route.value];
          serviceName := NameText(s.name, w);
        }
        all := all + [routes];
      }
      assert services[..|services|] == services;
      GroupsHold(types, services, w);
      groups := all;
      err := None;
    }
  }
}
