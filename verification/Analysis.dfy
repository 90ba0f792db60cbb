/** The analysis of a program: imports resolved, declarations checked, types and services converted. */
module Analysis {
  import opened Tokens
  import opened Grammar
  import opened DataTypes
  import opened Declared
  import opened Declarations
  import opened Printer
  import opened Conversion
  import opened Services
  import Analyzer
  import Filter
  import Imports
  import opened Files
  import NodeText
  import Sources

  /** Why a program is rejected. */
  datatype Failure =
    | Unresolvable(error: Imports.Error)
    | DuplicateImport | DuplicateInfo | DuplicateType | DuplicateRoute | Undeclared | Unsupported
    | Inconvertible(service: ServiceError)

  /** No two declarations of one type name stand in different places. */
  ghost predicate TypesUnique(exprs: seq<TypeExpr>) {
    forall d, e :: d in exprs && e in exprs ==> !Filter.Clash(d.name, e.name)
  }

  /** Every type name in use is built in or declared. */
  ghost predicate AllDeclared(exprs: seq<TypeExpr>) {
    forall e, name :: e in exprs && name in NamesIn(e.tp) ==> IsBaseType(name) || name in DeclaredNames(exprs)
  }

  lemma DeclaredIffChecked(exprs: seq<TypeExpr>)
    ensures AllDeclared(exprs) <==> CheckAll(DeclaredNames(exprs), exprs) == []
  {
    hide IsBaseType, DeclaredNames, CheckAll, CheckTypeExpr, NamesIn;
    var declared := DeclaredNames(exprs);
    if CheckAll(declared, exprs) == [] {
      CheckAllOk(declared, exprs);
      forall e, name | e in exprs && name in NamesIn(e.tp)
        ensures IsBaseType(name) || name in declared
      {
        CheckIsExact(declared, e.tp, name);
      }
    } else {
      var e, name := CheckAllFinds(declared, exprs);
      CheckIsExact(declared, e.tp, name);
    }
  }

  /** An error of the check comes from a name in one of the types. */
  lemma {:induction false} CheckAllFinds(declared: set<string>, exprs: seq<TypeExpr>)
      returns (e: TypeExpr, name: string)
    requires CheckAll(declared, exprs) != []
    ensures e in exprs && name in CheckTypeExpr(declared, e.tp)
  {
    hide CheckTypeExpr;
    var init, last := exprs[..|exprs| - 1], exprs[|exprs| - 1];
    if CheckAll(declared, init) != [] {
      e, name := CheckAllFinds(declared, init);
    } else {
      e, name := last, CheckTypeExpr(declared, last.tp)[0];
    }
  }

  /** Handlers and routes pass the check. */
  predicate RoutesPass(root: Imports.Path, services: seq<Service>, w: Writer) {
    && Filter.Duplicates(Filter.AllHandlerKeys(services)) == []
    && Filter.Duplicates(Filter.AllRouteKeys(root, services, w)) == []
  }

  /** The first thing that is wrong with a program that resolves, in the order in which the analysis looks. */
  ghost function FirstFault(
    root: Imports.Path, file: Imports.File, exprs: seq<TypeExpr>, services: seq<Service>, w: Writer)
    : Option<Failure>
    requires file.Parsed?
  {
    if !Filter.NoneClash(file.importValues) then Some(DuplicateImport)
    else if !Filter.NoneClash(file.infoKeys) then Some(DuplicateInfo)
    else if !TypesUnique(exprs) then Some(DuplicateType)
    else if !RoutesPass(root, services, w) then Some(DuplicateRoute)
    else if !AllDeclared(exprs) then Some(Undeclared)
    else if StructsOf(exprs, w).None? then Some(Failure.Unsupported)
    else if TypesFor(exprs, w).None? then None
    else match Groups(TypesFor(exprs, w).value, services, w) case Bad(e) => Some(Inconvertible(e)) case Good(_) => None
  }

  /** Once names are declared and declarations converted, the types can always be filled in. */
  lemma AlwaysFilled(exprs: seq<TypeExpr>, w: Writer)
    requires AllDeclared(exprs) && StructsOf(exprs, w).Some?
    ensures TypesFor(exprs, w).Some?
  {
    hide AllDeclared, StructsOf, FillAll, CheckAll;
    DeclaredIffChecked(exprs);
    CheckedDeclarationsFill(exprs, w);
  }

  /**
   Nothing is wrong with a program exactly if names are unique, used names declared, declarations structs of what can be
   converted, bodies names of known types, and the names of services one.
   */
  lemma FaultlessIff(root: Imports.Path, file: Imports.File, exprs: seq<TypeExpr>, services: seq<Service>, w: Writer)
    requires file.Parsed? && Pads(w.pad) && forall e <- exprs :: ExprSlashed(e)
    ensures FirstFault(root, file, exprs, services, w).None? <==>
            && Filter.NoneClash(file.importValues) && Filter.NoneClash(file.infoKeys)
            && TypesUnique(exprs) && RoutesPass(root, services, w) && AllDeclared(exprs)
            && (forall e <- exprs :: ExprConvertible(e, w))
            && (forall s, r :: Filter.Serves(services, s, r) ==> RouteFine(DeclaredNames(exprs), r))
            && NamesAgree(services, w)
  {
    hide Filter.NoneClash, TypesUnique, RoutesPass, AllDeclared, StructsOf, TypesFor, RouteFine, NamesAgree,
      DeclaredNames, Groups, Find, ExprConvertible, ExprSlashed, Pads;
    StructsConvertIff(exprs, w);
    if AllDeclared(exprs) && StructsOf(exprs, w).Some? {
      AlwaysFilled(exprs, w);
      var types := TypesFor(exprs, w).value;
      forall name
        ensures Find(types, name).Some? <==> name in DeclaredNames(exprs)
      {
        TypesHaveNames(exprs, w, name);
      }
      ServicesConvert(types, DeclaredNames(exprs), services, w);
    }
  }

  /** Is the fault there, and none of those that are looked for before it? */
  ghost predicate CalledFor(
    f: Failure, root: Imports.Path, file: Imports.File, exprs: seq<TypeExpr>, services: seq<Service>, w: Writer)
    requires file.Parsed?
  {
    match f
    case Unresolvable(_) => false
    case DuplicateImport => !Filter.NoneClash(file.importValues)
    case DuplicateInfo => Filter.NoneClash(file.importValues) && !Filter.NoneClash(file.infoKeys)
    case DuplicateType => NodesUnique(file) && !TypesUnique(exprs)
    case DuplicateRoute => NodesUnique(file) && TypesUnique(exprs) && !RoutesPass(root, services, w)
    case Undeclared => ChecksPass(root, file, exprs, services, w) && !AllDeclared(exprs)
    case Unsupported =>
      && ChecksPass(root, file, exprs, services, w) && AllDeclared(exprs)
      && exists e :: e in exprs && !ExprConvertible(e, w)
    case Inconvertible(e) =>
      && ChecksPass(root, file, exprs, services, w) && AllDeclared(exprs)
      && (forall e <- exprs :: ExprConvertible(e, w))
      && exists types :: AreTypesOf(types, exprs, w) && IsReal(e, types, services, w)
  }

  ghost predicate NodesUnique(file: Imports.File)
    requires file.Parsed?
  {
    Filter.NoneClash(file.importValues) && Filter.NoneClash(file.infoKeys)
  }

  ghost predicate ChecksPass(
    root: Imports.Path, file: Imports.File, exprs: seq<TypeExpr>, services: seq<Service>, w: Writer)
    requires file.Parsed?
  {
    NodesUnique(file) && TypesUnique(exprs) && RoutesPass(root, services, w)
  }

  /** The fault that is reported is there, and none of those that come before it is. */
  lemma FaultIsReal(root: Imports.Path, file: Imports.File, exprs: seq<TypeExpr>, services: seq<Service>, w: Writer)
    requires file.Parsed? && Pads(w.pad) && forall e <- exprs :: ExprSlashed(e)
    requires FirstFault(root, file, exprs, services, w).Some?
    ensures CalledFor(FirstFault(root, file, exprs, services, w).value, root, file, exprs, services, w)
  {
    hide Filter.NoneClash, TypesUnique, RoutesPass, AllDeclared, StructsOf, TypesFor, Groups, ExprConvertible,
      ExprSlashed, Pads, AreTypesOf, IsReal;
    StructsConvertIff(exprs, w);
    if TypesFor(exprs, w).Some? && Groups(TypesFor(exprs, w).value, services, w).Bad? {
      TypesHold(exprs, w);
      ErrorIsReal(TypesFor(exprs, w).value, services, w);
    }
  }

  /**
   A program of source texts is accepted exactly if it gives no import and no key of its information twice, its types,
   handlers and routes are unique, every type in use is built in or declared, declarations are structs of what can be
   converted, bodies name known types and are no lists in requests, and its services have one name.
   */
  lemma SourcesAccepted(p: Program, root: Path, order: seq<Path>, w: Writer)
    requires Imports.Parses(DiskOf(p), root) && Pads(w.pad)
    ensures var exprs, services := Exprs(Imports.TypesOf(DiskOf(p), order)), Imports.ServicesOf(DiskOf(p), order);
            var file := DiskOf(p)[root];
            FirstFault(root, file, exprs, services, w).None? <==>
            && Filter.NoneClash(file.importValues) && Filter.NoneClash(file.infoKeys)
            && TypesUnique(exprs)
            && (forall s, r, t, q :: Filter.Serves(services, s, r) && Filter.Serves(services, t, q) ==>
                  !Filter.SameHandler(s, r, t, q))
            && (forall s, r, t, q :: Filter.Serves(services, s, r) && Filter.Serves(services, t, q) ==>
                  !Filter.RoutesClash(s, r, t, q, w))
            && AllDeclared(exprs) && (forall e <- exprs :: ExprConvertible(e, w))
            && (forall s, r :: Filter.Serves(services, s, r) ==> RouteFine(DeclaredNames(exprs), r))
            && NamesAgree(services, w)
  {
    hide Filter.NoneClash, TypesUnique, AllDeclared, ExprConvertible, RouteFine, NamesAgree, DeclaredNames, FirstFault,
      Filter.Duplicates, Filter.AllHandlerKeys, Filter.AllRouteKeys, Filter.SameHandler, Filter.RoutesClash,
      DiskOf, Exprs, Imports.TypesOf, Imports.ServicesOf, Pads, ExprSlashed, Sources.ServicesSound;
    Sources.ProgramIsSound(p, order);
    DeclaredSlashed(Imports.TypesOf(DiskOf(p), order));
    FaultlessIff(
      root, DiskOf(p)[root], Exprs(Imports.TypesOf(DiskOf(p), order)), Imports.ServicesOf(DiskOf(p), order), w);
    Sources.ChecksOfSources(p, root, order, w);
  }

  lemma DeclaredSlashed(types: seq<TypeStmt>)
    requires Sources.TypesSound(types)
    ensures forall e <- Exprs(types) :: ExprSlashed(e)
  {
    hide ExprSlashed, WellFormed, IsName, Exprs;
    forall e | e in Exprs(types)
      ensures ExprSlashed(e)
    {
      assert Sources.ExprSound(e);
    }
  }

  /** A name in a body is looked at by no check: the program is accepted by all of them, and cannot be converted. */
  lemma UndefinedBodyIsFound(root: Imports.Path, w: Writer)
    ensures var s := DemoService();
            FirstFault(root, Imports.Parsed(map[], [], [], "\"v1\"", [], [s]), [], [s], w) ==
            Some(Inconvertible(UndefinedBody("Foo")))
  {
    hide NodeText.RouteText;
    OneRoutePasses(root, DemoService(), DemoService().routes[0], w);
    UndefinedBodyFails([], w);
  }

  lemma OneRoutePasses(root: Imports.Path, s: Service, r: Route, w: Writer)
    requires s.routes == [r]
    ensures RoutesPass(root, [s], w)
  {
    hide Filter.RouteNode, Filter.Keyed;
    assert [s][..0] == [] && [r][..0] == [];
    assert Filter.HandlerKeys(s.group, [r]) == [Filter.Keyed(s.group, r.handler)];
    assert Filter.RouteKeys(root, s.prefix, [r], w) == [Filter.Keyed(root, Filter.RouteNode(s.prefix, r, w))];
    OneKeyPasses(Filter.Keyed(s.group, r.handler));
    OneKeyPasses(Filter.Keyed(root, Filter.RouteNode(s.prefix, r, w)));
    assert Filter.AllHandlerKeys([s]) == [] + Filter.HandlerKeys(s.group, [r]);
    assert Filter.AllRouteKeys(root, [s], w) == [] + Filter.RouteKeys(root, s.prefix, [r], w);
  }

  lemma OneKeyPasses(n: Node)
    ensures Filter.Duplicates([] + [n]) == []
  {
    assert [] + [n] == [n] && [n][..0] == [];
  }

  /**
   Analyzes the program that starts at `root`. It is rejected as unresolvable exactly if it does not resolve; else for
   the first thing that is wrong with the declarations of exactly the files that `root` reaches; and if nothing is, the
   types and the services are those declarations converted and filled in.
   */
  method Analyze(disk: Imports.Disk, root: Imports.Path, w: Writer)
    returns (r: Option<Failure>, types: seq<SpecType>, groups: seq<seq<SpecRoute>>, ghost order: seq<Imports.Path>)
    ensures (r.Some? && r.value.Unresolvable?) <==> !Imports.Resolvable(disk, root)
    ensures Imports.Resolvable(disk, root) ==>
              && Imports.ListsReachable(disk, root, order) && Imports.Parses(disk, root)
              && var exprs, services := Exprs(Imports.TypesOf(disk, order)), Imports.ServicesOf(disk, order);
                 && r == FirstFault(root, disk[root], exprs, services, w)
                 && (r.None? ==> TypesFor(exprs, w) == Some(types) && Groups(types, services, w).Good? &&
                                 Groups(types, services, w).value.0 == groups)
                 && (r.None? ==> AreTypesOf(types, exprs, w) && AreGroupsOf(groups, types, services, w))
  {
    hide AreTypesOf, AreGroupsOf, TypesUnique, AllDeclared, RoutesPass, Imports.Resolvable, Imports.ListsReachable,
      Imports.HasCycle,
      Imports.AllParse, Imports.OneSyntax, CheckAll, StructsOf, TypesFor, Exprs, Groups, Filter.NoneClash,
      Filter.Duplicates, Filter.KeyedAll, DeclaredNames;
    types, groups, order := [], [], [];
    var parsed := Imports.Parse(disk, root);
    if parsed.Fails? {
      return Some(Unresolvable(parsed.error)), [], [], [];
    }
    var api := parsed.value;
    order := api.order;
    ghost var exprs := Exprs(api.types);
    Filter.NodesDistinct(root, api.importValues);
    Filter.NodesDistinct(root, api.infoKeys);
    Filter.TypesDistinct(root, exprs);
    DeclaredIffChecked(exprs);
    var errors := Filter.CheckNodes(root, api.importValues);
    if errors != [] {
      return Some(DuplicateImport), [], [], order;
    }
    errors := Filter.CheckNodes(root, api.infoKeys);
    if errors != [] {
      return Some(DuplicateInfo), [], [], order;
    }
    errors := Filter.CheckTypeStmt(root, api.types);
    assert TypesUnique(exprs) <==> errors == [] by { UniqueNow(root, exprs); }
    if errors != [] {
      return Some(DuplicateType), [], [], order;
    }
    var names, handlers, routes := Filter.CheckServiceStmt(root, api.services, w);
    assert RoutesPass(root, api.services, w) <==> handlers == [] && routes == [] by { PassNow(root, api.services, w); }
    if names != [] || handlers != [] || routes != [] {
      return Some(DuplicateRoute), [], [], order;
    }
    var undeclared := CheckTypeDeclareContext(api.types);
    if undeclared != [] {
      return Some(Undeclared), [], [], order;
    }
    r, types, groups := Convert(api.types, api.services, w);
  }

  lemma UniqueNow(root: Imports.Path, exprs: seq<TypeExpr>)
    ensures TypesUnique(exprs) <==> Filter.Duplicates(Filter.KeyedAll(root, Filter.NamesOf(exprs))) == []
  {
    hide Filter.Duplicates;
    Filter.TypesDistinct(root, exprs);
  }

  lemma PassNow(root: Imports.Path, services: seq<Service>, w: Writer)
    ensures RoutesPass(root, services, w) <==>
            Filter.Duplicates(Filter.AllHandlerKeys(services)) == [] &&
            Filter.Duplicates(Filter.AllRouteKeys(root, services, w)) == []
  {
  }

  /** Converts declarations that passed the checks, and the services. */
  method Convert(stmts: seq<TypeStmt>, services: seq<Service>, w: Writer)
    returns (r: Option<Failure>, types: seq<SpecType>, groups: seq<seq<SpecRoute>>)
    requires AllDeclared(Exprs(stmts))
    ensures r == Some(Failure.Unsupported) <==> StructsOf(Exprs(stmts), w).None?
    ensures StructsOf(Exprs(stmts), w).Some? ==>
              && TypesFor(Exprs(stmts), w).Some?
              && match Groups(TypesFor(Exprs(stmts), w).value, services, w)
                 case Bad(e) => r == Some(Inconvertible(e))
                 case Good(value) => r.None? && TypesFor(Exprs(stmts), w) == Some(types) && groups == value.0
    ensures r.None? ==> AreTypesOf(types, Exprs(stmts), w) && AreGroupsOf(groups, types, services, w)
  {
    hide AreTypesOf, AreGroupsOf, IsReal, StructsOf, TypesFor, Exprs, Groups, AllDeclared, CheckAll, DeclaredNames;
    types, groups := [], [];
    var analyzer := new Analyzer.Analyzer(stmts, w);
    DeclaredIffChecked(Exprs(stmts));
    assert analyzer.stmts == stmts && analyzer.w == w;
    var err := analyzer.FillTypes();
    match err {
      case Some(NotDefined) => assert false;
      case Some(Unsupported) => return Some(Failure.Unsupported), [], [];
      case None =>
    }
    AlwaysFilled(Exprs(stmts), w);
    var failed := analyzer.FillService(services);
    if failed.Some? {
      return Some(Inconvertible(failed.value)), [], [];
    }
    r, types, groups := None, analyzer.types, analyzer.groups;
  }
}
