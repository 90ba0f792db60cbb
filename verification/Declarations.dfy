/** The check that every type name in use is declared. */
module Declarations {
  import opened Tokens
  import opened DataTypes
  import opened Declared
  import opened Offsets

  // ---- names in use --------------------------------------------------------------------------------

  /** The names that stand for types in `t`, at any depth. */
  function NamesIn(t: DataType): set<string> {
    match t
    case AnyType | InterfaceType => {}
    case BaseType(name) => {name}
    case ArrayType(_, elem) => NamesIn(elem)
    case SliceType(elem) => NamesIn(elem)
    case MapType(key, value) => NamesIn(key) + NamesIn(value)
    case PointerType(elem) => NamesIn(elem)
    case StructType(elems) => set e, name | e in elems && name in NamesIn(e.tp) :: name
  }

  /** They are the names that stand at some place in the type. */
  lemma {:induction false} NamesStand(t: DataType, name: string, path: seq<nat>)
    requires PartAt(t, path) == Some(BaseType(name))
    ensures name in NamesIn(t)
    decreases t
  {
    if path == [] {
    } else {
      match t
      case ArrayType(_, elem) => NamesStand(elem, name, path[1..]);
      case SliceType(elem) => NamesStand(elem, name, path[1..]);
      case MapType(key, value) => NamesStand(if path[0] == 0 then key else value, name, path[1..]);
      case PointerType(elem) => NamesStand(elem, name, path[1..]);
      case StructType(elems) =>
        NamesStand(elems[path[0]].tp, name, path[1..]);
        assert elems[path[0]] in elems;
    }
  }

  /** Where a name in use stands. */
  lemma {:induction false} PlaceOf(t: DataType, name: string) returns (path: seq<nat>)
    requires name in NamesIn(t)
    ensures PartAt(t, path) == Some(BaseType(name))
    decreases t
  {
    var rest;
    match t
    case BaseType(_) => path := [];
    case ArrayType(_, elem) =>
      rest := PlaceOf(elem, name);
      path := [0] + rest;
    case SliceType(elem) =>
      rest := PlaceOf(elem, name);
      path := [0] + rest;
    case MapType(key, value) =>
      if name in NamesIn(key) {
        rest := PlaceOf(key, name);
        path := [0] + rest;
      } else {
        rest := PlaceOf(value, name);
        path := [1] + rest;
      }
    case PointerType(elem) =>
      rest := PlaceOf(elem, name);
      path := [0] + rest;
    case StructType(elems) =>
      var i :| 0 <= i < |elems| && name in NamesIn(elems[i].tp);
      rest := PlaceOf(elems[i].tp, name);
      path := [i] + rest;
  }

  /** A name is in use exactly if it stands somewhere in the type, at any depth. */
  lemma NamesAreParts(t: DataType, name: string)
    ensures name in NamesIn(t) <==> exists path :: PartAt(t, path) == Some(BaseType(name))
  {
    if name in NamesIn(t) {
      var path := PlaceOf(t, name);
    }
    if path :| PartAt(t, path) == Some(BaseType(name)) {
      NamesStand(t, name, path);
    }
  }

  /** The errors of the check of one type: the names, in order, that are neither built in nor declared. */
  function CheckTypeExpr(declared: set<string>, t: DataType): seq<string>
    decreases t, 0
  {
    match t
    case AnyType | InterfaceType => []
    case BaseType(name) => if IsBaseType(name) || name in declared then [] else [name]
    case ArrayType(_, elem) => CheckTypeExpr(declared, elem)
    case SliceType(elem) => CheckTypeExpr(declared, elem)
    case MapType(key, value) => CheckTypeExpr(declared, key) + CheckTypeExpr(declared, value)
    case PointerType(elem) => CheckTypeExpr(declared, elem)
    case StructType(elems) => CheckElems(declared, elems)
  }

  function CheckElems(declared: set<string>, elems: seq<Elem>): seq<string>
    decreases elems, 0
  {
    if elems == [] then [] else CheckTypeExpr(declared, elems[0].tp) + CheckElems(declared, elems[1..])
  }

  /** The errors are exactly the undeclared names in use. */
  lemma {:induction false} CheckIsExact(declared: set<string>, t: DataType, name: string)
    ensures name in CheckTypeExpr(declared, t) <==> name in NamesIn(t) && !IsBaseType(name) && name !in declared
    decreases t, 0
  {
    hide IsBaseType;
    match t
    case AnyType | InterfaceType | BaseType(_) =>
    case ArrayType(_, elem) => CheckIsExact(declared, elem, name);
    case SliceType(elem) => CheckIsExact(declared, elem, name);
    case MapType(key, value) =>
      CheckIsExact(declared, key, name);
      CheckIsExact(declared, value, name);
    case PointerType(elem) => CheckIsExact(declared, elem, name);
    case StructType(elems) => ElemsExact(declared, elems, name);
  }

  lemma {:induction false} ElemsExact(declared: set<string>, elems: seq<Elem>, name: string)
    ensures name in CheckElems(declared, elems) <==>
            (exists e :: e in elems && name in NamesIn(e.tp)) && !IsBaseType(name) && name !in declared
    decreases elems, 0
  {
    hide IsBaseType;
    if elems == [] {
    } else {
      CheckIsExact(declared, elems[0].tp, name);
      ElemsExact(declared, elems[1..], name);
      assert forall e :: e in elems <==> e == elems[0] || e in elems[1..];
    }
  }

  // ---- declarations --------------------------------------------------------------------------------

  function ExprsOf(stmt: TypeStmt): seq<TypeExpr> {
    match stmt
    case TypeLiteral(expr) => [expr]
    case TypeGroup(exprs) => exprs
  }

  /** The declared types, in order. */
  function Exprs(stmts: seq<TypeStmt>): seq<TypeExpr> {
    if stmts == [] then [] else Exprs(stmts[..|stmts| - 1]) + ExprsOf(stmts[|stmts| - 1])
  }

  /** They are those of the statements, one statement after the other: all of them, and nothing else. */
  lemma {:induction false} ExprsAreCut(stmts: seq<TypeStmt>) returns (at: seq<nat>)
    ensures var parts := seq(|stmts|, i requires 0 <= i < |stmts| =>
                             match stmts[i] case TypeLiteral(expr) => [expr] case TypeGroup(exprs) => exprs);
            IsCut(Exprs(stmts), parts, at)
  {
    var parts := seq(|stmts|, i requires 0 <= i < |stmts| =>
                     match stmts[i] case TypeLiteral(expr) => [expr] case TypeGroup(exprs) => exprs);
    if stmts == [] {
      at := [0];
      CutNone<TypeExpr>();
    } else {
      var init := stmts[..|stmts| - 1];
      var before := ExprsAreCut(init);
      assert parts[..|init|] == seq(|init|, i requires 0 <= i < |init| =>
                                    match init[i] case TypeLiteral(expr) => [expr] case TypeGroup(exprs) => exprs);
      CutMore(Exprs(init), parts[..|init|], before, ExprsOf(stmts[|init|]));
      at := before + [|Exprs(stmts)|];
      assert parts == parts[..|init|] + [ExprsOf(stmts[|init|])];
    }
  }

  function DeclaredNames(exprs: seq<TypeExpr>): set<string> {
    set e | e in exprs :: e.name.text
  }

  /** The errors of the check of several types. */
  function CheckAll(declared: set<string>, exprs: seq<TypeExpr>): seq<string> {
    if exprs == [] then []
    else CheckAll(declared, exprs[..|exprs| - 1]) + CheckTypeExpr(declared, exprs[|exprs| - 1].tp)
  }

  lemma {:induction false} CheckAllOk(declared: set<string>, exprs: seq<TypeExpr>)
    requires CheckAll(declared, exprs) == []
    ensures forall e <- exprs :: CheckTypeExpr(declared, e.tp) == []
    decreases |exprs|
  {
    if exprs == [] {
    } else {
      CheckAllOk(declared, exprs[..|exprs| - 1]);
    }
  }

  /** The errors are exactly the names in use somewhere that are neither built in nor declared. */
  lemma {:induction false} CheckAllIsExact(declared: set<string>, exprs: seq<TypeExpr>, name: string)
    ensures name in CheckAll(declared, exprs) <==>
            (exists e :: e in exprs && name in NamesIn(e.tp)) && !IsBaseType(name) && name !in declared
  {
    hide IsBaseType, CheckTypeExpr, NamesIn;
    if exprs == [] {
    } else {
      var init, last := exprs[..|exprs| - 1], exprs[|exprs| - 1];
      CheckAllIsExact(declared, init, name);
      CheckIsExact(declared, last.tp, name);
      assert forall e :: e in exprs <==> e in init || e == last;
    }
  }

  lemma NoNames()
    ensures DeclaredNames(Exprs([])) == {}
  {
  }

  lemma NamesMore(exprs: seq<TypeExpr>, e: TypeExpr)
    ensures DeclaredNames(exprs + [e]) == DeclaredNames(exprs) + {e.name.text}
  {
    forall name
      ensures name in DeclaredNames(exprs + [e]) <==> name in DeclaredNames(exprs) + {e.name.text}
    {
      assert forall x :: x in exprs + [e] <==> x in exprs || x == e;
    }
  }

  /** Collects the declared names, and then checks every declared type against them. */
  method CheckTypeDeclareContext(stmts: seq<TypeStmt>) returns (errors: seq<string>)
    ensures errors == CheckAll(DeclaredNames(Exprs(stmts)), Exprs(stmts))
  {
    hide Exprs, DeclaredNames, CheckAll;
    var typeMap := {};
    NoNames();
    for i := 0 to |stmts|
      invariant typeMap == DeclaredNames(Exprs(stmts[..i]))
    {
      ghost var before := Exprs(stmts[..i]);
      ExprsMore(stmts, i);
      match stmts[i] {
        case TypeLiteral(expr) =>
          NamesMore(before, expr);
          typeMap := typeMap + {expr.name.text};
        case TypeGroup(exprs) =>
          assert before + exprs[..0] == before;
          for j := 0 to |exprs|
            invariant typeMap == DeclaredNames(before + exprs[..j])
          {
            NamesMore(before + exprs[..j], exprs[j]);
            assert before + exprs[..j + 1] == (before + exprs[..j]) + [exprs[j]];
            typeMap := typeMap + {exprs[j].name.text};
          }
          assert exprs[..|exprs|] == exprs;
      }
    }
    assert stmts[..|stmts|] == stmts;
    errors := CheckTypeContext(typeMap, stmts);
  }

  method CheckTypeContext(declared: set<string>, stmts: seq<TypeStmt>) returns (errors: seq<string>)
    ensures errors == CheckAll(declared, Exprs(stmts))
  {
    hide CheckTypeExpr, CheckAll, Exprs;
    errors := [];
    CheckNone(declared);
    for i := 0 to |stmts|
      invariant errors == CheckAll(declared, Exprs(stmts[..i]))
    {
      ExprsMore(stmts, i);
      match stmts[i] {
        case TypeLiteral(expr) =>
          CheckMore(declared, Exprs(stmts[..i]), expr);
          errors := errors + CheckTypeExpr(declared, expr.tp);
        case TypeGroup(exprs) =>
          ghost var before := Exprs(stmts[..i]);
          assert before + exprs[..0] == before;
          for j := 0 to |exprs|
            invariant errors == CheckAll(declared, before + exprs[..j])
          {
            CheckMore(declared, before + exprs[..j], exprs[j]);
            assert before + exprs[..j + 1] == (before + exprs[..j]) + [exprs[j]];
            errors := errors + CheckTypeExpr(declared, exprs[j].tp);
          }
          assert exprs[..|exprs|] == exprs;
      }
    }
    assert stmts[..|stmts|] == stmts;
  }

  lemma CheckNone(declared: set<string>)
    ensures CheckAll(declared, Exprs([])) == []
  {
  }

  lemma CheckMore(declared: set<string>, exprs: seq<TypeExpr>, e: TypeExpr)
    ensures CheckAll(declared, exprs + [e]) == CheckAll(declared, exprs) + CheckTypeExpr(declared, e.tp)
  {
    hide CheckTypeExpr;
    assert (exprs + [e])[..|exprs|] == exprs;
  }

  lemma ExprsMore(stmts: seq<TypeStmt>, i: nat)
    requires i < |stmts|
    ensures Exprs(stmts[..i + 1]) == Exprs(stmts[..i]) + ExprsOf(stmts[i])
  {
    assert stmts[..i + 1][..i] == stmts[..i];
  }
}
