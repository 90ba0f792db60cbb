/** Type statements: what the parser reads of them, what is printed for them, and that parsing undoes printing. */
module TypeStatements {
  import opened Tokens
  import opened Lexis
  import opened Grammar
  import opened DataTypes
  import opened ParseSpec
  import opened RoundTrip

  /** `name tp`, or `name = tp`. */
  datatype NamedType = NamedType(name: string, assign: bool, tp: DataType)

  /** A statement declares one type, or a group in parentheses. */
  datatype Types = Single(expr: NamedType) | Group(exprs: seq<NamedType>)

  function ParseTypeExpr(ms: seq<Mark>): (r: Parsed<NamedType>)
    ensures r.Ok? ==> |r.rest| < |ms|
  {
    if Peek(ms) != IDENT || !CanAdvance(ms) || IsKeyword(PeekText(ms)) then Fail
    else if Peek(ms[1..]) != ASSIGN then Named(PeekText(ms), false, ParseType(ms[1..]))
    else if !CanAdvance(ms[1..]) then Fail
    else Named(PeekText(ms), true, ParseType(ms[1..][1..]))
  }

  function Named(name: string, assign: bool, r: Parsed<DataType>): Parsed<NamedType> {
    match r
    case Fail => Fail
    case Ok(tp, rest) => Ok(NamedType(name, assign, tp), rest)
  }

  /** The declarations of a group, up to its end. */
  function ParseTypeExprs(ms: seq<Mark>): (r: Parsed<seq<NamedType>>)
    ensures r.Ok? ==> |r.rest| <= |ms|
    decreases |ms|
  {
    if Peek(ms) == RPAREN || Peek(ms) == EOF then Ok([], ms)
    else
      match ParseTypeExpr(ms)
      case Fail => Fail
      case Ok(e, rest) =>
        if Peek(rest) != IDENT && Peek(rest) != RPAREN then Fail
        else
          match ParseTypeExprs(rest)
          case Ok(more, rest') => Ok([e] + more, rest')
          case Fail => Fail
  }

  /** After `type (`. */
  function ParseGroup(ms: seq<Mark>): (r: Parsed<Types>)
    ensures r.Ok? ==> |r.rest| < |ms|
  {
    if Peek(ms) != IDENT && Peek(ms) != RPAREN then Fail
    else
      match ParseTypeExprs(ms)
      case Fail => Fail
      case Ok(exprs, rest) => if Peek(rest) != RPAREN || !CanAdvance(rest) then Fail else Ok(Group(exprs), rest[1..])
  }

  /** After `type`. */
  function ParseTypes(ms: seq<Mark>): (r: Parsed<Types>)
    ensures r.Ok? ==> |r.rest| < |ms|
  {
    if Peek(ms) == LPAREN then if CanAdvance(ms) then ParseGroup(ms[1..]) else Fail
    else if Peek(ms) != IDENT then Fail
    else
      match ParseTypeExpr(ms)
      case Fail => Fail
      case Ok(e, rest) => Ok(Single(e), rest)
  }

  // ---- printing ------------------------------------------------------------------------------------

  function PrintExpr(e: NamedType, later: bool): seq<Mark> {
    [Mark(IDENT, e.name, later)] + ((if e.assign then [Sign(ASSIGN)] else []) + Print(e.tp, false))
  }

  function PrintExprs(exprs: seq<NamedType>): seq<Mark> {
    if exprs == [] then [] else PrintExpr(exprs[0], true) + PrintExprs(exprs[1..])
  }

  /** The tokens after `type`. */
  function PrintTypes(t: Types): seq<Mark> {
    match t
    case Single(e) => PrintExpr(e, false)
    case Group(exprs) => [Mark(LPAREN, "(", false)] + (PrintExprs(exprs) + [Mark(RPAREN, ")", true)])
  }

  predicate ExprOk(e: NamedType) {
    IsName(e.name) && WellFormed(e.tp)
  }

  predicate TypesOk(t: Types) {
    match t
    case Single(e) => ExprOk(e)
    case Group(exprs) => forall e <- exprs :: ExprOk(e)
  }

  lemma ExprRoundTrip(e: NamedType, later: bool, rest: seq<Mark>)
    requires ExprOk(e) && Peek(rest) != ERROR
    ensures ParseTypeExpr(PrintExpr(e, later) + rest) == Ok(e, rest) && Peek(PrintExpr(e, later) + rest) == IDENT
  {
    hide IsKeyword, ParseType, WellFormed, Print;
    var m, tail := Mark(IDENT, e.name, later), Print(e.tp, false) + rest;
    TypeRoundTrip(e.tp, false, rest);
    Printed(e.tp, false, rest);
    if e.assign {
      assert PrintExpr(e, later) + rest == [m] + ([Sign(ASSIGN)] + tail);
      Cons(Sign(ASSIGN), tail);
      Cons(m, [Sign(ASSIGN)] + tail);
    } else {
      assert PrintExpr(e, later) + rest == [m] + tail;
      Cons(m, tail);
    }
  }

  lemma {:induction false} ExprsRoundTrip(exprs: seq<NamedType>, rest: seq<Mark>)
    requires (forall e <- exprs :: ExprOk(e)) && Peek(rest) == RPAREN
    ensures ParseTypeExprs(PrintExprs(exprs) + rest) == Ok(exprs, rest)
    ensures Peek(PrintExprs(exprs) + rest) == if exprs == [] then RPAREN else IDENT
    decreases |exprs|
  {
    hide ExprOk, PrintExpr, ParseTypeExpr;
    if exprs == [] {
      assert PrintExprs(exprs) + rest == rest;
    } else {
      var e, more := exprs[0], exprs[1..];
      assert ExprOk(e);
      ExprsRoundTrip(more, rest);
      ExprRoundTrip(e, true, PrintExprs(more) + rest);
      Assoc(PrintExpr(e, true), PrintExprs(more), rest);
      assert [e] + more == exprs;
    }
  }

  /** Parsing a printed type statement gives it back, and leaves exactly what followed it. */
  lemma TypesRoundTrip(t: Types, rest: seq<Mark>)
    requires TypesOk(t) && Peek(rest) != ERROR
    ensures ParseTypes(PrintTypes(t) + rest) == Ok(t, rest)
  {
    hide ExprOk, PrintExpr, PrintExprs, ParseTypeExpr, ParseTypeExprs;
    match t
    case Single(e) => ExprRoundTrip(e, false, rest);
    case Group(exprs) =>
      var open, close := Mark(LPAREN, "(", false), Mark(RPAREN, ")", true);
      var ms := PrintExprs(exprs) + ([close] + rest);
      Cons(close, rest);
      ExprsRoundTrip(exprs, [close] + rest);
      Cons(open, ms);
      assert PrintTypes(t) + rest == [open] + ms;
  }

  /** What is printed of a whole statement: of an empty group, nothing at all. */
  function PrintStmt(t: Types): seq<Mark> {
    if t == Group([]) then [] else [Mark(IDENT, "type", true)] + PrintTypes(t)
  }

  function ParseStmt(ms: seq<Mark>): (r: Parsed<Types>)
    ensures r.Ok? ==> |r.rest| < |ms|
  {
    if Peek(ms) == IDENT && PeekText(ms) == "type" && CanAdvance(ms) then ParseTypes(ms[1..]) else Fail
  }

  /** A statement is read back from what is printed of it, exactly if it is no empty group. */
  lemma StmtRoundTrip(t: Types, rest: seq<Mark>)
    requires TypesOk(t) && Peek(rest) != ERROR
    ensures ParseStmt(PrintStmt(t) + rest) == Ok(t, rest) <==> t != Group([])
  {
    hide TypesOk, ParseTypes, PrintTypes;
    if t == Group([]) {
      assert PrintStmt(t) + rest == rest;
    } else {
      var m := Mark(IDENT, "type", true);
      TypesRoundTrip(t, rest);
      StartsTypes(t, rest);
      Cons(m, PrintTypes(t) + rest);
      Assoc([m], PrintTypes(t), rest);
    }
  }

  lemma StartsTypes(t: Types, rest: seq<Mark>)
    ensures Peek(PrintTypes(t) + rest) in {IDENT, LPAREN}
  {
    hide Print, PrintExprs;
  }
}
