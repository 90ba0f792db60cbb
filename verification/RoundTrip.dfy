/** The parser of data types undoes the printer. */
module RoundTrip {
  import opened Tokens
  import opened Lexis
  import opened Grammar
  import opened DataTypes
  import opened ParseSpec

  // ---- one token ---------------------------------------------------------------------------------

  lemma Cons(m: Mark, tail: seq<Mark>)
    ensures Peek([m] + tail) == m.kind && PeekText([m] + tail) == m.text && ([m] + tail)[1..] == tail
    ensures CanAdvance([m] + tail) <==> Peek(tail) != ERROR
  {
    assert ([m] + tail)[1..] == tail;
  }

  lemma WordStep(m: Mark, rest: seq<Mark>)
    requires Peek(rest) != ERROR
    ensures m.text == "any" ==> ParseType([m] + rest) == Ok(AnyType, rest)
    ensures m.kind == ANY && m.text != "any" ==> ParseType([m] + rest) == Ok(InterfaceType, rest)
    ensures m.kind == IDENT && m.text != "any" && m.text != "map" && !IsKeyword(m.text) ==>
              ParseType([m] + rest) == Ok(BaseType(m.text), rest)
  {
    hide IsKeyword;
    Cons(m, rest);
  }

  lemma SliceStep(later: bool, tail: seq<Mark>, elem: DataType, rest: seq<Mark>)
    requires ParseType(tail) == Ok(elem, rest) && Peek(tail) != ERROR
    ensures ParseType([Mark(LBRACK, "[", later)] + ([Sign(RBRACK)] + tail)) == Ok(SliceType(elem), rest)
  {
    hide ParseType;
    Cons(Sign(RBRACK), tail);
    BracketStep(later, [Sign(RBRACK)] + tail, SliceType(elem), rest);
  }

  lemma BracketStep(later: bool, ms: seq<Mark>, t: DataType, rest: seq<Mark>)
    requires ParseBrackets(ms) == Ok(t, rest) && Peek(ms) != ERROR
    ensures ParseType([Mark(LBRACK, "[", later)] + ms) == Ok(t, rest)
  {
    hide IsKeyword, ParseMap, ParsePointer, ParseStruct, ParseBrackets;
    Cons(Mark(LBRACK, "[", later), ms);
  }

  lemma ArrayStep(later: bool, length: Length, tail: seq<Mark>, elem: DataType, rest: seq<Mark>)
    requires ParseType(tail) == Ok(elem, rest) && Peek(tail) != ERROR
    ensures ParseType([Mark(LBRACK, "[", later)] + ([LengthMark(length)] + ([Sign(RBRACK)] + tail))) ==
            Ok(ArrayType(length, elem), rest)
  {
    hide ParseType, ParseBrackets;
    LengthStep(length, tail, elem, rest);
    BracketStep(later, [LengthMark(length)] + ([Sign(RBRACK)] + tail), ArrayType(length, elem), rest);
  }

  lemma LengthStep(length: Length, tail: seq<Mark>, elem: DataType, rest: seq<Mark>)
    requires ParseType(tail) == Ok(elem, rest) && Peek(tail) != ERROR
    ensures ParseBrackets([LengthMark(length)] + ([Sign(RBRACK)] + tail)) == Ok(ArrayType(length, elem), rest)
  {
    hide ParseType;
    Cons(Sign(RBRACK), tail);
    Cons(LengthMark(length), [Sign(RBRACK)] + tail);
  }

  lemma PointerStep(later: bool, tail: seq<Mark>, elem: DataType, rest: seq<Mark>)
    requires ParseType(tail) == Ok(elem, rest) && Peek(tail) in {IDENT, LBRACK, ANY, MUL}
    ensures ParseType([Mark(MUL, "*", later)] + tail) == Ok(PointerType(elem), rest)
  {
    hide ParseType, ParsePointer;
    Cons(Mark(MUL, "*", later), tail);
    PointerRest(tail, elem, rest);
    AtStar([Mark(MUL, "*", later)] + tail);
  }

  lemma AtStar(ms: seq<Mark>)
    requires CanAdvance(ms) && Peek(ms) == MUL && PeekText(ms) == "*"
    ensures ParseType(ms) == ParsePointer(ms[1..])
  {
    hide IsKeyword, ParseMap, ParseBrackets, ParseStruct, ParsePointer;
  }

  lemma PointerRest(tail: seq<Mark>, elem: DataType, rest: seq<Mark>)
    requires ParseType(tail) == Ok(elem, rest) && Peek(tail) in {IDENT, LBRACK, ANY, MUL}
    ensures ParsePointer(tail) == Ok(PointerType(elem), rest)
  {
    hide ParseType;
  }

  lemma MapStep(later: bool, keyTail: seq<Mark>, key: DataType, tail: seq<Mark>, value: DataType, rest: seq<Mark>)
    requires ParseType(keyTail) == Ok(key, [Sign(RBRACK)] + tail) && Peek(keyTail) != ERROR
    requires ParseType(tail) == Ok(value, rest) && Peek(tail) != ERROR
    ensures ParseType([Mark(IDENT, "map", later)] + ([Sign(LBRACK)] + keyTail)) == Ok(MapType(key, value), rest)
  {
    hide IsKeyword, ParsePointer, ParseBrackets, ParseStruct, ParseMap;
    Cons(Sign(LBRACK), keyTail);
    Cons(Mark(IDENT, "map", later), [Sign(LBRACK)] + keyTail);
    MapRest(keyTail, key, tail, value, rest);
  }

  lemma MapRest(keyTail: seq<Mark>, key: DataType, tail: seq<Mark>, value: DataType, rest: seq<Mark>)
    requires ParseType(keyTail) == Ok(key, [Sign(RBRACK)] + tail) && Peek(keyTail) != ERROR
    requires ParseType(tail) == Ok(value, rest) && Peek(tail) != ERROR
    ensures ParseMap([Sign(LBRACK)] + keyTail) == Ok(MapType(key, value), rest)
  {
    hide ParseType;
    Cons(Sign(RBRACK), tail);
    Cons(Sign(LBRACK), keyTail);
  }

  lemma StructStep(later: bool, tail: seq<Mark>, elems: seq<Elem>, close: Mark, rest: seq<Mark>)
    requires ParseElems(tail) == Ok(elems, [close] + rest) && Peek(tail) in {IDENT, MUL, RBRACE}
    requires close.kind == RBRACE && Peek(rest) != ERROR
    ensures ParseType([Mark(LBRACE, "{", later)] + tail) == Ok(StructType(elems), rest)
  {
    hide IsKeyword, ParsePointer, ParseBrackets, ParseMap, ParseElems, ParseStruct;
    Cons(Mark(LBRACE, "{", later), tail);
    StructRest(tail, elems, close, rest);
  }

  lemma StructRest(tail: seq<Mark>, elems: seq<Elem>, close: Mark, rest: seq<Mark>)
    requires ParseElems(tail) == Ok(elems, [close] + rest) && Peek(tail) in {IDENT, MUL, RBRACE}
    requires close.kind == RBRACE && Peek(rest) != ERROR
    ensures ParseStruct(tail) == Ok(StructType(elems), rest)
  {
    hide ParseElems;
    Cons(close, rest);
  }

  lemma NamesStep(name: string, tail: seq<Mark>, names: seq<string>, rest: seq<Mark>)
    requires ParseNames(tail) == Ok(names, rest) && Peek(tail) != ERROR && !IsKeyword(name)
    ensures ParseNames([Sign(COMMA)] + ([Mark(IDENT, name, false)] + tail)) == Ok([name] + names, rest)
  {
    hide IsKeyword;
    var ms := [Sign(COMMA)] + ([Mark(IDENT, name, false)] + tail);
    Cons(Mark(IDENT, name, false), tail);
    Cons(Sign(COMMA), [Mark(IDENT, name, false)] + tail);
  }

  lemma StarBodyStep(m: Mark, name: Mark, rest: seq<Mark>)
    requires m.kind == MUL && name.kind == IDENT && Peek(rest) != ERROR
    ensures ParseElemBody([m] + ([name] + rest)) == Ok(([], PointerType(NameType(name.text))), rest)
  {
    hide IsKeyword, ParseNames, ParseType;
    Cons(name, rest);
    Cons(m, [name] + rest);
  }

  lemma NameBodyStep(m: Mark, rest: seq<Mark>)
    requires m.kind == IDENT && rest != [] && Peek(rest) != ERROR && (rest[0].later || Peek(rest) == RAW_STRING)
    ensures ParseElemBody([m] + rest) == Ok(([], NameType(m.text)), rest)
  {
    hide IsKeyword, ParseNames, ParseType;
    Cons(m, rest);
  }

  lemma FieldBodyStep(m: Mark, tail: seq<Mark>, names: seq<string>, mid: seq<Mark>, tp: DataType, rest: seq<Mark>)
    requires m.kind == IDENT && tail != [] && !tail[0].later && Peek(tail) in {COMMA, IDENT, LBRACK, ANY, MUL, LBRACE}
    requires ParseNames(tail) == Ok(names, mid) && ParseType(mid) == Ok(tp, rest)
    ensures ParseElemBody([m] + tail) == Ok(([m.text] + names, tp), rest)
  {
    hide IsKeyword, ParseNames, ParseType;
    Cons(m, tail);
  }

  lemma ElemStep(ms: seq<Mark>, names: seq<string>, tp: DataType, tag: Option<string>, rest: seq<Mark>)
    requires Peek(ms) in {IDENT, MUL} && CanAdvance(ms) && !IsKeyword(PeekText(ms))
    requires Peek(rest) in {IDENT, MUL, RBRACE}
    requires ParseElemBody(ms) == Ok((names, tp), PrintTag(tag) + rest)
    ensures ParseElem(ms) == Ok(Elem(names, tp, tag), rest)
  {
    hide IsKeyword, ParseElemBody;
    if tag.Some? {
      Cons(Mark(RAW_STRING, tag.value, false), rest);
    } else {
      assert PrintTag(tag) + rest == rest;
    }
  }

  lemma ElemsStep(ms: seq<Mark>, e: Elem, mid: seq<Mark>, elems: seq<Elem>, rest: seq<Mark>)
    requires Peek(ms) in {IDENT, MUL} && ParseElem(ms) == Ok(e, mid)
    requires Peek(mid) in {IDENT, MUL, RBRACE} && ParseElems(mid) == Ok(elems, rest)
    ensures ParseElems(ms) == Ok([e] + elems, rest)
  {
    hide IsKeyword, ParseElem;
  }

  // ---- whole types -------------------------------------------------------------------------------

  lemma Keywords()
    ensures IsKeyword("map") && !IsKeyword("*") && !IsKeyword("any")
  {
  }

  /** A printed type starts with a token that a type may start with; only a struct starts with a brace. */
  lemma Printed(t: DataType, later: bool, rest: seq<Mark>)
    ensures var ms := Print(t, later) + rest;
            && ms != [] && ms[0].later == later
            && Peek(ms) == (match t
                            case AnyType | BaseType(_) | MapType(_, _) => IDENT
                            case InterfaceType => ANY
                            case ArrayType(_, _) | SliceType(_) => LBRACK
                            case PointerType(_) => MUL
                            case StructType(_) => LBRACE)
  {
  }

  lemma PrintedNames(names: seq<string>, rest: seq<Mark>)
    ensures var ms := PrintNames(names) + rest; if names == [] then ms == rest else ms != [] && ms[0] == Sign(COMMA)
  {
  }

  lemma PrintedElem(e: Elem, rest: seq<Mark>)
    requires ElemOk(e)
    ensures var ms := PrintElem(e) + rest; Peek(ms) in {IDENT, MUL} && ms[0].later
  {
    hide IsKeyword, IsIdent, IsQuoted;
    assert PrintElem(e)[0] == PrintBody(e)[0];
  }

  lemma Assoc<T>(a: seq<T>, b: seq<T>, c: seq<T>)
    ensures (a + b) + c == a + (b + c)
  {
  }

  // One lemma per constructor: if the parts are read back, the whole is.

  ghost predicate ReadBack(t: DataType, later: bool, rest: seq<Mark>) {
    ParseType(Print(t, later) + rest) == Ok(t, rest)
  }

  lemma SliceReadBack(elem: DataType, later: bool, rest: seq<Mark>)
    requires ReadBack(elem, false, rest)
    ensures ReadBack(SliceType(elem), later, rest)
  {
    hide ParseType;
    Printed(elem, false, rest);
    SliceStep(later, Print(elem, false) + rest, elem, rest);
    Assoc([Sign(RBRACK)], Print(elem, false), rest);
    Assoc([Mark(LBRACK, "[", later)], [Sign(RBRACK)] + Print(elem, false), rest);
  }

  lemma ArrayReadBack(length: Length, elem: DataType, later: bool, rest: seq<Mark>)
    requires ReadBack(elem, false, rest)
    ensures ReadBack(ArrayType(length, elem), later, rest)
  {
    hide ParseType;
    Printed(elem, false, rest);
    ArrayStep(later, length, Print(elem, false) + rest, elem, rest);
    Assoc([Sign(RBRACK)], Print(elem, false), rest);
    Assoc([LengthMark(length)], [Sign(RBRACK)] + Print(elem, false), rest);
    Assoc([Mark(LBRACK, "[", later)], [LengthMark(length)] + ([Sign(RBRACK)] + Print(elem, false)), rest);
  }

  lemma PointerReadBack(elem: DataType, later: bool, rest: seq<Mark>)
    requires ReadBack(elem, false, rest) && !elem.StructType?
    ensures ReadBack(PointerType(elem), later, rest)
  {
    hide ParseType;
    Printed(elem, false, rest);
    PointerStep(later, Print(elem, false) + rest, elem, rest);
    Assoc([Mark(MUL, "*", later)], Print(elem, false), rest);
  }

  lemma MapReadBack(key: DataType, value: DataType, later: bool, rest: seq<Mark>)
    requires ReadBack(key, false, [Sign(RBRACK)] + (Print(value, false) + rest)) && ReadBack(value, false, rest)
    ensures ReadBack(MapType(key, value), later, rest)
  {
    hide ParseType;
    var k, v := Print(key, false), Print(value, false);
    Printed(key, false, [Sign(RBRACK)] + (v + rest));
    Printed(value, false, rest);
    MapStep(later, k + ([Sign(RBRACK)] + (v + rest)), key, v + rest, value, rest);
    Assoc([Sign(RBRACK)], v, rest);
    Assoc(k, [Sign(RBRACK)] + v, rest);
    Assoc([Sign(LBRACK)], k + ([Sign(RBRACK)] + v), rest);
    Assoc([Mark(IDENT, "map", later)], [Sign(LBRACK)] + (k + ([Sign(RBRACK)] + v)), rest);
  }

  function Close(elems: seq<Elem>): Mark {
    Mark(RBRACE, "}", elems != [])
  }

  lemma StructReadBack(elems: seq<Elem>, later: bool, rest: seq<Mark>)
    requires Peek(rest) != ERROR
    requires ParseElems(PrintElems(elems) + ([Close(elems)] + rest)) == Ok(elems, [Close(elems)] + rest)
    requires Peek(PrintElems(elems) + ([Close(elems)] + rest)) in {IDENT, MUL, RBRACE}
    ensures ReadBack(StructType(elems), later, rest)
  {
    hide ParseType, ParseElems;
    StructStep(later, PrintElems(elems) + ([Close(elems)] + rest), elems, Close(elems), rest);
    Assoc(PrintElems(elems), [Close(elems)], rest);
    Assoc([Mark(LBRACE, "{", later)], PrintElems(elems) + [Close(elems)], rest);
  }

  lemma WordReadBack(t: DataType, later: bool, rest: seq<Mark>)
    requires (t.AnyType? || t.InterfaceType? || t.BaseType?) && WellFormed(t) && Peek(rest) != ERROR
    ensures ReadBack(t, later, rest)
  {
    hide ParseType, IsKeyword, IsIdent;
    Keywords();
    match t
    case AnyType => WordStep(Mark(IDENT, "any", later), rest);
    case InterfaceType => WordStep(Mark(ANY, "interface{}", later), rest);
    case BaseType(name) => WordStep(Mark(IDENT, name, later), rest);
  }

  /** Parsing a printed type gives the type back and leaves exactly what followed it. */
  lemma {:induction false} TypeRoundTrip(t: DataType, later: bool, rest: seq<Mark>)
    requires WellFormed(t) && Peek(rest) != ERROR
    ensures ParseType(Print(t, later) + rest) == Ok(t, rest)
    decreases t, 1
  {
    hide ParseType, Print, ParseElems, PrintElems;
    match t
    case AnyType | InterfaceType | BaseType(_) =>
      WordReadBack(t, later, rest);
    case SliceType(elem) =>
      TypeRoundTrip(elem, false, rest);
      SliceReadBack(elem, later, rest);
    case ArrayType(length, elem) =>
      TypeRoundTrip(elem, false, rest);
      ArrayReadBack(length, elem, later, rest);
    case PointerType(elem) =>
      TypeRoundTrip(elem, false, rest);
      PointerReadBack(elem, later, rest);
    case MapType(key, value) =>
      TypeRoundTrip(key, false, [Sign(RBRACK)] + (Print(value, false) + rest));
      TypeRoundTrip(value, false, rest);
      MapReadBack(key, value, later, rest);
    case StructType(elems) =>
      ElemsRoundTrip(elems, [Close(elems)] + rest);
      StructReadBack(elems, later, rest);
  }

  lemma {:induction false} ElemsRoundTrip(elems: seq<Elem>, rest: seq<Mark>)
    requires (forall e <- elems :: ElemOk(e)) && Peek(rest) == RBRACE && (elems != [] ==> rest[0].later)
    ensures var ms := PrintElems(elems) + rest;
            && ParseElems(ms) == Ok(elems, rest)
            && if elems == [] then ms == rest else Peek(ms) in {IDENT, MUL} && ms[0].later
    decreases elems, 0
  {
    hide ElemOk, PrintElem;
    if elems == [] {
      assert PrintElems(elems) + rest == rest;
    } else {
      var e, more := elems[0], elems[1..];
      assert ElemOk(e);
      ElemsRoundTrip(more, rest);
      ElemRoundTrip(e, PrintElems(more) + rest);
      ElemsReadBack(e, more, rest);
      assert [e] + more == elems;
    }
  }

  lemma ElemsReadBack(e: Elem, more: seq<Elem>, rest: seq<Mark>)
    requires ElemOk(e) && ParseElems(PrintElems(more) + rest) == Ok(more, rest)
    requires Peek(PrintElems(more) + rest) in {IDENT, MUL, RBRACE}
    requires ParseElem(PrintElem(e) + (PrintElems(more) + rest)) == Ok(e, PrintElems(more) + rest)
    ensures var ms := PrintElems([e] + more) + rest;
            ParseElems(ms) == Ok([e] + more, rest) && Peek(ms) in {IDENT, MUL} && ms[0].later
  {
    hide ParseElems, ParseElem, ElemOk, PrintElem;
    var mid := PrintElems(more) + rest;
    PrintedElem(e, mid);
    ElemsStep(PrintElem(e) + mid, e, mid, more, rest);
    Assoc(PrintElem(e), PrintElems(more), rest);
    assert ([e] + more)[1..] == more;
  }

  lemma {:induction false} ElemRoundTrip(e: Elem, rest: seq<Mark>)
    requires ElemOk(e) && Peek(rest) in {IDENT, MUL, RBRACE} && rest[0].later
    ensures ParseElem(PrintElem(e) + rest) == Ok(e, rest)
    decreases e, 2
  {
    hide ParseElem, ParseElemBody, ElemOk, PrintBody;
    var after := PrintTag(e.tag) + rest;
    BodyRoundTrip(e, after);
    ElemStep(PrintBody(e) + after, e.names, e.tp, e.tag, rest);
    Assoc(PrintBody(e), PrintTag(e.tag), rest);
  }

  /** The body of an element is read back, and starts as an element may. */
  ghost predicate BodyReadBack(e: Elem, after: seq<Mark>) {
    var ms := PrintBody(e) + after;
    && CanAdvance(ms) && Peek(ms) in {IDENT, MUL} && !IsKeyword(PeekText(ms))
    && ParseElemBody(ms) == Ok((e.names, e.tp), after)
  }

  /** What follows the body of an element: its tag, or the next line. */
  predicate AfterBody(after: seq<Mark>) {
    Peek(after) in {RAW_STRING, IDENT, MUL, RBRACE} && (after[0].later || Peek(after) == RAW_STRING)
  }

  lemma {:induction false} BodyRoundTrip(e: Elem, after: seq<Mark>)
    requires ElemOk(e) && AfterBody(after)
    ensures BodyReadBack(e, after)
    decreases e, 1
  {
    hide BodyReadBack, ParseType, Print;
    if e.names == [] {
      AnonymousReadBack(e, after);
    } else {
      NamesRoundTrip(e.names[1..], Print(e.tp, false) + after) by {
        Printed(e.tp, false, after);
      }
      TypeRoundTrip(e.tp, false, after);
      FieldReadBack(e, after);
    }
  }

  lemma AnonymousReadBack(e: Elem, after: seq<Mark>)
    requires ElemOk(e) && AfterBody(after) && e.names == []
    ensures BodyReadBack(e, after)
  {
    hide ParseElemBody, IsKeyword, IsIdent, IsQuoted, ParseType;
    Keywords();
    match e.tp
    case PointerType(elem) =>
      var name := Print(elem, false)[0];
      StarBodyStep(Mark(MUL, "*", true), name, after);
      Cons(name, after);
      Cons(Mark(MUL, "*", true), [name] + after);
      Assoc([Mark(MUL, "*", true)], [name], after);
    case AnyType | BaseType(_) =>
      var name := Print(e.tp, true)[0];
      NameBodyStep(name, after);
      Cons(name, after);
    case _ =>
  }

  lemma FieldReadBack(e: Elem, after: seq<Mark>)
    requires ElemOk(e) && AfterBody(after) && e.names != []
    requires ReadBack(e.tp, false, after)
    requires var mid := Print(e.tp, false) + after;
             ParseNames(PrintNames(e.names[1..]) + mid) == Ok(e.names[1..], mid)
    ensures BodyReadBack(e, after)
  {
    hide ParseElemBody, IsKeyword, IsIdent, IsQuoted, ParseType, ParseNames;
    var name, names := Mark(IDENT, e.names[0], true), e.names[1..];
    var mid := Print(e.tp, false) + after;
    assert IsName(e.names[0]);
    Printed(e.tp, false, after);
    PrintedNames(names, mid);
    FieldBodyStep(name, PrintNames(names) + mid, names, mid, e.tp, after);
    Cons(name, PrintNames(names) + mid);
    Assoc(PrintNames(names), Print(e.tp, false), after);
    Assoc([name], PrintNames(names) + Print(e.tp, false), after);
    assert [e.names[0]] + names == e.names;
  }

  lemma {:induction false} NamesRoundTrip(names: seq<string>, rest: seq<Mark>)
    requires (forall n <- names :: IsName(n)) && Peek(rest) !in {COMMA, ERROR}
    ensures ParseNames(PrintNames(names) + rest) == Ok(names, rest)
  {
    hide ParseNames, IsKeyword, IsIdent;
    if names == [] {
      assert PrintNames(names) + rest == rest;
      NoNames(rest);
    } else {
      var first, more := Mark(IDENT, names[0], false), names[1..];
      assert IsName(names[0]);
      NamesRoundTrip(more, rest);
      PrintedNames(more, rest);
      NamesStep(names[0], PrintNames(more) + rest, more, rest);
      Assoc([first], PrintNames(more), rest);
      Assoc([Sign(COMMA)], [first] + PrintNames(more), rest);
      assert [names[0]] + more == names;
    }
  }

  lemma NoNames(rest: seq<Mark>)
    requires Peek(rest) != COMMA
    ensures ParseNames(rest) == Ok([], rest)
  {
  }
}
