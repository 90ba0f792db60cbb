/** Printing what was parsed: the same tokens, and a well-formed type. */
module Formatting {
  import opened Tokens
  import opened Lexis
  import opened Grammar
  import opened DataTypes
  import opened ParseSpec
  import opened RoundTrip

  /** Kinds and texts, without the lines. */
  function Words(ms: seq<Mark>): seq<(Kind, string)> {
    if ms == [] then [] else [(ms[0].kind, ms[0].text)] + Words(ms[1..])
  }

  lemma {:induction false} WordsConcat(a: seq<Mark>, b: seq<Mark>)
    ensures Words(a + b) == Words(a) + Words(b)
  {
    if a == [] {
      assert a + b == b;
    } else {
      assert (a + b)[1..] == a[1..] + b;
      WordsConcat(a[1..], b);
    }
  }

  /** An identifier of more than one letter, as all words are that mean something to the parser. */
  predicate IsWord(text: string) {
    |text| > 1 && IsIdent(text)
  }

  lemma AnyIsWord()
    ensures IsWord("any")
  {
  }

  /** A mark whose text is one the scanner gives to its kind. */
  predicate Legal(m: Mark) {
    && (IsWord(m.text) ==> m.kind == IDENT)
    && match m.kind
       case IDENT => IsIdent(m.text)
       case INT => m.text != "" && All(m.text, Digit)
       case RAW_STRING => IsQuoted(m.text, '`')
       case LBRACK | RBRACK | LBRACE | RBRACE | MUL | COMMA | ELLIPSIS | ANY => m.text == Spelling(m.kind)
       case LPAREN | RPAREN | ASSIGN | SUB | SEMICOLON | AT_DOC | AT_HANDLER | AT_SERVER => m.text == Spelling(m.kind)
       case QUO | COLON => m.text == Spelling(m.kind)
       case DURATION => ' ' !in m.text && ']' !in m.text
       case _ => true
  }

  predicate AllLegal(ms: seq<Mark>) {
    forall k :: 0 <= k < |ms| ==> Legal(ms[k])
  }

  /** The marks `ms` are, word for word, the printed marks `printed` and then `rest`. */
  predicate Kept(ms: seq<Mark>, printed: seq<Mark>, rest: seq<Mark>) {
    && |rest| <= |ms| && ms[|ms| - |rest|..] == rest
    && Words(ms) == Words(printed) + Words(rest)
    && AllLegal(ms) && AllLegal(rest)
  }

  lemma KeptNone(ms: seq<Mark>)
    requires AllLegal(ms)
    ensures Kept(ms, [], ms)
  {
  }

  lemma KeptOne(ms: seq<Mark>, m: Mark)
    requires ms != [] && AllLegal(ms) && ms[0].kind == m.kind && ms[0].text == m.text
    ensures Kept(ms, [m], ms[1..])
  {
    assert Words([m]) == [(m.kind, m.text)] + Words([]);
  }

  lemma KeptJoin(a: seq<Mark>, p: seq<Mark>, b: seq<Mark>, q: seq<Mark>, c: seq<Mark>)
    requires Kept(a, p, b) && Kept(b, q, c)
    ensures Kept(a, p + q, c)
  {
    WordsConcat(p, q);
    Assoc(Words(p), Words(q), Words(c));
    assert a[|a| - |c|..] == a[|a| - |b|..][|b| - |c|..];
  }

  /** A type that was parsed is well formed, and prints as the words it was parsed from. */
  lemma {:induction false} TypeKept(ms: seq<Mark>)
    requires AllLegal(ms) && ParseType(ms).Ok?
    ensures var Ok(t, rest) := ParseType(ms); WellFormed(t) && Kept(ms, Print(t, false), rest)
    decreases |ms|, 1
  {
    hide ParseStruct, ParseMap, ParsePointer, ParseBrackets, ParseElems, ParseElem, ParseElemBody, ParseNames,
      IsKeyword, IsIdent, IsWord, IsQuoted, Kept;
    AnyIsWord();
    assert Legal(ms[0]);
    if PeekText(ms) == "any" {
      KeptOne(ms, Print(AnyType, false)[0]);
    } else {
      match Peek(ms)
      case LBRACE => StructKept(ms);
      case IDENT => if PeekText(ms) == "map" { MapKept(ms); } else { NameKept(ms); }
      case LBRACK => BracketsKept(ms);
      case ANY => KeptOne(ms, Print(InterfaceType, false)[0]);
      case MUL => PointerKept(ms);
    }
  }

  lemma NameKept(ms: seq<Mark>)
    requires AllLegal(ms) && ms != [] && Peek(ms) == IDENT && PeekText(ms) != "any" && !IsKeyword(PeekText(ms))
    ensures WellFormed(BaseType(PeekText(ms))) && Kept(ms, Print(BaseType(PeekText(ms)), false), ms[1..])
  {
    hide IsKeyword, IsIdent, Kept;
    assert Legal(ms[0]);
    KeptOne(ms, Mark(IDENT, PeekText(ms), false));
  }

  lemma {:induction false} PointerKept(ms: seq<Mark>)
    requires AllLegal(ms) && Peek(ms) == MUL && PeekText(ms) != "any" && ParseType(ms).Ok?
    ensures var Ok(t, rest) := ParseType(ms); WellFormed(t) && Kept(ms, Print(t, false), rest)
    decreases |ms|, 0
  {
    hide ParseStruct, ParseMap, ParseBrackets, ParseElems, ParseElem, ParseElemBody, ParseNames, IsKeyword, IsIdent,
      IsQuoted, Kept;
    var next := ms[1..];
    assert Legal(ms[0]);
    TypeKept(next);
    StartsAs(next);
    var Ok(elem, rest) := ParseType(next);
    KeptOne(ms, Mark(MUL, "*", false));
    KeptJoin(ms, [Mark(MUL, "*", false)], next, Print(elem, false), rest);
  }

  /** Only a brace starts a struct. */
  lemma StartsAs(ms: seq<Mark>)
    requires ParseType(ms).Ok? && Peek(ms) in {IDENT, LBRACK, ANY, MUL}
    ensures !ParseType(ms).value.StructType?
  {
    hide ParseStruct, ParseElems, ParseElem, ParseElemBody, ParseNames, IsKeyword, IsIdent, IsQuoted, Kept;
  }

  lemma {:induction false} BracketsKept(ms: seq<Mark>)
    requires AllLegal(ms) && Peek(ms) == LBRACK && PeekText(ms) != "any" && ParseType(ms).Ok?
    ensures var Ok(t, rest) := ParseType(ms); WellFormed(t) && Kept(ms, Print(t, false), rest)
    decreases |ms|, 0
  {
    hide ParseStruct, ParseMap, ParsePointer, ParseElems, ParseElem, ParseElemBody, ParseNames, IsKeyword, IsIdent,
      IsQuoted, Kept;
    var next := ms[1..];
    assert Legal(ms[0]) && Legal(next[0]);
    KeptOne(ms, Mark(LBRACK, "[", false));
    if Peek(next) == RBRACK {
      var tail := next[1..];
      TypeKept(tail);
      var Ok(elem, rest) := ParseType(tail);
      KeptOne(next, Sign(RBRACK));
      KeptJoin(next, [Sign(RBRACK)], tail, Print(elem, false), rest);
      KeptJoin(ms, [Mark(LBRACK, "[", false)], next, [Sign(RBRACK)] + Print(elem, false), rest);
    } else {
      ArrayKept(ms, next);
    }
  }

  lemma {:induction false} ArrayKept(ms: seq<Mark>, next: seq<Mark>)
    requires ms != [] && next == ms[1..] && AllLegal(next) && Kept(ms, [Mark(LBRACK, "[", false)], next)
    requires (Peek(next) == INT || Peek(next) == ELLIPSIS) && ParseBrackets(next).Ok?
    ensures var Ok(t, rest) := ParseBrackets(next); WellFormed(t) && Kept(ms, Print(t, false), rest)
    decreases |next|, 2
  {
    hide ParseType, ParseStruct, ParseMap, ParsePointer, ParseElems, ParseElem, ParseElemBody, ParseNames,
      IsKeyword, IsIdent, IsQuoted, Kept;
    var length := if Peek(next) == INT then Fixed(PeekText(next)) else Dynamic;
    var close := next[1..];
    var tail := close[1..];
    assert Legal(next[0]) && Legal(close[0]);
    TypeKept(tail);
    var Ok(elem, rest) := ParseType(tail);
    KeptOne(next, LengthMark(length));
    KeptOne(close, Sign(RBRACK));
    KeptJoin(close, [Sign(RBRACK)], tail, Print(elem, false), rest);
    KeptJoin(next, [LengthMark(length)], close, [Sign(RBRACK)] + Print(elem, false), rest);
    KeptJoin(ms, [Mark(LBRACK, "[", false)], next, [LengthMark(length)] + ([Sign(RBRACK)] + Print(elem, false)), rest);
  }

  lemma {:induction false} MapKept(ms: seq<Mark>)
    requires AllLegal(ms) && Peek(ms) == IDENT && PeekText(ms) == "map" && ParseType(ms).Ok?
    ensures var Ok(t, rest) := ParseType(ms); WellFormed(t) && Kept(ms, Print(t, false), rest)
    decreases |ms|, 0
  {
    hide ParseStruct, ParsePointer, ParseBrackets, ParseElems, ParseElem, ParseElemBody, ParseNames, IsKeyword,
      IsIdent, IsQuoted, Kept;
    var open := ms[1..];
    var next := open[1..];
    TypeKept(next);
    var Ok(key, close) := ParseType(next);
    var tail := close[1..];
    AllLegalRest(next, Print(key, false), close);
    TypeKept(tail);
    var Ok(value, rest) := ParseType(tail);
    assert Legal(ms[0]) && Legal(open[0]) && Legal(close[0]);
    KeptOne(ms, Mark(IDENT, "map", false));
    KeptOne(open, Sign(LBRACK));
    KeptOne(close, Sign(RBRACK));
    KeptMap(ms, open, next, Print(key, false), close, tail, Print(value, false), rest);
  }

  lemma KeptMap(ms: seq<Mark>, open: seq<Mark>, next: seq<Mark>, k: seq<Mark>, close: seq<Mark>, tail: seq<Mark>,
                v: seq<Mark>, rest: seq<Mark>)
    requires Kept(ms, [Mark(IDENT, "map", false)], open) && Kept(open, [Sign(LBRACK)], next) && Kept(next, k, close)
    requires Kept(close, [Sign(RBRACK)], tail) && Kept(tail, v, rest)
    ensures Kept(ms, [Mark(IDENT, "map", false)] + ([Sign(LBRACK)] + (k + ([Sign(RBRACK)] + v))), rest)
  {
    hide Kept;
    KeptJoin(close, [Sign(RBRACK)], tail, v, rest);
    KeptJoin(next, k, close, [Sign(RBRACK)] + v, rest);
    KeptJoin(open, [Sign(LBRACK)], next, k + ([Sign(RBRACK)] + v), rest);
    KeptJoin(ms, [Mark(IDENT, "map", false)], open, [Sign(LBRACK)] + (k + ([Sign(RBRACK)] + v)), rest);
  }

  lemma AllLegalRest(ms: seq<Mark>, printed: seq<Mark>, rest: seq<Mark>)
    requires Kept(ms, printed, rest)
    ensures AllLegal(rest) && (rest != [] ==> AllLegal(rest[1..]) && Legal(rest[0]))
  {
  }

  lemma {:induction false} StructKept(ms: seq<Mark>)
    requires AllLegal(ms) && Peek(ms) == LBRACE && PeekText(ms) != "any" && ParseType(ms).Ok?
    ensures var Ok(t, rest) := ParseType(ms); WellFormed(t) && Kept(ms, Print(t, false), rest)
    decreases |ms|, 0
  {
    hide ParseMap, ParsePointer, ParseBrackets, ParseElems, ParseElem, ParseElemBody, ParseNames, IsKeyword,
      IsIdent, IsQuoted, Kept;
    var next := ms[1..];
    ElemsKept(next);
    var Ok(elems, close) := ParseElems(next);
    AllLegalRest(next, PrintElems(elems), close);
    assert Legal(ms[0]);
    KeptOne(ms, Mark(LBRACE, "{", false));
    KeptOne(close, Close(elems));
    KeptJoin(next, PrintElems(elems), close, [Close(elems)], close[1..]);
    KeptJoin(ms, [Mark(LBRACE, "{", false)], next, PrintElems(elems) + [Close(elems)], close[1..]);
  }

  lemma {:induction false} ElemsKept(ms: seq<Mark>)
    requires AllLegal(ms) && ParseElems(ms).Ok?
    ensures var Ok(elems, rest) := ParseElems(ms); (forall e <- elems :: ElemOk(e)) && Kept(ms, PrintElems(elems), rest)
    decreases |ms|, 4
  {
    hide ParseType, ParseStruct, ParseMap, ParsePointer, ParseBrackets, ParseElem, ParseElemBody, ParseNames,
      IsKeyword, Kept, ElemOk, PrintElem;
    if Peek(ms) == RBRACE || Peek(ms) == EOF {
      KeptNone(ms);
    } else {
      ElemKept(ms);
      var Ok(e, next) := ParseElem(ms);
      AllLegalRest(ms, PrintElem(e), next);
      ElemsKept(next);
      var Ok(more, rest) := ParseElems(next);
      KeptJoin(ms, PrintElem(e), next, PrintElems(more), rest);
      assert ([e] + more)[1..] == more;
    }
  }

  lemma {:induction false} ElemKept(ms: seq<Mark>)
    requires AllLegal(ms) && ParseElem(ms).Ok?
    ensures var Ok(e, rest) := ParseElem(ms); ElemOk(e) && Kept(ms, PrintElem(e), rest)
    decreases |ms|, 3
  {
    hide ParseType, ParseStruct, ParseMap, ParsePointer, ParseBrackets, ParseElems, ParseElemBody, ParseNames,
      IsKeyword, Kept, BodyOk, PrintBody;
    BodyKept(ms);
    var Ok((names, tp), next) := ParseElemBody(ms);
    var Ok(e, rest) := ParseElem(ms);
    BodyIgnoresTag(names, tp, e.tag);
    AllLegalRest(ms, PrintBody(e), next);
    if e.tag.Some? {
      KeptOne(next, Mark(RAW_STRING, e.tag.value, false));
    } else {
      KeptNone(next);
    }
    KeptJoin(ms, PrintBody(e), next, PrintTag(e.tag), rest);
  }

  /** Are the names and the type of an element legal? */
  predicate BodyOk(names: seq<string>, tp: DataType) {
    ElemOk(Elem(names, tp, None))
  }

  lemma BodyIgnoresTag(names: seq<string>, tp: DataType, tag: Option<string>)
    ensures PrintBody(Elem(names, tp, tag)) == PrintBody(Elem(names, tp, None))
    ensures ElemOk(Elem(names, tp, tag)) <==> BodyOk(names, tp) && (tag.Some? ==> IsQuoted(tag.value, '`'))
  {
    hide IsKeyword, IsIdent, IsQuoted;
  }

  lemma {:induction false} BodyKept(ms: seq<Mark>)
    requires AllLegal(ms) && CanAdvance(ms) && Peek(ms) in {IDENT, MUL} && !IsKeyword(PeekText(ms))
    requires ParseElemBody(ms).Ok?
    ensures var Ok((names, tp), rest) := ParseElemBody(ms);
            BodyOk(names, tp) && Kept(ms, PrintBody(Elem(names, tp, None)), rest)
    decreases |ms|, 2
  {
    hide ParseType, ParseStruct, ParseMap, ParsePointer, ParseBrackets, ParseElems, ParseElem, ParseNames,
      IsKeyword, IsIdent, IsQuoted, Kept;
    var next := ms[1..];
    assert Legal(ms[0]) && AllLegal(next);
    if Peek(ms) == MUL {
      assert Legal(next[0]);
      var name := Print(NameType(PeekText(next)), false);
      KeptOne(ms, Mark(MUL, "*", true));
      KeptOne(next, name[0]);
      KeptJoin(ms, [Mark(MUL, "*", true)], next, name, next[1..]);
    } else if (next != [] && next[0].later) || Peek(next) == RAW_STRING {
      KeptOne(ms, Print(NameType(PeekText(ms)), true)[0]);
    } else {
      FieldKept(ms, next);
    }
  }

  lemma {:induction false} FieldKept(ms: seq<Mark>, next: seq<Mark>)
    requires AllLegal(ms) && CanAdvance(ms) && Peek(ms) == IDENT && !IsKeyword(PeekText(ms)) && next == ms[1..]
    requires ParseNames(next).Ok? && ParseType(ParseNames(next).rest).Ok?
    ensures var Ok(names, mid) := ParseNames(next);
            var Ok(tp, rest) := ParseType(mid);
            var all := [PeekText(ms)] + names;
            BodyOk(all, tp) && Kept(ms, PrintBody(Elem(all, tp, None)), rest)
    decreases |ms|, 1
  {
    hide ParseType, ParseStruct, ParseMap, ParsePointer, ParseBrackets, ParseElems, ParseElem, ParseElemBody,
      ParseNames, IsKeyword, IsIdent, IsQuoted, Kept;
    var Ok(names, mid) := ParseNames(next);
    var Ok(tp, rest) := ParseType(mid);
    var all := [PeekText(ms)] + names;
    assert Legal(ms[0]);
    NamesKept(next);
    AllLegalRest(next, PrintNames(names), mid);
    TypeKept(mid);
    KeptOne(ms, Mark(IDENT, PeekText(ms), true));
    KeptJoin(next, PrintNames(names), mid, Print(tp, false), rest);
    KeptJoin(ms, [Mark(IDENT, PeekText(ms), true)], next, PrintNames(names) + Print(tp, false), rest);
    assert all[1..] == names;
  }

  lemma {:induction false} NamesKept(ms: seq<Mark>)
    requires AllLegal(ms) && ParseNames(ms).Ok?
    ensures var Ok(names, rest) := ParseNames(ms); (forall n <- names :: IsName(n)) && Kept(ms, PrintNames(names), rest)
    decreases |ms|
  {
    hide ParseType, ParseStruct, ParseMap, ParsePointer, ParseBrackets, ParseElems, ParseElem, ParseElemBody,
      IsKeyword, IsIdent, IsQuoted, Kept;
    if Peek(ms) != COMMA {
      KeptNone(ms);
    } else {
      var name := ms[1..];
      var next := name[1..];
      assert Legal(ms[0]) && Legal(name[0]);
      NamesKept(next);
      var Ok(names, rest) := ParseNames(next);
      var m := Mark(IDENT, PeekText(name), false);
      KeptOne(ms, Sign(COMMA));
      KeptOne(name, m);
      KeptJoin(name, [m], next, PrintNames(names), rest);
      KeptJoin(ms, [Sign(COMMA)], name, [m] + PrintNames(names), rest);
      assert ([PeekText(name)] + names)[1..] == names;
    }
  }
}
