/** What squeezing does to types, to the marks of types and to the texts of marks. */
module Squeezing {
  import opened Tokens
  import opened Lexis
  import opened Grammar
  import opened Source
  import opened Layout
  import opened DataTypes
  import opened ParseSpec
  import opened Formatting
  import opened RoundTrip
  import opened Stream
  import opened TextTrip
  import opened TypeText
  import opened Printer

  // ---- tags ------------------------------------------------------------------------------------------

  /** The tags of a type, at any depth. */
  function Tags(t: DataType): seq<string>
    decreases t, 0
  {
    match t
    case AnyType | InterfaceType | BaseType(_) => []
    case ArrayType(_, elem) => Tags(elem)
    case SliceType(elem) => Tags(elem)
    case MapType(key, value) => Tags(key) + Tags(value)
    case PointerType(elem) => Tags(elem)
    case StructType(elems) => ElemsTags(elems)
  }

  function ElemsTags(elems: seq<Elem>): seq<string>
    decreases elems, 0
  {
    if elems == [] then [] else ElemTags(elems[0]) + ElemsTags(elems[1..])
  }

  function ElemTags(e: Elem): seq<string>
    decreases e, 1
  {
    Tags(e.tp) + if e.tag.Some? then [e.tag.value] else []
  }

  /** No tag has a character that the column writer treats in a way of its own. */
  predicate NoTabs(tags: seq<string>) {
    forall tag <- tags, c <- tag :: !Special(c)
  }

  /** No tag has a blank next to a newline. */
  predicate AllTidy(tags: seq<string>) {
    forall tag <- tags :: Tidy(tag)
  }

  // ---- squeezed types --------------------------------------------------------------------------------

  function Times(s: string, n: nat): string {
    if n == 0 then s else Squeeze(Times(s, n - 1))
  }

  /**
   The type with its tags squeezed `n` times, and those of an inner type once more for each type or element around it
   that is printed in one piece with it.
   */
  function Squeezed(t: DataType, n: nat): DataType
    decreases t, 0
  {
    match t
    case AnyType | InterfaceType | BaseType(_) => t
    case ArrayType(length, elem) => ArrayType(length, Squeezed(elem, n + 1))
    case SliceType(elem) => SliceType(Squeezed(elem, n + 1))
    case MapType(key, value) => MapType(Squeezed(key, n + 1), Squeezed(value, n + 1))
    case PointerType(elem) => PointerType(Squeezed(elem, n + 1))
    case StructType(elems) => StructType(SqueezedElems(elems, n))
  }

  function SqueezedElems(elems: seq<Elem>, n: nat): seq<Elem>
    decreases elems, 0
  {
    if elems == [] then [] else [SqueezedElem(elems[0], n + 1)] + SqueezedElems(elems[1..], n)
  }

  function SqueezedElem(e: Elem, n: nat): Elem
    decreases e, 1
  {
    Elem(e.names, Squeezed(e.tp, n), if e.tag.Some? then Some(Times(e.tag.value, n)) else None)
  }

  lemma {:induction false} TimesTidy(s: string, n: nat)
    ensures Tidy(s) ==> Times(s, n) == s
    ensures |Times(s, n)| <= |s| && (n > 0 && !Tidy(s) ==> |Times(s, n)| < |s|)
    ensures forall c :: c in Times(s, n) ==> c in s
  {
    hide Tidy, Squeeze;
    if n == 0 {
    } else {
      TimesTidy(s, n - 1);
      SqueezeShorter(Times(s, n - 1));
      SqueezeKeeps(Times(s, n - 1));
      SqueezeShorter(s);
      if n > 1 {
      } else {
        assert Times(s, 0) == s;
      }
    }
  }

  /** A quoted text stays one. */
  lemma SqueezeQuoted(s: string)
    requires IsQuoted(s, '`')
    ensures IsQuoted(Squeeze(s), '`')
  {
    hide Squeeze;
    var inner := s[1..|s| - 1];
    var q := "`";
    assert s == q + (inner + q);
    SqueezeJoin(q, inner + q);
    SqueezeJoin(inner, q);
    QuoteStays();
    SqueezeKeeps(inner);
    var r := Squeeze(s);
    assert r == q + (Squeeze(inner) + q);
    forall k | 1 <= k < |r| - 1
      ensures Until('`').Has(r[k])
    {
      assert r[k] == Squeeze(inner)[k - 1] && r[k] in inner;
      var j :| 0 <= j < |inner| && inner[j] == r[k];
      assert inner[j] == s[j + 1];
    }
  }

  lemma QuoteStays()
    ensures Squeeze("`") == "`"
  {
    SqueezeShorter("`");
  }

  lemma {:induction false} TimesQuoted(s: string, n: nat)
    requires IsQuoted(s, '`')
    ensures IsQuoted(Times(s, n), '`')
  {
    hide IsQuoted, Squeeze;
    if n == 0 {
    } else {
      TimesQuoted(s, n - 1);
      SqueezeQuoted(Times(s, n - 1));
    }
  }

  lemma NoTabsConcat(a: seq<string>, b: seq<string>)
    ensures NoTabs(a + b) <==> NoTabs(a) && NoTabs(b)
    ensures AllTidy(a + b) <==> AllTidy(a) && AllTidy(b)
  {
    hide Special, Tidy;
    assert forall tag :: tag in a + b <==> tag in a || tag in b;
  }

  /** Squeezing leaves a type well formed, brings no tab, and changes it exactly if a tag has a blank at a newline. */
  lemma {:induction false} SqueezedFacts(t: DataType, n: nat)
    requires WellFormed(t)
    ensures WellFormed(Squeezed(t, n)) && (NoTabs(Tags(t)) ==> NoTabs(Tags(Squeezed(t, n))))
    ensures Squeezed(t, n) == t <==> AllTidy(Tags(t))
    decreases t, 0
  {
    hide IsKeyword, IsIdent, LengthOk, NoTabs, AllTidy;
    match t
    case AnyType | InterfaceType | BaseType(_) => NoTags();
    case ArrayType(_, elem) => SqueezedFacts(elem, n + 1);
    case SliceType(elem) => SqueezedFacts(elem, n + 1);
    case MapType(key, value) =>
      SqueezedFacts(key, n + 1);
      SqueezedFacts(value, n + 1);
      NoTabsConcat(Tags(key), Tags(value));
      NoTabsConcat(Tags(Squeezed(key, n + 1)), Tags(Squeezed(value, n + 1)));
    case PointerType(elem) => SqueezedFacts(elem, n + 1);
    case StructType(elems) => SqueezedElemsFacts(elems, n);
  }

  lemma NoTags()
    ensures AllTidy([]) && NoTabs([])
  {
  }

  lemma {:induction false} SqueezedElemsFacts(elems: seq<Elem>, n: nat)
    requires forall e <- elems :: ElemOk(e)
    ensures var s := SqueezedElems(elems, n);
            && (forall e <- s :: ElemOk(e)) && (NoTabs(ElemsTags(elems)) ==> NoTabs(ElemsTags(s)))
            && (s == elems <==> AllTidy(ElemsTags(elems)))
    decreases elems, 0
  {
    hide ElemOk, NoTabs, AllTidy, ElemTags, SqueezedElem;
    if elems == [] {
      NoTags();
    } else {
      var e, rest := elems[0], elems[1..];
      var f, more := SqueezedElem(e, n + 1), SqueezedElems(rest, n);
      SqueezedElemFacts(e, n + 1);
      SqueezedElemsFacts(rest, n);
      NoTabsConcat(ElemTags(e), ElemsTags(rest));
      NoTabsConcat(ElemTags(f), ElemsTags(more));
      assert elems == [e] + rest && ([f] + more)[1..] == more;
    }
  }

  lemma {:induction false} SqueezedElemFacts(e: Elem, n: nat)
    requires ElemOk(e) && n > 0
    ensures var s := SqueezedElem(e, n);
            ElemOk(s) && (NoTabs(ElemTags(e)) ==> NoTabs(ElemTags(s))) && (s == e <==> AllTidy(ElemTags(e)))
    decreases e, 1
  {
    hide IsKeyword, IsIdent, IsQuoted, NoTabs, AllTidy;
    NoTags();
    if e.names == [] {
      AnonymousStays(e, n);
    } else {
      SqueezedFacts(e.tp, n);
    }
    if e.tag.Some? {
      OneTag(e.tag.value, n);
      NoTabsConcat(Tags(e.tp), [e.tag.value]);
      NoTabsConcat(Tags(Squeezed(e.tp, n)), [Times(e.tag.value, n)]);
    } else {
      NoTabsConcat(Tags(e.tp), []);
      NoTabsConcat(Tags(Squeezed(e.tp, n)), []);
    }
  }

  lemma AnonymousStays(e: Elem, n: nat)
    requires ElemOk(e) && e.names == []
    ensures Squeezed(e.tp, n) == e.tp && Tags(e.tp) == []
  {
    hide IsKeyword, IsIdent, IsQuoted;
  }

  lemma OneTag(tag: string, n: nat)
    requires IsQuoted(tag, '`') && n > 0
    ensures IsQuoted(Times(tag, n), '`') && (NoTabs([tag]) ==> NoTabs([Times(tag, n)]))
    ensures Times(tag, n) == tag <==> AllTidy([tag])
  {
    hide Tidy, Special, IsQuoted;
    TimesTidy(tag, n);
    TimesQuoted(tag, n);
    assert tag in [tag];
  }

  // ---- squeezed marks --------------------------------------------------------------------------------

  function SqueezeMark(m: Mark): Mark {
    if m.kind == RAW_STRING then m.(text := Squeeze(m.text)) else m
  }

  function SqueezeMarks(ms: seq<Mark>): (r: seq<Mark>)
    ensures |r| == |ms| && forall k :: 0 <= k < |ms| ==> r[k] == SqueezeMark(ms[k])
  {
    seq(|ms|, k requires 0 <= k < |ms| => SqueezeMark(ms[k]))
  }

  lemma SqueezeMarksConcat(a: seq<Mark>, b: seq<Mark>)
    ensures SqueezeMarks(a + b) == SqueezeMarks(a) + SqueezeMarks(b)
  {
    hide SqueezeMark;
  }

  lemma SqueezeSign(m: Mark)
    requires m.kind != RAW_STRING
    ensures SqueezeMarks([m]) == [m]
  {
  }

  lemma SqueezeCons(m: Mark, rest: seq<Mark>)
    requires m.kind != RAW_STRING
    ensures SqueezeMarks([m] + rest) == [m] + SqueezeMarks(rest)
  {
    hide SqueezeMarks;
    SqueezeMarksConcat([m], rest);
    SqueezeSign(m);
  }

  /** Are the printed marks of `b` the squeezed ones of `a`? */
  predicate SqueezesTo(a: DataType, b: DataType) {
    SqueezeMarks(Print(a, false)) == Print(b, false)
  }

  lemma ArraySqueezed(length: Length, a: DataType, b: DataType)
    requires SqueezesTo(a, b)
    ensures SqueezesTo(ArrayType(length, a), ArrayType(length, b))
  {
    hide SqueezeMarks, LengthMark;
    var e := Print(a, false);
    LengthIsSign(length);
    SqueezeCons(Sign(RBRACK), e);
    SqueezeCons(LengthMark(length), [Sign(RBRACK)] + e);
    SqueezeCons(Mark(LBRACK, "[", false), [LengthMark(length)] + ([Sign(RBRACK)] + e));
  }

  lemma SliceSqueezed(a: DataType, b: DataType)
    requires SqueezesTo(a, b)
    ensures SqueezesTo(SliceType(a), SliceType(b))
  {
    hide SqueezeMarks;
    SqueezeCons(Sign(RBRACK), Print(a, false));
    SqueezeCons(Mark(LBRACK, "[", false), [Sign(RBRACK)] + Print(a, false));
  }

  lemma MapSqueezed(a: DataType, b: DataType, c: DataType, d: DataType)
    requires SqueezesTo(a, b) && SqueezesTo(c, d)
    ensures SqueezesTo(MapType(a, c), MapType(b, d))
  {
    hide SqueezeMarks;
    var k, v := Print(a, false), Print(c, false);
    SqueezeCons(Sign(RBRACK), v);
    SqueezeMarksConcat(k, [Sign(RBRACK)] + v);
    SqueezeCons(Sign(LBRACK), k + ([Sign(RBRACK)] + v));
    SqueezeCons(Mark(IDENT, "map", false), [Sign(LBRACK)] + (k + ([Sign(RBRACK)] + v)));
  }

  lemma PointerSqueezed(a: DataType, b: DataType)
    requires SqueezesTo(a, b)
    ensures SqueezesTo(PointerType(a), PointerType(b))
  {
    hide SqueezeMarks;
    SqueezeCons(Mark(MUL, "*", false), Print(a, false));
  }

  lemma WordSqueezed(t: DataType)
    requires t.AnyType? || t.InterfaceType? || t.BaseType?
    ensures SqueezesTo(t, t)
  {
    hide SqueezeMarks;
    SqueezeSign(Print(t, false)[0]);
  }

  /** Squeezing the printed tags once more is printing the type with its tags squeezed once more. */
  lemma {:induction false} SqueezedPrint(t: DataType, n: nat)
    ensures SqueezesTo(Squeezed(t, n), Squeezed(t, n + 1))
    decreases t, 0
  {
    hide SqueezesTo;
    match t
    case AnyType | InterfaceType | BaseType(_) => WordSqueezed(t);
    case ArrayType(length, elem) =>
      SqueezedPrint(elem, n + 1);
      ArraySqueezed(length, Squeezed(elem, n + 1), Squeezed(elem, n + 2));
    case SliceType(elem) =>
      SqueezedPrint(elem, n + 1);
      SliceSqueezed(Squeezed(elem, n + 1), Squeezed(elem, n + 2));
    case MapType(key, value) =>
      SqueezedPrint(key, n + 1);
      SqueezedPrint(value, n + 1);
      MapSqueezed(Squeezed(key, n + 1), Squeezed(key, n + 2), Squeezed(value, n + 1), Squeezed(value, n + 2));
    case PointerType(elem) =>
      SqueezedPrint(elem, n + 1);
      PointerSqueezed(Squeezed(elem, n + 1), Squeezed(elem, n + 2));
    case StructType(elems) =>
      SqueezedElemsPrint(elems, n);
      StructSqueezed(SqueezedElems(elems, n), SqueezedElems(elems, n + 1));
  }

  lemma StructSqueezed(a: seq<Elem>, b: seq<Elem>)
    requires SqueezeMarks(PrintElems(a)) == PrintElems(b) && (a == [] <==> b == [])
    ensures SqueezesTo(StructType(a), StructType(b))
  {
    hide SqueezeMarks, PrintElems;
    var close := Mark(RBRACE, "}", a != []);
    SqueezeSign(close);
    SqueezeMarksConcat(PrintElems(a), [close]);
    SqueezeCons(Mark(LBRACE, "{", false), PrintElems(a) + [close]);
  }

  /** The same for a type that begins a line. */
  lemma SqueezedLater(a: DataType, b: DataType, later: bool)
    requires SqueezesTo(a, b)
    ensures SqueezeMarks(Print(a, later)) == Print(b, later)
  {
    hide Print, SqueezeMarks;
    var p, q, r, s := Print(a, false), Print(b, false), Print(a, later), Print(b, later);
    LaterOnlyFirst(a, later);
    LaterOnlyFirst(b, later);
    NoRawFirst(a, later);
    assert p == [p[0]] + p[1..] && q == [q[0]] + q[1..] && r == [r[0]] + r[1..] && s == [s[0]] + s[1..];
    SqueezeCons(p[0], p[1..]);
    SqueezeCons(r[0], r[1..]);
    assert q[0] == p[0];
    assert q[1..] == SqueezeMarks(p[1..]);
    SameFirst(a, b, later);
  }

  lemma NoRawFirst(t: DataType, later: bool)
    ensures Print(t, later)[0].kind != RAW_STRING && Print(t, false)[0].kind != RAW_STRING
  {
    hide PrintElems, LengthMark;
  }

  lemma SameFirst(a: DataType, b: DataType, later: bool)
    requires Print(a, false)[0] == Print(b, false)[0]
    ensures Print(a, later)[0] == Print(b, later)[0]
  {
    hide PrintElems, LengthMark;
  }

  lemma LengthIsSign(length: Length)
    ensures LengthMark(length).kind != RAW_STRING
  {
  }

  lemma {:induction false} SqueezedElemsPrint(elems: seq<Elem>, n: nat)
    ensures SqueezeMarks(PrintElems(SqueezedElems(elems, n))) == PrintElems(SqueezedElems(elems, n + 1))
    decreases elems, 0
  {
    hide SqueezeMarks, PrintElem, SqueezedElem;
    if elems == [] {
      assert SqueezeMarks([]) == [];
    } else {
      var e, rest := elems[0], elems[1..];
      SqueezedElemPrint(e, n + 1);
      SqueezedElemsPrint(rest, n);
      SqueezeMarksConcat(PrintElem(SqueezedElem(e, n + 1)), PrintElems(SqueezedElems(rest, n)));
      assert ([SqueezedElem(e, n + 1)] + SqueezedElems(rest, n))[1..] == SqueezedElems(rest, n);
      assert ([SqueezedElem(e, n + 2)] + SqueezedElems(rest, n + 1))[1..] == SqueezedElems(rest, n + 1);
    }
  }

  lemma {:induction false} SqueezedElemPrint(e: Elem, n: nat)
    ensures SqueezeMarks(PrintElem(SqueezedElem(e, n))) == PrintElem(SqueezedElem(e, n + 1))
    decreases e, 1
  {
    hide SqueezeMarks, Print, PrintNames, Squeezed;
    var s := SqueezedElem(e, n);
    SqueezedTagPrint(e.tag, n);
    SqueezeMarksConcat(PrintBody(s), PrintTag(s.tag));
    SqueezedPrint(e.tp, n);
    SqueezedLater(Squeezed(e.tp, n), Squeezed(e.tp, n + 1), true);
    if e.names != [] {
      SqueezedNames(e.names[1..]);
      SqueezeMarksConcat(PrintNames(e.names[1..]), Print(s.tp, false));
      SqueezeCons(Mark(IDENT, e.names[0], true), PrintNames(e.names[1..]) + Print(s.tp, false));
    }
  }

  lemma SqueezedTagPrint(tag: Option<string>, n: nat)
    ensures SqueezeMarks(PrintTag(if tag.Some? then Some(Times(tag.value, n)) else None)) ==
            PrintTag(if tag.Some? then Some(Times(tag.value, n + 1)) else None)
  {
    hide Squeeze;
  }

  lemma {:induction false} SqueezedNames(names: seq<string>)
    ensures SqueezeMarks(PrintNames(names)) == PrintNames(names)
  {
    hide SqueezeMarks;
    if names == [] {
      assert SqueezeMarks([]) == [];
    } else {
      SqueezedNames(names[1..]);
      SqueezeCons(Mark(IDENT, names[0], false), PrintNames(names[1..]));
      SqueezeCons(Sign(COMMA), [Mark(IDENT, names[0], false)] + PrintNames(names[1..]));
    }
  }

  // ---- the texts of marks ----------------------------------------------------------------------------

  /** No raw string among the marks has a character that the column writer treats in a way of its own. */
  predicate TabFree(ms: seq<Mark>) {
    forall k :: 0 <= k < |ms| ==> TextTabFree(ms[k])
  }

  predicate TextTabFree(m: Mark) {
    m.kind == RAW_STRING ==> forall c <- m.text :: !Special(c)
  }

  lemma TabFreeConcat(a: seq<Mark>, b: seq<Mark>)
    requires TabFree(a) && TabFree(b)
    ensures TabFree(a + b)
  {
    hide TextTabFree;
  }

  lemma TabFreeSign(m: Mark)
    requires m.kind != RAW_STRING
    ensures TabFree([m])
  {
  }

  lemma TabFreeCons(m: Mark, rest: seq<Mark>)
    requires m.kind != RAW_STRING && TabFree(rest)
    ensures TabFree([m] + rest)
  {
    hide TabFree;
    TabFreeSign(m);
    TabFreeConcat([m], rest);
  }

  lemma {:induction false} PrintTabFree(t: DataType, later: bool)
    requires NoTabs(Tags(t))
    ensures TabFree(Print(t, later))
    decreases t, 0
  {
    hide TabFree, NoTabs, LengthMark;
    match t
    case AnyType | InterfaceType | BaseType(_) => TabFreeSign(Print(t, later)[0]);
    case ArrayType(length, elem) =>
      PrintTabFree(elem, false);
      LengthIsSign(length);
      TabFreeCons(Sign(RBRACK), Print(elem, false));
      TabFreeCons(LengthMark(length), [Sign(RBRACK)] + Print(elem, false));
      TabFreeCons(Mark(LBRACK, "[", later), [LengthMark(length)] + ([Sign(RBRACK)] + Print(elem, false)));
    case SliceType(elem) =>
      PrintTabFree(elem, false);
      TabFreeCons(Sign(RBRACK), Print(elem, false));
      TabFreeCons(Mark(LBRACK, "[", later), [Sign(RBRACK)] + Print(elem, false));
    case MapType(key, value) =>
      NoTabsConcat(Tags(key), Tags(value));
      PrintTabFree(key, false);
      PrintTabFree(value, false);
      var v := [Sign(RBRACK)] + Print(value, false);
      TabFreeCons(Sign(RBRACK), Print(value, false));
      TabFreeConcat(Print(key, false), v);
      TabFreeCons(Sign(LBRACK), Print(key, false) + v);
      TabFreeCons(Mark(IDENT, "map", later), [Sign(LBRACK)] + (Print(key, false) + v));
    case PointerType(elem) =>
      PrintTabFree(elem, false);
      TabFreeCons(Mark(MUL, "*", later), Print(elem, false));
    case StructType(elems) =>
      ElemsTabFree(elems);
      var close := Mark(RBRACE, "}", elems != []);
      TabFreeSign(close);
      TabFreeConcat(PrintElems(elems), [close]);
      TabFreeCons(Mark(LBRACE, "{", later), PrintElems(elems) + [close]);
  }

  lemma {:induction false} ElemsTabFree(elems: seq<Elem>)
    requires NoTabs(ElemsTags(elems))
    ensures TabFree(PrintElems(elems))
    decreases elems, 0
  {
    hide TabFree, NoTabs, ElemTags, PrintElem;
    if elems == [] {
      NoneTabFree();
    } else {
      NoTabsConcat(ElemTags(elems[0]), ElemsTags(elems[1..]));
      ElemTabFree(elems[0]);
      ElemsTabFree(elems[1..]);
      TabFreeConcat(PrintElem(elems[0]), PrintElems(elems[1..]));
    }
  }

  lemma NoneTabFree()
    ensures TabFree([])
  {
  }

  lemma {:induction false} ElemTabFree(e: Elem)
    requires NoTabs(ElemTags(e))
    ensures TabFree(PrintElem(e))
    decreases e, 1
  {
    hide TabFree, NoTabs, Print, PrintNames;
    TagTabFree(e.tag, Tags(e.tp));
    PrintTabFree(e.tp, true);
    PrintTabFree(e.tp, false);
    if e.names != [] {
      NamesTabFree(e.names[1..]);
      TabFreeConcat(PrintNames(e.names[1..]), Print(e.tp, false));
      TabFreeCons(Mark(IDENT, e.names[0], true), PrintNames(e.names[1..]) + Print(e.tp, false));
    }
    TabFreeConcat(PrintBody(e), PrintTag(e.tag));
  }

  lemma TagTabFree(tag: Option<string>, others: seq<string>)
    requires NoTabs(others + if tag.Some? then [tag.value] else [])
    ensures TabFree(PrintTag(tag)) && NoTabs(others)
  {
    NoTabsConcat(others, if tag.Some? then [tag.value] else []);
    if tag.Some? {
      assert tag.value in [tag.value];
    }
  }

  lemma {:induction false} NamesTabFree(names: seq<string>)
    ensures TabFree(PrintNames(names))
  {
    hide TabFree;
    if names == [] {
      NoneTabFree();
    } else {
      NamesTabFree(names[1..]);
      TabFreeCons(Mark(IDENT, names[0], false), PrintNames(names[1..]));
      TabFreeCons(Sign(COMMA), [Mark(IDENT, names[0], false)] + PrintNames(names[1..]));
    }
  }

  /** The text of a printed mark has firm ends, and if it is no raw string, no white space at all. */
  lemma MarkIsFirm(m: Mark)
    requires Plain(m)
    ensures m.text != "" && Firm(m.text[0]) && Firm(m.text[|m.text| - 1])
    ensures m.kind != RAW_STRING ==> forall c <- m.text :: !IsSpace(c)
  {
    var t := m.text;
    if m.kind == IDENT || m.kind == INT {
      forall c | c in t
        ensures !IsSpace(c)
      {
        var k :| 0 <= k < |t| && t[k] == c;
        assert (if m.kind == IDENT then Ident else Digit).Has(t[k]);
      }
      assert t[0] in t && t[|t| - 1] in t;
    }
  }

  /** Squeezing the text of a printed mark squeezes the mark. */
  lemma MarkSqueezed(m: Mark)
    requires Plain(m)
    ensures Squeeze(m.text) == SqueezeMark(m).text
  {
    MarkIsFirm(m);
    if m.kind != RAW_STRING {
      assert Tidy(m.text);
      SqueezeShorter(m.text);
    }
  }
}
