/**
 From a type to text and back: every way of spacing out the tokens of a well-formed type scans and parses back to
 that type, the raw text of a type without structs is one of them, and what is parsed from any source is well formed.
 */
module TypeText {
  import opened Tokens
  import opened Lexis
  import opened Grammar
  import opened Source
  import opened Layout
  import opened DataTypes
  import opened ParseSpec
  import opened Formatting
  import opened RoundTrip
  import opened Stream
  import opened TextTrip

  // ---- printed marks are tokens of the language ------------------------------------------------------

  lemma PrintableConcat(a: seq<Mark>, b: seq<Mark>)
    requires AllPrintable(a) && AllPrintable(b)
    ensures AllPrintable(a + b)
  {
    hide Plain;
  }

  lemma PrintableOne(m: Mark)
    requires Plain(m)
    ensures AllPrintable([m])
  {
  }

  lemma SignPrintable(kind: Kind, later: bool)
    requires kind in {LBRACK, RBRACK, LBRACE, RBRACE, MUL, COMMA}
    ensures AllPrintable([Mark(kind, Spelling(kind), later)])
  {
  }

  lemma WordPrintable(name: string, later: bool)
    requires IsIdent(name)
    ensures AllPrintable([Mark(IDENT, name, later)])
  {
    PrintableOne(Mark(IDENT, name, later));
  }

  lemma InterfacePrintable(later: bool)
    ensures AllPrintable([Mark(ANY, "interface{}", later)])
  {
    assert !Ident.Has("interface{}"[9]);
  }

  lemma FixedWords()
    ensures IsIdent("any") && IsIdent("map")
  {
    assert All("any", Ident) && All("map", Ident);
  }

  lemma LengthPrintable(length: Length)
    requires LengthOk(length)
    ensures AllPrintable([LengthMark(length)])
  {
    if length.Fixed? {
      assert Digit.Has(length.digits[0]);
    }
  }

  lemma TagPrintable(tag: Option<string>)
    requires tag.Some? ==> IsQuoted(tag.value, '`')
    ensures AllPrintable(PrintTag(tag))
  {
  }

  lemma {:induction false} NamesPrintable(names: seq<string>)
    requires forall n <- names :: IsName(n)
    ensures AllPrintable(PrintNames(names))
  {
    hide AllPrintable, IsKeyword, IsIdent;
    if names == [] {
      NonePrintable();
    } else {
      assert IsName(names[0]);
      NamesPrintable(names[1..]);
      WordPrintable(names[0], false);
      SignPrintable(COMMA, false);
      PrintableConcat([Mark(IDENT, names[0], false)], PrintNames(names[1..]));
      PrintableConcat([Sign(COMMA)], [Mark(IDENT, names[0], false)] + PrintNames(names[1..]));
    }
  }

  lemma NonePrintable()
    ensures AllPrintable([])
  {
  }

  /** A well-formed type is printed with tokens of the language. */
  lemma {:induction false} TypePrintable(t: DataType, later: bool)
    requires WellFormed(t)
    ensures AllPrintable(Print(t, later))
    decreases t, 1
  {
    hide AllPrintable, IsKeyword, IsIdent, LengthMark, LengthOk, PrintElems;
    FixedWords();
    match t
    case AnyType => WordPrintable("any", later);
    case InterfaceType => InterfacePrintable(later);
    case BaseType(name) => WordPrintable(name, later);
    case ArrayType(length, elem) =>
      TypePrintable(elem, false);
      SignPrintable(LBRACK, later);
      LengthPrintable(length);
      SignPrintable(RBRACK, false);
      PrintableConcat([Sign(RBRACK)], Print(elem, false));
      PrintableConcat([LengthMark(length)], [Sign(RBRACK)] + Print(elem, false));
      PrintableConcat([Mark(LBRACK, "[", later)], [LengthMark(length)] + ([Sign(RBRACK)] + Print(elem, false)));
    case SliceType(elem) =>
      TypePrintable(elem, false);
      SignPrintable(LBRACK, later);
      SignPrintable(RBRACK, false);
      PrintableConcat([Sign(RBRACK)], Print(elem, false));
      PrintableConcat([Mark(LBRACK, "[", later)], [Sign(RBRACK)] + Print(elem, false));
    case MapType(key, value) =>
      TypePrintable(key, false);
      TypePrintable(value, false);
      WordPrintable("map", later);
      SignPrintable(LBRACK, false);
      SignPrintable(RBRACK, false);
      var v := [Sign(RBRACK)] + Print(value, false);
      PrintableConcat([Sign(RBRACK)], Print(value, false));
      PrintableConcat(Print(key, false), v);
      PrintableConcat([Sign(LBRACK)], Print(key, false) + v);
      PrintableConcat([Mark(IDENT, "map", later)], [Sign(LBRACK)] + (Print(key, false) + v));
    case PointerType(elem) =>
      TypePrintable(elem, false);
      SignPrintable(MUL, later);
      PrintableConcat([Mark(MUL, "*", later)], Print(elem, false));
    case StructType(elems) =>
      ElemsPrintable(elems);
      SignPrintable(LBRACE, later);
      SignPrintable(RBRACE, elems != []);
      PrintableConcat(PrintElems(elems), [Close(elems)]);
      PrintableConcat([Mark(LBRACE, "{", later)], PrintElems(elems) + [Close(elems)]);
  }

  lemma {:induction false} ElemsPrintable(elems: seq<Elem>)
    requires forall e <- elems :: ElemOk(e)
    ensures AllPrintable(PrintElems(elems))
    decreases elems, 0
  {
    hide AllPrintable, ElemOk, PrintElem;
    if elems == [] {
      NonePrintable();
    } else {
      assert ElemOk(elems[0]);
      ElemPrintable(elems[0]);
      ElemsPrintable(elems[1..]);
      PrintableConcat(PrintElem(elems[0]), PrintElems(elems[1..]));
    }
  }

  lemma {:induction false} ElemPrintable(e: Elem)
    requires ElemOk(e)
    ensures AllPrintable(PrintElem(e))
    decreases e, 2
  {
    hide AllPrintable, IsKeyword, IsIdent, IsQuoted, Print, PrintNames;
    TagPrintable(e.tag);
    if e.names == [] {
      AnonymousPrintable(e);
    } else {
      var more := e.names[1..];
      assert e.names[0] in e.names && forall n <- more :: n in e.names;
      WordPrintable(e.names[0], true);
      NamesPrintable(more);
      TypePrintable(e.tp, false);
      PrintableConcat(PrintNames(more), Print(e.tp, false));
      PrintableConcat([Mark(IDENT, e.names[0], true)], PrintNames(more) + Print(e.tp, false));
    }
    PrintableConcat(PrintBody(e), PrintTag(e.tag));
  }

  lemma AnonymousPrintable(e: Elem)
    requires ElemOk(e) && e.names == []
    ensures AllPrintable(Print(e.tp, true))
  {
    hide AllPrintable, IsKeyword, IsIdent, IsQuoted;
    FixedWords();
    if e.tp.PointerType? {
      var word := Print(e.tp.elem, false);
      WordPrintable(word[0].text, false);
      SignPrintable(MUL, true);
      PrintableConcat([Mark(MUL, "*", true)], word);
    } else {
      WordPrintable(Print(e.tp, true)[0].text, true);
    }
  }

  // ---- text to type --------------------------------------------------------------------------------

  /** `pieces` lay out the type `t`, from a cursor on `line`, for a parser whose current token is on line `from`. */
  predicate LaysOut(pieces: seq<Piece>, t: DataType, line: int, from: int) {
    && pieces != []
    && Writes(pieces, Print(t, line + NewlineCount(pieces[0].gap) > from))
  }

  /** The marks of what follows the text of a type laid out by `pieces`. */
  ghost function Following(file: string, data: string, c: Cursor, pieces: seq<Piece>): seq<Mark>
    requires |c.lines| > 0
  {
    MarksAt(Tokenize(file, data, After(data, c, |pieces|)), EndLine(pieces, |c.lines|))
  }

  /** The scanner reads a laid-out type, up to what follows. */
  lemma TypeRead(file: string, data: string, c: Cursor, from: int, t: DataType, pieces: seq<Piece>, tail: string)
    requires |c.lines| > 0 && c.pos <= |data| && data[c.pos..] == Text(pieces) + tail
    requires WellFormed(t) && LaysOut(pieces, t, |c.lines|, from) && TextFits(Print(t, false), tail)
    ensures Layout.ReadBack(file, data, c, pieces, tail)
  {
    hide Print, NewlineCount, AllPrintable, TailFits, Text, Separated, Writes, WellFormed, Layout.ReadBack;
    var later := |c.lines| + NewlineCount(pieces[0].gap) > from;
    LaterLast(t, later, tail);
    TypePrintable(t, later);
    WritesSeparated(pieces, Print(t, later), tail);
    LayoutReadBack(file, data, c, pieces, tail);
  }

  /**
   Any layout of a well-formed type, scanned and then parsed, gives the type back and leaves exactly what follows,
   unless what follows runs into the type's last token or does not scan.
   */
  lemma TextRoundTrip(
      file: string, data: string, c: Cursor, from: int, t: DataType, pieces: seq<Piece>, tail: string)
    requires |c.lines| > 0 && c.pos <= |data| && data[c.pos..] == Text(pieces) + tail
    requires WellFormed(t) && LaysOut(pieces, t, |c.lines|, from) && TextFits(Print(t, false), tail)
    requires Peek(Following(file, data, c, pieces)) != ERROR
    ensures var d := After(data, c, |pieces|); d.pos <= |data| && data[d.pos..] == tail
    ensures ParseType(MarksAt(Tokenize(file, data, c), from)) == Ok(t, Following(file, data, c, pieces))
  {
    hide Print, NewlineCount, AllPrintable, TailFits, Tokenize, After, Text, Separated, ParseType, SymMarks, Writes,
      WellFormed, MarksAt;
    var later := |c.lines| + NewlineCount(pieces[0].gap) > from;
    var ms, d := Print(t, later), After(data, c, |pieces|);
    TypeRead(file, data, c, from, t, pieces, tail);
    TypePrintable(t, later);
    MarksAreSymMarks(Tokenize(file, data, c), from);
    PlacedMarks(pieces, ms, |c.lines|, from, Syms(Tokenize(file, data, d)));
    MarksAreSymMarks(Tokenize(file, data, d), EndLine(pieces, |c.lines|));
    TypeRoundTrip(t, later, Following(file, data, c, pieces));
  }

  /** Where a type starts a line does not change what may follow it. */
  lemma LaterLast(t: DataType, later: bool, tail: string)
    ensures TextFits(Print(t, later), tail) == TextFits(Print(t, false), tail)
  {
    hide TailFits, PrintElems, LengthMark;
    var a, b := Print(t, later), Print(t, false);
    LaterOnlyFirst(t, later);
    if |a| > 1 {
      assert a[1..][|a| - 2] == a[|a| - 1] && b[1..][|a| - 2] == b[|a| - 1];
    } else {
      FirstOnly(a[0], b[0], tail);
    }
  }

  lemma FirstOnly(m: Mark, n: Mark, tail: string)
    requires m.kind == n.kind && m.text == n.text
    ensures TailFits(m, CharAt(tail, 0), CharAt(tail, 1)) == TailFits(n, CharAt(tail, 0), CharAt(tail, 1))
  {
  }

  lemma LaterOnlyFirst(t: DataType, later: bool)
    ensures var a, b := Print(t, later), Print(t, false);
            |a| == |b| && a[0].kind == b[0].kind && a[0].text == b[0].text && a[1..] == b[1..]
  {
    hide PrintElems, LengthMark;
  }

  // ---- raw text ------------------------------------------------------------------------------------

  /** Does a struct occur in the type? */
  predicate ContainsStruct(t: DataType) {
    match t
    case AnyType | InterfaceType | BaseType(_) => false
    case ArrayType(_, elem) => ContainsStruct(elem)
    case SliceType(elem) => ContainsStruct(elem)
    case MapType(key, value) => ContainsStruct(key) || ContainsStruct(value)
    case PointerType(elem) => ContainsStruct(elem)
    case StructType(_) => true
  }

  /** There is one exactly if one stands somewhere in the type. */
  lemma StructsArePlaced(t: DataType)
    ensures ContainsStruct(t) <==> exists path :: PartAt(t, path).Some? && PartAt(t, path).value.StructType?
  {
    if ContainsStruct(t) {
      var path := StructPlace(t);
    }
    if path :| PartAt(t, path).Some? && PartAt(t, path).value.StructType? {
      StructStands(t, path);
    }
  }

  lemma {:induction false} StructPlace(t: DataType) returns (path: seq<nat>)
    requires ContainsStruct(t)
    ensures PartAt(t, path).Some? && PartAt(t, path).value.StructType?
    decreases t
  {
    var rest;
    match t
    case ArrayType(_, elem) =>
      rest := StructPlace(elem);
      path := [0] + rest;
    case SliceType(elem) =>
      rest := StructPlace(elem);
      path := [0] + rest;
    case MapType(key, value) =>
      if ContainsStruct(key) {
        rest := StructPlace(key);
        path := [0] + rest;
      } else {
        rest := StructPlace(value);
        path := [1] + rest;
      }
    case PointerType(elem) =>
      rest := StructPlace(elem);
      path := [0] + rest;
    case StructType(_) => path := [];
  }

  lemma {:induction false} StructStands(t: DataType, path: seq<nat>)
    requires PartAt(t, path).Some? && PartAt(t, path).value.StructType?
    ensures ContainsStruct(t)
    decreases t
  {
    if path == [] {
    } else {
      match t
      case ArrayType(_, elem) => StructStands(elem, path[1..]);
      case SliceType(elem) => StructStands(elem, path[1..]);
      case MapType(key, value) => StructStands(if path[0] == 0 then key else value, path[1..]);
      case PointerType(elem) => StructStands(elem, path[1..]);
      case StructType(_) =>
    }
  }

  /** The text of a type without structs: its tokens, with nothing between them. */
  function RawText(t: DataType): string
    requires !ContainsStruct(t)
  {
    match t
    case AnyType => "any"
    case InterfaceType => "interface{}"
    case BaseType(name) => name
    case ArrayType(length, elem) => "[" + (LengthMark(length).text + ("]" + RawText(elem)))
    case SliceType(elem) => "[" + ("]" + RawText(elem))
    case MapType(key, value) => "map" + ("[" + (RawText(key) + ("]" + RawText(value))))
    case PointerType(elem) => "*" + RawText(elem)
  }

  /** Pieces with nothing between them. */
  function Tight(ms: seq<Mark>): (pieces: seq<Piece>)
    ensures |pieces| == |ms|
    ensures forall k :: 0 <= k < |ms| ==> pieces[k] == Piece("", ms[k].kind, ms[k].text)
  {
    if ms == [] then [] else [Piece("", ms[0].kind, ms[0].text)] + Tight(ms[1..])
  }

  function Glue(ms: seq<Mark>): string {
    if ms == [] then "" else ms[0].text + Glue(ms[1..])
  }

  lemma {:induction false} TightText(ms: seq<Mark>)
    ensures Text(Tight(ms)) == Glue(ms)
  {
    if ms == [] {
    } else {
      TightText(ms[1..]);
      assert Tight(ms)[1..] == Tight(ms[1..]);
    }
  }

  lemma {:induction false} GlueConcat(a: seq<Mark>, b: seq<Mark>)
    ensures Glue(a + b) == Glue(a) + Glue(b)
    decreases |a|, 0
  {
    if a == [] {
      assert a + b == b;
    } else {
      var m, rest := a[0], a[1..];
      assert [m] + rest == a;
      Assoc([m], rest, b);
      GlueJoin(m, rest, b);
    }
  }

  lemma {:induction false} GlueJoin(m: Mark, rest: seq<Mark>, b: seq<Mark>)
    ensures Glue([m] + (rest + b)) == Glue([m] + rest) + Glue(b)
    decreases |rest|, 1
  {
    hide Glue;
    GlueConcat(rest, b);
    GlueOne(m, rest + b);
    GlueOne(m, rest);
    Assoc(m.text, Glue(rest), Glue(b));
  }

  lemma GlueOne(m: Mark, rest: seq<Mark>)
    ensures Glue([m] + rest) == m.text + Glue(rest)
  {
    assert ([m] + rest)[1..] == rest;
  }

  /** Marks that stay apart without white space. */
  predicate Compact(ms: seq<Mark>) {
    forall k :: 1 <= k < |ms| ==> !ms[k].later && !Clash(ms[k - 1], ms[k])
  }

  lemma CompactSign(a: seq<Mark>, kind: Kind, rest: seq<Mark>)
    requires kind in {LBRACK, RBRACK} && Compact(a) && Compact([Sign(kind)] + rest)
    ensures Compact(a + ([Sign(kind)] + rest))
  {
    var b := [Sign(kind)] + rest;
    forall k | 1 <= k < |a + b|
      ensures !(a + b)[k].later && !Clash((a + b)[k - 1], (a + b)[k])
    {
      if k > |a| {
        assert (a + b)[k] == b[k - |a|] && (a + b)[k - 1] == b[k - |a| - 1];
      }
    }
  }

  /** `text` is what the marks `ms` spell without white space, of which they need none. */
  predicate SpelledBy(text: string, ms: seq<Mark>) {
    Glue(ms) == text && Compact(ms)
  }

  lemma WordTight(t: DataType, later: bool)
    requires t.AnyType? || t.InterfaceType? || t.BaseType?
    ensures SpelledBy(RawText(t), Print(t, later))
  {
    var m := Print(t, later)[0];
    GlueOne(m, []);
    assert Print(t, later) == [m] + [];
  }

  lemma ArrayTight(length: Length, elem: DataType, later: bool)
    requires !ContainsStruct(elem) && SpelledBy(RawText(elem), Print(elem, false))
    ensures SpelledBy(RawText(ArrayType(length, elem)), Print(ArrayType(length, elem), later))
  {
    hide Clash, Compact, Glue;
    var e, n := Print(elem, false), LengthMark(length);
    AfterSign(RBRACK, false, e);
    GlueOne(n, [Sign(RBRACK)] + e);
    OneCompact(n);
    CompactSign([n], RBRACK, e);
    AfterSign(LBRACK, later, [n] + ([Sign(RBRACK)] + e));
  }

  lemma SliceTight(elem: DataType, later: bool)
    requires !ContainsStruct(elem) && SpelledBy(RawText(elem), Print(elem, false))
    ensures SpelledBy(RawText(SliceType(elem)), Print(SliceType(elem), later))
  {
    hide Clash, Compact, Glue;
    AfterSign(RBRACK, false, Print(elem, false));
    AfterSign(LBRACK, later, [Sign(RBRACK)] + Print(elem, false));
  }

  lemma MapTight(key: DataType, value: DataType, later: bool)
    requires !ContainsStruct(key) && SpelledBy(RawText(key), Print(key, false))
    requires !ContainsStruct(value) && SpelledBy(RawText(value), Print(value, false))
    ensures SpelledBy(RawText(MapType(key, value)), Print(MapType(key, value), later))
  {
    hide Clash, Compact, Glue;
    var k, v, m := Print(key, false), Print(value, false), Mark(IDENT, "map", later);
    AfterSign(RBRACK, false, v);
    GlueConcat(k, [Sign(RBRACK)] + v);
    CompactSign(k, RBRACK, v);
    AfterSign(LBRACK, false, k + ([Sign(RBRACK)] + v));
    GlueOne(m, [Sign(LBRACK)] + (k + ([Sign(RBRACK)] + v)));
    OneCompact(m);
    CompactSign([m], LBRACK, k + ([Sign(RBRACK)] + v));
  }

  lemma PointerTight(elem: DataType, later: bool)
    requires !ContainsStruct(elem) && SpelledBy(RawText(elem), Print(elem, false))
    ensures SpelledBy(RawText(PointerType(elem)), Print(PointerType(elem), later))
  {
    hide Clash, Compact, Glue;
    AfterSign(MUL, later, Print(elem, false));
  }

  /** The raw text is the printed tokens without white space, and none is needed. */
  lemma {:induction false} RawTextIsTight(t: DataType, later: bool)
    requires !ContainsStruct(t)
    ensures SpelledBy(RawText(t), Print(t, later))
    decreases t
  {
    hide SpelledBy;
    match t
    case AnyType | InterfaceType | BaseType(_) => WordTight(t, later);
    case ArrayType(length, elem) =>
      RawTextIsTight(elem, false);
      ArrayTight(length, elem, later);
    case SliceType(elem) =>
      RawTextIsTight(elem, false);
      SliceTight(elem, later);
    case MapType(key, value) =>
      RawTextIsTight(key, false);
      RawTextIsTight(value, false);
      MapTight(key, value, later);
    case PointerType(elem) =>
      RawTextIsTight(elem, false);
      PointerTight(elem, later);
  }

  lemma OneCompact(m: Mark)
    ensures Compact([m])
  {
  }

  lemma AfterSign(kind: Kind, later: bool, rest: seq<Mark>)
    requires kind in {LBRACK, RBRACK, MUL}
    ensures Glue([Mark(kind, Spelling(kind), later)] + rest) == Spelling(kind) + Glue(rest)
    ensures Compact(rest) && rest != [] && !rest[0].later ==> Compact([Mark(kind, Spelling(kind), later)] + rest)
  {
    hide Glue;
    GlueOne(Mark(kind, Spelling(kind), later), rest);
  }

  /** The raw text of a type without structs, scanned and parsed, gives the type back. */
  lemma RawTextRoundTrip(file: string, data: string, c: Cursor, from: int, t: DataType, tail: string)
    requires |c.lines| > 0 && c.pos <= |data|
    requires WellFormed(t) && !ContainsStruct(t)
    requires data[c.pos..] == RawText(t) + tail && TextFits(Print(t, false), tail)
    requires Peek(Following(file, data, c, Tight(Print(t, false)))) != ERROR
    ensures ParseType(MarksAt(Tokenize(file, data, c), from)) == Ok(t, Following(file, data, c, Tight(Print(t, false))))
  {
    hide Glue, Print, Compact, Text, Tokenize, ParseType, MarksAt, After, NewlineCount, Writes, TailFits, WellFormed;
    var later := |c.lines| > from;
    var pieces := Tight(Print(t, later));
    RawTextIsTight(t, later);
    NoGap();
    TightWrites(Print(t, later));
    TightText(Print(t, later));
    TightAlike(t, later);
    TextRoundTrip(file, data, c, from, t, pieces, tail);
  }

  lemma TightAlike(t: DataType, later: bool)
    ensures Tight(Print(t, later)) == Tight(Print(t, false))
  {
    hide Print;
    var a, b := Print(t, later), Print(t, false);
    OnlyFirstIsLater(t, later);
    assert a == [a[0]] + a[1..] && b == [b[0]] + b[1..];
  }

  lemma OnlyFirstIsLater(t: DataType, later: bool)
    ensures var a, b := Print(t, later), Print(t, false);
            a != [] && b != [] && a[0].kind == b[0].kind && a[0].text == b[0].text && a[1..] == b[1..]
  {
  }

  // ---- whole files -----------------------------------------------------------------------------------

  /** A source that holds nothing more gives the parser the end of input. */
  lemma NothingFollows(file: string, data: string, d: Cursor, line: int)
    requires |d.lines| > 0 && d.pos == |data| && line >= 0
    ensures MarksAt(Tokenize(file, data, d), line) == [Mark(EOF, "", false)]
  {
    assert Stops(data, d);
    assert Tokenize(file, data, d) == [EOF_TOKEN];
  }

  lemma {:induction false} EndLineGrows(pieces: seq<Piece>, line: int)
    ensures EndLine(pieces, line) >= line
    decreases |pieces|
  {
    if pieces == [] {
    } else {
      EndLineGrows(pieces[1..], line + NewlineCount(pieces[0].gap));
    }
  }

  /** White space between the marks `p` and `m`, where it is needed. */
  function Gap(p: Mark, m: Mark): string {
    if m.later then "\n"
    else if p.kind in {LBRACK, RBRACK, LBRACE, MUL} || m.kind in {COMMA, RBRACK, RBRACE} then ""
    else if p.text == "map" && m.kind == LBRACK then ""
    else " "
  }

  function SpacedOut(ms: seq<Mark>): (pieces: seq<Piece>)
    ensures |pieces| == |ms|
  {
    seq(|ms|, k requires 0 <= k < |ms| => Piece(if k == 0 then "" else Gap(ms[k - 1], ms[k]), ms[k].kind, ms[k].text))
  }

  lemma GapFits(p: Mark, m: Mark)
    ensures All(Gap(p, m), Space) && (NewlineCount(Gap(p, m)) > 0 <==> m.later) && (Clash(p, m) ==> Gap(p, m) != "")
  {
    assert NewlineCount("") == 0 && NewlineCount(" ") == NewlineCount("") && NewlineCount("\n") == NewlineCount("") + 1;
  }

  lemma SpacedAt(ms: seq<Mark>, k: nat)
    requires k < |ms|
    ensures SpacedOut(ms)[k] == Piece(if k == 0 then "" else Gap(ms[k - 1], ms[k]), ms[k].kind, ms[k].text)
  {
  }

  /** That white space is enough. */
  lemma SpacedWrites(ms: seq<Mark>)
    ensures Writes(SpacedOut(ms), ms)
  {
    hide Gap, NewlineCount, Clash, All, SpacedOut;
    forall k | 0 <= k < |ms|
      ensures SpacedOut(ms)[k].kind == ms[k].kind && SpacedOut(ms)[k].text == ms[k].text &&
              All(SpacedOut(ms)[k].gap, Space)
      ensures k > 0 ==> (NewlineCount(SpacedOut(ms)[k].gap) > 0 <==> ms[k].later)
      ensures k > 0 && Clash(ms[k - 1], ms[k]) ==> SpacedOut(ms)[k].gap != ""
    {
      SpacedAt(ms, k);
      if k == 0 {
        NoGap();
      } else {
        GapFits(ms[k - 1], ms[k]);
      }
    }
  }

  lemma NoGap()
    ensures All("", Space) && NewlineCount("") == 0
  {
  }

  /** One way to write a type: no more white space than its tokens need, and the elements of structs on their lines. */
  function Spaced(t: DataType): string {
    Text(SpacedOut(Print(t, true)))
  }

  /** Every well-formed type, structs included, can be written so that it is parsed. */
  lemma SpacedTextParses(file: string, t: DataType)
    requires WellFormed(t)
    ensures ParseType(MarksAt(Tokenize(file, Spaced(t), START), 0)) == Ok(t, [Mark(EOF, "", false)])
  {
    hide Print, NewlineCount, SpacedOut, Text, Tokenize, ParseType, MarksAt, WellFormed, Writes, After;
    var pieces, data := SpacedOut(Print(t, true)), Spaced(t);
    var d := After(data, START, |pieces|);
    NoGap();
    SpacedWrites(Print(t, true));
    FirstGap(Print(t, true));
    assert data + "" == data && data[0..] == data;
    NothingRunsOn(t);
    TypeRead(file, data, START, 0, t, pieces, "");
    EndLineGrows(pieces, 1);
    NothingFollows(file, data, d, EndLine(pieces, 1));
    TextRoundTrip(file, data, START, 0, t, pieces, "");
  }

  /** The raw text of a type without structs, alone in a file, parses to the type. */
  lemma RawTextParses(file: string, t: DataType)
    requires WellFormed(t) && !ContainsStruct(t)
    ensures ParseType(MarksAt(Tokenize(file, RawText(t), START), 0)) == Ok(t, [Mark(EOF, "", false)])
  {
    hide Glue, Print, Compact, NewlineCount, Text, Tokenize, ParseType, MarksAt, WellFormed, Writes, After;
    var pieces, data := Tight(Print(t, true)), RawText(t);
    NoGap();
    RawTextIsTight(t, true);
    TightText(Print(t, true));
    TightWrites(Print(t, true));
    assert data + "" == data && data[0..] == data;
    NothingRunsOn(t);
    TypeRead(file, data, START, 0, t, pieces, "");
    EndLineGrows(pieces, 1);
    NothingFollows(file, data, After(data, START, |pieces|), EndLine(pieces, 1));
    TextRoundTrip(file, data, START, 0, t, pieces, "");
  }

  lemma TightWrites(ms: seq<Mark>)
    requires Compact(ms)
    ensures Writes(Tight(ms), ms)
  {
    hide Clash;
    NoGap();
  }

  lemma FirstGap(ms: seq<Mark>)
    requires ms != []
    ensures SpacedOut(ms)[0].gap == ""
  {
  }

  lemma NothingRunsOn(t: DataType)
    ensures TextFits(Print(t, false), "")
  {
  }

  // ---- what is parsed from a source ------------------------------------------------------------------

  /** Only identifiers have the texts of words, and the parser's kinds have the texts they should. */
  lemma LexemeLegal(kind: Kind, t: string, next: char, next2: char, m: Mark)
    requires IsLexeme(kind, t, next, next2) && (kind == DURATION ==> t != "" && IsDigit(t[0]))
    requires m.kind == kind && m.text == t
    ensures Legal(m)
  {
    if kind == DURATION {
      var parts :| Spells(parts, ABOVE_HOUR, t, next);
      DurationText(parts, ABOVE_HOUR);
    }
    if t != "" && All(t, Digit) {
      assert Digit.Has(t[0]);
    }
    if |t| > 1 && All(t, Ident) {
      assert Ident.Has(t[|t| - 1]) && (|t| == 11 ==> Ident.Has(t[9]));
    }
  }

  /** A duration has neither blanks nor brackets. */
  lemma {:induction false} DurationText(parts: seq<Component>, bound: nat)
    requires Falling(parts, bound)
    ensures ' ' !in Render(parts) && ']' !in Render(parts)
  {
    if parts == [] {
    } else {
      DurationText(parts[1..], parts[0].unit.Rank());
      forall k | 0 <= k < |parts[0].digits|
        ensures parts[0].digits[k] != ' ' && parts[0].digits[k] != ']'
      {
        assert Digit.Has(parts[0].digits[k]);
      }
      assert ' ' !in parts[0].unit.Text() && ']' !in parts[0].unit.Text();
    }
  }

  lemma NoPath(data: string, i: nat)
    ensures Lex(data, i).kind != PATH
  {
  }

  lemma TokenLegal(file: string, data: string, c: Cursor, from: int, noted: bool)
    requires |c.lines| > 0
    ensures Legal(MarkFrom(NextToken(file, data, c), from, noted))
  {
    hide Legal, IsLexeme, Lex;
    var w, t := TokenStart(data, c), NextToken(file, data, c);
    var l := Lex(data, w);
    Extent(data, w);
    NoPath(data, w);
    OnlyIllegalStops(file, data, c);
    if Produced(l.kind) && l.at == w {
      ReadIsLexeme(data, w);
      LexemeLegal(l.kind, l.text, CharAt(data, l.end), CharAt(data, l.end + 1), MarkFrom(t, from, noted));
    } else {
      PlainLegal(MarkFrom(t, from, noted));
    }
  }

  lemma ReadIsLexeme(data: string, w: nat)
    requires Produced(Lex(data, w).kind) && Lex(data, w).at == w
    ensures var l := Lex(data, w);
            && IsLexeme(l.kind, l.text, CharAt(data, l.end), CharAt(data, l.end + 1))
            && (l.kind == DURATION ==> l.text != "" && IsDigit(l.text[0]))
  {
    hide IsLexeme, Lex;
    var l := Lex(data, w);
    Extent(data, w);
    ScannerReadsGrammar(data, w, l.kind, l.text, l.end);
    if l.kind == DURATION {
      ReadHead(data, w);
      StandsChar(data, w, l.text, l.end, 0);
    }
  }

  lemma PlainLegal(m: Mark)
    requires m.kind in {EOF, ERROR, ILLEGAL, DOT} && |m.text| <= 1
    ensures Legal(m)
  {
  }

  lemma AllLegalCons(m: Mark, rest: seq<Mark>)
    requires Legal(m) && AllLegal(rest)
    ensures AllLegal([m] + rest)
  {
    hide Legal;
  }

  /** Whatever the source, the marks it gives the parser are legal. */
  lemma {:induction false} ScannedLegal(file: string, data: string, c: Cursor, from: int, noted: bool := false)
    requires |c.lines| > 0
    ensures AllLegal(MarksAt(Tokenize(file, data, c), from, noted))
    decreases |data| - c.pos
  {
    hide Legal, AllLegal, Lex, NextLexeme, TokenStart, NextToken, Stops, MarksAt;
    var t, next := NextToken(file, data, c), NextCursor(data, c);
    NoneLegal();
    TokenLegal(file, data, c, from, noted);
    OnlyIllegalStops(file, data, c);
    if Stops(data, c) {
      FinalMark(t, from, noted);
      AllLegalCons(MarkFrom(t, from, noted), []);
    } else {
      Progress(data, c);
      TokenizeStep(file, data, c);
      if IsComment(t) {
        CommentIsNoMark(t, Tokenize(file, data, next), from, noted);
        ScannedLegal(file, data, next, from, noted || t.position.line == from);
      } else {
        ScannedLegal(file, data, next, t.position.line);
        MarkCons(t, Tokenize(file, data, next), from, noted);
        AllLegalCons(MarkFrom(t, from, noted), []);
        AllLegalCons(MarkFrom(t, from, noted), MarksAt(Tokenize(file, data, next), t.position.line));
      }
    }
  }

  lemma FinalMark(t: Token, from: int, noted: bool)
    requires Final(t.kind)
    ensures MarksAt([t], from, noted) == [MarkFrom(t, from, noted)] + []
  {
  }

  lemma MarkCons(t: Token, rest: seq<Token>, from: int, noted: bool)
    requires !IsComment(t)
    ensures MarksAt([t] + rest, from, noted) ==
            [MarkFrom(t, from, noted)] + if Final(t.kind) then [] else MarksAt(rest, t.position.line)
  {
    assert ([t] + rest)[1..] == rest;
  }

  lemma NoneLegal()
    ensures AllLegal([])
  {
  }

  /** A type parsed from any source is well formed, and consists of the very words it was parsed from. */
  lemma ParsedIsWellFormed(file: string, data: string, c: Cursor, from: int)
    requires |c.lines| > 0 && ParseType(MarksAt(Tokenize(file, data, c), from)).Ok?
    ensures var ms := MarksAt(Tokenize(file, data, c), from);
            var Ok(t, rest) := ParseType(ms);
            WellFormed(t) && Words(ms) == Words(Print(t, false)) + Words(rest)
  {
    hide AllLegal, MarksAt, Tokenize, ParseType, Print, WellFormed, Words;
    ScannedLegal(file, data, c, from);
    TypeKept(MarksAt(Tokenize(file, data, c), from));
  }

  /** The types that some source parses to are exactly the well-formed ones. */
  lemma WellFormedIffParsed(t: DataType)
    ensures WellFormed(t) <==>
            exists data: string :: ParseType(MarksAt(Tokenize("", data, START), 0)).Ok? &&
                                   ParseType(MarksAt(Tokenize("", data, START), 0)).value == t
  {
    hide MarksAt, Tokenize, ParseType, WellFormed, Spaced, Print, Words;
    if WellFormed(t) {
      SpacedTextParses("", t);
    }
    forall data: string | ParseType(MarksAt(Tokenize("", data, START), 0)).Ok?
      ensures WellFormed(ParseType(MarksAt(Tokenize("", data, START), 0)).value)
    {
      ParsedIsWellFormed("", data, START, 0);
    }
  }
}
