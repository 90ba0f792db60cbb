/** What is printed of a type parses back, and when it parses back to the type itself. */
module PrintTrip {
  import opened Tokens
  import opened Lexis
  import opened Grammar
  import opened Source
  import opened Layout
  import opened DataTypes
  import opened ParseSpec
  import opened Formatting
  import opened RoundTrip
  import opened Stream
  import opened TextTrip
  import opened TypeText
  import opened Printer
  import opened Comments
  import opened Squeezing

  // ---- laid-out text ---------------------------------------------------------------------------------

  /** `pieces` lay out the marks `ms` as the text `text`, the first of them on the line on which the text starts. */
  predicate Lays(pieces: seq<Piece>, text: string, ms: seq<Mark>) {
    && ms != [] && Writes(pieces, ms) && Text(pieces) == text
    && (forall k :: 0 <= k < |pieces| ==> IsGap(pieces[k].gap)) && '\n' !in pieces[0].gap
  }

  ghost predicate Laid(text: string, ms: seq<Mark>) {
    exists pieces :: Lays(pieces, text, ms)
  }

  lemma {:induction false} CountsNewline(gap: string)
    ensures NewlineCount(gap) > 0 <==> '\n' in gap
  {
    if gap == "" {
    } else {
      var n := |gap| - 1;
      CountsNewline(gap[..n]);
      assert gap == gap[..n] + [gap[n]];
    }
  }

  lemma GapIsSpace(gap: string)
    requires IsGap(gap)
    ensures All(gap, Space)
  {
    assert forall k :: 0 <= k < |gap| ==> gap[k] in gap;
  }

  lemma {:induction false} TextConcat(a: seq<Piece>, b: seq<Piece>)
    ensures Text(a + b) == Text(a) + Text(b)
  {
    if a == [] {
      assert a + b == b;
    } else {
      assert (a + b)[1..] == a[1..] + b;
      TextConcat(a[1..], b);
    }
  }

  /** The pieces with more white space before the first of them. */
  function Shifted(gap: string, pieces: seq<Piece>): (r: seq<Piece>)
    requires pieces != []
    ensures |r| == |pieces|
  {
    [Piece(gap + pieces[0].gap, pieces[0].kind, pieces[0].text)] + pieces[1..]
  }

  lemma ShiftedText(gap: string, pieces: seq<Piece>)
    requires pieces != []
    ensures Text(Shifted(gap, pieces)) == gap + Text(pieces)
  {
    assert Shifted(gap, pieces)[1..] == pieces[1..];
  }

  lemma ShiftedLays(gap: string, pieces: seq<Piece>, text: string, ms: seq<Mark>)
    requires Lays(pieces, text, ms) && IsGap(gap) && '\n' !in gap
    ensures Lays(Shifted(gap, pieces), gap + text, ms)
  {
    hide BreaksAs, Clash, All, Text;
    ShiftedText(gap, pieces);
    GapIsSpace(gap + pieces[0].gap);
  }

  /** More white space before the text. */
  lemma LaidShift(gap: string, text: string, ms: seq<Mark>)
    requires Laid(text, ms) && IsGap(gap) && '\n' !in gap
    ensures Laid(gap + text, ms)
  {
    hide Lays;
    var pieces :| Lays(pieces, text, ms);
    ShiftedLays(gap, pieces, text, ms);
  }

  /** One text behind the other, the lines broken as the marks say and words kept apart. */
  lemma LaidJoin(s: string, ms: seq<Mark>, gap: string, t: string, ns: seq<Mark>)
    requires Laid(s, ms) && Laid(t, ns) && ms != [] && ns != []
    requires IsGap(gap) && (ns[0].kind == RAW_STRING || ('\n' in gap <==> ns[0].later))
    requires Clash(ms[|ms| - 1], ns[0]) ==> gap != ""
    ensures Laid(s + (gap + t), ms + ns)
  {
    hide Lays, Clash;
    var a :| Lays(a, s, ms);
    var b :| Lays(b, t, ns);
    PiecesJoin(a, s, ms, gap, b, t, ns);
  }

  lemma PiecesJoin(a: seq<Piece>, s: string, ms: seq<Mark>, gap: string, b: seq<Piece>, t: string, ns: seq<Mark>)
    requires Lays(a, s, ms) && Lays(b, t, ns)
    requires IsGap(gap) && (ns[0].kind == RAW_STRING || ('\n' in gap <==> ns[0].later))
    requires Clash(ms[|ms| - 1], ns[0]) ==> gap != ""
    ensures Lays(a + Shifted(gap, b), s + (gap + t), ms + ns)
  {
    hide Text, All, Clash, NewlineCount;
    var c, p := Shifted(gap, b), a + Shifted(gap, b);
    var all := ms + ns;
    ShiftedText(gap, b);
    TextConcat(a, c);
    GapIsSpace(gap + b[0].gap);
    CountsNewline(gap + b[0].gap);
    forall k | 1 <= k < |all|
      ensures BreaksAs(p[k].gap, all[k]) && (Clash(all[k - 1], all[k]) ==> p[k].gap != "")
    {
      if k > |a| {
        assert p[k] == b[k - |a|] && all[k] == ns[k - |a|] && all[k - 1] == ns[k - |a| - 1];
      }
    }
  }

  lemma LaidWord(prefix: string, m: Mark)
    requires IsGap(prefix) && '\n' !in prefix
    ensures Laid(prefix + m.text, [m])
  {
    var pieces := [Piece(prefix, m.kind, m.text)];
    GapIsSpace(prefix);
    assert pieces[1..] == [] && m.text + "" == m.text;
    assert Lays(pieces, prefix + m.text, [m]);
  }

  /** Whether the first mark begins a line is not told by its text. */
  lemma LaidLater(text: string, ms: seq<Mark>, ns: seq<Mark>)
    requires Laid(text, ms) && ms != [] && |ns| == |ms|
    requires ns[0].kind == ms[0].kind && ns[0].text == ms[0].text && ns[1..] == ms[1..]
    ensures Laid(text, ns)
  {
    hide Clash, All, Text;
    var pieces :| Lays(pieces, text, ms);
    assert Lays(pieces, text, ns) by {
      forall k | 1 <= k < |ns|
        ensures ns[k] == ms[k]
      {
        assert ns[k] == ns[1..][k - 1] && ms[k] == ms[1..][k - 1];
      }
      if |ns| > 1 {
        assert Clash(ms[0], ms[1]) == Clash(ns[0], ns[1]) by { SameClash(ms[0], ns[0], ms[1]); }
      }
    }
  }

  lemma SameClash(m: Mark, n: Mark, next: Mark)
    requires m.kind == n.kind && m.text == n.text
    ensures Clash(m, next) == Clash(n, next)
  {
  }

  // ---- squeezing and padding laid-out text -----------------------------------------------------------

  function SqueezePieces(pieces: seq<Piece>): (r: seq<Piece>)
    ensures |r| == |pieces|
  {
    if pieces == [] then []
    else [Piece(Squeeze(pieces[0].gap), pieces[0].kind, Squeeze(pieces[0].text))] + SqueezePieces(pieces[1..])
  }

  lemma {:induction false} SqueezePiecesAt(pieces: seq<Piece>, k: nat)
    requires k < |pieces|
    ensures SqueezePieces(pieces)[k] == Piece(Squeeze(pieces[k].gap), pieces[k].kind, Squeeze(pieces[k].text))
  {
    if k == 0 {
    } else {
      SqueezePiecesAt(pieces[1..], k - 1);
    }
  }

  predicate FirmText(t: string) {
    t != "" && Firm(t[0]) && Firm(t[|t| - 1])
  }

  /** A text is squeezed piece by piece if the pieces' texts have firm ends. */
  lemma {:induction false} SqueezeText(pieces: seq<Piece>)
    requires forall k :: 0 <= k < |pieces| ==> FirmText(pieces[k].text)
    ensures Squeeze(Text(pieces)) == Text(SqueezePieces(pieces))
  {
    hide Squeeze;
    if pieces == [] {
      NothingSqueezed();
    } else {
      var p, rest := pieces[0], pieces[1..];
      assert FirmText(p.text) && (p.text + Text(rest))[0] == p.text[0];
      SqueezeJoin(p.gap, p.text + Text(rest));
      SqueezeJoin(p.text, Text(rest));
      SqueezeText(rest);
      assert SqueezePieces(pieces)[1..] == SqueezePieces(rest);
    }
  }

  lemma NothingSqueezed()
    ensures Squeeze("") == ""
  {
  }

  lemma SqueezeGap(gap: string)
    requires IsGap(gap)
    ensures var g := Squeeze(gap); IsGap(g) && ('\n' in g <==> '\n' in gap) && (g == "" <==> gap == "")
  {
    hide Squeeze;
    SqueezeKeeps(gap);
    if gap == "" {
      NothingSqueezed();
    }
  }

  /** A laid-out text that is squeezed lays out the squeezed marks. */
  lemma LaidSqueeze(text: string, ms: seq<Mark>)
    requires Laid(text, ms) && AllPrintable(ms)
    ensures Laid(Squeeze(text), SqueezeMarks(ms))
  {
    hide Lays, Squeeze;
    var pieces :| Lays(pieces, text, ms);
    PiecesSqueezed(pieces, text, ms);
  }

  lemma PiecesSqueezed(pieces: seq<Piece>, text: string, ms: seq<Mark>)
    requires Lays(pieces, text, ms) && AllPrintable(ms)
    ensures Lays(SqueezePieces(pieces), Squeeze(text), SqueezeMarks(ms))
  {
    hide Text, All, Clash, NewlineCount, Plain, Squeeze;
    var r, ns := SqueezePieces(pieces), SqueezeMarks(ms);
    forall k | 0 <= k < |ms|
      ensures FirmText(pieces[k].text) && r[k].kind == ns[k].kind && r[k].text == ns[k].text && IsGap(r[k].gap)
      ensures All(r[k].gap, Space) && ('\n' in r[k].gap <==> '\n' in pieces[k].gap)
      ensures k > 0 ==> BreaksAs(r[k].gap, ns[k])
      ensures k > 0 && Clash(ns[k - 1], ns[k]) ==> r[k].gap != ""
    {
      assert Plain(ms[k]);
      MarkIsFirm(ms[k]);
      MarkSqueezed(ms[k]);
      SqueezePiecesAt(pieces, k);
      SqueezeGap(pieces[k].gap);
      GapIsSpace(r[k].gap);
      CountsNewline(pieces[k].gap);
      CountsNewline(r[k].gap);
      if k > 0 {
        SqueezedClash(ms[k - 1], ms[k]);
      }
    }
    SqueezeText(pieces);
  }

  lemma SqueezedClash(a: Mark, b: Mark)
    ensures Clash(SqueezeMark(a), SqueezeMark(b)) == Clash(a, b)
  {
    hide Squeeze;
  }

  /** A laid-out text that goes through the column writer lays out the same marks. */
  lemma LaidPad(text: string, ms: seq<Mark>, pad: string -> string)
    requires Laid(text, ms) && AllPrintable(ms) && TabFree(ms) && Pads(pad)
    ensures Laid(pad(text), ms)
  {
    hide Lays, Padded;
    var pieces :| Lays(pieces, text, ms);
    var r := PiecesPadded(pieces, text, ms, pad(text));
  }

  lemma PiecesPadded(pieces: seq<Piece>, text: string, ms: seq<Mark>, o: string) returns (r: seq<Piece>)
    requires Lays(pieces, text, ms) && AllPrintable(ms) && TabFree(ms) && Padded(text, o)
    ensures Lays(r, o, ms)
  {
    hide Text, All, Clash, NewlineCount, Padded, Plain, TextTabFree;
    forall k | 0 <= k < |pieces|
      ensures forall c <- pieces[k].text :: !Special(c)
    {
      assert Plain(ms[k]) && TextTabFree(ms[k]);
      NoSpecial(ms[k]);
    }
    r := PadPieces(pieces, o);
    assert forall k :: 0 <= k < |r| ==> PadsPiece(pieces[k], r[k]);
    forall k | 0 <= k < |ms|
      ensures All(r[k].gap, Space) && (k > 0 ==> BreaksAs(r[k].gap, ms[k]))
    {
      GapIsSpace(r[k].gap);
      CountsNewline(pieces[k].gap);
      CountsNewline(r[k].gap);
    }
  }

  lemma NoSpecial(m: Mark)
    requires Plain(m) && TextTabFree(m)
    ensures forall c <- m.text :: !Special(c)
  {
    hide Plain;
    MarkIsFirm(m);
  }

  /**
   Only the white space before the text of a piece may change, to other white space that breaks the line if it did.
   */
  predicate PadsPiece(p: Piece, q: Piece) {
    && q.kind == p.kind && q.text == p.text && IsGap(q.gap)
    && ('\n' in q.gap <==> '\n' in p.gap) && (q.gap == "" <==> p.gap == "")
  }

  predicate PadsPieces(pieces: seq<Piece>, r: seq<Piece>) {
    |r| == |pieces| && forall k :: 0 <= k < |r| ==> PadsPiece(pieces[k], r[k])
  }

  lemma PadsCons(p: Piece, q: Piece, rest: seq<Piece>, more: seq<Piece>)
    requires PadsPiece(p, q) && PadsPieces(rest, more)
    ensures PadsPieces([p] + rest, [q] + more) && Text([q] + more) == q.gap + (q.text + Text(more))
  {
    hide PadsPiece;
    assert ([q] + more)[1..] == more;
  }

  /** The pieces of a padded text. */
  lemma {:induction false} PadPieces(pieces: seq<Piece>, o: string) returns (r: seq<Piece>)
    requires Padded(Text(pieces), o)
    requires forall k :: 0 <= k < |pieces| ==> IsGap(pieces[k].gap) && forall c <- pieces[k].text :: !Special(c)
    ensures PadsPieces(pieces, r) && Text(r) == o
    decreases |pieces|
  {
    hide Padded, IsGap, Special, PadsPieces;
    if pieces == [] {
      assert o == "" by { PaddedNone("", o); }
      r := [];
      assert PadsPieces(pieces, r) by { NonePadded(); }
    } else {
      var p, rest := pieces[0], pieces[1..];
      var gap, behind := PaddedJoin(p.gap, p.text + Text(rest), o);
      var text, tail := PaddedJoin(p.text, Text(rest), behind);
      PaddedGap(p.gap, gap);
      PaddedNone(p.text, text);
      var more := PadPieces(rest, tail);
      r := [Piece(gap, p.kind, p.text)] + more;
      PadsCons(p, Piece(gap, p.kind, p.text), rest, more);
      assert [p] + rest == pieces;
    }
  }

  lemma NonePadded()
    ensures PadsPieces([], [])
  {
  }

  // ---- the printer lays out the squeezed type --------------------------------------------------------

  /** A sign before a text. */
  lemma LaidSign(m: Mark, t: string, ns: seq<Mark>)
    requires Laid(t, ns) && ns != [] && !ns[0].later && ns[0].kind != RAW_STRING && !Clash(m, ns[0])
    ensures Laid(m.text + t, [m] + ns)
  {
    hide Laid, Clash;
    LaidWord("", m);
    assert "" + m.text == m.text && "" + t == t;
    LaidJoin(m.text, [m], "", t, ns);
  }

  /** A type printed in one piece, squeezed and padded. */
  lemma Emitted(text: string, u: DataType, v: DataType, w: Writer)
    requires Laid(text, Print(u, false)) && SqueezesTo(u, v) && Pads(w.pad)
    requires AllPrintable(Print(u, false)) && AllPrintable(Print(v, false)) && TabFree(Print(v, false))
    ensures Laid(w.pad(Squeeze(text)), Print(v, false))
  {
    hide Laid, Squeeze, Print, AllPrintable, TabFree, Pads, SqueezeMarks;
    LaidSqueeze(text, Print(u, false));
    LaidPad(Squeeze(text), Print(v, false), w.pad);
  }

  /** The same for a well-formed type. */
  lemma EmittedType(text: string, t: DataType, u: DataType, w: Writer)
    requires WellFormed(t) && NoTabs(Tags(t)) && WellFormed(u) && SqueezesTo(u, Squeezed(t, 0)) && Pads(w.pad)
    requires Laid(text, Print(u, false))
    ensures Laid(w.pad(Squeeze(text)), Print(Squeezed(t, 0), false))
  {
    hide Laid, Squeeze, Print, AllPrintable, TabFree, Pads, SqueezesTo, WellFormed, NoTabs, Tags, Squeezed;
    SqueezedFacts(t, 0);
    TypePrintable(u, false);
    TypePrintable(Squeezed(t, 0), false);
    PrintTabFree(Squeezed(t, 0), false);
    Emitted(text, u, Squeezed(t, 0), w);
  }

  /** The first mark of a type is a sign or a word, and only words run into words. */
  lemma FirstMark(t: DataType)
    ensures var m := Print(t, false)[0];
            && !m.later && !m.noted && m.kind != RAW_STRING
            && forall a: Mark :: a.kind != IDENT && a.kind != INT ==> !Clash(a, m)
  {
    hide PrintElems, LengthMark;
  }

  ghost predicate FormatLaid(t: DataType, prefix: string, w: Writer) {
    Laid(Format(t, prefix, w), Print(Squeezed(t, 0), false))
  }

  /** The texts of types, given those of their parts. */
  lemma ArrayText(length: Length, u: DataType, f: string)
    requires Laid(f, Print(u, false))
    ensures Laid("[" + (LengthMark(length).text + ("]" + f)), Print(ArrayType(length, u), false))
  {
    hide Laid, Clash, LengthMark;
    var e := Print(u, false);
    FirstMark(u);
    LaidSign(Sign(RBRACK), f, e);
    LengthNoClash(length);
    LaidSign(LengthMark(length), "]" + f, [Sign(RBRACK)] + e);
    LaidSign(
      Mark(LBRACK, "[", false), LengthMark(length).text + ("]" + f),
      [LengthMark(length)] + ([Sign(RBRACK)] + e));
  }

  lemma LengthNoClash(length: Length)
    ensures var m := LengthMark(length); !m.later && m.kind != RAW_STRING
    ensures var m := LengthMark(length); !Clash(m, Sign(RBRACK)) && !Clash(Mark(LBRACK, "[", false), m)
  {
  }

  lemma SliceText(u: DataType, f: string)
    requires Laid(f, Print(u, false))
    ensures Laid("[" + ("]" + f), Print(SliceType(u), false))
  {
    hide Laid, Clash;
    FirstMark(u);
    LaidSign(Sign(RBRACK), f, Print(u, false));
    BracketsNoClash();
    LaidSign(Mark(LBRACK, "[", false), "]" + f, [Sign(RBRACK)] + Print(u, false));
  }

  lemma BracketsNoClash()
    ensures !Clash(Mark(LBRACK, "[", false), Sign(RBRACK)) && !Clash(Mark(IDENT, "map", false), Sign(LBRACK))
    ensures forall m: Mark :: !Clash(m, Sign(RBRACK))
  {
  }

  /** A key, the bracket behind it and a value. */
  lemma KeyText(f: string, k: seq<Mark>, g: string, n: seq<Mark>)
    requires Laid(f, k) && Laid(g, n) && k != [] && n != []
    requires !n[0].later && n[0].kind != RAW_STRING && !Clash(Sign(RBRACK), n[0])
    ensures Laid(f + ("]" + g), k + ([Sign(RBRACK)] + n))
  {
    hide Laid, Clash;
    BracketsNoClash();
    LaidSign(Sign(RBRACK), g, n);
    LaidJoin(f, k, "", "]" + g, [Sign(RBRACK)] + n);
    assert "" + ("]" + g) == "]" + g;
  }

  /** What stands before the key of a map. */
  lemma MapHead(text: string, ms: seq<Mark>)
    requires Laid(text, ms) && ms != [] && !ms[0].later && ms[0].kind != RAW_STRING && !Clash(Sign(LBRACK), ms[0])
    ensures Laid("map" + ("[" + text), [Mark(IDENT, "map", false)] + ([Sign(LBRACK)] + ms))
  {
    hide Laid, Clash;
    BracketsNoClash();
    LaidSign(Sign(LBRACK), text, ms);
    LaidSign(Mark(IDENT, "map", false), "[" + text, [Sign(LBRACK)] + ms);
  }

  lemma MapText(u: DataType, f: string, v: DataType, g: string)
    requires Laid(f, Print(u, false)) && Laid(g, Print(v, false))
    ensures Laid("map" + ("[" + (f + ("]" + g))), Print(MapType(u, v), false))
  {
    hide Laid, Clash, Print;
    var k, n := Print(u, false), Print(v, false);
    FirstMark(u);
    FirstMark(v);
    KeyText(f, k, g, n);
    assert (k + ([Sign(RBRACK)] + n))[0] == k[0];
    MapHead(f + ("]" + g), k + ([Sign(RBRACK)] + n));
    MapMarks(u, v);
  }

  lemma MapMarks(u: DataType, v: DataType)
    ensures Print(MapType(u, v), false) ==
            [Mark(IDENT, "map", false)] + ([Sign(LBRACK)] + (Print(u, false) + ([Sign(RBRACK)] + Print(v, false))))
  {
  }

  lemma ArrayLaid(length: Length, elem: DataType, prefix: string, w: Writer)
    requires WellFormed(ArrayType(length, elem)) && NoTabs(Tags(elem)) && Pads(w.pad) && FormatLaid(elem, prefix, w)
    ensures FormatLaid(ArrayType(length, elem), prefix, w)
  {
    hide Laid, Pads, NoTabs, SqueezesTo, LengthOk, LengthMark, Squeeze, Print;
    SqueezedFacts(elem, 0);
    ArrayText(length, Squeezed(elem, 0), Format(elem, prefix, w));
    SqueezedPrint(elem, 0);
    ArraySqueezed(length, Squeezed(elem, 0), Squeezed(elem, 1));
    EmittedType(
      "[" + (LengthMark(length).text + ("]" + Format(elem, prefix, w))), ArrayType(length, elem),
      ArrayType(length, Squeezed(elem, 0)), w);
  }

  lemma SliceLaid(elem: DataType, prefix: string, w: Writer)
    requires WellFormed(elem) && NoTabs(Tags(elem)) && Pads(w.pad) && FormatLaid(elem, prefix, w)
    ensures FormatLaid(SliceType(elem), prefix, w)
  {
    hide Laid, Pads, NoTabs, SqueezesTo, Squeeze, Print;
    SqueezedFacts(elem, 0);
    SliceText(Squeezed(elem, 0), Format(elem, prefix, w));
    SqueezedPrint(elem, 0);
    SliceSqueezed(Squeezed(elem, 0), Squeezed(elem, 1));
    EmittedType("[" + ("]" + Format(elem, prefix, w)), SliceType(elem), SliceType(Squeezed(elem, 0)), w);
  }

  lemma MapParts(key: DataType, value: DataType)
    requires WellFormed(MapType(key, value))
    ensures WellFormed(key) && WellFormed(value)
  {
  }

  lemma MapWhole(key: DataType, value: DataType)
    requires WellFormed(key) && WellFormed(value)
    ensures WellFormed(MapType(key, value))
  {
  }

  lemma MapLaid(key: DataType, value: DataType, prefix: string, w: Writer)
    requires WellFormed(MapType(key, value)) && NoTabs(Tags(MapType(key, value))) && Pads(w.pad)
    requires FormatLaid(key, "", w.At(0)) && FormatLaid(value, prefix, w.At(1))
    ensures FormatLaid(MapType(key, value), prefix, w)
  {
    hide Laid, Pads, NoTabs, SqueezesTo, Squeeze, Print, WellFormed;
    MapParts(key, value);
    var f, g := Format(key, "", w.At(0)), Format(value, prefix, w.At(1));
    SqueezedFacts(key, 0);
    SqueezedFacts(value, 0);
    MapText(Squeezed(key, 0), f, Squeezed(value, 0), g);
    MapWhole(Squeezed(key, 0), Squeezed(value, 0));
    SqueezedPrint(key, 0);
    SqueezedPrint(value, 0);
    MapSqueezed(Squeezed(key, 0), Squeezed(key, 1), Squeezed(value, 0), Squeezed(value, 1));
    EmittedType("map" + ("[" + (f + ("]" + g))), MapType(key, value), MapType(Squeezed(key, 0), Squeezed(value, 0)), w);
  }

  lemma PointerLaid(elem: DataType, prefix: string, w: Writer)
    requires WellFormed(PointerType(elem)) && NoTabs(Tags(elem)) && Pads(w.pad) && FormatLaid(elem, "", w)
    requires Blanks(prefix)
    ensures FormatLaid(PointerType(elem), prefix, w)
  {
    hide Laid, Pads, NoTabs, SqueezesTo, Squeeze, Print;
    SqueezedFacts(elem, 0);
    StarLaid(elem, Squeezed(elem, 0), prefix, w);
    SqueezedPrint(elem, 0);
    PointerSqueezed(Squeezed(elem, 0), Squeezed(elem, 1));
    EmittedType((prefix + "*") + Format(elem, "", w), PointerType(elem), PointerType(Squeezed(elem, 0)), w);
  }

  lemma StarLaid(elem: DataType, u: DataType, prefix: string, w: Writer)
    requires Laid(Format(elem, "", w), Print(u, false)) && Blanks(prefix)
    ensures Laid((prefix + "*") + Format(elem, "", w), Print(PointerType(u), false))
  {
    hide Laid, Clash;
    var star, f := Mark(MUL, "*", false), Format(elem, "", w);
    FirstMark(u);
    BlanksAreGap(prefix);
    LaidWord(prefix, star);
    LaidJoin(prefix + "*", [star], "", f, Print(u, false));
    assert "" + f == f;
  }

  // ---- structs ---------------------------------------------------------------------------------------

  lemma WordLaid(t: DataType, prefix: string, w: Writer)
    requires t.AnyType? || t.InterfaceType? || t.BaseType?
    requires Blanks(prefix)
    ensures FormatLaid(t, prefix, w)
  {
    BlanksAreGap(prefix);
    LaidWord(prefix, Print(t, false)[0]);
  }

  /** Names, with what follows them on their line. */
  lemma {:induction false} NamesLaid(
      prefix: string, names: seq<string>, gap: string, text: string, ms: seq<Mark>, later: bool)
    requires names != [] && Blanks(prefix) && Blanks(gap) && gap != "" && Laid(text, ms)
    requires ms != [] && (ms[0].kind == RAW_STRING || !ms[0].later)
    ensures Laid((prefix + names[0]) + (FurtherText(names[1..]) + (gap + text)),
                 [Mark(IDENT, names[0], later)] + (PrintNames(names[1..]) + ms))
    decreases |names|
  {
    hide Laid, Clash;
    var first, rest := Mark(IDENT, names[0], later), names[1..];
    BlanksAreGap(prefix);
    BlanksAreGap(gap);
    LaidWord(prefix, first);
    if rest == [] {
      LaidJoin(prefix + names[0], [first], gap, text, ms);
      assert FurtherText(rest) + (gap + text) == gap + text && PrintNames(rest) + ms == ms;
    } else {
      var more := ("" + rest[0]) + (FurtherText(rest[1..]) + (gap + text));
      var marks := [Mark(IDENT, rest[0], false)] + (PrintNames(rest[1..]) + ms);
      NamesLaid("", rest, gap, text, ms, false);
      LaidWord("", Sign(COMMA));
      CommaNoClash();
      LaidJoin(",", [Sign(COMMA)], " ", more, marks);
      LaidJoin(prefix + names[0], [first], "", "," + (" " + more), [Sign(COMMA)] + marks);
      FurtherNames(rest, gap + text, ms);
    }
  }

  lemma CommaNoClash()
    ensures forall m: Mark :: !Clash(m, Sign(COMMA)) && !Clash(Sign(COMMA), m)
    ensures "" + "," == ","
  {
  }

  lemma FurtherNames(names: seq<string>, text: string, ms: seq<Mark>)
    requires names != []
    ensures FurtherText(names) + text == "" + ("," + (" " + (("" + names[0]) + (FurtherText(names[1..]) + text))))
    ensures PrintNames(names) + ms == [Sign(COMMA)] + ([Mark(IDENT, names[0], false)] + (PrintNames(names[1..]) + ms))
  {
    assert "" + names[0] == names[0];
    var further := FurtherText(names[1..]);
    Assoc(names[0], further, text);
    Assoc(" ", names[0] + further, text);
    Assoc(",", " " + (names[0] + further), text);
    var rest := PrintNames(names[1..]);
    Assoc([Mark(IDENT, names[0], false)], rest, ms);
    Assoc([Sign(COMMA)], [Mark(IDENT, names[0], false)] + rest, ms);
  }

  /** The tag, if there is one. */
  lemma TagLaid(e: Elem, text: string, ms: seq<Mark>, sep: string, w: Writer)
    requires Laid(text, ms) && ms != [] && (sep == " " || sep == "\t")
    ensures Laid(text + FormatTag(e, sep, w), ms + PrintTag(e.tag))
  {
    hide Laid, Clash;
    if e.tag.Some? {
      var m := Mark(RAW_STRING, e.tag.value, false);
      var gap := if ContainsStruct(e.tp) && w.apart([]) then sep + ("\n" + sep) else sep;
      LaidWord("", m);
      assert "" + e.tag.value == e.tag.value;
      RawNoClash(ms[|ms| - 1], m);
      LaidJoin(text, ms, gap, e.tag.value, [m]);
    } else {
      assert text + "" == text && ms + [] == ms;
    }
  }

  lemma RawNoClash(a: Mark, m: Mark)
    requires m.kind == RAW_STRING
    ensures !Clash(a, m)
  {
  }

  /** One element, on its line. */
  lemma ElemLaid(e: Elem, prefix: string, w: Writer)
    requires ElemOk(e) && NoTabs(ElemTags(e)) && Blanks(prefix) && Pads(w.pad)
    requires e.names != [] ==> FormatLaid(e.tp, prefix + "\t", w) && FormatLaid(e.tp, "", w)
    ensures Laid(FormatElem(e, prefix, w), PrintElem(SqueezedElem(e, 1)))
  {
    hide Laid, Pads, NoTabs, Squeeze, Print, AllPrintable, SqueezeMarks, ElemOk, TabFree, Squeezed;
    var u, v := SqueezedElem(e, 0), SqueezedElem(e, 1);
    SqueezedElemPrint(e, 0);
    ElemUnsqueezed(e);
    ElemPrintable(u);
    var text := ElemText(e, prefix, w);
    LaidSqueeze(text, PrintElem(u));
  }

  lemma ElemUnsqueezed(e: Elem)
    requires ElemOk(e) && NoTabs(ElemTags(e))
    ensures var u := SqueezedElem(e, 0); ElemOk(u) && u.tag == e.tag && u.names == e.names
  {
    hide IsKeyword, IsIdent, IsQuoted, NoTabs;
    if e.names == [] {
      AnonymousStays(e, 0);
    } else {
      SqueezedFacts(e.tp, 0);
    }
  }

  /** The text of an element before it is squeezed. */
  lemma ElemText(e: Elem, prefix: string, w: Writer) returns (text: string)
    requires ElemOk(e) && NoTabs(ElemTags(e)) && Blanks(prefix) && Pads(w.pad)
    requires e.names != [] ==> FormatLaid(e.tp, prefix + "\t", w) && FormatLaid(e.tp, "", w)
    ensures FormatElem(e, prefix, w) == Squeeze(text) && Laid(text, PrintElem(SqueezedElem(e, 0)))
  {
    hide Laid, Pads, NoTabs, Squeeze, Format, Print, FormatTag, PrintTag, IsKeyword, IsIdent, IsQuoted;
    var u := Squeezed(e.tp, 0);
    var inner, sep := prefix + "\t", if ContainsStruct(e.tp) then " " else "\t";
    if e.names == [] {
      var indent := if e.tag.None? then inner else "";
      AnonymousText(e, indent, w);
      TagLaid(e, Format(e.tp, indent, w), Print(e.tp, true), sep, w);
      text := "" + (Format(e.tp, indent, w) + FormatTag(e, sep, w));
      assert text == Format(e.tp, indent, w) + FormatTag(e, sep, w);
    } else {
      var tp := Format(e.tp, if ContainsStruct(e.tp) then inner else "", w);
      TagLaid(e, tp, Print(u, false), sep, w);
      FirstMark(u);
      NamesLaid(inner, e.names, sep, tp + FormatTag(e, sep, w), Print(u, false) + PrintTag(e.tag), true);
      text := ((inner + e.names[0]) + (FurtherText(e.names[1..]) + sep)) + (tp + FormatTag(e, sep, w));
      Assoc(FurtherText(e.names[1..]), sep, tp + FormatTag(e, sep, w));
      Assoc(inner + e.names[0], FurtherText(e.names[1..]) + sep, tp + FormatTag(e, sep, w));
      Assoc(PrintNames(e.names[1..]), Print(u, false), PrintTag(e.tag));
      Assoc([Mark(IDENT, e.names[0], true)], PrintNames(e.names[1..]) + Print(u, false), PrintTag(e.tag));
      FieldMarks(e);
    }
  }

  lemma FieldMarks(e: Elem)
    ensures PrintElem(SqueezedElem(e, 0)) == PrintBody(Elem(e.names, Squeezed(e.tp, 0), e.tag)) + PrintTag(e.tag)
  {
    assert e.tag.Some? ==> Times(e.tag.value, 0) == e.tag.value;
  }

  /** The type of an anonymous element. */
  lemma AnonymousText(e: Elem, prefix: string, w: Writer)
    requires ElemOk(e) && e.names == [] && Blanks(prefix) && Pads(w.pad)
    ensures Laid(Format(e.tp, prefix, w), Print(e.tp, true))
    ensures !ContainsStruct(e.tp) && PrintElem(SqueezedElem(e, 0)) == Print(e.tp, true) + PrintTag(e.tag)
  {
    hide Laid, Pads, IsKeyword, IsIdent, IsQuoted, Squeeze, AllPrintable, TabFree, SqueezesTo;
    var t := e.tp;
    AnonymousStays(e, 0);
    AnonymousPrintable(e);
    FieldMarks(e);
    if t.PointerType? {
      WordLaid(t.elem, "", w);
      StarLaid(t.elem, t.elem, prefix, w);
      WordSqueezed(t.elem);
      PointerSqueezed(t.elem, t.elem);
      PrintTabFree(t, false) by { NoTags(); }
      PrintableLater(t);
      Emitted((prefix + "*") + Format(t.elem, "", w), t, t, w);
    } else {
      WordLaid(t, prefix, w);
    }
    LaterOnlyFirst(t, true);
    LaidLater(Format(t, prefix, w), Print(t, false), Print(t, true));
  }

  lemma PrintableLater(t: DataType)
    requires AllPrintable(Print(t, true))
    ensures AllPrintable(Print(t, false))
  {
    hide Print, Legal;
    var a, b := Print(t, true), Print(t, false);
    LaterOnlyFirst(t, true);
    FirstMark(t);
    FirstAlike(a[0], b[0]);
    forall k | 0 <= k < |b|
      ensures Plain(b[k])
    {
      if k > 0 {
        assert a[k] == a[1..][k - 1] && b[k] == b[1..][k - 1];
      }
    }
  }

  lemma FirstAlike(a: Mark, b: Mark)
    requires Plain(a) && a.kind == b.kind && a.text == b.text && !b.later && !b.noted
    ensures Plain(b)
  {
  }

  /** All elements, each on a line of its own, and the closing brace on its own line. */
  lemma {:induction false} ElemsLaid(elems: seq<Elem>, prefix: string, w: Writer)
    requires (forall e <- elems :: ElemOk(e)) && NoTabs(ElemsTags(elems)) && Blanks(prefix) && Pads(w.pad)
    ensures Laid(FormatElems(elems, prefix, w) + (prefix + "}"),
                 PrintElems(SqueezedElems(elems, 0)) + [Mark(RBRACE, "}", true)])
    decreases elems, 0
  {
    hide Laid, Pads, NoTabs, ElemOk, FormatElem, PrintElem, SqueezedElem, ElemTags, Clash;
    var close := Mark(RBRACE, "}", true);
    if elems == [] {
      BlanksAreGap(prefix);
      LaidWord(prefix, close);
      assert "" + (prefix + "}") == prefix + "}" && [] + [close] == [close];
    } else {
      var e, rest := elems[0], elems[1..];
      NoTabsConcat(ElemTags(e), ElemsTags(rest));
      ElemTypeLaid(e, prefix, w.At(0));
      ElemLaid(e, prefix, w.At(0));
      ElemsLaid(rest, prefix, w.Later());
      ElemsJoin(e, rest, prefix, w);
    }
  }

  lemma ElemsJoin(e: Elem, rest: seq<Elem>, prefix: string, w: Writer)
    requires Laid(FormatElem(e, prefix, w.At(0)), PrintElem(SqueezedElem(e, 1)))
    requires Laid(FormatElems(rest, prefix, w.Later()) + (prefix + "}"),
                  PrintElems(SqueezedElems(rest, 0)) + [Mark(RBRACE, "}", true)])
    ensures Laid(FormatElems([e] + rest, prefix, w) + (prefix + "}"),
                 PrintElems(SqueezedElems([e] + rest, 0)) + [Mark(RBRACE, "}", true)])
  {
    hide Laid, FormatElem, PrintElem, SqueezedElem, Clash;
    var text, more := FormatElem(e, prefix, w.At(0)), FormatElems(rest, prefix, w.Later());
    var close := Mark(RBRACE, "}", true);
    var ms, ns := PrintElem(SqueezedElem(e, 1)), PrintElems(SqueezedElems(rest, 0)) + [close];
    LaidJoin(text, ms, "\n", more + (prefix + "}"), ns);
    Assoc("\n", more, prefix + "}");
    Assoc(text, "\n" + more, prefix + "}");
    Assoc(ms, PrintElems(SqueezedElems(rest, 0)), [close]);
    assert ([e] + rest)[1..] == rest;
    assert ([SqueezedElem(e, 1)] + SqueezedElems(rest, 0))[1..] == SqueezedElems(rest, 0);
  }

  lemma {:induction false} ElemTypeLaid(e: Elem, prefix: string, w: Writer)
    requires ElemOk(e) && NoTabs(ElemTags(e)) && Blanks(prefix) && Pads(w.pad)
    ensures e.names != [] ==> FormatLaid(e.tp, prefix + "\t", w) && FormatLaid(e.tp, "", w)
    decreases e, 1
  {
    hide FormatLaid, Pads, NoTabs, IsKeyword, IsIdent, IsQuoted;
    if e.names != [] {
      NoTabsConcat(Tags(e.tp), if e.tag.Some? then [e.tag.value] else []);
      TypeLaid(e.tp, prefix + "\t", w);
      TypeLaid(e.tp, "", w);
    }
  }

  /** The printer lays out the marks of the type with its tags squeezed. */
  lemma {:induction false} TypeLaid(t: DataType, prefix: string, w: Writer)
    requires WellFormed(t) && NoTabs(Tags(t)) && Blanks(prefix) && Pads(w.pad)
    ensures FormatLaid(t, prefix, w)
    decreases t, 0
  {
    hide FormatLaid, Pads, NoTabs, IsKeyword, IsIdent, LengthOk;
    match t
    case AnyType | InterfaceType | BaseType(_) => WordLaid(t, prefix, w);
    case ArrayType(length, elem) =>
      TypeLaid(elem, prefix, w);
      ArrayLaid(length, elem, prefix, w);
    case SliceType(elem) =>
      TypeLaid(elem, prefix, w);
      SliceLaid(elem, prefix, w);
    case MapType(key, value) =>
      NoTabsConcat(Tags(key), Tags(value));
      TypeLaid(key, "", w.At(0));
      TypeLaid(value, prefix, w.At(1));
      MapLaid(key, value, prefix, w);
    case PointerType(elem) =>
      TypeLaid(elem, "", w);
      PointerLaid(elem, prefix, w);
    case StructType(elems) =>
      ElemsLaid(elems, prefix, w);
      StructLaid(elems, prefix, w);
  }

  lemma StructLaid(elems: seq<Elem>, prefix: string, w: Writer)
    requires WellFormed(StructType(elems)) && NoTabs(ElemsTags(elems)) && Blanks(prefix) && Pads(w.pad)
    requires Laid(FormatElems(elems, prefix, w) + (prefix + "}"),
                  PrintElems(SqueezedElems(elems, 0)) + [Mark(RBRACE, "}", true)])
    ensures FormatLaid(StructType(elems), prefix, w)
  {
    hide Laid, Pads, NoTabs, Squeeze, Clash, AllPrintable, TabFree, FormatElems, SqueezedElems, PrintElems, WellFormed,
      SqueezesTo;
    var t, s := StructType(elems), SqueezedElems(elems, 0);
    if elems == [] {
      BraceLaid(prefix, w);
    } else {
      var open, text := Mark(LBRACE, "{", false), FormatElems(elems, prefix, w) + (prefix + "}");
      SomeSqueezed(elems);
      LaidWord("", open);
      assert "" + "{" == "{";
      LaidJoin("{", [open], "\n", text, PrintElems(s) + [Mark(RBRACE, "}", true)]);
      SqueezedFacts(t, 0);
      TypePrintable(StructType(s), false);
      PrintTabFree(StructType(s), false);
      LaidPad("{" + ("\n" + text), Print(StructType(s), false), w.pad);
    }
  }

  lemma SomeSqueezed(elems: seq<Elem>)
    requires elems != []
    ensures SqueezedElems(elems, 0) != []
    ensures var ms := PrintElems(SqueezedElems(elems, 0)); ms != [] && ms[0].later
  {
  }

  /** A struct without elements. */
  lemma BraceLaid(prefix: string, w: Writer)
    requires Blanks(prefix) && Pads(w.pad)
    ensures FormatLaid(StructType([]), prefix, w)
  {
    hide Laid, Pads, Squeeze, SqueezesTo;
    var t, open, close := StructType([]), Mark(LBRACE, "{", false), Mark(RBRACE, "}", false);
    BlanksAreGap(prefix);
    LaidWord(prefix, open);
    LaidWord("", close);
    assert "" + "}" == "}";
    LaidJoin(prefix + "{", [open], "", "}", [close]);
    StructSqueezed([], []) by {
      assert SqueezeMarks([]) == [];
    }
    NoTags();
    assert [open] + ([] + [close]) == [open] + [close];
    EmittedType((prefix + "{") + "}", t, t, w);
  }

  // ---- there and back --------------------------------------------------------------------------------

  /** The tokens of a source, as the parser sees them from the start. */
  function MarksOf(file: string, data: string): seq<Mark> {
    MarksAt(Tokenize(file, data, START), 0)
  }

  const THE_END := [Mark(EOF, "", false)]

  /** A laid-out type, alone in a file, parses to the type. */
  lemma LaidParses(file: string, data: string, t: DataType)
    requires WellFormed(t) && Laid(data, Print(t, false))
    ensures ParseType(MarksOf(file, data)) == Ok(t, THE_END)
  {
    hide Lays, Print, NewlineCount, Text, Tokenize, ParseType, MarksAt, WellFormed, Writes, After;
    LaterOnlyFirst(t, true);
    LaidLater(data, Print(t, false), Print(t, true));
    var pieces :| Lays(pieces, data, Print(t, true));
    StartsAtOnce(pieces, data, Print(t, true));
    assert data + "" == data && data[0..] == data;
    NothingRunsOn(t);
    TypeRead(file, data, START, 0, t, pieces, "");
    EndLineGrows(pieces, 1);
    NothingFollows(file, data, After(data, START, |pieces|), EndLine(pieces, 1));
    TextRoundTrip(file, data, START, 0, t, pieces, "");
  }

  lemma StartsAtOnce(pieces: seq<Piece>, text: string, ms: seq<Mark>)
    requires Lays(pieces, text, ms)
    ensures pieces != [] && Writes(pieces, ms) && Text(pieces) == text && NewlineCount(pieces[0].gap) == 0
  {
    hide Writes, Text;
    WritesLength(pieces, ms);
    CountsNewline(pieces[0].gap);
  }

  lemma WritesLength(pieces: seq<Piece>, ms: seq<Mark>)
    requires Writes(pieces, ms)
    ensures |pieces| == |ms|
  {
  }

  /**
   The printed text of a type parses to the type with its tags squeezed: however columns are padded, and wherever its
   tags stood, if no tag has a tab or a form feed.
   */
  lemma PrintedTextParses(file: string, t: DataType, prefix: string, w: Writer)
    requires WellFormed(t) && NoTabs(Tags(t)) && Blanks(prefix) && Pads(w.pad)
    ensures ParseType(MarksOf(file, Format(t, prefix, w))) == Ok(Squeezed(t, 0), THE_END)
  {
    hide ParseType, MarksOf, Format, Laid, Print, Pads, NoTabs, Squeezed, Tags, WellFormed;
    SqueezedFacts(t, 0);
    TypeLaid(t, prefix, w);
    LaidParses(file, Format(t, prefix, w), Squeezed(t, 0));
  }

  /** The printed text parses back to the type itself exactly if no tag has a blank next to a newline. */
  lemma PrintedTextRoundTrip(file: string, t: DataType, prefix: string, w: Writer)
    requires WellFormed(t) && NoTabs(Tags(t)) && Blanks(prefix) && Pads(w.pad)
    ensures ParseType(MarksOf(file, Format(t, prefix, w))) == Ok(t, THE_END) <==> AllTidy(Tags(t))
  {
    hide ParseType, MarksOf, Format, Pads, NoTabs, Squeezed, Tags, WellFormed;
    SqueezedFacts(t, 0);
    PrintedTextParses(file, t, prefix, w);
  }

  /**
   A type parsed from any source consists of the words it was parsed from, and if none of its tags has a tab, it is read
   back from its printed text exactly if none has a blank next to a newline.
   */
  lemma ParsePrintParse(file: string, data: string, w: Writer)
    requires ParseType(MarksOf(file, data)).Ok? && Pads(w.pad)
    ensures var Ok(t, rest) := ParseType(MarksOf(file, data));
            && Words(MarksOf(file, data)) == Words(Print(t, false)) + Words(rest)
            && (NoTabs(Tags(t)) ==>
                  (ParseType(MarksOf(file, Format(t, "", w))) == Ok(t, THE_END) <==> AllTidy(Tags(t))))
  {
    hide ParseType, MarksAt, Tokenize, Format, Pads, NoTabs, Tags, WellFormed, Words, Print, AllTidy;
    ParsedIsWellFormed(file, data, START, 0);
    var t := ParseType(MarksOf(file, data)).value;
    if NoTabs(Tags(t)) {
      PrintedTextRoundTrip(file, t, "", w);
    }
  }

  /** Two types that are printed alike are one, if no tag of either has a blank next to a newline. */
  lemma PrintedIsInjective(t: DataType, u: DataType, prefix: string, w: Writer)
    requires WellFormed(t) && NoTabs(Tags(t)) && WellFormed(u) && NoTabs(Tags(u)) && Blanks(prefix) && Pads(w.pad)
    requires Format(t, prefix, w) == Format(u, prefix, w)
    ensures Squeezed(t, 0) == Squeezed(u, 0) && (AllTidy(Tags(t)) && AllTidy(Tags(u)) ==> t == u)
  {
    hide ParseType, MarksOf, Format, Pads, NoTabs, Squeezed, Tags, WellFormed, AllTidy;
    SqueezedFacts(t, 0);
    SqueezedFacts(u, 0);
    PrintedTextParses("", t, prefix, w);
    PrintedTextParses("", u, prefix, w);
  }

  /** Tags over two lines, the first with a blank at its end and the second without, are printed alike. */
  lemma PrintedAlike(w: Writer)
    ensures var t := StructType([Elem(["A"], BaseType("int"), Some("`x \ny`"))]);
            var u := StructType([Elem(["A"], BaseType("int"), Some("`x\ny`"))]);
            t != u && WellFormed(t) && WellFormed(u) && NoTabs(Tags(t)) && Format(t, "", w) == Format(u, "", w)
  {
    hide Format, Squeeze, IsName, IsQuoted, NoTabs;
    var a, b := Elem(["A"], BaseType("int"), Some("`x \ny`")), Elem(["A"], BaseType("int"), Some("`x\ny`"));
    NamesA();
    TagsQuoted();
    TagsSqueezed();
    TagElem(a, "`x \ny`", w.At(0));
    TagElem(b, "`x\ny`", w.At(0));
    OneElem(a, w);
    OneElem(b, w);
  }

  /** A struct with one element. */
  lemma OneElem(e: Elem, w: Writer)
    requires e.tp.BaseType? && e.tag.Some?
    ensures Format(StructType([e]), "", w) ==
            w.pad("{" + ("\n" + ((FormatElem(e, "", w.At(0)) + ("\n" + "")) + ("" + "}"))))
    ensures Tags(StructType([e])) == [e.tag.value]
  {
    hide FormatElem;
    assert [e][1..] == [];
    assert FormatElems([e], "", w) == FormatElem(e, "", w.At(0)) + ("\n" + FormatElems([], "", w.Later()));
    assert ElemTags(e) == Tags(e.tp) + [e.tag.value] == [e.tag.value];
    assert ElemsTags([e]) == ElemTags(e) + ElemsTags([]);
  }

  lemma NamesA()
    ensures IsName("A") && IsName("int") && "int" != "any"
  {
    assert All("A", Ident) && All("int", Ident);
  }

  lemma TagsQuoted()
    ensures IsQuoted("`x \ny`", '`') && IsQuoted("`x\ny`", '`') && NoTabs(["`x \ny`"])
  {
  }

  lemma TagsSqueezed()
    ensures Squeeze("`x \ny`") == "`x\ny`" == Squeeze("`x\ny`")
  {
    SqueezeShorter("`x\ny`");
    var s := "`x \ny`";
    assert s == "`x" + " \ny`";
    ReplacedJoin("`x", " \ny`", ' ', '\n');
    ReplacedShorter("`x", ' ', '\n');
    ReplacedShorter("y`", ' ', '\n');
    assert " \ny`"[2..] == "y`";
    assert Replaced(s, ' ', '\n') == "`x\ny`";
    ReplacedShorter("`x\ny`", '\n', ' ');
  }

  /** What stands before the tag does not change with the tag. */
  lemma TagElem(e: Elem, tag: string, w: Writer)
    requires e == Elem(["A"], BaseType("int"), Some(tag)) && tag != "" && Firm(tag[0])
    ensures FormatElem(e, "", w) == Squeeze("\tA\tint\t") + Squeeze(tag)
  {
    hide Squeeze;
    var a := (("" + "\t") + "A") + (FurtherText([]) + "\t");
    assert e.names[1..] == [] && Format(e.tp, "", w) == "int" && a == "\tA\t";
    assert a + ("int" + ("\t" + tag)) == "\tA\tint\t" + tag;
    SqueezeJoin("\tA\tint\t", tag);
  }

  /** A column writer that makes one blank of every tab. */
  function OneBlank(s: string): string {
    if s == "" then ""
    else [if IsTab(s[0]) then ' ' else if s[0] == '\U{0C}' then '\n' else s[0]] + OneBlank(s[1..])
  }

  lemma {:induction false} OneBlankPads(s: string)
    ensures Padded(s, OneBlank(s))
  {
    if s == "" {
    } else {
      OneBlankPads(s[1..]);
      PaddedCons(s, OneBlank(s)[..1], OneBlank(s[1..]));
      assert OneBlank(s)[..1] + OneBlank(s[1..]) == OneBlank(s);
    }
  }

  lemma {:induction false} OneBlankJoin(s: string, t: string)
    ensures OneBlank(s + t) == OneBlank(s) + OneBlank(t)
  {
    if s == "" {
      assert s + t == t;
    } else {
      assert (s + t)[1..] == s[1..] + t;
      OneBlankJoin(s[1..], t);
    }
  }

  /** With tabs in tags the column padding decides: tags with a tab and with a blank can be printed alike. */
  lemma TabsPrintedAlike() returns (w: Writer)
    ensures Pads(w.pad)
    ensures var t := StructType([Elem(["A"], BaseType("int"), Some("`\t`"))]);
            var u := StructType([Elem(["A"], BaseType("int"), Some("` `"))]);
            t != u && WellFormed(t) && WellFormed(u) && Format(t, "", w) == Format(u, "", w)
  {
    hide Format, Squeeze, IsName, IsQuoted, NoTabs, OneBlank, Padded;
    w := Writer(
      OneBlank, (s: string) => s, (path: seq<nat>) => false, (path: seq<nat>) => TokenNode([], NO_TOKEN, []));
    forall s: string
      ensures Padded(s, w.pad(s))
    {
      OneBlankPads(s);
    }
    var a, b := Elem(["A"], BaseType("int"), Some("`\t`")), Elem(["A"], BaseType("int"), Some("` `"));
    NamesA();
    TabsQuoted();
    TagElem(a, "`\t`", w.At(0));
    TagElem(b, "` `", w.At(0));
    OneElem(a, w);
    OneElem(b, w);
    OneBlankAround("{" + ("\n" + Squeeze("\tA\tint\t")), "`\t`", "\n}");
    OneBlankAround("{" + ("\n" + Squeeze("\tA\tint\t")), "` `", "\n}");
    Around(Squeeze("\tA\tint\t"), "`\t`");
    Around(Squeeze("\tA\tint\t"), "` `");
  }

  lemma TabsQuoted()
    ensures IsQuoted("`\t`", '`') && IsQuoted("` `", '`')
    ensures Squeeze("`\t`") == "`\t`" && Squeeze("` `") == "` `" && OneBlank("`\t`") == "` `" == OneBlank("` `")
  {
    SqueezeShorter("`\t`");
    SqueezeShorter("` `");
    assert OneBlank("`") == "`" && OneBlank("\t`") == " `" && OneBlank(" `") == " `";
    OneBlankJoin("`", "\t`");
    OneBlankJoin("`", " `");
    assert "`" + "\t`" == "`\t`" && "`" + " `" == "` `";
  }

  lemma OneBlankAround(a: string, b: string, c: string)
    ensures OneBlank((a + b) + c) == (OneBlank(a) + OneBlank(b)) + OneBlank(c)
  {
    hide OneBlank;
    OneBlankJoin(a, b);
    OneBlankJoin(a + b, c);
  }

  lemma Around(head: string, tag: string)
    ensures "{" + ("\n" + (((head + tag) + ("\n" + "")) + ("" + "}"))) == (("{" + ("\n" + head)) + tag) + "\n}"
  {
  }

  // ---- raw text --------------------------------------------------------------------------------------

  /** The text of a type without structs has no white space. */
  lemma {:induction false} RawTextFirm(t: DataType)
    requires WellFormed(t) && !ContainsStruct(t)
    ensures forall c <- RawText(t) :: !IsSpace(c)
  {
    hide IsKeyword, IsIdent, LengthOk, IsSpace, LengthMark;
    SignsFirm();
    match t
    case AnyType | InterfaceType =>
    case BaseType(name) => WordFirm(name);
    case ArrayType(length, elem) =>
      LengthFirm(length);
      RawTextFirm(elem);
    case SliceType(elem) => RawTextFirm(elem);
    case MapType(key, value) =>
      RawTextFirm(key);
      RawTextFirm(value);
    case PointerType(elem) => RawTextFirm(elem);
  }

  lemma SignsFirm()
    ensures forall c <- "any" + "interface{}" + "[" + "]" + "map" + "*" :: !IsSpace(c)
  {
  }

  lemma WordFirm(name: string)
    requires IsIdent(name)
    ensures forall c <- name :: !IsSpace(c)
  {
    MarkIsFirm(Mark(IDENT, name, false));
  }

  lemma LengthFirm(length: Length)
    requires LengthOk(length)
    ensures forall c <- LengthMark(length).text :: !IsSpace(c)
  {
    LengthPrintable(length);
    MarkIsFirm(LengthMark(length));
  }

  /** Neither squeezing nor padding changes a text without white space. */
  lemma FirmStays(s: string, w: Writer)
    requires Pads(w.pad) && forall c <- s :: !IsSpace(c)
    ensures w.pad(Squeeze(s)) == s
  {
    hide Squeeze, Padded;
    assert forall k :: 0 <= k < |s| ==> s[k] in s;
    SqueezeShorter(s);
    PaddedNone(s, w.pad(s));
  }

  lemma PointerRaw(elem: DataType, w: Writer)
    requires !ContainsStruct(elem) && Pads(w.pad) && forall c <- RawText(PointerType(elem)) :: !IsSpace(c)
    requires Format(elem, "", w) == RawText(elem)
    ensures Format(PointerType(elem), "", w) == RawText(PointerType(elem))
  {
    hide Pads, Squeeze, IsSpace;
    assert ("" + "*") + RawText(elem) == "*" + RawText(elem);
    FirmStays(RawText(PointerType(elem)), w);
  }

  lemma MapRaw(key: DataType, value: DataType, w: Writer)
    requires !ContainsStruct(key) && !ContainsStruct(value) && Pads(w.pad)
    requires forall c <- RawText(MapType(key, value)) :: !IsSpace(c)
    requires Format(key, "", w.At(0)) == RawText(key) && Format(value, "", w.At(1)) == RawText(value)
    ensures Format(MapType(key, value), "", w) == RawText(MapType(key, value))
  {
    hide Pads, Squeeze, IsSpace;
    FirmStays(RawText(MapType(key, value)), w);
  }

  /** The printed text of a type without structs is its raw text: its tokens, with nothing between them. */
  lemma {:induction false} PrintedRawText(t: DataType, w: Writer)
    requires WellFormed(t) && !ContainsStruct(t) && Pads(w.pad)
    ensures Format(t, "", w) == RawText(t)
  {
    hide IsKeyword, IsIdent, LengthOk, IsSpace, LengthMark, Squeeze, Pads;
    RawTextFirm(t);
    match t
    case AnyType | InterfaceType | BaseType(_) =>
    case ArrayType(length, elem) =>
      PrintedRawText(elem, w);
      FirmStays(RawText(t), w);
    case SliceType(elem) =>
      PrintedRawText(elem, w);
      FirmStays(RawText(t), w);
    case MapType(key, value) =>
      PrintedRawText(key, w.At(0));
      PrintedRawText(value, w.At(1));
      MapRaw(key, value, w);
    case PointerType(elem) =>
      PrintedRawText(elem, w);
      PointerRaw(elem, w);
  }
}
