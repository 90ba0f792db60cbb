/**
 What a printed struct looks like: every element stands on a line of its own, one tab further in than the struct, with a
 tab between names, type and tag, or a blank if there is a struct in it.
 */
module Indentation {
  import opened Tokens
  import opened Lexis
  import opened Grammar
  import opened DataTypes
  import opened TypeText
  import opened Offsets
  import opened Printer

  // ---- squeezing at a place without newlines ----------------------------------------------------------

  predicate StartsAs(s: string, front: string) {
    |front| <= |s| && s[..|front|] == front
  }

  predicate EndsAs(s: string, back: string) {
    |back| <= |s| && s[|s| - |back|..] == back
  }

  lemma {:induction false} ReplacedEnd(s: string, a: char, b: char)
    requires s != "" && s[|s| - 1] != '\n' && b != s[|s| - 1]
    ensures var r := Replaced(s, a, b); r != "" && r[|r| - 1] == s[|s| - 1]
    decreases |s|
  {
    if |s| == 1 {
      assert Replaced(s[1..], a, b) == "";
    } else if s[0] == a && s[1] == b {
      assert |s| > 2;
      ReplacedEnd(s[2..], a, b);
    } else {
      ReplacedEnd(s[1..], a, b);
    }
  }

  /** Two texts can be squeezed one by one where no newline is at the ends that meet. */
  lemma SqueezeApart(s: string, t: string)
    requires s != "" && t != "" && s[|s| - 1] != '\n' && t[0] != '\n'
    ensures Squeeze(s + t) == Squeeze(s) + Squeeze(t)
  {
    hide Replaced;
    ReplacedJoin(s, t, ' ', '\n');
    ReplacedEnd(s, ' ', '\n');
    ReplacedJoin(Replaced(s, ' ', '\n'), Replaced(t, ' ', '\n'), '\n', ' ');
  }

  lemma NoNewlineStays(s: string)
    requires '\n' !in s
    ensures Squeeze(s) == s
  {
    assert forall k :: 0 <= k < |s| ==> s[k] in s;
    SqueezeShorter(s);
  }

  // ---- the beginning of a type ------------------------------------------------------------------------

  lemma PadStart(s: string, w: Writer)
    requires Pads(w.pad) && s != "" && s[0] != '\n' && s[0] != '\U{0C}'
    ensures w.pad(s) != "" && w.pad(s)[0] != '\n'
  {
    assert Padded(s, w.pad(s));
    var i := PaddedHead(s, w.pad(s));
    if IsTab(s[0]) {
      assert w.pad(s)[..i][0] == w.pad(s)[0];
    }
  }

  lemma SqueezedStart(s: string)
    requires s != "" && Firm(s[0])
    ensures Squeeze(s) != "" && Squeeze(s)[0] == s[0]
  {
    SqueezeKeeps(s);
  }

  /** A printed type does not begin with a line break. */
  lemma TypeStart(t: DataType, prefix: string, w: Writer)
    requires WellFormed(t) && Pads(w.pad) && forall c <- prefix :: c == '\t'
    ensures Format(t, prefix, w) != "" && Format(t, prefix, w)[0] != '\n'
  {
    hide Squeeze, IsKeyword, Padded, Pads, LengthMark;
    match t
    case AnyType => FrontStart(prefix, "any");
    case InterfaceType => FrontStart(prefix, "interface{}");
    case BaseType(name) =>
      assert name[0] in name && Ident.Has(name[0]);
      FrontStart(prefix, name);
    case ArrayType(length, elem) =>
      PiecesStart("[" + (LengthMark(length).text + ("]" + Format(elem, prefix, w))), w);
    case SliceType(elem) => PiecesStart("[" + ("]" + Format(elem, prefix, w)), w);
    case MapType(key, value) =>
      PiecesStart("map" + ("[" + (Format(key, "", w.At(0)) + ("]" + Format(value, prefix, w.At(1))))), w);
    case PointerType(elem) =>
      FrontStart(prefix, "*");
      PiecesStart((prefix + "*") + Format(elem, "", w), w);
    case StructType(elems) =>
      if elems == [] {
        FrontStart(prefix, "{");
        PiecesStart((prefix + "{") + "}", w);
      } else {
        PadStart("{" + ("\n" + (FormatElems(elems, prefix, w) + (prefix + "}"))), w);
      }
  }

  lemma FrontStart(prefix: string, s: string)
    requires (forall c <- prefix :: c == '\t') && s != "" && Firm(s[0]) && s[0] != '\U{0C}'
    ensures prefix + s != "" && Firm((prefix + s)[0]) && (prefix + s)[0] != '\U{0C}'
  {
    if prefix != "" {
      assert prefix[0] in prefix && (prefix + s)[0] == prefix[0];
    }
  }

  lemma PiecesStart(s: string, w: Writer)
    requires s != "" && Firm(s[0]) && s[0] != '\U{0C}' && Pads(w.pad)
    ensures w.pad(Squeeze(s)) != "" && w.pad(Squeeze(s))[0] != '\n'
  {
    hide Squeeze, Pads;
    SqueezedStart(s);
    PadStart(Squeeze(s), w);
  }

  // ---- the end of a type ------------------------------------------------------------------------------

  /** Neither a blank nor a line break, nor anything that is padded. */
  predicate Solid(c: char) {
    Firm(c) && !Special(c)
  }

  lemma {:induction false} PaddedEnd(s: string, o: string)
    requires Padded(s, o) && s != "" && Solid(s[|s| - 1])
    ensures o != "" && o[|o| - 1] == s[|s| - 1]
  {
    if |s| == 1 {
    } else {
      var i := PaddedHead(s, o);
      PaddedEnd(s[1..], o[i..]);
    }
  }

  lemma PiecesEnd(s: string, w: Writer)
    requires s != "" && Solid(s[|s| - 1]) && Pads(w.pad)
    ensures w.pad(Squeeze(s)) != "" && Solid(w.pad(Squeeze(s))[|w.pad(Squeeze(s))| - 1])
  {
    hide Squeeze, Padded;
    SqueezeKeeps(s);
    assert Padded(Squeeze(s), w.pad(Squeeze(s)));
    PaddedEnd(Squeeze(s), w.pad(Squeeze(s)));
  }

  /** A printed type does not end with white space. */
  lemma {:induction false} TypeEnd(t: DataType, prefix: string, w: Writer)
    requires WellFormed(t) && Pads(w.pad)
    ensures var s := Format(t, prefix, w); s != "" && Solid(s[|s| - 1])
    decreases t
  {
    hide Squeeze, IsKeyword, Padded, Pads, LengthMark;
    match t
    case AnyType => LastOf(prefix, "any");
    case InterfaceType => LastOf(prefix, "interface{}");
    case BaseType(name) =>
      assert name[|name| - 1] in name && Ident.Has(name[|name| - 1]);
      LastOf(prefix, name);
    case ArrayType(length, elem) =>
      TypeEnd(elem, prefix, w);
      LastOf("]", Format(elem, prefix, w));
      LastOf(LengthMark(length).text, "]" + Format(elem, prefix, w));
      PiecesEnd("[" + (LengthMark(length).text + ("]" + Format(elem, prefix, w))), w);
    case SliceType(elem) =>
      TypeEnd(elem, prefix, w);
      PiecesEnd("[" + ("]" + Format(elem, prefix, w)), w);
    case MapType(key, value) =>
      TypeEnd(value, prefix, w.At(1));
      var back := "]" + Format(value, prefix, w.At(1));
      LastOf(Format(key, "", w.At(0)), back);
      LastOf("[", Format(key, "", w.At(0)) + back);
      PiecesEnd("map" + ("[" + (Format(key, "", w.At(0)) + back)), w);
    case PointerType(elem) =>
      TypeEnd(elem, "", w);
      PiecesEnd((prefix + "*") + Format(elem, "", w), w);
    case StructType(elems) =>
      if elems == [] {
        PiecesEnd((prefix + "{") + "}", w);
      } else {
        StructEnd("{" + ("\n" + (FormatElems(elems, prefix, w) + (prefix + "}"))), w);
      }
  }

  lemma LastOf(s: string, t: string)
    requires t != ""
    ensures s + t != "" && (s + t)[|s + t| - 1] == t[|t| - 1]
  {
  }

  lemma StructEnd(s: string, w: Writer)
    requires s != "" && Solid(s[|s| - 1]) && Pads(w.pad)
    ensures w.pad(s) != "" && Solid(w.pad(s)[|w.pad(s)| - 1])
  {
    assert Padded(s, w.pad(s));
    PaddedEnd(s, w.pad(s));
  }

  // ---- elements ----------------------------------------------------------------------------------------

  /** What is written before the type of an element with names: its names, one tab further in than its struct. */
  function Front(e: Elem, prefix: string): string {
    prefix + "\t" + Joined(e.names, ", ") + Gap(e)
  }

  function Gap(e: Elem): string {
    if ContainsStruct(e.tp) then " " else "\t"
  }

  lemma {:induction false} NamesJoined(names: seq<string>)
    requires names != []
    ensures names[0] + FurtherText(names[1..]) == Joined(names, ", ")
    decreases |names|
  {
    if |names| == 1 {
      assert names[0] + "" == names[0];
    } else {
      NamesJoined(names[1..]);
      var rest := names[1] + FurtherText(names[1..][1..]);
      assert names[0] + ("," + (" " + rest)) == names[0] + ", " + rest;
    }
  }

  lemma {:induction false} NamesFirm(names: seq<string>)
    requires forall n <- names :: IsName(n)
    ensures '\n' !in Joined(names, ", ")
    decreases |names|
  {
    hide IsKeyword;
    if names == [] {
    } else {
      assert names[0] in names && forall n <- names[1..] :: n in names;
      NameFirm(names[0]);
      NamesFirm(names[1..]);
      assert '\n' !in ", ";
    }
  }

  lemma NameFirm(name: string)
    requires IsName(name)
    ensures '\n' !in name
  {
    assert !Ident.Has('\n');
  }

  /** An element with names begins with them, and with the gap before its type. */
  lemma ElemFront(e: Elem, prefix: string, w: Writer)
    requires ElemOk(e) && e.names != [] && Pads(w.pad) && forall c <- prefix :: c == '\t'
    ensures StartsAs(FormatElem(e, prefix, w), Front(e, prefix))
  {
    hide Squeeze, Pads, Format, IsName, FurtherText, Joined, ContainsStruct, FormatTag, WellFormed;
    var inner := prefix + "\t";
    var p := if ContainsStruct(e.tp) then inner else "";
    var tp := Format(e.tp, p, w);
    TypeStart(e.tp, p, w);
    NamesJoined(e.names);
    NamesFirm(e.names);
    var front, rest := Front(e, prefix), tp + FormatTag(e, Gap(e), w);
    assert (inner + e.names[0]) + (FurtherText(e.names[1..]) + Gap(e)) == front;
    assert FormatElem(e, prefix, w) == Squeeze(front + rest);
    assert '\n' !in front && rest[0] == tp[0] && front[|front| - 1] == Gap(e)[0];
    SqueezeApart(front, rest);
    NoNewlineStays(front);
  }

  /** A tag ends its element: behind a gap, or behind a line break if it stood on a later line than the struct. */
  lemma ElemBack(e: Elem, prefix: string, w: Writer)
    requires ElemOk(e) && e.tag.Some? && Pads(w.pad) && forall c <- prefix :: c == '\t'
    ensures EndsAs(FormatElem(e, prefix, w), Squeeze(e.tag.value))
    ensures ContainsStruct(e.tp) && w.apart([]) ==> EndsAs(FormatElem(e, prefix, w), "\n" + Squeeze(e.tag.value))
    ensures !(ContainsStruct(e.tp) && w.apart([])) ==> EndsAs(FormatElem(e, prefix, w), Gap(e) + Squeeze(e.tag.value))
  {
    hide Squeeze, Pads, FormatElem, ContainsStruct, ElemOk, EndsAs;
    var broken, tag := ContainsStruct(e.tp) && w.apart([]), e.tag.value;
    var gap := if broken then Gap(e) + ("\n" + Gap(e)) else Gap(e);
    var head := BeforeTag(e, prefix, w);
    SqueezeJoin(head + gap, tag);
    GapEnds(head, gap, broken);
    EndsJoin(Squeeze(head + gap), Squeeze(tag), if broken then "\n" else Gap(e));
  }

  /** What is written before the gap and the tag. */
  lemma BeforeTag(e: Elem, prefix: string, w: Writer) returns (head: string)
    requires ElemOk(e) && e.tag.Some? && Pads(w.pad)
    ensures var gap := if ContainsStruct(e.tp) && w.apart([]) then Gap(e) + ("\n" + Gap(e)) else Gap(e);
            FormatElem(e, prefix, w) == Squeeze((head + gap) + e.tag.value)
    ensures e.tag.value != "" && Firm(e.tag.value[0])
    ensures ContainsStruct(e.tp) ==> head != "" && head[|head| - 1] != '\n'
  {
    hide Squeeze, Pads, Format, IsName, FurtherText, ContainsStruct, WellFormed, ElemOk;
    var p := if ContainsStruct(e.tp) || (e.names == [] && e.tag.None?) then prefix + "\t" else "";
    var names := if e.names == [] then "" else (prefix + "\t" + e.names[0]) + (FurtherText(e.names[1..]) + Gap(e));
    var tp, tag := Format(e.tp, p, w), e.tag.value;
    var gap := if ContainsStruct(e.tp) && w.apart([]) then Gap(e) + ("\n" + Gap(e)) else Gap(e);
    assert FormatElem(e, prefix, w) == Squeeze(names + (tp + (gap + tag)));
    Regroup(names, tp, gap, tag);
    TagStarts(e);
    head := names + tp;
    if ContainsStruct(e.tp) {
      StructIsNamed(e);
      TypeEnd(e.tp, p, w);
      LastOf(names, tp);
    }
  }

  lemma Regroup(a: string, b: string, c: string, d: string)
    ensures a + (b + (c + d)) == ((a + b) + c) + d
  {
  }

  lemma TagStarts(e: Elem)
    requires ElemOk(e) && e.tag.Some?
    ensures e.tag.value != "" && Firm(e.tag.value[0])
  {
    hide IsName, WellFormed;
  }

  lemma StructIsNamed(e: Elem)
    requires ElemOk(e) && ContainsStruct(e.tp)
    ensures WellFormed(e.tp)
  {
    hide IsName, IsQuoted;
  }

  lemma EndsJoin(s: string, tag: string, back: string)
    requires EndsAs(s, back)
    ensures EndsAs(s + tag, back + tag) && EndsAs(s + tag, tag)
  {
    var n := |s| - |back|;
    assert (s + tag)[n..] == s[n..] + tag && (s + tag)[|s|..] == tag;
  }

  /** A gap stays at the end of a squeezed text; of one with a line break in it, that stays. */
  lemma GapEnds(s: string, gap: string, broken: bool)
    requires gap == if broken then " " + ("\n" + " ") else gap
    requires !broken ==> gap == "\t" || (gap == " " && s != "" && s[|s| - 1] != '\n')
    ensures EndsAs(Squeeze(s + gap), if broken then "\n" else gap)
  {
    hide Squeeze;
    if broken {
      BreakStays();
      assert s + (" " + ("\n" + " ")) == (s + " ") + ("\n" + " ");
      BreakEnds(s + " ");
    } else if gap == "\t" {
      SqueezeJoin(s, gap);
      NoNewlineStays(gap);
    } else {
      SqueezeApart(s, gap);
      NoNewlineStays(gap);
    }
  }

  lemma BreakStays()
    ensures Squeeze("\n" + " ") == "\n"
  {
    OneReplaced();
    assert ("\n" + " ")[1..] == " " && ("\n" + " ")[2..] == "";
    assert Replaced("\n" + " ", ' ', '\n') == ['\n'] + Replaced(" ", ' ', '\n') == "\n" + " ";
    assert Replaced("\n" + " ", '\n', ' ') == "\n" + Replaced("", '\n', ' ') == "\n";
  }

  lemma OneReplaced()
    ensures Replaced(" ", ' ', '\n') == " " && Replaced("", '\n', ' ') == ""
  {
    assert " "[1..] == "";
  }

  /** After a blank, a line break and another blank are just the line break. */
  lemma BreakEnds(s: string)
    requires s != "" && s[|s| - 1] == ' '
    ensures EndsAs(Squeeze(s + ("\n" + " ")), "\n")
  {
    hide Replaced;
    var x := s[..|s| - 1];
    assert s + ("\n" + " ") == x + (" " + ("\n" + " "));
    ReplacedJoin(x, " " + ("\n" + " "), ' ', '\n');
    OneBreak();
    ReplacedBreak(Replaced(x, ' ', '\n'));
  }

  lemma OneBreak()
    ensures Replaced(" " + ("\n" + " "), ' ', '\n') == "\n" + " "
  {
    OneReplaced();
    var s := " " + ("\n" + " ");
    assert s[0] == ' ' && s[1] == '\n' && s[2..] == " ";
  }

  lemma {:induction false} ReplacedBreak(s: string)
    ensures EndsAs(Replaced(s + ("\n" + " "), '\n', ' '), "\n")
    decreases |s|
  {
    if s == "" {
      assert s + ("\n" + " ") == "\n" + " " && ("\n" + " ")[2..] == "";
    } else {
      var all := s + ("\n" + " ");
      var i := if |all| > 1 && all[0] == '\n' && all[1] == ' ' then 2 else 1;
      if i <= |s| {
        assert all[i..] == s[i..] + ("\n" + " ");
        ReplacedBreak(s[i..]);
        var head, rest := if i == 2 then "\n" else [all[0]], Replaced(all[i..], '\n', ' ');
        EndsFront(head, rest, "\n");
      }
    }
  }

  lemma EndsFront(head: string, s: string, back: string)
    requires EndsAs(s, back)
    ensures EndsAs(head + s, back)
  {
    var n := |s| - |back|;
    assert (head + s)[|head| + n..] == s[n..];
  }

  // ---- structs -----------------------------------------------------------------------------------------

  /** Handed over without padding, a struct opens with a brace, and its last line is a brace behind the prefix. */
  lemma StructEnds(elems: seq<Elem>, prefix: string, w: Writer)
    requires elems != [] && forall s :: w.pad(s) == s
    ensures var t := Format(StructType(elems), prefix, w); StartsAs(t, "{\n") && EndsAs(t, "\n" + prefix + "}")
  {
    hide FormatElem, FormatElems, Squeeze;
    var lines := FormatElems(elems, prefix, w);
    assert Format(StructType(elems), prefix, w) == "{" + ("\n" + (lines + (prefix + "}")));
    LinesEnd(elems, prefix, w);
    BracesAround(lines, prefix + "}");
    assert "\n" + (prefix + "}") == "\n" + prefix + "}";
  }

  lemma BracesAround(lines: string, back: string)
    requires EndsAs(lines, "\n")
    ensures var t := "{" + ("\n" + (lines + back)); StartsAs(t, "{\n") && EndsAs(t, "\n" + back)
  {
    EndsJoin(lines, back, "\n");
    EndsFront("\n", lines + back, "\n" + back);
    EndsFront("{", "\n" + (lines + back), "\n" + back);
    assert ("{" + ("\n" + (lines + back)))[..2] == "{\n";
  }

  lemma {:induction false} LinesEnd(elems: seq<Elem>, prefix: string, w: Writer)
    requires elems != []
    ensures EndsAs(FormatElems(elems, prefix, w), "\n")
    decreases |elems|
  {
    hide FormatElem;
    var line, rest := FormatElem(elems[0], prefix, w.At(0)), FormatElems(elems[1..], prefix, w.Later());
    assert FormatElems(elems, prefix, w) == line + ("\n" + rest);
    if |elems| == 1 {
      assert rest == "" && "\n" + "" == "\n";
      EndsFront(line, "\n", "\n");
    } else {
      LinesEnd(elems[1..], prefix, w.Later());
      EndsFront("\n", rest, "\n");
      EndsFront(line, "\n" + rest, "\n");
    }
  }

  /** A struct within a struct ends one tab further in. */
  lemma NestedEnds(e: Elem, prefix: string, w: Writer)
    requires ElemOk(e) && e.tp.StructType? && e.tp.elems != [] && e.tag.None? && forall s :: w.pad(s) == s
    requires forall c <- prefix :: c == '\t'
    ensures EndsAs(FormatElem(e, prefix, w), "\n" + prefix + "\t}")
  {
    hide Squeeze, FormatElem, Format, ElemOk, EndsAs;
    var inner := prefix + "\t";
    var back := inner + "}";
    var head := BeforeNested(e, prefix, w);
    StructEnds(e.tp.elems, inner, w);
    assert "\n" + inner + "}" == "\n" + back && "\n" + back == "\n" + prefix + "\t}";
    var front := WithoutBack(Format(e.tp, inner, w), back);
    assert head + (front + back) == (head + front) + back;
    TabFirst(prefix, back);
    SqueezeJoin(head + front, back);
    LastBreak(head + front);
    NoNewlineStays(back);
    EndsJoin(Squeeze(head + front), back, "\n");
  }

  lemma BeforeNested(e: Elem, prefix: string, w: Writer) returns (head: string)
    requires e.tp.StructType? && e.tag.None?
    ensures FormatElem(e, prefix, w) == Squeeze(head + Format(e.tp, prefix + "\t", w))
  {
    hide Squeeze, Format, FurtherText;
    var inner := prefix + "\t";
    head := if e.names == [] then "" else (inner + e.names[0]) + (FurtherText(e.names[1..]) + " ");
    assert Format(e.tp, inner, w) + "" == Format(e.tp, inner, w);
  }

  lemma WithoutBack(s: string, back: string) returns (front: string)
    requires EndsAs(s, "\n" + back)
    ensures s == front + back && front != "" && front[|front| - 1] == '\n'
  {
    var n := |s| - |back|;
    front := s[..n];
    assert s[n - 1..] == "\n" + back && s[n - 1] == s[n - 1..][0] && s[n..] == s[n - 1..][1..] == back;
  }

  lemma TabFirst(prefix: string, back: string)
    requires back == prefix + "\t" + "}" && forall c <- prefix :: c == '\t'
    ensures Firm(back[0]) && '\n' !in back
  {
    if prefix != "" {
      assert prefix[0] in prefix && back[0] == prefix[0];
    }
  }

  /** A line break at the end of a text stays. */
  lemma LastBreak(s: string)
    requires s != "" && s[|s| - 1] == '\n'
    ensures EndsAs(Squeeze(s), "\n")
  {
    hide Replaced;
    BreakLast(s, ' ', '\n');
    BreakLast(Replaced(s, ' ', '\n'), '\n', ' ');
  }

  lemma {:induction false} BreakLast(s: string, a: char, b: char)
    requires s != "" && s[|s| - 1] == '\n' && ((a == ' ' && b == '\n') || (a == '\n' && b == ' '))
    ensures EndsAs(Replaced(s, a, b), "\n") && Replaced(s, a, b) != ""
    decreases |s|
  {
    var i := if |s| > 1 && s[0] == a && s[1] == b then 2 else 1;
    var head := if i == 2 then "\n" else [s[0]];
    if i == |s| {
      assert s[i..] == "" && head + "" == head;
    } else {
      BreakLast(s[i..], a, b);
      EndsFront(head, Replaced(s[i..], a, b), "\n");
    }
  }
}
