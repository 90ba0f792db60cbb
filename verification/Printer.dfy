/**
 The text that the printer writes for a type: every piece of text it hands to the column writer loses a blank before
 and after each newline, also within tags, and the column writer replaces tabs. What is printed parses back to the type
 with its tags so changed.
 */
module Printer {
  import opened Tokens
  import opened Lexis
  import opened Grammar
  import opened Layout
  import opened DataTypes
  import opened ParseSpec
  import opened RoundTrip
  import opened TextTrip
  import opened TypeText
  import opened Comments

  // ---- blanks at newlines ----------------------------------------------------------------------------

  /** `s` with every `a` followed by `b` replaced by a newline, from the left. */
  function Replaced(s: string, a: char, b: char): string {
    if s == "" then ""
    else if |s| > 1 && s[0] == a && s[1] == b then "\n" + Replaced(s[2..], a, b)
    else [s[0]] + Replaced(s[1..], a, b)
  }

  /** One blank less before and after each newline, if there is one. */
  function Squeeze(s: string): string {
    Replaced(Replaced(s, ' ', '\n'), '\n', ' ')
  }

  predicate Has(s: string, a: char, b: char) {
    exists k :: 0 < k < |s| && s[k - 1] == a && s[k] == b
  }

  /** No blank stands next to a newline. */
  predicate Tidy(s: string) {
    !Has(s, ' ', '\n') && !Has(s, '\n', ' ')
  }

  lemma HasCons(s: string, a: char, b: char)
    requires s != ""
    ensures Has(s, a, b) <==> (|s| > 1 && s[0] == a && s[1] == b) || Has(s[1..], a, b)
  {
    var r := s[1..];
    if k :| 0 < k < |r| && r[k - 1] == a && r[k] == b {
      assert s[k] == a && s[k + 1] == b;
    }
    if k :| 0 < k < |s| && s[k - 1] == a && s[k] == b && k > 1 {
      assert r[k - 2] == a && r[k - 1] == b;
    }
  }

  /** Something is replaced exactly if there is something to replace, and then the text gets shorter. */
  lemma {:induction false} ReplacedShorter(s: string, a: char, b: char)
    ensures if Has(s, a, b) then |Replaced(s, a, b)| < |s| else Replaced(s, a, b) == s
    decreases |s|
  {
    hide Has;
    if s == "" {
      NothingHad(a, b);
    } else {
      HasCons(s, a, b);
      ReplacedShorter(s[1..], a, b);
      if |s| > 1 {
        ReplacedShorter(s[2..], a, b);
      }
    }
  }

  lemma NothingHad(a: char, b: char)
    ensures !Has("", a, b)
  {
  }

  /** A text is left as it is exactly if no blank stands next to a newline. */
  lemma SqueezeShorter(s: string)
    ensures if Tidy(s) then Squeeze(s) == s else |Squeeze(s)| < |s|
  {
    hide Replaced, Has;
    ReplacedShorter(s, ' ', '\n');
    ReplacedShorter(Replaced(s, ' ', '\n'), '\n', ' ');
  }

  predicate Firm(c: char) {
    c != ' ' && c != '\n'
  }

  lemma {:induction false} ReplacedJoin(s: string, t: string, a: char, b: char)
    requires s == "" || t == "" || s[|s| - 1] != a || t[0] != b
    ensures Replaced(s + t, a, b) == Replaced(s, a, b) + Replaced(t, a, b)
    decreases |s|
  {
    if s == "" {
      assert s + t == t;
    } else {
      var hit := |s| > 1 && s[0] == a && s[1] == b;
      var i, head := if hit then 2 else 1, if hit then "\n" else [s[0]];
      assert (s + t)[i..] == s[i..] + t;
      ReplacedJoin(s[i..], t, a, b);
      Assoc(head, Replaced(s[i..], a, b), Replaced(t, a, b));
    }
  }

  /** Only blanks are lost, and firm ends stay. */
  lemma {:induction false} ReplacedKeeps(s: string, a: char, b: char)
    requires (a == ' ' && b == '\n') || (a == '\n' && b == ' ')
    ensures forall c :: c in Replaced(s, a, b) ==> c in s
    ensures forall c :: c in s && c != ' ' ==> c in Replaced(s, a, b)
    ensures var r := Replaced(s, a, b);
            s != "" ==> r != "" && (Firm(s[0]) ==> r[0] == s[0]) && (Firm(s[|s| - 1]) ==> r[|r| - 1] == s[|s| - 1])
    decreases |s|
  {
    if s == "" {
    } else if |s| > 1 && s[0] == a && s[1] == b {
      ReplacedKeeps(s[2..], a, b);
      assert s == [a] + ([b] + s[2..]);
    } else {
      ReplacedKeeps(s[1..], a, b);
      assert s == [s[0]] + s[1..];
    }
  }

  lemma SqueezeKeeps(s: string)
    ensures forall c :: c in Squeeze(s) ==> c in s
    ensures forall c :: c in s && c != ' ' ==> c in Squeeze(s)
    ensures var r := Squeeze(s);
            s != "" ==> r != "" && (Firm(s[0]) ==> r[0] == s[0]) && (Firm(s[|s| - 1]) ==> r[|r| - 1] == s[|s| - 1])
  {
    hide Replaced;
    ReplacedKeeps(s, ' ', '\n');
    ReplacedKeeps(Replaced(s, ' ', '\n'), '\n', ' ');
  }

  /** Two texts can be squeezed one by one if one of the ends that meet is firm. */
  lemma SqueezeJoin(s: string, t: string)
    requires s == "" || t == "" || Firm(s[|s| - 1]) || Firm(t[0])
    ensures Squeeze(s + t) == Squeeze(s) + Squeeze(t)
  {
    hide Replaced;
    ReplacedJoin(s, t, ' ', '\n');
    ReplacedKeeps(s, ' ', '\n');
    ReplacedKeeps(t, ' ', '\n');
    NoneReplaced();
    ReplacedJoin(Replaced(s, ' ', '\n'), Replaced(t, ' ', '\n'), '\n', ' ');
  }

  lemma NoneReplaced()
    ensures Replaced("", ' ', '\n') == ""
  {
  }

  // ---- columns ---------------------------------------------------------------------------------------

  predicate IsTab(c: char) {
    c == '\t' || c == '\U{0B}'
  }

  /** Does the column writer treat the character in a way of its own? */
  predicate Special(c: char) {
    IsTab(c) || c == '\U{0C}'
  }

  predicate Blanks(s: string) {
    forall k :: 0 <= k < |s| ==> s[k] == ' ' || s[k] == '\t'
  }

  /**
   Text `s` may come out of the column writer as `o`: each tab, horizontal or vertical, has become one or more blanks or
   tabs, each form feed a newline, and the rest is as it was.
   */
  predicate Padded(s: string, o: string)
    decreases |s|
  {
    if s == "" then o == ""
    else if IsTab(s[0]) then exists k :: 0 < k <= |o| && Blanks(o[..k]) && Padded(s[1..], o[k..])
    else o != "" && o[0] == (if s[0] == '\U{0C}' then '\n' else s[0]) && Padded(s[1..], o[1..])
  }

  ghost predicate Pads(pad: string -> string) {
    forall s :: Padded(s, pad(s))
  }

  /** What has become of the first character. */
  lemma PaddedHead(s: string, o: string) returns (i: nat)
    requires Padded(s, o) && s != ""
    ensures 0 < i <= |o| && Padded(s[1..], o[i..])
    ensures if IsTab(s[0]) then Blanks(o[..i]) else o[..i] == [if s[0] == '\U{0C}' then '\n' else s[0]]
  {
    if IsTab(s[0]) {
      i :| 0 < i <= |o| && Blanks(o[..i]) && Padded(s[1..], o[i..]);
    } else {
      i := 1;
    }
  }

  lemma HeadAndTail(s: string, i: nat)
    requires i <= |s|
    ensures s == s[..i] + s[i..] && forall c :: c in s <==> c in s[..i] || c in s[i..]
    ensures i == 1 ==> s[..i] == [s[0]] && s[0] in s
  {
    assert s == s[..i] + s[i..];
  }

  lemma {:induction false} PaddedNone(s: string, o: string)
    requires Padded(s, o) && forall c <- s :: !Special(c)
    ensures o == s
  {
    if s == "" {
    } else {
      var i := PaddedHead(s, o);
      HeadAndTail(s, 1);
      HeadAndTail(o, i);
      PaddedNone(s[1..], o[i..]);
    }
  }

  lemma {:induction false} PaddedJoin(s: string, t: string, o: string) returns (a: string, b: string)
    requires Padded(s + t, o)
    ensures o == a + b && Padded(s, a) && Padded(t, b)
    decreases |s|
  {
    hide Padded;
    if s == "" {
      assert s + t == t;
      NothingPadded();
      a, b := "", o;
    } else {
      var i := PaddedHead(s + t, o);
      var head, tail := o[..i], o[i..];
      assert (s + t)[1..] == s[1..] + t && o == head + tail;
      a, b := PaddedJoin(s[1..], t, tail);
      PaddedCons(s, head, a);
      Assoc(head, a, b);
      a := head + a;
    }
  }

  lemma NothingPadded()
    ensures Padded("", "")
  {
  }

  lemma PaddedCons(s: string, head: string, o: string)
    requires s != "" && head != "" && Padded(s[1..], o)
    requires if IsTab(s[0]) then Blanks(head) else head == [if s[0] == '\U{0C}' then '\n' else s[0]]
    ensures Padded(s, head + o)
  {
    var i := |head|;
    assert (head + o)[..i] == head && (head + o)[i..] == o;
  }

  /** White space without vertical tabs and form feeds. */
  predicate IsGap(s: string) {
    forall c <- s :: c == ' ' || c == '\t' || c == '\n'
  }

  lemma BlanksAreGap(s: string)
    requires Blanks(s)
    ensures IsGap(s) && '\n' !in s
  {
  }

  lemma {:induction false} PaddedGap(s: string, o: string)
    requires Padded(s, o) && IsGap(s)
    ensures IsGap(o) && ('\n' in o <==> '\n' in s) && (o == "" <==> s == "")
    decreases |s|
  {
    hide Padded;
    if s == "" {
      assert o == "" by { PaddedNone(s, o); }
    } else {
      var i := PaddedHead(s, o);
      HeadAndTail(s, 1);
      HeadAndTail(o, i);
      PaddedGap(s[1..], o[i..]);
      if s[0] == '\t' {
        BlanksAreGap(o[..i]);
      }
    }
  }

  /** Text without white space is in the padded text as it was. */
  lemma {:induction false} PaddedHas(s: string, o: string, c: char)
    requires Padded(s, o) && c in s && !IsSpace(c)
    ensures c in o
    decreases |s|
  {
    hide Padded;
    var i := PaddedHead(s, o);
    HeadAndTail(s, 1);
    HeadAndTail(o, i);
    if s[0] == c {
      assert c in o[..i];
    } else {
      PaddedHas(s[1..], o[i..], c);
    }
  }

  // ---- the printer -----------------------------------------------------------------------------------

  /**
   What the printed text depends on beside the type: how the column writer pads, what becomes of a text that is taken
   for a format, which tags stand on a later line than the end of their element's type, and which comments stand above
   and behind the braces of an empty struct. An element is given by its index, and by those of the elements around it;
   the key of a map counts as its first and the value as its second element.
   */
  datatype Writer = Writer(
    pad: string -> string, verbs: string -> string, apart: seq<nat> -> bool, braces: seq<nat> -> TokenNode)
  {
    /** For the element of that index. */
    function At(i: nat): Writer {
      Writer(pad, verbs, (path: seq<nat>) => apart([i] + path), (path: seq<nat>) => braces([i] + path))
    }

    /** For the elements after the first one. */
    function Later(): Writer {
      Writer(pad, verbs, (path: seq<nat>) => apart(Next(path)), (path: seq<nat>) => braces(Next(path)))
    }
  }

  function Next(path: seq<nat>): seq<nat> {
    if path == [] then [] else [path[0] + 1] + path[1..]
  }

  /** The further names of an element. */
  function FurtherText(names: seq<string>): string {
    if names == [] then "" else "," + (" " + (names[0] + FurtherText(names[1..])))
  }

  /** The text of a type, behind a prefix that is the indentation of its lines. */
  function Format(t: DataType, prefix: string, w: Writer): string
    decreases t, 1
  {
    match t
    case AnyType => prefix + "any"
    case InterfaceType => prefix + "interface{}"
    case BaseType(name) => prefix + name
    case ArrayType(length, elem) =>
      w.pad(Squeeze("[" + (LengthMark(length).text + ("]" + Format(elem, prefix, w)))))
    case SliceType(elem) => w.pad(Squeeze("[" + ("]" + Format(elem, prefix, w))))
    case MapType(key, value) =>
      w.pad(Squeeze("map" + ("[" + (Format(key, "", w.At(0)) + ("]" + Format(value, prefix, w.At(1)))))))
    case PointerType(elem) => w.pad(Squeeze((prefix + "*") + Format(elem, "", w)))
    case StructType(elems) =>
      if elems == [] then w.pad(Squeeze((prefix + "{") + "}"))
      else w.pad("{" + ("\n" + (FormatElems(elems, prefix, w) + (prefix + "}"))))
  }

  /** Each element on a line of its own. */
  function FormatElems(elems: seq<Elem>, prefix: string, w: Writer): string
    decreases elems, 0
  {
    if elems == [] then ""
    else FormatElem(elems[0], prefix, w.At(0)) + ("\n" + FormatElems(elems[1..], prefix, w.Later()))
  }

  /**
   The names, the type and the tag of the element that `w` is for; a tab keeps them apart, or a blank if there is a
   struct in it.
   */
  function FormatElem(e: Elem, prefix: string, w: Writer): string
    decreases e, 2
  {
    var inner := prefix + "\t";
    var sep := if ContainsStruct(e.tp) then " " else "\t";
    var tp := Format(e.tp, if ContainsStruct(e.tp) || (e.names == [] && e.tag.None?) then inner else "", w);
    Squeeze((if e.names == [] then "" else (inner + e.names[0]) + (FurtherText(e.names[1..]) + sep)) +
            (tp + FormatTag(e, sep, w)))
  }

  function FormatTag(e: Elem, sep: string, w: Writer): string {
    match e.tag
    case None => ""
    case Some(text) => (if ContainsStruct(e.tp) && w.apart([]) then sep + ("\n" + sep) else sep) + text
  }
}
