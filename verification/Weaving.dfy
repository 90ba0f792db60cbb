/**
 What the writer makes of nodes whose texts need no squeezing: the texts in their order, with a line break or the infix
 between them.
 */
module Weaving {
  import opened Tokens
  import opened Lexis
  import opened Grammar
  import opened Layout
  import opened RoundTrip
  import opened Printer
  import opened NodeText
  import opened Reading

  /** A text that neither squeezing nor padding changes, nor squeezing it together with another. */
  predicate Clean(s: string) {
    && s != "" && !IsSpace(s[0]) && Firm(s[|s| - 1]) && Tidy(s)
    && forall c <- s :: !Special(c)
  }

  /** Texts and line breaks, with the infix only between two texts. */
  function Flat(list: seq<string>, infix: string): string {
    if list == [] then ""
    else if |list| == 1 then list[0]
    else list[0] + ((if list[0] == "\n" || list[1] == "\n" then "" else infix) + Flat(list[1..], infix))
  }

  predicate Breakable(list: seq<string>) {
    forall x <- list :: x == "\n" || Clean(x)
  }

  // ---- squeezing -------------------------------------------------------------------------------------

  lemma CleanStays(s: string)
    requires Clean(s)
    ensures Squeeze(s) == s && Firm(s[0]) && s != "\n"
  {
    SqueezeShorter(s);
  }

  /** A blank before a newline is lost, and one between two newlines. */
  lemma BlankLost(x: string)
    ensures Squeeze(" " + ("\n" + x)) == Squeeze("\n" + x)
    ensures Squeeze("\n" + (" " + ("\n" + x))) == "\n" + Squeeze("\n" + x)
    ensures Squeeze("\n" + ("\n" + x)) == "\n" + Squeeze("\n" + x)
  {
    var r := Replaced(x, ' ', '\n');
    FirstReplaced("\n", x);
    assert (" " + ("\n" + x))[2..] == x && Replaced(" " + ("\n" + x), ' ', '\n') == "\n" + r;
    FirstReplaced("\n", " " + ("\n" + x));
    FirstReplaced("\n", "\n" + x);
    BreakKept(r);
  }

  lemma FirstReplaced(c: string, x: string)
    requires |c| == 1 && c != " "
    ensures Replaced(c + x, ' ', '\n') == c + Replaced(x, ' ', '\n')
  {
    assert (c + x)[1..] == x;
  }

  lemma BreakKept(r: string)
    ensures Replaced("\n" + ("\n" + r), '\n', ' ') == "\n" + Replaced("\n" + r, '\n', ' ')
  {
    assert ("\n" + ("\n" + r))[1..] == "\n" + r;
  }

  /** Two texts or line breaks, one behind the other. */
  lemma {:induction false} FlatIs(list: seq<string>, infix: string)
    requires Breakable(list) && (infix == "" || infix == " ")
    ensures Squeeze(Join(list, infix)) == Flat(list, infix)
    decreases |list|
  {
    hide Squeeze, Clean;
    if list == [] {
      Nothing();
    } else if |list| == 1 {
      OneFlat(list[0]);
    } else {
      var x, y, rest := list[0], list[1], list[1..];
      assert x in list && y in list && rest[0] == y && forall z :: z in rest ==> z in list;
      FlatIs(rest, infix);
      FlatStep(x, y, rest, infix);
      assert list == [x] + rest;
    }
  }

  lemma FlatStep(x: string, y: string, rest: seq<string>, infix: string)
    requires rest != [] && rest[0] == y && (infix == "" || infix == " ")
    requires (x == "\n" || Clean(x)) && (y == "\n" || Clean(y)) && Squeeze(Join(rest, infix)) == Flat(rest, infix)
    ensures Squeeze(Join([x] + rest, infix)) == Flat([x] + rest, infix)
  {
    hide Squeeze, Clean, Flat;
    var j := Join(rest, infix);
    JoinStarts(rest, infix);
    FlatFront(x, rest, infix);
    assert ([x] + rest)[1..] == rest && j == y + j[|y|..];
    assert "" + Flat(rest, infix) == Flat(rest, infix);
    if x == "\n" {
      AfterBreak(y, j[|y|..], infix);
    } else {
      AfterText(x, y, j[|y|..], infix);
    }
  }

  lemma Nothing()
    ensures Squeeze("") == ""
  {
  }

  lemma OneFlat(x: string)
    requires x == "\n" || Clean(x)
    ensures Squeeze(x) == x
  {
    if x == "\n" {
      SqueezeShorter(x);
    } else {
      CleanStays(x);
    }
  }

  lemma JoinStarts(list: seq<string>, infix: string)
    requires list != []
    ensures var j := Join(list, infix); |list[0]| <= |j| && j[..|list[0]|] == list[0]
  {
  }

  lemma AfterBreak(y: string, more: string, infix: string)
    requires (y == "\n" || Clean(y)) && (infix == "" || infix == " ")
    ensures Squeeze("\n" + (infix + (y + more))) == "\n" + Squeeze(y + more)
  {
    hide Squeeze, Clean;
    if y == "\n" {
      BlankLost(more);
      assert "" + (y + more) == y + more;
    } else {
      CleanStays(y);
      CleanText(y);
      OneFlat("\n");
      BlankAfter();
      Assoc("\n", infix, y + more);
      assert (y + more)[0] == y[0] && "\n" + "" == "\n";
      SqueezeJoin("\n" + infix, y + more);
    }
  }

  lemma CleanText(y: string)
    requires Clean(y)
    ensures y != "" && Firm(y[|y| - 1])
  {
  }

  lemma BlankAfter()
    ensures Squeeze("\n" + " ") == "\n" && Squeeze(" ") == " "
  {
    SqueezeShorter(" ");
    FirstReplaced("\n", " ");
    assert Replaced(" ", ' ', '\n') == " " && Replaced("\n" + " ", '\n', ' ') == "\n" + Replaced("", '\n', ' ') by {
      assert ("\n" + " ")[2..] == "";
    }
  }

  lemma AfterText(x: string, y: string, more: string, infix: string)
    requires Clean(x) && (y == "\n" || Clean(y)) && (infix == "" || infix == " ")
    ensures Squeeze(x + (infix + (y + more))) == x + ((if y == "\n" then "" else infix) + Squeeze(y + more))
  {
    hide Squeeze, Clean;
    CleanStays(x);
    CleanText(x);
    SqueezeJoin(x, infix + (y + more));
    assert "" + (y + more) == y + more && "" + Squeeze(y + more) == Squeeze(y + more);
    if y == "\n" {
      BlankLost(more);
    } else {
      CleanStays(y);
      CleanText(y);
      BlankAfter();
      Nothing();
      assert (y + more)[0] == y[0];
      SqueezeJoin(infix, y + more);
    }
  }

  /** Nothing in it is padded. */
  lemma {:induction false} FlatPlain(list: seq<string>, infix: string)
    requires Breakable(list) && (infix == "" || infix == " ")
    ensures forall c <- Flat(list, infix) :: !Special(c)
    decreases |list|
  {
    if list == [] {
    } else {
      assert list[0] in list;
      FlatPlain(list[1..], infix);
    }
  }

  /** Nodes with clean texts, or without text, are written as they are. */
  lemma WrittenIs(items: seq<Item>, infix: string, sameLine: bool, w: Writer)
    requires items != [] && (forall i <- items :: Blank(i.text) || Clean(i.text))
    requires (infix == "" || infix == " ") && Pads(w.pad)
    ensures Written(items, infix, sameLine, w) == Flat(TextList(items, items[0].last, false, sameLine), infix)
  {
    hide Squeeze, Clean, Blank, Padded;
    var list := TextList(items, items[0].last, false, sameLine);
    ListBreakable(items, items[0].last, false, sameLine);
    FlatIs(list, infix);
    FlatPlain(list, infix);
    var s := Flat(list, infix);
    assert Padded(s, w.pad(s));
    PaddedNone(s, w.pad(s));
  }

  lemma {:induction false} ListBreakable(items: seq<Item>, line: int, behind: bool, sameLine: bool)
    requires forall i <- items :: Blank(i.text) || Clean(i.text)
    ensures Breakable(TextList(items, line, behind, sameLine))
  {
    hide Clean, Blank, Breaks;
    if items == [] {
    } else {
      assert items[0] in items;
      ListBreakable(items[1..], items[0].last, items[0].behind, sameLine);
    }
  }

  // ---- pieces ----------------------------------------------------------------------------------------

  /** A node that is written, with the pieces that its text consists of. */
  datatype Part = Part(item: Item, pieces: seq<Piece>)

  ghost predicate PartOk(p: Part) {
    && Text(p.pieces) == p.item.text && Readable(p.pieces, "")
    && (p.pieces != [] ==> p.pieces[0].gap == "" && Clean(p.item.text))
  }

  function Items(parts: seq<Part>): (items: seq<Item>)
    ensures |items| == |parts|
  {
    seq(|parts|, k requires 0 <= k < |parts| => parts[k].item)
  }

  function WithGap(gap: string, pieces: seq<Piece>): seq<Piece>
    requires pieces != []
  {
    [pieces[0].(gap := gap)] + pieces[1..]
  }

  function EmptyLines(n: nat): string {
    if n == 0 then "" else "\n" + EmptyLines(n - 1)
  }

  function BreakIf(i: Item, line: int, behind: bool): nat {
    if Breaks(i, line, behind, true) then 1 else 0
  }

  /** The pieces of the nodes behind a text and `n` line breaks. */
  function Weave(parts: seq<Part>, line: int, behind: bool, n: nat, infix: string): seq<Piece> {
    if parts == [] then []
    else
      var p := parts[0];
      var m := n + BreakIf(p.item, line, behind);
      if p.pieces == [] then Weave(parts[1..], p.item.last, p.item.behind, m, infix)
      else
        WithGap(if m == 0 then infix else EmptyLines(m), p.pieces) +
        Weave(parts[1..], p.item.last, p.item.behind, 0, infix)
  }

  /** The line breaks that are left behind the last text. */
  function Left(parts: seq<Part>, line: int, behind: bool, n: nat): nat {
    if parts == [] then n
    else
      var p := parts[0];
      Left(parts[1..], p.item.last, p.item.behind, if p.pieces == [] then n + BreakIf(p.item, line, behind) else 0)
  }

  function BreakList(n: nat): seq<string> {
    if n == 0 then [] else ["\n"] + BreakList(n - 1)
  }

  lemma {:induction false} BreaksFlat(n: nat, tail: seq<string>, infix: string)
    ensures Flat(BreakList(n) + tail, infix) == EmptyLines(n) + Flat(tail, infix)
  {
    hide Flat;
    if n == 0 {
      assert [] + tail == tail && "" + Flat(tail, infix) == Flat(tail, infix);
    } else {
      BreaksFlat(n - 1, tail, infix);
      FlatFront("\n", BreakList(n - 1) + tail, infix);
      Assoc(["\n"], BreakList(n - 1), tail);
      Assoc("\n", EmptyLines(n - 1), Flat(tail, infix));
    }
  }

  /** The first of the texts, or a line break. */
  lemma FlatFront(x: string, rest: seq<string>, infix: string)
    ensures Flat([x] + rest, infix) ==
            x + ((if rest == [] || x == "\n" || rest[0] == "\n" then "" else infix) + Flat(rest, infix))
  {
    assert ([x] + rest)[1..] == rest;
    assert "" + Flat(rest, infix) == Flat(rest, infix);
    if rest == [] {
      assert x + "" == x;
    }
  }

  lemma {:induction false} OneMore(n: nat)
    ensures BreakList(n) + ["\n"] == BreakList(n + 1) && |BreakList(n)| == n
    ensures n > 0 ==> BreakList(n)[0] == "\n" && EmptyLines(n) != "" && EmptyLines(n)[0] == '\n'
    ensures All(EmptyLines(n), Space)
  {
    if n == 0 {
    } else {
      OneMore(n - 1);
    }
  }

  /** A text, line breaks, and what follows them. */
  lemma TextThenBreaks(x: string, n: nat, tail: seq<string>, infix: string)
    requires x != "\n" && (tail != [] ==> tail[0] != "\n")
    ensures Flat([x] + (BreakList(n) + tail), infix) ==
            x + ((if n > 0 then EmptyLines(n) else if tail == [] then "" else infix) + Flat(tail, infix))
  {
    hide Flat;
    var rest := BreakList(n) + tail;
    OneMore(n);
    BreaksFlat(n, tail, infix);
    FlatFront(x, rest, infix);
    assert "" + Flat(rest, infix) == Flat(rest, infix);
    if n == 0 {
      assert rest == tail;
    } else {
      assert rest[0] == BreakList(n)[0];
    }
  }

  lemma GapText(gap: string, pieces: seq<Piece>)
    requires pieces != [] && pieces[0].gap == ""
    ensures Text(WithGap(gap, pieces)) == gap + Text(pieces)
  {
    hide Text;
    var p, rest := pieces[0], pieces[1..];
    var t := p.text + Text(rest);
    assert [p] + rest == pieces && "" + t == t;
    FirstPiece(p, rest);
    FirstPiece(p.(gap := gap), rest);
  }

  lemma FirstPiece(p: Piece, rest: seq<Piece>)
    ensures Text([p] + rest) == p.gap + (p.text + Text(rest))
  {
    assert ([p] + rest)[1..] == rest;
  }

  /** The woven pieces have the text that is written. */
  lemma {:induction false} WeaveText(x: string, n: nat, parts: seq<Part>, line: int, behind: bool, infix: string)
    requires x != "\n" && forall p <- parts :: PartOk(p)
    ensures Flat([x] + (BreakList(n) + TextList(Items(parts), line, behind, true)), infix) ==
            x + (Text(Weave(parts, line, behind, n, infix)) + EmptyLines(Left(parts, line, behind, n)))
    decreases |parts|
  {
    hide Breaks, Clean, Readable, Flat, Blank, TextList, PartOk, BreakIf;
    if parts == [] {
      TextThenBreaks(x, n, [], infix);
      Empties(n, line, behind, infix);
    } else {
      var p, rest := parts[0], parts[1..];
      var m, more := n + BreakIf(p.item, line, behind), TextList(Items(rest), p.item.last, p.item.behind, true);
      assert p in parts && Items(parts)[1..] == Items(rest);
      ListFront(p, Items(parts), line, behind, n);
      hide Weave, Left, BreakList, Items;
      WeaveFront(parts, line, behind, n, infix);
      if p.pieces == [] {
        WeaveText(x, m, rest, p.item.last, p.item.behind, infix);
      } else {
        PartText(p);
        WeaveText(p.item.text, 0, rest, p.item.last, p.item.behind, infix);
        WeaveOn(x, m, p, more, Weave(rest, p.item.last, p.item.behind, 0, infix),
                Left(rest, p.item.last, p.item.behind, 0), infix);
      }
    }
  }

  lemma WeaveFront(parts: seq<Part>, line: int, behind: bool, n: nat, infix: string)
    requires parts != []
    ensures var p, rest := parts[0], parts[1..];
            var m := n + BreakIf(p.item, line, behind);
            && Weave(parts, line, behind, n, infix) ==
               (if p.pieces == [] then Weave(rest, p.item.last, p.item.behind, m, infix)
                else WithGap(if m == 0 then infix else EmptyLines(m), p.pieces) +
                     Weave(rest, p.item.last, p.item.behind, 0, infix))
            && Left(parts, line, behind, n) ==
               Left(rest, p.item.last, p.item.behind, if p.pieces == [] then m else 0)
  {
    hide Breaks;
  }

  lemma PartText(p: Part)
    requires PartOk(p) && p.pieces != []
    ensures p.item.text != "\n"
  {
    CleanStays(p.item.text);
  }

  /** A text, the line breaks or the infix behind it, and the next text with what is woven behind that. */
  lemma WeaveOn(x: string, m: nat, p: Part, more: seq<string>, woven: seq<Piece>, left: nat, infix: string)
    requires x != "\n" && PartOk(p) && p.pieces != []
    requires Flat([p.item.text] + (BreakList(0) + more), infix) == p.item.text + (Text(woven) + EmptyLines(left))
    ensures Flat([x] + (BreakList(m) + ([p.item.text] + more)), infix) ==
            x + (Text(WithGap(if m == 0 then infix else EmptyLines(m), p.pieces) + woven) + EmptyLines(left))
  {
    hide Clean, Readable, Flat;
    var t, gap := p.item.text, if m == 0 then infix else EmptyLines(m);
    CleanStays(t);
    assert [] + more == more;
    TextThenBreaks(x, m, [t] + more, infix);
    GapText(gap, p.pieces);
    TextJoin(WithGap(gap, p.pieces), woven);
    WovenAssoc(gap, t, Text(woven), EmptyLines(left));
  }

  lemma WovenAssoc(gap: string, t: string, w: string, left: string)
    ensures gap + (t + (w + left)) == ((gap + t) + w) + left
  {
  }

  lemma Empties(n: nat, line: int, behind: bool, infix: string)
    ensures Flat([], infix) == "" && TextList(Items([]), line, behind, true) == []
    ensures "" + EmptyLines(n) == EmptyLines(n) == EmptyLines(n) + ""
  {
  }

  lemma CleanIsText(s: string)
    requires Clean(s)
    ensures !Blank(s)
  {
    assert s[0] in s;
  }

  lemma BlankNothing()
    ensures Blank("")
  {
  }

  /** The first node adds a line break or none, and its text, if it has one. */
  lemma ListFront(p: Part, items: seq<Item>, line: int, behind: bool, n: nat)
    requires items != [] && items[0] == p.item && PartOk(p)
    ensures var more := TextList(items[1..], p.item.last, p.item.behind, true);
            BreakList(n) + TextList(items, line, behind, true) ==
            BreakList(n + BreakIf(p.item, line, behind)) + if p.pieces == [] then more else [p.item.text] + more
  {
    hide Breaks, Blank, Clean, Readable;
    BlankNothing();
    OneMore(n);
    var texts := if Blank(p.item.text) then [] else [p.item.text];
    var more := TextList(items[1..], p.item.last, p.item.behind, true);
    if p.pieces != [] {
      CleanIsText(p.item.text);
    } else {
      assert [] + more == more;
    }
    var breaks := if Breaks(p.item, line, behind, true) then ["\n"] else [];
    assert TextList(items, line, behind, true) == breaks + (texts + more);
    Assoc(BreakList(n), breaks, texts + more);
    assert BreakList(n) + [] == BreakList(n);
  }

  // ---- readable pieces -------------------------------------------------------------------------------

  /** May the text follow the piece? */
  predicate Fits(p: Piece, after: string) {
    match p.kind
    case COMMENT => after == "" || after[0] == '\n'
    case DOCUMENT => true
    case _ => p.text != "" && WordEnds(p.text, after)
  }

  lemma FitsEnds(p: Piece, a: string, b: string)
    requires EndsBefore(p, a) && Fits(p, b)
    ensures EndsBefore(p, b)
  {
  }

  lemma FitsLike(p: Piece, a: string, b: string)
    requires Fits(p, a) && (a == "" <==> b == "") && (a != "" ==> a[0] == b[0])
    ensures Fits(p, b)
  {
  }

  lemma EndsLike(p: Piece, a: string, b: string)
    requires EndsBefore(p, a) && a != "" && b != "" && a[0] == b[0]
    ensures EndsBefore(p, b)
  {
    if p.kind == DOCUMENT {
    } else if p.kind == COMMENT {
    } else {
      assert WordEnds(p.text, b);
    }
  }

  /** Pieces that are readable by themselves are so before any text that fits the last of them. */
  lemma {:induction false} ReadableBefore(pieces: seq<Piece>, after: string)
    requires pieces != [] && Readable(pieces, "") && Fits(pieces[|pieces| - 1], after)
    ensures Readable(pieces, after)
    decreases |pieces|
  {
    hide EndsBefore, Fits;
    var rest := pieces[1..];
    assert Text(rest) + "" == Text(rest);
    if rest == [] {
      assert "" + after == after;
      FitsEnds(pieces[0], "", after);
    } else {
      ReadableBefore(rest, after);
      PieceText(rest);
      assert (Text(rest) + after)[0] == Text(rest)[0];
      EndsLike(pieces[0], Text(rest), Text(rest) + after);
    }
  }

  lemma PieceText(pieces: seq<Piece>)
    requires pieces != [] && Readable(pieces, "")
    ensures Text(pieces) != ""
  {
    PieceStart(pieces[0], Text(pieces[1..]) + "");
  }

  /** Does every node fit behind the one before it? */
  predicate Chained(parts: seq<Part>, infix: string) {
    forall k :: 0 < k < |parts| && parts[k - 1].pieces != [] ==> Meets(parts[k - 1], parts[k], infix)
  }

  predicate Meets(p: Part, q: Part, infix: string)
    requires p.pieces != []
  {
    Breaks(q.item, p.item.last, p.item.behind, true) ||
    (var last := p.pieces[|p.pieces| - 1];
     if q.pieces == [] then infix == " " && last.kind != COMMENT && last.text != ""
       else Fits(last, infix + q.item.text))
  }

  /** What follows a node that a part `q` comes after. */
  lemma {:induction false} AfterPart(parts: seq<Part>, line: int, behind: bool, n: nat, infix: string)
    requires parts != [] && forall p <- parts :: PartOk(p)
    ensures var f := Text(Weave(parts, line, behind, n, infix)) + EmptyLines(Left(parts, line, behind, n));
            if n + BreakIf(parts[0].item, line, behind) > 0 then f != "" && f[0] == '\n'
            else if parts[0].pieces == [] then infix == " " ==> f == "" || IsSpace(f[0])
            else f != "" && infix + parts[0].item.text != "" && f[0] == (infix + parts[0].item.text)[0]
    decreases |parts|
  {
    hide Breaks, Clean, Readable, Text, Weave, Left;
    var p, rest := parts[0], parts[1..];
    var m := n + BreakIf(p.item, line, behind);
    assert p in parts;
    WeaveFront(parts, line, behind, n, infix);
    if p.pieces == [] {
      if rest == [] {
        NothingWoven(p.item.last, p.item.behind, m, infix);
        OneMore(m);
      } else {
        AfterPart(rest, p.item.last, p.item.behind, m, infix);
      }
    } else {
      var gap := if m == 0 then infix else EmptyLines(m);
      OneMore(m);
      GapText(gap, p.pieces);
      CleanFirst(p.item.text);
      TextJoin(WithGap(gap, p.pieces), Weave(rest, p.item.last, p.item.behind, 0, infix));
    }
  }

  lemma NoLines()
    ensures EmptyLines(0) == ""
  {
  }

  lemma NothingWoven(line: int, behind: bool, n: nat, infix: string)
    ensures Text(Weave([], line, behind, n, infix)) + EmptyLines(Left([], line, behind, n)) == EmptyLines(n)
  {
    assert "" + EmptyLines(n) == EmptyLines(n);
  }

  lemma CleanFirst(s: string)
    requires Clean(s)
    ensures s != ""
  {
  }

  lemma FitsBreak(p: Piece, f: string)
    requires f != "" && f[0] == '\n' && (p.kind != COMMENT && p.kind != DOCUMENT ==> p.text != "")
    ensures Fits(p, f)
  {
  }

  lemma FitsSpace(p: Piece, f: string)
    requires (f == "" || IsSpace(f[0])) && p.kind != COMMENT && p.text != ""
    ensures Fits(p, f)
  {
  }

  lemma {:induction false} LastHasText(pieces: seq<Piece>)
    requires pieces != [] && Readable(pieces, "")
    ensures pieces[|pieces| - 1].text != ""
    decreases |pieces|
  {
    hide EndsBefore;
    if |pieces| == 1 {
      PieceStart(pieces[0], Text(pieces[1..]) + "");
    } else {
      LastHasText(pieces[1..]);
    }
  }

  lemma MeetsFits(p: Part, parts: seq<Part>, infix: string)
    requires p.pieces != [] && PartOk(p) && (forall q <- parts :: PartOk(q)) &&
             (parts != [] ==> Meets(p, parts[0], infix))
    requires parts == [] ==> Fits(p.pieces[|p.pieces| - 1], "")
    ensures Fits(p.pieces[|p.pieces| - 1],
                 Text(Weave(parts, p.item.last, p.item.behind, 0, infix)) +
                 EmptyLines(Left(parts, p.item.last, p.item.behind, 0)))
  {
    hide Breaks, Fits, Clean, Readable, Weave, Left, Text, EmptyLines;
    var last := p.pieces[|p.pieces| - 1];
    var f := Text(Weave(parts, p.item.last, p.item.behind, 0, infix)) +
             EmptyLines(Left(parts, p.item.last, p.item.behind, 0));
    LastHasText(p.pieces);
    if parts == [] {
      NothingWoven(p.item.last, p.item.behind, 0, infix);
      NoLines();
    } else {
      AfterPart(parts, p.item.last, p.item.behind, 0, infix);
      if BreakIf(parts[0].item, p.item.last, p.item.behind) > 0 {
        FitsBreak(last, f);
      } else if parts[0].pieces == [] {
        FitsSpace(last, f);
      } else {
        assert parts[0] in parts;
        CleanFirst(parts[0].item.text);
        FitsLike(last, infix + parts[0].item.text, f);
      }
    }
  }

  lemma GapReadable(gap: string, pieces: seq<Piece>, after: string)
    requires pieces != [] && Readable(pieces, after) && All(gap, Space)
    ensures Readable(WithGap(gap, pieces), after)
  {
    assert WithGap(gap, pieces)[1..] == pieces[1..];
  }

  /** Woven pieces are readable if each of them fits before the next. */
  lemma {:induction false} WeaveReadable(parts: seq<Part>, line: int, behind: bool, n: nat, infix: string)
    requires (forall p <- parts :: PartOk(p)) && Chained(parts, infix) && All(infix, Space)
    requires parts != [] && parts[|parts| - 1].pieces != [] ==>
               var last := parts[|parts| - 1].pieces; Fits(last[|last| - 1], "")
    ensures Readable(Weave(parts, line, behind, n, infix), EmptyLines(Left(parts, line, behind, n)))
    decreases |parts|
  {
    hide Breaks, Fits, Clean, Meets, EndsBefore, PartOk, Chained, All, Readable, EmptyLines;
    if parts == [] {
      NothingReadable(EmptyLines(n));
    } else {
      var p, rest := parts[0], parts[1..];
      var m := n + BreakIf(p.item, line, behind);
      assert p in parts;
      ChainedRest(parts, infix);
      OneMore(m);
      PartReadable(p);
      if p.pieces == [] {
        WeaveReadable(rest, p.item.last, p.item.behind, m, infix);
      } else {
        var gap := if m == 0 then infix else EmptyLines(m);
        WeaveReadable(rest, p.item.last, p.item.behind, 0, infix);
        MeetsFits(p, rest, infix);
        var w, left := Weave(rest, p.item.last, p.item.behind, 0, infix), Left(rest, p.item.last, p.item.behind, 0);
        ReadableBefore(p.pieces, Text(w) + EmptyLines(left));
        GapReadable(gap, p.pieces, Text(w) + EmptyLines(left));
        ReadableJoin(WithGap(gap, p.pieces), w, EmptyLines(left));
      }
    }
  }

  lemma NothingReadable(tail: string)
    ensures Readable([], tail)
  {
  }

  lemma PartReadable(p: Part)
    requires PartOk(p)
    ensures Readable(p.pieces, "")
  {
  }

  lemma ChainedRest(parts: seq<Part>, infix: string)
    requires Chained(parts, infix) && parts != []
    ensures Chained(parts[1..], infix)
    ensures |parts| > 1 && parts[0].pieces != [] ==> Meets(parts[0], parts[1..][0], infix)
  {
    hide Meets;
    forall k | 0 < k < |parts[1..]| && parts[1..][k - 1].pieces != []
      ensures Meets(parts[1..][k - 1], parts[1..][k], infix)
    {
      assert parts[1..][k - 1] == parts[k] && parts[1..][k] == parts[k + 1];
    }
  }
}
