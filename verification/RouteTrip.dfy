/**
 The text of a route is read back as its words and comments: routes with one text are one route, and if their comments
 need no squeezing they have the same comments and line breaks.
 */
module RouteTrip {
  import opened Tokens
  import opened Lexis
  import opened Grammar
  import opened Layout
  import opened DataTypes
  import opened RoundTrip
  import opened Comments
  import opened Declared
  import opened Printer
  import opened NodeText
  import opened Reading
  import opened Weaving

  // ---- the pieces of a node --------------------------------------------------------------------------

  function BehindPieces(comments: seq<Token>): seq<Piece> {
    if comments == [] then [] else [Piece(" ", comments[0].kind, comments[0].text)] + BehindPieces(comments[1..])
  }

  /** The comments above a token, each on a line of its own, the token, and the comments behind it. */
  function NodeFrom(gap: string, head: seq<Token>, text: string, leading: seq<Token>): seq<Piece>
    decreases |head|
  {
    if head == [] then [Piece(gap, IDENT, text)] + BehindPieces(leading)
    else [Piece(gap, head[0].kind, head[0].text)] + NodeFrom("\n", head[1..], text, leading)
  }

  function PartOf(n: TokenNode): Part {
    Part(ItemOf(n), NodeFrom("", n.head, n.token.text, n.leading))
  }

  /** A comment as the scanner delivers it. */
  ghost predicate Shaped(c: Token) {
    (c.kind == COMMENT && IsLineComment(c.text)) || (c.kind == DOCUMENT && exists star: nat :: IsDocument(c.text, star))
  }

  /** Behind a token, only the last comment may go up to the end of the line. */
  ghost predicate Rowed(comments: seq<Token>) {
    && (forall c <- comments :: Shaped(c))
    && forall k :: 0 <= k < |comments| - 1 ==> comments[k].kind == DOCUMENT
  }

  /** A word with comments as the scanner and the parser deliver them. */
  ghost predicate NodeShaped(n: TokenNode) {
    && IsPlainWord(n.token.text) && (forall c <- n.head :: Shaped(c)) && Rowed(n.leading)
    && Pos(n).line <= n.token.position.line <= End(n).line
  }

  /** No comment has a tab, a blank at its end or one next to a newline. */
  predicate NodeTidy(n: TokenNode) {
    && Clean(n.token.text) && (forall c <- n.head :: Clean(c.text)) && (forall c <- n.leading :: Clean(c.text))
  }

  /** Does a comment behind the token go up to the end of the line? */
  predicate EndsLine(n: TokenNode) {
    n.leading != [] && n.leading[|n.leading| - 1].kind == COMMENT
  }

  /** What comes after the end of a line, or has comments above it, is on a later line. */
  predicate Adjacent(a: TokenNode, b: TokenNode) {
    b.head != [] || EndsLine(a) ==> Pos(b).line > End(a).line
  }

  // ---- clean texts -----------------------------------------------------------------------------------

  lemma CleanJoin(a: string, gap: string, b: string)
    requires Clean(a) && Clean(b) && (gap == "" || gap == " " || gap == "\n")
    ensures Clean(a + (gap + b))
  {
    hide Squeeze, Tidy, Special;
    CleanStays(a);
    CleanStays(b);
    SqueezeJoin(a, gap + b);
    SqueezeJoin(gap, b);
    OneGap();
    SqueezeShorter(a + (gap + b));
    assert (a + (gap + b))[0] == a[0] && (a + (gap + b))[|a + (gap + b)| - 1] == b[|b| - 1];
    assert forall c <- gap :: !Special(c) by { GapsAreNone(gap); }
  }

  lemma OneGap()
    ensures Squeeze("") == "" && Squeeze(" ") == " " && Squeeze("\n") == "\n"
  {
    SqueezeShorter("");
    SqueezeShorter(" ");
    SqueezeShorter("\n");
  }

  lemma GapsAreNone(gap: string)
    requires gap == "" || gap == " " || gap == "\n"
    ensures forall c <- gap :: !Special(c)
  {
  }

  lemma {:induction false} CleanBreaks(a: string, n: nat, b: string)
    requires Clean(a) && Clean(b)
    ensures Clean(a + (EmptyLines(n) + b))
  {
    hide Squeeze, Tidy, Special, Clean;
    CleanParts(a);
    CleanParts(b);
    BreaksStay(n, b);
    SqueezeJoin(a, EmptyLines(n) + b);
    SqueezeShorter(a + (EmptyLines(n) + b));
    CleanEnds(a, EmptyLines(n), b);
  }

  lemma CleanParts(a: string)
    requires Clean(a)
    ensures a != "" && Squeeze(a) == a && Firm(a[0]) && Firm(a[|a| - 1])
  {
    CleanStays(a);
  }

  lemma {:induction false} BreaksStay(n: nat, b: string)
    requires b != "" && Squeeze(b) == b && Firm(b[0])
    ensures Squeeze(EmptyLines(n) + b) == EmptyLines(n) + b && forall c <- EmptyLines(n) :: !Special(c)
  {
    hide Squeeze;
    if n == 0 {
      assert "" + b == b;
    } else {
      BreaksStay(n - 1, b);
      Assoc("\n", EmptyLines(n - 1), b);
      if n == 1 {
        OneGap();
        assert EmptyLines(0) + b == b && "\n" + "" == "\n";
        SqueezeJoin("\n", b);
      } else {
        Assoc("\n", EmptyLines(n - 2), b);
        BlankLost(EmptyLines(n - 2) + b);
      }
    }
  }

  lemma CleanEnds(a: string, gap: string, b: string)
    requires Clean(a) && Clean(b) && (forall c <- gap :: !Special(c)) && Tidy(a + (gap + b))
    ensures Clean(a + (gap + b))
  {
    assert (a + (gap + b))[0] == a[0] && (a + (gap + b))[|a + (gap + b)| - 1] == b[|b| - 1];
  }

  // ---- the text of a node ----------------------------------------------------------------------------

  lemma {:induction false} BehindText(text: string, comments: seq<Token>)
    requires Clean(text) && forall c <- comments :: Clean(c.text)
    ensures Text(BehindPieces(comments)) == Behind(comments) && Clean(text + Behind(comments))
    decreases |comments|
  {
    hide Clean;
    if comments == [] {
      assert text + "" == text;
    } else {
      var c, rest := comments[0], comments[1..];
      assert c in comments;
      CleanJoin(text, " ", c.text);
      BehindText(text + (" " + c.text), rest);
      assert (text + (" " + c.text)) + Behind(rest) == text + (" " + (c.text + Behind(rest)));
      assert BehindPieces(comments)[1..] == BehindPieces(rest);
    }
  }

  lemma {:induction false} NodeFromText(gap: string, head: seq<Token>, text: string, leading: seq<Token>)
    requires Clean(text) && (forall c <- head :: Clean(c.text)) && forall c <- leading :: Clean(c.text)
    ensures Text(NodeFrom(gap, head, text, leading)) == gap + (Above(head) + (text + Behind(leading)))
    ensures Clean(Above(head) + (text + Behind(leading)))
    decreases |head|
  {
    hide Clean;
    BehindText(text, leading);
    var t := text + Behind(leading);
    if head == [] {
      assert "" + t == t;
      assert NodeFrom(gap, head, text, leading)[1..] == BehindPieces(leading);
    } else {
      var c, rest := head[0], head[1..];
      assert c in head;
      NodeFromText("\n", rest, text, leading);
      CleanJoin(c.text, "\n", Above(rest) + t);
      assert NodeFrom(gap, head, text, leading)[1..] == NodeFrom("\n", rest, text, leading);
      assert Above(head) + t == c.text + ("\n" + (Above(rest) + t));
    }
  }

  lemma ShapedEnds(gap: string, c: Token, after: string)
    requires Shaped(c) && All(gap, Space) && (c.kind == COMMENT ==> after == "" || after[0] == '\n')
    ensures EndsBefore(Piece(gap, c.kind, c.text), after)
  {
  }

  lemma {:induction false} BehindReadable(comments: seq<Token>)
    requires Rowed(comments)
    ensures Readable(BehindPieces(comments), "")
    ensures comments != [] ==> Text(BehindPieces(comments)) != "" && Text(BehindPieces(comments))[0] == ' '
    decreases |comments|
  {
    hide EndsBefore, Shaped;
    if comments == [] {
    } else {
      var c, rest := comments[0], comments[1..];
      assert c in comments && All(" ", Space);
      assert forall k :: 0 <= k < |rest| - 1 ==> rest[k] == comments[k + 1];
      BehindReadable(rest);
      assert BehindPieces(comments)[1..] == BehindPieces(rest);
      var after := Text(BehindPieces(rest)) + "";
      assert after == Text(BehindPieces(rest));
      ShapedEnds(" ", c, after);
    }
  }

  lemma {:induction false} NodeReadable(gap: string, head: seq<Token>, text: string, leading: seq<Token>)
    requires IsPlainWord(text) && (forall c <- head :: Shaped(c)) && Rowed(leading) && All(gap, Space)
    ensures Readable(NodeFrom(gap, head, text, leading), "")
    ensures NodeFrom(gap, head, text, leading) != [] && NodeFrom(gap, head, text, leading)[0].gap == gap
    decreases |head|
  {
    hide EndsBefore, Shaped, IsPlainWord, All;
    if head == [] {
      BehindReadable(leading);
      var after := Text(BehindPieces(leading)) + "";
      assert after == Text(BehindPieces(leading));
      WordBefore(gap, text, after);
      assert NodeFrom(gap, head, text, leading)[1..] == BehindPieces(leading);
    } else {
      var c, rest := head[0], head[1..];
      var more := NodeFrom("\n", rest, text, leading);
      assert c in head;
      assert All("\n", Space) by { OneMore(1); assert EmptyLines(1) == "\n" + EmptyLines(0) == "\n"; }
      NodeReadable("\n", rest, text, leading);
      assert NodeFrom(gap, head, text, leading)[1..] == more;
      assert Text(more) + "" == Text(more) == "\n" + (more[0].text + Text(more[1..]));
      ShapedEnds(gap, c, Text(more));
    }
  }

  lemma WordBefore(gap: string, text: string, after: string)
    requires IsPlainWord(text) && All(gap, Space) && (after == "" || after[0] == ' ')
    ensures EndsBefore(Piece(gap, IDENT, text), after)
  {
  }

  /** A word with its comments is written as its pieces. */
  lemma NodePartOk(n: TokenNode)
    requires NodeShaped(n) && NodeTidy(n)
    ensures PartOk(PartOf(n)) && PartOf(n).pieces != []
  {
    hide Clean, Shaped, Rowed, IsPlainWord, Readable, Text;
    assert All("", Space);
    NodeFromText("", n.head, n.token.text, n.leading);
    NodeReadable("", n.head, n.token.text, n.leading);
    assert "" + TextOf(n) == TextOf(n);
  }

  /** What a part ends with. */
  function LastPiece(p: Part): Piece
    requires p.pieces != []
  {
    p.pieces[|p.pieces| - 1]
  }

  lemma {:induction false} LastOfNode(gap: string, head: seq<Token>, text: string, leading: seq<Token>)
    ensures var ps := NodeFrom(gap, head, text, leading);
            && ps != []
            && var last := ps[|ps| - 1];
               if leading == [] then last.kind == IDENT && last.text == text
               else last.kind == leading[|leading| - 1].kind && last.text == leading[|leading| - 1].text
    decreases |head|
  {
    if head == [] {
      LastBehind(leading);
    } else {
      LastOfNode("\n", head[1..], text, leading);
    }
  }

  lemma {:induction false} LastBehind(comments: seq<Token>)
    ensures |BehindPieces(comments)| == |comments|
    ensures comments != [] ==>
              var last := BehindPieces(comments)[|comments| - 1];
              last.kind == comments[|comments| - 1].kind && last.text == comments[|comments| - 1].text
    decreases |comments|
  {
    if comments == [] {
    } else {
      LastBehind(comments[1..]);
    }
  }

  // ---- several nodes ---------------------------------------------------------------------------------

  /** The pieces of nodes that are written together, the first of which has a text. */
  function Whole(parts: seq<Part>, infix: string): seq<Piece>
    requires parts != []
  {
    parts[0].pieces + Weave(parts[1..], parts[0].item.last, parts[0].item.behind, 0, infix)
  }

  function LeftOf(parts: seq<Part>): nat
    requires parts != []
  {
    Left(parts[1..], parts[0].item.last, parts[0].item.behind, 0)
  }

  /** Parts that can be written together. */
  ghost predicate Together(parts: seq<Part>, infix: string) {
    && parts != [] && (forall p <- parts :: PartOk(p)) && Chained(parts, infix) && parts[0].pieces != []
    && parts[0].item.first <= parts[0].item.last && (infix == "" || infix == " ")
    && (parts[|parts| - 1].pieces != [] ==> Fits(LastPiece(parts[|parts| - 1]), ""))
  }

  lemma WholeWritten(parts: seq<Part>, infix: string, w: Writer)
    requires Together(parts, infix) && Pads(w.pad)
    ensures Written(Items(parts), infix, true, w) == Text(Whole(parts, infix)) + EmptyLines(LeftOf(parts))
  {
    hide Clean, Readable, Weave, Left, Flat, Blank, Fits, Padded, Chained;
    var items, p, rest := Items(parts), parts[0], parts[1..];
    assert p in parts && items[0] == p.item && items[1..] == Items(rest);
    forall i | i in items
      ensures Blank(i.text) || Clean(i.text)
    {
      var k :| 0 <= k < |items| && items[k] == i;
      assert parts[k] in parts;
      PartBlank(parts[k]);
    }
    WrittenIs(items, infix, true, w);
    var list := TextList(items[1..], p.item.last, p.item.behind, true);
    PartBlank(p);
    CleanIsText(p.item.text);
    CleanStays(p.item.text);
    assert TextList(items, p.item.last, false, true) == [p.item.text] + list;
    assert BreakList(0) + list == list;
    WeaveText(p.item.text, 0, rest, p.item.last, p.item.behind, infix);
    TextJoin(p.pieces, Weave(rest, p.item.last, p.item.behind, 0, infix));
    Assoc(p.item.text, Text(Weave(rest, p.item.last, p.item.behind, 0, infix)), EmptyLines(LeftOf(parts)));
  }

  lemma PartBlank(p: Part)
    requires PartOk(p)
    ensures if p.pieces == [] then Blank(p.item.text) else Clean(p.item.text)
  {
    BlankNothing();
  }

  lemma WholeReadable(parts: seq<Part>, infix: string)
    requires Together(parts, infix)
    ensures Readable(Whole(parts, infix), EmptyLines(LeftOf(parts)))
  {
    hide Clean, Readable, Weave, Left, Fits, EndsBefore, Meets, Chained;
    var p, rest := parts[0], parts[1..];
    assert p in parts && forall q :: q in rest ==> q in parts;
    ChainedRest(parts, infix);
    assert All(infix, Space);
    WeaveReadable(rest, p.item.last, p.item.behind, 0, infix);
    if rest != [] {
      assert rest[0] == parts[1];
    }
    PartReadable(p);
    MeetsFits(p, rest, infix);
    var w, left := Weave(rest, p.item.last, p.item.behind, 0, infix), LeftOf(parts);
    ReadableBefore(p.pieces, Text(w) + EmptyLines(left));
    ReadableJoin(p.pieces, w, EmptyLines(left));
  }

  /** If the last part has a text, the whole text is clean, and nothing is left behind it. */
  lemma WholeClean(parts: seq<Part>, infix: string)
    requires Together(parts, infix) && forall p <- parts :: p.pieces != []
    ensures Clean(Text(Whole(parts, infix))) && LeftOf(parts) == 0 && Whole(parts, infix)[0] == parts[0].pieces[0]
  {
    hide Clean, Readable, Weave, Left, Fits, EndsBefore, Meets, Chained;
    var p, rest := parts[0], parts[1..];
    assert p in parts && forall q :: q in rest ==> q in parts;
    PartBlank(p);
    WeaveClean(p.item.text, rest, p.item.last, p.item.behind, infix);
    TextJoin(p.pieces, Weave(rest, p.item.last, p.item.behind, 0, infix));
  }

  lemma {:induction false} WeaveClean(x: string, parts: seq<Part>, line: int, behind: bool, infix: string)
    requires Clean(x) && (forall p <- parts :: PartOk(p) && p.pieces != []) && (infix == "" || infix == " ")
    ensures Clean(x + Text(Weave(parts, line, behind, 0, infix))) && Left(parts, line, behind, 0) == 0
    decreases |parts|
  {
    hide Clean, Readable, BreakIf;
    if parts == [] {
      assert x + "" == x;
    } else {
      var p, rest := parts[0], parts[1..];
      var m := BreakIf(p.item, line, behind);
      var gap := if m == 0 then infix else EmptyLines(m);
      assert p in parts;
      PartBlank(p);
      WeaveFront(parts, line, behind, 0, infix);
      if m == 0 {
        CleanJoin(x, infix, p.item.text);
      } else {
        CleanBreaks(x, m, p.item.text);
      }
      GapText(gap, p.pieces);
      var w := Weave(rest, p.item.last, p.item.behind, 0, infix);
      TextJoin(WithGap(gap, p.pieces), w);
      WeaveClean(x + (gap + p.item.text), rest, p.item.last, p.item.behind, infix);
      Assoc(x, gap + p.item.text, Text(w));
    }
  }

  /** The last piece is that of the last part. */
  lemma WholeLast(parts: seq<Part>, infix: string)
    requires parts != [] && forall p <- parts :: p.pieces != []
    ensures var ps := Whole(parts, infix);
            ps != [] && var last := ps[|ps| - 1];
            last.kind == LastPiece(parts[|parts| - 1]).kind && last.text == LastPiece(parts[|parts| - 1]).text
  {
    hide Breaks;
    assert forall p :: p in parts[1..] ==> p in parts;
    assert parts[0] in parts;
    WeaveLast(parts[1..], parts[0].item.last, parts[0].item.behind, 0, infix);
    if |parts| > 1 {
      assert parts[1..][|parts| - 2] == parts[|parts| - 1];
    }
  }

  lemma {:induction false} WeaveLast(parts: seq<Part>, line: int, behind: bool, n: nat, infix: string)
    requires forall p <- parts :: p.pieces != []
    ensures var ps := Weave(parts, line, behind, n, infix);
            if parts == [] then ps == []
            else ps != [] && var last := ps[|ps| - 1];
                 last.kind == LastPiece(parts[|parts| - 1]).kind && last.text == LastPiece(parts[|parts| - 1]).text
    decreases |parts|
  {
    hide BreakIf;
    if parts == [] {
    } else {
      assert parts[0] in parts && forall p :: p in parts[1..] ==> p in parts;
      WeaveFront(parts, line, behind, n, infix);
      WeaveLast(parts[1..], parts[0].item.last, parts[0].item.behind, 0, infix);
      if |parts| > 1 {
        assert parts[1..][|parts| - 2] == parts[|parts| - 1];
      }
    }
  }

  // ---- bodies ----------------------------------------------------------------------------------------

  function ExprParts(b: BodyExpr): seq<Part> {
    (if b.list.Some? then [PartOf(WithoutComments(b.list.value.0))] + [PartOf(WithoutComments(b.list.value.1))]
      else []) +
    ((if b.star.Some? then [PartOf(WithoutComments(b.star.value))] else []) + [PartOf(b.value)])
  }

  function ExprPart(b: BodyExpr): Part {
    var pieces := Whole(ExprParts(b), "");
    Part(Item(Text(pieces), FirstOf(b).head != [], b.value.leading != [], Pos(FirstOf(b)).line, End(b.value).line),
      pieces)
  }

  function BodyParts(lparen: TokenNode, b: BodyExpr, rparen: TokenNode): seq<Part> {
    [PartOf(lparen)] + ([ExprPart(b)] + [PartOf(rparen)])
  }

  function BodyPart(b: BodyStmt): Part {
    var pieces := if b.body.None? then [] else Whole(BodyParts(b.lparen, b.body.value, b.rparen), "");
    Part(Item(Text(pieces), b.lparen.head != [], b.rparen.leading != [], Pos(b.lparen).line, End(b.rparen).line),
      pieces)
  }

  predicate IsNameWord(t: string) {
    IsPlainWord(t) && !IsMark(t[0])
  }

  ghost predicate ExprShaped(b: BodyExpr) {
    && NodeShaped(b.value) && IsNameWord(b.value.token.text)
    && (b.list.Some? ==> b.list.value.0.token.text == "[" && b.list.value.1.token.text == "]")
    && (b.star.Some? ==> b.star.value.token.text == "*")
  }

  ghost predicate BodyShaped(b: BodyStmt) {
    && NodeShaped(b.lparen) && b.lparen.token.text == "(" && NodeShaped(b.rparen) && b.rparen.token.text == ")"
    && (b.body.Some? ==>
          && ExprShaped(b.body.value) && Adjacent(b.lparen, FirstOf(b.body.value))
          && Adjacent(b.body.value.value, b.rparen))
  }

  predicate BodyTidy(b: BodyStmt) {
    NodeTidy(b.lparen) && NodeTidy(b.rparen) && (b.body.Some? ==> NodeTidy(b.body.value.value))
  }

  /** A sign without its comments. */
  lemma SignPart(n: TokenNode)
    requires n.token.text in {"(", ")", "[", "]", "*"}
    ensures var p := PartOf(WithoutComments(n));
            && PartOk(p) && p.pieces == [Piece("", IDENT, n.token.text)] && Fits(LastPiece(p), "")
            && p.item.first == p.item.last
    ensures forall q: Part, infix: string :: (q.pieces != [] || infix == " ") ==>
            Meets(PartOf(WithoutComments(n)), q, infix)
  {
    var c := WithoutComments(n);
    assert Clean(n.token.text) && IsPlainWord(n.token.text);
    assert c.leading == [] && BehindPieces([]) == [] &&
           [Piece("", IDENT, n.token.text)] + [] == [Piece("", IDENT, n.token.text)];
    NodePartOk(c) by {
      assert NodeShaped(c) && NodeTidy(c);
    }
  }

  lemma ExprTogether(b: BodyExpr)
    requires ExprShaped(b) && NodeTidy(b.value)
    ensures Together(ExprParts(b), "") && forall p <- ExprParts(b) :: p.pieces != []
    ensures LastPiece(ExprParts(b)[|ExprParts(b)| - 1]) == LastPiece(PartOf(b.value))
  {
    hide NodeShaped, NodeTidy, PartOk, PartOf, Fits, Meets, ItemOf;
    NodePartOk(b.value);
    NodeLast(b.value);
    var v := PartOf(b.value);
    if b.list.Some? {
      SignPart(b.list.value.0);
      SignPart(b.list.value.1);
    }
    if b.star.Some? {
      SignPart(b.star.value);
    }
  }

  lemma NodeLast(n: TokenNode)
    requires NodeShaped(n)
    ensures PartOf(n).pieces != [] && Fits(LastPiece(PartOf(n)), "") && PartOf(n).item.first <= PartOf(n).item.last
  {
    hide Shaped, IsPlainWord, IsLineComment, IsDocument, Above, Behind;
    LastOfNode("", n.head, n.token.text, n.leading);
    if n.leading == [] {
      WordNotEmpty(n.token.text);
    } else {
      var c := n.leading[|n.leading| - 1];
      assert c in n.leading;
      ShapedKind(c);
    }
  }

  lemma WordNotEmpty(t: string)
    requires IsPlainWord(t)
    ensures t != ""
  {
  }

  lemma ShapedKind(c: Token)
    requires Shaped(c)
    ensures c.kind == COMMENT || c.kind == DOCUMENT
  {
  }

  /** Parts that are written together, as one part. */
  lemma WholePartOk(parts: seq<Part>, infix: string, p: Part)
    requires Together(parts, infix) && forall q <- parts :: q.pieces != []
    requires p.pieces == Whole(parts, infix) && p.item.text == Text(p.pieces)
    ensures PartOk(p) && p.pieces != [] && LeftOf(parts) == 0
    ensures var last := LastPiece(parts[|parts| - 1]); LastPiece(p).kind == last.kind && LastPiece(p).text == last.text
  {
    hide Clean, Readable, Chained, Whole, LeftOf, Fits, Text;
    WholeReadable(parts, infix);
    WholeClean(parts, infix);
    WholeLast(parts, infix);
    assert parts[0] in parts;
    FirstGapless(parts);
  }

  lemma ExprPartOk(b: BodyExpr)
    requires ExprShaped(b) && NodeTidy(b.value)
    ensures var p := ExprPart(b);
            && PartOk(p) && p.pieces != [] && LeftOf(ExprParts(b)) == 0
            && LastPiece(p).kind == LastPiece(PartOf(b.value)).kind &&
              LastPiece(p).text == LastPiece(PartOf(b.value)).text
  {
    hide NodeShaped, NodeTidy, PartOf, Together, Whole, LeftOf, PartOk, ExprParts, FirstOf;
    ExprTogether(b);
    WholePartOk(ExprParts(b), "", ExprPart(b));
  }

  lemma FirstGapless(parts: seq<Part>)
    requires parts != [] && PartOk(parts[0]) && parts[0].pieces != []
    ensures parts[0].pieces[0].gap == ""
  {
  }

  lemma ExprTextIs(b: BodyExpr, w: Writer)
    requires ExprShaped(b) && NodeTidy(b.value) && Pads(w.pad)
    ensures ExprItem(b, w) == ExprPart(b).item
  {
    hide NodeShaped, NodeTidy, Fits, Chained, Weave, Clean, Readable, Written, FirstOf, Pads, PartOk, LeftOf;
    ExprTogether(b);
    ExprPartOk(b);
    WholeWritten(ExprParts(b), "", w);
    assert EmptyLines(0) == "" && Text(Whole(ExprParts(b), "")) + "" == Text(Whole(ExprParts(b), ""));
    if b.list.None? && b.star.None? {
      AloneWritten(b.value, w);
    } else if b.list.Some? && b.star.Some? {
      var l, r, s := b.list.value.0, b.list.value.1, b.star.value;
      assert Items(ExprParts(b)) ==
             [ItemOf(WithoutComments(l)), ItemOf(WithoutComments(r)), ItemOf(WithoutComments(s))] + [ItemOf(b.value)];
    } else if b.list.Some? {
      assert Items(ExprParts(b)) ==
             [ItemOf(WithoutComments(b.list.value.0)), ItemOf(WithoutComments(b.list.value.1)), ItemOf(b.value)];
    } else {
      assert Items(ExprParts(b)) == [ItemOf(WithoutComments(b.star.value)), ItemOf(b.value)];
    }
  }

  lemma AloneWritten(n: TokenNode, w: Writer)
    requires NodeShaped(n) && NodeTidy(n) && Pads(w.pad)
    ensures Written([ItemOf(n)], " ", false, w) == TextOf(n) == Text(Whole([] + ([] + [PartOf(n)]), ""))
  {
    hide Clean, Shaped, Rowed, IsPlainWord, Pads, Readable;
    NodePartOk(n);
    assert [] + ([] + [PartOf(n)]) == [PartOf(n)] && PartOf(n).pieces + [] == PartOf(n).pieces;
    CleanIsText(TextOf(n));
    WrittenIs([ItemOf(n)], " ", false, w);
    assert TextList([ItemOf(n)], ItemOf(n).last, false, false) == [TextOf(n)] by {
      assert [] + ([TextOf(n)] + []) == [TextOf(n)];
    }
  }

  /** One node before the next, with nothing between them but maybe a line break. */
  lemma NodeMeets(a: TokenNode, p: Part, b: TokenNode, q: Part, infix: string)
    requires p.pieces != [] && q.pieces != [] && NodeShaped(a) && Adjacent(a, b)
    requires LastPiece(p).kind == LastPiece(PartOf(a)).kind && LastPiece(p).text == LastPiece(PartOf(a)).text
    requires p.item.behind == (a.leading != []) && p.item.last == End(a).line
    requires q.item.above == (b.head != []) && q.item.first == Pos(b).line
    requires b.head == [] ==> Fits(Piece("", IDENT, a.token.text), infix + q.item.text)
    ensures Meets(p, q, infix)
  {
    hide Shaped, IsPlainWord;
    LastOfNode("", a.head, a.token.text, a.leading);
    if a.leading != [] {
      var c := a.leading[|a.leading| - 1];
      assert c in a.leading;
      ShapedKind(c);
    }
  }

  lemma BodyTogether(b: BodyStmt)
    requires BodyShaped(b) && BodyTidy(b) && b.body.Some?
    ensures var parts := BodyParts(b.lparen, b.body.value, b.rparen);
            && Together(parts, "") && (forall p <- parts :: p.pieces != [])
            && parts[|parts| - 1] == PartOf(b.rparen)
  {
    hide NodeShaped, NodeTidy, PartOk, Fits, Meets, ItemOf, ExprShaped, Adjacent, ExprPart, PartOf;
    var e := b.body.value;
    NodePartOk(b.lparen);
    NodePartOk(b.rparen);
    NodeLast(b.lparen);
    NodeLast(b.rparen);
    ExprPartOk(e);
    ParenMeetsExpr(b);
    ExprMeetsParen(b);
    var parts := BodyParts(b.lparen, e, b.rparen);
    assert parts[0] == PartOf(b.lparen) && parts[1] == ExprPart(e) && parts[2] == PartOf(b.rparen) && |parts| == 3;
  }

  lemma ParenMeetsExpr(b: BodyStmt)
    requires BodyShaped(b) && BodyTidy(b) && b.body.Some?
    ensures PartOf(b.lparen).pieces != [] && Meets(PartOf(b.lparen), ExprPart(b.body.value), "")
  {
    hide NodeShaped, NodeTidy, PartOk, ExprShaped, Adjacent, Meets;
    var e := b.body.value;
    NodePartOk(b.lparen);
    ExprPartOk(e);
    NodeMeets(b.lparen, PartOf(b.lparen), FirstOf(e), ExprPart(e), "");
  }

  lemma ExprMeetsParen(b: BodyStmt)
    requires BodyShaped(b) && BodyTidy(b) && b.body.Some?
    ensures ExprPart(b.body.value).pieces != [] && Meets(ExprPart(b.body.value), PartOf(b.rparen), "")
  {
    hide NodeShaped, NodeTidy, PartOk, Adjacent, Meets, ExprParts;
    var e := b.body.value;
    NodePartOk(b.rparen);
    ExprPartOk(e);
    if b.rparen.head == [] {
      var t := "" + TextOf(b.rparen);
      assert t == ")" + Behind(b.rparen.leading) && t[0] == ')';
      WordNotEmpty(e.value.token.text);
      assert Fits(Piece("", IDENT, e.value.token.text), t);
    }
    NodeMeets(e.value, ExprPart(e), b.rparen, PartOf(b.rparen), "");
  }

  lemma BodyPartOk(b: BodyStmt)
    requires BodyShaped(b) && BodyTidy(b)
    ensures var p := BodyPart(b);
            && PartOk(p) && (p.pieces == [] <==> b.body.None?)
            && (b.body.Some? ==>
                  && LeftOf(BodyParts(b.lparen, b.body.value, b.rparen)) == 0
                  && LastPiece(p).kind == LastPiece(PartOf(b.rparen)).kind
                  && LastPiece(p).text == LastPiece(PartOf(b.rparen)).text)
  {
    if b.body.Some? {
      hide NodeShaped, NodeTidy, PartOf, Together, Whole, LeftOf, PartOk, ExprShaped, Adjacent, BodyParts;
      BodyTogether(b);
      WholePartOk(BodyParts(b.lparen, b.body.value, b.rparen), "", BodyPart(b));
    }
  }

  lemma BodyTextIs(b: BodyStmt, w: Writer)
    requires BodyShaped(b) && BodyTidy(b) && Pads(w.pad)
    ensures BodyItem(b, w) == BodyPart(b).item
  {
    if b.body.Some? {
      hide NodeShaped, NodeTidy, ExprShaped, Adjacent, Pads, Whole;
      FilledTextIs(b, w);
    }
  }

  lemma FilledTextIs(b: BodyStmt, w: Writer)
    requires BodyShaped(b) && BodyTidy(b) && Pads(w.pad) && b.body.Some?
    ensures BodyText(b, w) == Text(Whole(BodyParts(b.lparen, b.body.value, b.rparen), ""))
  {
    hide NodeShaped, NodeTidy, Fits, Chained, Weave, Clean, Readable, Written, Pads, PartOk, LeftOf, ExprPart,
      ExprShaped, Adjacent, Whole, Meets, ItemOf;
    var e := b.body.value;
    var parts := BodyParts(b.lparen, e, b.rparen);
    BodyTogether(b);
    BodyPartOk(b);
    BodyExprTextIs(b, w);
    WholeWritten(parts, "", w);
    assert EmptyLines(0) == "" && Text(Whole(parts, "")) + "" == Text(Whole(parts, ""));
    BodyItemsAre(b, w);
  }

  lemma BodyExprTextIs(b: BodyStmt, w: Writer)
    requires BodyShaped(b) && BodyTidy(b) && Pads(w.pad) && b.body.Some?
    ensures ExprItem(b.body.value, w) == ExprPart(b.body.value).item
  {
    hide NodeShaped, ExprShaped, Adjacent, Pads, ExprPart;
    ExprTextIs(b.body.value, w);
  }

  lemma BodyItemsAre(b: BodyStmt, w: Writer)
    requires b.body.Some? && ExprItem(b.body.value, w) == ExprPart(b.body.value).item
    ensures Items(BodyParts(b.lparen, b.body.value, b.rparen)) ==
            [ItemOf(b.lparen), ExprItem(b.body.value, w), ItemOf(b.rparen)]
  {
    hide ItemOf, ExprPart, ExprItem;
  }

  // ---- routes ----------------------------------------------------------------------------------------

  function PathPart(path: TokenNode): Part {
    Part(PathItem(path), [Piece("", IDENT, path.token.text)])
  }

  function RequestParts(b: Option<BodyStmt>): seq<Part> {
    if b.None? then [] else [BodyPart(b.value)]
  }

  /** The parts of a route that are printed, after its method. */
  function PartsBehind(r: Route): seq<Part> {
    match r.response
    case Some((word, response)) =>
      [PathPart(r.path)] + (RequestParts(r.request) +
                            if response.body.None? then [] else [PartOf(word)] + [BodyPart(LastBody(response))])
    case None =>
      if r.request.Some? then [PathPart(r.path)] + [BodyPart(LastBody(r.request.value))]
      else [PartOf(WithoutHead(r.path))]
  }

  function RouteParts(r: Route): seq<Part> {
    [PartOf(WithoutLeading(r.verb))] + PartsBehind(r)
  }

  /** What is printed of a route: its words and comments, and the white space before each of them. */
  function RoutePieces(r: Route): seq<Piece> {
    Whole(RouteParts(r), " ")
  }

  /** How many line breaks are printed behind the last word. */
  function RouteLeft(r: Route): nat {
    LeftOf(RouteParts(r))
  }

  /** Words and comments as the scanner and the parser deliver them. */
  ghost predicate RouteShaped(r: Route) {
    && NodeShaped(r.verb) && NodeShaped(r.path) && r.path.head == []
    && (r.request.Some? ==> BodyShaped(r.request.value))
    && (r.response.Some? ==>
          var (word, response) := r.response.value;
          && NodeShaped(word) && word.token.text == "returns" && BodyShaped(response) && Adjacent(word, response.lparen)
          && (r.request.Some? ==> Adjacent(r.request.value.rparen, word)))
  }

  predicate RouteTidy(r: Route) {
    && NodeTidy(r.verb) && NodeTidy(r.path)
    && (r.request.Some? ==> BodyTidy(r.request.value))
    && (r.response.Some? ==> NodeTidy(r.response.value.0) && BodyTidy(r.response.value.1))
  }

  lemma LastBodyShaped(b: BodyStmt)
    requires BodyShaped(b) && BodyTidy(b)
    ensures BodyShaped(LastBody(b)) && BodyTidy(LastBody(b))
  {
    hide Shaped, IsPlainWord, Clean, ExprShaped;
  }

  lemma WithoutShaped(n: TokenNode)
    requires NodeShaped(n) && NodeTidy(n)
    ensures NodeShaped(WithoutLeading(n)) && NodeTidy(WithoutLeading(n))
    ensures NodeShaped(WithoutHead(n)) && NodeTidy(WithoutHead(n))
  {
    hide Shaped, IsPlainWord, Clean;
  }

  /** A word without comments behind it, and nothing or a blank after it. */
  lemma WordMeets(p: Part, q: Part)
    requires p.pieces != [] && LastPiece(p).kind == IDENT && IsPlainWord(LastPiece(p).text)
    ensures Meets(p, q, " ") && Fits(LastPiece(p), "")
  {
    assert (" " + q.item.text)[0] == ' ';
  }

  lemma VerbPartOk(r: Route)
    requires RouteShaped(r) && RouteTidy(r)
    ensures var p := PartOf(WithoutLeading(r.verb));
            && PartOk(p) && p.pieces != [] && p.item.first <= p.item.last
            && LastPiece(p).kind == IDENT && IsPlainWord(LastPiece(p).text)
  {
    hide Shaped, IsPlainWord, Clean, PartOk, BodyShaped, BodyTidy;
    WithoutShaped(r.verb);
    NodePartOk(WithoutLeading(r.verb));
    LastOfNode("", r.verb.head, r.verb.token.text, []);
  }

  lemma PathPartOk(r: Route)
    requires RouteShaped(r) && RouteTidy(r)
    ensures var p := PathPart(r.path);
            PartOk(p) && p.pieces != [] && LastPiece(p).kind == IDENT && IsPlainWord(LastPiece(p).text)
  {
    hide Shaped, IsPlainWord, Clean, BodyShaped, BodyTidy;
    var t := r.path.token.text;
    NodeReadable("", [], t, []) by {
      assert All("", Space);
    }
    assert [Piece("", IDENT, t)] + [] == [Piece("", IDENT, t)] && NodeFrom("", [], t, []) == [Piece("", IDENT, t)];
    assert Text([Piece("", IDENT, t)]) == "" + (t + "") == t;
  }

  /** A body before the word of the response. */
  lemma BodyMeetsWord(b: BodyStmt, word: TokenNode)
    requires BodyShaped(b) && BodyTidy(b) && b.body.Some? && NodeShaped(word) &&
             NodeTidy(word) && Adjacent(b.rparen, word)
    ensures BodyPart(b).pieces != [] && Meets(BodyPart(b), PartOf(word), " ")
  {
    hide NodeShaped, NodeTidy, PartOk, Adjacent, Meets, ExprShaped, BodyParts;
    BodyPartOk(b);
    NodePartOk(word);
    assert (" " + TextOf(word))[0] == ' ';
    assert Fits(Piece("", IDENT, ")"), " " + TextOf(word));
    NodeMeets(b.rparen, BodyPart(b), word, PartOf(word), " ");
  }

  lemma WordMeetsBody(word: TokenNode, b: BodyStmt)
    requires BodyShaped(b) && BodyTidy(b) && b.body.Some? && NodeShaped(word) &&
             NodeTidy(word) && Adjacent(word, b.lparen)
    ensures PartOf(word).pieces != [] && Meets(PartOf(word), BodyPart(b), " ")
  {
    hide NodeShaped, NodeTidy, PartOk, Adjacent, Meets, ExprShaped, BodyParts;
    BodyPartOk(b);
    NodePartOk(word);
    NodeWordEnds(word, " " + BodyPart(b).item.text);
    NodeMeets(word, PartOf(word), b.lparen, BodyPart(b), " ");
  }

  lemma NodeWordEnds(n: TokenNode, after: string)
    requires NodeShaped(n) && after != "" && after[0] == ' '
    ensures Fits(Piece("", IDENT, n.token.text), after)
  {
    WordNotEmpty(n.token.text);
  }

  lemma BodyFits(b: BodyStmt)
    requires BodyShaped(b) && BodyTidy(b) && b.body.Some?
    ensures BodyPart(b).pieces != [] && Fits(LastPiece(BodyPart(b)), "")
  {
    hide NodeShaped, NodeTidy, PartOk, Adjacent, ExprShaped, BodyParts, PartOf;
    BodyPartOk(b);
    NodeLast(b.rparen);
  }

  /** One part more. */
  lemma TogetherMore(parts: seq<Part>, p: Part)
    requires Together(parts, " ") && PartOk(p) && (p.pieces != [] ==> Fits(LastPiece(p), ""))
    requires parts[|parts| - 1].pieces != [] ==> Meets(parts[|parts| - 1], p, " ")
    ensures Together(parts + [p], " ")
  {
    hide PartOk, Fits, Meets;
    var more := parts + [p];
    forall k | 0 < k < |more| && more[k - 1].pieces != []
      ensures Meets(more[k - 1], more[k], " ")
    {
      if k < |parts| {
        assert more[k - 1] == parts[k - 1] && more[k] == parts[k];
      } else {
        assert more[k - 1] == parts[|parts| - 1] && more[k] == p;
      }
    }
  }

  /** The method, and what comes behind it. */
  lemma VerbTogether(r: Route, p: Part)
    requires RouteShaped(r) && RouteTidy(r) && PartOk(p) && (p.pieces != [] ==> Fits(LastPiece(p), ""))
    ensures Together([PartOf(WithoutLeading(r.verb))] + [p], " ")
  {
    hide PartOk, NodeShaped, NodeTidy, BodyShaped, BodyTidy, PartOf, Fits, Meets, RouteShaped, RouteTidy;
    VerbPartOk(r);
    var v := PartOf(WithoutLeading(r.verb));
    WordMeets(v, p);
    TogetherMore([v], p);
  }

  /** A body behind the path. */
  lemma PathThenBody(r: Route, b: BodyStmt)
    requires RouteShaped(r) && RouteTidy(r) && BodyShaped(b) && BodyTidy(b)
    ensures Together([PartOf(WithoutLeading(r.verb))] + [PathPart(r.path)] + [BodyPart(b)], " ")
  {
    hide PartOk, NodeShaped, NodeTidy, BodyShaped, BodyTidy, PartOf, PathPart, BodyPart, Fits, Meets, RouteShaped,
      RouteTidy;
    PathPartOk(r);
    WordMeets(PathPart(r.path), BodyPart(b));
    VerbTogether(r, PathPart(r.path));
    BodyPartOk(b);
    if b.body.Some? {
      BodyFits(b);
    }
    TogetherMore([PartOf(WithoutLeading(r.verb))] + [PathPart(r.path)], BodyPart(b));
  }

  lemma RouteTogether(r: Route)
    requires RouteShaped(r) && RouteTidy(r)
    ensures Together(RouteParts(r), " ")
  {
    hide PartOk, NodeShaped, NodeTidy, BodyShaped, BodyTidy, PartOf, PathPart, BodyPart, Fits, Meets, Adjacent, ItemOf,
      Together;
    var v, p := PartOf(WithoutLeading(r.verb)), PathPart(r.path);
    if r.response.Some? {
      BodiesTogether(r);
    } else if r.request.Some? {
      LastBodyShaped(r.request.value);
      PathThenBody(r, LastBody(r.request.value));
      Assoc([v], [p], [BodyPart(LastBody(r.request.value))]);
    } else {
      WithoutShaped(r.path);
      NodePartOk(WithoutHead(r.path));
      NodeLast(WithoutHead(r.path));
      VerbTogether(r, PartOf(WithoutHead(r.path)));
    }
  }

  /** What is printed before a response. */
  function BeforeResponse(r: Route): seq<Part> {
    [PartOf(WithoutLeading(r.verb))] + ([PathPart(r.path)] + RequestParts(r.request))
  }

  lemma BeforeTogether(r: Route)
    requires RouteShaped(r) && RouteTidy(r) && r.response.Some?
    ensures Together(BeforeResponse(r), " ")
    ensures var parts, word := BeforeResponse(r), r.response.value.0;
            parts[|parts| - 1].pieces != [] ==> Meets(parts[|parts| - 1], PartOf(word), " ")
  {
    hide PartOk, NodeShaped, NodeTidy, BodyShaped, BodyTidy, PartOf, PathPart, BodyPart, Fits, Meets, Adjacent,
      Together;
    var v, p, word := PartOf(WithoutLeading(r.verb)), PathPart(r.path), r.response.value.0;
    PathPartOk(r);
    WordMeets(p, PartOf(word));
    if r.request.None? {
      VerbTogether(r, p);
      assert [p] + [] == [p];
    } else {
      var b := r.request.value;
      PathThenBody(r, b);
      Assoc([v], [p], [BodyPart(b)]);
      BodyPartOk(b);
      if b.body.Some? {
        BodyMeetsWord(b, word);
      }
    }
  }

  lemma BodiesTogether(r: Route)
    requires RouteShaped(r) && RouteTidy(r) && r.response.Some?
    ensures Together(RouteParts(r), " ")
  {
    hide PartOk, NodeShaped, NodeTidy, BodyShaped, BodyTidy, PartOf, PathPart, BodyPart, Fits, Meets, Adjacent,
      Together;
    BeforeTogether(r);
    var (word, response) := r.response.value;
    var v, p, q := PartOf(WithoutLeading(r.verb)), PathPart(r.path), RequestParts(r.request);
    if response.body.None? {
      assert q + [] == q;
    } else {
      var last := LastBody(response);
      LastBodyShaped(response);
      NodePartOk(word);
      NodeLast(word);
      WordMeetsBody(word, last);
      BodyPartOk(last);
      BodyFits(last);
      TogetherMore(BeforeResponse(r), PartOf(word));
      TogetherMore(BeforeResponse(r) + [PartOf(word)], BodyPart(last));
      var more := [PartOf(word)] + [BodyPart(last)];
      assert RouteParts(r) == [v] + ([p] + (q + more));
      Assoc([p], q, more);
      Assoc([v], [p] + q, more);
      Assoc(BeforeResponse(r), [PartOf(word)], [BodyPart(last)]);
    }
  }

  lemma ItemsAre(r: Route, w: Writer)
    requires RouteShaped(r) && RouteTidy(r) && Pads(w.pad)
    ensures RouteItems(r, w) == Items(RouteParts(r))
  {
    hide NodeShaped, NodeTidy, BodyShaped, BodyTidy, BodyItem, ItemOf, Adjacent, Pads, BodyPart;
    match r.response
    case Some((word, response)) =>
      if r.request.Some? {
        BodyTextIs(r.request.value, w);
      }
      if response.body.Some? {
        LastBodyShaped(response);
        BodyTextIs(LastBody(response), w);
      }
    case None =>
      if r.request.Some? {
        LastBodyShaped(r.request.value);
        BodyTextIs(LastBody(r.request.value), w);
      }
  }

  /** If no comment needs squeezing, the text of a route is that of its pieces. */
  lemma RouteTextIs(r: Route, w: Writer)
    requires RouteShaped(r) && RouteTidy(r) && Pads(w.pad)
    ensures RouteText(r, w) == Text(RoutePieces(r)) + EmptyLines(RouteLeft(r))
    ensures Readable(RoutePieces(r), EmptyLines(RouteLeft(r)))
  {
    hide RouteShaped, RouteTidy, Pads, Together, RouteParts, Whole, LeftOf, Written, Readable, RouteItems;
    RouteTogether(r);
    ItemsAre(r, w);
    WholeWritten(RouteParts(r), " ", w);
    WholeReadable(RouteParts(r), " ");
  }

  /**
   Routes without comments that need squeezing have one text exactly if the same is printed of them: the same words,
   the same comments, and the same line breaks.
   */
  lemma RouteTextExact(r: Route, q: Route, w: Writer)
    requires RouteShaped(r) && RouteTidy(r) && RouteShaped(q) && RouteTidy(q) && Pads(w.pad)
    ensures RouteText(r, w) == RouteText(q, w) <==> RoutePieces(r) == RoutePieces(q) && RouteLeft(r) == RouteLeft(q)
  {
    hide RouteShaped, RouteTidy, Pads, RoutePieces, RouteLeft, RouteText, Readable, EmptyLines;
    RouteTextIs(r, w);
    RouteTextIs(q, w);
    OneMore(RouteLeft(r));
    OneMore(RouteLeft(q));
    if RouteText(r, w) == RouteText(q, w) {
      ReadOnce(RoutePieces(r), EmptyLines(RouteLeft(r)), RoutePieces(q), EmptyLines(RouteLeft(q)));
      EmptyLinesTell(RouteLeft(r), RouteLeft(q));
    }
  }

  lemma {:induction false} EmptyLinesTell(n: nat, m: nat)
    requires EmptyLines(n) == EmptyLines(m)
    ensures n == m
  {
    if n == 0 || m == 0 {
    } else {
      assert EmptyLines(n)[1..] == EmptyLines(n - 1) && EmptyLines(m)[1..] == EmptyLines(m - 1);
      EmptyLinesTell(n - 1, m - 1);
    }
  }
}
