/**
 Data types as text: whatever white space a printer puts between the tokens of a type, as long as it breaks lines
 where the type does and keeps words apart, scanning and parsing the text gives the type back.
 */
module TextTrip {
  import opened Tokens
  import opened Lexis
  import opened Grammar
  import opened Source
  import opened Layout
  import opened DataTypes
  import opened ParseSpec
  import opened Formatting
  import opened RoundTrip
  import opened Stream

  // ---- tokens and marks --------------------------------------------------------------------------

  /** `MarksAt`, which needs only kinds, texts and lines. */
  function SymMarks(syms: seq<Sym>, line: int, noted: bool := false): seq<Mark> {
    if syms == [] then []
    else
      var t := syms[0];
      if t.kind == COMMENT || t.kind == DOCUMENT then SymMarks(syms[1..], line, noted || t.line == line)
      else [MarkFromSym(t, line, noted)] + if Final(t.kind) then [] else SymMarks(syms[1..], t.line)
  }

  function MarkFromSym(t: Sym, line: int, noted: bool): Mark {
    Mark(t.kind, t.text, t.kind != RAW_STRING && t.line > line, noted)
  }

  lemma {:induction false} MarksAreSymMarks(tokens: seq<Token>, line: int, noted: bool := false)
    ensures MarksAt(tokens, line, noted) == SymMarks(Syms(tokens), line, noted)
  {
    if tokens == [] {
    } else {
      var t := tokens[0];
      assert Syms(tokens)[1..] == Syms(tokens[1..]);
      if IsComment(t) {
        MarksAreSymMarks(tokens[1..], line, noted || t.position.line == line);
      } else {
        MarksAreSymMarks(tokens[1..], t.position.line);
      }
    }
  }

  // ---- spacing -----------------------------------------------------------------------------------

  /** The kinds of tokens that printed types consist of. */
  predicate Printable(kind: Kind) {
    kind in {IDENT, ANY, INT, RAW_STRING, LBRACK, RBRACK, LBRACE, RBRACE, MUL, COMMA, ELLIPSIS}
  }

  predicate Wordy(kind: Kind) {
    kind == IDENT || kind == ANY || kind == INT
  }

  /** Two tokens that would run into each other without white space. */
  predicate Clash(a: Mark, b: Mark) {
    || ((a.kind == IDENT || a.kind == INT) && Wordy(b.kind))
    || (a.kind == IDENT && a.text == "interface" && b.kind == LBRACE)
  }

  /**
   `pieces` write the marks `ms`: white space, with newlines just where a line begins and maybe before a raw string, and
   none missing.
   */
  predicate Writes(pieces: seq<Piece>, ms: seq<Mark>) {
    && |pieces| == |ms|
    && (forall k :: 0 <= k < |ms| ==>
          pieces[k].kind == ms[k].kind && pieces[k].text == ms[k].text && All(pieces[k].gap, Space))
    && (forall k :: 1 <= k < |ms| ==> BreaksAs(pieces[k].gap, ms[k]))
    && (forall k :: 1 <= k < |ms| && Clash(ms[k - 1], ms[k]) ==> pieces[k].gap != "")
  }

  /** Does the gap break the line if the mark behind it begins one? */
  predicate BreaksAs(gap: string, m: Mark) {
    m.kind == RAW_STRING || (NewlineCount(gap) > 0 <==> m.later)
  }

  /** A mark as a printed type has it. */
  predicate Plain(m: Mark) {
    Printable(m.kind) && Legal(m) && !m.noted && (m.kind == RAW_STRING ==> !m.later)
  }

  predicate AllPrintable(ms: seq<Mark>) {
    forall k :: 0 <= k < |ms| ==> Plain(ms[k])
  }

  /** May `next`, `next2` follow the last mark? */
  predicate TailFits(m: Mark, next: char, next2: char) {
    (m.kind == IDENT ==> !Ident.Has(next) && next != ':' && !(m.text == "interface" && next == '{' && next2 == '}')) &&
    (m.kind == INT ==> !IsDigit(next) && !StartsUnit(next))
  }

  lemma MarkIsLexeme(m: Mark, next: char, next2: char)
    requires Printable(m.kind) && Legal(m) && TailFits(m, next, next2)
    ensures IsLexeme(m.kind, m.text, next, next2)
  {
  }

  /** The first characters of printable tokens. */
  lemma MarkStart(m: Mark)
    requires Printable(m.kind) && Legal(m)
    ensures m.text != "" && m.text[0] != ':'
    ensures !Wordy(m.kind) ==> !Ident.Has(m.text[0]) && !StartsUnit(m.text[0])
    ensures m.text[0] == '{' ==> m.kind == LBRACE
  {
    if m.kind == INT {
      assert Digit.Has(m.text[0]);
    }
  }

  /** What follows a mark that is not the last fits. */
  lemma NextFits(a: Mark, b: Mark, gap: string, rest: string)
    requires Printable(b.kind) && Legal(b) && All(gap, Space) && (Clash(a, b) ==> gap != "")
    ensures var after := gap + (b.text + rest); TailFits(a, CharAt(after, 0), CharAt(after, 1))
  {
    hide Legal;
    var after := gap + (b.text + rest);
    MarkStart(b);
    if gap != "" {
      assert after[0] == gap[0] && Space.Has(gap[0]);
    } else {
      assert after == b.text + rest && after[0] == b.text[0];
    }
  }

  /** May the text `tail` follow the marks `ms`? */
  predicate TextFits(ms: seq<Mark>, tail: string) {
    ms != [] ==> TailFits(ms[|ms| - 1], CharAt(tail, 0), CharAt(tail, 1))
  }

  lemma WritesRest(pieces: seq<Piece>, ms: seq<Mark>)
    requires Writes(pieces, ms) && ms != []
    ensures Writes(pieces[1..], ms[1..])
    ensures |ms| > 1 ==>
              BreaksAs(pieces[1].gap, ms[1]) && (Clash(ms[0], ms[1]) ==> pieces[1].gap != "") &&
              All(pieces[1].gap, Space) && pieces[1].text == ms[1].text
  {
    hide BreaksAs, Clash, All;
    var p, m := pieces[1..], ms[1..];
    forall k | 1 <= k < |m|
      ensures BreaksAs(p[k].gap, m[k])
      ensures Clash(m[k - 1], m[k]) ==> p[k].gap != ""
    {
      assert p[k] == pieces[k + 1] && m[k] == ms[k + 1] && m[k - 1] == ms[k];
    }
  }

  /** Pieces that write printable marks do not run into each other, nor into a tail that fits. */
  lemma {:induction false} WritesSeparated(pieces: seq<Piece>, ms: seq<Mark>, tail: string)
    requires Writes(pieces, ms) && AllPrintable(ms) && TextFits(ms, tail)
    ensures Separated(pieces, tail)
    decreases |ms|
  {
    hide BreaksAs, Clash, All, IsLexeme, TailFits, Legal, Printable;
    if ms == [] {
    } else {
      var m, rest := ms[0], pieces[1..];
      var after := Text(rest) + tail;
      WritesRest(pieces, ms);
      WritesSeparated(rest, ms[1..], tail);
      if rest == [] {
        assert after == tail;
      } else {
        assert after == rest[0].gap + (rest[0].text + (Text(rest[1..]) + tail));
        NextFits(m, ms[1], rest[0].gap, Text(rest[1..]) + tail);
      }
      MarkIsLexeme(m, CharAt(after, 0), CharAt(after, 1));
    }
  }

  /** The line on which the last of the pieces stands. */
  function EndLine(pieces: seq<Piece>, line: int): int {
    if pieces == [] then line else EndLine(pieces[1..], line + NewlineCount(pieces[0].gap))
  }

  lemma SymMarksCons(s: Sym, rest: seq<Sym>, from: int)
    requires Printable(s.kind)
    ensures SymMarks([s] + rest, from) == [MarkFromSym(s, from, false)] + SymMarks(rest, s.line)
  {
    assert ([s] + rest)[1..] == rest;
  }

  /** Pieces that write `ms` give the parser the marks `ms`, and leave it on the line of the last piece. */
  lemma {:induction false} PlacedMarks(pieces: seq<Piece>, ms: seq<Mark>, line: int, from: int, rest: seq<Sym>)
    requires Writes(pieces, ms) && AllPrintable(ms) && ms != []
    requires ms[0].kind == RAW_STRING || ms[0].later == (line + NewlineCount(pieces[0].gap) > from)
    ensures SymMarks(Placed(pieces, line) + rest, from) == ms + SymMarks(rest, EndLine(pieces, line))
    decreases |ms|
  {
    hide NewlineCount, Clash, All, Legal, SymMarks, Printable;
    var here := line + NewlineCount(pieces[0].gap);
    var s := Sym(pieces[0].kind, pieces[0].text, here);
    var more := Placed(pieces[1..], here);
    Assoc([s], more, rest);
    SymMarksCons(s, more + rest, from);
    WritesRest(pieces, ms);
    assert [ms[0]] + ms[1..] == ms;
    if |ms| == 1 {
      assert more + rest == rest;
      assert ms + SymMarks(rest, here) == [ms[0]] + SymMarks(rest, here);
    } else {
      PlacedMarks(pieces[1..], ms[1..], here, here, rest);
      Assoc([ms[0]], ms[1..], SymMarks(rest, EndLine(pieces, line)));
    }
  }
}
