/**
 Text laid out lexeme by lexeme, with white space where it is needed, is scanned back as those lexemes, each on the
 line the layout put it.
 */
module Layout {
  import opened Tokens
  import opened Lexis
  import opened Grammar
  import opened Source

  /** A lexeme and the white space before it. */
  datatype Piece = Piece(gap: string, kind: Kind, text: string)

  function Text(pieces: seq<Piece>): string {
    if pieces == [] then "" else pieces[0].gap + (pieces[0].text + Text(pieces[1..]))
  }

  /** Every gap is white space, and no lexeme is extended by what follows it. */
  ghost predicate Separated(pieces: seq<Piece>, tail: string) {
    pieces == [] ||
    (var after := Text(pieces[1..]) + tail;
     && All(pieces[0].gap, Space)
     && IsLexeme(pieces[0].kind, pieces[0].text, CharAt(after, 0), CharAt(after, 1))
     && Separated(pieces[1..], tail))
  }

  /** What the parser sees of a token. */
  datatype Sym = Sym(kind: Kind, text: string, line: int)

  function Syms(tokens: seq<Token>): (s: seq<Sym>)
    ensures |s| == |tokens|
  {
    if tokens == [] then []
    else [Sym(tokens[0].kind, tokens[0].text, tokens[0].position.line)] + Syms(tokens[1..])
  }

  function NewlineCount(gap: string): nat {
    if gap == "" then 0 else NewlineCount(gap[..|gap| - 1]) + if gap[|gap| - 1] == '\n' then 1 else 0
  }

  /** The lexemes of the pieces, on their lines, when the first gap starts on `line`. */
  function Placed(pieces: seq<Piece>, line: int): (s: seq<Sym>)
    ensures |s| == |pieces|
  {
    if pieces == [] then []
    else
      var here := line + NewlineCount(pieces[0].gap);
      [Sym(pieces[0].kind, pieces[0].text, here)] + Placed(pieces[1..], here)
  }

  lemma {:induction false} CountNewlines(data: string, i: nat, gap: string)
    requires Stands(data, i, gap, i + |gap|)
    ensures |Newlines(data, i, i + |gap|)| == NewlineCount(gap)
    decreases |gap|
  {
    if gap == "" {
    } else {
      var n := |gap| - 1;
      assert gap == gap[..n] + [gap[n]];
      StandsConcat(data, i, gap[..n], [gap[n]], i + |gap|);
      CountNewlines(data, i, gap[..n]);
      StandsChar(data, i, gap, i + |gap|, n);
    }
  }

  /** Source text from `i` on, when it is `s` followed by `t`. */
  lemma Ahead(data: string, i: nat, s: string, t: string)
    requires i <= |data| && data[i..] == s + t
    ensures i + |s| <= |data| && Stands(data, i, s, i + |s|) && data[i + |s|..] == t
  {
    var m := i + |s|;
    assert |data[i..]| == |s| + |t|;
    assert data[i..m] == data[i..][..|s|] == s;
    assert data[m..] == data[i..][|s|..] == t;
  }

  lemma AheadChar(data: string, i: nat, t: string, k: nat)
    requires i <= |data| && data[i..] == t
    ensures CharAt(data, i + k) == CharAt(t, k)
  {
    if k < |t| {
      assert data[i..][k] == t[k];
    }
  }

  /** A gap at the cursor is skipped, and its newlines counted. */
  lemma GapSkipped(data: string, c: Cursor, gap: string)
    requires |c.lines| > 0 && Stands(data, c.pos, gap, c.pos + |gap|) && All(gap, Space)
    requires !IsSpace(CharAt(data, c.pos + |gap|))
    ensures TokenStart(data, c) == c.pos + |gap|
    ensures |NextCursor(data, c).lines| == |c.lines| + NewlineCount(gap)
  {
    var w := c.pos + |gap|;
    StandsAll(data, c.pos, gap, w, 0, |gap|, Space);
    RunEndIs(data, c.pos, w, Space);
    CountNewlines(data, c.pos, gap);
  }

  /** A lexeme of the grammar begins with no white space, and only kinds the scanner produces have lexemes. */
  lemma LexemeStart(data: string, i: nat, kind: Kind, t: string, e: nat)
    requires Matches(data, i, kind, t, e)
    ensures Produced(kind) && !IsSpace(CharAt(data, i)) && i < e
  {
    hide IsLexeme;
    LexemeHead(data, i, kind, t, e);
  }

  /** A lexeme at the cursor is read, if what follows does not extend it. */
  lemma LexemeRead(data: string, i: nat, kind: Kind, t: string, after: string)
    requires i <= |data| && data[i..] == t + after && IsLexeme(kind, t, CharAt(after, 0), CharAt(after, 1))
    ensures Produced(kind) && !IsSpace(CharAt(data, i)) && t != ""
    ensures i + |t| <= |data| && data[i + |t|..] == after
    ensures Lex(data, i) == Lexeme(kind, t, i, i + |t|)
  {
    var e := i + |t|;
    Ahead(data, i, t, after);
    AheadChar(data, e, after, 0);
    AheadChar(data, e, after, 1);
    LexemeStart(data, i, kind, t, e);
    ScannerReadsGrammar(data, i, kind, t, e);
  }

  /** One piece at the cursor is read as its lexeme. */
  lemma PieceRead(file: string, data: string, c: Cursor, p: Piece, after: string)
    requires |c.lines| > 0 && c.pos <= |data| && data[c.pos..] == p.gap + (p.text + after)
    requires All(p.gap, Space) && IsLexeme(p.kind, p.text, CharAt(after, 0), CharAt(after, 1))
    ensures var next := NextCursor(data, c);
            && !Stops(data, c)
            && next.pos <= |data| && data[next.pos..] == after
            && |next.lines| == |c.lines| + NewlineCount(p.gap)
            && var t := NextToken(file, data, c);
               t.kind == p.kind && t.text == p.text && t.position.line == |next.lines|
  {
    hide IsLexeme, Lex, RunEnd, Newlines, NewlineCount, IsSpace;
    var w := c.pos + |p.gap|;
    Ahead(data, c.pos, p.gap, p.text + after);
    LexemeRead(data, w, p.kind, p.text, after);
    GapSkipped(data, c, p.gap);
  }

  /** From `c` on the scanner reads the pieces, lexeme by lexeme and line by line, and is then at `tail`. */
  predicate ReadBack(file: string, data: string, c: Cursor, pieces: seq<Piece>, tail: string)
    requires |c.lines| > 0
  {
    var d := After(data, c, |pieces|);
    && d.pos <= |data| && data[d.pos..] == tail
    && Syms(Tokenize(file, data, c)) == Placed(pieces, |c.lines|) + Syms(Tokenize(file, data, d))
  }

  lemma ReadBackCons(file: string, data: string, c: Cursor, p: Piece, rest: seq<Piece>, tail: string)
    requires |c.lines| > 0 && !Stops(data, c)
    requires var next, t := NextCursor(data, c), NextToken(file, data, c);
             && |next.lines| == |c.lines| + NewlineCount(p.gap)
             && Sym(t.kind, t.text, t.position.line) == Sym(p.kind, p.text, |next.lines|)
             && ReadBack(file, data, next, rest, tail)
    ensures ReadBack(file, data, c, [p] + rest, tail)
  {
    hide Lex, NextLexeme, NextCursor, NextToken, TokenStart, Stops, Tokenize;
    var next, pieces := NextCursor(data, c), [p] + rest;
    assert pieces[1..] == rest;
    TokenizeStep(file, data, c);
    SymsCons(NextToken(file, data, c), Tokenize(file, data, next));
    assert After(data, c, |pieces|) == After(data, next, |rest|);
  }

  lemma SymsCons(t: Token, rest: seq<Token>)
    ensures Syms([t] + rest) == [Sym(t.kind, t.text, t.position.line)] + Syms(rest)
  {
    assert ([t] + rest)[1..] == rest;
  }

  /** Laid-out text is scanned back, lexeme by lexeme and line by line, up to the text that follows it. */
  lemma {:induction false} LayoutReadBack(file: string, data: string, c: Cursor, pieces: seq<Piece>, tail: string)
    requires |c.lines| > 0 && c.pos <= |data| && data[c.pos..] == Text(pieces) + tail
    requires Separated(pieces, tail)
    ensures ReadBack(file, data, c, pieces, tail)
    decreases |pieces|
  {
    hide IsLexeme, Lex, NextLexeme, NextCursor, NextToken, TokenStart, Stops, Tokenize;
    if pieces == [] {
      assert Text(pieces) + tail == tail;
    } else {
      var p, rest := pieces[0], pieces[1..];
      assert Text(pieces) + tail == p.gap + (p.text + (Text(rest) + tail));
      PieceRead(file, data, c, p, Text(rest) + tail);
      LayoutReadBack(file, data, NextCursor(data, c), rest, tail);
      ReadBackCons(file, data, c, p, rest, tail);
      assert [p] + rest == pieces;
    }
  }
}
