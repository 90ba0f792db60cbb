/**
 Whole files: the tokens a scanner delivers call by call, that they lose nothing of the source, where they stand,
 and that text laid out lexeme by lexeme is read back as those lexemes.
 */
module Source {
  import opened Tokens
  import opened Lexis
  import opened Grammar

  // ---- one step ----------------------------------------------------------------------------------

  /** `l` was read whole: it starts at `i`, and its text is what it covers. */
  predicate Whole(l: Lexeme, data: string, i: nat) {
    l.kind != ILLEGAL && l.at == i < l.end <= |data| && l.text == data[i..l.end]
  }

  /** An offset that was read as an illegal character; it may be the end of the source. */
  predicate Broken(l: Lexeme, data: string, i: nat) {
    i <= l.at <= |data| && l == Illegal(data, l.at)
  }

  /** A dot whose predecessor was dropped: two dots that no third one follows. */
  predicate DroppedDot(l: Lexeme, data: string, i: nat) {
    && l == Lexeme(DOT, ".", i + 1, i + 2)
    && CharAt(data, i) == '.' && CharAt(data, i + 1) == '.' && CharAt(data, i + 2) != '.'
  }

  /** A lone `@` at the end of the source, which the cursor does not leave. */
  predicate LoneAt(l: Lexeme, data: string, i: nat) {
    l == Lexeme(ILLEGAL, "@", i, i) && CharAt(data, i) == '@' && CharAt(data, i + 1) == '\0'
  }

  lemma {:induction false} DurationExtent(data: string, i: nat, j: nat, bound: nat)
    requires i < j <= |data|
    ensures var l := LexDuration(data, i, j, bound); Whole(l, data, i) || Broken(l, data, i)
    decreases |data| - j
  {
    hide RunEnd, IsDigit, LexAfterUnit;
    var c, next := CharAt(data, j), CharAt(data, j + 1);
    if c == 'h' && HOUR < bound {
      AfterUnitExtent(data, i, j + 1, HOUR);
    } else if c == 'm' && MINUTE < bound && next != 's' {
      AfterUnitExtent(data, i, j + 1, MINUTE);
    } else if c == 's' && SECOND < bound {
      AfterUnitExtent(data, i, j + 1, SECOND);
    } else if c == 'm' && MILLISECOND < bound && next == 's' {
      AfterUnitExtent(data, i, j + 2, MILLISECOND);
    } else if c == '\U{B5}' && MICROSECOND < bound && next == 's' {
      AfterUnitExtent(data, i, j + 2, MICROSECOND);
    }
  }

  lemma {:induction false} AfterUnitExtent(data: string, i: nat, e: nat, rank: nat)
    requires i < e <= |data|
    ensures var l := LexAfterUnit(data, i, e, rank); Whole(l, data, i) || Broken(l, data, i)
    decreases |data| - e
  {
    if IsDigit(CharAt(data, e)) {
      DurationExtent(data, i, RunEnd(data, e, Digit), rank);
    }
  }

  /** Outcomes of one call before the end of the input. */
  predicate Outcome(l: Lexeme, data: string, i: nat) {
    l.kind != EOF && l.kind != NONE &&
    (Whole(l, data, i) || Broken(l, data, i) || DroppedDot(l, data, i) || LoneAt(l, data, i) ||
     (l.kind == ERROR && i <= l.end))
  }

  lemma NumberExtent(data: string, i: nat)
    requires IsDigit(CharAt(data, i))
    ensures Outcome(LexNumber(data, i), data, i)
  {
    assert Digit.Has(data[i]);
    if StartsUnit(CharAt(data, RunEnd(data, i, Digit))) {
      DurationExtent(data, i, RunEnd(data, i, Digit), ABOVE_HOUR);
    }
  }

  lemma IdentExtent(data: string, i: nat)
    requires IsIdentLetter(CharAt(data, i))
    ensures Outcome(LexIdent(data, i), data, i)
  {
    assert Ident.Has(data[i]);
  }

  lemma AtExtent(data: string, i: nat)
    requires CharAt(data, i) == '@'
    ensures Outcome(LexAt(data, i), data, i)
  {
    var l := LexAt(data, i);
    if l.kind != ILLEGAL && l.kind != ERROR {
      assert data[i..l.end] == [data[i]] + data[i + 1..l.end];
    }
  }

  lemma SignExtent(data: string, i: nat)
    requires CharAt(data, i) != '\0' && (IsSign(Lex(data, i).kind) || Lex(data, i).kind == ILLEGAL)
    requires CharAt(data, i) != '@' && !IsDigit(CharAt(data, i))
    ensures Outcome(Lex(data, i), data, i)
  {
    hide LexAt, LexNumber;
    assert data[i..i + 1] == [data[i]];
    if Lex(data, i).kind == ELLIPSIS {
      assert data[i..i + 3] == "...";
    }
  }

  lemma CommentExtent(data: string, i: nat)
    requires CharAt(data, i) == '/'
    ensures CharAt(data, i + 1) == '/' ==> Outcome(LexLineComment(data, i), data, i)
    ensures CharAt(data, i + 1) == '*' ==> Outcome(LexDocument(data, i), data, i)
  {
    assert Until('\n').Has(data[i]);
  }

  /**
   The things one call may do before the end of the input: read a lexeme whole, report an illegal character,
   drop a dot, stay on a lone `@`, or fail.
   */
  lemma Extent(data: string, i: nat)
    ensures if CharAt(data, i) == '\0' then Lex(data, i) == Lexeme(EOF, "", 0, i) else Outcome(Lex(data, i), data, i)
  {
    hide LexIdent, LexNumber, LexLineComment, LexDocument, LexAt;
    var c := CharAt(data, i);
    if c == '\0' {
    } else if IsDigit(c) {
      NumberExtent(data, i);
    } else if IsIdentLetter(c) {
      IdentExtent(data, i);
    } else if c == '@' {
      AtExtent(data, i);
    } else if c == '/' && (CharAt(data, i + 1) == '/' || CharAt(data, i + 1) == '*') {
      CommentExtent(data, i);
    } else if c != '"' && c != '`' {
      SignExtent(data, i);
    }
  }

  // ---- all calls ---------------------------------------------------------------------------------

  /** Does the scanner stop here, so that every later call repeats this one (or is never made, after an error)? */
  predicate Stops(data: string, c: Cursor) {
    var l := NextLexeme(data, c);
    l.kind == EOF || l.kind == ERROR || l.end <= TokenStart(data, c)
  }

  /** A call that does not stop the scanner moves the cursor, and starts before the end of the source. */
  lemma Progress(data: string, c: Cursor)
    requires !Stops(data, c)
    ensures c.pos <= TokenStart(data, c) < |data| &&
            TokenStart(data, c) <= NextLexeme(data, c).at < NextCursor(data, c).pos
  {
    Extent(data, TokenStart(data, c));
  }

  /** Only the end of input, an error and an illegal character can stop the scanner. */
  lemma OnlyIllegalStops(file: string, data: string, c: Cursor)
    requires |c.lines| > 0
    ensures var t := NextToken(file, data, c);
            && (Stops(data, c) ==> t.kind in {EOF, ERROR, ILLEGAL})
            && (t.kind in {EOF, ERROR} ==> Stops(data, c))
            && (t.kind in {EOF, ERROR, ILLEGAL} ==> |t.text| <= 1)
            && t.kind != NONE
            && (HasPosition(t) ==> t.position.line == |NextCursor(data, c).lines|)
  {
    Extent(data, TokenStart(data, c));
  }

  /** What one call does to the cursor and to positions, put together. */
  lemma CallFacts(file: string, data: string, c: Cursor)
    requires CursorOk(c)
    ensures var t, next := NextToken(file, data, c), NextCursor(data, c);
            && CursorOk(next)
            && NotBefore(file, t, c)
            && !Before(PositionAt(file, next.lines, next.pos), PositionAt(file, c.lines, c.pos))
            && (!Stops(data, c) ==> Before(t.position, PositionAt(file, next.lines, next.pos)))
            && (!Stops(data, c) ==> c.pos < next.pos && c.pos < |data|)
  {
    FirstPosition(file, data, c);
    if !Stops(data, c) {
      Progress(data, c);
    }
  }

  /** The tokens of the calls made from `c` on, up to the last one that differs from its successors. */
  function Tokenize(file: string, data: string, c: Cursor): (tokens: seq<Token>)
    requires |c.lines| > 0
    ensures tokens != [] && tokens[0] == NextToken(file, data, c)
    decreases |data| - c.pos
  {
    var t := NextToken(file, data, c);
    if Stops(data, c) then [t] else
      Progress(data, c);
      [t] + Tokenize(file, data, NextCursor(data, c))
  }

  /** The cursor after `n` calls. */
  function After(data: string, c: Cursor, n: nat): (d: Cursor)
    requires |c.lines| > 0
    ensures |d.lines| > 0
    decreases n
  {
    if n == 0 then c else After(data, NextCursor(data, c), n - 1)
  }

  /** A scanner that stops without an error repeats its last call. */
  lemma StopsForGood(file: string, data: string, c: Cursor)
    requires |c.lines| > 0 && Stops(data, c) && NextLexeme(data, c).kind != ERROR
    ensures var next := NextCursor(data, c);
            && Stops(data, next) && NextLexeme(data, next) == NextLexeme(data, c)
            && NextToken(file, data, next) == NextToken(file, data, c)
  {
    var w, next := TokenStart(data, c), NextCursor(data, c);
    Extent(data, w);
    assert next.pos == w && TokenStart(data, next) == w && Newlines(data, w, w) == [];
  }

  /** The token of call `n` when the calls deliver `tokens`: the last one over and over. */
  function Delivered(tokens: seq<Token>, n: nat): Token
    requires tokens != []
  {
    if n < |tokens| then tokens[n] else tokens[|tokens| - 1]
  }

  /** However many calls are made, the scanner delivers exactly `Tokenize`; after an error none is made. */
  lemma {:induction false} CallsDeliverTokens(file: string, data: string, c: Cursor, n: nat)
    requires |c.lines| > 0
    requires var tokens := Tokenize(file, data, c); n < |tokens| || tokens[|tokens| - 1].kind != ERROR
    ensures NextToken(file, data, After(data, c, n)) == Delivered(Tokenize(file, data, c), n)
    decreases n
  {
    hide Lex, TokenStart;
    if n == 0 {
    } else {
      if Stops(data, c) {
        StopsForGood(file, data, c);
      } else {
        Progress(data, c);
      }
      CallsDeliverTokens(file, data, NextCursor(data, c), n - 1);
    }
  }

  // ---- positions ---------------------------------------------------------------------------------

  predicate HasPosition(t: Token) {
    t.kind != EOF && t.kind != ERROR
  }

  /** Is `t` positioned at or after the offset where cursor `c` is? */
  predicate NotBefore(file: string, t: Token, c: Cursor)
    requires |c.lines| > 0
  {
    HasPosition(t) ==> t.position.file == file && !Before(t.position, PositionAt(file, c.lines, c.pos))
  }

  lemma FirstPosition(file: string, data: string, c: Cursor)
    requires CursorOk(c)
    ensures CursorOk(NextCursor(data, c))
    ensures NotBefore(file, NextToken(file, data, c), c)
    ensures !Stops(data, c) ==>
              var next := NextCursor(data, c);
              Before(NextToken(file, data, c).position, PositionAt(file, next.lines, next.pos))
    ensures var next := NextCursor(data, c);
            !Before(PositionAt(file, next.lines, next.pos), PositionAt(file, c.lines, c.pos))
  {
    hide Lex;
    Extent(data, TokenStart(data, c));
  }

  predicate NoneBefore(file: string, tokens: seq<Token>, c: Cursor)
    requires |c.lines| > 0
  {
    forall a :: 0 <= a < |tokens| ==> NotBefore(file, tokens[a], c)
  }

  /** Positions strictly increase, line before column, over the tokens that have one. */
  predicate Increasing(tokens: seq<Token>) {
    forall a, b :: 0 <= a < b < |tokens| && HasPosition(tokens[b]) ==> Before(tokens[a].position, tokens[b].position)
  }

  lemma IncreasingCons(file: string, t: Token, rest: seq<Token>, c: Cursor)
    requires |c.lines| > 0 && NoneBefore(file, rest, c) && Increasing(rest)
    requires Before(t.position, PositionAt(file, c.lines, c.pos))
    ensures Increasing([t] + rest)
  {
    forall b | 1 <= b < |[t] + rest| && HasPosition(([t] + rest)[b])
      ensures Before(t.position, ([t] + rest)[b].position)
    {
      assert NotBefore(file, rest[b - 1], c);
    }
  }

  /** In every file, positions strictly increase over all tokens but the end of input and errors. */
  lemma {:induction false} PositionsIncrease(file: string, data: string, c: Cursor)
    requires CursorOk(c)
    ensures NoneBefore(file, Tokenize(file, data, c), c) && Increasing(Tokenize(file, data, c))
    decreases |data| - c.pos
  {
    hide Lex, NextLexeme, TokenStart, NextCursor, NextToken, Stops, NotBefore;
    FirstPosition(file, data, c);
    if Stops(data, c) {
    } else {
      Progress(data, c);
      var next := NextCursor(data, c);
      PositionsIncrease(file, data, next);
      IncreasingCons(file, NextToken(file, data, c), Tokenize(file, data, next), next);
      NotBeforeMore(file, Tokenize(file, data, next), next, c);
    }
  }

  lemma NotBeforeMore(file: string, tokens: seq<Token>, later: Cursor, c: Cursor)
    requires |c.lines| > 0 && |later.lines| > 0 && NoneBefore(file, tokens, later)
    requires !Before(PositionAt(file, later.lines, later.pos), PositionAt(file, c.lines, c.pos))
    ensures NoneBefore(file, tokens, c)
  {
  }

  // ---- lines -------------------------------------------------------------------------------------

  lemma {:induction false} NewlinesJoin(data: string, a: nat, b: nat, e: nat)
    requires a <= b <= e
    ensures Newlines(data, a, e) == Newlines(data, a, b) + Newlines(data, b, e)
    decreases e - b
  {
    if b == e {
    } else {
      NewlinesJoin(data, a, b, e - 1);
    }
  }

  /** No token read by the first `n` calls spans a newline. */
  predicate NoneSpans(data: string, c: Cursor, n: nat)
    decreases n
  {
    n == 0 ||
    (var w := TokenStart(data, c);
     w <= Lex(data, w).end && Newlines(data, w, Lex(data, w).end) == [] && NoneSpans(data, NextCursor(data, c), n - 1))
  }

  /** The newlines up to `e` are those of the white space, those of the token and those behind it. */
  lemma NewlinesSplit(data: string, a: nat, w: nat, b: nat, e: nat)
    requires a <= w <= b <= e
    ensures Newlines(data, a, e) == (Newlines(data, a, w) + Newlines(data, w, b)) + Newlines(data, b, e)
  {
    hide Newlines;
    NewlinesJoin(data, a, w, b);
    NewlinesJoin(data, a, b, e);
  }

  /** Never are more newlines counted than were passed, and exactly those as long as no token spans one. */
  lemma {:induction false} LinesCounted(data: string, c: Cursor, n: nat)
    requires |c.lines| > 0
    ensures c.pos <= After(data, c, n).pos
    ensures var d := After(data, c, n);
            if NoneSpans(data, c, n) then d.lines == c.lines + Newlines(data, c.pos, d.pos)
            else |d.lines| < |c.lines| + |Newlines(data, c.pos, d.pos)|
    decreases n
  {
    hide Lex, Newlines, After, NoneSpans, NextCursor, TokenStart, RunEnd;
    LinesStep(data, c, n);
    if n == 0 {
    } else {
      LinesCounted(data, NextCursor(data, c), n - 1);
      NewlinesSplit(data, c.pos, TokenStart(data, c), NextCursor(data, c).pos, After(data, c, n).pos);
    }
  }

  /** One call, and the calls after it. */
  lemma LinesStep(data: string, c: Cursor, n: nat)
    requires |c.lines| > 0
    ensures n == 0 ==> After(data, c, n) == c && NoneSpans(data, c, n) && Newlines(data, c.pos, c.pos) == []
    ensures var w, next := TokenStart(data, c), NextCursor(data, c);
            && c.pos <= w <= next.pos && next.lines == c.lines + Newlines(data, c.pos, w)
            && (n > 0 ==> After(data, c, n) == After(data, next, n - 1))
            && (n > 0 ==>
                  (NoneSpans(data, c, n) <==> Newlines(data, w, next.pos) == [] && NoneSpans(data, next, n - 1)))
  {
    hide Lex;
    Extent(data, TokenStart(data, c));
  }

  /** The newline table lists exactly the newlines passed if and only if no token spans one. */
  lemma LinesAreNewlines(data: string, c: Cursor, n: nat)
    requires |c.lines| > 0
    ensures c.pos <= After(data, c, n).pos
    ensures After(data, c, n).lines == c.lines + Newlines(data, c.pos, After(data, c, n).pos) <==> NoneSpans(data, c, n)
  {
    hide After, NoneSpans, Newlines;
    LinesCounted(data, c, n);
  }

  /** A raw string over two lines, and a name behind it: the name is on the second line, but reported on the first. */
  lemma SpanningStringMiscounts()
    ensures var data := "`\n`a";
            && NextToken("", data, After(data, START, 1)) == Token(IDENT, "a", Position("", 1, 4))
            && Newlines(data, 0, 3) == [1]
  {
    var data := "`\n`a";
    hide Lex;
    TwoLexemes(data);
    assert Newlines(data, 0, 0) == [] && Newlines(data, 3, 3) == [];
    assert NextCursor(data, START) == Cursor(3, [-1]);
    assert After(data, START, 1) == After(data, Cursor(3, [-1]), 0);
    assert Newlines(data, 0, 1) == [] && Newlines(data, 0, 2) == [1];
  }

  lemma TwoLexemes(data: string)
    requires data == "`\n`a"
    ensures RunEnd(data, 0, Space) == 0 && Lex(data, 0) == Lexeme(RAW_STRING, "`\n`", 0, 3)
    ensures RunEnd(data, 3, Space) == 3 && Lex(data, 3) == Lexeme(IDENT, "a", 3, 4)
  {
    hide LexNumber, LexLineComment, LexDocument, LexAt;
    assert data[0..3] == "`\n`" && data[3..4] == "a";
    RunEndIs(data, 1, 2, Until('`'));
    RunEndIs(data, 3, 4, Ident);
  }

  // ---- nothing is lost ---------------------------------------------------------------------------

  /** From `c` on the scanner meets no illegal character, no error and no dropped dot. */
  predicate Clean(data: string, c: Cursor)
    decreases |data| - c.pos
  {
    var l := NextLexeme(data, c);
    l.kind == EOF ||
    (l.kind != ILLEGAL && l.kind != ERROR && l.at == TokenStart(data, c) &&
     (Extent(data, TokenStart(data, c));
      Clean(data, NextCursor(data, c))))
  }

  /** The texts of `tokens`, each after its gap. */
  function Woven(gaps: seq<string>, tokens: seq<Token>): string
    requires |gaps| == |tokens|
  {
    if gaps == [] then "" else gaps[0] + tokens[0].text + Woven(gaps[1..], tokens[1..])
  }

  lemma TokenizeStep(file: string, data: string, c: Cursor)
    requires |c.lines| > 0 && !Stops(data, c)
    ensures Tokenize(file, data, c) == [NextToken(file, data, c)] + Tokenize(file, data, NextCursor(data, c))
  {
  }

  lemma WovenCons(gap: string, gaps: seq<string>, t: Token, tokens: seq<Token>)
    requires |gaps| == |tokens|
    ensures Woven([gap] + gaps, [t] + tokens) == gap + t.text + Woven(gaps, tokens)
  {
    assert ([gap] + gaps)[1..] == gaps && ([t] + tokens)[1..] == tokens;
  }

  /** A clean call reads white space and then a token whose text is what was read. */
  lemma CleanStep(file: string, data: string, c: Cursor)
    requires |c.lines| > 0 && c.pos <= |data| && Clean(data, c)
    ensures var w := TokenStart(data, c);
            && w <= |data| && All(data[c.pos..w], Space)
            && if NextLexeme(data, c).kind == EOF then Stops(data, c) && CharAt(data, w) == '\0'
               else var next := NextCursor(data, c);
                    && !Stops(data, c) && Clean(data, next) && w <= next.pos <= |data|
                    && data[c.pos..w] + NextToken(file, data, c).text == data[c.pos..next.pos]
  {
    var w := TokenStart(data, c);
    RunIsAll(data, c.pos, Space);
    Extent(data, w);
    if NextLexeme(data, c).kind != EOF {
      assert data[c.pos..w] + data[w..NextCursor(data, c).pos] == data[c.pos..NextCursor(data, c).pos];
    }
  }

  /** The gaps and the tokens spell the source from `i` on, up to its end or a NUL. */
  predicate Spell(gaps: seq<string>, tokens: seq<Token>, data: string, i: nat) {
    && |gaps| == |tokens|
    && (forall g :: g in gaps ==> All(g, Space))
    && var stop := i + |Woven(gaps, tokens)|;
       stop <= |data| && Woven(gaps, tokens) == data[i..stop] && CharAt(data, stop) == '\0'
  }

  lemma SpellCons(gap: string, gaps: seq<string>, t: Token, tokens: seq<Token>, data: string, i: nat, next: nat)
    requires i <= next <= |data| && All(gap, Space) && gap + t.text == data[i..next]
    requires Spell(gaps, tokens, data, next)
    ensures Spell([gap] + gaps, [t] + tokens, data, i)
  {
    WovenCons(gap, gaps, t, tokens);
    var stop := next + |Woven(gaps, tokens)|;
    assert data[i..next] + data[next..stop] == data[i..stop];
  }

  /**
   Scanning loses nothing: the tokens' texts, with white space between them, rebuild the source up to its end
   or its first NUL outside a token.
   */
  lemma {:induction false} NothingLost(file: string, data: string, c: Cursor) returns (gaps: seq<string>)
    requires |c.lines| > 0 && c.pos <= |data| && Clean(data, c)
    ensures Spell(gaps, Tokenize(file, data, c), data, c.pos)
    decreases |data| - c.pos
  {
    hide Lex, IsSpace, Clean;
    var t, gap := NextToken(file, data, c), data[c.pos..TokenStart(data, c)];
    CleanStep(file, data, c);
    if NextLexeme(data, c).kind == EOF {
      gaps := [gap];
      WovenCons(gap, [], t, []);
      assert [gap] + [] == [gap] && Tokenize(file, data, c) == [t] + [];
    } else {
      var next := NextCursor(data, c);
      Progress(data, c);
      var rest := NothingLost(file, data, next);
      SpellCons(gap, rest, t, Tokenize(file, data, next), data, c.pos, next.pos);
      TokenizeStep(file, data, c);
      gaps := [gap] + rest;
    }
  }
}
