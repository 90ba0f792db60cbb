/** What the parser sees of the tokens ahead, and where tokens stand relative to the scanner's cursor. */
module Stream {
  import opened Tokens
  import opened Lexis
  import opened Grammar
  import opened Source
  import opened DataTypes
  import opened ParseSpec
  import opened Comments

  /** The tokens no parse goes past. */
  predicate Final(kind: Kind) {
    kind == EOF || kind == ERROR || kind == ILLEGAL
  }

  /** A token as the parser sees it from a token on `line`. */
  function MarkFrom(t: Token, line: int, noted: bool): Mark {
    Mark(t.kind, t.text, t.kind != RAW_STRING && t.position.line > line, noted)
  }

  /**
   The tokens ahead without the comments, as the parser sees them from a token on `line`, up to the first that no parse
   goes past; `noted` if a comment on that line has been read already.
   */
  function MarksAt(tokens: seq<Token>, line: int, noted: bool := false): seq<Mark> {
    if tokens == [] then []
    else
      var t := tokens[0];
      if IsComment(t) then MarksAt(tokens[1..], line, noted || t.position.line == line)
      else [MarkFrom(t, line, noted)] + if Final(t.kind) then [] else MarksAt(tokens[1..], t.position.line)
  }

  /** The comments among the tokens. After an error nothing is read. */
  function CommentsIn(tokens: seq<Token>): seq<Token> {
    if tokens == [] || tokens[0].kind == ERROR then []
    else (if IsComment(tokens[0]) then [tokens[0]] else []) + CommentsIn(tokens[1..])
  }

  lemma CommentCounts(t: Token, rest: seq<Token>)
    ensures CommentsIn([t] + rest) ==
            if t.kind == ERROR then [] else if IsComment(t) then [t] + CommentsIn(rest) else CommentsIn(rest)
  {
    assert ([t] + rest)[1..] == rest;
  }

  /** The comments from a call on are those of its token and of the calls after it. */
  lemma CommentsStep(file: string, data: string, c: Cursor)
    requires |c.lines| > 0
    ensures CommentsIn(Tokenize(file, data, c)) ==
            CommentsIn([NextToken(file, data, c)] + Tokenize(file, data, NextCursor(data, c)))
  {
    hide Lex, NextLexeme, TokenStart, NextToken, Stops, CommentsIn;
    var t, next := NextToken(file, data, c), NextCursor(data, c);
    if Stops(data, c) {
      OnlyIllegalStops(file, data, c);
      CommentCounts(t, []);
      CommentCounts(t, Tokenize(file, data, next));
      NoComments();
      assert [t] + [] == [t];
      if t.kind != ERROR {
        StopsAgain(file, data, c);
      }
    } else {
      TokenizeStep(file, data, c);
    }
  }

  lemma NoComments()
    ensures CommentsIn([]) == []
  {
  }

  /** A scanner that has stopped without an error delivers the one token over and over. */
  lemma StopsAgain(file: string, data: string, c: Cursor)
    requires |c.lines| > 0 && Stops(data, c) && NextToken(file, data, c).kind != ERROR
    ensures var next := NextCursor(data, c);
            && Stops(data, next) && NextToken(file, data, next) == NextToken(file, data, c)
            && Tokenize(file, data, next) == [NextToken(file, data, c)]
  {
    hide Lex;
    StopsForGood(file, data, c);
  }

  /** The marks from a call on are those of its token and of the calls after it. */
  lemma MarksStep(file: string, data: string, c: Cursor, from: int, noted: bool)
    requires |c.lines| > 0
    ensures MarksAt(Tokenize(file, data, c), from, noted) ==
            MarksAt([NextToken(file, data, c)] + Tokenize(file, data, NextCursor(data, c)), from, noted)
  {
    hide Lex, NextLexeme, TokenStart, NextCursor, NextToken, Stops;
    OnlyIllegalStops(file, data, c);
    if !Stops(data, c) {
      TokenizeStep(file, data, c);
    }
  }

  /** A comment is no mark. */
  lemma CommentIsNoMark(t: Token, rest: seq<Token>, from: int, noted: bool)
    requires IsComment(t)
    ensures MarksAt([t] + rest, from, noted) == MarksAt(rest, from, noted || t.position.line == from)
  {
    assert ([t] + rest)[1..] == rest;
  }

  /** The mark of a token that is no comment, and the marks after it. */
  lemma MarkOf(t: Token, rest: seq<Token>, from: int, noted: bool := false)
    requires !IsComment(t)
    ensures var ms := MarksAt([t] + rest, from, noted);
            && ms != [] && ms[0] == MarkFrom(t, from, noted) && Peek(ms) == t.kind && PeekText(ms) == t.text
            && (!Final(t.kind) ==> ms[1..] == MarksAt(rest, t.position.line))
  {
    assert ([t] + rest)[1..] == rest;
  }

  // ---- which comments belong to which token ----------------------------------------------------------

  /**
   The nodes of the tokens ahead: a comment on the line of the last token is behind it, any other is above the next one.
   `cur` is the token before, if it may still get comments, and `head` are the comments that wait.
   */
  function Nodes(tokens: seq<Token>, head: seq<Token>, cur: Option<TokenNode>): seq<TokenNode> {
    if tokens == [] then Done(cur)
    else
      var t := tokens[0];
      if IsComment(t) then
        if SameLine(t, cur) then Nodes(tokens[1..], head, Some(With(cur.value, t)))
        else Nodes(tokens[1..], head + [t], cur)
      else Done(cur) + if Final(t.kind) then [] else Nodes(tokens[1..], [], Some(TokenNode(head, t, [])))
  }

  function Done(cur: Option<TokenNode>): seq<TokenNode> {
    if cur.None? then [] else [cur.value]
  }

  predicate SameLine(t: Token, cur: Option<TokenNode>) {
    cur.Some? && t.position.line == cur.value.token.position.line
  }

  function WithLeading(cur: Option<TokenNode>, leading: seq<Token>): Option<TokenNode> {
    if cur.None? then None else Some(cur.value.(leading := leading))
  }

  function With(n: TokenNode, comment: Token): TokenNode {
    n.(leading := n.leading + [comment])
  }

  /** The node of a token that is no comment, and those after it. */
  lemma NodeOf(t: Token, rest: seq<Token>, head: seq<Token>, cur: Option<TokenNode>)
    requires !IsComment(t)
    ensures Nodes([t] + rest, head, cur) ==
            Done(cur) + if Final(t.kind) then [] else Nodes(rest, [], Some(TokenNode(head, t, [])))
  {
    assert ([t] + rest)[1..] == rest;
  }

  lemma NodesDone(t: Token, rest: seq<Token>, head: seq<Token>, cur: Option<TokenNode>)
    requires !IsComment(t)
    ensures Nodes([t] + rest, head, cur) == Done(cur) + Nodes([t] + rest, head, None)
  {
    hide Nodes;
    NodeOf(t, rest, head, cur);
    NodeOf(t, rest, head, None);
  }

  /**
   Tokens `a` and tokens `b` look alike from a token on line `from`: the same marks, and the same nodes, when comments
   have been read in between.
   */
  ghost predicate LookAlike(
    from: int, a: seq<Token>, head: seq<Token>, cur: Option<TokenNode>, b: seq<Token>, head': seq<Token>,
    cur': Option<TokenNode>)
  {
    && MarksAt(a, from, Noted(cur)) == MarksAt(b, from, Noted(cur'))
    && Nodes(a, head, cur) == Nodes(b, head', cur')
  }

  predicate Noted(cur: Option<TokenNode>) {
    cur.Some? && cur.value.leading != []
  }

  /** The tokens from a call on look like its token and those of the calls after it. */
  lemma LookStep(file: string, data: string, c: Cursor, from: int, head: seq<Token>, cur: Option<TokenNode>)
    requires |c.lines| > 0
    ensures LookAlike(
              from, Tokenize(file, data, c), head, cur,
              [NextToken(file, data, c)] + Tokenize(file, data, NextCursor(data, c)), head, cur)
  {
    hide Lex, NextLexeme, TokenStart, NextToken, Stops, MarksAt, Nodes;
    MarksStep(file, data, c, from, Noted(cur));
    OnlyIllegalStops(file, data, c);
    var t, rest := NextToken(file, data, c), Tokenize(file, data, NextCursor(data, c));
    if Stops(data, c) {
      NodeOf(t, rest, head, cur);
      NodeOf(t, [], head, cur);
      assert [t] + [] == [t];
    } else {
      TokenizeStep(file, data, c);
    }
  }

  /** A comment that is read belongs to the token before it, or waits. */
  lemma LookBehind(t: Token, rest: seq<Token>, from: int, head: seq<Token>, n: TokenNode)
    requires IsComment(t) && t.position.line == from == n.token.position.line
    ensures LookAlike(from, [t] + rest, head, Some(n), rest, head, Some(With(n, t)))
  {
    CommentIsNoMark(t, rest, from, n.leading != []);
    assert ([t] + rest)[1..] == rest;
  }

  lemma LookAbove(t: Token, rest: seq<Token>, from: int, head: seq<Token>, cur: Option<TokenNode>)
    requires IsComment(t) && t.position.line != from && (cur.Some? ==> cur.value.token.position.line == from)
    ensures LookAlike(from, [t] + rest, head, cur, rest, head + [t], cur)
  {
    CommentIsNoMark(t, rest, from, Noted(cur));
    assert ([t] + rest)[1..] == rest;
  }

  lemma LookTrans(
      from: int, a: seq<Token>, h: seq<Token>, x: Option<TokenNode>, b: seq<Token>, i: seq<Token>, y: Option<TokenNode>,
      c: seq<Token>, j: seq<Token>, z: Option<TokenNode>)
    requires LookAlike(from, a, h, x, b, i, y) && LookAlike(from, b, i, y, c, j, z)
    ensures LookAlike(from, a, h, x, c, j, z)
  {
    hide MarksAt, Nodes;
  }

  // ---- order in the file -------------------------------------------------------------------------

  /** `t` stands before the cursor. */
  predicate Behind(file: string, t: Token, c: Cursor)
    requires |c.lines| > 0
  {
    Before(t.position, PositionAt(file, c.lines, c.pos)) && 1 <= t.position.line
  }

  /** Cursor `d` is not before cursor `c`. */
  predicate Onward(file: string, c: Cursor, d: Cursor)
    requires |c.lines| > 0 && |d.lines| > 0
  {
    !Before(PositionAt(file, d.lines, d.pos), PositionAt(file, c.lines, c.pos))
  }

  lemma OnwardKeeps(file: string, c: Cursor, d: Cursor, t: Token)
    requires |c.lines| > 0 && |d.lines| > 0 && Onward(file, c, d)
    ensures Behind(file, t, c) ==> Behind(file, t, d)
    ensures NotBefore(file, t, d) ==> NotBefore(file, t, c)
    ensures |c.lines| <= |d.lines|
  {
  }

  lemma OnwardTrans(file: string, c: Cursor, d: Cursor, e: Cursor)
    requires |c.lines| > 0 && |d.lines| > 0 && |e.lines| > 0 && Onward(file, c, d) && Onward(file, d, e)
    ensures Onward(file, c, e)
  {
  }

  lemma BehindBefore(file: string, c: Cursor, t: Token, u: Token)
    requires |c.lines| > 0 && Behind(file, t, c) && NotBefore(file, u, c) && HasPosition(u)
    ensures Before(t.position, u.position) && t != u
  {
  }

  lemma BehindLine(file: string, c: Cursor, t: Token)
    requires |c.lines| > 0 && Behind(file, t, c)
    ensures 1 <= t.position.line <= |c.lines|
  {
  }

  /** Has the scanner stopped at `c` without an error, to deliver `t` for ever? It is the end, or a lone `@`. */
  predicate Stuck(file: string, data: string, t: Token, c: Cursor)
    requires |c.lines| > 0
  {
    Stops(data, c) && t == NextToken(file, data, c) && t.kind != ERROR
  }

  /** A scanner that has stopped delivers no comment. */
  lemma NoCommentAtStop(file: string, data: string, c: Cursor)
    requires |c.lines| > 0 && Stops(data, c)
    ensures !IsComment(NextToken(file, data, c))
  {
    hide Lex;
    OnlyIllegalStops(file, data, c);
  }

  lemma StuckIsLoneAt(file: string, data: string, t: Token, c: Cursor)
    requires |c.lines| > 0 && Stuck(file, data, t, c)
    ensures var w := TokenStart(data, c);
            if t.kind == EOF then CharAt(data, w) == '\0'
            else t.kind == ILLEGAL && t.text == "@" && CharAt(data, w) == '@' && CharAt(data, w + 1) == '\0'
    ensures !Behind(file, t, c)
  {
    hide Lex, RunEnd;
    Extent(data, TokenStart(data, c));
  }

  /** A comment above a lone `@`: the parser takes the `@` with the comment, and then once more without it. */
  lemma LoneAtAfterComment()
    ensures var data := "//c\n@";
            var comment, at := Token(COMMENT, "//c", Position("", 1, 1)), Token(ILLEGAL, "@", Position("", 2, 1));
            && Tokenize("", data, START) == [comment, at]
            && Stuck("", data, at, After(data, START, 2))
  {
    var data, c, d := "//c\n@", Cursor(3, [-1]), Cursor(4, [-1, 3]);
    CommentThenAt(data, c, d);
    hide NextToken, NextCursor, Stops;
    TokenizeStep("", data, START);
    assert Tokenize("", data, c) == [NextToken("", data, c)];
    assert After(data, START, 2) == After(data, c, 1) == After(data, d, 0);
  }

  lemma CommentThenAt(data: string, c: Cursor, d: Cursor)
    requires data == "//c\n@" && c == Cursor(3, [-1]) && d == Cursor(4, [-1, 3])
    ensures !Stops(data, START) && Stops(data, c) && Stops(data, d)
    ensures NextCursor(data, START) == c && NextCursor(data, c) == d
    ensures NextToken("", data, START) == Token(COMMENT, "//c", Position("", 1, 1))
    ensures NextToken("", data, c) == NextToken("", data, d) == Token(ILLEGAL, "@", Position("", 2, 1))
  {
    CommentAndAt(data);
    hide Lex, RunEnd;
    assert Newlines(data, 0, 0) == [] && Newlines(data, 3, 3) == [] &&
           Newlines(data, 3, 4) == [3] && Newlines(data, 4, 4) == [];
  }

  lemma CommentAndAt(data: string)
    requires data == "//c\n@"
    ensures RunEnd(data, 0, Space) == 0 && Lex(data, 0) == Lexeme(COMMENT, "//c", 0, 3)
    ensures RunEnd(data, 3, Space) == 4 == RunEnd(data, 4, Space) && Lex(data, 4) == Lexeme(ILLEGAL, "@", 4, 4)
  {
    hide LexNumber, LexIdent, LexDocument, LexString;
    assert data[0..3] == "//c";
    RunEndIs(data, 0, 3, Until('\n'));
    RunEndIs(data, 3, 4, Space);
  }

  /** Token `t` was scanned after cursor `c`, and is the last one before cursor `d`, or the one that it is stuck on. */
  ghost predicate Scanned(file: string, data: string, c: Cursor, t: Token, d: Cursor)
    requires |c.lines| > 0 && |d.lines| > 0
  {
    && t.kind != NONE
    && (Final(t.kind) ==> |t.text| <= 1)
    && NotBefore(file, t, c)
    && Onward(file, c, d)
    && (HasPosition(t) ==> 1 <= t.position.line == |d.lines|)
    && (if HasPosition(t) then Behind(file, t, d) || Stuck(file, data, t, d)
        else t.kind == ERROR || Stuck(file, data, t, d))
    && (forall u :: Stuck(file, data, u, c) ==> u == t && Stuck(file, data, u, d))
  }

  lemma ScannedTrans(file: string, data: string, c: Cursor, t: Token, d: Cursor, u: Token, e: Cursor)
    requires |c.lines| > 0 && |d.lines| > 0 && |e.lines| > 0
    requires Scanned(file, data, c, t, d) && Scanned(file, data, d, u, e)
    ensures Scanned(file, data, c, u, e) && |c.lines| <= |d.lines| <= |e.lines|
  {
    hide NotBefore, Behind, Onward, Stuck;
    OnwardKeeps(file, c, d, u);
    OnwardKeeps(file, d, e, u);
    OnwardTrans(file, c, d, e);
  }

  lemma ScannedFacts(file: string, data: string, c: Cursor, t: Token, d: Cursor)
    requires |c.lines| > 0 && |d.lines| > 0 && Scanned(file, data, c, t, d)
    ensures t.kind != NONE && (Final(t.kind) ==> |t.text| <= 1) &&
            (HasPosition(t) ==> 1 <= t.position.line <= |d.lines|)
    ensures Behind(file, t, d) || t.kind == ERROR || Stuck(file, data, t, d)
    ensures t.kind == EOF ==> Stuck(file, data, t, d)
  {
  }

  lemma ScannedLine(file: string, data: string, c: Cursor, t: Token, d: Cursor)
    requires |c.lines| > 0 && |d.lines| > 0 && Scanned(file, data, c, t, d)
    ensures |c.lines| <= |d.lines| && (IsComment(t) ==> 1 <= t.position.line == |d.lines|)
  {
  }

  /** What is behind the scanner stays so, and is not read again; what it is stuck on is read again. */
  lemma ScannedKeeps(file: string, data: string, c: Cursor, t: Token, d: Cursor, u: Token)
    requires |c.lines| > 0 && |d.lines| > 0 && Scanned(file, data, c, t, d) && HasPosition(u)
    ensures Behind(file, u, c) ==> Behind(file, u, d) && u != t
    ensures Stuck(file, data, u, c) ==> u == t && Stuck(file, data, u, d) && Stops(data, c)
  {
    hide Behind, Onward, NotBefore, Stops, NextToken;
    OnwardKeeps(file, c, d, u);
    if HasPosition(t) && Behind(file, u, c) {
      BehindBefore(file, c, u, t);
    }
  }

  /** At the end of the input nothing is left to read. */
  lemma NothingAhead(file: string, data: string, t: Token, c: Cursor)
    requires |c.lines| > 0 && t.kind == EOF && Stuck(file, data, t, c)
    ensures CommentsIn([t] + Tokenize(file, data, c)) == []
  {
    hide Lex;
    StopsAgain(file, data, c);
    NoComments();
    CommentCounts(t, Tokenize(file, data, c));
    CommentCounts(t, []);
  }

  /** One call of the scanner, seen from the parser: unless it stops, it moves the cursor. */
  ghost predicate Called(file: string, data: string, c: Cursor, t: Token, d: Cursor)
    requires |c.lines| > 0 && |d.lines| > 0
  {
    Scanned(file, data, c, t, d) && (!Final(t.kind) ==> c.pos < d.pos && c.pos < |data|)
  }

  lemma CallIsCalled(file: string, data: string, c: Cursor)
    requires CursorOk(c)
    ensures CursorOk(NextCursor(data, c))
    ensures Called(file, data, c, NextToken(file, data, c), NextCursor(data, c))
  {
    hide Lex, NextLexeme, TokenStart, NextCursor, NextToken, Stops;
    var t := NextToken(file, data, c);
    CallFacts(file, data, c);
    OnlyIllegalStops(file, data, c);
    if Stops(data, c) && t.kind != ERROR {
      StopsAgain(file, data, c);
    }
  }
}
