/** What holds of the nodes of every source text: which tokens they are, and what their comments are like. */
module NodeFacts {
  import opened Tokens
  import opened Lexis
  import opened Grammar
  import opened Source
  import opened DataTypes
  import opened Comments
  import opened Declared
  import opened ParseSpec
  import opened Stream
  import opened RouteTrip
  import TypeText

  // ---- nodes and marks -------------------------------------------------------------------------------

  /** Are the nodes `ns`, but for the first `d`, the tokens that the marks `ms` are seen of, up to one at the end? */
  predicate NodesOfMarks(ns: seq<TokenNode>, d: nat, ms: seq<Mark>) {
    && d <= |ns| && |ns| - d <= |ms| <= |ns| - d + 1
    && (forall k :: 0 <= k < |ns| - d ==>
          ns[d + k].token.kind == ms[k].kind && ns[d + k].token.text == ms[k].text && !Final(ms[k].kind))
    && (|ms| > |ns| - d ==> Final(ms[|ms| - 1].kind))
  }

  /** The nodes are the tokens that the parser sees. */
  lemma {:induction false} NodesAndMarks(
      tokens: seq<Token>, line: int, noted: bool, head: seq<Token>, cur: Option<TokenNode>)
    ensures NodesOfMarks(Nodes(tokens, head, cur), |Done(cur)|, MarksAt(tokens, line, noted))
    decreases |tokens|
  {
    if tokens == [] {
    } else {
      var t, rest := tokens[0], tokens[1..];
      if IsComment(t) {
        if SameLine(t, cur) {
          NodesAndMarks(rest, line, noted || t.position.line == line, head, Some(With(cur.value, t)));
        } else {
          NodesAndMarks(rest, line, noted || t.position.line == line, head + [t], cur);
        }
      } else if !Final(t.kind) {
        var n := TokenNode(head, t, []);
        NodesAndMarks(rest, t.position.line, false, [], Some(n));
        NodeFirst(rest, [], n);
        OneMark(Done(cur), Nodes(rest, [], Some(n)), MarkFrom(t, line, noted), MarksAt(rest, t.position.line));
      }
    }
  }

  lemma OneMark(done: seq<TokenNode>, ns: seq<TokenNode>, m: Mark, ms: seq<Mark>)
    requires NodesOfMarks(ns, 1, ms) && ns[0].token.kind == m.kind && ns[0].token.text == m.text && !Final(m.kind)
    ensures NodesOfMarks(done + ns, |done|, [m] + ms)
  {
    var d, all, marks := |done|, done + ns, [m] + ms;
    forall k | 0 <= k < |all| - d
      ensures all[d + k].token.kind == marks[k].kind && all[d + k].token.text == marks[k].text && !Final(marks[k].kind)
    {
      assert all[d + k] == ns[k];
      if k > 0 {
        assert marks[k] == ms[k - 1] && ns[k] == ns[1 + (k - 1)];
      }
    }
  }

  /**
   A mark is noted exactly if the node before it has comments behind it, and begins a line exactly if its token is on a
   later line than that of the node before it, and no raw string.
   */
  predicate FlagAt(ns: seq<TokenNode>, d: nat, ms: seq<Mark>, j: nat)
    requires 0 < j <= |ns| && d <= j && j - d < |ms|
  {
    var m, before := ms[j - d], ns[j - 1];
    && (m.noted <==> before.leading != [])
    && (j < |ns| ==> (m.later <==> m.kind != RAW_STRING && ns[j].token.position.line > before.token.position.line))
  }

  predicate FlagsOfMarks(ns: seq<TokenNode>, d: nat, ms: seq<Mark>) {
    forall j :: 0 < j <= |ns| && d <= j && j - d < |ms| ==> FlagAt(ns, d, ms, j)
  }

  /** The flags of the marks are those of the nodes. */
  lemma {:induction false} NodesAndFlags(
      tokens: seq<Token>, line: int, noted: bool, head: seq<Token>, cur: Option<TokenNode>)
    requires cur.Some? ==> line == cur.value.token.position.line && (noted <==> cur.value.leading != [])
    ensures FlagsOfMarks(Nodes(tokens, head, cur), |Done(cur)|, MarksAt(tokens, line, noted))
    decreases |tokens|
  {
    if tokens == [] {
    } else {
      var t, rest := tokens[0], tokens[1..];
      if IsComment(t) {
        if SameLine(t, cur) {
          NodesAndFlags(rest, line, noted || t.position.line == line, head, Some(With(cur.value, t)));
        } else {
          NodesAndFlags(rest, line, noted || t.position.line == line, head + [t], cur);
        }
      } else if !Final(t.kind) {
        var n := TokenNode(head, t, []);
        NodesAndFlags(rest, t.position.line, false, [], Some(n));
        NodeFirst(rest, [], n);
        NodesAndMarks(rest, t.position.line, false, [], Some(n));
        OneFlag(
          cur, Nodes(rest, [], Some(n)), MarkFrom(t, line, noted), MarksAt(rest, t.position.line), t, line, noted);
      }
    }
  }

  lemma OneFlag(
      cur: Option<TokenNode>, ns: seq<TokenNode>, m: Mark, ms: seq<Mark>, t: Token, line: int, noted: bool)
    requires cur.Some? ==> line == cur.value.token.position.line && (noted <==> cur.value.leading != [])
    requires m == MarkFrom(t, line, noted) && ns != [] && ns[0].token == t && FlagsOfMarks(ns, 1, ms)
    ensures FlagsOfMarks(Done(cur) + ns, |Done(cur)|, [m] + ms)
  {
    var d, all, marks := |Done(cur)|, Done(cur) + ns, [m] + ms;
    forall j | 0 < j <= |all| && d <= j && j - d < |marks|
      ensures FlagAt(all, d, marks, j)
    {
      if j > d {
        assert FlagAt(ns, 1, ms, j - d);
        assert marks[j - d] == ms[j - d - 1] && all[j - 1] == ns[j - d - 1] && (j < |all| ==> all[j] == ns[j - d]);
      }
    }
  }

  /** The first node is that of the token whose comments are being gathered. */
  lemma {:induction false} NodeFirst(tokens: seq<Token>, head: seq<Token>, n: TokenNode)
    ensures var ns := Nodes(tokens, head, Some(n));
            ns != [] && ns[0].token == n.token && ns[0].head == n.head && n.leading <= ns[0].leading
    decreases |tokens|
  {
    if tokens == [] {
    } else {
      var t := tokens[0];
      if IsComment(t) {
        if SameLine(t, Some(n)) {
          NodeFirst(tokens[1..], head, With(n, t));
        } else {
          NodeFirst(tokens[1..], head + [t], n);
        }
      }
    }
  }

  // ---- the tokens of a text --------------------------------------------------------------------------

  /** `t` comes after a token on `line`, which was a comment up to the end of its line if `strict`. */
  predicate Follows(t: Token, line: int, strict: bool) {
    HasPosition(t) ==> if strict then t.position.line > line else t.position.line >= line
  }

  predicate Onto(a: Token, b: Token) {
    HasPosition(a) && Follows(b, a.position.line, a.kind == COMMENT)
  }

  /** Comments have their shape, and lines never fall, and rise behind a comment up to the end of its line. */
  ghost predicate WellTokens(tokens: seq<Token>) {
    && (forall k :: 0 <= k < |tokens| && IsComment(tokens[k]) ==> Shaped(tokens[k]))
    && forall k :: 0 < k < |tokens| ==> Onto(tokens[k - 1], tokens[k])
  }

  lemma CommentIsShaped(file: string, data: string, c: Cursor)
    requires |c.lines| > 0 && IsComment(NextToken(file, data, c))
    ensures Shaped(NextToken(file, data, c)) && !Stops(data, c)
    ensures NextToken(file, data, c).kind == COMMENT ==>
              var e := NextCursor(data, c).pos; CharAt(data, e) == '\n' || CharAt(data, e) == '\0'
  {
    hide Lex, IsLineComment, IsDocument;
    var w := TokenStart(data, c);
    OnlyIllegalStops(file, data, c);
    Extent(data, w);
    TypeText.ReadIsLexeme(data, w);
  }

  /** A token behind a newline is on a later line. */
  lemma LaterLine(file: string, data: string, c: Cursor)
    requires |c.lines| > 0 && HasPosition(NextToken(file, data, c))
    ensures NextToken(file, data, c).position.line >= |c.lines|
    ensures CharAt(data, c.pos) == '\n' || CharAt(data, c.pos) == '\0' ==>
              NextToken(file, data, c).position.line > |c.lines|
  {
    hide Lex;
    var w := TokenStart(data, c);
    OnlyIllegalStops(file, data, c);
    Extent(data, w);
    if CharAt(data, c.pos) == '\n' {
      assert c.pos < w;
      FirstNewline(data, c.pos, w);
    }
  }

  lemma {:induction false} FirstNewline(data: string, i: nat, e: nat)
    requires i < e && CharAt(data, i) == '\n'
    ensures Newlines(data, i, e) != []
    decreases e
  {
    if e == i + 1 {
    } else {
      FirstNewline(data, i, e - 1);
    }
  }

  lemma {:induction false} TokensAreWell(file: string, data: string, c: Cursor)
    requires |c.lines| > 0
    ensures WellTokens(Tokenize(file, data, c))
    decreases |data| - c.pos
  {
    hide Lex, NextLexeme, TokenStart, NextToken, Stops, Shaped;
    var t, next := NextToken(file, data, c), NextCursor(data, c);
    OnlyIllegalStops(file, data, c);
    if IsComment(t) {
      CommentIsShaped(file, data, c);
    }
    if !Stops(data, c) {
      Progress(data, c);
      TokensAreWell(file, data, next);
      TokenizeStep(file, data, c);
      var rest := Tokenize(file, data, next);
      var u := NextToken(file, data, next);
      assert rest[0] == u;
      if HasPosition(u) {
        LaterLine(file, data, next);
      }
      OneToken(t, rest);
    }
  }

  lemma OneToken(t: Token, rest: seq<Token>)
    requires WellTokens(rest) && HasPosition(t) && (IsComment(t) ==> Shaped(t))
    requires rest != [] ==> Follows(rest[0], t.position.line, t.kind == COMMENT)
    ensures WellTokens([t] + rest)
  {
    hide Shaped, Follows;
    var tokens := [t] + rest;
    forall k | 0 < k < |tokens|
      ensures Onto(tokens[k - 1], tokens[k])
    {
      assert tokens[k] == rest[k - 1];
      if k > 1 {
        assert tokens[k - 1] == rest[k - 2];
      }
    }
  }

  // ---- the nodes of a text ---------------------------------------------------------------------------

  /** A token with comments as they are attached. */
  ghost predicate WellNode(n: TokenNode) {
    && (forall c <- n.head :: Shaped(c)) && Rowed(n.leading)
    && Pos(n).line <= n.token.position.line == End(n).line
  }

  ghost predicate WellNodes(ns: seq<TokenNode>) {
    && (forall n <- ns :: WellNode(n))
    && forall k :: 0 < k < |ns| ==> RightBefore(ns[k - 1], ns[k])
  }

  /** One token right before another. */
  predicate RightBefore(a: TokenNode, b: TokenNode) {
    Adjacent(a, b) && End(a).line <= Pos(b).line
  }

  /** What is known when the tokens up to `line` have been read, the last of them a comment to the end if `strict`. */
  ghost predicate Pending(head: seq<Token>, cur: Option<TokenNode>, line: int, strict: bool) {
    && (forall c <- head :: Shaped(c))
    && (head != [] ==> head[0].position.line <= line)
    && (head != [] && cur.Some? ==> head[0].position.line > cur.value.token.position.line)
    && (cur.Some? ==>
          && WellNode(cur.value) && cur.value.token.position.line <= line
          && (EndsLine(cur.value) && head == [] ==> strict && line == cur.value.token.position.line))
  }

  /** A comment behind the token before it. */
  lemma PendingBehind(head: seq<Token>, n: TokenNode, line: int, strict: bool, t: Token)
    requires Pending(head, Some(n), line, strict) && IsComment(t) && Shaped(t) && Follows(t, line, strict)
    requires t.position.line == n.token.position.line
    ensures Pending(head, Some(With(n, t)), t.position.line, t.kind == COMMENT)
  {
    hide Shaped;
    assert head == [];
    var m := With(n, t);
    forall k | 0 <= k < |m.leading| - 1
      ensures m.leading[k].kind == DOCUMENT
    {
      assert m.leading[k] == n.leading[k];
      if k == |n.leading| - 1 {
        assert n.leading[k] in n.leading;
        ShapedKind(n.leading[k]);
      }
    }
  }

  /** A comment above the next token. */
  lemma PendingAbove(head: seq<Token>, cur: Option<TokenNode>, line: int, strict: bool, t: Token)
    requires Pending(head, cur, line, strict) && IsComment(t) && Shaped(t) && Follows(t, line, strict)
    requires !SameLine(t, cur)
    ensures Pending(head + [t], cur, t.position.line, t.kind == COMMENT)
  {
    hide Shaped, Rowed, EndsLine;
  }

  /** The next token. */
  lemma PendingNext(head: seq<Token>, cur: Option<TokenNode>, line: int, strict: bool, t: Token)
    requires Pending(head, cur, line, strict) && !IsComment(t) && HasPosition(t) && Follows(t, line, strict)
    ensures var n := TokenNode(head, t, []);
            Pending([], Some(n), t.position.line, false) && (cur.Some? ==> RightBefore(cur.value, n))
  {
    hide Shaped;
  }

  lemma {:induction false} NodesAreWell(tokens: seq<Token>, head: seq<Token>,
      cur: Option<TokenNode>, line: int, strict: bool)
    requires WellTokens(tokens) && Pending(head, cur, line, strict)
    requires tokens != [] ==> Follows(tokens[0], line, strict)
    ensures WellNodes(Nodes(tokens, head, cur))
    decreases |tokens|
  {
    hide Shaped, WellNode, RightBefore, Follows, Pending;
    if tokens == [] {
      PendingDone(head, cur, line, strict);
    } else {
      var t, rest := tokens[0], tokens[1..];
      RestIsWell(tokens);
      if IsComment(t) {
        if SameLine(t, cur) {
          PendingBehind(head, cur.value, line, strict, t);
          NodesAreWell(rest, head, Some(With(cur.value, t)), t.position.line, t.kind == COMMENT);
        } else {
          PendingAbove(head, cur, line, strict, t);
          NodesAreWell(rest, head + [t], cur, t.position.line, t.kind == COMMENT);
        }
      } else {
        PendingDone(head, cur, line, strict);
        if !Final(t.kind) {
          var n := TokenNode(head, t, []);
          PendingNext(head, cur, line, strict, t);
          NodesAreWell(rest, [], Some(n), t.position.line, false);
          NodeFirst(rest, [], n);
          AfterDone(cur, n, Nodes(rest, [], Some(n)));
        }
      }
    }
  }

  lemma RestIsWell(tokens: seq<Token>)
    requires WellTokens(tokens) && tokens != []
    ensures WellTokens(tokens[1..]) && (IsComment(tokens[0]) ==> Shaped(tokens[0]))
    ensures |tokens| > 1 ==> Onto(tokens[0], tokens[1..][0])
  {
    hide Shaped, Onto;
    var rest := tokens[1..];
    if |tokens| > 1 {
      assert Onto(tokens[1 - 1], tokens[1]);
    }
    forall k | 0 < k < |rest|
      ensures Onto(rest[k - 1], rest[k])
    {
      assert rest[k] == tokens[k + 1] && rest[k - 1] == tokens[k];
    }
  }

  lemma PendingDone(head: seq<Token>, cur: Option<TokenNode>, line: int, strict: bool)
    requires Pending(head, cur, line, strict)
    ensures WellNodes(Done(cur))
  {
    hide Shaped, WellNode, EndsLine;
  }

  lemma AfterDone(cur: Option<TokenNode>, n: TokenNode, ns: seq<TokenNode>)
    requires WellNodes(Done(cur)) && WellNodes(ns) && ns != [] && ns[0].head == n.head && ns[0].token == n.token
    requires cur.Some? ==> RightBefore(cur.value, n)
    ensures WellNodes(Done(cur) + ns)
  {
    hide Shaped, WellNode;
    if cur.Some? {
      assert RightBefore(cur.value, ns[0]);
      var all := [cur.value] + ns;
      forall k | 0 < k < |all|
        ensures RightBefore(all[k - 1], all[k])
      {
        if k > 1 {
          assert all[k - 1] == ns[k - 2] && all[k] == ns[k - 1];
        }
      }
    } else {
      assert [] + ns == ns;
    }
  }

  /**
   The nodes of every text: their comments have their shape, and what comes after the end of a line is on a later one.
   */
  lemma TextNodesAreWell(file: string, data: string)
    ensures WellNodes(Nodes(Tokenize(file, data, START), [], None))
  {
    hide WellTokens, WellNodes, Tokenize, Follows;
    TokensAreWell(file, data, START);
    FirstFollows(file, data);
    NodesAreWell(Tokenize(file, data, START), [], None, 0, false);
  }

  lemma FirstFollows(file: string, data: string)
    ensures Follows(Tokenize(file, data, START)[0], 0, false) && Pending([], None, 0, false)
  {
    OnlyIllegalStops(file, data, START);
  }
}
