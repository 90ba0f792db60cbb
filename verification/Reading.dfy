/** Words and comments with white space between them: a text is read as such pieces in one way only. */
module Reading {
  import opened Tokens
  import opened Lexis
  import opened Grammar
  import opened Layout

  predicate IsMark(c: char) {
    c == '(' || c == ')' || c == '[' || c == ']' || c == '*'
  }

  /** A sign, or a word without white space and signs in it that does not look like a comment. */
  predicate IsPlainWord(t: string) {
    && t != "" && (forall c <- t :: !IsSpace(c))
    && (|t| > 1 ==> (forall c <- t :: !IsMark(c)) && (t[0] == '/' ==> t[1] != '/'))
  }

  /** Does a word end before this text? */
  predicate WordEnds(t: string, after: string) {
    (|t| == 1 && IsMark(t[0])) || after == "" || IsSpace(after[0]) || (IsMark(after[0]) && after[0] != '*')
  }

  predicate IsRemark(kind: Kind) {
    kind == COMMENT || kind == DOCUMENT
  }

  /** Is the piece a comment or a word, which ends before this text? */
  ghost predicate EndsBefore(p: Piece, after: string) {
    && All(p.gap, Space)
    && if IsRemark(p.kind) then IsLexeme(p.kind, p.text, CharAt(after, 0), CharAt(after, 1))
       else p.kind == IDENT && IsPlainWord(p.text) && WordEnds(p.text, after)
  }

  ghost predicate Readable(pieces: seq<Piece>, tail: string) {
    pieces == [] || (EndsBefore(pieces[0], Text(pieces[1..]) + tail) && Readable(pieces[1..], tail))
  }

  // ---- one reading -----------------------------------------------------------------------------------

  /** White space before a text that begins with none can be told apart from it. */
  lemma GapOnce(g: string, s: string, h: string, t: string)
    requires g + s == h + t && All(g, Space) && All(h, Space)
    requires s != "" && !IsSpace(s[0]) && t != "" && !IsSpace(t[0])
    ensures g == h && s == t
  {
    if |g| < |h| {
      LongerGap(g, s, h, t);
    } else if |h| < |g| {
      LongerGap(h, t, g, s);
    } else {
      assert (g + s)[..|g|] == g && (h + t)[..|h|] == h && (g + s)[|g|..] == s && (h + t)[|h|..] == t;
    }
  }

  lemma LongerGap(g: string, s: string, h: string, t: string)
    requires g + s == h + t && All(h, Space) && s != "" && |g| < |h|
    ensures IsSpace(s[0])
  {
    assert (g + s)[|g|] == s[0] && (h + t)[|g|] == h[|g|] && Space.Has(h[|g|]);
  }

  lemma RemarkStart(p: Piece, after: string)
    requires EndsBefore(p, after) && IsRemark(p.kind)
    ensures |p.text| > 1 && p.text[0] == '/' && (p.text[1] == '/' || p.text[1] == '*')
  {
  }

  lemma PieceStart(p: Piece, after: string)
    requires EndsBefore(p, after)
    ensures p.text != "" && !IsSpace(p.text[0])
  {
    if IsRemark(p.kind) {
      RemarkStart(p, after);
    } else {
      assert p.text[0] in p.text;
    }
  }

  /** Comments are read as the scanner reads them. */
  lemma RemarkOnce(p: Piece, a: string, q: Piece, b: string)
    requires EndsBefore(p, a) && EndsBefore(q, b) && IsRemark(p.kind) && IsRemark(q.kind)
    requires p.text + a == q.text + b
    ensures p.kind == q.kind && p.text == q.text && a == b
  {
    hide IsLexeme;
    var data := p.text + a;
    assert data[0..] == data && data == q.text + b;
    LexemeRead(data, 0, p.kind, p.text, a);
    LexemeRead(data, 0, q.kind, q.text, b);
  }

  lemma WordOnce(t: string, a: string, u: string, b: string)
    requires IsPlainWord(t) && IsPlainWord(u) && WordEnds(t, a) && WordEnds(u, b) && t + a == u + b
    ensures t == u && a == b
  {
    if |t| < |u| {
      LongerWord(t, a, u, b);
    } else if |u| < |t| {
      LongerWord(u, b, t, a);
    }
    assert t == (t + a)[..|t|] && u == (u + b)[..|u|] && a == (t + a)[|t|..] && b == (u + b)[|u|..];
  }

  lemma LongerWord(t: string, a: string, u: string, b: string)
    requires t != "" && IsPlainWord(u) && t + a == u + b && |t| < |u|
    ensures a != "" && !IsSpace(a[0]) && !IsMark(a[0]) && !IsMark(t[0])
  {
    var s := t + a;
    assert |s| == |u + b| && s[0] == t[0] == (u + b)[0] == u[0] && s[|t|] == (u + b)[|t|] == u[|t|];
    assert a != "" && a[0] == s[|t|];
    assert u[0] in u && u[|t|] in u;
  }

  /** What a text with the first two characters of a comment begins with. */
  lemma LikeRemark(t: string, a: string, u: string, b: string)
    requires |t| > 1 && u != "" && t + a == u + b
    ensures u[0] == t[0] && if |u| > 1 then u[1] == t[1] && u[1] in u else b != "" && b[0] == t[1]
  {
    var s := t + a;
    assert |s| == |u + b| && s[0] == t[0] == (u + b)[0] == u[0] && s[1] == t[1] == (u + b)[1];
  }

  /** A word does not look like a comment. */
  lemma NoRemark(p: Piece, a: string, q: Piece, b: string)
    requires EndsBefore(p, a) && EndsBefore(q, b) && IsRemark(p.kind) && !IsRemark(q.kind)
    ensures p.text + a != q.text + b
  {
    RemarkStart(p, a);
    if p.text + a == q.text + b {
      LikeRemark(p.text, a, q.text, b);
    }
  }

  /** The first piece is read in one way only. */
  lemma PieceOnce(p: Piece, a: string, q: Piece, b: string)
    requires EndsBefore(p, a) && EndsBefore(q, b) && p.gap + (p.text + a) == q.gap + (q.text + b)
    ensures p == q && a == b
  {
    hide IsLexeme, IsPlainWord, WordEnds, IsRemark;
    PieceStart(p, a);
    PieceStart(q, b);
    GapOnce(p.gap, p.text + a, q.gap, q.text + b);
    if IsRemark(p.kind) && IsRemark(q.kind) {
      RemarkOnce(p, a, q, b);
    } else if IsRemark(p.kind) {
      NoRemark(p, a, q, b);
      assert false;
    } else if IsRemark(q.kind) {
      NoRemark(q, b, p, a);
      assert false;
    } else {
      WordOnce(p.text, a, q.text, b);
    }
  }

  /** Pieces with the same text, up to white space behind them, are the same. */
  lemma {:induction false} ReadOnce(p: seq<Piece>, t: string, q: seq<Piece>, u: string)
    requires Readable(p, t) && Readable(q, u) && All(t, Space) && All(u, Space) && Text(p) + t == Text(q) + u
    ensures p == q && t == u
    decreases |p|
  {
    hide EndsBefore, All;
    if p == [] && q == [] {
      assert "" + t == t && "" + u == u;
    } else if p == [] {
      PieceStart(q[0], Text(q[1..]) + u);
      SomethingLeft(q, u, t);
      assert false;
    } else if q == [] {
      PieceStart(p[0], Text(p[1..]) + t);
      SomethingLeft(p, t, u);
      assert false;
    } else {
      var a, b := Text(p[1..]) + t, Text(q[1..]) + u;
      Front(p, t);
      Front(q, u);
      PieceOnce(p[0], a, q[0], b);
      ReadOnce(p[1..], t, q[1..], u);
    }
  }

  lemma Front(p: seq<Piece>, t: string)
    requires p != []
    ensures Text(p) + t == p[0].gap + (p[0].text + (Text(p[1..]) + t))
  {
  }

  lemma SomethingLeft(q: seq<Piece>, u: string, t: string)
    requires q != [] && q[0].text != "" && All(t, Space) && t == Text(q) + u
    ensures IsSpace(q[0].text[0])
  {
    var i := |q[0].gap|;
    assert t == q[0].gap + (q[0].text + (Text(q[1..]) + u));
    assert t[i] == q[0].text[0] && Space.Has(t[i]);
  }

  // ---- putting pieces together -----------------------------------------------------------------------

  lemma {:induction false} TextJoin(p: seq<Piece>, q: seq<Piece>)
    ensures Text(p + q) == Text(p) + Text(q)
  {
    if p == [] {
      assert p + q == q;
    } else {
      assert (p + q)[1..] == p[1..] + q;
      TextJoin(p[1..], q);
    }
  }

  lemma TextAssoc(a: string, b: string, c: string)
    ensures (a + b) + c == a + (b + c)
  {
  }

  lemma {:induction false} ReadableJoin(p: seq<Piece>, q: seq<Piece>, tail: string)
    requires Readable(p, Text(q) + tail) && Readable(q, tail)
    ensures Readable(p + q, tail)
    decreases |p|
  {
    hide EndsBefore, Text;
    if p == [] {
      assert p + q == q;
    } else {
      var rest := p[1..];
      assert (p + q)[1..] == rest + q && (p + q)[0] == p[0];
      TextJoin(rest, q);
      TextAssoc(Text(rest), Text(q), tail);
      ReadableJoin(rest, q, tail);
    }
  }
}
