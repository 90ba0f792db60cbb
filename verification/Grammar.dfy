/**
 The lexical grammar of the language, stated without offsets or loops, and the proof that the scanner reads
 exactly its lexemes: the scanner returns a lexeme if and only if the grammar has it and what follows does not
 extend it.
 */
module Grammar {
  import opened Tokens
  import opened Lexis

  // ---- durations -------------------------------------------------------------------------------

  datatype Unit = H | M | S | MS | US | NS {
    function Rank(): (r: nat)
      ensures NANOSECOND <= r <= HOUR
    {
      match this
      case H => HOUR
      case M => MINUTE
      case S => SECOND
      case MS => MILLISECOND
      case US => MICROSECOND
      case NS => NANOSECOND
    }

    function Text(): (t: string)
      ensures 1 <= |t| <= 2 && !IsDigit(t[0])
    {
      match this
      case H => "h"
      case M => "m"
      case S => "s"
      case MS => "ms"
      case US => "\U{B5}s"
      case NS => "ns"
    }
  }

  datatype Component = Component(digits: string, unit: Unit) {
    predicate Ok() {
      digits != "" && All(digits, Digit)
    }

    function Text(): string {
      digits + unit.Text()
    }
  }

  /** A duration: components of strictly falling units, all of rank below `bound`. */
  predicate Falling(parts: seq<Component>, bound: nat) {
    parts == [] || (parts[0].Ok() && parts[0].unit.Rank() < bound && Falling(parts[1..], parts[0].unit.Rank()))
  }

  function Render(parts: seq<Component>): string {
    if parts == [] then "" else parts[0].Text() + Render(parts[1..])
  }

  /** May a duration whose last unit is `u` be followed by `next`, without `next` extending it? */
  predicate DurationStops(u: Unit, next: char) {
    match u
    case NS => true
    case M => !IsDigit(next) && next != 's'
    case _ => !IsDigit(next)
  }

  /** `parts` spell the duration `t`, and it stops before `next`. */
  predicate Spells(parts: seq<Component>, bound: nat, t: string, next: char) {
    && parts != []
    && Falling(parts, bound)
    && Render(parts) == t
    && DurationStops(parts[|parts| - 1].unit, next)
  }

  // ---- the grammar -----------------------------------------------------------------------------

  predicate AllIn(t: string, a: nat, b: nat, c: Class)
    requires b <= |t|
  {
    forall k :: a <= k < b ==> c.Has(t[k])
  }

  predicate All(t: string, c: Class) {
    AllIn(t, 0, |t|, c)
  }

  predicate IsIdent(t: string) {
    t != "" && IsIdentLetter(t[0]) && All(t, Ident)
  }

  predicate IsKey(t: string) {
    |t| > 1 && IsIdentLetter(t[0]) && AllIn(t, 0, |t| - 1, Ident) && t[|t| - 1] == ':'
  }

  predicate IsQuoted(t: string, quote: char) {
    |t| >= 2 && t[0] == quote == t[|t| - 1] && AllIn(t, 1, |t| - 1, Until(quote))
  }

  predicate IsLineComment(t: string) {
    |t| >= 2 && t[0] == '/' == t[1] && All(t, Until('\n'))
  }

  /** A comment in slashes and stars; `star` is the first star of its body. */
  predicate IsDocument(t: string, star: nat) {
    && 2 <= star < |t| - 1
    && t[0] == '/' && t[1] == '*' && t[star] == '*' && t[|t| - 1] == '/'
    && AllIn(t, 2, star, Until('*')) && AllIn(t, star + 1, |t| - 1, Until('/'))
  }

  /** The one spelling of the kinds that have one. */
  function Spelling(kind: Kind): string {
    match kind
    case SUB => "-"
    case MUL => "*"
    case QUO => "/"
    case ASSIGN => "="
    case LPAREN => "("
    case LBRACK => "["
    case LBRACE => "{"
    case COMMA => ","
    case DOT => "."
    case RPAREN => ")"
    case RBRACE => "}"
    case RBRACK => "]"
    case SEMICOLON => ";"
    case COLON => ":"
    case ELLIPSIS => "..."
    case AT_DOC => "@doc"
    case AT_HANDLER => "@handler"
    case AT_SERVER => "@server"
    case ANY => "interface{}"
    case _ => ""
  }

  /** Is `t` a lexeme of this kind, and may the two characters `next`, `next2` follow without extending it? */
  ghost predicate IsLexeme(kind: Kind, t: string, next: char, next2: char) {
    match kind
    case IDENT => IsIdent(t) && !Ident.Has(next) && next != ':' && !(t == "interface" && next == '{' && next2 == '}')
    case KEY => IsKey(t)
    case INT => t != "" && All(t, Digit) && !IsDigit(next) && !StartsUnit(next)
    case DURATION => exists parts :: Spells(parts, ABOVE_HOUR, t, next)
    case STRING => IsQuoted(t, '"')
    case RAW_STRING => IsQuoted(t, '`')
    case COMMENT => IsLineComment(t) && (next == '\n' || next == '\0')
    case DOCUMENT => exists star: nat :: IsDocument(t, star)
    case NONE | ERROR | ILLEGAL | EOF | PATH => false
    case QUO => t == "/" && next != '/' && next != '*'
    case DOT => t == "." && next != '.'
    case AT_DOC | AT_HANDLER | AT_SERVER => t == Spelling(kind) && !IsLetter(next)
    case _ => t == Spelling(kind)
  }

  /** `t` stands in `data` at `i`, ending at `e`. */
  predicate Stands(data: string, i: nat, t: string, e: nat) {
    e == i + |t| <= |data| && data[i..e] == t
  }

  predicate Produced(kind: Kind) {
    kind != NONE && kind != ERROR && kind != ILLEGAL && kind != EOF && kind != PATH
  }

  // ---- runs ------------------------------------------------------------------------------------

  lemma {:induction false} RunEndIs(data: string, i: nat, e: nat, c: Class)
    requires i <= e <= |data|
    requires AllIn(data, i, e, c) && !c.Has(CharAt(data, e))
    ensures RunEnd(data, i, c) == e
    decreases e - i
  {
    if i == e {
    } else {
      RunEndIs(data, i + 1, e, c);
    }
  }

  lemma {:induction false} RunIsAll(data: string, i: nat, c: Class)
    requires i <= |data|
    ensures AllIn(data, i, RunEnd(data, i, c), c)
    decreases |data| - i
  {
    if i < |data| && c.Has(data[i]) {
      RunIsAll(data, i + 1, c);
    }
  }

  // ---- the scanner reads exactly the grammar -----------------------------------------------------

  /** The grammar reads `t` at `i`. */
  ghost predicate Matches(data: string, i: nat, kind: Kind, t: string, e: nat) {
    Stands(data, i, t, e) && IsLexeme(kind, t, CharAt(data, e), CharAt(data, e + 1))
  }

  /** The scanner reads `t` at `i`. */
  predicate Scans(data: string, i: nat, kind: Kind, t: string, e: nat) {
    Lex(data, i) == Lexeme(kind, t, i, e)
  }

  predicate IsSign(kind: Kind) {
    kind in {SUB, MUL, QUO, ASSIGN, LPAREN, LBRACK, LBRACE, COMMA, DOT, RPAREN,
             RBRACE, RBRACK, SEMICOLON, COLON, ELLIPSIS}
  }

  predicate IsAt(kind: Kind) {
    kind == AT_DOC || kind == AT_HANDLER || kind == AT_SERVER
  }

  lemma StandsChar(data: string, i: nat, t: string, e: nat, k: nat)
    requires Stands(data, i, t, e) && k < |t|
    ensures data[i + k] == t[k]
  {
    assert t[k] == data[i..e][k];
  }

  lemma StandsConcat(data: string, i: nat, a: string, b: string, e: nat)
    ensures Stands(data, i, a + b, e) <==> Stands(data, i, a, i + |a|) && Stands(data, i + |a|, b, e)
  {
    var m := i + |a|;
    if e == m + |b| <= |data| {
      assert data[i..e] == data[i..m] + data[m..e];
      assert (a + b)[..|a|] == a && (a + b)[|a|..] == b;
      assert (data[i..m] + data[m..e])[..|a|] == data[i..m] && (data[i..m] + data[m..e])[|a|..] == data[m..e];
    }
  }

  lemma StandsAll(data: string, i: nat, t: string, e: nat, a: nat, b: nat, c: Class)
    requires Stands(data, i, t, e) && a <= b <= |t|
    ensures AllIn(t, a, b, c) <==> AllIn(data, i + a, i + b, c)
  {
    forall k | a <= k < b
      ensures t[k] == data[i + k]
    {
      StandsChar(data, i, t, e, k);
    }
    if AllIn(t, a, b, c) {
      forall k | i + a <= k < i + b
        ensures c.Has(data[k])
      {
        assert c.Has(t[k - i]);
      }
    }
  }

  // One lemma per part of the scanner: what the part reads is what the grammar has.

  /**
   A sign of one rune is read wherever it stands, but for a slash that begins a comment and a dot that is not alone.
   */
  lemma SignRead(data: string, i: nat, kind: Kind)
    requires IsSign(kind) && kind != ELLIPSIS && CharAt(data, i) == Spelling(kind)[0]
    requires kind == QUO ==> CharAt(data, i + 1) != '/' && CharAt(data, i + 1) != '*'
    requires kind == DOT ==> CharAt(data, i + 1) != '.'
    ensures Lex(data, i) == Lexeme(kind, Spelling(kind), i, i + 1)
  {
    hide LexIdent, LexNumber, LexLineComment, LexDocument, LexAt, LexString;
    assert [CharAt(data, i)] == Spelling(kind);
  }

  lemma SignExact(data: string, i: nat, kind: Kind, t: string, e: nat)
    requires IsSign(kind) && CharAt(data, i) == Spelling(kind)[0]
    ensures Scans(data, i, kind, t, e) <==> Matches(data, i, kind, t, e)
  {
    hide LexIdent, LexNumber, LexString, LexAt, IsIdent, IsKey, IsQuoted, IsLineComment, IsDocument, Spells, All;
    if kind == DOT || kind == ELLIPSIS {
      DotsExact(data, i, kind, t, e);
    } else if kind != QUO || (CharAt(data, i + 1) != '/' && CharAt(data, i + 1) != '*') {
      hide Lex, LexLineComment, LexDocument;
      SignRead(data, i, kind);
      assert data[i..i + 1] == Spelling(kind);
    } else {
      assert Lex(data, i).kind != kind;
    }
  }

  lemma DotsExact(data: string, i: nat, kind: Kind, t: string, e: nat)
    requires (kind == DOT || kind == ELLIPSIS) && CharAt(data, i) == '.'
    ensures Scans(data, i, kind, t, e) <==> Matches(data, i, kind, t, e)
  {
    hide LexIdent, LexNumber, LexLineComment, LexDocument, LexAt, LexString, IsIdent, IsKey, IsQuoted, IsLineComment,
      IsDocument, Spells, All;
    assert data[i..i + 1] == ".";
    if Matches(data, i, ELLIPSIS, t, e) {
      StandsChar(data, i, t, e, 1);
      StandsChar(data, i, t, e, 2);
    }
    if CharAt(data, i + 1) == '.' == CharAt(data, i + 2) {
      assert data[i..i + 3] == "...";
    }
  }

  lemma IdentExact(data: string, i: nat, kind: Kind, t: string, e: nat)
    requires IsIdentLetter(CharAt(data, i)) && kind in {IDENT, KEY, ANY}
    ensures LexIdent(data, i) == Lexeme(kind, t, i, e) <==> Matches(data, i, kind, t, e)
  {
    hide Lex;
    var stop := RunEnd(data, i, Ident);
    RunIsAll(data, i, Ident);
    if LexIdent(data, i) == Lexeme(kind, t, i, e) {
      assert Ident.Has(data[i]) && i < stop;
      StandsAll(data, i, t, e, 0, stop - i, Ident);
      if kind == ANY {
        assert t == data[i..stop] + [data[stop], data[stop + 1]];
      }
    } else if Matches(data, i, kind, t, e) {
      IdentComplete(data, i, kind, t, e);
    }
  }

  lemma IdentComplete(data: string, i: nat, kind: Kind, t: string, e: nat)
    requires IsIdentLetter(CharAt(data, i)) && kind in {IDENT, KEY, ANY}
    requires Matches(data, i, kind, t, e)
    ensures LexIdent(data, i) == Lexeme(kind, t, i, e)
  {
    var n := match kind case IDENT => |t| case KEY => |t| - 1 case _ => 9;
    StandsAll(data, i, t, e, 0, n, Ident);
    if kind != IDENT {
      StandsChar(data, i, t, e, n);
    }
    if kind == ANY {
      StandsChar(data, i, t, e, 10);
      assert data[i..i + 9] == t[..9];
    }
    RunEndIs(data, i, i + n, Ident);
  }

  lemma IntExact(data: string, i: nat, t: string, e: nat)
    requires IsDigit(CharAt(data, i))
    ensures LexNumber(data, i) == Lexeme(INT, t, i, e) <==> Matches(data, i, INT, t, e)
  {
    RunIsAll(data, i, Digit);
    if LexNumber(data, i) == Lexeme(INT, t, i, e) || Matches(data, i, INT, t, e) {
      assert Digit.Has(data[i]);
      StandsAll(data, i, t, e, 0, |t|, Digit);
      if Matches(data, i, INT, t, e) {
        RunEndIs(data, i, e, Digit);
      }
    }
  }

  lemma StringExact(data: string, i: nat, kind: Kind, t: string, e: nat)
    requires (kind == STRING && CharAt(data, i) == '"') || (kind == RAW_STRING && CharAt(data, i) == '`')
    ensures LexString(data, i, kind) == Lexeme(kind, t, i, e) <==> Matches(data, i, kind, t, e)
  {
    hide Lex;
    if LexString(data, i, kind) == Lexeme(kind, t, i, e) {
      RunIsAll(data, i + 1, Until(data[i]));
      StringStands(data, i, t, e);
    } else if Matches(data, i, kind, t, e) {
      StringStands(data, i, t, e);
      RunEndIs(data, i + 1, e - 1, Until(data[i]));
    }
  }

  lemma StringStands(data: string, i: nat, t: string, e: nat)
    requires Stands(data, i, t, e) && |t| >= 2
    ensures IsQuoted(t, data[i]) <==> data[e - 1] == data[i] && AllIn(data, i + 1, e - 1, Until(data[i]))
  {
    StandsChar(data, i, t, e, 0);
    StandsChar(data, i, t, e, |t| - 1);
    StandsAll(data, i, t, e, 1, |t| - 1, Until(data[i]));
  }

  lemma LineCommentExact(data: string, i: nat, t: string, e: nat)
    requires CharAt(data, i) == '/' == CharAt(data, i + 1)
    ensures LexLineComment(data, i) == Lexeme(COMMENT, t, i, e) <==> Matches(data, i, COMMENT, t, e)
  {
    var c := Until('\n');
    RunIsAll(data, i, c);
    assert RunEnd(data, i, c) == RunEnd(data, i + 1, c) == RunEnd(data, i + 2, c);
    if LexLineComment(data, i) == Lexeme(COMMENT, t, i, e) {
      StandsAll(data, i, t, e, 0, |t|, c);
    }
    if Matches(data, i, COMMENT, t, e) {
      StandsAll(data, i, t, e, 0, |t|, c);
      RunEndIs(data, i, e, c);
    }
  }

  lemma DocumentExact(data: string, i: nat, t: string, e: nat)
    requires CharAt(data, i) == '/' && CharAt(data, i + 1) == '*'
    ensures LexDocument(data, i) == Lexeme(DOCUMENT, t, i, e) <==> Matches(data, i, DOCUMENT, t, e)
  {
    hide Lex, AllIn, RunEnd;
    if LexDocument(data, i) == Lexeme(DOCUMENT, t, i, e) {
      var star := RunEnd(data, i + 2, Until('*'));
      RunIsAll(data, i + 2, Until('*'));
      RunIsAll(data, star + 1, Until('/'));
      DocumentStands(data, i, t, e, star - i);
    } else if Matches(data, i, DOCUMENT, t, e) {
      var star: nat :| IsDocument(t, star);
      DocumentStands(data, i, t, e, star);
      RunEndIs(data, i + 2, i + star, Until('*'));
      RunEndIs(data, i + star + 1, e - 1, Until('/'));
    }
  }

  lemma DocumentStands(data: string, i: nat, t: string, e: nat, star: nat)
    requires Stands(data, i, t, e) && 2 <= star < |t| - 1
    ensures IsDocument(t, star) <==>
            && data[i] == '/' && data[i + 1] == '*' && data[i + star] == '*' && data[e - 1] == '/'
            && AllIn(data, i + 2, i + star, Until('*')) && AllIn(data, i + star + 1, e - 1, Until('/'))
  {
    StandsChar(data, i, t, e, 0);
    StandsChar(data, i, t, e, 1);
    StandsChar(data, i, t, e, star);
    StandsChar(data, i, t, e, |t| - 1);
    StandsAll(data, i, t, e, 2, star, Until('*'));
    StandsAll(data, i, t, e, star + 1, |t| - 1, Until('/'));
  }

  lemma AtExact(data: string, i: nat, kind: Kind, t: string, e: nat)
    requires CharAt(data, i) == '@' && IsAt(kind)
    ensures LexAt(data, i) == Lexeme(kind, t, i, e) <==> Matches(data, i, kind, t, e)
  {
    if LexAt(data, i) == Lexeme(kind, t, i, e) {
      assert data[i..e] == [data[i]] + data[i + 1..e];
    } else if Stands(data, i, Spelling(kind), e) && !IsLetter(CharAt(data, e)) {
      AtComplete(data, i, kind, e);
    }
  }

  lemma AtComplete(data: string, i: nat, kind: Kind, e: nat)
    requires CharAt(data, i) == '@' && IsAt(kind)
    requires Stands(data, i, Spelling(kind), e) && !IsLetter(CharAt(data, e))
    ensures LexAt(data, i) == Lexeme(kind, Spelling(kind), i, e)
  {
    var t := Spelling(kind);
    assert AllIn(t, 1, |t|, Letter);
    StandsAll(data, i, t, e, 1, |t|, Letter);
    RunEndIs(data, i + 1, e, Letter);
    assert data[i + 1..e] == t[1..];
    assert t[1..] == match kind case AT_DOC => "doc" case AT_HANDLER => "handler" case _ => "server";
  }

  // ---- durations -------------------------------------------------------------------------------

  /** Unit `u` stands at `j` and ranks below `bound`. */
  predicate UnitStands(data: string, j: nat, u: Unit, bound: nat) {
    && u.Rank() < bound
    && Stands(data, j, u.Text(), j + |u.Text()|)
    && (u == M ==> CharAt(data, j + 1) != 's')
  }

  /** What the scanner does after unit `u` ending at `e`. */
  function Resume(data: string, i: nat, e: nat, u: Unit): Lexeme
    requires i <= e <= |data|
  {
    if u == NS then Slice(DURATION, data, i, e) else LexAfterUnit(data, i, e, u.Rank())
  }

  lemma UnitRead(data: string, i: nat, j: nat, u: Unit, bound: nat)
    requires i <= j <= |data| && UnitStands(data, j, u, bound)
    ensures LexDuration(data, i, j, bound) == Resume(data, i, j + |u.Text()|, u)
  {
    StandsChar(data, j, u.Text(), j + |u.Text()|, 0);
    if |u.Text()| == 2 {
      StandsChar(data, j, u.Text(), j + 2, 1);
    }
  }

  lemma UnitFound(data: string, i: nat, j: nat, bound: nat) returns (u: Unit)
    requires i <= j <= |data| && LexDuration(data, i, j, bound).kind == DURATION
    ensures UnitStands(data, j, u, bound)
  {
    var c, next := CharAt(data, j), CharAt(data, j + 1);
    u := if c == 'h' then H else if c == 's' then S else if c == 'n' then NS else if c == '\U{B5}' then US
         else if next == 's' then MS else M;
    assert j < |data| && data[j..j + 1] == [c];
    if |u.Text()| == 2 {
      assert j + 1 < |data| && data[j..j + 2] == [c, next];
    }
  }

  lemma Cut(data: string, a: nat, b: nat, c: nat)
    requires a <= b <= c <= |data|
    ensures data[a..c] == data[a..b] + data[b..c]
  {
  }

  /** A component that stands at `s`, its digits ending at `j`, followed by more text up to `e`. */
  lemma ComponentStands(data: string, s: nat, j: nat, u: Unit, e: nat)
    requires s < j && UnitStands(data, j, u, ABOVE_HOUR) && j + |u.Text()| <= e <= |data|
    requires AllIn(data, s, j, Digit)
    ensures Component(data[s..j], u).Ok()
    ensures data[s..e] == Component(data[s..j], u).Text() + data[j + |u.Text()|..e]
  {
    var k := j + |u.Text()|;
    assert data[j..k] == u.Text();
    Cut(data, s, k, e);
    Cut(data, s, j, k);
    forall n | 0 <= n < j - s
      ensures Digit.Has(data[s..j][n])
    {
      assert data[s..j][n] == data[s + n];
    }
  }

  lemma SpellsOne(c: Component, bound: nat, next: char)
    requires c.Ok() && c.unit.Rank() < bound && DurationStops(c.unit, next)
    ensures Spells([c], bound, c.Text(), next)
  {
    assert Render([c]) == c.Text() + "";
  }

  lemma SpellsMore(c: Component, rest: seq<Component>, bound: nat, t: string, next: char)
    requires c.Ok() && c.unit.Rank() < bound && Spells(rest, c.unit.Rank(), t, next)
    ensures Spells([c] + rest, bound, c.Text() + t, next)
  {
    assert ([c] + rest)[1..] == rest;
  }

  /** A duration the scanner reads is spelled by components of strictly falling units. */
  lemma {:induction false} DurationSound(data: string, i: nat, s: nat, j: nat, bound: nat)
      returns (parts: seq<Component>)
    requires i <= s < j <= |data| && bound <= ABOVE_HOUR
    requires AllIn(data, s, j, Digit)
    requires LexDuration(data, i, j, bound).kind == DURATION
    ensures var l := LexDuration(data, i, j, bound);
            && j < l.end <= |data| && l == Slice(DURATION, data, i, l.end)
            && Spells(parts, bound, data[s..l.end], CharAt(data, l.end))
    decreases |data| - j
  {
    hide Spells, Component.Ok;
    var e := LexDuration(data, i, j, bound).end;
    var u := UnitFound(data, i, j, bound);
    var k := j + |u.Text()|;
    UnitRead(data, i, j, u, bound);
    if u == NS || !IsDigit(CharAt(data, k)) {
      ComponentStands(data, s, j, u, k);
      parts := [Component(data[s..j], u)];
      assert data[s..k] == parts[0].Text() + data[k..k] == parts[0].Text();
      SpellsOne(parts[0], bound, CharAt(data, k));
    } else {
      RunIsAll(data, k, Digit);
      var rest := DurationSound(data, i, k, RunEnd(data, k, Digit), u.Rank());
      ComponentStands(data, s, j, u, e);
      parts := [Component(data[s..j], u)] + rest;
      SpellsMore(parts[0], rest, bound, data[k..e], CharAt(data, e));
    }
  }

  lemma RenderStands(data: string, s: nat, parts: seq<Component>, e: nat)
    requires parts != [] && Stands(data, s, Render(parts), e)
    ensures var j := s + |parts[0].digits|;
            var k := j + |parts[0].unit.Text()|;
            && Stands(data, s, parts[0].digits, j)
            && Stands(data, j, parts[0].unit.Text(), k)
            && Stands(data, k, Render(parts[1..]), e)
            && (parts[1..] == [] ==> k == e)
  {
    StandsConcat(data, s, parts[0].Text(), Render(parts[1..]), e);
    StandsConcat(data, s, parts[0].digits, parts[0].unit.Text(), s + |parts[0].Text()|);
  }

  /** The digits of the first component are where the scanner stops reading digits. */
  lemma FirstDigits(data: string, s: nat, parts: seq<Component>, e: nat)
    requires parts != [] && parts[0].Ok() && Stands(data, s, Render(parts), e)
    ensures var j := s + |parts[0].digits|;
            && s < j < e && IsDigit(data[s]) && !IsDigit(data[j])
            && RunEnd(data, s, Digit) == j
  {
    var digits, u := parts[0].digits, parts[0].unit;
    var j := s + |digits|;
    RenderStands(data, s, parts, e);
    StandsAll(data, s, digits, j, 0, |digits|, Digit);
    StandsChar(data, j, u.Text(), j + |u.Text()|, 0);
    assert Digit.Has(data[s]);
    RunEndIs(data, s, j, Digit);
  }

  /** Components of strictly falling units, not extended by what follows, are read as one duration. */
  lemma {:induction false} DurationComplete(
      data: string, i: nat, s: nat, j: nat, parts: seq<Component>, bound: nat, e: nat)
    requires i <= s && parts != [] && Falling(parts, bound)
    requires j == s + |parts[0].digits| && Stands(data, s, Render(parts), e)
    requires DurationStops(parts[|parts| - 1].unit, CharAt(data, e))
    ensures j < e && LexDuration(data, i, j, bound) == Slice(DURATION, data, i, e)
    decreases |parts|
  {
    hide LexDuration, RunEnd, IsDigit, Render, Stands, All;
    var u, rest := parts[0].unit, parts[1..];
    var k := j + |u.Text()|;
    RenderStands(data, s, parts, e);
    if rest == [] {
      UnitRead(data, i, j, u, bound);
    } else {
      assert rest[|rest| - 1] == parts[|parts| - 1];
      FirstDigits(data, k, rest, e);
      UnitRead(data, i, j, u, bound);
      DurationComplete(data, i, k, k + |rest[0].digits|, rest, u.Rank(), e);
    }
  }

  lemma DurationExact(data: string, i: nat, t: string, e: nat)
    requires IsDigit(CharAt(data, i))
    ensures LexNumber(data, i) == Lexeme(DURATION, t, i, e) <==> Matches(data, i, DURATION, t, e)
  {
    if LexNumber(data, i) == Lexeme(DURATION, t, i, e) {
      RunIsAll(data, i, Digit);
      assert Digit.Has(data[i]);
      var parts := DurationSound(data, i, i, RunEnd(data, i, Digit), ABOVE_HOUR);
      assert Spells(parts, ABOVE_HOUR, t, CharAt(data, e));
    } else if Matches(data, i, DURATION, t, e) {
      var parts: seq<Component> :| Spells(parts, ABOVE_HOUR, t, CharAt(data, e));
      DurationWhole(data, i, parts, e);
    }
  }

  lemma DurationWhole(data: string, i: nat, parts: seq<Component>, e: nat)
    requires Stands(data, i, Render(parts), e)
    requires Spells(parts, ABOVE_HOUR, Render(parts), CharAt(data, e))
    ensures IsDigit(CharAt(data, i)) && LexNumber(data, i) == Slice(DURATION, data, i, e)
  {
    hide Stands, RunEnd, LexDuration, Render;
    FirstDigits(data, i, parts, e);
    RenderStands(data, i, parts, e);
    var j := i + |parts[0].digits|;
    StandsChar(data, j, parts[0].unit.Text(), j + |parts[0].unit.Text()|, 0);
    DurationComplete(data, i, i, j, parts, ABOVE_HOUR, e);
  }

  // ---- the theorem -----------------------------------------------------------------------------

  /** Does the character at `i` send the scanner to the part that reads this kind? */
  predicate Head(data: string, i: nat, kind: Kind) {
    var c, next := CharAt(data, i), CharAt(data, i + 1);
    match kind
    case IDENT | KEY | ANY => IsIdentLetter(c)
    case INT | DURATION => IsDigit(c)
    case STRING => c == '"'
    case RAW_STRING => c == '`'
    case COMMENT => c == '/' == next
    case DOCUMENT => c == '/' && next == '*'
    case AT_DOC | AT_HANDLER | AT_SERVER => c == '@'
    case NONE | ERROR | ILLEGAL | EOF | PATH => false
    case _ => c == Spelling(kind)[0]
  }

  lemma Dispatch(data: string, i: nat)
    ensures IsIdentLetter(CharAt(data, i)) ==> Lex(data, i) == LexIdent(data, i)
    ensures IsDigit(CharAt(data, i)) ==> Lex(data, i) == LexNumber(data, i)
    ensures CharAt(data, i) == '"' ==> Lex(data, i) == LexString(data, i, STRING)
    ensures CharAt(data, i) == '`' ==> Lex(data, i) == LexString(data, i, RAW_STRING)
    ensures CharAt(data, i) == '/' == CharAt(data, i + 1) ==> Lex(data, i) == LexLineComment(data, i)
    ensures CharAt(data, i) == '/' && CharAt(data, i + 1) == '*' ==> Lex(data, i) == LexDocument(data, i)
    ensures CharAt(data, i) == '@' ==> Lex(data, i) == LexAt(data, i)
  {
    hide LexIdent, LexNumber, LexString, LexLineComment, LexDocument, LexAt;
  }

  lemma ReadHead(data: string, i: nat)
    requires Produced(Lex(data, i).kind)
    ensures Head(data, i, Lex(data, i).kind)
  {
    hide LexIdent, LexNumber, LexString, LexDocument, LexAt;
  }

  lemma DurationHead(data: string, i: nat, t: string, e: nat)
    requires Matches(data, i, DURATION, t, e)
    ensures Head(data, i, DURATION) && i < e
  {
    var parts: seq<Component> :| Spells(parts, ABOVE_HOUR, t, CharAt(data, e));
    FirstDigits(data, i, parts, e);
  }

  lemma LexemeHead(data: string, i: nat, kind: Kind, t: string, e: nat)
    requires Matches(data, i, kind, t, e)
    ensures Head(data, i, kind) && i < e
  {
    hide Spells;
    if kind == DURATION {
      DurationHead(data, i, t, e);
    } else {
      StandsChar(data, i, t, e, 0);
      if kind == COMMENT || kind == DOCUMENT {
        StandsChar(data, i, t, e, 1);
      } else if kind == INT {
        assert Digit.Has(t[0]);
      }
    }
  }

  /** Once the first character sends the scanner to the right part, that part reads exactly the grammar. */
  lemma Exact(data: string, i: nat, kind: Kind, t: string, e: nat)
    requires Head(data, i, kind)
    ensures Scans(data, i, kind, t, e) <==> Matches(data, i, kind, t, e)
  {
    hide IsLexeme, Lex, LexIdent, LexNumber, LexString, LexLineComment, LexDocument, LexAt;
    Dispatch(data, i);
    if IsSign(kind) {
      SignExact(data, i, kind, t, e);
    } else if kind in {IDENT, KEY, ANY} {
      IdentExact(data, i, kind, t, e);
    } else if kind == INT {
      IntExact(data, i, t, e);
    } else if kind == DURATION {
      DurationExact(data, i, t, e);
    } else if kind == STRING || kind == RAW_STRING {
      StringExact(data, i, kind, t, e);
    } else if kind == COMMENT {
      LineCommentExact(data, i, t, e);
    } else if kind == DOCUMENT {
      DocumentExact(data, i, t, e);
    } else {
      AtExact(data, i, kind, t, e);
    }
  }

  /**
   The scanner reads lexeme `t` of a kind at `i` if and only if `t` stands there, the grammar has it, and what
   follows does not extend it. Hence at most one lexeme can be read at an offset.
   */
  lemma ScannerReadsGrammar(data: string, i: nat, kind: Kind, t: string, e: nat)
    requires Produced(kind)
    ensures Scans(data, i, kind, t, e) <==> Matches(data, i, kind, t, e)
  {
    hide IsLexeme, Lex;
    if Scans(data, i, kind, t, e) || Matches(data, i, kind, t, e) {
      if Scans(data, i, kind, t, e) {
        ReadHead(data, i);
      } else {
        LexemeHead(data, i, kind, t, e);
      }
      Exact(data, i, kind, t, e);
    }
  }
}
