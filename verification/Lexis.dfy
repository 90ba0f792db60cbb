/**
 What one call of the scanner reads, as a function of the source and an offset into it.
 An offset past the end reads as NUL, and a NUL in the source reads as the end.
 */
module Lexis {
  import opened Tokens

  /** The character classes the scanner loops over. None of them contains NUL. */
  datatype Class = Digit | Letter | Ident | Space | Until(stop: char) {
    predicate Has(c: char) {
      match this
      case Digit => IsDigit(c)
      case Letter => IsLetter(c)
      case Ident => IsIdentLetter(c) || IsDigit(c)
      case Space => IsSpace(c)
      case Until(stop) => c != stop && c != '\0'
    }
  }

  predicate IsDigit(c: char) {
    '0' <= c <= '9'
  }

  predicate IsLetter(c: char) {
    'a' <= c <= 'z' || 'A' <= c <= 'Z'
  }

  predicate IsIdentLetter(c: char) {
    IsLetter(c) || c == '_'
  }

  predicate IsSpace(c: char) {
    c == ' ' || c == '\t' || c == '\r' || c == '\U{0C}' || c == '\U{0B}' || c == '\n'
  }

  /** The first letter of a duration unit. */
  predicate StartsUnit(c: char) {
    c == 'n' || c == '\U{B5}' || c == 'm' || c == 's' || c == 'h'
  }

  function CharAt(data: string, i: nat): char {
    if i < |data| then data[i] else '\0'
  }

  /** Where the run of characters of class `c` that starts at `i` ends. */
  function RunEnd(data: string, i: nat, c: Class): (e: nat)
    ensures i <= e
    ensures i <= |data| ==> e <= |data|
    ensures |data| <= i ==> e == i
    ensures !c.Has(CharAt(data, e))
    decreases |data| - i
  {
    if i < |data| && c.Has(data[i]) then RunEnd(data, i + 1, c) else i
  }

  lemma RunStep(data: string, i: nat, c: Class)
    ensures RunEnd(data, i, c) == if i < |data| && c.Has(data[i]) then RunEnd(data, i + 1, c) else i
  {
  }

  /** The offsets of the newlines of `data` in `[i, e)`. */
  function Newlines(data: string, i: nat, e: nat): (offsets: seq<int>)
    requires i <= e
    ensures forall k :: 0 <= k < |offsets| ==> i <= offsets[k] < e
    decreases e - i
  {
    if i == e then []
    else Newlines(data, i, e - 1) + if CharAt(data, e - 1) == '\n' then [e - 1] else []
  }

  /** A token without its line: its kind, its text, the offset it reports and the offset where scanning resumes. */
  datatype Lexeme = Lexeme(kind: Kind, text: string, at: nat, end: nat)

  function Illegal(data: string, at: nat): Lexeme {
    Lexeme(ILLEGAL, [CharAt(data, at)], at, at + 1)
  }

  function Failed(end: nat): Lexeme {
    Lexeme(ERROR, "", 0, end)
  }

  function One(kind: Kind, data: string, at: nat): Lexeme {
    Lexeme(kind, [CharAt(data, at)], at, at + 1)
  }

  function Slice(kind: Kind, data: string, at: nat, end: nat): Lexeme
    requires at <= end <= |data|
  {
    Lexeme(kind, data[at..end], at, end)
  }

  /** The lexeme at offset `i`, which is not white space. */
  function Lex(data: string, i: nat): Lexeme {
    var c := CharAt(data, i);
    match c
    case '/' =>
      if CharAt(data, i + 1) == '/' then LexLineComment(data, i)
      else if CharAt(data, i + 1) == '*' then LexDocument(data, i)
      else One(QUO, data, i)
    case '-' => One(SUB, data, i)
    case '*' => One(MUL, data, i)
    case '(' => One(LPAREN, data, i)
    case '[' => One(LBRACK, data, i)
    case '{' => One(LBRACE, data, i)
    case ',' => One(COMMA, data, i)
    case '.' =>
      if CharAt(data, i + 1) != '.' then One(DOT, data, i)
      else if CharAt(data, i + 2) != '.' then One(DOT, data, i + 1)
      else Lexeme(ELLIPSIS, "...", i, i + 3)
    case ')' => One(RPAREN, data, i)
    case ']' => One(RBRACK, data, i)
    case '}' => One(RBRACE, data, i)
    case ';' => One(SEMICOLON, data, i)
    case ':' => One(COLON, data, i)
    case '=' => One(ASSIGN, data, i)
    case '@' => LexAt(data, i)
    case '"' => LexString(data, i, STRING)
    case '`' => LexString(data, i, RAW_STRING)
    case '\0' => Lexeme(EOF, "", 0, i)
    case _ =>
      if IsIdentLetter(c) then LexIdent(data, i)
      else if IsDigit(c) then LexNumber(data, i)
      else Illegal(data, i)
  }

  function LexLineComment(data: string, i: nat): Lexeme
    requires CharAt(data, i) == '/'
  {
    Slice(COMMENT, data, i, RunEnd(data, i, Until('\n')))
  }

  /** The comment ends at the first `/` that follows the first `*` of its body. */
  function LexDocument(data: string, i: nat): (l: Lexeme)
    requires CharAt(data, i) == '/' && CharAt(data, i + 1) == '*'
    ensures l.kind == DOCUMENT || l.kind == ERROR
  {
    var star := RunEnd(data, i + 2, Until('*'));
    if CharAt(data, star) == '\0' then Failed(star)
    else
      var slash := RunEnd(data, star + 1, Until('/'));
      if CharAt(data, slash) == '\0' then Failed(slash) else Slice(DOCUMENT, data, i, slash + 1)
  }

  function LexString(data: string, i: nat, kind: Kind): (l: Lexeme)
    requires CharAt(data, i) != '\0'
    ensures l.kind == kind || l.kind == ERROR
  {
    var close := RunEnd(data, i + 1, Until(data[i]));
    if CharAt(data, close) == '\0' then Failed(close) else Slice(kind, data, i, close + 1)
  }

  lemma StringAt(data: string, i: nat, kind: Kind)
    requires CharAt(data, i) != '\0'
    ensures var close := RunEnd(data, i + 1, Until(data[i]));
            LexString(data, i, kind) ==
            if CharAt(data, close) == '\0' then Failed(close) else Slice(kind, data, i, close + 1)
  {
    hide RunEnd;
  }

  function LexAt(data: string, i: nat): (l: Lexeme)
    requires CharAt(data, i) == '@'
    ensures l.kind in {ILLEGAL, ERROR, AT_HANDLER, AT_SERVER, AT_DOC}
  {
    var next := CharAt(data, i + 1);
    if !IsLetter(next) then
      if next == '\0' then Lexeme(ILLEGAL, "@", i, i) else Failed(i)
    else
      var e := RunEnd(data, i + 1, Letter);
      match data[i + 1..e]
      case "handler" => Lexeme(AT_HANDLER, "@handler", i, e)
      case "server" => Lexeme(AT_SERVER, "@server", i, e)
      case "doc" => Lexeme(AT_DOC, "@doc", i, e)
      case _ => Failed(e)
  }

  function LexIdent(data: string, i: nat): (l: Lexeme)
    requires IsIdentLetter(CharAt(data, i))
    ensures l.kind in {IDENT, KEY, ANY}
  {
    var e := RunEnd(data, i, Ident);
    if CharAt(data, e) == ':' then Slice(KEY, data, i, e + 1)
    else if data[i..e] == "interface" && CharAt(data, e) == '{' && CharAt(data, e + 1) == '}' then
      Slice(ANY, data, i, e + 2)
    else Slice(IDENT, data, i, e)
  }

  function LexNumber(data: string, i: nat): (l: Lexeme)
    requires IsDigit(CharAt(data, i))
    ensures l.kind in {INT, DURATION, ILLEGAL}
  {
    var e := RunEnd(data, i, Digit);
    if StartsUnit(CharAt(data, e)) then LexDuration(data, i, e, ABOVE_HOUR) else Slice(INT, data, i, e)
  }

  // Ranks of the duration units; the units of one literal must have falling ranks.
  const ABOVE_HOUR := 7
  const HOUR := 6
  const MINUTE := 5
  const SECOND := 4
  const MILLISECOND := 3
  const MICROSECOND := 2
  const NANOSECOND := 1

  /** The rest of a duration that began at `i`, from the unit at `j`, which must rank below `bound`. */
  function LexDuration(data: string, i: nat, j: nat, bound: nat): (l: Lexeme)
    requires i <= j <= |data|
    ensures l.kind == DURATION || l.kind == ILLEGAL
    decreases |data| - j
  {
    var c, next := CharAt(data, j), CharAt(data, j + 1);
    if c == 'h' && HOUR < bound then LexAfterUnit(data, i, j + 1, HOUR)
    else if c == 'm' && MINUTE < bound && next != 's' then LexAfterUnit(data, i, j + 1, MINUTE)
    else if c == 's' && SECOND < bound then LexAfterUnit(data, i, j + 1, SECOND)
    else if c == 'm' && MILLISECOND < bound then
      if next == 's' then LexAfterUnit(data, i, j + 2, MILLISECOND) else Illegal(data, j + 1)
    else if c == '\U{B5}' && MICROSECOND < bound then
      if next == 's' then LexAfterUnit(data, i, j + 2, MICROSECOND) else Illegal(data, j + 1)
    else if c == 'n' && NANOSECOND < bound then
      if next == 's' then Slice(DURATION, data, i, j + 2) else Illegal(data, j + 1)
    else Illegal(data, j)
  }

  /** The rest of a duration after a unit of the given rank that ends at `e`. */
  function LexAfterUnit(data: string, i: nat, e: nat, rank: nat): (l: Lexeme)
    requires i <= e <= |data|
    ensures l.kind == DURATION || l.kind == ILLEGAL
    decreases |data| - e
  {
    if IsDigit(CharAt(data, e)) then LexDuration(data, i, RunEnd(data, e, Digit), rank) else Slice(DURATION, data, i, e)
  }

  lemma AfterUnit(data: string, i: nat, e: nat, rank: nat)
    requires i <= e <= |data|
    ensures LexAfterUnit(data, i, e, rank) ==
            if IsDigit(CharAt(data, e)) then LexDuration(data, i, RunEnd(data, e, Digit), rank)
            else Slice(DURATION, data, i, e)
  {
    hide LexDuration, RunEnd;
  }

  lemma Seconds(data: string, i: nat, j: nat, bound: nat)
    requires i <= j < |data| && data[j] == 's' && SECOND < bound
    ensures LexDuration(data, i, j, bound) == LexAfterUnit(data, i, j + 1, SECOND)
  {
  }

  /** After minutes or seconds an `m` can only begin milliseconds. */
  lemma OnlyMilliseconds(data: string, i: nat, j: nat, bound: nat)
    requires i <= j <= |data| && SECOND <= bound <= MINUTE
    ensures CharAt(data, j) == 'm' ==>
              LexDuration(data, i, j, bound) ==
              if CharAt(data, j + 1) == 's' then LexAfterUnit(data, i, j + 2, MILLISECOND) else Illegal(data, j + 1)
    ensures CharAt(data, j) !in {'m', 's', '\U{B5}', 'n'} || (CharAt(data, j) == 's' && bound == SECOND) ==>
              LexDuration(data, i, j, bound) == Illegal(data, j)
  {
  }

  /** The position that an offset has when the newline table is `lines`. */
  function PositionAt(file: string, lines: seq<int>, offset: int): Position
    requires |lines| > 0
  {
    Position(file, |lines|, offset - lines[|lines| - 1])
  }

  /** The token of a lexeme: end of input and errors carry no position. */
  function TokenOf(file: string, lines: seq<int>, l: Lexeme): Token
    requires |lines| > 0
  {
    if l.kind == EOF then EOF_TOKEN
    else if l.kind == ERROR then ERROR_TOKEN
    else Token(l.kind, l.text, PositionAt(file, lines, l.at))
  }

  /** The scanner's state between two calls. */
  datatype Cursor = Cursor(pos: nat, lines: seq<int>)

  /** The newline table is never empty and lists offsets before the cursor. */
  predicate CursorOk(c: Cursor) {
    && |c.lines| > 0
    && (forall k :: 0 <= k < |c.lines| ==> -1 <= c.lines[k] < c.pos)
  }

  const START := Cursor(0, [-1])

  /** Where the token of a call made at `c` starts. */
  function TokenStart(data: string, c: Cursor): nat {
    RunEnd(data, c.pos, Space)
  }

  function NextLexeme(data: string, c: Cursor): Lexeme {
    Lex(data, TokenStart(data, c))
  }

  function NextCursor(data: string, c: Cursor): Cursor {
    var w := TokenStart(data, c);
    Cursor(Lex(data, w).end, c.lines + Newlines(data, c.pos, w))
  }

  function NextToken(file: string, data: string, c: Cursor): Token
    requires |c.lines| > 0
  {
    TokenOf(file, NextCursor(data, c).lines, NextLexeme(data, c))
  }
}
