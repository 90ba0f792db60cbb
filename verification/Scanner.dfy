/** The scanner: a cursor over the runes of one file, advanced in place by every scan method. */
module Scanner {
  import opened Tokens
  import opened Lexis
  import opened DataTypes
  import Source

  datatype Mode =
    | InitMode
    | DocumentHalfOpen | DocumentOpen | DocumentHalfClose
    | StringOpen

  class Scanner {
    const filename: string
    const data: string
    var position: nat
    var readPosition: nat
    var ch: char
    var lines: seq<int>

    /** The cursor fields agree with each other, and there is a line. */
    predicate AtRune()
      reads this
    {
      readPosition == position + 1 && ch == CharAt(data, position) && |lines| > 0
    }

    ghost predicate Valid()
      reads this
    {
      AtRune() && CursorOk(State())
    }

    /** The state as a value, for the functions of module Lexis. */
    function State(): Cursor
      reads this
    {
      Cursor(position, lines)
    }

    /** The scan that began in the old state read lexeme `l`, reports it as `tok`, and moved past it. */
    twostate predicate Reads(new l: Lexeme, new tok: Token)
      reads this
    {
      && AtRune()
      && lines == old(lines)
      && position == l.end
      && tok == TokenOf(filename, lines, l)
    }

    /** A scanner of the source, unless that is empty. */
    static method New(filename: string, data: string) returns (s: Option<Scanner>)
      ensures s.None? <==> data == ""
      ensures s.Some? ==> fresh(s.value) && s.value.Valid() && s.value.State() == START
      ensures s.Some? ==> s.value.filename == filename && s.value.data == data
    {
      if |data| == 0 {
        return None;
      }
      var scanner := new Scanner(filename, data);
      s := Some(scanner);
    }

    constructor (filename: string, data: string)
      ensures Valid() && State() == START
      ensures this.filename == filename && this.data == data
    {
      this.filename, this.data := filename, data;
      ch, position, readPosition, lines := CharAt(data, 0), 0, 1, [-1];
    }

    /** Reads one token; `ok` is false exactly when the scanner reports an error. */
    method NextToken() returns (tok: Token, ok: bool)
      requires Valid()
      modifies this
      ensures Valid()
      ensures State() == NextCursor(data, old(State()))
      ensures tok == Lexis.NextToken(filename, data, old(State()))
      ensures ok == (tok.kind != ERROR)
    {
      Source.FirstPosition(filename, data, State());
      SkipWhiteSpace();
      tok, ok := ScanToken();
    }

    method ScanToken() returns (tok: Token, ok: bool)
      requires AtRune()
      modifies this
      ensures Reads(Lex(data, old(position)), tok)
      ensures ok == (tok.kind != ERROR)
    {
      hide LexIdent, LexNumber, LexString, LexDocument, LexAt, LexLineComment;
      ok := true;
      match ch
      case '/' =>
        if PeekRune() == '/' {
          tok := ScanLineComment();
        } else if PeekRune() == '*' {
          tok, ok := ScanDocument();
        } else {
          tok := NewToken(QUO);
        }
      case '-' => tok := NewToken(SUB);
      case '*' => tok := NewToken(MUL);
      case '(' => tok := NewToken(LPAREN);
      case '[' => tok := NewToken(LBRACK);
      case '{' => tok := NewToken(LBRACE);
      case ',' => tok := NewToken(COMMA);
      case '.' => tok := ScanDots();
      case ')' => tok := NewToken(RPAREN);
      case ']' => tok := NewToken(RBRACK);
      case '}' => tok := NewToken(RBRACE);
      case ';' => tok := NewToken(SEMICOLON);
      case ':' => tok := NewToken(COLON);
      case '=' => tok := NewToken(ASSIGN);
      case '@' => tok, ok := ScanAt();
      case '"' => tok, ok := ScanString('"', STRING);
      case '`' => tok, ok := ScanString('`', RAW_STRING);
      case '\0' => tok := EOF_TOKEN;
      case _ =>
        if IsIdentLetter(ch) {
          tok := ScanIdent();
        } else if IsDigit(ch) {
          tok := ScanIntOrDuration();
        } else {
          tok := IllegalToken();
        }
    }

    method NewToken(kind: Kind) returns (tok: Token)
      requires AtRune() && kind != EOF && kind != ERROR
      modifies this`position, this`readPosition, this`ch
      ensures Reads(One(kind, data, old(position)), tok)
    {
      tok := Token(kind, [ch], NewPosition(position));
      ReadRune();
    }

    method ReadRune()
      requires AtRune()
      modifies this`position, this`readPosition, this`ch
      ensures AtRune() && position == old(position) + 1
    {
      if readPosition >= |data| {
        ch := '\0';
      } else {
        ch := data[readPosition];
      }
      position := readPosition;
      readPosition := readPosition + 1;
    }

    function PeekRune(): char
      reads this
    {
      if readPosition >= |data| then '\0' else data[readPosition]
    }

    function NewPosition(offset: int): Position
      requires |lines| > 0
      reads this
    {
      PositionAt(filename, lines, offset)
    }

    /** The token whose text is what was read since offset `start`. */
    function TokenSince(kind: Kind, start: nat): Token
      requires start <= position <= |data| && |lines| > 0
      reads this
    {
      Token(kind, data[start..position], NewPosition(start))
    }

    method ReadRun(c: Class)
      requires AtRune()
      modifies this`position, this`readPosition, this`ch
      ensures AtRune() && position == RunEnd(data, old(position), c)
    {
      while c.Has(ch)
        invariant AtRune()
        invariant RunEnd(data, position, c) == RunEnd(data, old(position), c)
        decreases |data| - position
      {
        ReadRune();
      }
    }

    method SkipWhiteSpace()
      requires AtRune()
      modifies this
      ensures AtRune()
      ensures position == RunEnd(data, old(position), Space)
      ensures lines == old(lines) + Newlines(data, old(position), position)
    {
      var space := IsWhiteSpace(ch);
      while space
        invariant AtRune() && old(position) <= position
        invariant space == IsSpace(ch)
        invariant RunEnd(data, position, Space) == RunEnd(data, old(position), Space)
        invariant space ==> lines == old(lines) + Newlines(data, old(position), position + 1)
        invariant !space ==> lines == old(lines) + Newlines(data, old(position), position)
        decreases |data| - position, space
      {
        ReadRune();
        space := IsWhiteSpace(ch);
      }
    }

    /** Tests a rune, and as a side effect notes the cursor in the newline table. */
    method IsWhiteSpace(b: char) returns (space: bool)
      modifies this`lines
      ensures space == IsSpace(b)
      ensures lines == old(lines) + if b == '\n' then [position] else []
    {
      if b == '\n' {
        lines := lines + [position];
      }
      space := IsSpace(b);
    }

    method ScanLineComment() returns (tok: Token)
      requires AtRune() && ch == '/'
      modifies this`position, this`readPosition, this`ch
      ensures Reads(LexLineComment(data, old(position)), tok) && tok.kind == COMMENT
    {
      var start := position;
      ReadRun(Until('\n'));
      tok := TokenSince(COMMENT, start);
    }

    method ScanDots() returns (tok: Token)
      requires AtRune() && ch == '.'
      modifies this`position, this`readPosition, this`ch
      ensures Reads(Lex(data, old(position)), tok)
    {
      var start := position;
      if PeekRune() != '.' {
        tok := NewToken(DOT);
      } else {
        ReadRune();
        if PeekRune() != '.' {
          tok := NewToken(DOT);
        } else {
          ReadRune();
          ReadRune();
          tok := Token(ELLIPSIS, "...", NewPosition(start));
        }
      }
    }

    method ScanDocument() returns (tok: Token, ok: bool)
      requires AtRune() && ch == '/' && PeekRune() == '*'
      modifies this`position, this`readPosition, this`ch
      ensures Reads(LexDocument(data, old(position)), tok)
      ensures ok == (tok.kind != ERROR)
    {
      hide RunEnd;
      var start := position;
      var mode := InitMode;
      ghost var star := RunEnd(data, start + 2, Until('*'));
      while true
        invariant AtRune() && start <= position <= |data|
        invariant mode == InitMode ==> position == start
        invariant mode == DocumentHalfOpen ==> position == start + 1
        invariant mode == DocumentOpen ==> start + 2 <= position && RunEnd(data, position, Until('*')) == star
        invariant mode == DocumentHalfClose ==>
                    && star < position && CharAt(data, star) == '*'
                    && RunEnd(data, position, Until('/')) == RunEnd(data, star + 1, Until('/'))
        invariant mode != StringOpen
        decreases |data| - position
      {
        RunStep(data, position, Until('*'));
        RunStep(data, position, Until('/'));
        match ch {
          case '*' =>
            if mode == DocumentHalfOpen {
              mode := DocumentOpen;
            } else if mode == DocumentOpen || mode == DocumentHalfClose {
              mode := DocumentHalfClose;
            }
          case '\0' =>
            return ERROR_TOKEN, false;
          case '/' =>
            if mode == InitMode {
              mode := DocumentHalfOpen;
            } else if mode == DocumentHalfClose {
              ReadRune();
              return TokenSince(DOCUMENT, start), true;
            }
          case _ =>
        }
        ReadRune();
      }
    }

    method ScanString(delim: char, kind: Kind) returns (tok: Token, ok: bool)
      requires AtRune() && ch == delim && delim != '\0' && kind != EOF && kind != ERROR
      modifies this`position, this`readPosition, this`ch
      ensures Reads(LexString(data, old(position), kind), tok)
      ensures ok == (tok.kind != ERROR)
    {
      hide RunEnd, LexString;
      var start := position;
      var mode := InitMode;
      StringAt(data, start, kind);
      while true
        invariant AtRune() && start <= position <= |data|
        invariant mode == InitMode || mode == StringOpen
        invariant mode == InitMode ==> position == start
        invariant mode == StringOpen ==>
                    start < position && RunEnd(data, position, Until(delim)) == RunEnd(data, start + 1, Until(delim))
        decreases |data| - position
      {
        RunStep(data, position, Until(delim));
        if ch == delim {
          if mode == InitMode {
            mode := StringOpen;
          } else {
            ReadRune();
            return TokenSince(kind, start), true;
          }
        } else if ch == '\0' {
          return ERROR_TOKEN, false;
        }
        ReadRune();
      }
    }

    method ScanAt() returns (tok: Token, ok: bool)
      requires AtRune() && ch == '@'
      modifies this`position, this`readPosition, this`ch
      ensures Reads(LexAt(data, old(position)), tok)
      ensures ok == (tok.kind != ERROR)
    {
      var start := position;
      var peek := PeekRune();
      if !IsLetter(peek) {
        if peek == '\0' {
          return Token(ILLEGAL, [ch], NewPosition(position)), true;
        }
        return ERROR_TOKEN, false;
      }
      ReadRune();
      var letters := ScanLetterSet();
      match letters
      case "handler" => return Token(AT_HANDLER, "@handler", NewPosition(start)), true;
      case "server" => return Token(AT_SERVER, "@server", NewPosition(start)), true;
      case "doc" => return Token(AT_DOC, "@doc", NewPosition(start)), true;
      case _ => return ERROR_TOKEN, false;
    }

    method ScanLetterSet() returns (letters: string)
      requires AtRune() && position <= |data|
      modifies this`position, this`readPosition, this`ch
      ensures AtRune() && position == RunEnd(data, old(position), Letter)
      ensures letters == data[old(position)..position]
    {
      var start := position;
      ReadRun(Letter);
      letters := data[start..position];
    }

    method ScanIdent() returns (tok: Token)
      requires AtRune() && IsIdentLetter(ch)
      modifies this`position, this`readPosition, this`ch
      ensures Reads(LexIdent(data, old(position)), tok)
    {
      hide IsIdentLetter, RunEnd;
      RunStep(data, position, Ident);
      var start := position;
      ReadRun(Ident);
      var ident := data[start..position];
      if ch == ':' {
        ReadRune();
        return TokenSince(KEY, start);
      }
      if ident == "interface" && ch == '{' && PeekRune() == '}' {
        ReadRune();
        ReadRune();
        return TokenSince(ANY, start);
      }
      return Token(IDENT, ident, NewPosition(start));
    }

    method ScanIntOrDuration() returns (tok: Token)
      requires AtRune() && IsDigit(ch)
      modifies this`position, this`readPosition, this`ch
      ensures Reads(LexNumber(data, old(position)), tok)
    {
      var start := position;
      ReadRun(Digit);
      if StartsUnit(ch) {
        tok := ScanDuration(start);
      } else {
        tok := TokenSince(INT, start);
      }
    }

    method ScanDuration(start: nat) returns (tok: Token)
      requires AtRune() && start <= position <= |data|
      modifies this`position, this`readPosition, this`ch
      ensures Reads(LexDuration(data, start, old(position), ABOVE_HOUR), tok)
    {
      match ch
      case 'n' => tok := ScanNanosecond(start, ABOVE_HOUR);
      case '\U{B5}' => tok := ScanMicrosecond(start, ABOVE_HOUR);
      case 'm' => tok := ScanMillisecondOrMinute(start, ABOVE_HOUR);
      case 's' => tok := ScanSecond(start, ABOVE_HOUR);
      case 'h' => tok := ScanHour(start);
      case _ => tok := IllegalToken();
    }

    method ScanNanosecond(start: nat, ghost bound: nat) returns (tok: Token)
      requires AtRune() && start <= position <= |data| && ch == 'n' && NANOSECOND < bound
      modifies this`position, this`readPosition, this`ch
      ensures Reads(LexDuration(data, start, old(position), bound), tok)
    {
      ReadRune();
      if ch != 's' {
        tok := IllegalToken();
        return;
      }
      ReadRune();
      return TokenSince(DURATION, start);
    }

    method ScanMicrosecond(start: nat, ghost bound: nat) returns (tok: Token)
      requires AtRune() && start <= position <= |data| && ch == '\U{B5}' && MICROSECOND < bound
      modifies this`position, this`readPosition, this`ch
      ensures Reads(LexDuration(data, start, old(position), bound), tok)
    {
      ReadRune();
      if ch != 's' {
        tok := IllegalToken();
        return;
      }
      ReadRune();
      if !IsDigit(ch) {
        return TokenSince(DURATION, start);
      }
      ReadRun(Digit);
      assert LexDuration(data, start, old(position), bound) == LexDuration(data, start, position, MICROSECOND);
      if ch != 'n' {
        tok := IllegalToken();
        return;
      }
      tok := ScanNanosecond(start, MICROSECOND);
    }

    method ScanMillisecondOrMinute(start: nat, ghost bound: nat) returns (tok: Token)
      requires AtRune() && start <= position <= |data| && ch == 'm' && MINUTE < bound
      modifies this`position, this`readPosition, this`ch
      ensures Reads(LexDuration(data, start, old(position), bound), tok)
    {
      ReadRune();
      if ch != 's' {
        if ch == '\0' || !IsDigit(ch) {
          return TokenSince(DURATION, start);
        }
        tok := ScanMinute(start);
      } else {
        tok := ScanMillisecond(start);
      }
    }

    method ScanMillisecond(start: nat) returns (tok: Token)
      requires AtRune() && start <= position <= |data| && ch == 's'
      modifies this`position, this`readPosition, this`ch
      ensures Reads(LexAfterUnit(data, start, old(position) + 1, MILLISECOND), tok)
    {
      ReadRune();
      if !IsDigit(ch) {
        return TokenSince(DURATION, start);
      }
      ReadRun(Digit);
      assert LexAfterUnit(data, start, old(position) + 1, MILLISECOND) ==
             LexDuration(data, start, position, MILLISECOND);
      match ch
      case 'n' => tok := ScanNanosecond(start, MILLISECOND);
      case '\U{B5}' => tok := ScanMicrosecond(start, MILLISECOND);
      case _ => tok := IllegalToken();
    }

    /** After `m` where minutes may not stand. */
    method ScanOnlyMillisecond(start: nat) returns (tok: Token)
      requires AtRune() && start <= position <= |data| && ch == 'm'
      modifies this`position, this`readPosition, this`ch
      ensures Reads(
                if CharAt(data, old(position) + 1) == 's' then LexAfterUnit(data, start, old(position) + 2, MILLISECOND)
                else Illegal(data, old(position) + 1), tok)
    {
      ReadRune();
      if ch != 's' {
        tok := IllegalToken();
        return;
      }
      tok := ScanMillisecond(start);
    }

    method ScanSecond(start: nat, ghost bound: nat) returns (tok: Token)
      requires AtRune() && start <= position <= |data| && ch == 's' && SECOND < bound
      modifies this`position, this`readPosition, this`ch
      ensures Reads(LexDuration(data, start, old(position), bound), tok)
    {
      hide LexDuration, LexAfterUnit, RunEnd, IsDigit;
      Seconds(data, start, position, bound);
      AfterUnit(data, start, position + 1, SECOND);
      ReadRune();
      if !IsDigit(ch) {
        return TokenSince(DURATION, start);
      }
      ReadRun(Digit);
      assert LexDuration(data, start, old(position), bound) == LexDuration(data, start, position, SECOND);
      OnlyMilliseconds(data, start, position, SECOND);
      match ch
      case 'n' => tok := ScanNanosecond(start, SECOND);
      case '\U{B5}' => tok := ScanMicrosecond(start, SECOND);
      case 'm' => tok := ScanOnlyMillisecond(start);
      case _ => tok := IllegalToken();
    }

    method ScanMinute(start: nat) returns (tok: Token)
      requires AtRune() && start <= position <= |data|
      modifies this`position, this`readPosition, this`ch
      ensures Reads(LexAfterUnit(data, start, old(position), MINUTE), tok)
    {
      hide LexDuration, LexAfterUnit, RunEnd, IsDigit;
      AfterUnit(data, start, position, MINUTE);
      if !IsDigit(ch) {
        return TokenSince(DURATION, start);
      }
      ReadRun(Digit);
      assert LexAfterUnit(data, start, old(position), MINUTE) == LexDuration(data, start, position, MINUTE);
      OnlyMilliseconds(data, start, position, MINUTE);
      match ch
      case 'n' => tok := ScanNanosecond(start, MINUTE);
      case '\U{B5}' => tok := ScanMicrosecond(start, MINUTE);
      case 'm' => tok := ScanOnlyMillisecond(start);
      case 's' => tok := ScanSecond(start, MINUTE);
      case _ => tok := IllegalToken();
    }

    method ScanHour(start: nat) returns (tok: Token)
      requires AtRune() && start <= position <= |data| && ch == 'h'
      modifies this`position, this`readPosition, this`ch
      ensures Reads(LexDuration(data, start, old(position), ABOVE_HOUR), tok)
    {
      hide RunEnd, IsDigit;
      ReadRune();
      if !IsDigit(ch) {
        return TokenSince(DURATION, start);
      }
      ReadRun(Digit);
      assert LexDuration(data, start, old(position), ABOVE_HOUR) == LexDuration(data, start, position, HOUR);
      match ch
      case 'n' => tok := ScanNanosecond(start, HOUR);
      case '\U{B5}' => tok := ScanMicrosecond(start, HOUR);
      case 'm' => tok := ScanMillisecondOrMinute(start, HOUR);
      case 's' => tok := ScanSecond(start, HOUR);
      case _ => tok := IllegalToken();
    }

    method IllegalToken() returns (tok: Token)
      requires AtRune()
      modifies this`position, this`readPosition, this`ch
      ensures Reads(Illegal(data, old(position)), tok)
    {
      tok := Token(ILLEGAL, [ch], NewPosition(position));
      ReadRune();
    }
  }
}
