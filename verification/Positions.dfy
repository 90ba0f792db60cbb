/** Where tokens stand: on which line of the source, and in which column of that line. */
module Positions {
  import opened Tokens
  import opened Lexis
  import opened Grammar
  import opened Source

  // ---- newlines ----------------------------------------------------------------------------------------

  /** Where the newlines before an offset are. */
  function NewlinesBefore(data: string, e: nat): set<nat> {
    set k: nat | k < e && CharAt(data, k) == '\n'
  }

  /** The newline before an offset that no other lies behind, or `-1`. */
  predicate IsLineStart(data: string, from: int, e: nat) {
    && -1 <= from < e && (from >= 0 ==> CharAt(data, from) == '\n')
    && forall k: nat :: from < k < e ==> CharAt(data, k) != '\n'
  }

  lemma {:induction false} NewlinesAreAll(data: string, e: nat)
    ensures |Newlines(data, 0, e)| == |NewlinesBefore(data, e)|
  {
    if e == 0 {
      assert NewlinesBefore(data, 0) == {};
    } else {
      NewlinesAreAll(data, e - 1);
      if CharAt(data, e - 1) == '\n' {
        assert NewlinesBefore(data, e) == NewlinesBefore(data, e - 1) + {e - 1};
      } else {
        assert NewlinesBefore(data, e) == NewlinesBefore(data, e - 1);
      }
    }
  }

  lemma {:induction false} LastIsLineStart(data: string, e: nat)
    ensures var table := [-1] + Newlines(data, 0, e); IsLineStart(data, table[|table| - 1], e)
  {
    if e == 0 {
    } else {
      LastIsLineStart(data, e - 1);
    }
  }

  lemma {:induction false} NoneBetween(data: string, a: nat, b: nat)
    requires a <= b && forall k: nat :: a <= k < b ==> CharAt(data, k) != '\n'
    ensures Newlines(data, a, b) == []
    decreases b - a
  {
    if a == b {
    } else {
      NoneBetween(data, a, b - 1);
    }
  }

  // ---- offsets reported --------------------------------------------------------------------------------

  /** No newline lies between the two offsets. */
  predicate OneLine(data: string, a: nat, b: nat) {
    a <= b && forall k: nat :: a <= k < b ==> CharAt(data, k) != '\n'
  }

  lemma OneLineJoin(data: string, a: nat, b: nat, c: nat)
    requires OneLine(data, a, b) && OneLine(data, b, c)
    ensures OneLine(data, a, c)
  {
  }

  lemma DigitsOneLine(data: string, a: nat)
    requires a <= |data|
    ensures OneLine(data, a, RunEnd(data, a, Digit))
  {
    RunIsAll(data, a, Digit);
  }

  /** A unit of one letter or two. */
  lemma UnitOneLine(data: string, j: nat)
    requires StartsUnit(CharAt(data, j))
    ensures OneLine(data, j, j + 1) && (CharAt(data, j + 1) == 's' ==> OneLine(data, j, j + 2))
  {
  }

  lemma {:induction false} DurationAt(data: string, i: nat, j: nat, bound: nat)
    requires i <= j <= |data| && OneLine(data, i, j)
    ensures OneLine(data, i, LexDuration(data, i, j, bound).at)
    decreases |data| - j
  {
    hide RunEnd, OneLine, LexAfterUnit;
    OneLineHere(data, i);
    if StartsUnit(CharAt(data, j)) {
      UnitOneLine(data, j);
      OneLineJoin(data, i, j, j + 1);
      AfterUnitAt(data, i, j + 1);
      if CharAt(data, j + 1) == 's' {
        OneLineJoin(data, i, j, j + 2);
        if j + 2 <= |data| {
          AfterUnitAt(data, i, j + 2);
        }
      }
    }
  }

  lemma OneLineHere(data: string, i: nat)
    ensures OneLine(data, i, i)
  {
  }

  lemma {:induction false} AfterUnitAt(data: string, i: nat, e: nat)
    requires i <= e <= |data| && OneLine(data, i, e) && i < e
    ensures forall rank: nat :: OneLine(data, i, LexAfterUnit(data, i, e, rank).at)
    decreases |data| - e
  {
    hide OneLine, LexDuration;
    OneLineHere(data, i);
    if IsDigit(CharAt(data, e)) {
      DigitsOneLine(data, e);
      OneLineJoin(data, i, e, RunEnd(data, e, Digit));
      forall rank: nat
        ensures OneLine(data, i, LexAfterUnit(data, i, e, rank).at)
      {
        DurationAt(data, i, RunEnd(data, e, Digit), rank);
      }
    }
  }

  /** A token is reported where it starts, or behind a dot, or in a number that is no duration: on the line it is on. */
  lemma ReportedOnItsLine(data: string, i: nat)
    requires Lex(data, i).kind != EOF && Lex(data, i).kind != ERROR
    ensures OneLine(data, i, Lex(data, i).at)
  {
    hide LexDuration, LexIdent, LexDocument, LexString;
    Extent(data, i);
    if IsDigit(CharAt(data, i)) {
      var e := RunEnd(data, i, Digit);
      DigitsOneLine(data, i);
      if StartsUnit(CharAt(data, e)) {
        DurationAt(data, i, e, ABOVE_HOUR);
      }
    }
  }

  // ---- positions ---------------------------------------------------------------------------------------

  /** The line is that of the offset, counted from one, and the column the distance to the newline before it. */
  ghost predicate IsReal(data: string, p: Position, at: nat) {
    p.line == 1 + |NewlinesBefore(data, at)| && IsLineStart(data, at - p.column, at)
  }

  /** The newline table, when a token is read, lists the newlines before the offset where it is reported. */
  lemma TableIs(data: string, n: nat)
    requires var l := NextLexeme(data, After(data, START, n));
             l.kind != EOF && l.kind != ERROR && NoneSpans(data, START, n)
    ensures var d := After(data, START, n);
            NextCursor(data, d).lines == [-1] + Newlines(data, 0, NextLexeme(data, d).at)
  {
    hide After, NoneSpans, Lex, Newlines, RunEnd;
    var d := After(data, START, n);
    var w, l := TokenStart(data, d), NextLexeme(data, d);
    LinesCounted(data, START, n);
    ReportedOnItsLine(data, w);
    NoneBetween(data, w, l.at);
    NewlinesSplit(data, 0, d.pos, w, l.at);
    Regroup([-1], Newlines(data, 0, d.pos), Newlines(data, d.pos, w));
  }

  lemma Regroup(a: seq<int>, b: seq<int>, c: seq<int>)
    ensures (a + b) + c == a + (b + c) && (b + c) + [] == b + c
  {
  }

  /** If no token before it spans a newline, a token has its line and its column in the source. */
  lemma PositionsAreReal(file: string, data: string, n: nat)
    requires var d := After(data, START, n); NoneSpans(data, START, n) && HasPosition(NextToken(file, data, d))
    ensures var d := After(data, START, n);
            var t, at := NextToken(file, data, d).position, NextLexeme(data, d).at;
            t.file == file && IsReal(data, t, at)
  {
    hide After, NoneSpans, Lex, Newlines, NextCursor, IsLineStart, NewlinesBefore;
    TableIs(data, n);
    var at := NextLexeme(data, After(data, START, n)).at;
    NewlinesAreAll(data, at);
    LastIsLineStart(data, at);
  }
}
