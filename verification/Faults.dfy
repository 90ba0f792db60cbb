/** What the scanner cannot read: exactly which beginnings are errors, and which are illegal. */
module Faults {
  import opened Tokens
  import opened Lexis
  import opened Grammar
  import opened Source

  /** There is no `stop` from `i` on, up to a NUL or the end. */
  predicate NoneAhead(data: string, i: nat, stop: char) {
    forall k: nat :: i <= k < |data| && data[k] == stop ==> exists j: nat :: i <= j < k && data[j] == '\0'
  }

  /** The end of the run up to `stop` is the end of the input exactly if there is no `stop` ahead. */
  lemma {:induction false} RunToEnd(data: string, i: nat, stop: char)
    requires stop != '\0'
    ensures CharAt(data, RunEnd(data, i, Until(stop))) == '\0' <==> NoneAhead(data, i, stop)
    decreases |data| - i
  {
    var e := RunEnd(data, i, Until(stop));
    if i >= |data| {
    } else if data[i] == stop {
      assert RunEnd(data, i, Until(stop)) == i;
    } else if data[i] == '\0' {
      assert RunEnd(data, i, Until(stop)) == i;
    } else {
      RunToEnd(data, i + 1, stop);
      assert e == RunEnd(data, i + 1, Until(stop));
      if NoneAhead(data, i + 1, stop) {
        forall k: nat | i <= k < |data| && data[k] == stop
          ensures exists j: nat :: i <= j < k && data[j] == '\0'
        {
          var j: nat :| i + 1 <= j < k && data[j] == '\0';
        }
      } else {
        var k: nat :| i + 1 <= k < |data| && data[k] == stop && !exists j: nat :: i + 1 <= j < k && data[j] == '\0';
        assert forall j: nat :: i <= j < k ==> j == i || data[j] != '\0';
      }
    }
  }

  /** A comment in slashes and stars that does not end: no star is ahead, or behind the first one no slash. */
  ghost predicate Unended(data: string, i: nat) {
    || NoneAhead(data, i, '*')
    || exists star: nat :: IsFirstStar(data, i, star) && NoneAhead(data, star + 1, '/')
  }

  predicate IsFirstStar(data: string, i: nat, star: nat) {
    i <= star < |data| && data[star] == '*' && forall k: nat :: i <= k < star ==> data[k] != '*' && data[k] != '\0'
  }

  lemma FirstStar(data: string, i: nat)
    requires CharAt(data, RunEnd(data, i, Until('*'))) != '\0'
    ensures IsFirstStar(data, i, RunEnd(data, i, Until('*')))
    ensures forall star: nat :: IsFirstStar(data, i, star) ==> star == RunEnd(data, i, Until('*'))
  {
    RunIsAll(data, i, Until('*'));
  }

  /** An `@` with neither a letter nor the end behind it, or with letters that are none of the words. */
  predicate UnknownWord(data: string, i: nat) {
    var next := CharAt(data, i + 1);
    if !IsLetter(next) then next != '\0'
    else
      forall e: nat :: i + 1 < e <= |data| && AllIn(data, i + 1, e, Letter) && !IsLetter(CharAt(data, e)) ==>
        data[i + 1..e] != "handler" && data[i + 1..e] != "server" && data[i + 1..e] != "doc"
  }

  /** What is an error. */
  ghost predicate Unreadable(data: string, i: nat) {
    match CharAt(data, i)
    case '"' => NoneAhead(data, i + 1, '"')
    case '`' => NoneAhead(data, i + 1, '`')
    case '/' => CharAt(data, i + 1) == '*' && Unended(data, i + 2)
    case '@' => UnknownWord(data, i)
    case _ => false
  }

  lemma StringFails(data: string, i: nat, kind: Kind)
    requires (CharAt(data, i) == '"' || CharAt(data, i) == '`') && kind != ERROR
    ensures LexString(data, i, kind).kind == ERROR <==> NoneAhead(data, i + 1, data[i])
  {
    hide RunEnd, NoneAhead;
    RunToEnd(data, i + 1, data[i]);
  }

  lemma DocumentFails(data: string, i: nat)
    requires CharAt(data, i) == '/' && CharAt(data, i + 1) == '*'
    ensures LexDocument(data, i).kind == ERROR <==> Unended(data, i + 2)
  {
    hide RunEnd, NoneAhead, IsFirstStar;
    var star := RunEnd(data, i + 2, Until('*'));
    RunToEnd(data, i + 2, '*');
    if CharAt(data, star) != '\0' {
      FirstStar(data, i + 2);
      RunToEnd(data, star + 1, '/');
    }
  }

  lemma AtFails(data: string, i: nat)
    requires CharAt(data, i) == '@'
    ensures LexAt(data, i).kind == ERROR <==> UnknownWord(data, i)
  {
    if IsLetter(CharAt(data, i + 1)) {
      var e := RunEnd(data, i + 1, Letter);
      RunIsAll(data, i + 1, Letter);
      RunStep(data, i + 1, Letter);
      forall f: nat | i + 1 < f <= |data| && AllIn(data, i + 1, f, Letter) && !IsLetter(CharAt(data, f))
        ensures f == e
      {
        RunEndIs(data, i + 1, f, Letter);
      }
    }
  }

  /** The scanner fails exactly at strings and comments that do not end, and at `@` with no word that it knows. */
  lemma ErrorExact(data: string, i: nat)
    ensures Lex(data, i).kind == ERROR <==> Unreadable(data, i)
  {
    hide LexString, LexDocument, LexAt, LexNumber, LexIdent, NoneAhead, Unended, UnknownWord;
    var c := CharAt(data, i);
    if c == '"' {
      StringFails(data, i, STRING);
    } else if c == '`' {
      StringFails(data, i, RAW_STRING);
    } else if c == '/' && CharAt(data, i + 1) == '*' {
      DocumentFails(data, i);
    } else if c == '@' {
      AtFails(data, i);
    }
  }
}
