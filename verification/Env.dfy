/** The environment file: the lines written for a sorted map, and the map read back from them. */
module Env {
  import opened DataTypes
  import opened SortedMap

  /** The lines of a text; a text without newlines is one line. */
  function Split(text: string): seq<string> {
    var i := Index(text, '\n');
    if i == -1 then [text] else [text[..i]] + Split(text[i + 1..])
  }

  function Join(lines: seq<string>): string {
    if lines == [] then "" else if |lines| == 1 then lines[0] else lines[0] + "\n" + Join(lines[1..])
  }

  lemma {:induction false} SplitUndoesJoin(lines: seq<string>)
    requires lines != [] && forall line <- lines :: '\n' !in line
    ensures Split(Join(lines)) == lines
  {
    var first, rest, text := lines[0], lines[1..], Join(lines);
    assert first in lines && Index(first, '\n') == -1;
    if |lines| == 1 {
      assert lines == [first];
    } else {
      assert text == first + ['\n'] + Join(rest);
      IndexIs(first, '\n', Join(rest));
      assert text[..|first|] == first && text[|first| + 1..] == Join(rest);
      SplitUndoesJoin(rest);
    }
  }

  /** The entries that the lines set, one after the other; lines that are no expression are skipped. */
  function ReadLines(lines: seq<string>): seq<Entry> {
    if lines == [] then [] else PutExpression(ReadLines(lines[..|lines| - 1]), lines[|lines| - 1])
  }

  /** A line that is no expression can be taken out anywhere without a change, so that reading goes on behind it. */
  lemma {:induction false} LineIsSkipped(a: seq<string>, line: string, b: seq<string>)
    requires ParseExpression(line).None?
    ensures ReadLines(a + [line] + b) == ReadLines(a + b)
    decreases |b|
  {
    hide PutExpression;
    if b == [] {
      assert (a + [line] + b)[..|a|] == a && a + b == a;
      NothingPut(ReadLines(a), line);
    } else {
      var init, last := b[..|b| - 1], b[|b| - 1];
      LineIsSkipped(a, line, init);
      LastLine(a + [line] + init, last);
      LastLine(a + init, last);
      assert a + [line] + b == a + [line] + init + [last] && a + b == a + init + [last];
    }
  }

  lemma NothingPut(list: seq<Entry>, line: string)
    requires ParseExpression(line).None?
    ensures PutExpression(list, line) == list
  {
  }

  lemma LastLine(lines: seq<string>, line: string)
    ensures ReadLines(lines + [line]) == PutExpression(ReadLines(lines), line)
  {
    assert (lines + [line])[..|lines|] == lines;
  }

  /** Is the line an expression for that key? */
  predicate Sets(line: string, key: string) {
    ParseExpression(line).Some? && ParseExpression(line).value.0 == key
  }

  /** Line `i` is the last for that key. */
  predicate LastFor(lines: seq<string>, key: string, i: nat) {
    i < |lines| && Sets(lines[i], key) && forall j :: i < j < |lines| ==> !Sets(lines[j], key)
  }

  /** What is read for a key is what the last line for it says, and nothing if there is no line for it. */
  lemma {:induction false} LastLineCounts(lines: seq<string>, key: string, i: nat)
    ensures (forall line <- lines :: !Sets(line, key)) ==> Lookup(ReadLines(lines), Str(key)).None?
    ensures LastFor(lines, key, i) ==>
              Lookup(ReadLines(lines), Str(key)) == Some(Str(ParseExpression(lines[i]).value.1))
  {
    hide ParseExpression, Lookup, Put, PutExpression;
    if lines == [] {
      NothingRead(key);
    } else {
      var init, last := lines[..|lines| - 1], lines[|lines| - 1];
      LastLineCounts(init, key, i);
      PutCounts(ReadLines(init), last, key);
      assert last in lines && forall line <- init :: line in lines;
      if LastFor(lines, key, i) && i < |init| {
        assert !Sets(lines[|init|], key);
      }
    }
  }

  lemma NothingRead(key: string)
    ensures Lookup(ReadLines([]), Str(key)).None?
  {
  }

  lemma PutCounts(list: seq<Entry>, line: string, key: string)
    ensures Lookup(PutExpression(list, line), Str(key)) ==
            if Sets(line, key) then Some(Str(ParseExpression(line).value.1)) else Lookup(list, Str(key))
  {
    hide ParseExpression;
    match ParseExpression(line)
    case None =>
    case Some((k, value)) => PutLookup(list, Str(k), Str(value), Str(key));
  }

  /** Reads the contents of an environment file. */
  method ReadEnv(data: string) returns (sm: SortedMap)
    ensures fresh(sm) && fresh(sm.cells) && sm.Valid() && sm.Contents() == ReadLines(Split(data))
  {
    hide PutExpression, Put, ParseExpression, EntriesOf, Agree, Split;
    var lines := Split(data);
    sm := new SortedMap();
    for i := 0 to |lines|
      invariant fresh(sm) && fresh(sm.cells) && sm.Valid() && sm.Contents() == ReadLines(lines[..i])
    {
      assert lines[..i + 1][..i] == lines[..i];
      var r := sm.SetExpression(lines[i]);
    }
    assert lines[..|lines|] == lines;
  }

  /** A string key and a string value that survive being written. */
  predicate WritableEntry(e: Entry) {
    e.key.Str? && e.value.Str? && Writable(e.key.text, e.value.text)
  }

  /** Whatever is read from a file could have been written to it. */
  lemma {:induction false} ReadIsWritable(lines: seq<string>)
    ensures forall e <- ReadLines(lines) :: WritableEntry(e)
  {
    hide Writable;
    if lines == [] {
    } else {
      var init, last := lines[..|lines| - 1], lines[|lines| - 1];
      ReadIsWritable(init);
      match ParseExpression(last)
      case None =>
      case Some((key, value)) =>
        ExpressionExact(last, key, value);
        PutHas(ReadLines(init), Str(key), Str(value));
    }
  }

  lemma {:induction false} PutHas(list: seq<Entry>, key: Any, value: Any)
    ensures forall e <- Put(list, key, value) :: e in list || e == Entry(key, value)
  {
    if list != [] && list[0].key != key {
      PutHas(list[1..], key, value);
    }
  }

  lemma {:induction false} LinesAt(list: seq<Entry>)
    ensures |Lines(list)| == |list|
    ensures forall i :: 0 <= i < |list| ==> Lines(list)[i] == Expression(list[i].key.text, list[i].value.text)
  {
    if list == [] {
    } else {
      LinesAt(list[..|list| - 1]);
    }
  }

  /** Writable entries are read back from their lines. */
  lemma {:induction false} LinesReadBack(list: seq<Entry>)
    requires DistinctKeys(list) && forall e <- list :: WritableEntry(e)
    ensures ReadLines(Lines(list)) == list
  {
    hide Writable, Put, ParseExpression;
    if list == [] {
    } else {
      var init, last := list[..|list| - 1], list[|list| - 1];
      assert list == init + [last] && WritableEntry(last);
      LinesReadBack(init);
      ExpressionExact(Expression(last.key.text, last.value.text), last.key.text, last.value.text);
      LastIsNew(list);
      PutNew(init, last.key, last.value);
    }
  }

  lemma LastIsNew(list: seq<Entry>)
    requires list != [] && DistinctKeys(list)
    ensures forall e <- list[..|list| - 1] :: e.key != list[|list| - 1].key
  {
  }

  /** The file that is written for the entries of a map. */
  function FileOf(list: seq<Entry>): string {
    Join(Lines(list))
  }

  /**
   A map is read back from its file, with its order, exactly if its keys and values are strings, no key is empty or
   has an equals sign, and no key or value has listed white space.
   */
  lemma EnvRoundTrip(list: seq<Entry>)
    requires DistinctKeys(list)
    ensures ReadLines(Split(FileOf(list))) == list <==> forall e <- list :: WritableEntry(e)
  {
    hide Writable, ReadLines, Lines, DistinctKeys;
    ReadIsWritable(Split(FileOf(list)));
    if forall e <- list :: WritableEntry(e) {
      if list == [] {
        EmptyFile();
      } else {
        LinesAt(list);
        forall line | line in Lines(list)
          ensures '\n' !in line
        {
          var i :| 0 <= i < |list| && Lines(list)[i] == line;
          assert WritableEntry(list[i]);
          OneLine(list[i].key.text, list[i].value.text);
        }
        SplitUndoesJoin(Lines(list));
        LinesReadBack(list);
      }
    }
  }

  lemma EmptyFile()
    ensures ReadLines(Split(FileOf([]))) == []
  {
    assert Split("") == [""];
    assert ReadLines([""]) == PutExpression(ReadLines([""][..0]), "");
  }

  lemma OneLine(key: string, value: string)
    requires Writable(key, value)
    ensures '\n' !in Expression(key, value)
  {
    assert IsListedSpace('\n');
  }
}
