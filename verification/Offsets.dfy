/** Lists that are put together of parts, given by the offsets at which the parts lie, and by nothing else. */
module Offsets {

  // ---- parts one behind the other ----------------------------------------------------------------------

  /** The list is the parts, one behind the other: part `i` lies between offsets `i` and `i + 1`. */
  predicate IsCut<T(==)>(list: seq<T>, parts: seq<seq<T>>, at: seq<nat>) {
    && |at| == |parts| + 1 && at[0] == 0 && at[|parts|] == |list|
    && forall i :: 0 <= i < |parts| ==> PartLies(list, parts, at, i)
  }

  predicate PartLies<T(==)>(list: seq<T>, parts: seq<seq<T>>, at: seq<nat>, i: nat)
    requires |at| == |parts| + 1 && i < |parts|
  {
    at[i] <= at[i + 1] <= |list| && list[at[i]..at[i + 1]] == parts[i]
  }

  lemma CutNone<T>()
    ensures IsCut<T>([], [], [0])
  {
  }

  /** One more part at the end. */
  lemma CutMore<T>(list: seq<T>, parts: seq<seq<T>>, at: seq<nat>, part: seq<T>)
    requires IsCut(list, parts, at)
    ensures IsCut(list + part, parts + [part], at + [|list| + |part|])
  {
    var list', parts', at' := list + part, parts + [part], at + [|list| + |part|];
    forall i | 0 <= i < |parts'|
      ensures PartLies(list', parts', at', i)
    {
      if i < |parts| {
        assert PartLies(list, parts, at, i);
        assert list'[at[i]..at[i + 1]] == list[at[i]..at[i + 1]];
      } else {
        assert list'[|list|..] == part;
      }
    }
  }

  // ---- parts with an infix between them ----------------------------------------------------------------

  predicate Stands(text: string, i: nat, part: string) {
    i + |part| <= |text| && text[i..i + |part|] == part
  }

  /** The text is the words with the infix between neighbours: word `k` starts at `at[k]`. */
  predicate Joins(text: string, words: seq<string>, infix: string, at: seq<nat>) {
    && |at| == |words|
    && (if words == [] then text == "" else at[0] == 0 && at[|at| - 1] + |words[|words| - 1]| == |text|)
    && (forall k :: 0 <= k < |words| ==> WordLies(text, words, at, k))
    && (forall k :: 0 < k < |words| ==> InfixLies(text, words, infix, at, k))
  }

  predicate WordLies(text: string, words: seq<string>, at: seq<nat>, k: nat)
    requires |at| == |words| && k < |words|
  {
    Stands(text, at[k], words[k])
  }

  /** Right before word `k`, and right behind the one before it, there is the infix. */
  predicate InfixLies(text: string, words: seq<string>, infix: string, at: seq<nat>, k: nat)
    requires |at| == |words| && 0 < k < |words|
  {
    at[k] == at[k - 1] + |words[k - 1]| + |infix| && Stands(text, at[k - 1] + |words[k - 1]|, infix)
  }

  function Joined(words: seq<string>, infix: string): string {
    if words == [] then "" else if |words| == 1 then words[0] else words[0] + infix + Joined(words[1..], infix)
  }

  lemma JoinsOne(word: string, infix: string)
    ensures Joins(word, [word], infix, [0])
  {
  }

  /** The offsets, moved. */
  function Moved(at: seq<nat>, n: nat): (at': seq<nat>)
    ensures |at'| == |at| && forall k :: 0 <= k < |at| ==> at'[k] == n + at[k]
  {
    if at == [] then [] else [n + at[0]] + Moved(at[1..], n)
  }

  /** One more word in front. */
  lemma JoinsCons(word: string, text: string, words: seq<string>, infix: string, at: seq<nat>)
    requires words != [] && Joins(text, words, infix, at)
    ensures Joins(word + infix + text, [word] + words, infix, [0] + Moved(at, |word| + |infix|))
  {
    hide WordLies, InfixLies;
    var words', at' := [word] + words, [0] + Moved(at, |word| + |infix|);
    forall k | 0 <= k < |words'|
      ensures WordLies(word + infix + text, words', at', k)
      ensures k > 0 ==> InfixLies(word + infix + text, words', infix, at', k)
    {
      WordMoved(word, text, words, infix, at, k);
    }
  }

  /** Where word `k` and the infix before it have come to stand. */
  lemma WordMoved(word: string, text: string, words: seq<string>, infix: string, at: seq<nat>, k: nat)
    requires words != [] && Joins(text, words, infix, at) && k <= |words|
    ensures var words', at' := [word] + words, [0] + Moved(at, |word| + |infix|);
            && WordLies(word + infix + text, words', at', k)
            && (k > 0 ==> InfixLies(word + infix + text, words', infix, at', k))
  {
    hide Stands;
    InFront(word, infix, text);
    if k > 0 {
      assert WordLies(text, words, at, k - 1);
      Further(word + infix, text, at[k - 1], words[k - 1]);
      if k > 1 {
        assert InfixLies(text, words, infix, at, k - 1);
        Further(word + infix, text, at[k - 2] + |words[k - 2]|, infix);
      }
    }
  }

  lemma InFront(word: string, infix: string, text: string)
    ensures Stands(word + infix + text, 0, word) && Stands(word + infix + text, |word|, infix)
  {
  }

  /** What stands in a text stands further behind when something is put before it. */
  lemma Further(front: string, text: string, i: nat, part: string)
    requires Stands(text, i, part)
    ensures Stands(front + text, |front| + i, part)
  {
    assert (front + text)[|front| + i..|front| + i + |part|] == text[i..i + |part|];
  }

  /** Where the words stand in a text that is put together. */
  lemma {:induction false} JoinedIs(words: seq<string>, infix: string) returns (at: seq<nat>)
    ensures Joins(Joined(words, infix), words, infix, at)
  {
    hide WordLies, InfixLies;
    if words == [] {
      at := [];
    } else if |words| == 1 {
      at := [0];
      JoinsOne(words[0], infix);
      assert words == [words[0]];
    } else {
      var rest := JoinedIs(words[1..], infix);
      JoinsCons(words[0], Joined(words[1..], infix), words[1..], infix, rest);
      at := [0] + Moved(rest, |words[0]| + |infix|);
      assert words == [words[0]] + words[1..];
    }
  }
}
