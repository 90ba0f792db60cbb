/** The sorted map: a list of cells and an index into it, and the simple ordered association list that it implements. */
module SortedMap {
  import opened DataTypes

  /** A key or a value: a string, or anything else, with the text it is printed as. */
  datatype Any = Str(text: string) | Other(id: int, text: string)

  datatype Entry = Entry(key: Any, value: Any)

  // ---- association lists ---------------------------------------------------------------------------

  function KeysOf(list: seq<Entry>): seq<Any> {
    seq(|list|, i requires 0 <= i < |list| => list[i].key)
  }

  function ValuesOf(list: seq<Entry>): seq<Any> {
    seq(|list|, i requires 0 <= i < |list| => list[i].value)
  }

  predicate DistinctKeys(list: seq<Entry>) {
    forall i, j :: 0 <= i < j < |list| ==> list[i].key != list[j].key
  }

  function Lookup(list: seq<Entry>, key: Any): Option<Any> {
    if list == [] then None else if list[0].key == key then Some(list[0].value) else Lookup(list[1..], key)
  }

  /** The list with `key` bound to `value`: in its place if the key is there, else at the end. */
  function Put(list: seq<Entry>, key: Any, value: Any): seq<Entry> {
    if list == [] then [Entry(key, value)]
    else if list[0].key == key then [Entry(key, value)] + list[1..]
    else [list[0]] + Put(list[1..], key, value)
  }

  function Delete(list: seq<Entry>, key: Any): seq<Entry> {
    if list == [] then [] else if list[0].key == key then list[1..] else [list[0]] + Delete(list[1..], key)
  }

  /** All entries of `more`, put one after the other. */
  function PutAll(list: seq<Entry>, more: seq<Entry>): seq<Entry> {
    if more == [] then list
    else
      var last := more[|more| - 1];
      Put(PutAll(list, more[..|more| - 1]), last.key, last.value)
  }

  lemma {:induction false} LookupAt(list: seq<Entry>, i: nat)
    requires DistinctKeys(list) && i < |list|
    ensures Lookup(list, list[i].key) == Some(list[i].value)
  {
    if i == 0 {
    } else {
      LookupAt(list[1..], i - 1);
    }
  }

  lemma {:induction false} LookupNone(list: seq<Entry>, key: Any)
    ensures Lookup(list, key).None? <==> forall e <- list :: e.key != key
  {
    if list == [] {
    } else {
      LookupNone(list[1..], key);
    }
  }

  /** Where a key is, if it is there. */
  lemma {:induction false} PlaceOf(list: seq<Entry>, key: Any) returns (i: nat)
    requires Lookup(list, key).Some?
    ensures i < |list| && list[i].key == key && list[i].value == Lookup(list, key).value
  {
    if list[0].key == key {
      i := 0;
    } else {
      i := PlaceOf(list[1..], key);
      i := i + 1;
    }
  }

  /** Putting at a known place. */
  lemma {:induction false} PutAt(list: seq<Entry>, i: nat, value: Any)
    requires DistinctKeys(list) && i < |list|
    ensures Put(list, list[i].key, value) == list[i := Entry(list[i].key, value)]
  {
    var entry := Entry(list[i].key, value);
    if i == 0 {
      assert [entry] + list[1..] == list[0 := entry];
    } else {
      var rest := list[1..];
      PutAt(rest, i - 1, value);
      assert list[0].key != list[i].key;
      assert [list[0]] + rest[i - 1 := entry] == list[i := entry];
    }
  }

  lemma {:induction false} PutNew(list: seq<Entry>, key: Any, value: Any)
    requires forall e <- list :: e.key != key
    ensures Put(list, key, value) == list + [Entry(key, value)]
  {
    if list == [] {
    } else {
      PutNew(list[1..], key, value);
    }
  }

  lemma {:induction false} PutLookup(list: seq<Entry>, key: Any, value: Any, other: Any)
    ensures Lookup(Put(list, key, value), other) == if other == key then Some(value) else Lookup(list, other)
  {
    if list != [] && list[0].key != key {
      PutLookup(list[1..], key, value, other);
    }
  }

  /** What is put is found, nothing else changes, and the keys stay distinct and in their order. */
  lemma PutLaws(list: seq<Entry>, key: Any, value: Any, other: Any)
    requires DistinctKeys(list)
    ensures var r := Put(list, key, value);
            && DistinctKeys(r)
            && Lookup(r, other) == (if other == key then Some(value) else Lookup(list, other))
            && KeysOf(r) == KeysOf(list) + (if Lookup(list, key).Some? then [] else [key])
  {
    hide Put, Lookup;
    PutLookup(list, key, value, other);
    if Lookup(list, key).Some? {
      var i := PlaceOf(list, key);
      PutAt(list, i, value);
    } else {
      LookupNone(list, key);
      PutNew(list, key, value);
    }
  }

  lemma {:induction false} DeleteLookup(list: seq<Entry>, key: Any, other: Any)
    requires DistinctKeys(list)
    ensures Lookup(Delete(list, key), other) == if other == key then None else Lookup(list, other)
  {
    if list == [] {
    } else {
      if list[0].key == key {
        LookupNone(list[1..], key);
      } else {
        DeleteLookup(list[1..], key, other);
      }
    }
  }

  /** A key that was not there leaves no trace when it is put and deleted again. */
  lemma {:induction false} DeleteUndoesPut(list: seq<Entry>, key: Any, value: Any)
    requires Lookup(list, key).None?
    ensures Delete(Put(list, key, value), key) == list
  {
    if list == [] {
    } else {
      DeleteUndoesPut(list[1..], key, value);
    }
  }

  lemma {:induction false} DeleteAt(list: seq<Entry>, i: nat)
    requires DistinctKeys(list) && i < |list|
    ensures Delete(list, list[i].key) == list[..i] + list[i + 1..]
  {
    if i == 0 {
    } else {
      DeleteAt(list[1..], i - 1);
    }
  }

  /** What is deleted is not found, nothing else changes, and the keys stay distinct and in their order. */
  lemma DeleteLaws(list: seq<Entry>, key: Any, other: Any)
    requires DistinctKeys(list)
    ensures var r := Delete(list, key);
            && DistinctKeys(r)
            && Lookup(r, other) == (if other == key then None else Lookup(list, other))
            && if Lookup(list, key).None? then r == list
               else exists i :: 0 <= i < |list| && r == list[..i] + list[i + 1..]
  {
    hide Delete, Lookup;
    DeleteLookup(list, key, other);
    if Lookup(list, key).Some? {
      var i := PlaceOf(list, key);
      DeleteAt(list, i);
    } else {
      DeleteNone(list, key);
    }
  }

  lemma {:induction false} DeleteNone(list: seq<Entry>, key: Any)
    requires Lookup(list, key).None?
    ensures Delete(list, key) == list
  {
    if list == [] {
    } else {
      DeleteNone(list[1..], key);
    }
  }

  /** Putting all entries of a list into the empty list gives the list. */
  lemma {:induction false} PutAllCopies(list: seq<Entry>, k: nat)
    requires DistinctKeys(list) && k <= |list|
    ensures PutAll([], list[..k]) == list[..k]
  {
    if k == 0 {
    } else {
      assert list[..k][..k - 1] == list[..k - 1];
      PutAllCopies(list, k - 1);
      PutNew(list[..k - 1], list[k - 1].key, list[k - 1].value);
    }
  }

  /** Putting a list's own entries into it changes nothing. */
  lemma {:induction false} PutAllOwn(list: seq<Entry>, k: nat)
    requires DistinctKeys(list) && k <= |list|
    ensures PutAll(list, list[..k]) == list
  {
    if k == 0 {
    } else {
      assert list[..k][..k - 1] == list[..k - 1];
      PutAllOwn(list, k - 1);
      PutAt(list, k - 1, list[k - 1].value);
    }
  }

  /** Entry `i` is the last one of that key. */
  predicate LastOf(list: seq<Entry>, key: Any, i: nat) {
    i < |list| && list[i].key == key && forall j :: i < j < |list| ==> list[j].key != key
  }

  /** When all entries of `more` are put, the last one of a key counts, and other keys keep what they had. */
  lemma {:induction false} PutAllLookup(list: seq<Entry>, more: seq<Entry>, key: Any, i: nat)
    ensures (forall e <- more :: e.key != key) ==> Lookup(PutAll(list, more), key) == Lookup(list, key)
    ensures LastOf(more, key, i) ==> Lookup(PutAll(list, more), key) == Some(more[i].value)
  {
    hide Lookup, Put;
    if more == [] {
    } else {
      var init, last := more[..|more| - 1], more[|more| - 1];
      PutAllLookup(list, init, key, i);
      PutLookup(PutAll(list, init), last.key, last.value, key);
      assert last in more && forall e <- init :: e in more;
      if LastOf(more, key, i) && i < |init| {
        assert more[|init|].key != key;
      }
    }
  }

  // ---- key-value expressions -----------------------------------------------------------------------

  /** The white space that keys and values may not contain; a carriage return is not in the list. */
  predicate IsListedSpace(c: char) {
    c == '\n' || c == '\t' || c == '\U{0C}' || c == '\U{0B}' || c == ' '
  }

  predicate ContainsWhiteSpace(s: string) {
    exists c <- s :: IsListedSpace(c)
  }

  /** The offset of the first `c`, or `-1`. */
  function Index(s: string, c: char): (i: int)
    ensures -1 <= i < |s|
    ensures i != -1 ==> s[i] == c
  {
    if s == "" then -1
    else if s[0] == c then 0
    else
      var i := Index(s[1..], c);
      if i == -1 then -1 else i + 1
  }

  lemma {:induction false} IndexIs(a: string, c: char, b: string)
    requires c !in a
    ensures Index(a + [c] + b, c) == |a|
  {
    if a == "" {
      assert a + [c] + b == [c] + b;
    } else {
      assert (a + [c] + b)[1..] == a[1..] + [c] + b;
      IndexIs(a[1..], c, b);
    }
  }

  lemma {:induction false} IndexSplits(s: string, c: char)
    ensures var i := Index(s, c);
            if i == -1 then c !in s else s == s[..i] + [c] + s[i + 1..] && c !in s[..i]
  {
    if s != "" && s[0] != c {
      IndexSplits(s[1..], c);
      var i := Index(s[1..], c);
      if i != -1 {
        assert s[..i + 1] == [s[0]] + s[1..][..i];
      }
    }
  }

  /** The key and the value of an expression, if it is a valid one. */
  function ParseExpression(expression: string): Option<(string, string)> {
    var idx := Index(expression, '=');
    if idx == -1 then None
    else
      var key, value := expression[..idx], expression[idx + 1..];
      if ContainsWhiteSpace(key) || ContainsWhiteSpace(value) || key == "" then None else Some((key, value))
  }

  /** A key and a value that survive being written as an expression. */
  predicate Writable(key: string, value: string) {
    key != "" && '=' !in key && !ContainsWhiteSpace(key) && !ContainsWhiteSpace(value)
  }

  function Expression(key: string, value: string): string {
    key + "=" + value
  }

  /** An expression is read as a key and a value exactly if it is how they are written, and they are writable. */
  lemma ExpressionExact(expression: string, key: string, value: string)
    ensures ParseExpression(expression) == Some((key, value)) <==>
            expression == Expression(key, value) && Writable(key, value)
  {
    hide ContainsWhiteSpace;
    IndexSplits(expression, '=');
    if expression == Expression(key, value) && '=' !in key {
      IndexIs(key, '=', value);
      assert expression == key + ['='] + value && expression[..|key|] == key && expression[|key| + 1..] == value;
    }
  }

  // ---- the map ---------------------------------------------------------------------------------------

  /** A cell of the list. */
  class Element {
    const key: Any
    var value: Any

    constructor (key: Any, value: Any)
      ensures this.key == key && this.value == value
    {
      this.key, this.value := key, value;
    }
  }

  ghost function EntriesOf(cells: seq<Element>): (list: seq<Entry>)
    reads cells
    ensures |list| == |cells|
    ensures forall i :: 0 <= i < |cells| ==> list[i] == Entry(cells[i].key, cells[i].value)
  {
    if cells == [] then []
    else EntriesOf(cells[..|cells| - 1]) + [Entry(cells[|cells| - 1].key, cells[|cells| - 1].value)]
  }

  /** The cells but `e`. */
  function Without(cells: seq<Element>, e: Element): seq<Element> {
    if cells == [] then [] else if cells[0] == e then cells[1..] else [cells[0]] + Without(cells[1..], e)
  }

  lemma {:induction false} WithoutAt(cells: seq<Element>, i: nat)
    requires i < |cells| && cells[i] !in cells[..i]
    ensures Without(cells, cells[i]) == cells[..i] + cells[i + 1..]
  {
    if i == 0 {
    } else {
      assert cells[0] in cells[..i] && forall c <- cells[1..][..i - 1] :: c in cells[..i];
      WithoutAt(cells[1..], i - 1);
    }
  }

  /** Every cell is the one that the index has for its key, once in the list, and the index has nothing else. */
  ghost predicate Agree(kv: seq<Element>, keys: map<Any, Element>) {
    && (forall i :: 0 <= i < |kv| ==> kv[i].key in keys && keys[kv[i].key] == kv[i])
    && (forall key <- keys :: keys[key] in kv && keys[key].key == key)
    && (forall i, j :: 0 <= i < j < |kv| ==> kv[i] != kv[j])
  }

  lemma AgreeWithout(kv: seq<Element>, keys: map<Any, Element>, i: nat)
    requires Agree(kv, keys) && i < |kv|
    ensures Agree(kv[..i] + kv[i + 1..], keys - {kv[i].key})
  {
    var less := kv[..i] + kv[i + 1..];
    CellsWithout(kv, i);
    forall key | key in keys && key != kv[i].key
      ensures keys[key] in less
    {
      var j :| 0 <= j < |kv| && kv[j] == keys[key];
      assert less[if j < i then j else j - 1] == kv[j];
    }
    forall j | 0 <= j < |less|
      ensures less[j].key in keys && keys[less[j].key] == less[j] && less[j].key != kv[i].key
    {
      var k := if j < i then j else j + 1;
      assert less[j] == kv[k] && keys[kv[k].key] == kv[k] && keys[kv[i].key] == kv[i];
    }
  }

  /** The other cells, one by one. */
  lemma CellsWithout(kv: seq<Element>, i: nat)
    requires i < |kv| && forall j, k :: 0 <= j < k < |kv| ==> kv[j] != kv[k]
    ensures var less := kv[..i] + kv[i + 1..];
            && |less| == |kv| - 1
            && (forall j :: 0 <= j < |less| ==> less[j] == kv[if j < i then j else j + 1])
            && forall j, k :: 0 <= j < k < |less| ==> less[j] != less[k]
  {
    var less := kv[..i] + kv[i + 1..];
    forall j, k | 0 <= j < k < |less|
      ensures less[j] != less[k]
    {
      var a, b := if j < i then j else j + 1, if k < i then k else k + 1;
      assert less[j] == kv[a] && less[k] == kv[b] && a < b;
    }
  }

  lemma AgreeMore(kv: seq<Element>, keys: map<Any, Element>, e: Element)
    requires Agree(kv, keys) && e.key !in keys
    ensures Agree(kv + [e], keys[e.key := e])
  {
    assert forall i :: 0 <= i < |kv| ==> kv[i].key in keys;
    assert (kv + [e])[|kv|] == e;
    forall key | key in keys
      ensures keys[key] in kv + [e]
    {
      var j :| 0 <= j < |kv| && kv[j] == keys[key];
      assert (kv + [e])[j] == kv[j];
    }
  }

  lemma SameEntries(cells: seq<Element>, list: seq<Entry>)
    requires |cells| == |list| && forall i :: 0 <= i < |cells| ==> list[i] == Entry(cells[i].key, cells[i].value)
    ensures EntriesOf(cells) == list
  {
  }

  class SortedMap {
    var kv: seq<Element>
    var keys: map<Any, Element>
    /** The cells of the list. */
    ghost var cells: set<Element>

    /** The list and the index agree: every key of the index leads to the one cell of that key. */
    ghost predicate Valid()
      reads this
    {
      Agree(kv, keys) && cells == set e | e in kv
    }

    /** The association list the map stands for. */
    ghost function Contents(): seq<Entry>
      reads this, kv
    {
      EntriesOf(kv)
    }

    /** Do the two maps share no cell? */
    ghost predicate Apart(other: SortedMap)
      reads this, other
    {
      cells !! other.cells
    }

    constructor ()
      ensures Valid() && Contents() == [] && cells == {}
    {
      kv, keys, cells := [], map[], {};
    }

    lemma KeysDistinct()
      requires Valid()
      ensures DistinctKeys(Contents())
    {
      forall i, j | 0 <= i < j < |kv|
        ensures kv[i].key != kv[j].key
      {
        assert keys[kv[i].key] == kv[i] && keys[kv[j].key] == kv[j];
      }
    }

    /** Where the cell of a key is. */
    lemma Place(key: Any) returns (i: nat)
      requires Valid() && key in keys
      ensures i < |kv| && kv[i] == keys[key] && kv[i].key == key
    {
      i :| 0 <= i < |kv| && kv[i] == keys[key];
    }

    /** The index has exactly the keys of the list. */
    lemma IndexIsLookup(key: Any)
      requires Valid()
      ensures key in keys <==> Lookup(Contents(), key).Some?
      ensures key in keys ==> Lookup(Contents(), key) == Some(keys[key].value)
    {
      if Lookup(Contents(), key).Some? {
        var i := PlaceOf(Contents(), key);
        assert kv[i].key in keys;
      }
      if key in keys {
        var i := Place(key);
        KeysDistinct();
        LookupAt(Contents(), i);
      }
    }

    /** A known key gets its value changed in its cell, a new one gets a new cell at the end. */
    method SetKV(key: Any, value: Any)
      requires Valid()
      modifies this, cells
      ensures Valid() && Contents() == Put(old(Contents()), key, value)
      ensures kv == old(kv) || (|kv| == |old(kv)| + 1 && kv[..|old(kv)|] == old(kv) && fresh(kv[|old(kv)|]))
      ensures key in old(keys) ==> kv == old(kv)
      ensures fresh(cells - old(cells))
    {
      hide Put, Lookup, EntriesOf, DistinctKeys, Agree;
      KeysDistinct();
      if key !in keys {
        LookupNone(Contents(), key);
        IndexIsLookup(key);
        PutNew(Contents(), key, value);
        var e := new Element(key, value);
        AgreeMore(kv, keys, e);
        kv := kv + [e];
        keys := keys[key := e];
        cells := cells + {e};
      } else {
        ghost var i := Place(key);
        PutAt(Contents(), i, value);
        keys[key].value := value;
      }
    }

    method Get(key: Any) returns (r: Option<Any>)
      requires Valid()
      ensures r == Lookup(Contents(), key)
    {
      IndexIsLookup(key);
      r := if key in keys then Some(keys[key].value) else None;
    }

    method Keys() returns (list: seq<Any>)
      ensures list == KeysOf(Contents())
      ensures |list| == |Contents()| && forall i :: 0 <= i < |list| ==> list[i] == Contents()[i].key
    {
      list := [];
      for i := 0 to |kv|
        invariant |list| == i && forall j :: 0 <= j < i ==> list[j] == kv[j].key
      {
        list := list + [kv[i].key];
      }
    }

    /** The values, found through the index, are those of the list's cells. */
    method Values() returns (list: seq<Any>)
      requires Valid()
      ensures list == ValuesOf(Contents())
      ensures |list| == |Contents()|
      ensures forall i :: 0 <= i < |list| ==> Lookup(Contents(), Contents()[i].key) == Some(list[i])
    {
      var ks := Keys();
      list := [];
      for i := 0 to |ks|
        invariant |list| == i && forall j :: 0 <= j < i ==> list[j] == kv[j].value
      {
        assert ks[i] == kv[i].key;
        list := list + [keys[ks[i]].value];
      }
      KeysDistinct();
      forall i | 0 <= i < |list|
        ensures Lookup(Contents(), Contents()[i].key) == Some(list[i])
      {
        LookupAt(Contents(), i);
      }
    }

    /** Takes a cell out of the list. */
    method RemoveCell(e: Element) returns (ghost i: nat)
      requires Valid() && e.key in keys && keys[e.key] == e
      modifies this`kv
      ensures i < |old(kv)| && old(kv)[i] == e && kv == old(kv)[..i] + old(kv)[i + 1..]
      ensures Agree(kv, keys - {e.key})
      ensures Contents() == old(Contents())[..i] + old(Contents())[i + 1..]
    {
      i := Place(e.key);
      AgreeWithout(kv, keys, i);
      WithoutAt(kv, i);
      kv := Without(kv, e);
    }

    method Remove(key: Any) returns (r: Option<Any>)
      requires Valid()
      modifies this
      ensures Valid() && Contents() == Delete(old(Contents()), key)
      ensures r == Lookup(old(Contents()), key)
      ensures cells <= old(cells)
    {
      hide Delete, Lookup, EntriesOf, DistinctKeys, Agree;
      IndexIsLookup(key);
      KeysDistinct();
      if key !in keys {
        DeleteNone(Contents(), key);
        return None;
      }
      r := Some(keys[key].value);
      ghost var j := Place(key);
      ghost var before := Contents();
      ghost var i := RemoveCell(keys[key]);
      DeleteAt(before, i);
      keys := keys - {key};
      cells := set e | e in kv;
    }

    /** Sets all pairs of an even list; an odd one is refused as a whole. */
    method Set(list: seq<Any>) returns (ok: bool)
      requires Valid()
      modifies this, cells
      ensures ok <==> |list| % 2 == 0
      ensures Valid() && Contents() == if ok then PutAll(old(Contents()), Pairs(list)) else old(Contents())
      ensures fresh(cells - old(cells))
    {
      hide Put, EntriesOf;
      if |list| == 0 {
        return true;
      }
      if |list| % 2 != 0 {
        return false;
      }
      var idx := 0;
      while idx < |list|
        invariant 0 <= idx <= |list| && idx % 2 == 0
        invariant Valid() && Contents() == PutAll(old(Contents()), Pairs(list[..idx]))
        invariant fresh(cells - old(cells))
      {
        SetKV(list[idx], list[idx + 1]);
        assert list[..idx + 2][..idx] == list[..idx];
        idx := idx + 2;
      }
      assert list[..idx] == list;
      ok := true;
    }

    /** Sets one entry of another map, or of this one, and leaves the map it is from as it is. */
    method SetFrom(sm: SortedMap, i: nat)
      requires Valid() && sm.Valid() && (sm == this || Apart(sm)) && i < |sm.kv|
      modifies this, cells
      ensures Valid() && (sm == this || Apart(sm)) && sm.kv == old(sm.kv) && sm.Contents() == old(sm.Contents())
      ensures Contents() == Put(old(Contents()), old(sm.Contents()[i].key), old(sm.Contents()[i].value))
      ensures fresh(cells - old(cells))
    {
      hide Put, EntriesOf, Agree;
      ghost var more := sm.Contents();
      var key, value := sm.kv[i].key, sm.kv[i].value;
      if sm == this {
        KeysDistinct();
        PutAt(more, i, value);
        SetKV(key, value);
      } else {
        assert forall e <- sm.kv :: e in sm.cells;
        SetKV(key, value);
        assert forall i :: 0 <= i < |sm.kv| ==> sm.kv[i] in sm.kv && sm.kv[i].value == old(sm.kv[i].value);
        SameEntries(sm.kv, more);
      }
    }

    /** Sets all entries of another map, or of this one. */
    method Insert(sm: SortedMap)
      requires Valid() && sm.Valid() && (sm == this || Apart(sm))
      modifies this, cells
      ensures Valid() && Contents() == PutAll(old(Contents()), old(sm.Contents()))
      ensures fresh(cells - old(cells))
      ensures sm.kv == old(sm.kv) && sm.Contents() == old(sm.Contents())
    {
      hide Put, EntriesOf, Agree, Apart, KeysOf, DistinctKeys;
      ghost var list, more := Contents(), sm.Contents();
      var i := 0;
      while i < |sm.kv|
        invariant 0 <= i <= |sm.kv| && sm.kv == old(sm.kv) && (sm == this || Apart(sm))
        invariant Valid() && Contents() == PutAll(list, more[..i])
        invariant fresh(cells - old(cells))
        invariant sm.Contents() == more
        decreases |sm.kv| - i
      {
        assert more[..i + 1][..i] == more[..i] && more[i] == Entry(sm.kv[i].key, sm.kv[i].value);
        SetFrom(sm, i);
        i := i + 1;
      }
      assert more[..i] == more;
    }

    /** A map with the same entries and cells of its own. */
    method Copy() returns (sm: SortedMap)
      requires Valid()
      ensures fresh(sm) && fresh(sm.cells) && sm.Valid() && sm.Contents() == Contents()
    {
      hide EntriesOf, Agree, PutAll;
      sm := new SortedMap();
      KeysDistinct();
      sm.Insert(this);
      PutAllCopies(Contents(), |kv|);
      assert Contents()[..|kv|] == Contents();
    }

    method Reset()
      requires Valid()
      modifies this
      ensures Valid() && Contents() == []
    {
      kv := [];
      while keys != map[]
        invariant kv == []
        decreases keys.Keys
      {
        var key :| key in keys;
        keys := keys - {key};
      }
      cells := {};
    }

    /** The entries as expressions, in their order. */
    method Format() returns (lines: seq<string>)
      ensures lines == Lines(Contents())
    {
      lines := [];
      for i := 0 to |kv|
        invariant lines == Lines(Contents()[..i])
      {
        assert Contents()[..i + 1][..i] == Contents()[..i];
        lines := lines + [Expression(kv[i].key.text, kv[i].value.text)];
      }
      assert Contents()[..|kv|] == Contents();
    }

    /** Sets the key of an expression to its value; any other text is refused. */
    method SetExpression(expression: string) returns (r: Option<(string, string)>)
      requires Valid()
      modifies this, cells
      ensures r == ParseExpression(expression)
      ensures Valid() && Contents() == PutExpression(old(Contents()), expression)
      ensures fresh(cells - old(cells))
    {
      hide Put, EntriesOf, Agree, ContainsWhiteSpace;
      var idx := Index(expression, '=');
      if idx == -1 {
        return None;
      }
      var key := expression[..idx];
      var value := if |expression| == idx then "" else expression[idx + 1..];
      var spaced := HasListedSpace(key);
      if spaced {
        return None;
      }
      spaced := HasListedSpace(value);
      if spaced || |key| == 0 {
        return None;
      }
      SetKV(Str(key), Str(value));
      r := Some((key, value));
    }
  }

  /** Looks for white space. */
  method HasListedSpace(s: string) returns (found: bool)
    ensures found == ContainsWhiteSpace(s)
  {
    for i := 0 to |s|
      invariant forall j :: 0 <= j < i ==> !IsListedSpace(s[j])
    {
      if IsListedSpace(s[i]) {
        return true;
      }
    }
    found := false;
  }

  function Lines(list: seq<Entry>): seq<string> {
    if list == [] then []
    else
      var last := list[|list| - 1];
      Lines(list[..|list| - 1]) + [Expression(last.key.text, last.value.text)]
  }

  function PutExpression(list: seq<Entry>, expression: string): seq<Entry> {
    match ParseExpression(expression)
    case None => list
    case Some((key, value)) => Put(list, Str(key), Str(value))
  }

  /** The entries that a list of keys and values in turn stands for. */
  function Pairs(list: seq<Any>): seq<Entry> {
    if |list| < 2 then [] else Pairs(list[..|list| - 2]) + [Entry(list[|list| - 2], list[|list| - 1])]
  }

  /** Of an even list, pair `k` has element `2k` for its key, and the element behind it for its value. */
  lemma {:induction false} PairsAre(list: seq<Any>)
    requires |list| % 2 == 0
    ensures |Pairs(list)| * 2 == |list|
    ensures forall k :: 0 <= k < |Pairs(list)| ==> Pairs(list)[k] == Entry(list[2 * k], list[2 * k + 1])
  {
    if |list| < 2 {
    } else {
      PairsAre(list[..|list| - 2]);
    }
  }
}
