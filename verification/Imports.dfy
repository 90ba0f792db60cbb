/**
 Import resolution: the depth-first walk over imported files, with its stack of open files and its set of files seen,
 and the merging of every file's declarations into the importing one.
 */
module Imports {
  import opened Declared
  import opened DataTypes
  import opened Offsets

  type Path = string

  /**
   What a path leads to: a file that does not parse (or is missing), or its contents. Imports are in no order;
   `importValues` are their values as they stand in the file.
   */
  datatype File =
    | Broken
    | Parsed(
        imports: map<string, Path>, importValues: seq<Node>, infoKeys: seq<Node>, syntax: string, types: seq<TypeStmt>,
        services: seq<Service>)

  type Disk = map<Path, File>

  datatype Error = ImportCycle | DoesNotParse | SyntaxDiffers

  datatype Result<T> = Fine(value: T) | Fails(error: Error)

  // ---- the import graph ----------------------------------------------------------------------------

  predicate Parses(disk: Disk, p: Path) {
    p in disk && disk[p].Parsed?
  }

  predicate Edge(disk: Disk, p: Path, q: Path) {
    Parses(disk, p) && q in disk[p].imports.Values
  }

  /** Each file on the walk imports the next one. */
  ghost predicate IsWalk(disk: Disk, w: seq<Path>) {
    w != [] && forall i :: 0 < i < |w| ==> Edge(disk, w[i - 1], w[i])
  }

  ghost predicate Joins(disk: Disk, w: seq<Path>, p: Path, q: Path) {
    IsWalk(disk, w) && w[0] == p && w[|w| - 1] == q
  }

  ghost predicate Reachable(disk: Disk, p: Path, q: Path) {
    exists w :: Joins(disk, w, p, q)
  }

  /** A walk of at least one step from a file to itself. */
  ghost predicate OnCycle(disk: Disk, p: Path) {
    exists w :: |w| > 1 && Joins(disk, w, p, p)
  }

  ghost predicate HasCycle(disk: Disk, root: Path) {
    exists p :: Reachable(disk, root, p) && OnCycle(disk, p)
  }

  ghost predicate AllParse(disk: Disk, root: Path) {
    forall p :: Reachable(disk, root, p) ==> Parses(disk, p)
  }

  ghost predicate OneSyntax(disk: Disk, root: Path) {
    forall p :: Reachable(disk, root, p) && Parses(disk, root) && Parses(disk, p) ==>
      disk[p].syntax == disk[root].syntax
  }

  /** Is the error called for by the files that `root` reaches? */
  ghost predicate Justified(disk: Disk, root: Path, e: Error) {
    match e
    case ImportCycle => HasCycle(disk, root)
    case DoesNotParse => !AllParse(disk, root)
    case SyntaxDiffers => !OneSyntax(disk, root)
  }

  lemma WalkMore(disk: Disk, w: seq<Path>, q: Path)
    requires IsWalk(disk, w) && Edge(disk, w[|w| - 1], q)
    ensures IsWalk(disk, w + [q])
  {
  }

  lemma WalkReaches(disk: Disk, w: seq<Path>, i: nat)
    requires IsWalk(disk, w) && i < |w|
    ensures Reachable(disk, w[0], w[i])
  {
    assert Joins(disk, w[..i + 1], w[0], w[i]);
  }

  /** An import of a file that is being read closes a cycle. */
  lemma StackCycle(disk: Disk, stack: seq<Path>, q: Path)
    requires IsWalk(disk, stack) && Edge(disk, stack[|stack| - 1], q) && q in stack
    ensures HasCycle(disk, stack[0])
  {
    var i :| 0 <= i < |stack| && stack[i] == q;
    var w := stack[i..] + [q];
    assert Joins(disk, w, q, q);
    WalkReaches(disk, stack, i);
  }

  // ---- lists of files ------------------------------------------------------------------------------

  predicate Distinct(s: seq<Path>) {
    forall i, j :: 0 <= i < j < |s| ==> s[i] != s[j]
  }

  /** `s` lists, once each, the files that `seen'` has more than `seen`. */
  ghost predicate Lists(s: seq<Path>, seen: set<Path>, seen': set<Path>) {
    seen <= seen' && Distinct(s) && forall p :: p in s <==> p in seen' && p !in seen
  }

  lemma ListsJoin(a: seq<Path>, b: seq<Path>, s0: set<Path>, s1: set<Path>, s2: set<Path>)
    requires Lists(a, s0, s1) && Lists(b, s1, s2)
    ensures Lists(a + b, s0, s2)
  {
    var c := a + b;
    forall i, j | 0 <= i < j < |c|
      ensures c[i] != c[j]
    {
      if i < |a| <= j {
        assert a[i] in a && b[j - |a|] in b;
      }
    }
    forall p
      ensures p in c <==> p in s2 && p !in s0
    {
      assert p in c <==> p in a || p in b;
    }
  }

  lemma ListsCons(p: Path, s: seq<Path>, seen: set<Path>, seen': set<Path>)
    requires s != [] && s[0] == p && p !in seen && Lists(s[1..], seen + {p}, seen')
    ensures Lists(s, seen, seen')
  {
    assert s == [p] + s[1..];
    forall q
      ensures q in s <==> q in seen' && q !in seen
    {
      assert q in s <==> q == p || q in s[1..];
    }
  }

  /** The type statements of the files in `order`, one file after the other. */
  function TypesOf(disk: Disk, order: seq<Path>): seq<TypeStmt> {
    if order == [] then []
    else (if Parses(disk, order[0]) then disk[order[0]].types else []) + TypesOf(disk, order[1..])
  }

  function ServicesOf(disk: Disk, order: seq<Path>): seq<Service> {
    if order == [] then []
    else (if Parses(disk, order[0]) then disk[order[0]].services else []) + ServicesOf(disk, order[1..])
  }

  lemma {:induction false} MergedConcat(disk: Disk, a: seq<Path>, b: seq<Path>)
    ensures TypesOf(disk, a + b) == TypesOf(disk, a) + TypesOf(disk, b)
    ensures ServicesOf(disk, a + b) == ServicesOf(disk, a) + ServicesOf(disk, b)
  {
    if a == [] {
      assert a + b == b;
      Concat([], TypesOf(disk, b), []);
      Concat([], ServicesOf(disk, b), []);
    } else {
      assert (a + b)[1..] == a[1..] + b && (a + b)[0] == a[0];
      MergedConcat(disk, a[1..], b);
      Concat(if Parses(disk, a[0]) then disk[a[0]].types else [], TypesOf(disk, a[1..]), TypesOf(disk, b));
      Concat(if Parses(disk, a[0]) then disk[a[0]].services else [], ServicesOf(disk, a[1..]), ServicesOf(disk, b));
    }
  }

  ghost predicate AllOf(disk: Disk, order: seq<Path>) {
    forall i :: 0 <= i < |order| ==> Parses(disk, order[i])
  }

  /** The type statements are those of the files in `order`: file by file, all of them, and nothing else. */
  ghost predicate TypesMerged(disk: Disk, order: seq<Path>, types: seq<TypeStmt>)
    requires AllOf(disk, order)
  {
    var parts := seq(|order|, i requires 0 <= i < |order| && Parses(disk, order[i]) => disk[order[i]].types);
    exists at :: IsCut(types, parts, at)
  }

  ghost predicate ServicesMerged(disk: Disk, order: seq<Path>, services: seq<Service>)
    requires AllOf(disk, order)
  {
    var parts := seq(|order|, i requires 0 <= i < |order| && Parses(disk, order[i]) => disk[order[i]].services);
    exists at :: IsCut(services, parts, at)
  }

  lemma {:induction false} MergedTypes(disk: Disk, order: seq<Path>)
    requires AllOf(disk, order)
    ensures TypesMerged(disk, order, TypesOf(disk, order))
  {
    if order == [] {
      CutNone<TypeStmt>();
    } else {
      var init, last := order[..|order| - 1], order[|order| - 1];
      assert order == init + [last] && forall i :: 0 <= i < |init| ==> Parses(disk, order[i]) && init[i] == order[i];
      MergedTypes(disk, init);
      MergedConcat(disk, init, [last]);
      OneFile(disk, last);
      var parts := seq(|init|, i requires 0 <= i < |init| && Parses(disk, init[i]) => disk[init[i]].types);
      var all := seq(|order|, i requires 0 <= i < |order| && Parses(disk, order[i]) => disk[order[i]].types);
      var at :| IsCut(TypesOf(disk, init), parts, at);
      CutMore(TypesOf(disk, init), parts, at, disk[last].types);
      assert all == parts + [disk[last].types];
    }
  }

  lemma {:induction false} MergedServices(disk: Disk, order: seq<Path>)
    requires AllOf(disk, order)
    ensures ServicesMerged(disk, order, ServicesOf(disk, order))
  {
    if order == [] {
      CutNone<Service>();
    } else {
      var init, last := order[..|order| - 1], order[|order| - 1];
      assert order == init + [last] && forall i :: 0 <= i < |init| ==> Parses(disk, order[i]) && init[i] == order[i];
      MergedServices(disk, init);
      MergedConcat(disk, init, [last]);
      OneFile(disk, last);
      var parts := seq(|init|, i requires 0 <= i < |init| && Parses(disk, init[i]) => disk[init[i]].services);
      var all := seq(|order|, i requires 0 <= i < |order| && Parses(disk, order[i]) => disk[order[i]].services);
      var at :| IsCut(ServicesOf(disk, init), parts, at);
      CutMore(ServicesOf(disk, init), parts, at, disk[last].services);
      assert all == parts + [disk[last].services];
    }
  }

  lemma OneFile(disk: Disk, p: Path)
    requires Parses(disk, p)
    ensures TypesOf(disk, [p]) == disk[p].types && ServicesOf(disk, [p]) == disk[p].services
  {
    assert [p][1..] == [];
  }

  lemma Concat<T>(a: seq<T>, b: seq<T>, c: seq<T>)
    ensures (a + b) + c == a + (b + c) && [] + b == b
  {
  }

  // ---- finishing order -----------------------------------------------------------------------------

  /** Every file in `done` imports only files that come before it: the order in which files are finished. */
  ghost predicate Topological(disk: Disk, done: seq<Path>) {
    forall i, q :: 0 <= i < |done| && Edge(disk, done[i], q) ==> q in done[..i]
  }

  lemma TopologicalMore(disk: Disk, done: seq<Path>, p: Path)
    requires Topological(disk, done) && forall q :: Edge(disk, p, q) ==> q in done
    ensures Topological(disk, done + [p])
  {
    var all := done + [p];
    forall i, q | 0 <= i < |all| && Edge(disk, all[i], q)
      ensures q in all[..i]
    {
      assert all[..i] == done[..i];
      if i < |done| {
        assert Edge(disk, done[i], q);
      } else {
        assert done[..i] == done;
      }
    }
  }

  /** A walk from a file in a finishing order only leads to files before it. */
  lemma {:induction false} WalkDescends(disk: Disk, done: seq<Path>, i: nat, w: seq<Path>)
    requires Topological(disk, done) && i < |done| && IsWalk(disk, w) && w[0] == done[i]
    ensures |w| > 1 ==> w[|w| - 1] in done[..i]
    ensures w[|w| - 1] in done
    decreases |w|
  {
    if |w| == 1 {
    } else {
      var front := w[..|w| - 1];
      WalkDescends(disk, done, i, front);
      assert Edge(disk, w[|w| - 2], w[|w| - 1]);
      var k: nat :| k <= i && k < |done| && done[k] == front[|front| - 1];
      assert w[|w| - 1] in done[..k];
    }
  }

  /** A finishing order of distinct files has no cycle, and is closed under reachability. */
  lemma FinishedIsAcyclic(disk: Disk, done: seq<Path>, root: Path)
    requires Topological(disk, done) && Distinct(done) && root in done
    ensures !HasCycle(disk, root)
    ensures forall p :: Reachable(disk, root, p) ==> p in done
  {
    var r: nat :| r < |done| && done[r] == root;
    forall p | Reachable(disk, root, p)
      ensures p in done && !OnCycle(disk, p)
    {
      var w :| Joins(disk, w, root, p);
      WalkDescends(disk, done, r, w);
      var i: nat :| i < |done| && done[i] == p;
      forall v | |v| > 1 && Joins(disk, v, p, p)
        ensures false
      {
        WalkDescends(disk, done, i, v);
      }
    }
  }

  // ---- the walk ------------------------------------------------------------------------------------

  /**
   The state of a walk: the files on the stack import one another, those seen are finished or on the stack, and the
   finished ones import only finished ones.
   */
  ghost predicate Walking(disk: Disk, stack: seq<Path>, seen: set<Path>, done: seq<Path>) {
    && IsWalk(disk, stack) && Distinct(stack) && (forall p <- stack :: Parses(disk, p))
    && Distinct(done) && Topological(disk, done) && (forall p <- done :: p !in stack)
    && stack[0] !in seen
    && (forall p :: p in seen <==> p in done || p in stack[1..])
    && (forall p <- seen :: Parses(disk, p) && Reachable(disk, stack[0], p))
  }

  lemma WalkingPush(disk: Disk, stack: seq<Path>, seen: set<Path>, done: seq<Path>, p: Path)
    requires Walking(disk, stack, seen, done) && Edge(disk, stack[|stack| - 1], p)
    requires p !in stack && p !in seen && Parses(disk, p)
    ensures Walking(disk, stack + [p], seen + {p}, done)
  {
    var more := stack + [p];
    assert more[1..] == stack[1..] + [p];
    WalkMore(disk, stack, p);
    WalkReaches(disk, more, |stack|);
  }

  lemma WalkingPop(disk: Disk, stack: seq<Path>, seen: set<Path>, done: seq<Path>, p: Path)
    requires stack != [] && Walking(disk, stack + [p], seen, done)
    requires forall q :: Edge(disk, p, q) ==> q in done
    ensures Walking(disk, stack, seen, done + [p])
  {
    hide Reachable;
    var more := stack + [p];
    assert more[1..] == stack[1..] + [p];
    assert p == more[|stack|] && p in more;
    TopologicalMore(disk, done, p);
    assert stack == more[..|stack|];
  }

  lemma WalkingNow(disk: Disk, stack: seq<Path>, seen: set<Path>, done: seq<Path>)
    requires Walking(disk, stack, seen, done)
    ensures IsWalk(disk, stack) && stack != []
    ensures forall p <- seen :: p !in stack ==> p in done
  {
    assert forall p <- stack[1..] :: p in stack;
  }

  /** An import that is missing or broken. */
  lemma BrokenImport(disk: Disk, stack: seq<Path>, p: Path)
    requires IsWalk(disk, stack) && Edge(disk, stack[|stack| - 1], p) && !Parses(disk, p)
    ensures !AllParse(disk, stack[0])
  {
    WalkMore(disk, stack, p);
    WalkReaches(disk, stack + [p], |stack|);
  }

  /** A file on the walk and one it reaches that differ in their syntax. */
  lemma SyntaxClash(disk: Disk, stack: seq<Path>, seen: set<Path>, done: seq<Path>, p: Path)
    requires Walking(disk, stack, seen, done) && p in seen
    requires Parses(disk, stack[|stack| - 1]) && Parses(disk, p) && disk[stack[|stack| - 1]].syntax != disk[p].syntax
    ensures !OneSyntax(disk, stack[0])
  {
    WalkReaches(disk, stack, |stack| - 1);
  }

  /** The files that are being read, each imported by the one below it. */
  class ImportStack {
    var list: seq<Path>

    constructor ()
      ensures list == []
    {
      list := [];
    }

    /** Refuses a file that is on the stack already. */
    method Push(p: Path) returns (ok: bool)
      modifies this
      ensures ok <==> p !in old(list)
      ensures list == if ok then old(list) + [p] else old(list)
    {
      var i := 0;
      while i < |list|
        invariant 0 <= i <= |list| && p !in list[..i]
      {
        if list[i] == p {
          return false;
        }
        i := i + 1;
      }
      list := list + [p];
      ok := true;
    }

    method Pop()
      requires list != []
      modifies this
      ensures list == old(list)[..|old(list)| - 1]
    {
      list := list[..|list| - 1];
    }
  }

  /** The imported files seen so far, which all files of one run share. */
  class ImportSet {
    var seen: set<Path>
    /** The files seen whose own imports have all been merged, in the order in which that was done. */
    ghost var done: seq<Path>

    constructor ()
      ensures seen == {} && done == []
    {
      seen, done := {}, [];
    }
  }

  /** The files merged into the APIs of a list, one API after the other. */
  ghost function Orders(list: seq<Api>): seq<Path>
    reads list
  {
    if list == [] then [] else Orders(list[..|list| - 1]) + list[|list| - 1].order
  }

  class Api {
    const disk: Disk
    const filename: Path
    const syntax: string
    const imports: map<string, Path>
    const importValues: seq<Node>
    const infoKeys: seq<Node>
    const importManager: ImportStack
    const importSet: ImportSet
    var types: seq<TypeStmt>
    var services: seq<Service>
    /** The files merged into this one, itself first. */
    ghost var order: seq<Path>

    ghost predicate Valid()
      reads this
    {
      && Parses(disk, filename)
      && syntax == disk[filename].syntax && imports == disk[filename].imports
      && importValues == disk[filename].importValues && infoKeys == disk[filename].infoKeys
      && order != [] && order[0] == filename
      && types == TypesOf(disk, order) && services == ServicesOf(disk, order)
      && forall p <- order :: Parses(disk, p) && disk[p].syntax == syntax
    }

    /** The API of one file that parses, without its imports. */
    constructor (disk: Disk, filename: Path, importSet: ImportSet, importManager: ImportStack)
      requires Parses(disk, filename)
      ensures Valid() && this.disk == disk && this.filename == filename
      ensures this.importSet == importSet && this.importManager == importManager
      ensures order == [filename] && types == disk[filename].types && services == disk[filename].services
    {
      var file := disk[filename];
      this.disk, this.filename, this.importSet, this.importManager := disk, filename, importSet, importManager;
      syntax, imports, types, services := file.syntax, file.imports, file.types, file.services;
      importValues, infoKeys := file.importValues, file.infoKeys;
      order := [filename];
      assert [filename][1..] == [];
    }

    /** Takes over what `other` has gathered, if both are written in the same syntax. */
    method MergeApi(other: Api) returns (ok: bool)
      requires Valid() && other.Valid() && other != this && other.disk == disk
      modifies this
      ensures Valid() && ok == (syntax == other.syntax)
      ensures order == old(order) + if ok then other.order else []
      ensures types == old(types) + (if ok then other.types else [])
      ensures services == old(services) + if ok then other.services else []
    {
      if syntax != other.syntax {
        return false;
      }
      MergedConcat(disk, order, other.order);
      types := types + other.types;
      services := services + other.services;
      order := order + other.order;
      ok := true;
    }

    /** The state of the walk when this file is the one on top of the stack. */
    ghost predicate Walks()
      reads this, importManager, importSet
    {
      && Valid()
      && Walking(disk, importManager.list, importSet.seen, importSet.done)
      && importManager.list[|importManager.list| - 1] == filename
    }

    /** Reads the imports, in any order, and their imports; those not seen before are returned. */
    method ParseImportedApi() returns (r: Result<seq<Api>>)
      requires Walks()
      modifies importManager, importSet
      ensures r.Fails? ==> Justified(disk, old(importManager.list[0]), r.error)
      ensures r.Fine? ==> Walks() && importManager.list == old(importManager.list)
      ensures r.Fine? ==>
                && (forall e <- r.value :: fresh(e) && Child(e))
                && Lists(Orders(r.value), old(importSet.seen), importSet.seen)
      ensures r.Fine? ==> old(importSet.done) <= importSet.done
      ensures r.Fine? ==> forall q :: Edge(disk, filename, q) ==> q in importSet.done
      decreases disk.Keys - importSet.seen, 1
    {
      hide Walking, Topological, Justified, Reachable;
      var list: seq<Api> := [];
      var remaining := imports.Keys;
      while remaining != {}
        invariant remaining <= imports.Keys
        invariant Walks() && importManager.list == old(importManager.list)
        invariant forall e <- list :: fresh(e) && Child(e)
        invariant Lists(Orders(list), old(importSet.seen), importSet.seen)
        invariant old(importSet.done) <= importSet.done
        invariant forall raw <- imports.Keys - remaining :: imports[raw] in importSet.done
        decreases remaining
      {
        var raw :| raw in remaining;
        remaining := remaining - {raw};
        ghost var seen, done := importSet.seen, importSet.done;
        assert Edge(disk, filename, imports[raw]);
        var e := ParseImport(imports[raw]);
        if e.Fails? {
          return Fails(e.error);
        }
        if e.value.Some? {
          ListsJoin(Orders(list), e.value.value.order, old(importSet.seen), seen, importSet.seen);
          list := list + [e.value.value];
        }
      }
      r := Fine(list);
    }

    /** Reads one import, unless it was seen before. */
    method ParseImport(path: Path) returns (r: Result<Option<Api>>)
      requires Walks() && Edge(disk, filename, path)
      modifies importManager, importSet
      ensures r.Fails? ==> Justified(disk, old(importManager.list[0]), r.error)
      ensures r.Fine? ==> Walks() && importManager.list == old(importManager.list)
      ensures r.Fine? ==> old(importSet.done) <= importSet.done && path in importSet.done
      ensures r.Fine? && r.value.None? ==> importSet.seen == old(importSet.seen)
      ensures r.Fine? && r.value.Some? ==> fresh(r.value.value) && Child(r.value.value)
      ensures r.Fine? && r.value.Some? ==> Lists(r.value.value.order, old(importSet.seen), importSet.seen)
      decreases disk.Keys - importSet.seen, 0
    {
      hide Walking, Topological, HasCycle, AllParse, OneSyntax, Reachable, IsWalk, Lists;
      ghost var stack, seen, done := importManager.list, importSet.seen, importSet.done;
      WalkingNow(disk, stack, seen, done);
      var ok := importManager.Push(path);
      if !ok {
        StackCycle(disk, stack, path);
        return Fails(ImportCycle);
      }
      if path in importSet.seen {
        importManager.Pop();
        assert importManager.list == stack;
        return Fine(None);
      }
      importSet.seen := importSet.seen + {path};
      if path !in disk || disk[path].Broken? {
        BrokenImport(disk, stack, path);
        return Fails(DoesNotParse);
      }
      WalkingPush(disk, stack, seen, done, path);
      var nested := new Api(disk, path, importSet, importManager);
      var err := nested.ParseReverse();
      if err.Some? {
        return Fails(err.value);
      }
      WalkingPop(disk, stack, importSet.seen, importSet.done, path);
      ListsCons(path, nested.order, seen, importSet.seen);
      importManager.Pop();
      assert importManager.list == stack;
      importSet.done := importSet.done + [path];
      r := Fine(Some(nested));
    }

    /** Reads all imports and merges what they declare. */
    method ParseReverse() returns (err: Option<Error>)
      requires Walks() && order == [filename]
      modifies this, importManager, importSet
      ensures err.Some? ==> Justified(disk, old(importManager.list[0]), err.value)
      ensures err.None? ==> Walks() && importManager.list == old(importManager.list)
      ensures err.None? ==> Lists(order[1..], old(importSet.seen), importSet.seen)
      ensures err.None? ==> forall q :: Edge(disk, filename, q) ==> q in importSet.done
      ensures err.None? ==> old(importSet.done) <= importSet.done
      decreases disk.Keys - importSet.seen, 2
    {
      hide Walking, Topological, HasCycle, AllParse, OneSyntax, Reachable, IsWalk, Lists;
      var r := ParseImportedApi();
      if r.Fails? {
        return Some(r.error);
      }
      ghost var orders := Orders(r.value);
      assert this !in r.value;
      err := MergeAll(r.value);
      assert Orders(r.value) == orders;
    }

    /** Merges the APIs of the imports, one after the other. */
    method MergeAll(list: seq<Api>) returns (err: Option<Error>)
      requires Walks() && order == [filename] && this !in list && forall e <- list :: Child(e)
      modifies this
      ensures err.Some? ==> Justified(disk, importManager.list[0], err.value)
      ensures err.None? ==> Valid() && order == [filename] + Orders(list)
    {
      hide Walking, Topological, HasCycle, AllParse, OneSyntax, Reachable, IsWalk, Lists, TypesOf, ServicesOf;
      var i := 0;
      while i < |list|
        invariant 0 <= i <= |list|
        invariant Valid() && forall e <- list :: Child(e)
        invariant order == [filename] + Orders(list[..i])
      {
        ghost var orders := Orders(list[..i + 1]);
        assert list[i] in list && list[..i + 1][..i] == list[..i];
        assert order + list[i].order == [filename] + orders;
        var ok := MergeApi(list[i]);
        if !ok {
          SyntaxClash(disk, importManager.list, importSet.seen, importSet.done, list[i].filename);
          return Some(SyntaxDiffers);
        }
        i := i + 1;
        assert forall e <- list[..i] :: e in list;
        assert Orders(list[..i]) == orders;
      }
      assert list[..i] == list;
      err := None;
    }

    /** An API of an imported file that has gathered its imports. */
    ghost predicate Child(e: Api)
      reads e, importSet
    {
      e.Valid() && e.disk == disk && e.filename in importSet.seen
    }
  }

  // ---- the whole resolution ------------------------------------------------------------------------

  /** `order` lists the files that `root` reaches, itself first and each of them once. */
  ghost predicate ListsReachable(disk: Disk, root: Path, order: seq<Path>) {
    order != [] && order[0] == root && Distinct(order) && forall p :: p in order <==> Reachable(disk, root, p)
  }

  ghost predicate Resolvable(disk: Disk, root: Path) {
    AllParse(disk, root) && OneSyntax(disk, root) && !HasCycle(disk, root)
  }

  lemma ReachesItself(disk: Disk, root: Path)
    ensures Reachable(disk, root, root)
  {
    assert Joins(disk, [root], root, root);
  }

  /** A walk that came to its end has found all there is, and nothing to object to. */
  lemma WalkIsOver(disk: Disk, root: Path, seen: set<Path>, done: seq<Path>, order: seq<Path>)
    requires Walking(disk, [root], seen, done) && forall q :: Edge(disk, root, q) ==> q in done
    requires order != [] && order[0] == root && Lists(order[1..], {}, seen)
    requires Parses(disk, root) && forall p <- order :: Parses(disk, p) && disk[p].syntax == disk[root].syntax
    ensures ListsReachable(disk, root, order) && Resolvable(disk, root)
  {
    TopologicalMore(disk, done, root);
    var all := done + [root];
    assert root in all;
    FinishedIsAcyclic(disk, all, root);
    ReachesItself(disk, root);
    assert order == [root] + order[1..];
    forall p
      ensures p in order <==> Reachable(disk, root, p)
    {
      assert p in order <==> p == root || p in order[1..];
    }
  }

  lemma StartsWalking(disk: Disk, root: Path)
    requires Parses(disk, root)
    ensures Walking(disk, [root], {}, [])
  {
  }

  /** Reads a file and all it imports. */
  method Parse(disk: Disk, root: Path) returns (r: Result<Api>)
    ensures r.Fails? ==> Justified(disk, root, r.error)
    ensures r.Fine? <==> Resolvable(disk, root)
    ensures AllParse(disk, root) && OneSyntax(disk, root) ==> (r == Fails(ImportCycle) <==> HasCycle(disk, root))
    ensures r.Fine? ==> r.value.Valid() && r.value.disk == disk && r.value.importManager.list == [root]
    ensures r.Fine? ==> r.value.filename == root && ListsReachable(disk, root, r.value.order)
    // What is declared is what the files of the list declare, each of them once.
    ensures r.Fine? ==>
              && AllOf(disk, r.value.order)
              && TypesMerged(disk, r.value.order, r.value.types)
              && ServicesMerged(disk, r.value.order, r.value.services)
              && r.value.importValues == disk[root].importValues && r.value.infoKeys == disk[root].infoKeys
  {
    hide TypesMerged, ServicesMerged, IsWalk, Topological, HasCycle, Reachable, Lists, ListsReachable;
    ReachesItself(disk, root);
    if root !in disk || disk[root].Broken? {
      return Fails(DoesNotParse);
    }
    var stack := new ImportStack();
    var importSet := new ImportSet();
    var ok := stack.Push(root);
    assert stack.list == [root];
    StartsWalking(disk, root);
    var api := new Api(disk, root, importSet, stack);
    var err := api.ParseReverse();
    if err.Some? {
      return Fails(err.value);
    }
    WalkIsOver(disk, root, importSet.seen, importSet.done, api.order);
    MergedTypes(disk, api.order);
    MergedServices(disk, api.order);
    r := Fine(api);
  }
}
