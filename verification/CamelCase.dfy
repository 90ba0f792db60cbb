/** The camel-case names that protobuf gives to Go identifiers. */
module CamelCase {
  import opened Lexis
  import opened FileNaming

  /** What character `i` contributes, which only the characters beside it decide. */
  function Piece(s: string, i: nat): string
    requires i < |s|
  {
    if i == 0 && s[0] == '_' then "X"
    else if s[i] == '_' && i + 1 < |s| && IsLower(s[i + 1]) then ""
    else if IsLower(s[i]) && StartsHere(s, i) then [Up(s[i])]
    else [s[i]]
  }

  /** Does a letter here start a word? */
  predicate StartsHere(s: string, i: nat)
    requires i < |s|
  {
    i == 0 || s[i - 1] == '_' || IsDigit(s[i - 1])
  }

  /** The pieces of the first `n` characters. */
  function Pieces(s: string, n: nat): string
    requires n <= |s|
  {
    if n == 0 then "" else Pieces(s, n - 1) + Piece(s, n - 1)
  }

  lemma PiecesGrow(s: string, i: nat)
    requires i < |s|
    ensures Pieces(s, i + 1) == Pieces(s, i) + Piece(s, i)
  {}

  function Camel(s: string): string {
    Pieces(s, |s|)
  }

  /** A lower-case letter is neither first nor after an underscore or a digit, and an underscore is not first. */
  predicate Normal(s: string) {
    && (s != "" ==> s[0] != '_')
    && forall i :: 0 <= i < |s| && IsLower(s[i]) ==> !StartsHere(s, i)
  }

  /** The letters and digits, without underscores and without case. */
  function Bare(s: string): string {
    if s == "" then "" else Bare(s[..|s| - 1]) + if s[|s| - 1] == '_' then "" else [Up(s[|s| - 1])]
  }

  // ---- what becomes of each character ------------------------------------------------------------------

  /** An underscore before a lower-case letter goes, unless it is the first character. */
  predicate Dropped(s: string, i: nat)
    requires i < |s|
  {
    0 < i && s[i] == '_' && i + 1 < |s| && IsLower(s[i + 1])
  }

  /** A first underscore becomes an `X`, a lower-case letter that starts a word a capital; others stay as they are. */
  predicate Becomes(s: string, i: nat, c: char)
    requires i < |s|
  {
    if i == 0 && s[0] == '_' then c == 'X'
    else if IsLower(s[i]) && (i == 0 || s[i - 1] == '_' || IsDigit(s[i - 1])) then c as int == s[i] as int - 32
    else c == s[i]
  }

  /**
   Character `k` of the result is what becomes of character `at[k]` of the name: in their order, and of all of the first
   `n` but those dropped.
   */
  predicate IsKept(s: string, n: nat, t: string, at: seq<nat>)
    requires n <= |s|
  {
    && |at| == |t|
    && (forall k :: 0 <= k < |at| ==> KeptAt(s, n, t, at, k))
    && (forall j, k :: 0 <= j < k < |at| ==> at[j] < at[k])
    && (forall i :: 0 <= i < n && !Dropped(s, i) ==> i in at)
  }

  predicate KeptAt(s: string, n: nat, t: string, at: seq<nat>, k: nat)
    requires n <= |s| && k < |at| == |t|
  {
    at[k] < n && !Dropped(s, at[k]) && Becomes(s, at[k], t[k])
  }

  lemma {:induction false} PiecesAreKept(s: string, n: nat) returns (at: seq<nat>)
    requires n <= |s|
    ensures IsKept(s, n, Pieces(s, n), at)
  {
    if n == 0 {
      at := [];
    } else {
      hide IsKept, Piece, Dropped;
      var before := PiecesAreKept(s, n - 1);
      at := if Dropped(s, n - 1) then before else before + [n - 1];
      KeptMore(s, n - 1, Pieces(s, n - 1), before);
    }
  }

  lemma PieceBecomes(s: string, i: nat)
    requires i < |s|
    ensures if Dropped(s, i) then Piece(s, i) == "" else |Piece(s, i)| == 1 && Becomes(s, i, Piece(s, i)[0])
  {
  }

  lemma KeptMore(s: string, n: nat, t: string, at: seq<nat>)
    requires n < |s| && IsKept(s, n, t, at)
    ensures IsKept(s, n + 1, t + Piece(s, n), if Dropped(s, n) then at else at + [n])
  {
    hide Dropped, Becomes, Piece;
    PieceBecomes(s, n);
    if Dropped(s, n) {
      assert t + "" == t;
      var m := n + 1;
      forall k | 0 <= k < |at|
        ensures KeptAt(s, m, t, at, k)
      {
        assert KeptAt(s, n, t, at, k);
      }
    } else {
      KeptOne(s, n, t, at, Piece(s, n)[0]);
      assert [Piece(s, n)[0]] == Piece(s, n);
    }
  }

  lemma KeptOne(s: string, n: nat, t: string, at: seq<nat>, c: char)
    requires n < |s| && IsKept(s, n, t, at) && !Dropped(s, n) && Becomes(s, n, c)
    ensures IsKept(s, n + 1, t + [c], at + [n])
  {
    hide Dropped, Becomes;
    var t', at' := t + [c], at + [n];
    forall k | 0 <= k < |at'|
      ensures KeptAt(s, n + 1, t', at', k) && at'[k] <= n && (k < |at| ==> at'[k] < n)
    {
      assert k < |at| ==> KeptAt(s, n, t, at, k);
    }
    assert at'[|at|] == n && forall i <- at :: i in at';
  }

  // ---- how many underscores ----------------------------------------------------------------------------

  /** Where a text has underscores. */
  function Underscores(t: string): set<nat> {
    set k: nat | k < |t| && t[k] == '_'
  }

  /** The underscores, among the first `n` characters, that are neither first nor before a lower-case letter. */
  function Staying(s: string, n: nat): set<nat>
    requires n <= |s|
  {
    set i: nat | i < n && Stays(s, i)
  }

  predicate Stays(s: string, i: nat)
    requires i < |s|
  {
    0 < i && s[i] == '_' && (i + 1 == |s| || !IsLower(s[i + 1]))
  }

  lemma OneMore(t: string, p: string)
    requires |p| <= 1
    ensures |Underscores(t + p)| == |Underscores(t)| + if p == "_" then 1 else 0
  {
    if p == "_" {
      assert Underscores(t + p) == Underscores(t) + {|t|};
    } else {
      assert Underscores(t + p) == Underscores(t);
    }
  }

  lemma {:induction false} PiecesUnderscores(s: string, n: nat)
    requires n <= |s|
    ensures |Underscores(Pieces(s, n))| == |Staying(s, n)|
  {
    if n == 0 {
      assert Underscores("") == {} && Staying(s, 0) == {};
    } else {
      PiecesUnderscores(s, n - 1);
      OneMore(Pieces(s, n - 1), Piece(s, n - 1));
      if Piece(s, n - 1) == "_" {
        assert Staying(s, n) == Staying(s, n - 1) + {n - 1};
      } else {
        assert Staying(s, n) == Staying(s, n - 1);
      }
    }
  }

  /** The result has as many underscores as the name has that are neither first nor before a lower-case letter. */
  lemma CamelUnderscores(s: string)
    ensures |Underscores(Camel(s))| == |Staying(s, |s|)|
  {
    PiecesUnderscores(s, |s|);
  }

  /** Word by word: a word is a digit, or any other character and the lower-case letters after it. */
  method CamelCase(s: string) returns (t: string)
    ensures t == Camel(s)
    ensures exists at :: IsKept(s, |s|, t, at)
  {
    ghost var at := PiecesAreKept(s, |s|);
    if s == "" {
      return "";
    }
    t := "";
    var i := 0;
    if s[0] == '_' {
      t := t + "X";
      i := i + 1;
    }
    while i < |s|
      invariant 0 <= i <= |s| && t == Pieces(s, i)
      invariant i == 0 ==> s[0] != '_'
      invariant 0 < i < |s| && IsLower(s[i]) ==> StartsHere(s, i)
    {
      hide Pieces;
      PiecesGrow(s, i);
      var c := s[i];
      if c == '_' && i + 1 < |s| && IsLower(s[i + 1]) {
        i := i + 1;
        continue;
      }
      if IsDigit(c) {
        t := t + [c];
        i := i + 1;
        continue;
      }
      if IsLower(c) {
        c := (c as int - 32) as char;
      }
      t := t + [c];
      i, t := LowerCase(s, i, t);
      i := i + 1;
    }
  }

  /** Takes over the lower-case letters behind character `i`, which starts a word. */
  method LowerCase(s: string, i: nat, t: string) returns (j: nat, u: string)
    requires i < |s| && t == Pieces(s, i + 1) && !IsDigit(s[i])
    requires s[i] != '_' || i + 1 == |s| || !IsLower(s[i + 1])
    ensures i <= j < |s| && u == Pieces(s, j + 1) && (j + 1 == |s| || !IsLower(s[j + 1]))
  {
    hide Pieces;
    j, u := i, t;
    while j + 1 < |s| && IsLower(s[j + 1])
      invariant i <= j < |s| && u == Pieces(s, j + 1) && !IsDigit(s[j])
      invariant s[j] != '_' || j + 1 == |s| || !IsLower(s[j + 1])
    {
      j := j + 1;
      PiecesGrow(s, j);
      u := u + [s[j]];
    }
  }

  /** The pieces so far are in normal form, and end with the last character unless that is an underscore. */
  lemma {:induction false} PiecesAreNormal(s: string, n: nat)
    requires n <= |s|
    ensures Normal(Pieces(s, n)) && |Pieces(s, n)| <= n && (n > 0 ==> Pieces(s, n) != "")
    ensures n > 0 && s[n - 1] != '_' ==>
              var t := Pieces(s, n); t[|t| - 1] == s[n - 1] || t[|t| - 1] == Up(s[n - 1])
  {
    if n == 0 {
    } else {
      PiecesAreNormal(s, n - 1);
      var t := Pieces(s, n - 1);
      NormalMore(s, n - 1, t);
    }
  }

  lemma NormalMore(s: string, i: nat, t: string)
    requires i < |s| && Normal(t) && (i == 0 <==> t == "")
    requires i > 0 && s[i - 1] != '_' ==> t[|t| - 1] == s[i - 1] || t[|t| - 1] == Up(s[i - 1])
    ensures Normal(t + Piece(s, i))
  {
    var p := Piece(s, i);
    var r := t + p;
    forall k | 0 <= k < |r| && IsLower(r[k])
      ensures !StartsHere(r, k)
    {
      if k < |t| {
        assert r[k] == t[k] && (k > 0 ==> r[k - 1] == t[k - 1]);
      } else {
        assert r[k] == p[0] == s[i];
      }
    }
  }

  /** The result is always in normal form, and no longer than the name. */
  lemma CamelIsNormal(s: string)
    ensures Normal(Camel(s)) && |Camel(s)| <= |s|
  {
    PiecesAreNormal(s, |s|);
  }

  lemma {:induction false} NormalPieces(s: string, n: nat)
    requires Normal(s) && n <= |s|
    ensures Pieces(s, n) == s[..n]
  {
    if n == 0 {
    } else {
      NormalPieces(s, n - 1);
      if n < |s| && IsLower(s[n]) {
        assert !StartsHere(s, n);
      }
    }
  }

  /** Exactly the names in normal form are left as they are; so doing it twice is doing it once. */
  lemma FixedIffNormal(s: string)
    ensures Camel(s) == s <==> Normal(s)
    ensures Camel(Camel(s)) == Camel(s)
  {
    CamelIsNormal(s);
    if Normal(s) {
      NormalPieces(s, |s|);
      assert s[..|s|] == s;
    }
    NormalPieces(Camel(s), |Camel(s)|);
    assert Camel(s)[..|Camel(s)|] == Camel(s);
  }

  lemma BareMore(t: string, p: string)
    requires |p| <= 1
    ensures Bare(t + p) == Bare(t) + Bare(p)
  {
    if p == "" {
      assert t + p == t;
    } else {
      assert (t + p)[..|t|] == t && p[..0] == "";
    }
  }

  lemma BareOne(p: string)
    requires |p| <= 1
    ensures Bare(p) == if p == "" || p == "_" then "" else [Up(p[0])]
  {
  }

  /** The bare form of what character `i` contributes. */
  lemma BarePiece(s: string, i: nat)
    requires i < |s|
    ensures Bare(Piece(s, i)) == if s[i] == '_' then (if i == 0 then "X" else "") else [Up(s[i])]
  {
    hide Bare;
    BareOne(Piece(s, i));
  }

  lemma BareLast(s: string, n: nat)
    requires 0 < n <= |s|
    ensures Bare(s[..n]) == Bare(s[..n - 1]) + if s[n - 1] == '_' then "" else [Up(s[n - 1])]
  {
    assert s[..n][..n - 1] == s[..n - 1];
  }

  lemma Regroup(x: string, b: string, y: string)
    ensures (x + b) + y == x + (b + y)
  {
  }

  /** What goes before the bare name. */
  function Prefix(s: string): string {
    if s != "" && s[0] == '_' then "X" else ""
  }

  lemma {:induction false} PiecesKeepBare(s: string, n: nat)
    requires 0 < n <= |s|
    ensures Bare(Pieces(s, n)) == Prefix(s) + Bare(s[..n])
  {
    hide Bare, Piece, Pieces;
    PiecesBare(s, n);
    BarePiece(s, n - 1);
    BareLast(s, n);
    if n == 1 {
      NothingBare(s);
    } else {
      PiecesKeepBare(s, n - 1);
      Regroup(Prefix(s), Bare(s[..n - 1]), if s[n - 1] == '_' then "" else [Up(s[n - 1])]);
    }
  }

  lemma PiecesBare(s: string, n: nat)
    requires 0 < n <= |s|
    ensures Bare(Pieces(s, n)) == Bare(Pieces(s, n - 1)) + Bare(Piece(s, n - 1))
  {
    PieceIsShort(s, n - 1);
    BareMore(Pieces(s, n - 1), Piece(s, n - 1));
  }

  lemma PieceIsShort(s: string, i: nat)
    requires i < |s|
    ensures |Piece(s, i)| <= 1
  {
  }

  lemma NothingBare(s: string)
    ensures Bare(s[..0]) == "" && Bare(Pieces(s, 0)) == ""
  {
  }

  /** But for underscores and case the name is kept, with an `X` before it if it starts with an underscore. */
  lemma CamelKeepsLetters(s: string)
    ensures Bare(Camel(s)) == Prefix(s) + Bare(s)
  {
    if s != "" {
      PiecesKeepBare(s, |s|);
      assert s[..|s|] == s;
    }
  }
}
