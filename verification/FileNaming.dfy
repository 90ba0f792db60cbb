/** File naming styles: a name is split into words, and put together again in the style of a format. */
module FileNaming {
  import opened DataTypes
  import opened Lexis
  import opened Offsets

  // ---- letters ---------------------------------------------------------------------------------------

  predicate IsUpper(c: char) {
    'A' <= c <= 'Z'
  }

  predicate IsLower(c: char) {
    'a' <= c <= 'z'
  }

  function Up(c: char): char {
    if IsLower(c) then (c as int - 32) as char else c
  }

  function Down(c: char): char {
    if IsUpper(c) then (c as int + 32) as char else c
  }

  /** Does a word start after this character? Of those that are not ASCII, after spaces only. */
  predicate IsSeparator(c: char) {
    if c as int < 0x80 then !(IsLetter(c) || IsDigit(c) || c == '_') else IsWideSpace(c)
  }

  /** The white space that is not ASCII. */
  predicate IsWideSpace(c: char) {
    var n := c as int;
    n in {0x85, 0xA0, 0x1680, 0x2028, 0x2029, 0x202F, 0x205F, 0x3000} || 0x2000 <= n <= 0x200A
  }

  function ToUpper(s: string): string {
    seq(|s|, i requires 0 <= i < |s| => Up(s[i]))
  }

  function ToLower(s: string): string {
    seq(|s|, i requires 0 <= i < |s| => Down(s[i]))
  }

  /** Capitals where words start. */
  function ToTitle(s: string): string {
    seq(|s|, i requires 0 <= i < |s| => if i == 0 || IsSeparator(s[i - 1]) then Up(s[i]) else s[i])
  }

  // ---- words -----------------------------------------------------------------------------------------

  /** Where the word ends that goes on at `j`: at an underscore, before a capital, or at the end. */
  function WordEnd(s: string, j: nat): (e: nat)
    requires j <= |s|
    ensures j <= e <= |s|
    decreases |s| - j
  {
    if j < |s| && s[j] != '_' && !IsUpper(s[j]) then WordEnd(s, j + 1) else j
  }

  /** The words of `s` from `i` on. */
  function Words(s: string, i: nat): seq<string>
    requires i <= |s|
    decreases |s| - i
  {
    if i == |s| then []
    else if s[i] == '_' then Words(s, i + 1)
    else [s[i..WordEnd(s, i + 1)]] + Words(s, WordEnd(s, i + 1))
  }

  /** A word: not empty, without underscores, and with a capital at most at its head. */
  predicate IsWord(w: string) {
    w != "" && (forall i :: 0 <= i < |w| ==> w[i] != '_') && (forall i :: 1 <= i < |w| ==> !IsUpper(w[i]))
  }

  function Concat(words: seq<string>): string {
    if words == [] then "" else words[0] + Concat(words[1..])
  }

  function WithoutUnderscores(s: string): string {
    if s == "" then "" else (if s[0] == '_' then "" else [s[0]]) + WithoutUnderscores(s[1..])
  }

  lemma {:induction false} WordEndIs(s: string, j: nat, e: nat)
    requires j <= e <= |s| && (forall k :: j <= k < e ==> s[k] != '_' && !IsUpper(s[k]))
    requires e < |s| ==> s[e] == '_' || IsUpper(s[e])
    ensures WordEnd(s, j) == e
    decreases e - j
  {
    if j == e {
    } else {
      WordEndIs(s, j + 1, e);
    }
  }

  lemma {:induction false} WordEndStops(s: string, j: nat)
    requires j <= |s|
    ensures var e := WordEnd(s, j);
            (forall k :: j <= k < e ==> s[k] != '_' && !IsUpper(s[k])) && (e < |s| ==> s[e] == '_' || IsUpper(s[e]))
    decreases |s| - j
  {
    if j < |s| && s[j] != '_' && !IsUpper(s[j]) {
      WordEndStops(s, j + 1);
    }
  }

  lemma {:induction false} PlainPart(s: string, i: nat, e: nat)
    requires i <= e <= |s| && forall k :: i <= k < e ==> s[k] != '_'
    ensures WithoutUnderscores(s[i..]) == s[i..e] + WithoutUnderscores(s[e..])
    decreases e - i
  {
    if i < e {
      assert s[i..][1..] == s[i + 1..] && s[i..e] == [s[i]] + s[i + 1..e];
      PlainPart(s, i + 1, e);
    } else {
      assert s[i..e] == "";
    }
  }

  /** Splitting yields words, and loses nothing but underscores. */
  lemma {:induction false} WordsAreWords(s: string, i: nat)
    requires i <= |s|
    ensures forall w <- Words(s, i) :: IsWord(w)
    ensures Concat(Words(s, i)) == WithoutUnderscores(s[i..])
    decreases |s| - i
  {
    if i == |s| {
    } else {
      if s[i] == '_' {
        WordsAreWords(s, i + 1);
        assert s[i..][1..] == s[i + 1..];
      } else {
        var e := WordEnd(s, i + 1);
        WordEndStops(s, i + 1);
        WordsAreWords(s, e);
        PlainPart(s, i, e);
        assert Words(s, i)[1..] == Words(s, e);
      }
    }
  }

  /** In a text without underscores a word starts only where a capital is, but for the first. */
  lemma {:induction false} CapitalsStartWords(s: string, i: nat)
    requires i <= |s| && '_' !in s
    ensures forall k :: 1 <= k < |Words(s, i)| ==> Words(s, i)[k] != "" && IsUpper(Words(s, i)[k][0])
    ensures Words(s, i) != [] && i < |s| && IsUpper(s[i]) ==> Words(s, i)[0] != "" && IsUpper(Words(s, i)[0][0])
    decreases |s| - i
  {
    if i == |s| {
    } else {
      assert s[i] in s;
      var e := WordEnd(s, i + 1);
      WordEndStops(s, i + 1);
      CapitalsStartWords(s, e);
      if e < |s| {
        assert s[e] in s;
      }
    }
  }

  /** The next word, when it is known where it ends. */
  lemma WordAt(s: string, i: nat, e: nat)
    requires i < e <= |s| && s[i] != '_' && (forall k :: i < k < e ==> s[k] != '_' && !IsUpper(s[k]))
    requires e < |s| ==> s[e] == '_' || IsUpper(s[e])
    ensures Words(s, i) == [s[i..e]] + Words(s, e)
  {
    hide WordEnd;
    WordEndIs(s, i + 1, e);
  }

  lemma WordsSkip(s: string, i: nat)
    requires i < |s| && s[i] == '_'
    ensures Words(s, i) == Words(s, i + 1)
  {
  }

  lemma NoWords(s: string)
    ensures Words(s, |s|) == []
  {
  }

  // ---- words, by offsets -----------------------------------------------------------------------------

  /**
   Word `k` stands at `from[k]`: words are longest stretches without underscores that have a capital only at their head,
   and outside of them there are underscores only.
   */
  predicate WordsStand(s: string, i: nat, words: seq<string>, from: seq<nat>) {
    && |from| == |words|
    && (forall k :: 0 <= k < |words| ==> IsWord(words[k]) && StandsWhole(s, from[k], words[k]))
    && (forall k :: 0 <= k < |words| ==> i <= from[k] && forall l :: 0 <= l < k ==> from[l] + |words[l]| <= from[k])
    && (forall j :: i <= j < |s| && s[j] != '_' ==> exists k :: 0 <= k < |words| && from[k] <= j < from[k] + |words[k]|)
  }

  /** The word stands there, and an underscore, a capital or nothing is behind it. */
  predicate StandsWhole(s: string, i: nat, w: string) {
    var e := i + |w|;
    At(s, i, w) && (e < |s| ==> s[e] == '_' || IsUpper(s[e]))
  }

  /** Where the words stand. */
  lemma {:induction false} WordsAreThere(s: string, i: nat) returns (from: seq<nat>)
    requires i <= |s|
    ensures WordsStand(s, i, Words(s, i), from)
    decreases |s| - i
  {
    hide WordEnd;
    WordsAreWords(s, i);
    if i == |s| {
      from := [];
    } else if s[i] == '_' {
      from := WordsAreThere(s, i + 1);
    } else {
      var e := WordEnd(s, i + 1);
      WordEndStops(s, i + 1);
      var rest := WordsAreThere(s, e);
      from := [i] + rest;
      WordInFront(s, i, e, Words(s, e), rest);
    }
  }

  lemma WordInFront(s: string, i: nat, e: nat, words: seq<string>, from: seq<nat>)
    requires i < e <= |s| && WordsStand(s, e, words, from) && IsWord(s[i..e])
    requires e < |s| ==> s[e] == '_' || IsUpper(s[e])
    ensures WordsStand(s, i, [s[i..e]] + words, [i] + from)
  {
    hide IsWord, StandsWhole;
    var words', from' := [s[i..e]] + words, [i] + from;
    assert StandsWhole(s, i, s[i..e]) by {
      FirstStandsWhole(s, i, e);
    }
    forall j | i <= j < |s| && s[j] != '_'
      ensures exists k :: 0 <= k < |words'| && from'[k] <= j < from'[k] + |words'[k]|
    {
      if j < e {
        assert from'[0] <= j < from'[0] + |words'[0]|;
      } else {
        var k :| 0 <= k < |words| && from[k] <= j < from[k] + |words[k]|;
        assert from'[k + 1] <= j < from'[k + 1] + |words'[k + 1]|;
      }
    }
  }

  lemma FirstStandsWhole(s: string, i: nat, e: nat)
    requires i < e <= |s| && (e < |s| ==> s[e] == '_' || IsUpper(s[e]))
    ensures StandsWhole(s, i, s[i..e])
  {
  }

  /** Reads the content rune by rune, into a buffer that becomes a word at underscores, capitals and the end. */
  method Split(content: string) returns (list: seq<string>)
    ensures list == Words(content, 0)
  {
    hide Words, WordEnd;
    list := [];
    var buffer := "";
    var i := 0;
    ghost var start := 0;
    NoWords(content);
    while i < |content|
      invariant start <= i <= |content| && buffer == content[start..i]
      invariant Words(content, 0) == list + Words(content, start)
      invariant forall k :: start <= k < i ==> content[k] != '_'
      invariant forall k :: start < k < i ==> !IsUpper(content[k])
    {
      var r := content[i];
      if r == '_' || IsUpper(r) {
        if |buffer| > 0 {
          WordAt(content, start, i);
          list := list + [buffer];
        }
        buffer := "";
        start := i;
      }
      if r == '_' {
        WordsSkip(content, i);
        start := i + 1;
      } else {
        buffer := buffer + [r];
      }
      i := i + 1;
    }
    if |buffer| > 0 {
      WordAt(content, start, i);
      list := list + [buffer];
    }
  }

  // ---- styles ----------------------------------------------------------------------------------------

  datatype Style = Title | Lower | Upper

  function TransferTo(s: string, style: Style): string {
    match style
    case Upper => ToUpper(s)
    case Lower => ToLower(s)
    case Title => ToTitle(s)
  }

  function GetStyle(flag: string): Option<Style> {
    var compare := ToLower(flag);
    if flag == ToLower(compare) then Some(Lower)
    else if flag == ToUpper(compare) then Some(Upper)
    else if flag == ToTitle(compare) then Some(Title)
    else None
  }

  /** The words in their styles: the first in one, the others in another. */
  function Styled(words: seq<string>, go: Style, zero: Style): seq<string> {
    seq(|words|, i requires 0 <= i < |words| => TransferTo(words[i], if i == 0 then go else zero))
  }

  function Formatted(content: string, before: string, go: Style, through: string, zero: Style, after: string): string {
    before + Joined(Styled(Words(content, 0), go, zero), through) + after
  }

  // ---- names, by offsets -----------------------------------------------------------------------------

  /** A word in a style, character by character. */
  predicate InStyle(r: string, w: string, style: Style) {
    |r| == |w| &&
    forall j :: 0 <= j < |w| ==>
      r[j] == match style
              case Upper => Up(w[j])
              case Lower => Down(w[j])
              case Title => if j == 0 || IsSeparator(w[j - 1]) then Up(w[j]) else w[j]
  }

  /** The first word is in one style, and the others are in another. */
  predicate AllInStyle(rs: seq<string>, words: seq<string>, go: Style, zero: Style) {
    |rs| == |words| && forall k :: 0 <= k < |words| ==> InStyle(rs[k], words[k], if k == 0 then go else zero)
  }

  /**
   The name is the text before, the words of the content in their order and in their styles, with the text between the
   flags between neighbours, and the text after.
   */
  ghost predicate IsNamed(
    name: string, content: string, before: string, go: Style, through: string, zero: Style, after: string)
  {
    exists rs: seq<string>, at: seq<nat> ::
      AllInStyle(rs, Words(content, 0), go, zero) && IsAround(name, before, rs, through, at, after)
  }

  predicate IsAround(name: string, before: string, rs: seq<string>, through: string, at: seq<nat>, after: string) {
    && |before| + |after| <= |name| && name[..|before|] == before && name[|name| - |after|..] == after
    && Joins(name[|before|..|name| - |after|], rs, through, at)
  }

  /** The name that is put together is so named. */
  lemma FormattedIsNamed(content: string, before: string, go: Style, through: string, zero: Style, after: string)
    ensures IsNamed(Formatted(content, before, go, through, zero, after), content, before, go, through, zero, after)
  {
    hide Words, Joined, Joins, Styled, AllInStyle;
    var rs := Styled(Words(content, 0), go, zero);
    var at := JoinedIs(rs, through);
    StyledIsInStyle(Words(content, 0), go, zero);
    Around(before, Joined(rs, through), after);
    assert IsAround(Formatted(content, before, go, through, zero, after), before, rs, through, at, after);
  }

  lemma StyledIsInStyle(words: seq<string>, go: Style, zero: Style)
    ensures AllInStyle(Styled(words, go, zero), words, go, zero)
  {
  }

  lemma Around(before: string, middle: string, after: string)
    ensures var name := before + middle + after;
            && |name| == |before| + |middle| + |after|
            && name[..|before|] == before && name[|name| - |after|..] == after
            && name[|before|..|name| - |after|] == middle
  {
  }

  // ---- formats ---------------------------------------------------------------------------------------

  /** `t` stands in `s` at `i`. */
  predicate At(s: string, i: int, t: string) {
    0 <= i && i + |t| <= |s| && s[i..i + |t|] == t
  }

  /** The offset of the first `t` in `s`, or `-1`. */
  function IndexOf(s: string, t: string): (i: int)
    ensures i == -1 || At(s, i, t)
  {
    if At(s, 0, t) then 0
    else if s == "" then -1
    else
      var i := IndexOf(s[1..], t);
      if i == -1 then -1 else
        assert s[i + 1..i + 1 + |t|] == s[1..][i..i + |t|];
        i + 1
  }

  /** It is the first offset, and there is none exactly if the text is nowhere. */
  lemma {:induction false} IndexOfIsFirst(s: string, t: string)
    ensures forall i :: 0 <= i && (IndexOf(s, t) == -1 || i < IndexOf(s, t)) ==> !At(s, i, t)
    decreases |s|
  {
    if At(s, 0, t) {
    } else if s == "" {
    } else {
      IndexOfIsFirst(s[1..], t);
      forall i | 0 <= i && (IndexOf(s, t) == -1 || i < IndexOf(s, t))
        ensures !At(s, i, t)
      {
        if i > 0 && i + |t| <= |s| {
          assert !At(s[1..], i - 1, t) && s[1..][i - 1..i - 1 + |t|] == s[i..i + |t|];
        }
      }
    }
  }

  /** The flags cannot overlap. */
  lemma FlagsApart(s: string, go: int, zero: int)
    requires At(s, go, "GO") && At(s, zero, "ZERO") && go <= zero
    ensures go + 2 <= zero
  {
    assert s[go] == s[go..go + 2][0] && s[go + 1] == s[go..go + 2][1] && s[zero] == s[zero..zero + 4][0];
  }

  /** The format in parts: `go` and `zero`, each spelled in its style and the first of its kind, and the text around. */
  predicate IsFormat(format: string, before: string, go: Style, through: string, zero: Style, after: string) {
    && format == before + TransferTo("go", go) + through + TransferTo("zero", zero) + after
    && IndexOf(ToUpper(format), "GO") == |before|
    && IndexOf(ToUpper(format), "ZERO") == |before| + 2 + |through|
  }

  /** A flag has a style exactly if it is spelled in it. */
  lemma StyleIsSpelling(flag: string, word: string, style: Style)
    requires word == "go" || word == "zero"
    requires ToUpper(flag) == ToUpper(word)
    ensures GetStyle(flag) == Some(style) <==> flag == TransferTo(word, style)
  {
    forall i | 0 <= i < |flag|
      ensures Down(flag[i]) == word[i]
    {
      assert ToUpper(flag)[i] == ToUpper(word)[i];
    }
    assert ToLower(flag) == word == ToLower(word);
    assert ToUpper(word)[0] != word[0] && ToUpper(word)[1] != word[1];
    assert ToTitle(word)[0] != word[0] && ToTitle(word)[1] == word[1];
  }

  /**
   A format is accepted exactly if it has the parts of one, and the words of the content are then put together as
   those parts say.
   */
  method FileNamingFormat(format: string, content: string) returns (name: Option<string>)
    ensures name.Some? <==>
            exists before, go, through, zero, after :: IsFormat(format, before, go, through, zero, after)
    ensures forall before, go, through, zero, after :: IsFormat(format, before, go, through, zero, after) ==>
              name == Some(Formatted(content, before, go, through, zero, after)) &&
              IsNamed(name.value, content, before, go, through, zero, after)
  {
    hide IsNamed, Formatted, GetStyle, IsFormat, IndexOf, ToUpper;
    var upperFormat := ToUpper(format);
    var indexGo, indexZero := IndexOf(upperFormat, "GO"), IndexOf(upperFormat, "ZERO");
    if indexGo < 0 || indexZero < 0 || indexGo > indexZero {
      NoFlags(format);
      return None;
    }
    FlagsApart(upperFormat, indexGo, indexZero);
    SameLength(format);
    var before := format[..indexGo];
    var flagGo := format[indexGo..indexGo + 2];
    var through := format[indexGo + 2..indexZero];
    var flagZero := format[indexZero..indexZero + 4];
    var after := format[indexZero + 4..];
    Flags(format, before, flagGo, through, flagZero, after);
    var goStyle := GetStyle(flagGo);
    if goStyle.None? {
      return None;
    }
    var zeroStyle := GetStyle(flagZero);
    if zeroStyle.None? {
      return None;
    }
    assert IsFormat(format, before, goStyle.value, through, zeroStyle.value, after);
    var formatted := DoFormat(content, before, goStyle.value, through, zeroStyle.value, after);
    name := Some(formatted);
  }

  lemma SameLength(s: string)
    ensures |ToUpper(s)| == |s|
  {
  }

  lemma NoFlags(format: string)
    requires var go, zero := IndexOf(ToUpper(format), "GO"), IndexOf(ToUpper(format), "ZERO");
             go < 0 || zero < 0 || go > zero
    ensures forall b, g, th, z, a :: !IsFormat(format, b, g, th, z, a)
  {
    hide IndexOf, ToUpper;
  }

  /** The parts that a format is cut into are the only ones it can have, if their spellings have styles. */
  lemma Flags(format: string, before: string, flagGo: string, through: string, flagZero: string, after: string)
    requires |flagGo| == 2 && |flagZero| == 4 && format == before + flagGo + through + flagZero + after
    requires |before| == IndexOf(ToUpper(format), "GO") && |before| + 2 + |through| == IndexOf(ToUpper(format), "ZERO")
    ensures forall b, g, th, z, a :: IsFormat(format, b, g, th, z, a) <==>
              b == before && th == through && a == after && GetStyle(flagGo) == Some(g) && GetStyle(flagZero) == Some(z)
  {
    hide GetStyle, TransferTo, IndexOf, ToUpper;
    FlagWords();
    assert format == before + flagGo + (through + flagZero + after);
    UpperFlag(format, before, flagGo, through + flagZero + after, "GO", "go");
    UpperFlag(format, before + flagGo + through, flagZero, after, "ZERO", "zero");
    NoStyle(flagGo, "go");
    NoStyle(flagZero, "zero");
    forall b, g, th, z, a
      ensures IsFormat(format, b, g, th, z, a) <==>
              b == before && th == through && a == after && GetStyle(flagGo) == Some(g) && GetStyle(flagZero) == Some(z)
    {
      if IsFormat(format, b, g, th, z, a) {
        PartsAreUnique(format, b, g, th, z, a, before, flagGo, through, flagZero, after);
      }
    }
  }

  lemma FlagWords()
    ensures ToUpper("go") == "GO" && ToUpper("zero") == "ZERO"
  {
  }

  lemma UpperFlag(s: string, before: string, flag: string, after: string, t: string, word: string)
    requires s == before + flag + after && |flag| == |t| && At(ToUpper(s), |before|, t) && t == ToUpper(word)
    ensures ToUpper(flag) == ToUpper(word)
  {
    var i := |before|;
    assert s[i..i + |t|] == flag;
    UpperPart(s, i, t, word);
  }

  lemma UpperPart(s: string, i: int, t: string, word: string)
    requires At(ToUpper(s), i, t) && t == ToUpper(word)
    ensures ToUpper(s[i..i + |t|]) == ToUpper(word)
  {
    assert ToUpper(s)[i..i + |t|] == ToUpper(s[i..i + |t|]);
  }

  lemma NoStyle(flag: string, word: string)
    requires word == "go" || word == "zero"
    requires ToUpper(flag) == ToUpper(word)
    ensures forall style :: GetStyle(flag) == Some(style) <==> flag == TransferTo(word, style)
  {
    forall style
      ensures GetStyle(flag) == Some(style) <==> flag == TransferTo(word, style)
    {
      StyleIsSpelling(flag, word, style);
    }
  }

  lemma PartsAreUnique(
      format: string, b: string, g: Style, th: string, z: Style, a: string,
      before: string, flagGo: string, through: string, flagZero: string, after: string)
    requires IsFormat(format, b, g, th, z, a)
    requires format == before + flagGo + through + flagZero + after && |flagGo| == 2 && |flagZero| == 4
    requires |before| == IndexOf(ToUpper(format), "GO") && |before| + 2 + |through| == IndexOf(ToUpper(format), "ZERO")
    ensures b == before && th == through && a == after
    ensures flagGo == TransferTo("go", g) && flagZero == TransferTo("zero", z)
  {
    var gs, zs := TransferTo("go", g), TransferTo("zero", z);
    assert |gs| == 2 && |zs| == 4;
    SplitEqual(b + gs + th + zs, a, before + flagGo + through + flagZero, after);
    SplitEqual(b + gs + th, zs, before + flagGo + through, flagZero);
    SplitEqual(b + gs, th, before + flagGo, through);
    SplitEqual(b, gs, before, flagGo);
  }

  lemma SplitEqual(a: string, b: string, c: string, d: string)
    requires a + b == c + d && |a| == |c|
    ensures a == c && b == d
  {
    assert (a + b)[..|a|] == a && (c + d)[..|c|] == c && (a + b)[|a|..] == b && (c + d)[|c|..] == d;
  }

  method DoFormat(content: string, before: string, go: Style, through: string, zero: Style, after: string)
    returns (name: string)
    ensures name == Formatted(content, before, go, through, zero, after)
    ensures IsNamed(name, content, before, go, through, zero, after)
  {
    hide IsNamed;
    FormattedIsNamed(content, before, go, through, zero, after);
    var splits := Split(content);
    var join := [];
    for index := 0 to |splits|
      invariant join == Styled(splits, go, zero)[..index]
    {
      if index == 0 {
        join := join + [TransferTo(splits[index], go)];
      } else {
        join := join + [TransferTo(splits[index], zero)];
      }
    }
    assert join == Styled(splits, go, zero);
    name := before + Joined(join, through) + after;
  }

  // ---- what the styles keep ------------------------------------------------------------------------

  /** Words without capitals, joined by underscores, are found again. */
  lemma {:induction false} WordsOfSnake(words: seq<string>)
    requires forall w <- words :: IsWord(w) && !IsUpper(w[0])
    ensures Words(Joined(words, "_"), 0) == words
  {
    if words != [] {
      WordsOfSnakeFrom(Joined(words, "_"), 0, words);
    }
  }

  lemma WordStands(s: string, i: nat, w: string, after: string)
    requires i <= |s| && s[i..] == w + after && IsWord(w)
    ensures var e := i + |w|;
            && i < e <= |s| && s[i..e] == w && s[i] != '_' && s[e..] == after
            && forall k :: i < k < e ==> s[k] != '_' && !IsUpper(s[k])
  {
    var e := i + |w|;
    assert |s[i..]| == |w| + |after|;
    assert s[i..e] == s[i..][..|w|] == w;
    assert s[e..] == s[i..][|w|..] == after;
    assert s[i] == w[0];
    forall k | i < k < e
      ensures s[k] != '_' && !IsUpper(s[k])
    {
      assert s[k] == s[i..e][k - i] == w[k - i];
    }
  }

  /** A word that stands at `i`, with an underscore, a capital or nothing behind it, is the next one. */
  lemma FirstWord(s: string, i: nat, w: string, after: string)
    requires i <= |s| && s[i..] == w + after && IsWord(w) && (after == "" || after[0] == '_' || IsUpper(after[0]))
    ensures i + |w| <= |s| && s[i + |w|..] == after
    ensures Words(s, i) == [w] + Words(s, i + |w|)
  {
    hide WordEnd, IsWord;
    var e := i + |w|;
    WordStands(s, i, w, after);
    assert e < |s| ==> s[e] == s[e..][0];
    WordEndIs(s, i + 1, e);
  }

  lemma {:induction false} WordsOfSnakeFrom(s: string, i: nat, words: seq<string>)
    requires words != [] && forall w <- words :: IsWord(w) && !IsUpper(w[0])
    requires i <= |s| && s[i..] == Joined(words, "_")
    ensures Words(s, i) == words
    decreases |words|
  {
    hide IsWord, WordEnd;
    var w := words[0];
    assert w in words;
    if |words| == 1 {
      assert w + "" == w && words == [w];
      FirstWord(s, i, w, "");
    } else {
      var rest := Joined(words[1..], "_");
      assert w + "_" + rest == w + ("_" + rest);
      FirstWord(s, i, w, "_" + rest);
      var e := i + |w|;
      assert s[e..] == "_" + rest && s[e] == s[e..][0] && s[e + 1..] == s[e..][1..] == rest;
      WordsOfSnakeFrom(s, e + 1, words[1..]);
      assert words == [w] + words[1..];
    }
  }

  /** The `go_zero` style. */
  function Snake(content: string): string {
    Formatted(content, "", Lower, "_", Lower, "")
  }

  /** The `goZero` style. */
  function Camel(content: string): string {
    Formatted(content, "", Lower, "", Title, "")
  }

  lemma LowerWord(w: string)
    requires IsWord(w)
    ensures IsWord(ToLower(w)) && !IsUpper(ToLower(w)[0]) && ToLower(ToLower(w)) == ToLower(w)
  {
  }

  /** The words of a name in the `go_zero` style are those of the content, in lower case. */
  lemma SnakeWords(content: string)
    ensures Words(Snake(content), 0) == Styled(Words(content, 0), Lower, Lower)
  {
    hide Words, Joined, ToLower;
    var words := Words(content, 0);
    var lower := Styled(words, Lower, Lower);
    WordsAreWords(content, 0);
    forall w | w in lower
      ensures IsWord(w) && !IsUpper(w[0])
    {
      var k :| 0 <= k < |lower| && lower[k] == w;
      LowerWord(words[k]);
    }
    WordsOfSnake(lower);
    assert "" + Joined(lower, "_") + "" == Joined(lower, "_");
  }

  /** The `go_zero` style changes nothing in what it has formatted. */
  lemma SnakeIsIdempotent(content: string)
    ensures Snake(Snake(content)) == Snake(content)
  {
    hide Words, Joined, ToLower;
    var words := Words(content, 0);
    SnakeWords(content);
    WordsAreWords(content, 0);
    forall k | 0 <= k < |words|
      ensures ToLower(ToLower(words[k])) == ToLower(words[k])
    {
      LowerWord(words[k]);
    }
    assert Styled(Styled(words, Lower, Lower), Lower, Lower) == Styled(words, Lower, Lower);
  }

  /** A word that its title form does not break: it starts with a letter, and no letter in it follows a separator. */
  predicate Titled(w: string) {
    w != "" && IsLetter(w[0]) && forall j :: 1 <= j < |w| && IsSeparator(w[j - 1]) ==> !IsLower(w[j])
  }

  lemma TitleWord(w: string)
    requires IsWord(w)
    ensures Titled(w) <==> IsWord(ToTitle(w)) && IsUpper(ToTitle(w)[0])
    ensures ToTitle(w) != "" && ToLower(ToTitle(w)) == ToLower(w) && |ToTitle(w)| == |w| && '_' !in ToTitle(w)
  {
    var t := ToTitle(w);
    forall j | 0 <= j < |w|
      ensures Down(t[j]) == Down(w[j]) && t[j] != '_'
    {
    }
    if !Titled(w) && IsLetter(w[0]) {
      var j :| 1 <= j < |w| && IsSeparator(w[j - 1]) && IsLower(w[j]);
      assert IsUpper(t[j]);
    }
  }

  lemma {:induction false} JoinedIsConcat(words: seq<string>)
    ensures Joined(words, "") == Concat(words)
  {
    if |words| == 1 {
      assert words[0] + Concat(words[1..]) == words[0];
    } else if words != [] {
      JoinedIsConcat(words[1..]);
    }
  }

  lemma ConcatHead(words: seq<string>)
    requires words != [] && words[0] != ""
    ensures Concat(words) != "" && Concat(words)[0] == words[0][0]
  {
  }

  lemma {:induction false} WordsOfConcat(s: string, i: nat, words: seq<string>)
    requires forall k :: 0 <= k < |words| ==> IsWord(words[k]) && (k > 0 ==> IsUpper(words[k][0]))
    requires i <= |s| && s[i..] == Concat(words)
    ensures Words(s, i) == words
    decreases |words|
  {
    hide WordEnd, Words, Concat, IsWord;
    if words == [] {
      NothingLeft(s, i);
    } else {
      var w, rest := words[0], words[1..];
      ConcatCons(words);
      RestHead(words);
      FirstWord(s, i, w, Concat(rest));
      WordsOfConcat(s, i + |w|, rest);
      assert words == [w] + rest;
    }
  }

  lemma NothingLeft(s: string, i: nat)
    requires i <= |s| && s[i..] == Concat([])
    ensures Words(s, i) == []
  {
    assert i == |s|;
  }

  lemma RestHead(words: seq<string>)
    requires words != []
    requires forall k :: 0 <= k < |words| ==> IsWord(words[k]) && (k > 0 ==> IsUpper(words[k][0]))
    ensures Concat(words[1..]) != "" ==> IsUpper(Concat(words[1..])[0])
  {
    var rest := words[1..];
    if rest != [] {
      assert rest[0] == words[1];
      ConcatHead(rest);
    }
  }

  lemma ConcatCons(words: seq<string>)
    requires words != []
    ensures Concat(words) == words[0] + Concat(words[1..])
  {
  }

  lemma {:induction false} ConcatCancels(a: seq<string>, b: seq<string>)
    requires Concat(a) == Concat(b) && |a| == |b| && forall k :: 0 <= k < |a| ==> |a[k]| == |b[k]|
    ensures a == b
  {
    if a == [] {
    } else {
      assert forall k :: 0 <= k < |a[1..]| ==> |a[1..][k]| == |b[1..][k]|;
      SplitEqual(a[0], Concat(a[1..]), b[0], Concat(b[1..]));
      ConcatCancels(a[1..], b[1..]);
      assert a == [a[0]] + a[1..] && b == [b[0]] + b[1..];
    }
  }

  lemma {:induction false} ConcatHas(words: seq<string>, c: char)
    requires forall w <- words :: c !in w
    ensures c !in Concat(words)
  {
    if words == [] {
    } else {
      assert words[0] in words;
      ConcatHas(words[1..], c);
    }
  }

  lemma {:induction false} NoUnderscores(s: string)
    requires '_' !in s
    ensures WithoutUnderscores(s) == s
  {
    if s == "" {
    } else {
      assert s[0] in s && forall c <- s[1..] :: c in s;
      NoUnderscores(s[1..]);
    }
  }

  /** The words of the content as the `goZero` style spells them. */
  function CamelWords(content: string): seq<string> {
    Styled(Words(content, 0), Lower, Title)
  }

  lemma CamelIsConcat(content: string)
    ensures Camel(content) == Concat(CamelWords(content)) && '_' !in Camel(content)
  {
    hide Words, Joined, Concat, ToLower, ToTitle, IsWord;
    var words := Words(content, 0);
    var camel := CamelWords(content);
    JoinedIsConcat(camel);
    assert "" + Joined(camel, "") + "" == Joined(camel, "");
    WordsAreWords(content, 0);
    forall w | w in camel
      ensures '_' !in w
    {
      var k :| 0 <= k < |camel| && camel[k] == w;
      LowerWord(words[k]);
      PlainWord(ToLower(words[k]));
      TitleWord(words[k]);
    }
    ConcatHas(camel, '_');
  }

  lemma PlainWord(w: string)
    requires IsWord(w)
    ensures '_' !in w
  {
  }

  /** Is every word but the first one that its title form does not break? */
  predicate AllTitled(words: seq<string>) {
    forall k :: 1 <= k < |words| ==> Titled(words[k])
  }

  /** The words of a name in the `goZero` style are the words of the content, exactly if these can be titled. */
  lemma CamelKeepsWords(content: string)
    ensures AllTitled(Words(content, 0)) <==> Words(Camel(content), 0) == CamelWords(content)
  {
    hide Words, Joined, Concat, ToLower, ToTitle, IsWord, Titled;
    var words, camel := Words(content, 0), CamelWords(content);
    CamelIsConcat(content);
    WordsAreWords(content, 0);
    forall k | 0 <= k < |words|
      ensures k > 0 ==> (Titled(words[k]) <==> IsWord(camel[k]) && camel[k] != "" && IsUpper(camel[k][0]))
      ensures k == 0 ==> IsWord(camel[k])
    {
      LowerWord(words[k]);
      TitleWord(words[k]);
    }
    if AllTitled(words) {
      WordsOfConcat(Camel(content), 0, camel);
    }
    if Words(Camel(content), 0) == camel {
      WordsAreWords(Camel(content), 0);
      CapitalsStartWords(Camel(content), 0);
    }
  }

  /**
   Snake-casing the `goZero` form of a name gives the `go_zero` form of the name, exactly if every word but the first
   starts with a letter and has no letter behind a separator.
   */
  lemma SnakeOfCamel(content: string)
    ensures Snake(Camel(content)) == Snake(content) <==> AllTitled(Words(content, 0))
  {
    hide Words, Joined, Concat, ToLower, ToTitle, IsWord, Titled, AllTitled, Camel;
    var words, camel, found := Words(content, 0), CamelWords(content), Words(Camel(content), 0);
    WordsAreWords(content, 0);
    CamelKeepsWords(content);
    SnakeWords(content);
    SnakeWords(Camel(content));
    forall k | 0 <= k < |words|
      ensures ToLower(camel[k]) == ToLower(words[k]) && |camel[k]| == |words[k]|
    {
      LowerWord(words[k]);
      TitleWord(words[k]);
      SameSize(words[k]);
    }
    assert Styled(camel, Lower, Lower) == Styled(words, Lower, Lower);
    if Snake(Camel(content)) == Snake(content) {
      SameLengths(found, words);
      CamelIsConcat(content);
      WordsAreWords(Camel(content), 0);
      NoUnderscores(Camel(content));
      assert Camel(content)[0..] == Camel(content);
      ConcatCancels(found, camel);
    }
  }

  lemma SameSize(w: string)
    ensures |ToLower(w)| == |w|
  {
  }

  lemma SameLengths(a: seq<string>, b: seq<string>)
    requires Styled(a, Lower, Lower) == Styled(b, Lower, Lower)
    ensures |a| == |b| && forall k :: 0 <= k < |a| ==> |a[k]| == |b[k]|
  {
    hide ToLower;
    assert |Styled(a, Lower, Lower)| == |Styled(b, Lower, Lower)|;
    forall k | 0 <= k < |a|
      ensures |a[k]| == |b[k]|
    {
      assert Styled(a, Lower, Lower)[k] == Styled(b, Lower, Lower)[k];
      SameSize(a[k]);
      SameSize(b[k]);
    }
  }

  /** A digit after an underscore is where the two forms differ. */
  lemma SnakeOfCamelCanDiffer()
    ensures Words("a_1", 0) == ["a", "1"] && !AllTitled(Words("a_1", 0)) && Snake(Camel("a_1")) != Snake("a_1")
  {
    var s := "a_1";
    assert s[0..] == "a" + "_1" && s[2..] == "1" + "";
    FirstWord(s, 0, "a", "_1");
    FirstWord(s, 2, "1", "");
    assert Words(s, 3) == [];
    SnakeOfCamel("a_1");
  }
}
