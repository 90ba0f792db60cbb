/** What the parser of route paths reads from the tokens ahead. */
module PathSpec {
  import opened Tokens
  import opened DataTypes
  import opened ParseSpec
  import opened RoundTrip

  /** The tokens that end a path: those that may follow it in a route. */
  predicate EndsPath(ms: seq<Mark>) {
    Peek(ms) in {LPAREN, AT_DOC, AT_HANDLER, SEMICOLON, RBRACE} || PeekText(ms) == "returns"
  }

  /** The rest of a path item: identifiers, each maybe after a dash. */
  function ParseItemRest(ms: seq<Mark>): (r: Parsed<seq<Mark>>)
    ensures r.Ok? ==> |r.rest| <= |ms|
    decreases |ms|
  {
    if EndsPath(ms) || Peek(ms) == QUO || Peek(ms) == EOF then Ok([], ms)
    else if Peek(ms) == SUB then
      if !CanAdvance(ms) || Peek(ms[1..]) != IDENT || !CanAdvance(ms[1..]) then Fail
      else
        match ParseItemRest(ms[1..][1..])
        case Ok(more, rest) => Ok([ms[0]] + ([ms[1]] + more), rest)
        case Fail => Fail
    else if Peek(ms) != IDENT || !CanAdvance(ms) then Fail
    else
      match ParseItemRest(ms[1..])
      case Ok(more, rest) => Ok([ms[0]] + more, rest)
      case Fail => Fail
  }

  function ParseItem(ms: seq<Mark>): (r: Parsed<seq<Mark>>)
    ensures r.Ok? ==> |r.rest| < |ms|
  {
    if Peek(ms) !in {IDENT, INT} || !CanAdvance(ms) then Fail
    else
      match ParseItemRest(ms[1..])
      case Ok(more, rest) => Ok([ms[0]] + more, rest)
      case Fail => Fail
  }

  /** Does a comment stand between the token before and the next one, on the line of the former? */
  predicate Noted(ms: seq<Mark>) {
    ms != [] && ms[0].noted
  }

  /** The tokens of a path. Behind a slash, unless it ends the path, no comment may stand. */
  function ParsePath(ms: seq<Mark>): (r: Parsed<seq<Mark>>)
    ensures r.Ok? ==> |r.rest| <= |ms|
    decreases |ms|
  {
    if EndsPath(ms) then Ok([], ms)
    else if Peek(ms) != QUO || !CanAdvance(ms) then Fail
    else if EndsPath(ms[1..]) then Ok([ms[0]], ms[1..])
    else if Noted(ms[1..]) then Fail
    else
      match ParseSegment(ms[1..])
      case Fail => Fail
      case Ok(segment, rest) =>
        if !EndsPath(rest) && Peek(rest) != QUO then Fail
        else
          match ParsePath(rest)
          case Ok(more, rest') => Ok([ms[0]] + (segment + more), rest')
          case Fail => Fail
  }

  /** What follows a slash: an item, maybe after a colon. */
  function ParseSegment(ms: seq<Mark>): (r: Parsed<seq<Mark>>)
    ensures r.Ok? ==> |r.rest| < |ms|
  {
    if Peek(ms) != COLON then ParseItem(ms)
    else if !CanAdvance(ms) then Fail
    else
      match ParseItem(ms[1..])
      case Ok(item, rest) => Ok([ms[0]] + item, rest)
      case Fail => Fail
  }

  function Texts(ms: seq<Mark>): string {
    if ms == [] then "" else Texts(ms[..|ms| - 1]) + ms[|ms| - 1].text
  }

  // ---- the grammar of paths ------------------------------------------------------------------------

  /**
   May `m` stand after a token of kind `a` in a path? `returns` may only after a dash or a colon, and after a slash no
   comment may come before it.
   */
  predicate MayFollow(a: Kind, m: Mark) {
    && (m.text == "returns" ==> a == SUB || a == COLON)
    && (m.noted ==> a != QUO)
    && match a
       case QUO => m.kind == COLON || m.kind == IDENT || m.kind == INT
       case COLON => m.kind == IDENT || m.kind == INT
       case IDENT | INT => m.kind == IDENT || m.kind == SUB || m.kind == QUO
       case SUB => m.kind == IDENT
       case _ => false
  }

  /** The tokens `ms` go on a path after a token of kind `a`, up to its end. */
  predicate GoesOnAs(a: Kind, ms: seq<Mark>)
    decreases |ms|
  {
    if ms == [] then a == QUO || a == IDENT || a == INT else MayFollow(a, ms[0]) && GoesOnAs(ms[0].kind, ms[1..])
  }

  predicate IsPath(ms: seq<Mark>) {
    ms == [] || (ms[0].kind == QUO && ms[0].text != "returns" && GoesOnAs(QUO, ms[1..]))
  }

  lemma GoesOnCons(a: Kind, m: Mark, rest: seq<Mark>)
    ensures GoesOnAs(a, [m] + rest) <==> MayFollow(a, m) && GoesOnAs(m.kind, rest)
  {
    assert ([m] + rest)[1..] == rest;
  }

  /** The tokens `taken` were read from `ms`, and go on a path after `a` when `more` follows. */
  predicate Taken(ms: seq<Mark>, taken: seq<Mark>, rest: seq<Mark>, a: Kind, more: seq<Mark>) {
    taken + rest == ms && GoesOnAs(a, taken + more)
  }

  lemma TakenCons(ms: seq<Mark>, taken: seq<Mark>, rest: seq<Mark>, a: Kind, more: seq<Mark>)
    requires ms != [] && MayFollow(a, ms[0]) && Taken(ms[1..], taken, rest, ms[0].kind, more)
    ensures Taken(ms, [ms[0]] + taken, rest, a, more)
  {
    hide GoesOnAs, MayFollow;
    var m := ms[0];
    assert ([m] + taken) + more == [m] + (taken + more);
    assert ([m] + taken) + rest == [m] + (taken + rest) == ms;
    GoesOnCons(a, m, taken + more);
  }

  lemma TakenNone(ms: seq<Mark>, a: Kind, more: seq<Mark>)
    requires (a == IDENT || a == INT) && IsPath(more)
    ensures Taken(ms, [], ms, a, more)
  {
    assert [] + more == more && [] + ms == ms;
  }

  lemma {:induction false} ItemRestTaken(ms: seq<Mark>, a: Kind, more: seq<Mark>)
    requires ParseItemRest(ms).Ok? && (a == IDENT || a == INT) && IsPath(more)
    ensures var Ok(taken, rest) := ParseItemRest(ms); Taken(ms, taken, rest, a, more)
    decreases |ms|
  {
    hide GoesOnAs, Taken, IsPath;
    if EndsPath(ms) || Peek(ms) == QUO || Peek(ms) == EOF {
      TakenNone(ms, a, more);
    } else if Peek(ms) == SUB {
      var tail := ms[1..][1..];
      ItemRestTaken(tail, IDENT, more);
      var Ok(taken, rest) := ParseItemRest(tail);
      TakenCons(ms[1..], taken, rest, SUB, more);
      TakenCons(ms, [ms[1]] + taken, rest, a, more);
    } else {
      ItemRestTaken(ms[1..], IDENT, more);
      var Ok(taken, rest) := ParseItemRest(ms[1..]);
      TakenCons(ms, taken, rest, a, more);
    }
  }

  lemma ItemTaken(ms: seq<Mark>, a: Kind, more: seq<Mark>)
    requires ParseItem(ms).Ok? && (a == QUO || a == COLON) && IsPath(more)
    requires a == QUO ==> PeekText(ms) != "returns" && !Noted(ms)
    ensures var Ok(taken, rest) := ParseItem(ms); Taken(ms, taken, rest, a, more)
  {
    hide ParseItemRest, Taken, IsPath;
    ItemRestTaken(ms[1..], Peek(ms), more);
    TakenCons(ms, ParseItemRest(ms[1..]).value, ParseItemRest(ms[1..]).rest, a, more);
  }

  lemma SegmentTaken(ms: seq<Mark>, more: seq<Mark>)
    requires ParseSegment(ms).Ok? && PeekText(ms) != "returns" && !Noted(ms) && IsPath(more)
    ensures var Ok(taken, rest) := ParseSegment(ms); Taken(ms, taken, rest, QUO, more)
  {
    hide ParseItem, Taken, IsPath;
    if Peek(ms) == COLON {
      ItemTaken(ms[1..], COLON, more);
      TakenCons(ms, ParseItem(ms[1..]).value, ParseItem(ms[1..]).rest, QUO, more);
    } else {
      ItemTaken(ms, QUO, more);
    }
  }

  /** A parsed path is exactly the tokens up to what follows it, and they have the form of a path. */
  lemma {:induction false} PathTaken(ms: seq<Mark>)
    requires ParsePath(ms).Ok?
    ensures var Ok(taken, rest) := ParsePath(ms); taken + rest == ms && IsPath(taken) && EndsPath(rest)
    decreases |ms|
  {
    hide ParseSegment;
    if EndsPath(ms) {
      assert [] + ms == ms;
    } else if EndsPath(ms[1..]) {
      assert [ms[0]][1..] == [];
    } else {
      hide EndsPath, GoesOnAs;
      var Ok(segment, mid) := ParseSegment(ms[1..]);
      PathTaken(mid);
      var Ok(more, rest) := ParsePath(mid);
      SegmentTaken(ms[1..], more);
      PathJoin(ms, segment, mid, more, rest);
    }
  }

  lemma PathJoin(ms: seq<Mark>, segment: seq<Mark>, mid: seq<Mark>, more: seq<Mark>, rest: seq<Mark>)
    requires ms != [] && ms[0].kind == QUO && ms[0].text != "returns" &&
             Taken(ms[1..], segment, mid, QUO, more) && more + rest == mid
    ensures ([ms[0]] + (segment + more)) + rest == ms && IsPath([ms[0]] + (segment + more))
  {
    hide GoesOnAs;
    assert segment + (more + rest) == (segment + more) + rest;
    assert ([ms[0]] + (segment + more)) + rest == [ms[0]] + ((segment + more) + rest);
    assert ([ms[0]] + (segment + more))[1..] == segment + more;
  }

  // ---- every path is read ----------------------------------------------------------------------------

  lemma WordReads(m: Mark, tail: seq<Mark>, more: seq<Mark>, rest: seq<Mark>)
    requires m.kind == IDENT && m.text != "returns" && ParseItemRest(tail) == Ok(more, rest) && Peek(tail) != ERROR
    ensures ParseItemRest([m] + tail) == Ok([m] + more, rest)
  {
    Cons(m, tail);
  }

  lemma DashReads(d: Mark, m: Mark, tail: seq<Mark>, more: seq<Mark>, rest: seq<Mark>)
    requires d.kind == SUB && d.text != "returns" && m.kind == IDENT
    requires ParseItemRest(tail) == Ok(more, rest) && Peek(tail) != ERROR
    ensures ParseItemRest([d] + ([m] + tail)) == Ok([d] + ([m] + more), rest)
  {
    var ms := [d] + ([m] + tail);
    Cons(m, tail);
    Cons(d, [m] + tail);
  }

  /** What goes on a path begins with no error. */
  lemma NoError(a: Kind, taken: seq<Mark>, rest: seq<Mark>)
    requires GoesOnAs(a, taken) && Peek(rest) != ERROR
    ensures Peek(taken + rest) != ERROR
  {
    if taken == [] {
      assert taken + rest == rest;
    }
  }

  /** The rest of an item is read up to the next slash or the end of the path. */
  lemma {:induction false} ItemRestReads(a: Kind, taken: seq<Mark>, rest: seq<Mark>)
    returns (item: seq<Mark>, more: seq<Mark>)
    requires (a == IDENT || a == INT) && GoesOnAs(a, taken) && EndsPath(rest) && Peek(rest) != ERROR
    ensures taken == item + more && IsPath(more) && ParseItemRest(taken + rest) == Ok(item, more + rest)
    decreases |taken|
  {
    hide ParseItemRest;
    if taken == [] || taken[0].kind == QUO {
      item, more := [], taken;
      ItemEnds(taken, rest);
    } else if taken[0].kind == SUB {
      var tail := taken[1..][1..];
      item, more := ItemRestReads(IDENT, tail, rest);
      NoError(IDENT, tail, rest);
      item := ItemDash(taken, tail, rest, item, more);
    } else {
      item, more := ItemRestReads(IDENT, taken[1..], rest);
      NoError(IDENT, taken[1..], rest);
      item := ItemWord(taken, taken[1..], rest, item, more);
    }
  }

  lemma ItemWord(taken: seq<Mark>, tail: seq<Mark>, rest: seq<Mark>, item: seq<Mark>, more: seq<Mark>)
    returns (longer: seq<Mark>)
    requires taken != [] && tail == taken[1..] && taken[0].kind == IDENT && taken[0].text != "returns"
    requires tail == item + more && ParseItemRest(tail + rest) == Ok(item, more + rest) && Peek(tail + rest) != ERROR
    ensures taken == longer + more && ParseItemRest(taken + rest) == Ok(longer, more + rest)
  {
    hide ParseItemRest;
    var m := taken[0];
    WordReads(m, tail + rest, item, more + rest);
    Assoc([m], tail, rest);
    Assoc([m], item, more);
    longer := [m] + item;
    assert taken == [m] + tail;
  }

  lemma ItemDash(taken: seq<Mark>, tail: seq<Mark>, rest: seq<Mark>, item: seq<Mark>, more: seq<Mark>)
    returns (longer: seq<Mark>)
    requires |taken| > 1 && tail == taken[1..][1..]
    requires taken[0].kind == SUB && taken[0].text != "returns" && taken[1].kind == IDENT
    requires tail == item + more && ParseItemRest(tail + rest) == Ok(item, more + rest) && Peek(tail + rest) != ERROR
    ensures taken == longer + more && ParseItemRest(taken + rest) == Ok(longer, more + rest)
  {
    hide ParseItemRest;
    var d, m := taken[0], taken[1];
    DashReads(d, m, tail + rest, item, more + rest);
    Assoc([m], tail, rest);
    Assoc([d], [m] + tail, rest);
    Assoc([m], item, more);
    Assoc([d], [m] + item, more);
    longer := [d] + ([m] + item);
    assert taken[1..] == [m] + tail && taken == [d] + taken[1..];
  }

  lemma ItemEnds(taken: seq<Mark>, rest: seq<Mark>)
    requires if taken == [] then EndsPath(rest) else taken[0].kind == QUO
    ensures ParseItemRest(taken + rest) == Ok([], taken + rest)
  {
    if taken == [] {
      assert taken + rest == rest;
    }
  }

  lemma {:induction false} ItemReads(taken: seq<Mark>, rest: seq<Mark>) returns (item: seq<Mark>, more: seq<Mark>)
    requires taken != [] && (taken[0].kind == IDENT || taken[0].kind == INT) && GoesOnAs(taken[0].kind, taken[1..])
    requires EndsPath(rest) && Peek(rest) != ERROR
    ensures item != [] && taken == item + more && IsPath(more) && ParseItem(taken + rest) == Ok(item, more + rest)
  {
    hide ParseItemRest, EndsPath, GoesOnAs, IsPath;
    var m, tail := taken[0], taken[1..];
    item, more := ItemRestReads(m.kind, tail, rest);
    NoError(m.kind, tail, rest);
    assert taken + rest == [m] + (tail + rest);
    Cons(m, tail + rest);
    item := [m] + item;
    assert taken == [m] + tail;
  }

  lemma {:induction false} SegmentReads(taken: seq<Mark>, rest: seq<Mark>) returns (segment: seq<Mark>, more: seq<Mark>)
    requires taken != [] && GoesOnAs(QUO, taken) && EndsPath(rest) && Peek(rest) != ERROR
    ensures segment != [] && taken == segment + more && IsPath(more)
    ensures ParseSegment(taken + rest) == Ok(segment, more + rest)
  {
    hide ParseItem, EndsPath, IsPath;
    if taken[0].kind == COLON {
      var m, tail := taken[0], taken[1..];
      segment, more := ItemReads(tail, rest);
      NoError(COLON, tail, rest);
      assert taken + rest == [m] + (tail + rest);
      Cons(m, tail + rest);
      segment := [m] + segment;
      assert taken == [m] + tail;
    } else {
      segment, more := ItemReads(taken, rest);
    }
  }

  /** A path is read whole, whatever ends it. */
  lemma {:induction false} PathReads(taken: seq<Mark>, rest: seq<Mark>)
    requires IsPath(taken) && EndsPath(rest) && Peek(rest) != ERROR
    ensures ParsePath(taken + rest) == Ok(taken, rest)
    decreases |taken|
  {
    if taken == [] {
      assert taken + rest == rest;
    } else {
      hide EndsPath, ParsePath;
      var m, tail := taken[0], taken[1..];
      assert taken + rest == [m] + (tail + rest) && taken == [m] + tail;
      if tail == [] {
        assert tail + rest == rest;
        SlashEnds(m, rest);
      } else {
        var segment, more := SegmentReads(tail, rest);
        PathReads(more, rest);
        NoError(QUO, tail, rest);
        NoEnd(tail, rest);
        PathOn(m, tail + rest, segment, more, rest);
      }
    }
  }

  lemma NoEnd(tail: seq<Mark>, rest: seq<Mark>)
    requires tail != [] && GoesOnAs(QUO, tail)
    ensures !EndsPath(tail + rest) && !Noted(tail + rest)
  {
    assert (tail + rest)[0] == tail[0];
  }

  lemma SlashEnds(m: Mark, rest: seq<Mark>)
    requires m.kind == QUO && m.text != "returns" && EndsPath(rest) && Peek(rest) != ERROR
    ensures ParsePath([m] + rest) == Ok([m], rest)
  {
    hide ParseSegment;
    Cons(m, rest);
  }

  lemma PathOn(m: Mark, ms: seq<Mark>, segment: seq<Mark>, more: seq<Mark>, rest: seq<Mark>)
    requires m.kind == QUO && m.text != "returns" && !EndsPath(ms) && !Noted(ms) && Peek(ms) != ERROR
    requires ParseSegment(ms) == Ok(segment, more + rest) && ParsePath(more + rest) == Ok(more, rest)
    requires IsPath(more) && EndsPath(rest)
    ensures ParsePath([m] + ms) == Ok([m] + (segment + more), rest)
  {
    hide ParseSegment;
    Cons(m, ms);
    if more == [] {
      assert more + rest == rest;
    }
  }

  /** A path is parsed exactly if it has the form of one and something that ends a path follows. */
  lemma PathExact(taken: seq<Mark>, rest: seq<Mark>)
    requires Peek(rest) != ERROR
    ensures ParsePath(taken + rest) == Ok(taken, rest) <==> IsPath(taken) && EndsPath(rest)
  {
    hide IsPath, EndsPath, ParsePath;
    if IsPath(taken) && EndsPath(rest) {
      PathReads(taken, rest);
    }
    if ParsePath(taken + rest).Ok? {
      PathTaken(taken + rest);
    }
  }
}
