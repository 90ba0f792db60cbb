/** The loops of the parser, round by round, against the recursive specification; and the texts they put together. */
module Rounds {
  import opened Tokens
  import opened DataTypes
  import opened ParseSpec
  import opened PathSpec
  import opened TypeStatements
  import opened StatementSpec

  lemma PrependNone<T>(r: Parsed<seq<T>>)
    ensures Prepend([], r) == r
  {
    if r.Ok? {
      assert [] + r.value == r.value;
    }
  }

  lemma PrependOne<T>(list: seq<T>, x: T, r: Parsed<seq<T>>)
    ensures Prepend(list, Prepend([x], r)) == Prepend(list + [x], r)
  {
    if r.Ok? {
      assert list + ([x] + r.value) == (list + [x]) + r.value;
    }
  }

  /** One element at a time. */
  lemma ElemsUnfold(ms: seq<Mark>)
    ensures Peek(ms) == RBRACE || Peek(ms) == EOF ==> ParseElems(ms) == Ok([], ms)
    ensures Peek(ms) !in {RBRACE, EOF, IDENT, MUL} ==> ParseElems(ms) == Fail
    ensures Peek(ms) in {IDENT, MUL} ==>
              ParseElems(ms) == match ParseElem(ms)
                                case Fail => Fail
                                case Ok(e, rest) =>
                                  if Peek(rest) in {IDENT, MUL, RBRACE} then Prepend([e], ParseElems(rest)) else Fail
  {
    hide ParseElem;
  }

  /** One more name, after a comma. */
  lemma NamesUnfold(ms: seq<Mark>)
    ensures Peek(ms) != COMMA ==> ParseNames(ms) == Ok([], ms)
    ensures Peek(ms) == COMMA ==>
              ParseNames(ms) ==
              if !CanAdvance(ms) || Peek(ms[1..]) != IDENT || !CanAdvance(ms[1..]) || IsKeyword(PeekText(ms[1..]))
              then Fail
              else Prepend([PeekText(ms[1..])], ParseNames(ms[1..][1..]))
  {
    hide IsKeyword;
  }

  lemma PrependMany<T>(list: seq<T>, more: seq<T>, r: Parsed<seq<T>>)
    ensures Prepend(list, Prepend(more, r)) == Prepend(list + more, r)
  {
    if r.Ok? {
      assert list + (more + r.value) == (list + more) + r.value;
    }
  }

  /** What one round of the loop over a path item reads: an identifier, or a dash and one. */
  function ItemRound(ms: seq<Mark>): (r: Parsed<seq<Mark>>)
    ensures r.Ok? ==> |r.rest| < |ms|
  {
    if Peek(ms) == SUB then
      if CanAdvance(ms) && Peek(ms[1..]) == IDENT && CanAdvance(ms[1..])
      then Ok([ms[0]] + [ms[1]], ms[1..][1..])
      else Fail
    else if Peek(ms) == IDENT && CanAdvance(ms) then Ok([ms[0]], ms[1..])
    else Fail
  }

  /** A segment that the end of the path or a slash follows. */
  function AfterSlash(ms: seq<Mark>): (r: Parsed<seq<Mark>>)
    ensures r.Ok? ==> |r.rest| < |ms|
  {
    match ParseSegment(ms)
    case Fail => Fail
    case Ok(segment, rest) => if EndsPath(rest) || Peek(rest) == QUO then Ok(segment, rest) else Fail
  }

  /** What one round of the loop over a path reads: a slash and, unless the path ends, a segment. */
  function PathRound(ms: seq<Mark>): (r: Parsed<seq<Mark>>)
    ensures r.Ok? ==> |r.rest| < |ms|
  {
    if Peek(ms) != QUO || !CanAdvance(ms) then Fail
    else if EndsPath(ms[1..]) then Ok([ms[0]], ms[1..])
    else if Noted(ms[1..]) then Fail
    else
      match AfterSlash(ms[1..])
      case Fail => Fail
      case Ok(segment, rest) => Ok([ms[0]] + segment, rest)
  }

  lemma SegmentStarts(ms: seq<Mark>)
    ensures ParseSegment(ms).Ok? ==> Peek(ms) in {COLON, IDENT, INT}
  {
    hide ParseItemRest;
  }

  /** One round, and then the rest. */
  function Sequel(round: Parsed<seq<Mark>>, rest: Parsed<seq<Mark>>): Parsed<seq<Mark>> {
    if round.Fail? then Fail else Prepend(round.value, rest)
  }

  /** May an item end here? */
  predicate EndsItem(ms: seq<Mark>) {
    EndsPath(ms) || Peek(ms) == QUO || Peek(ms) == EOF
  }

  lemma ItemUnfold(ms: seq<Mark>)
    ensures EndsItem(ms) ==> ParseItemRest(ms) == Ok([], ms)
    ensures !EndsItem(ms) ==>
              var round := ItemRound(ms);
              ParseItemRest(ms) == Sequel(round, if round.Ok? then ParseItemRest(round.rest) else Fail)
  {
    hide EndsPath;
    if CanAdvance(ms) && CanAdvance(ms[1..]) && ParseItemRest(ms[1..][1..]).Ok? {
      var more := ParseItemRest(ms[1..][1..]).value;
      assert [ms[0]] + ([ms[1]] + more) == ([ms[0]] + [ms[1]]) + more;
    }
  }

  lemma PathUnfold(ms: seq<Mark>)
    ensures EndsPath(ms) ==> ParsePath(ms) == Ok([], ms)
    ensures !EndsPath(ms) ==>
              ParsePath(ms) == Sequel(PathRound(ms), if PathRound(ms).Ok? then ParsePath(PathRound(ms).rest) else Fail)
  {
    if !EndsPath(ms) && Peek(ms) == QUO && CanAdvance(ms) {
      if EndsPath(ms[1..]) {
        assert [ms[0]] + [] == [ms[0]];
      } else {
        SegmentUnfold(ms);
      }
    }
  }

  lemma SegmentUnfold(ms: seq<Mark>)
    requires !EndsPath(ms) && Peek(ms) == QUO && CanAdvance(ms) && !EndsPath(ms[1..])
    ensures ParsePath(ms) == Sequel(PathRound(ms), if PathRound(ms).Ok? then ParsePath(PathRound(ms).rest) else Fail)
  {
    hide EndsPath, ParseSegment;
    if ParseSegment(ms[1..]).Ok? && ParsePath(ParseSegment(ms[1..]).rest).Ok? {
      var segment, more := ParseSegment(ms[1..]).value, ParsePath(ParseSegment(ms[1..]).rest).value;
      assert [ms[0]] + (segment + more) == ([ms[0]] + segment) + more;
    }
  }

  /** One declaration at a time. */
  lemma ExprsUnfold(ms: seq<Mark>)
    ensures Peek(ms) == RPAREN || Peek(ms) == EOF ==> ParseTypeExprs(ms) == Ok([], ms)
    ensures !(Peek(ms) == RPAREN || Peek(ms) == EOF) ==>
              ParseTypeExprs(ms) == match ParseTypeExpr(ms)
                                    case Fail => Fail
                                    case Ok(e, rest) =>
                                      if Peek(rest) == IDENT || Peek(rest) == RPAREN
                                      then Prepend([e], ParseTypeExprs(rest))
                                      else Fail
  {
    hide ParseTypeExpr;
  }

  /** Tokens that have the kinds and the texts of the marks. */
  predicate Match(tokens: seq<Token>, ms: seq<Mark>) {
    |tokens| == |ms| && forall i :: 0 <= i < |ms| ==> tokens[i].kind == ms[i].kind && tokens[i].text == ms[i].text
  }

  lemma MatchOne(t: Token, m: Mark)
    requires t.kind == m.kind && t.text == m.text
    ensures Match([t], [m])
  {
  }

  lemma MatchMore(a: seq<Token>, x: seq<Mark>, b: seq<Token>, y: seq<Mark>)
    requires Match(a, x) && Match(b, y)
    ensures Match(a + b, x + y)
  {
  }

  // ---- statements ----------------------------------------------------------------------------------

  lemma StringsUnfold(ms: seq<Mark>)
    ensures Peek(ms) == RPAREN ==> ParseStrings(ms) == Ok([], ms)
    ensures Peek(ms) != RPAREN ==>
              var value := OneOf(ms, {STRING});
              ParseStrings(ms) ==
              if value.Fail? || Peek(value.rest) !in {RPAREN, STRING} then Fail
              else Prepend([value.value], ParseStrings(value.rest))
  {
    hide OneOf;
  }

  lemma OneOfFails(ms: seq<Mark>, kinds: set<Kind>)
    ensures OneOf(ms, kinds).Ok? ==> Peek(ms) in kinds
  {
  }

  lemma PartUnfold(ms: seq<Mark>, sign: Kind, dashed: bool)
    ensures var first := OneOf(ms, {sign});
            && (first.Fail? ==> ParsePart(ms, sign, dashed).Fail?)
            && (first.Ok? ==>
                  var id := OneOf(first.rest, {IDENT});
                  && (id.Fail? ==> ParsePart(ms, sign, dashed).Fail?)
                  && (id.Ok? ==>
                        ParsePart(ms, sign, dashed) ==
                        if dashed && Peek(id.rest) == SUB
                        then Then(first.value + id.value, ParsePart(id.rest, SUB, false))
                        else Ok(first.value + id.value, id.rest)))
  {
    hide OneOf;
  }

  lemma PartsUnfold(ms: seq<Mark>, sign: Kind, dashed: bool)
    ensures Peek(ms) != sign ==> ParseParts(ms, sign, dashed) == Ok("", ms)
    ensures Peek(ms) == sign ==>
              var part := ParsePart(ms, sign, dashed);
              ParseParts(ms, sign, dashed) ==
              if part.Fail? then Fail else Then(part.value, ParseParts(part.rest, sign, dashed))
  {
    hide ParsePart;
  }

  lemma ThenThen(a: string, b: string, r: Parsed<string>)
    ensures Then(a, Then(b, r)) == Then(a + b, r)
  {
    if r.Ok? {
      assert a + (b + r.value) == (a + b) + r.value;
    }
  }

  lemma KVsUnfold(ms: seq<Mark>, server: bool)
    ensures Peek(ms) == RPAREN ==> ParseKVs(ms, server) == Ok([], ms)
    ensures Peek(ms) != RPAREN ==>
              var kv := ParseKV(ms, server);
              ParseKVs(ms, server) ==
              if kv.Fail? || Peek(kv.rest) !in {RPAREN, KEY} then Fail
              else Prepend([kv.value], ParseKVs(kv.rest, server))
  {
    hide ParseKV;
  }

  lemma ItemsUnfold(ms: seq<Mark>)
    ensures Peek(ms) == RBRACE ==> ParseItems(ms) == Ok([], ms)
    ensures Peek(ms) != RBRACE ==>
              var item := ParseServiceItem(ms);
              ParseItems(ms) ==
              if item.Fail? || Peek(item.rest) !in {AT_DOC, AT_HANDLER, RBRACE} then Fail
              else Prepend([item.value], ParseItems(item.rest))
  {
    hide ParseServiceItem;
  }

  lemma FileUnfold(ms: seq<Mark>)
    ensures Peek(ms) == EOF ==> ParseFile(ms) == Ok([], ms)
    ensures Peek(ms) != EOF ==>
              ParseFile(ms) ==
              if !CanAdvance(ms) then Fail
              else var stmt := ParseStmtAfter(Peek(ms), PeekText(ms), ms[1..]);
                   if stmt.Fail? then Fail else Prepend([stmt.value], ParseFile(stmt.rest))
    ensures Peek(ms) != IDENT && Peek(ms) != AT_SERVER && Peek(ms) != EOF ==> ParseFile(ms) == Fail
  {
    hide ParseStmtAfter;
    if CanAdvance(ms) {
      StmtStarts(Peek(ms), PeekText(ms), ms[1..]);
    }
  }

  lemma StmtStarts(kind: Kind, text: string, ms: seq<Mark>)
    ensures ParseStmtAfter(kind, text, ms).Ok? ==> kind == IDENT || kind == AT_SERVER
  {
    hide ParseServiceStmt, ParseSyntax, ParseKVGroup, ParseTypes, ParseImport;
  }

  method JoinTexts(tokens: seq<Token>, ghost ms: seq<Mark>) returns (text: string)
    requires Match(tokens, ms)
    ensures text == Texts(ms)
  {
    text := "";
    for i := 0 to |tokens|
      invariant text == Texts(ms[..i])
    {
      assert ms[..i + 1][..i] == ms[..i];
      text := text + tokens[i].text;
    }
    assert ms[..|tokens|] == ms;
  }
}
