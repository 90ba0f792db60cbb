/** Whatever the parser accepts has a syntax tree, and consists of exactly the words of that tree. */
module TreesKept {
  import opened Tokens
  import opened Lexis
  import opened Grammar
  import opened Source
  import opened DataTypes
  import opened ParseSpec
  import opened RoundTrip
  import opened Formatting
  import opened Stream
  import opened TypeText
  import opened PathSpec
  import opened TypeStatements
  import opened StatementSpec
  import opened SyntaxTrees

  // ---- single tokens ---------------------------------------------------------------------------------

  lemma OneKept(ms: seq<Mark>, kinds: set<Kind>)
    requires AllLegal(ms) && OneOf(ms, kinds).Ok? && EOF !in kinds
    ensures var Ok(text, rest) := OneOf(ms, kinds);
            Peek(ms) in kinds && Legal(ms[0]) && Kept(ms, [Mark(Peek(ms), text, false)], rest) && AllLegal(rest)
  {
    hide Legal;
    KeptOne(ms, Mark(Peek(ms), PeekText(ms), false));
  }

  lemma SignKept(ms: seq<Mark>, kind: Kind)
    requires AllLegal(ms) && OneOf(ms, {kind}).Ok?
    requires kind in {LPAREN, RPAREN, LBRACK, RBRACK, LBRACE, RBRACE, MUL, ASSIGN, SUB, SEMICOLON, AT_DOC, AT_HANDLER}
    ensures var rest := OneOf(ms, {kind}).rest; Kept(ms, [Sign(kind)], rest) && AllLegal(rest)
  {
    hide Kept;
    OneKept(ms, {kind});
    LegalSign(ms[0], kind);
  }

  lemma LegalSign(m: Mark, kind: Kind)
    requires Legal(m) && m.kind == kind
    requires kind in {LPAREN, RPAREN, LBRACK, RBRACK, LBRACE, RBRACE, MUL, ASSIGN,
                      SUB, SEMICOLON, AT_DOC, AT_HANDLER, AT_SERVER}
    ensures m.text == Spelling(kind)
  {
  }

  /** A token that is taken for its text is an identifier. */
  lemma WordKept(ms: seq<Mark>, words: set<string>)
    requires AllLegal(ms) && OneWord(ms, words).Ok? && forall word <- words :: IsWord(word)
    ensures var Ok(text, rest) := OneWord(ms, words); text in words && Kept(ms, [Word(text)], rest) && AllLegal(rest)
  {
    hide IsWord;
    assert Legal(ms[0]);
    LegalWord(ms[0]);
    KeptOne(ms, Word(PeekText(ms)));
  }

  lemma LegalWord(m: Mark)
    requires Legal(m) && IsWord(m.text)
    ensures m.kind == IDENT
  {
  }

  lemma WordsAreWords()
    ensures IsWord("service") && IsWord("api") && IsWord("returns") && forall word <- HTTP_METHODS :: IsWord(word)
  {
    forall word | word in {"service", "api", "returns"} + HTTP_METHODS
      ensures IsWord(word)
    {
      assert All(word, Ident);
    }
  }

  lemma SplitKept(ms: seq<Mark>, v: seq<Mark>, rest: seq<Mark>)
    requires AllLegal(ms) && v + rest == ms
    ensures Kept(ms, v, rest) && AllLegal(rest)
  {
    hide Legal;
    WordsConcat(v, rest);
    assert rest == ms[|v|..];
  }

  lemma KeptLegal(ms: seq<Mark>, v: seq<Mark>, rest: seq<Mark>)
    requires Kept(ms, v, rest)
    ensures AllLegal(rest)
  {
  }

  lemma KeptGroup(ms: seq<Mark>, mid: seq<Mark>, inner: seq<Mark>, end: seq<Mark>, rest: seq<Mark>)
    requires Kept(ms, [Sign(LPAREN)], mid) && Kept(mid, inner, end) && Kept(end, [Sign(RPAREN)], rest)
    ensures Kept(ms, Parens(inner), rest)
  {
    hide Kept;
    KeptJoin(mid, inner, end, [Sign(RPAREN)], rest);
    KeptJoin(ms, [Sign(LPAREN)], mid, inner + [Sign(RPAREN)], rest);
  }

  // ---- imports, keys and values ----------------------------------------------------------------------

  lemma {:induction false} StringsKept(ms: seq<Mark>)
    requires AllLegal(ms) && ParseStrings(ms).Ok?
    ensures var Ok(values, rest) := ParseStrings(ms); Kept(ms, PrintStrings(values), rest) && AllLegal(rest)
    decreases |ms|
  {
    hide OneOf, Kept, AllLegal;
    if Peek(ms) == RPAREN {
      KeptNone(ms);
    } else {
      var Ok(value, mid) := OneOf(ms, {STRING});
      OneKept(ms, {STRING});
      StringsKept(mid);
      var Ok(more, rest) := ParseStrings(mid);
      KeptJoin(ms, [StringMark(value)], mid, PrintStrings(more), rest);
      assert ([value] + more)[1..] == more;
    }
  }

  lemma ImportsKept(ms: seq<Mark>)
    requires AllLegal(ms) && ParseImport(ms).Ok?
    ensures var Ok(i, rest) := ParseImport(ms); Kept(ms, PrintImports(i), rest) && AllLegal(rest)
  {
    hide OneOf, Kept, AllLegal, ParseStrings, Parens;
    if Peek(ms) == LPAREN {
      var mid := OneOf(ms, {LPAREN}).rest;
      SignKept(ms, LPAREN);
      StringsKept(mid);
      var Ok(values, end) := ParseStrings(mid);
      SignKept(end, RPAREN);
      KeptGroup(ms, mid, PrintStrings(values), end, OneOf(end, {RPAREN}).rest);
    } else {
      OneKept(ms, {STRING});
    }
  }

  lemma {:induction false} KVsKept(ms: seq<Mark>)
    requires AllLegal(ms) && ParseKVs(ms, false).Ok?
    ensures var Ok(list, rest) := ParseKVs(ms, false); Kept(ms, PrintKVs(list), rest) && AllLegal(rest)
    decreases |ms|
  {
    hide OneOf, Kept, AllLegal;
    if Peek(ms) == RPAREN {
      KeptNone(ms);
    } else {
      var Ok(key, mid) := OneOf(ms, {KEY});
      OneKept(ms, {KEY});
      var Ok(value, end) := OneOf(mid, {STRING});
      OneKept(mid, {STRING});
      KVsKept(end);
      var Ok(more, rest) := ParseKVs(end, false);
      KeptJoin(mid, [StringMark(value)], end, PrintKVs(more), rest);
      KeptJoin(ms, [Mark(KEY, key, false)], mid, [StringMark(value)] + PrintKVs(more), rest);
      assert ([KV(key, value)] + more)[1..] == more;
    }
  }

  lemma GroupKept(ms: seq<Mark>)
    requires AllLegal(ms) && ParseKVGroup(ms, false).Ok?
    ensures var Ok(list, rest) := ParseKVGroup(ms, false); Kept(ms, Parens(PrintKVs(list)), rest) && AllLegal(rest)
  {
    hide OneOf, Kept, AllLegal, ParseKVs, Parens;
    var mid := OneOf(ms, {LPAREN}).rest;
    SignKept(ms, LPAREN);
    KVsKept(mid);
    var Ok(list, end) := ParseKVs(mid, false);
    SignKept(end, RPAREN);
    KeptGroup(ms, mid, PrintKVs(list), end, OneOf(end, {RPAREN}).rest);
  }

  lemma DocKept(ms: seq<Mark>)
    requires AllLegal(ms) && ParseDoc(ms).Ok?
    ensures var Ok(d, rest) := ParseDoc(ms); Kept(ms, PrintDoc(d), rest) && AllLegal(rest)
  {
    hide OneOf, Kept, AllLegal, ParseKVGroup, Parens;
    if Peek(ms) == LPAREN {
      GroupKept(ms);
    } else {
      OneKept(ms, {STRING});
    }
  }

  // ---- values of an annotation -----------------------------------------------------------------------

  /** The tokens between `ms` and `rest`. */
  predicate Took(ms: seq<Mark>, v: seq<Mark>, rest: seq<Mark>, text: string) {
    v + rest == ms && Texts(v) == text
  }

  lemma TookOne(ms: seq<Mark>, kinds: set<Kind>)
    requires OneOf(ms, kinds).Ok? && EOF !in kinds
    ensures ms != [] && ms[0].kind in kinds && Took(ms, [ms[0]], OneOf(ms, kinds).rest, OneOf(ms, kinds).value)
  {
    assert [ms[0]][..0] == [];
  }

  lemma TookJoin(a: seq<Mark>, v: seq<Mark>, b: seq<Mark>, w: seq<Mark>, c: seq<Mark>, t: string, u: string)
    requires Took(a, v, b, t) && Took(b, w, c, u)
    ensures Took(a, v + w, c, t + u)
  {
    TextsConcat(v, w);
  }

  /** A part, and maybe a dashed one. */
  lemma PartTaken(ms: seq<Mark>, sign: Kind, dashed: bool) returns (v: seq<Mark>)
    requires ParsePart(ms, sign, dashed).Ok? && sign != EOF
    ensures var Ok(text, rest) := ParsePart(ms, sign, dashed);
            && Took(ms, v, rest, text) && |v| > 1 && v[0].kind == sign && v[1].kind == IDENT
            && ((|v| == 2 && (dashed ==> Peek(rest) != SUB)) ||
                (dashed && |v| == 4 && v[2].kind == SUB && v[3].kind == IDENT))
    decreases dashed
  {
    hide OneOf, Took;
    var Ok(a, mid) := OneOf(ms, {sign});
    var Ok(b, end) := OneOf(mid, {IDENT});
    TookOne(ms, {sign});
    TookOne(mid, {IDENT});
    v := [ms[0]] + [mid[0]];
    TookJoin(ms, [ms[0]], mid, [mid[0]], end, a, b);
    if dashed && Peek(end) == SUB {
      var w := PartTaken(end, SUB, false);
      TookJoin(ms, v, end, w, ParsePart(end, SUB, false).rest, a + b, ParsePart(end, SUB, false).value);
      v := v + w;
    }
  }

  lemma {:induction false} PartsTaken(ms: seq<Mark>, sign: Kind, dashed: bool) returns (v: seq<Mark>)
    requires ParseParts(ms, sign, dashed).Ok? && sign in {QUO, COMMA, SUB}
    ensures var Ok(text, rest) := ParseParts(ms, sign, dashed); Took(ms, v, rest, text) && IsParts(v, sign, dashed)
    decreases |ms|
  {
    hide ParsePart, Took;
    if Peek(ms) != sign {
      v := [];
      TookNone(ms);
    } else {
      var Ok(part, mid) := ParsePart(ms, sign, dashed);
      var p := PartTaken(ms, sign, dashed);
      var w := PartsTaken(mid, sign, dashed);
      var Ok(more, rest) := ParseParts(mid, sign, dashed);
      TookJoin(ms, p, mid, w, rest, part, more);
      PartsCons(p, w, mid, rest, more, sign, dashed);
      v := p + w;
    }
  }

  lemma TookNone(ms: seq<Mark>)
    ensures Took(ms, [], ms, "")
  {
  }

  lemma PartsCons(p: seq<Mark>, w: seq<Mark>, mid: seq<Mark>, rest: seq<Mark>, text: string, sign: Kind, dashed: bool)
    requires Took(mid, w, rest, text) && IsParts(w, sign, dashed) && sign in {QUO, COMMA, SUB}
    requires |p| > 1 && p[0].kind == sign && p[1].kind == IDENT
    requires (|p| == 2 && (dashed ==> Peek(mid) != SUB)) ||
             (dashed && |p| == 4 && p[2].kind == SUB && p[3].kind == IDENT)
    ensures IsParts(p + w, sign, dashed)
  {
    var v := p + w;
    assert v[|p|..] == w;
    if |p| == 2 && w != [] {
      assert v[2] == w[0] == mid[0];
    }
  }

  lemma ServerValueTaken(key: string, ms: seq<Mark>) returns (v: seq<Mark>)
    requires ParseServerValue(key, ms).Ok?
    ensures var Ok(text, rest) := ParseServerValue(key, ms); Took(ms, v, rest, text) && IsServerValue(key, v)
  {
    hide OneOf, ParsePart, ParseParts, Took, IsParts;
    if Peek(ms) in {DURATION, INT} {
      TookOne(ms, {DURATION, INT});
      v := [ms[0]];
    } else if Peek(ms) == STRING {
      TookOne(ms, {STRING});
      v := [ms[0]];
    } else if Peek(ms) == QUO {
      v := PathValueTaken(ms);
    } else {
      v := WordValueTaken(ms);
    }
  }

  lemma PathValueTaken(ms: seq<Mark>) returns (v: seq<Mark>)
    requires ParsePart(ms, QUO, true).Ok?
    requires var Ok(part, mid) := ParsePart(ms, QUO, true); ParseParts(mid, QUO, true).Ok?
    ensures var Ok(part, mid) := ParsePart(ms, QUO, true);
            var Ok(more, rest) := ParseParts(mid, QUO, true);
            Took(ms, v, rest, part + more) && IsParts(v, QUO, true) && v != [] && v[0].kind == QUO
  {
    hide ParsePart, ParseParts, Took, IsParts;
    var Ok(part, mid) := ParsePart(ms, QUO, true);
    var Ok(more, rest) := ParseParts(mid, QUO, true);
    var p := PartTaken(ms, QUO, true);
    var w := PartsTaken(mid, QUO, true);
    TookJoin(ms, p, mid, w, rest, part, more);
    PartsCons(p, w, mid, rest, more, QUO, true);
    v := p + w;
  }

  lemma WordValueTaken(ms: seq<Mark>) returns (v: seq<Mark>)
    requires WordValue(ms).Ok?
    ensures var Ok(text, rest) := WordValue(ms); Took(ms, v, rest, text) && v != [] && v[0].kind == IDENT
    ensures IsParts(v[1..], COMMA, false) || IsParts(v[1..], SUB, false) || IsParts(v[1..], QUO, true)
  {
    hide OneOf, ParseParts, Took, IsParts;
    var Ok(word, mid) := OneOf(ms, {IDENT});
    TookOne(ms, {IDENT});
    var sign := if Peek(mid) in {COMMA, SUB} then Peek(mid) else QUO;
    var w := PartsTaken(mid, sign, sign == QUO);
    var parts := ParseParts(mid, sign, sign == QUO);
    TookJoin(ms, [ms[0]], mid, w, parts.rest, word, parts.value);
    v := [ms[0]] + w;
    assert v[1..] == w;
  }

  lemma {:induction false} ServerKVsKept(ms: seq<Mark>) returns (trees: seq<ServerKV>)
    requires AllLegal(ms) && ParseKVs(ms, true).Ok?
    ensures var Ok(list, rest) := ParseKVs(ms, true);
            PlainKVs(trees) == list && KVsOk(trees) && Kept(ms, PrintServerKVs(trees), rest) && AllLegal(rest)
    decreases |ms|
  {
    hide OneOf, Kept, AllLegal, IsServerValue, ParseServerValue;
    if Peek(ms) == RPAREN {
      trees := [];
      KeptNone(ms);
    } else {
      var Ok(key, mid) := OneOf(ms, {KEY, RPAREN});
      OneKept(ms, {KEY, RPAREN});
      var Ok(value, end) := ParseServerValue(key, mid);
      var v := ServerValueTaken(key, mid);
      SplitKept(mid, v, end);
      var more := ServerKVsKept(end);
      var rest := ParseKVs(end, true).rest;
      KeptJoin(mid, v, end, PrintServerKVs(more), rest);
      KeptJoin(ms, [Mark(KEY, key, false)], mid, v + PrintServerKVs(more), rest);
      trees := [ServerKV(key, v)] + more;
      assert trees[1..] == more;
    }
  }

  lemma ServerGroupKept(ms: seq<Mark>) returns (trees: seq<ServerKV>)
    requires AllLegal(ms) && ParseKVGroup(ms, true).Ok?
    ensures var Ok(list, rest) := ParseKVGroup(ms, true);
            PlainKVs(trees) == list && KVsOk(trees) && Kept(ms, Parens(PrintServerKVs(trees)), rest) && AllLegal(rest)
  {
    hide OneOf, Kept, AllLegal, ParseKVs, Parens, KVsOk;
    var mid := OneOf(ms, {LPAREN}).rest;
    SignKept(ms, LPAREN);
    trees := ServerKVsKept(mid);
    var end := ParseKVs(mid, true).rest;
    SignKept(end, RPAREN);
    KeptGroup(ms, mid, PrintServerKVs(trees), end, OneOf(end, {RPAREN}).rest);
  }

  // ---- routes ----------------------------------------------------------------------------------------

  lemma BodyNameKept(list: bool, ms: seq<Mark>)
    requires AllLegal(ms) && ParseBodyName(list, ms).Ok?
    ensures var Ok(b, rest) := ParseBodyName(list, ms);
            b.list == list && AllLegal(rest) && Kept(ms, (if b.star then [Sign(MUL)] else []) + [Word(b.name)], rest)
  {
    hide OneOf, Kept, AllLegal;
    if Peek(ms) == MUL {
      var mid := OneOf(ms, {MUL}).rest;
      SignKept(ms, MUL);
      OneKept(mid, {IDENT});
      KeptJoin(ms, [Sign(MUL)], mid, [Word(OneOf(mid, {IDENT}).value)], OneOf(mid, {IDENT}).rest);
    } else {
      OneKept(ms, {IDENT});
      assert [] + [Word(OneOf(ms, {IDENT}).value)] == [Word(OneOf(ms, {IDENT}).value)];
    }
  }

  lemma BodyExprKept(ms: seq<Mark>)
    requires AllLegal(ms) && ParseBodyExpr(ms).Ok?
    ensures var Ok(b, rest) := ParseBodyExpr(ms); Kept(ms, PrintBodyExpr(b), rest) && AllLegal(rest)
  {
    hide OneOf, Kept, AllLegal, ParseBodyName;
    if Peek(ms) != LBRACK {
      BodyNameKept(false, ms);
      var b := ParseBodyName(false, ms).value;
      var name := (if b.star then [Sign(MUL)] else []) + [Word(b.name)];
      assert [] + name == name;
    } else {
      var mid := OneOf(ms, {LBRACK}).rest;
      SignKept(ms, LBRACK);
      var end := OneOf(mid, {RBRACK}).rest;
      SignKept(mid, RBRACK);
      BodyNameKept(true, end);
      var Ok(b, rest) := ParseBodyName(true, end);
      KeptJoin(ms, [Sign(LBRACK)], mid, [Sign(RBRACK)], end);
      KeptJoin(ms, [Sign(LBRACK)] + [Sign(RBRACK)], end, (if b.star then [Sign(MUL)] else []) + [Word(b.name)], rest);
    }
  }

  lemma BodyStmtKept(ms: seq<Mark>)
    requires AllLegal(ms) && ParseBody(ms).Ok?
    ensures var Ok(b, rest) := ParseBody(ms); Kept(ms, PrintBodyStmt(b), rest) && AllLegal(rest)
  {
    hide OneOf, Kept, AllLegal, ParseBodyExpr, Parens;
    var mid := OneOf(ms, {LPAREN}).rest;
    SignKept(ms, LPAREN);
    if Peek(mid) == RPAREN {
      KeptNone(mid);
      SignKept(mid, RPAREN);
      KeptGroup(ms, mid, [], mid, OneOf(mid, {RPAREN}).rest);
    } else {
      BodyExprKept(mid);
      var Ok(b, end) := ParseBodyExpr(mid);
      SignKept(end, RPAREN);
      KeptGroup(ms, mid, PrintBodyExpr(b), end, OneOf(end, {RPAREN}).rest);
    }
  }

  lemma SemicolonKept<T>(value: T, ms: seq<Mark>)
    requires AllLegal(ms) && SkipSemicolon(value, ms).Ok?
    ensures var Ok(v, rest) := SkipSemicolon(value, ms);
            v == value && Kept(ms, Semicolon(Peek(ms) == SEMICOLON), rest) && AllLegal(rest)
  {
    hide Kept, AllLegal;
    if Peek(ms) == SEMICOLON {
      SignKept(ms, SEMICOLON);
    } else {
      KeptNone(ms);
    }
  }

  /** The response and the semicolon of a route. */
  lemma ReturnsKept(ms: seq<Mark>) returns (semicolon: bool)
    requires AllLegal(ms) && ParseReturns(ms).Ok?
    ensures var Ok(r, rest) := ParseReturns(ms);
            Kept(ms, PrintReturns(r) + Semicolon(semicolon), rest) && AllLegal(rest)
  {
    hide OneWord, Kept, AllLegal, ParseBody, PrintBodyStmt, SkipSemicolon, Semicolon;
    WordsAreWords();
    if PeekText(ms) == "returns" {
      var mid := OneWord(ms, {"returns"}).rest;
      WordKept(ms, {"returns"});
      BodyStmtKept(mid);
      var Ok(body, end) := ParseBody(mid);
      semicolon := Peek(end) == SEMICOLON;
      SemicolonKept(Some(body), end);
      KeptJoin(ms, [Word("returns")], mid, PrintBodyStmt(body), end);
      KeptJoin(
        ms, [Word("returns")] + PrintBodyStmt(body), end, Semicolon(semicolon),
        SkipSemicolon(Some(body), end).rest);
    } else {
      semicolon := Peek(ms) == SEMICOLON;
      SemicolonKept<Option<Option<Body>>>(None, ms);
      assert [] + Semicolon(semicolon) == Semicolon(semicolon);
    }
  }

  lemma BodiesKept(verb: string, path: seq<Mark>, ms: seq<Mark>) returns (r: RouteTree)
    requires AllLegal(ms) && ParseBodies(verb, Texts(path), ms).Ok?
    ensures var Ok(route, rest) := ParseBodies(verb, Texts(path), ms);
            && r.verb == verb && r.path == path && PlainRoute(r) == route
            && Kept(ms, PrintBodies(r), rest) && AllLegal(rest)
  {
    hide Kept, AllLegal, ParseBody, PrintBodyStmt, ParseReturns, PrintReturns, SkipSemicolon, Texts;
    if Peek(ms) in {AT_DOC, AT_HANDLER, RBRACE} {
      r := RouteTree(verb, path, None, None, false);
      KeptNone(ms);
      NoBodies(r);
    } else if Peek(ms) == SEMICOLON {
      r := RouteTree(verb, path, None, None, true);
      SemicolonKept(PlainRoute(r), ms);
      NoBodies(r);
    } else if Peek(ms) == LPAREN {
      BodyStmtKept(ms);
      var Ok(request, mid) := ParseBody(ms);
      var semicolon := ReturnsKept(mid);
      var Ok(response, rest) := ParseReturns(mid);
      r := RouteTree(verb, path, Some(request), response, semicolon);
      KeptJoin(ms, PrintBodyStmt(request), mid, PrintReturns(response) + Semicolon(semicolon), rest);
    } else {
      var semicolon := ReturnsKept(ms);
      var Ok(response, rest) := ParseReturns(ms);
      r := RouteTree(verb, path, None, response, semicolon);
      assert [] + (PrintReturns(response) + Semicolon(semicolon)) == PrintReturns(response) + Semicolon(semicolon);
    }
  }

  lemma NoBodies(r: RouteTree)
    requires r.request.None? && r.response.None?
    ensures PrintBodies(r) == Semicolon(r.semicolon)
  {
    assert [] + ([] + Semicolon(r.semicolon)) == Semicolon(r.semicolon);
  }

  lemma RouteKept(ms: seq<Mark>) returns (r: RouteTree)
    requires AllLegal(ms) && ParseRoute(ms).Ok?
    ensures var Ok(route, rest) := ParseRoute(ms);
            PlainRoute(r) == route && RouteOk(r) && Kept(ms, PrintRoute(r), rest) && AllLegal(rest)
  {
    hide OneWord, Kept, AllLegal, ParsePath, ParseBodies, PrintBodies, Texts, IsPath, EndsPath, IsWord;
    WordsAreWords();
    var Ok(verb, mid) := OneWord(ms, HTTP_METHODS);
    WordKept(ms, HTTP_METHODS);
    var Ok(path, end) := ParsePath(mid);
    PathTaken(mid);
    SplitKept(mid, path, end);
    r := BodiesKept(verb, path, end);
    var rest := ParseBodies(verb, Texts(path), end).rest;
    KeptJoin(mid, path, end, PrintBodies(r), rest);
    KeptJoin(ms, [Word(verb)], mid, path + PrintBodies(r), rest);
  }

  // ---- services --------------------------------------------------------------------------------------

  lemma HandledKept(doc: Option<Doc>, ms: seq<Mark>) returns (i: ItemTree)
    requires AllLegal(ms) && ParseHandled(doc, ms).Ok? && (doc.None? ==> Peek(ms) != RBRACE)
    ensures var Ok(item, rest) := ParseHandled(doc, ms);
            && i.doc == doc && PlainItem(i) == item && ItemTreeOk(i) && (i.handled.None? ==> Peek(rest) == RBRACE)
            && Kept(ms, PrintHandled(i), rest) && AllLegal(rest)
  {
    hide OneOf, Kept, AllLegal, ParseRoute, PrintRoute, RouteOk;
    var mid := OneOf(ms, {AT_HANDLER, RBRACE}).rest;
    OneKept(ms, {AT_HANDLER, RBRACE});
    var brace := Peek(ms) == RBRACE;
    var word := Sign(if brace then RBRACE else AT_HANDLER);
    HandlerSign(ms);
    if Peek(mid) == RBRACE {
      i := ItemTree(doc, brace, None);
      assert [word] + [] == [word];
    } else {
      var Ok(name, end) := OneOf(mid, {IDENT});
      OneKept(mid, {IDENT});
      var r := RouteKept(end);
      var rest := ParseRoute(end).rest;
      i := ItemTree(doc, brace, Some((name, r)));
      KeptJoin(mid, [Word(name)], end, PrintRoute(r), rest);
      KeptJoin(ms, [word], mid, [Word(name)] + PrintRoute(r), rest);
    }
  }

  lemma HandlerSign(ms: seq<Mark>)
    requires AllLegal(ms) && OneOf(ms, {AT_HANDLER, RBRACE}).Ok?
    ensures Kept(ms, [Sign(if Peek(ms) == RBRACE then RBRACE else AT_HANDLER)], OneOf(ms, {AT_HANDLER, RBRACE}).rest)
  {
    hide Kept, AllLegal;
    SignKept(ms, if Peek(ms) == RBRACE then RBRACE else AT_HANDLER);
  }

  lemma ItemKept(ms: seq<Mark>) returns (i: ItemTree)
    requires AllLegal(ms) && ParseServiceItem(ms).Ok? && Peek(ms) != RBRACE
    ensures var Ok(item, rest) := ParseServiceItem(ms);
            && PlainItem(i) == item && ItemTreeOk(i) && (i.handled.None? ==> Peek(rest) == RBRACE)
            && Kept(ms, PrintItem(i), rest) && AllLegal(rest)
  {
    hide OneOf, Kept, AllLegal, ParseHandled, PrintHandled, ParseDoc, PrintDoc, ItemTreeOk, PlainItem;
    if Peek(ms) != AT_DOC {
      i := HandledKept(None, ms);
      assert [] + PrintHandled(i) == PrintHandled(i);
    } else {
      var mid := OneOf(ms, {AT_DOC}).rest;
      SignKept(ms, AT_DOC);
      var Ok(doc, end) := ParseDoc(mid);
      DocKept(mid);
      i := HandledKept(Some(doc), end);
      var rest := ParseHandled(Some(doc), end).rest;
      KeptJoin(ms, [Sign(AT_DOC)], mid, PrintDoc(doc), end);
      KeptJoin(ms, [Sign(AT_DOC)] + PrintDoc(doc), end, PrintHandled(i), rest);
    }
  }

  lemma {:induction false} ItemsKept(ms: seq<Mark>) returns (trees: seq<ItemTree>)
    requires AllLegal(ms) && ParseItems(ms).Ok?
    ensures var Ok(items, rest) := ParseItems(ms);
            && PlainItems(trees) == items && ItemsOk(trees) && Kept(ms, PrintItems(trees), rest) && AllLegal(rest)
            && (Peek(ms) == RBRACE ==> trees == [])
    decreases |ms|
  {
    hide Kept, AllLegal, ParseServiceItem, PrintItem, PlainItem, ItemTreeOk, ItemsOk;
    if Peek(ms) == RBRACE {
      trees := [];
      KeptNone(ms);
      NoItems();
    } else {
      var i := ItemKept(ms);
      var mid := ParseServiceItem(ms).rest;
      var more := ItemsKept(mid);
      KeptJoin(ms, PrintItem(i), mid, PrintItems(more), ParseItems(mid).rest);
      trees := [i] + more;
      assert trees[1..] == more;
      ItemsCons(i, more);
    }
  }

  lemma NoItems()
    ensures ItemsOk([])
  {
  }

  lemma ItemsCons(i: ItemTree, more: seq<ItemTree>)
    requires ItemTreeOk(i) && ItemsOk(more) && (i.handled.None? ==> more == [])
    ensures ItemsOk([i] + more)
  {
    hide ItemTreeOk;
  }

  lemma NamedKept(server: Option<seq<KV>>, ms: seq<Mark>) returns (s: ServiceTree)
    requires AllLegal(ms) && ParseNamedService(server, ms).Ok?
    ensures var Ok(service, rest) := ParseNamedService(server, ms);
            && s.server.None? && PlainService(s).(server := server) == service && ItemsOk(s.items)
            && Kept(ms, PrintNamed(s), rest) && AllLegal(rest)
  {
    hide OneOf, Kept, AllLegal, ParseItems, PrintItems, ParseServiceName, PrintName, ItemsOk, PlainItems;
    var Ok(id, after) := OneOf(ms, {IDENT});
    var Ok(name, mid) := ParseServiceName(id, after);
    var api := NameKept(ms);
    var open := OneOf(mid, {LBRACE}).rest;
    SignKept(mid, LBRACE);
    var items := ItemsKept(open);
    var end := ParseItems(open).rest;
    SignKept(end, RBRACE);
    var rest := OneOf(end, {RBRACE}).rest;
    s := ServiceTree(None, id, api, items);
    KeptJoin(open, PrintItems(items), end, [Sign(RBRACE)], rest);
    KeptJoin(mid, [Sign(LBRACE)], open, PrintItems(items) + [Sign(RBRACE)], rest);
    SameName(s, ServiceTree(None, id, api, []));
    KeptJoin(ms, PrintName(s), mid, [Sign(LBRACE)] + (PrintItems(items) + [Sign(RBRACE)]), rest);
  }

  lemma SameName(s: ServiceTree, u: ServiceTree)
    requires s.name == u.name && s.api == u.api
    ensures PrintName(s) == PrintName(u)
  {
  }

  lemma NameKept(ms: seq<Mark>) returns (api: bool)
    requires AllLegal(ms) && OneOf(ms, {IDENT}).Ok?
    requires ParseServiceName(OneOf(ms, {IDENT}).value, OneOf(ms, {IDENT}).rest).Ok?
    ensures var Ok(id, after) := OneOf(ms, {IDENT});
            var Ok(name, mid) := ParseServiceName(id, after);
            && name == (if api then id + "-" + "api" else id) && AllLegal(mid)
            && Kept(ms, PrintName(ServiceTree(None, id, api, [])), mid)
  {
    hide Kept, AllLegal, IsWord;
    WordsAreWords();
    var Ok(id, after) := OneOf(ms, {IDENT});
    OneKept(ms, {IDENT});
    api := Peek(after) == SUB;
    if api {
      var dash := OneOf(after, {SUB}).rest;
      SignKept(after, SUB);
      SignText(after, SUB);
      WordKept(dash, {"api"});
      KeptJoin(after, [Sign(SUB)], dash, [Word("api")], OneWord(dash, {"api"}).rest);
      KeptJoin(ms, [Word(id)], after, [Sign(SUB)] + [Word("api")], OneWord(dash, {"api"}).rest);
    } else {
      KeptNone(after);
      KeptJoin(ms, [Word(id)], after, [], after);
    }
  }

  lemma SignText(ms: seq<Mark>, kind: Kind)
    requires AllLegal(ms) && OneOf(ms, {kind}).Ok? && kind in {SUB}
    ensures OneOf(ms, {kind}).value == Spelling(kind)
  {
    hide Legal;
    assert Legal(ms[0]);
    LegalSign(ms[0], kind);
  }

  lemma ServiceKept(annotated: bool, ms: seq<Mark>) returns (s: ServiceTree)
    requires AllLegal(ms) && ParseServiceStmt(annotated, ms).Ok?
    ensures var Ok(service, rest) := ParseServiceStmt(annotated, ms);
            && s.server.Some? == annotated && PlainService(s) == service && ServiceOk(s)
            && Kept(ms, PrintService(s), rest) && AllLegal(rest)
  {
    hide OneWord, Kept, AllLegal, ParseNamedService, PrintNamed, ParseKVGroup, Parens, ItemsOk,
      KVsOk, PlainItems, IsWord;
    WordsAreWords();
    if !annotated {
      s := NamedKept(None, ms);
    } else {
      var Ok(server, mid) := ParseKVGroup(ms, true);
      var kvs := ServerGroupKept(ms);
      var end := OneWord(mid, {"service"}).rest;
      WordKept(mid, {"service"});
      var named := NamedKept(Some(server), end);
      var rest := ParseNamedService(Some(server), end).rest;
      s := named.(server := Some(kvs));
      SameNamed(s, named);
      KeptJoin(mid, [Word("service")], end, PrintNamed(s), rest);
      KeptJoin(ms, Parens(PrintServerKVs(kvs)), mid, [Word("service")] + PrintNamed(s), rest);
    }
  }

  lemma SameNamed(s: ServiceTree, u: ServiceTree)
    requires s.name == u.name && s.api == u.api && s.items == u.items
    ensures PrintNamed(s) == PrintNamed(u)
  {
  }

  // ---- types -----------------------------------------------------------------------------------------

  lemma ExprKept(ms: seq<Mark>, later: bool)
    requires AllLegal(ms) && ParseTypeExpr(ms).Ok?
    ensures var Ok(e, rest) := ParseTypeExpr(ms); ExprOk(e) && Kept(ms, PrintExpr(e, later), rest) && AllLegal(rest)
  {
    hide Kept, AllLegal, ParseType, Print, WellFormed, IsKeyword, IsIdent;
    var name, next := PeekText(ms), ms[1..];
    NameLegal(ms);
    KeptOne(ms, Mark(IDENT, name, later));
    KeptLegal(ms, [Mark(IDENT, name, later)], next);
    if Peek(next) != ASSIGN {
      TypeKept(next);
      var Ok(t, rest) := ParseType(next);
      KeptLegal(next, Print(t, false), rest);
      KeptJoin(ms, [Mark(IDENT, name, later)], next, Print(t, false), rest);
      assert [] + Print(t, false) == Print(t, false);
    } else {
      var tail := next[1..];
      SignKept(next, ASSIGN);
      TypeKept(tail);
      var Ok(t, rest) := ParseType(tail);
      KeptLegal(tail, Print(t, false), rest);
      KeptJoin(next, [Sign(ASSIGN)], tail, Print(t, false), rest);
      KeptJoin(ms, [Mark(IDENT, name, later)], next, [Sign(ASSIGN)] + Print(t, false), rest);
    }
  }

  lemma NameLegal(ms: seq<Mark>)
    requires AllLegal(ms) && Peek(ms) == IDENT
    ensures IsIdent(PeekText(ms))
  {
    assert Legal(ms[0]);
  }

  lemma {:induction false} ExprsKept(ms: seq<Mark>)
    requires AllLegal(ms) && ParseTypeExprs(ms).Ok?
    ensures var Ok(exprs, rest) := ParseTypeExprs(ms);
            (forall e <- exprs :: ExprOk(e)) && Kept(ms, PrintExprs(exprs), rest) && AllLegal(rest)
    decreases |ms|
  {
    hide Kept, AllLegal, ParseTypeExpr, PrintExpr, ExprOk;
    if Peek(ms) == RPAREN || Peek(ms) == EOF {
      KeptNone(ms);
    } else {
      ExprKept(ms, true);
      var Ok(e, mid) := ParseTypeExpr(ms);
      ExprsKept(mid);
      var Ok(more, rest) := ParseTypeExprs(mid);
      KeptJoin(ms, PrintExpr(e, true), mid, PrintExprs(more), rest);
      assert ([e] + more)[1..] == more;
    }
  }

  lemma TypesKept(ms: seq<Mark>)
    requires AllLegal(ms) && ParseTypes(ms).Ok?
    ensures var Ok(t, rest) := ParseTypes(ms); TypesOk(t) && Kept(ms, PrintTypes(t), rest) && AllLegal(rest)
  {
    hide Kept, AllLegal, ParseTypeExpr, PrintExpr, ExprOk, ParseTypeExprs, PrintExprs;
    if Peek(ms) == LPAREN {
      var open, close := Mark(LPAREN, "(", false), Mark(RPAREN, ")", true);
      SignKept(ms, LPAREN);
      ExprsKept(ms[1..]);
      var Ok(exprs, end) := ParseTypeExprs(ms[1..]);
      CloseKept(end);
      KeptJoin(ms[1..], PrintExprs(exprs), end, [close], end[1..]);
      KeptJoin(ms, [open], ms[1..], PrintExprs(exprs) + [close], end[1..]);
    } else {
      ExprKept(ms, false);
    }
  }

  lemma CloseKept(ms: seq<Mark>)
    requires AllLegal(ms) && Peek(ms) == RPAREN
    ensures Kept(ms, [Mark(RPAREN, ")", true)], ms[1..]) && AllLegal(ms[1..])
  {
    hide Legal;
    assert Legal(ms[0]);
    LegalSign(ms[0], RPAREN);
    KeptOne(ms, Mark(RPAREN, ")", true));
  }

  // ---- files -----------------------------------------------------------------------------------------

  lemma SyntaxKept(ms: seq<Mark>)
    requires AllLegal(ms) && ParseSyntax(ms).Ok?
    ensures var Ok(value, rest) := ParseSyntax(ms);
            Kept(ms, [Sign(ASSIGN)] + [StringMark(value)], rest) && AllLegal(rest)
  {
    hide OneOf, Kept, AllLegal;
    var mid := OneOf(ms, {ASSIGN}).rest;
    SignKept(ms, ASSIGN);
    OneKept(mid, {STRING});
    KeptJoin(ms, [Sign(ASSIGN)], mid, [StringMark(OneOf(mid, {STRING}).value)], OneOf(mid, {STRING}).rest);
  }

  /** A statement has a syntax tree. */
  lemma StmtKept(kind: Kind, text: string, ms: seq<Mark>) returns (t: StmtTree)
    requires AllLegal(ms) && ParseStmtAfter(kind, text, ms).Ok? && (kind == AT_SERVER ==> text == "@server")
    ensures var Ok(stmt, rest) := ParseStmtAfter(kind, text, ms);
            && PlainStmt(t) == stmt && TreeOk(t) && FirstOf(t).kind == kind && FirstOf(t).text == text
            && Kept(ms, PrintAfter(t), rest) && AllLegal(rest)
  {
    hide Kept, AllLegal, ParseSyntax, ParseImport, ParseKVGroup, ParseTypes, ParseServiceStmt, TypesOk, ServiceOk,
      PlainService, PrintImports, PrintTypes, PrintService, Parens, PrintKVs;
    if kind == AT_SERVER || text == "service" {
      var s := ServiceKept(kind == AT_SERVER, ms);
      t := ServiceStmtTree(s);
    } else if text == "syntax" {
      SyntaxKept(ms);
      t := SyntaxTree(ParseSyntax(ms).value);
    } else if text == "info" {
      GroupKept(ms);
      t := InfoTree(ParseKVGroup(ms, false).value);
    } else if text == "type" {
      TypesKept(ms);
      t := TypeTree(ParseTypes(ms).value);
    } else {
      ImportsKept(ms);
      t := ImportTree(ParseImport(ms).value);
    }
  }

  lemma ServerLegal(ms: seq<Mark>)
    requires AllLegal(ms) && Peek(ms) == AT_SERVER
    ensures PeekText(ms) == "@server"
  {
    hide Legal;
    assert Legal(ms[0]);
    LegalSign(ms[0], AT_SERVER);
  }

  /** A file that is parsed consists of exactly the words of its statements' syntax trees. */
  lemma {:induction false} FileKept(ms: seq<Mark>) returns (trees: seq<StmtTree>)
    requires AllLegal(ms) && ParseFile(ms).Ok?
    ensures var Ok(stmts, rest) := ParseFile(ms);
            && PlainFile(trees) == stmts && (forall t <- trees :: TreeOk(t))
            && Kept(ms, PrintFile(trees), rest) && Peek(rest) == EOF
    decreases |ms|
  {
    hide Kept, AllLegal, ParseStmtAfter, PrintAfter, FirstOf, PlainStmt, TreeOk;
    if Peek(ms) == EOF {
      trees := [];
      KeptNone(ms);
    } else {
      var next := ms[1..];
      if Peek(ms) == AT_SERVER {
        ServerLegal(ms);
      }
      KeptOne(ms, Mark(Peek(ms), PeekText(ms), false));
      KeptLegal(ms, [Mark(Peek(ms), PeekText(ms), false)], next);
      var t := StmtKept(Peek(ms), PeekText(ms), next);
      var mid := ParseStmtAfter(Peek(ms), PeekText(ms), next).rest;
      FirstKept(ms, t);
      var more := FileKept(mid);
      var rest := ParseFile(mid).rest;
      KeptJoin(ms, [FirstOf(t)], next, PrintAfter(t), mid);
      KeptJoin(ms, [FirstOf(t)] + PrintAfter(t), mid, PrintFile(more), rest);
      trees := [t] + more;
      assert trees[1..] == more;
    }
  }

  lemma FirstKept(ms: seq<Mark>, t: StmtTree)
    requires AllLegal(ms) && ms != [] && ms[0].kind == FirstOf(t).kind && ms[0].text == FirstOf(t).text
    ensures Kept(ms, [FirstOf(t)], ms[1..])
  {
    hide Kept, AllLegal, FirstOf;
    KeptOne(ms, FirstOf(t));
  }

  /**
   Every source that parses consists, but for comments, of exactly the words of syntax trees, which stand for its
   statements; and those words parse back to the statements.
   */
  lemma SourceKept(file: string, data: string) returns (trees: seq<StmtTree>)
    requires ParseFile(MarksAt(Tokenize(file, data, START), 0)).Ok?
    ensures var ms := MarksAt(Tokenize(file, data, START), 0);
            var Ok(stmts, rest) := ParseFile(ms);
            && PlainFile(trees) == stmts && (forall t <- trees :: TreeOk(t))
            && Words(ms) == Words(PrintFile(trees)) + Words(rest) && Peek(rest) == EOF
            && ParseFile(PrintFile(trees) + rest) == Ok(stmts, rest)
  {
    hide AllLegal, MarksAt, Tokenize, ParseFile, PrintFile, PlainFile, Words, TreeOk;
    ScannedLegal(file, data, START, 0);
    trees := FileKept(MarksAt(Tokenize(file, data, START), 0));
    FileRoundTrip(trees, ParseFile(MarksAt(Tokenize(file, data, START), 0)).rest);
  }
}
