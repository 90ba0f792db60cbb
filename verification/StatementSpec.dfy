/** What the parser reads of statements and of whole files, from the tokens ahead. */
module StatementSpec {
  import opened Tokens
  import opened DataTypes
  import opened ParseSpec
  import opened PathSpec
  import opened TypeStatements

  datatype KV = KV(key: string, value: string)

  /** A body: a type name, maybe of a pointer, maybe of a slice. */
  datatype Body = Body(list: bool, star: bool, name: string)

  datatype Doc = DocText(text: string) | DocValues(values: seq<KV>)

  datatype Route = Route(method_: string, path: string, request: Option<Option<Body>>, response: Option<Option<Body>>)

  datatype Item = Item(doc: Option<Doc>, handled: Option<(string, Route)>)

  datatype Service = Service(server: Option<seq<KV>>, name: string, items: seq<Item>)

  /** A statement imports one file, or a group in parentheses. */
  datatype Imports = OneImport(value: string) | ManyImports(values: seq<string>)

  datatype Stmt =
    | SyntaxStmt(value: string)
    | ImportStmt(imports: Imports)
    | InfoStmt(info: seq<KV>)
    | TypeStmt(types: Types)
    | ServiceStmt(service: Service)

  /** The next token, if it is of one of the kinds. */
  function OneOf(ms: seq<Mark>, kinds: set<Kind>): (r: Parsed<string>)
    ensures r.Ok? ==> |r.rest| < |ms|
  {
    if Peek(ms) in kinds && CanAdvance(ms) then Ok(PeekText(ms), ms[1..]) else Fail
  }

  /** The next token, if it is one of the words. */
  function OneWord(ms: seq<Mark>, words: set<string>): (r: Parsed<string>)
    ensures r.Ok? ==> |r.rest| < |ms|
  {
    if PeekText(ms) in words && CanAdvance(ms) then Ok(PeekText(ms), ms[1..]) else Fail
  }

  // ---- syntax and imports --------------------------------------------------------------------------

  function ParseSyntax(ms: seq<Mark>): (r: Parsed<string>)
    ensures r.Ok? ==> |r.rest| < |ms|
  {
    var assign := OneOf(ms, {ASSIGN});
    if assign.Fail? then Fail else OneOf(assign.rest, {STRING})
  }

  function ParseStrings(ms: seq<Mark>): (r: Parsed<seq<string>>)
    ensures r.Ok? ==> |r.rest| <= |ms|
    decreases |ms|
  {
    if Peek(ms) == RPAREN then Ok([], ms)
    else
      var value := OneOf(ms, {STRING});
      if value.Fail? || Peek(value.rest) !in {RPAREN, STRING} then Fail
      else Prepend([value.value], ParseStrings(value.rest))
  }

  function ParseImport(ms: seq<Mark>): (r: Parsed<Imports>)
    ensures r.Ok? ==> |r.rest| < |ms|
  {
    if Peek(ms) == LPAREN then
      var open := OneOf(ms, {LPAREN});
      if open.Fail? then Fail
      else
        match ParseStrings(open.rest)
        case Fail => Fail
        case Ok(values, rest) =>
          var close := OneOf(rest, {RPAREN});
          if close.Fail? then Fail else Ok(ManyImports(values), close.rest)
    else
      var value := OneOf(ms, {STRING});
      if value.Fail? then Fail else Ok(OneImport(value.value), value.rest)
  }

  // ---- keys and values -----------------------------------------------------------------------------

  /** Two texts, read one after the other. */
  function Then(text: string, r: Parsed<string>): Parsed<string> {
    match r
    case Fail => Fail
    case Ok(more, rest) => Ok(text + more, rest)
  }

  /** A sign, an identifier and, for a path, maybe a dash and another one. */
  function ParsePart(ms: seq<Mark>, sign: Kind, dashed: bool): (r: Parsed<string>)
    ensures r.Ok? ==> |r.rest| < |ms|
    decreases dashed
  {
    var first := OneOf(ms, {sign});
    if first.Fail? then Fail
    else
      var id := OneOf(first.rest, {IDENT});
      if id.Fail? then Fail
      else if dashed && Peek(id.rest) == SUB then Then(first.value + id.value, ParsePart(id.rest, SUB, false))
      else Ok(first.value + id.value, id.rest)
  }

  function ParseParts(ms: seq<Mark>, sign: Kind, dashed: bool): (r: Parsed<string>)
    ensures r.Ok? ==> |r.rest| <= |ms|
    decreases |ms|
  {
    if Peek(ms) != sign then Ok("", ms)
    else
      match ParsePart(ms, sign, dashed)
      case Fail => Fail
      case Ok(part, rest) => Then(part, ParseParts(rest, sign, dashed))
  }

  /** The value of an `@server` key: a duration, a number, a string for a summary, a path, a list or a dashed word. */
  function ParseServerValue(key: string, ms: seq<Mark>): (r: Parsed<string>)
    ensures r.Ok? ==> |r.rest| < |ms|
  {
    if Peek(ms) in {DURATION, INT} then OneOf(ms, {DURATION, INT})
    else if Peek(ms) == STRING then if key == "summary:" then OneOf(ms, {STRING}) else Fail
    else if Peek(ms) == QUO then
      match ParsePart(ms, QUO, true)
      case Fail => Fail
      case Ok(part, rest) => Then(part, ParseParts(rest, QUO, true))
    else WordValue(ms)
  }

  /** A word, a list, a dashed word or a path that begins with a word. */
  function WordValue(ms: seq<Mark>): (r: Parsed<string>)
    ensures r.Ok? ==> |r.rest| < |ms|
  {
    match OneOf(ms, {IDENT})
    case Fail => Fail
    case Ok(word, rest) =>
      Then(
        word,
        if Peek(rest) in {COMMA, SUB} then ParseParts(rest, Peek(rest), false) else ParseParts(rest, QUO, true))
  }

  function ParseKV(ms: seq<Mark>, server: bool): (r: Parsed<KV>)
    ensures r.Ok? ==> |r.rest| < |ms|
  {
    var key := OneOf(ms, if server then {KEY, RPAREN} else {KEY});
    if key.Fail? then Fail
    else
      match if server then ParseServerValue(key.value, key.rest) else OneOf(key.rest, {STRING})
      case Fail => Fail
      case Ok(value, rest) => Ok(KV(key.value, value), rest)
  }

  function ParseKVs(ms: seq<Mark>, server: bool): (r: Parsed<seq<KV>>)
    ensures r.Ok? ==> |r.rest| <= |ms|
    decreases |ms|
  {
    if Peek(ms) == RPAREN then Ok([], ms)
    else
      match ParseKV(ms, server)
      case Fail => Fail
      case Ok(kv, rest) => if Peek(rest) !in {RPAREN, KEY} then Fail else Prepend([kv], ParseKVs(rest, server))
  }

  /** Keys and values in parentheses. */
  function ParseKVGroup(ms: seq<Mark>, server: bool): (r: Parsed<seq<KV>>)
    ensures r.Ok? ==> |r.rest| < |ms|
  {
    var open := OneOf(ms, {LPAREN});
    if open.Fail? then Fail
    else
      match ParseKVs(open.rest, server)
      case Fail => Fail
      case Ok(list, rest) =>
        var close := OneOf(rest, {RPAREN});
        if close.Fail? then Fail else Ok(list, close.rest)
  }

  function ParseDoc(ms: seq<Mark>): (r: Parsed<Doc>)
    ensures r.Ok? ==> |r.rest| < |ms|
  {
    if Peek(ms) == LPAREN then
      match ParseKVGroup(ms, false)
      case Fail => Fail
      case Ok(list, rest) => Ok(DocValues(list), rest)
    else
      match OneOf(ms, {STRING})
      case Fail => Fail
      case Ok(text, rest) => Ok(DocText(text), rest)
  }

  // ---- routes --------------------------------------------------------------------------------------

  /** After the brackets of a slice, if there are any. */
  function ParseBodyName(list: bool, ms: seq<Mark>): (r: Parsed<Body>)
    ensures r.Ok? ==> |r.rest| < |ms|
  {
    if Peek(ms) == MUL then
      var star := OneOf(ms, {MUL});
      if star.Fail? then Fail
      else
        match OneOf(star.rest, {IDENT})
        case Fail => Fail
        case Ok(name, rest) => Ok(Body(list, true, name), rest)
    else
      match OneOf(ms, {IDENT})
      case Fail => Fail
      case Ok(name, rest) => Ok(Body(list, false, name), rest)
  }

  function ParseBodyExpr(ms: seq<Mark>): (r: Parsed<Body>)
    ensures r.Ok? ==> |r.rest| < |ms|
  {
    if Peek(ms) != LBRACK then ParseBodyName(false, ms)
    else
      var open := OneOf(ms, {LBRACK});
      if open.Fail? then Fail
      else
        var close := OneOf(open.rest, {RBRACK});
        if close.Fail? then Fail else ParseBodyName(true, close.rest)
  }

  function ParseBody(ms: seq<Mark>): (r: Parsed<Option<Body>>)
    ensures r.Ok? ==> |r.rest| < |ms|
  {
    var open := OneOf(ms, {LPAREN});
    if open.Fail? then Fail
    else if Peek(open.rest) == RPAREN then
      match OneOf(open.rest, {RPAREN})
      case Fail => Fail
      case Ok(_, rest) => Ok(None, rest)
    else
      match ParseBodyExpr(open.rest)
      case Fail => Fail
      case Ok(body, rest) =>
        var close := OneOf(rest, {RPAREN});
        if close.Fail? then Fail else Ok(Some(body), close.rest)
  }

  const HTTP_METHODS := {"get", "head", "post", "put", "patch", "delete", "connect", "options", "trace"}

  /** May an optional semicolon follow? */
  function SkipSemicolon<T>(value: T, ms: seq<Mark>): (r: Parsed<T>)
    ensures r.Ok? ==> |r.rest| <= |ms|
  {
    if Peek(ms) != SEMICOLON then Ok(value, ms) else if CanAdvance(ms) then Ok(value, ms[1..]) else Fail
  }

  /** The response body, if there is one, and the semicolon, if there is one. */
  function ParseReturns(ms: seq<Mark>): (r: Parsed<Option<Option<Body>>>)
    ensures r.Ok? ==> |r.rest| <= |ms|
  {
    if PeekText(ms) == "returns" then
      var word := OneWord(ms, {"returns"});
      if word.Fail? then Fail
      else
        match ParseBody(word.rest)
        case Fail => Fail
        case Ok(body, rest) => SkipSemicolon(Some(body), rest)
    else if Peek(ms) in {AT_DOC, AT_HANDLER, RBRACE, SEMICOLON} then SkipSemicolon(None, ms)
    else Fail
  }

  /** The bodies of a route, after its path. */
  function ParseBodies(verb: string, path: string, ms: seq<Mark>): (r: Parsed<Route>)
    ensures r.Ok? ==> |r.rest| <= |ms|
  {
    if Peek(ms) in {AT_DOC, AT_HANDLER, RBRACE} then Ok(Route(verb, path, None, None), ms)
    else if Peek(ms) == SEMICOLON then SkipSemicolon(Route(verb, path, None, None), ms)
    else if Peek(ms) == LPAREN then
      match ParseBody(ms)
      case Fail => Fail
      case Ok(request, rest) => WithResponse(verb, path, Some(request), ParseReturns(rest))
    else if PeekText(ms) == "returns" then WithResponse(verb, path, None, ParseReturns(ms))
    else Fail
  }

  function WithResponse(verb: string, path: string, request: Option<Option<Body>>, r: Parsed<Option<Option<Body>>>)
    : Parsed<Route>
  {
    match r
    case Fail => Fail
    case Ok(response, rest) => Ok(Route(verb, path, request, response), rest)
  }

  function ParseRoute(ms: seq<Mark>): (r: Parsed<Route>)
    ensures r.Ok? ==> |r.rest| < |ms|
  {
    var verb := OneWord(ms, HTTP_METHODS);
    if verb.Fail? then Fail
    else
      match ParsePath(verb.rest)
      case Fail => Fail
      case Ok(path, rest) => if path == [] then Fail else ParseBodies(verb.value, Texts(path), rest)
  }

  // ---- services ------------------------------------------------------------------------------------

  /** A handler and its route; the word before the handler may also be a closing brace. */
  function ParseHandled(doc: Option<Doc>, ms: seq<Mark>): (r: Parsed<Item>)
    ensures r.Ok? ==> |r.rest| < |ms|
  {
    var word := OneOf(ms, {AT_HANDLER, RBRACE});
    if word.Fail? then Fail
    else if Peek(word.rest) == RBRACE then Ok(Item(doc, None), word.rest)
    else
      var name := OneOf(word.rest, {IDENT});
      if name.Fail? then Fail
      else
        match ParseRoute(name.rest)
        case Fail => Fail
        case Ok(route, rest) => Ok(Item(doc, Some((name.value, route))), rest)
  }

  function ParseServiceItem(ms: seq<Mark>): (r: Parsed<Item>)
    ensures r.Ok? ==> |r.rest| < |ms|
  {
    if Peek(ms) != AT_DOC then ParseHandled(None, ms)
    else
      var word := OneOf(ms, {AT_DOC});
      if word.Fail? then Fail
      else
        match ParseDoc(word.rest)
        case Fail => Fail
        case Ok(doc, rest) => ParseHandled(Some(doc), rest)
  }

  function ParseItems(ms: seq<Mark>): (r: Parsed<seq<Item>>)
    ensures r.Ok? ==> |r.rest| <= |ms|
    decreases |ms|
  {
    if Peek(ms) == RBRACE then Ok([], ms)
    else
      match ParseServiceItem(ms)
      case Fail => Fail
      case Ok(item, rest) =>
        if Peek(rest) !in {AT_DOC, AT_HANDLER, RBRACE} then Fail else Prepend([item], ParseItems(rest))
  }

  /** The name of a service, maybe with the suffix `-api`. */
  function ParseServiceName(text: string, ms: seq<Mark>): (r: Parsed<string>)
    ensures r.Ok? ==> |r.rest| <= |ms|
  {
    if Peek(ms) != SUB then Ok(text, ms)
    else
      var dash := OneOf(ms, {SUB});
      if dash.Fail? then Fail else Then(text + dash.value, OneWord(dash.rest, {"api"}))
  }

  /** From the name on. */
  function ParseNamedService(server: Option<seq<KV>>, ms: seq<Mark>): (r: Parsed<Service>)
    ensures r.Ok? ==> |r.rest| < |ms|
  {
    var id := OneOf(ms, {IDENT});
    if id.Fail? then Fail
    else
      match ParseServiceName(id.value, id.rest)
      case Fail => Fail
      case Ok(name, mid) =>
        var open := OneOf(mid, {LBRACE});
        if open.Fail? then Fail
        else
          match ParseItems(open.rest)
          case Fail => Fail
          case Ok(items, end) =>
            var close := OneOf(end, {RBRACE});
            if close.Fail? then Fail else Ok(Service(server, name, items), close.rest)
  }

  /** After `@server`, or after `service`. */
  function ParseServiceStmt(annotated: bool, ms: seq<Mark>): (r: Parsed<Service>)
    ensures r.Ok? ==> |r.rest| < |ms|
  {
    if !annotated then ParseNamedService(None, ms)
    else
      match ParseKVGroup(ms, true)
      case Fail => Fail
      case Ok(server, rest) =>
        var word := OneWord(rest, {"service"});
        if word.Fail? then Fail else ParseNamedService(Some(server), word.rest)
  }

  // ---- files ---------------------------------------------------------------------------------------

  function Made<T, U>(f: T -> U, r: Parsed<T>): Parsed<U> {
    match r
    case Fail => Fail
    case Ok(value, rest) => Ok(f(value), rest)
  }

  /** The statement that the token `first` begins. */
  function ParseStmtAfter(kind: Kind, text: string, ms: seq<Mark>): (r: Parsed<Stmt>)
    ensures r.Ok? ==> |r.rest| < |ms|
  {
    if kind == AT_SERVER || (kind == IDENT && text == "service") then
      Made(s => ServiceStmt(s), ParseServiceStmt(kind == AT_SERVER, ms))
    else if kind != IDENT then Fail
    else
      match text
      case "syntax" => Made(v => SyntaxStmt(v), ParseSyntax(ms))
      case "info" => Made(l => InfoStmt(l), ParseKVGroup(ms, false))
      case "type" => Made(t => TypeStmt(t), ParseTypes(ms))
      case "import" => Made(l => ImportStmt(l), ParseImport(ms))
      case _ => Fail
  }

  /** All statements of a file. */
  function ParseFile(ms: seq<Mark>): (r: Parsed<seq<Stmt>>)
    ensures r.Ok? ==> |r.rest| <= |ms|
    decreases |ms|
  {
    if Peek(ms) == EOF then Ok([], ms)
    else if !CanAdvance(ms) then Fail
    else
      match ParseStmtAfter(Peek(ms), PeekText(ms), ms[1..])
      case Fail => Fail
      case Ok(stmt, rest) => Prepend([stmt], ParseFile(rest))
  }

  // ---- texts ---------------------------------------------------------------------------------------

  /** The tokens between `before` and `after`, what was left of them, have the text `text`. */
  predicate Used(before: seq<Mark>, after: seq<Mark>, text: string) {
    |after| <= |before| && before[|before| - |after|..] == after && text == Texts(before[..|before| - |after|])
  }

  lemma UsedOne(ms: seq<Mark>)
    requires ms != []
    ensures Used(ms, ms[1..], ms[0].text)
  {
    assert ms[..1] == [ms[0]] && ms[..1][..0] == [];
  }

  lemma UsedNone(ms: seq<Mark>)
    ensures Used(ms, ms, "")
  {
  }

  lemma {:induction false} TextsConcat(a: seq<Mark>, b: seq<Mark>)
    ensures Texts(a + b) == Texts(a) + Texts(b)
    decreases |b|
  {
    if b == [] {
      assert a + b == a;
    } else {
      assert (a + b)[..|a + b| - 1] == a + b[..|b| - 1];
      TextsConcat(a, b[..|b| - 1]);
    }
  }

  lemma UsedJoin(a: seq<Mark>, b: seq<Mark>, c: seq<Mark>, t: string, u: string)
    requires Used(a, b, t) && Used(b, c, u)
    ensures Used(a, c, t + u)
  {
    var i, j := |a| - |b|, |b| - |c|;
    assert a[..i + j] == a[..i] + b[..j];
    TextsConcat(a[..i], b[..j]);
    assert a[i + j..] == b[j..];
  }

  lemma OneOfText(ms: seq<Mark>, kinds: set<Kind>)
    requires OneOf(ms, kinds).Ok? && EOF !in kinds
    ensures var Ok(text, rest) := OneOf(ms, kinds); Used(ms, rest, text)
  {
    UsedOne(ms);
  }

  lemma {:induction false} PartText(ms: seq<Mark>, sign: Kind, dashed: bool)
    requires ParsePart(ms, sign, dashed).Ok? && sign != EOF
    ensures var Ok(text, rest) := ParsePart(ms, sign, dashed); Used(ms, rest, text)
    decreases dashed
  {
    hide OneOf, Used;
    var Ok(first, mid) := OneOf(ms, {sign});
    var Ok(id, end) := OneOf(mid, {IDENT});
    OneOfText(ms, {sign});
    OneOfText(mid, {IDENT});
    UsedJoin(ms, mid, end, first, id);
    if dashed && Peek(end) == SUB {
      PartText(end, SUB, false);
      var Ok(more, rest) := ParsePart(end, SUB, false);
      UsedJoin(ms, end, rest, first + id, more);
    }
  }

  lemma {:induction false} PartsText(ms: seq<Mark>, sign: Kind, dashed: bool)
    requires ParseParts(ms, sign, dashed).Ok? && sign != EOF
    ensures var Ok(text, rest) := ParseParts(ms, sign, dashed); Used(ms, rest, text)
    decreases |ms|
  {
    hide ParsePart, Used;
    if Peek(ms) != sign {
      UsedNone(ms);
    } else {
      var Ok(part, mid) := ParsePart(ms, sign, dashed);
      PartText(ms, sign, dashed);
      PartsText(mid, sign, dashed);
      var Ok(more, rest) := ParseParts(mid, sign, dashed);
      UsedJoin(ms, mid, rest, part, more);
    }
  }

  /** The value of an `@server` key has the text of exactly the tokens it was read from. */
  lemma ServerValueText(key: string, ms: seq<Mark>)
    requires ParseServerValue(key, ms).Ok?
    ensures var Ok(text, rest) := ParseServerValue(key, ms); Used(ms, rest, text)
  {
    hide OneOf, ParsePart, ParseParts, Used;
    if Peek(ms) in {DURATION, INT} {
      OneOfText(ms, {DURATION, INT});
    } else if Peek(ms) == STRING {
      OneOfText(ms, {STRING});
    } else if Peek(ms) == QUO {
      var Ok(part, mid) := ParsePart(ms, QUO, true);
      PartText(ms, QUO, true);
      PartsText(mid, QUO, true);
      var Ok(more, rest) := ParseParts(mid, QUO, true);
      UsedJoin(ms, mid, rest, part, more);
    } else {
      WordValueText(ms);
    }
  }

  lemma WordValueText(ms: seq<Mark>)
    requires WordValue(ms).Ok?
    ensures var Ok(text, rest) := WordValue(ms); Used(ms, rest, text)
  {
    hide OneOf, ParseParts, Used;
    var Ok(word, mid) := OneOf(ms, {IDENT});
    OneOfText(ms, {IDENT});
    var sign, dashed := if Peek(mid) in {COMMA, SUB} then Peek(mid) else QUO, Peek(mid) !in {COMMA, SUB};
    PartsText(mid, sign, dashed);
    var Ok(more, rest) := ParseParts(mid, sign, dashed);
    UsedJoin(ms, mid, rest, word, more);
  }
}
