/**
 Syntax trees: statements with all their tokens, also those of which only the joined text is kept, or nothing at all.
 Parsing the tokens of a tree gives the statement it stands for.
 */
module SyntaxTrees {
  import opened Tokens
  import opened Lexis
  import opened Grammar
  import opened DataTypes
  import opened ParseSpec
  import opened RoundTrip
  import opened PathSpec
  import opened TypeStatements
  import opened StatementSpec

  /** A key of an `@server` annotation, with the tokens of its value. */
  datatype ServerKV = ServerKV(key: string, value: seq<Mark>)

  /** A route with the tokens of its path, and maybe a semicolon behind it. */
  datatype RouteTree = RouteTree(
    verb: string, path: seq<Mark>, request: Option<Option<Body>>, response: Option<Option<Body>>, semicolon: bool)

  /** Behind a documentation a closing brace may stand for the word `@handler`. */
  datatype ItemTree = ItemTree(doc: Option<Doc>, brace: bool, handled: Option<(string, RouteTree)>)

  datatype ServiceTree = ServiceTree(server: Option<seq<ServerKV>>, name: string, api: bool, items: seq<ItemTree>)

  datatype StmtTree =
    | SyntaxTree(value: string)
    | ImportTree(imports: Imports)
    | InfoTree(info: seq<KV>)
    | TypeTree(types: Types)
    | ServiceStmtTree(service: ServiceTree)

  // ---- the statements they stand for -----------------------------------------------------------------

  function PlainKVs(list: seq<ServerKV>): seq<KV> {
    if list == [] then [] else [KV(list[0].key, Texts(list[0].value))] + PlainKVs(list[1..])
  }

  function PlainRoute(r: RouteTree): Route {
    Route(r.verb, Texts(r.path), r.request, r.response)
  }

  function PlainItem(i: ItemTree): Item {
    Item(i.doc, if i.handled.None? then None else Some((i.handled.value.0, PlainRoute(i.handled.value.1))))
  }

  function PlainItems(items: seq<ItemTree>): seq<Item> {
    if items == [] then [] else [PlainItem(items[0])] + PlainItems(items[1..])
  }

  function PlainService(s: ServiceTree): Service {
    Service(
      if s.server.None? then None else Some(PlainKVs(s.server.value)), if s.api then s.name + "-" + "api" else s.name,
      PlainItems(s.items))
  }

  function PlainStmt(t: StmtTree): Stmt {
    match t
    case SyntaxTree(value) => SyntaxStmt(value)
    case ImportTree(imports) => ImportStmt(imports)
    case InfoTree(info) => InfoStmt(info)
    case TypeTree(types) => TypeStmt(types)
    case ServiceStmtTree(service) => ServiceStmt(PlainService(service))
  }

  function PlainFile(trees: seq<StmtTree>): seq<Stmt> {
    if trees == [] then [] else [PlainStmt(trees[0])] + PlainFile(trees[1..])
  }

  // ---- their tokens ----------------------------------------------------------------------------------

  function Word(text: string): Mark {
    Mark(IDENT, text, false)
  }

  function StringMark(text: string): Mark {
    Mark(STRING, text, false)
  }

  function PrintStrings(values: seq<string>): seq<Mark> {
    if values == [] then [] else [StringMark(values[0])] + PrintStrings(values[1..])
  }

  /** In parentheses. */
  function Parens(ms: seq<Mark>): seq<Mark> {
    [Sign(LPAREN)] + (ms + [Sign(RPAREN)])
  }

  function PrintImports(i: Imports): seq<Mark> {
    match i
    case OneImport(value) => [StringMark(value)]
    case ManyImports(values) => Parens(PrintStrings(values))
  }

  function PrintKVs(list: seq<KV>): seq<Mark> {
    if list == [] then []
    else [Mark(KEY, list[0].key, false)] + ([StringMark(list[0].value)] + PrintKVs(list[1..]))
  }

  function PrintServerKVs(list: seq<ServerKV>): seq<Mark> {
    if list == [] then [] else [Mark(KEY, list[0].key, false)] + (list[0].value + PrintServerKVs(list[1..]))
  }

  function PrintDoc(d: Doc): seq<Mark> {
    match d
    case DocText(text) => [StringMark(text)]
    case DocValues(values) => Parens(PrintKVs(values))
  }

  function PrintBodyExpr(b: Body): seq<Mark> {
    (if b.list then [Sign(LBRACK)] + [Sign(RBRACK)] else []) + ((if b.star then [Sign(MUL)] else []) + [Word(b.name)])
  }

  function PrintBodyStmt(b: Option<Body>): seq<Mark> {
    Parens(if b.None? then [] else PrintBodyExpr(b.value))
  }

  function PrintReturns(r: Option<Option<Body>>): seq<Mark> {
    if r.None? then [] else [Word("returns")] + PrintBodyStmt(r.value)
  }

  function PrintBodies(r: RouteTree): seq<Mark> {
    (if r.request.None? then [] else PrintBodyStmt(r.request.value)) +
    (PrintReturns(r.response) + if r.semicolon then [Sign(SEMICOLON)] else [])
  }

  function PrintRoute(r: RouteTree): seq<Mark> {
    [Word(r.verb)] + (r.path + PrintBodies(r))
  }

  function PrintHandled(i: ItemTree): seq<Mark> {
    [Sign(if i.brace then RBRACE else AT_HANDLER)] +
    (match i.handled case None => [] case Some((name, route)) => [Word(name)] + PrintRoute(route))
  }

  function PrintItem(i: ItemTree): seq<Mark> {
    (if i.doc.None? then [] else [Sign(AT_DOC)] + PrintDoc(i.doc.value)) + PrintHandled(i)
  }

  function PrintItems(items: seq<ItemTree>): seq<Mark> {
    if items == [] then [] else PrintItem(items[0]) + PrintItems(items[1..])
  }

  function PrintName(s: ServiceTree): seq<Mark> {
    [Word(s.name)] + if s.api then [Sign(SUB)] + [Word("api")] else []
  }

  /** From the name on. */
  function PrintNamed(s: ServiceTree): seq<Mark> {
    PrintName(s) + ([Sign(LBRACE)] + (PrintItems(s.items) + [Sign(RBRACE)]))
  }

  /** After `@server` or `service`. */
  function PrintService(s: ServiceTree): seq<Mark> {
    if s.server.None? then PrintNamed(s)
    else Parens(PrintServerKVs(s.server.value)) + ([Word("service")] + PrintNamed(s))
  }

  /** The token that begins a statement. */
  function FirstOf(t: StmtTree): Mark {
    match t
    case SyntaxTree(_) => Word("syntax")
    case ImportTree(_) => Word("import")
    case InfoTree(_) => Word("info")
    case TypeTree(_) => Word("type")
    case ServiceStmtTree(s) => if s.server.None? then Word("service") else Sign(AT_SERVER)
  }

  function PrintAfter(t: StmtTree): seq<Mark> {
    match t
    case SyntaxTree(value) => [Sign(ASSIGN)] + [StringMark(value)]
    case ImportTree(imports) => PrintImports(imports)
    case InfoTree(info) => Parens(PrintKVs(info))
    case TypeTree(types) => PrintTypes(types)
    case ServiceStmtTree(s) => PrintService(s)
  }

  function PrintFile(trees: seq<StmtTree>): seq<Mark> {
    if trees == [] then [] else ([FirstOf(trees[0])] + PrintAfter(trees[0])) + PrintFile(trees[1..])
  }

  // ---- which trees there are -------------------------------------------------------------------------

  /** Parts of a text: a sign and an identifier each, if `dashed` maybe with a dash and another one. */
  predicate IsParts(v: seq<Mark>, sign: Kind, dashed: bool) {
    v == [] ||
    (|v| > 1 && v[0].kind == sign && v[1].kind == IDENT &&
     if dashed && |v| > 2 && v[2].kind == SUB then |v| > 3 && v[3].kind == IDENT && IsParts(v[4..], sign, dashed)
     else IsParts(v[2..], sign, dashed))
  }

  /** The value of an `@server` key: a duration, a number, for a summary a string, a path, a list or a dashed word. */
  predicate IsServerValue(key: string, v: seq<Mark>) {
    v != [] &&
    match v[0].kind
    case DURATION | INT => |v| == 1
    case STRING => |v| == 1 && key == "summary:"
    case QUO => IsParts(v, QUO, true)
    case IDENT => IsParts(v[1..], COMMA, false) || IsParts(v[1..], SUB, false) || IsParts(v[1..], QUO, true)
    case _ => false
  }

  predicate KVsOk(list: seq<ServerKV>) {
    forall kv <- list :: IsServerValue(kv.key, kv.value)
  }

  predicate RouteOk(r: RouteTree) {
    r.verb in HTTP_METHODS && r.path != [] && IsPath(r.path)
  }

  /** A brace stands for `@handler` only behind a documentation. */
  predicate ItemTreeOk(i: ItemTree) {
    (i.brace ==> i.doc.Some?) && (i.handled.Some? ==> RouteOk(i.handled.value.1))
  }

  /** Only the last item may be without a handler. */
  predicate ItemsOk(items: seq<ItemTree>) {
    && (forall i :: 0 <= i < |items| ==> ItemTreeOk(items[i]))
    && forall i :: 0 <= i < |items| - 1 ==> items[i].handled.Some?
  }

  predicate ServiceOk(s: ServiceTree) {
    (s.server.Some? ==> KVsOk(s.server.value)) && ItemsOk(s.items)
  }

  predicate TreeOk(t: StmtTree) {
    match t
    case SyntaxTree(_) | ImportTree(_) | InfoTree(_) => true
    case TypeTree(types) => TypesOk(types)
    case ServiceStmtTree(s) => ServiceOk(s)
  }

  // ---- single tokens ---------------------------------------------------------------------------------

  /** Anything but an error may follow. */
  predicate Fine(rest: seq<Mark>) {
    Peek(rest) != ERROR
  }

  lemma OneReads(m: Mark, rest: seq<Mark>, kinds: set<Kind>)
    requires m.kind in kinds && Fine(rest)
    ensures OneOf([m] + rest, kinds) == Ok(m.text, rest) && Peek([m] + rest) == m.kind && PeekText([m] + rest) == m.text
  {
    Cons(m, rest);
  }

  lemma WordReads(m: Mark, rest: seq<Mark>, words: set<string>)
    requires m.text in words && Fine(rest)
    ensures OneWord([m] + rest, words) == Ok(m.text, rest)
  {
    Cons(m, rest);
  }

  /** What is in parentheses is read up to the closing one. */
  lemma GroupSplit(ms: seq<Mark>, rest: seq<Mark>)
    ensures Parens(ms) + rest == [Sign(LPAREN)] + (ms + ([Sign(RPAREN)] + rest))
  {
    Assoc(ms, [Sign(RPAREN)], rest);
    Assoc([Sign(LPAREN)], ms + [Sign(RPAREN)], rest);
  }

  // ---- imports, keys and values ----------------------------------------------------------------------

  lemma {:induction false} StringsRead(values: seq<string>, rest: seq<Mark>)
    requires Peek(rest) == RPAREN
    ensures ParseStrings(PrintStrings(values) + rest) == Ok(values, rest)
    ensures Peek(PrintStrings(values) + rest) in {RPAREN, STRING}
  {
    if values == [] {
      assert PrintStrings(values) + rest == rest;
    } else {
      hide ParseStrings;
      var m, more := StringMark(values[0]), PrintStrings(values[1..]) + rest;
      StringsRead(values[1..], rest);
      Cons(m, more);
      StringsStep(values[0], values[1..], more, rest);
      Assoc([m], PrintStrings(values[1..]), rest);
      HeadTail(values);
    }
  }

  lemma HeadTail<T>(list: seq<T>)
    requires list != []
    ensures [list[0]] + list[1..] == list
  {
  }

  lemma StringsStep(value: string, values: seq<string>, tail: seq<Mark>, rest: seq<Mark>)
    requires ParseStrings(tail) == Ok(values, rest) && Peek(tail) in {RPAREN, STRING}
    ensures ParseStrings([StringMark(value)] + tail) == Ok([value] + values, rest)
  {
    hide OneOf;
    OneReads(StringMark(value), tail, {STRING});
  }

  lemma ImportsRead(i: Imports, rest: seq<Mark>)
    requires Fine(rest)
    ensures ParseImport(PrintImports(i) + rest) == Ok(i, rest) && Fine(PrintImports(i) + rest)
  {
    hide OneOf, ParseStrings;
    match i
    case OneImport(value) => OneReads(StringMark(value), rest, {STRING});
    case ManyImports(values) =>
      var close := [Sign(RPAREN)] + rest;
      OneReads(Sign(RPAREN), rest, {RPAREN});
      StringsRead(values, close);
      OneReads(Sign(LPAREN), PrintStrings(values) + close, {LPAREN});
      GroupSplit(PrintStrings(values), rest);
  }

  lemma KVReads(kv: KV, rest: seq<Mark>)
    requires Fine(rest)
    ensures var ms := [Mark(KEY, kv.key, false)] + ([StringMark(kv.value)] + rest);
            ParseKV(ms, false) == Ok(kv, rest) && Peek(ms) == KEY
  {
    hide OneOf;
    OneReads(StringMark(kv.value), rest, {STRING});
    OneReads(Mark(KEY, kv.key, false), [StringMark(kv.value)] + rest, {KEY});
  }

  lemma {:induction false} KVsRead(list: seq<KV>, rest: seq<Mark>)
    requires Peek(rest) == RPAREN
    ensures ParseKVs(PrintKVs(list) + rest, false) == Ok(list, rest)
    ensures Peek(PrintKVs(list) + rest) in {RPAREN, KEY}
  {
    if list == [] {
      assert PrintKVs(list) + rest == rest;
    } else {
      hide ParseKV, ParseKVs;
      var k, v, more := Mark(KEY, list[0].key, false), StringMark(list[0].value), PrintKVs(list[1..]) + rest;
      KVsRead(list[1..], rest);
      KVReads(list[0], more);
      KVsStep(list[0], [k] + ([v] + more), false, list[1..], more, rest);
      Assoc([v], PrintKVs(list[1..]), rest);
      Assoc([k], [v] + PrintKVs(list[1..]), rest);
      HeadTail(list);
    }
  }

  lemma KVsStep(kv: KV, ms: seq<Mark>, server: bool, list: seq<KV>, tail: seq<Mark>, rest: seq<Mark>)
    requires ParseKV(ms, server) == Ok(kv, tail) && ParseKVs(tail, server) == Ok(list, rest)
    requires Peek(ms) == KEY && Peek(tail) in {RPAREN, KEY}
    ensures ParseKVs(ms, server) == Ok([kv] + list, rest)
  {
    hide ParseKV;
  }

  /** Keys and values in parentheses. */
  lemma GroupRead(inner: seq<Mark>, list: seq<KV>, server: bool, rest: seq<Mark>)
    requires Fine(rest) && Peek(inner + ([Sign(RPAREN)] + rest)) in {RPAREN, KEY}
    requires ParseKVs(inner + ([Sign(RPAREN)] + rest), server) == Ok(list, [Sign(RPAREN)] + rest)
    ensures ParseKVGroup(Parens(inner) + rest, server) == Ok(list, rest) && Peek(Parens(inner) + rest) == LPAREN
  {
    hide OneOf, ParseKVs;
    OneReads(Sign(RPAREN), rest, {RPAREN});
    OneReads(Sign(LPAREN), inner + ([Sign(RPAREN)] + rest), {LPAREN});
    GroupSplit(inner, rest);
  }

  lemma KVGroupReads(list: seq<KV>, rest: seq<Mark>)
    requires Fine(rest)
    ensures ParseKVGroup(Parens(PrintKVs(list)) + rest, false) == Ok(list, rest)
    ensures Peek(Parens(PrintKVs(list)) + rest) == LPAREN
  {
    hide ParseKVGroup, ParseKVs;
    Cons(Sign(RPAREN), rest);
    KVsRead(list, [Sign(RPAREN)] + rest);
    GroupRead(PrintKVs(list), list, false, rest);
  }

  lemma DocReads(d: Doc, rest: seq<Mark>)
    requires Fine(rest)
    ensures ParseDoc(PrintDoc(d) + rest) == Ok(d, rest) && Fine(PrintDoc(d) + rest)
  {
    hide OneOf, ParseKVGroup;
    match d
    case DocText(text) => OneReads(StringMark(text), rest, {STRING});
    case DocValues(values) => KVGroupReads(values, rest);
  }

  // ---- values of an annotation -----------------------------------------------------------------------

  lemma TextsCons(m: Mark, rest: seq<Mark>)
    ensures Texts([m] + rest) == m.text + Texts(rest)
  {
    TextsConcat([m], rest);
    assert [m][..0] == [];
  }

  /** A part, and what follows it. */
  lemma PartReads(a: Mark, b: Mark, rest: seq<Mark>, sign: Kind, dashed: bool)
    requires a.kind == sign && b.kind == IDENT && sign != ERROR && Fine(rest) && (dashed ==> Peek(rest) != SUB)
    ensures ParsePart([a] + ([b] + rest), sign, dashed) == Ok(a.text + b.text, rest)
  {
    hide OneOf;
    OneReads(b, rest, {IDENT});
    OneReads(a, [b] + rest, {sign});
  }

  lemma DashedPartReads(a: Mark, b: Mark, c: Mark, d: Mark, rest: seq<Mark>, sign: Kind)
    requires a.kind == sign && b.kind == IDENT && c.kind == SUB && d.kind == IDENT && sign != ERROR && Fine(rest)
    ensures ParsePart([a] + ([b] + ([c] + ([d] + rest))), sign, true) == Ok(a.text + b.text + (c.text + d.text), rest)
  {
    hide OneOf;
    PartReads(c, d, rest, SUB, false);
    Cons(d, rest);
    Cons(c, [d] + rest);
    OneReads(b, [c] + ([d] + rest), {IDENT});
    OneReads(a, [b] + ([c] + ([d] + rest)), {sign});
  }

  lemma Two(v: seq<Mark>, rest: seq<Mark>)
    requires |v| > 1
    ensures v + rest == [v[0]] + ([v[1]] + (v[2..] + rest)) && Texts(v) == (v[0].text + v[1].text) + Texts(v[2..])
  {
    hide Texts;
    var a, b, w := v[0], v[1], v[2..];
    assert v == [a] + ([b] + w);
    Assoc([a], [b] + w, rest);
    Assoc([b], w, rest);
    TextsCons(a, [b] + w);
    TextsCons(b, w);
    Assoc(a.text, b.text, Texts(w));
  }

  lemma {:induction false} PartsRead(v: seq<Mark>, rest: seq<Mark>, sign: Kind, dashed: bool)
    requires IsParts(v, sign, dashed) && sign in {QUO, COMMA, SUB} && Peek(rest) in {RPAREN, KEY}
    ensures ParseParts(v + rest, sign, dashed) == Ok(Texts(v), rest)
    ensures Fine(v + rest) && (v == [] ==> v + rest == rest) && (v != [] ==> Peek(v + rest) == sign)
    decreases |v|
  {
    hide ParsePart, Texts;
    if v == [] {
      NoTexts();
      assert v + rest == rest;
    } else if dashed && |v| > 2 && v[2].kind == SUB {
      var w := v[4..];
      PartsRead(w, rest, sign, dashed);
      DashedSplit(v, w, rest);
      DashedPartReads(v[0], v[1], v[2], v[3], w + rest, sign);
    } else {
      var w := v[2..];
      PartsRead(w, rest, sign, dashed);
      Two(v, rest);
      NoDash(v, rest, sign);
      PartReads(v[0], v[1], w + rest, sign, dashed);
    }
  }

  lemma DashedSplit(v: seq<Mark>, w: seq<Mark>, rest: seq<Mark>)
    requires |v| > 3 && w == v[4..]
    ensures v + rest == [v[0]] + ([v[1]] + ([v[2]] + ([v[3]] + (w + rest))))
    ensures Texts(v) == (v[0].text + v[1].text + (v[2].text + v[3].text)) + Texts(w)
  {
    hide Texts;
    Two(v, rest);
    Two(v[2..], rest);
    assert v[2..][2..] == w;
    Assoc(v[0].text + v[1].text, v[2].text + v[3].text, Texts(w));
  }

  lemma NoTexts()
    ensures Texts([]) == ""
  {
  }

  lemma NoDash(v: seq<Mark>, rest: seq<Mark>, sign: Kind)
    requires |v| > 1 && Peek(rest) in {RPAREN, KEY}
    ensures |v| > 2 ==> Peek(v[2..] + rest) == v[2].kind
    ensures |v| == 2 ==> Peek(v[2..] + rest) == Peek(rest)
  {
    assert |v| == 2 ==> v[2..] + rest == rest;
  }

  lemma ServerValueReads(key: string, v: seq<Mark>, rest: seq<Mark>)
    requires IsServerValue(key, v) && Peek(rest) in {RPAREN, KEY}
    ensures ParseServerValue(key, v + rest) == Ok(Texts(v), rest) && Fine(v + rest)
  {
    hide OneOf, ParsePart, ParseParts, IsParts, Texts, WordValue;
    NoTexts();
    var tail := v[1..] + rest;
    assert v == [v[0]] + v[1..] && v + rest == [v[0]] + tail;
    TextsCons(v[0], v[1..]);
    Cons(v[0], tail);
    if v[0].kind == IDENT {
      WordValueReads(v, rest);
    } else if v[0].kind == QUO {
      PathValueReads(v, rest);
    } else {
      assert v[1..] == [] && tail == rest;
      Singles(v[0], rest);
    }
  }

  lemma Singles(m: Mark, rest: seq<Mark>)
    requires Fine(rest)
    ensures m.kind in {DURATION, INT} ==> OneOf([m] + rest, {DURATION, INT}) == Ok(m.text + "", rest)
    ensures m.kind == STRING ==> OneOf([m] + rest, {STRING}) == Ok(m.text + "", rest)
  {
    Cons(m, rest);
    assert m.text + "" == m.text;
  }

  lemma WordValueReads(v: seq<Mark>, rest: seq<Mark>)
    requires v != [] && v[0].kind == IDENT && Peek(rest) in {RPAREN, KEY}
    requires IsParts(v[1..], COMMA, false) || IsParts(v[1..], SUB, false) || IsParts(v[1..], QUO, true)
    ensures WordValue([v[0]] + (v[1..] + rest)) == Ok(v[0].text + Texts(v[1..]), rest)
  {
    hide OneOf, ParseParts, IsParts, Texts;
    var parts := v[1..];
    OneReads(v[0], parts + rest, {IDENT}) by {
      PartsKind(parts, rest);
    }
    if parts == [] {
      assert parts + rest == rest;
      NoParts(rest);
    } else {
      PartsKind(parts, rest);
      PartsRead(parts, rest, parts[0].kind, parts[0].kind == QUO);
    }
  }

  /** The first sign tells what parts follow. */
  lemma PartsKind(parts: seq<Mark>, rest: seq<Mark>)
    requires IsParts(parts, COMMA, false) || IsParts(parts, SUB, false) || IsParts(parts, QUO, true)
    requires Peek(rest) in {RPAREN, KEY}
    ensures parts != [] ==> parts[0].kind in {COMMA, SUB, QUO} && IsParts(parts, parts[0].kind, parts[0].kind == QUO)
    ensures Fine(parts + rest)
  {
    assert parts == [] ==> parts + rest == rest;
  }

  lemma NoParts(rest: seq<Mark>)
    requires Peek(rest) in {RPAREN, KEY}
    ensures ParseParts(rest, QUO, true) == Ok("", rest) && Texts([]) == ""
  {
  }

  lemma PathValueReads(v: seq<Mark>, rest: seq<Mark>)
    requires v != [] && IsParts(v, QUO, true) && Peek(rest) in {RPAREN, KEY}
    ensures ParsePart(v + rest, QUO, true).Ok?
    ensures var Ok(part, more) := ParsePart(v + rest, QUO, true);
            Then(part, ParseParts(more, QUO, true)) == Ok(Texts(v), rest)
  {
    hide ParsePart;
    PartsRead(v, rest, QUO, true);
  }

  lemma ServerKVReads(kv: ServerKV, rest: seq<Mark>)
    requires IsServerValue(kv.key, kv.value) && Peek(rest) in {RPAREN, KEY}
    ensures var ms := [Mark(KEY, kv.key, false)] + (kv.value + rest);
            ParseKV(ms, true) == Ok(KV(kv.key, Texts(kv.value)), rest) && Peek(ms) == KEY
  {
    hide OneOf, ParseServerValue, IsServerValue, Texts;
    ServerValueReads(kv.key, kv.value, rest);
    OneReads(Mark(KEY, kv.key, false), kv.value + rest, {KEY, RPAREN});
  }

  lemma {:induction false} ServerKVsRead(list: seq<ServerKV>, rest: seq<Mark>)
    requires KVsOk(list) && Peek(rest) == RPAREN
    ensures ParseKVs(PrintServerKVs(list) + rest, true) == Ok(PlainKVs(list), rest)
    ensures Peek(PrintServerKVs(list) + rest) in {RPAREN, KEY}
    decreases |list|
  {
    hide ParseKV, IsServerValue, Texts;
    if list == [] {
      assert PrintServerKVs(list) + rest == rest;
    } else {
      hide ParseKVs;
      var k, v, more := Mark(KEY, list[0].key, false), list[0].value, PrintServerKVs(list[1..]) + rest;
      assert list[0] in list;
      ServerKVsRead(list[1..], rest);
      ServerKVReads(list[0], more);
      KVsStep(KV(list[0].key, Texts(v)), [k] + (v + more), true, PlainKVs(list[1..]), more, rest);
      Assoc(v, PrintServerKVs(list[1..]), rest);
      Assoc([k], v + PrintServerKVs(list[1..]), rest);
    }
  }

  lemma ServerGroupReads(list: seq<ServerKV>, rest: seq<Mark>)
    requires KVsOk(list) && Fine(rest)
    ensures ParseKVGroup(Parens(PrintServerKVs(list)) + rest, true) == Ok(PlainKVs(list), rest)
    ensures Peek(Parens(PrintServerKVs(list)) + rest) == LPAREN
  {
    hide ParseKVGroup, ParseKVs, KVsOk;
    Cons(Sign(RPAREN), rest);
    ServerKVsRead(list, [Sign(RPAREN)] + rest);
    GroupRead(PrintServerKVs(list), PlainKVs(list), true, rest);
  }

  // ---- routes ----------------------------------------------------------------------------------------

  lemma BodyExprReads(b: Body, rest: seq<Mark>)
    requires Fine(rest)
    ensures var ms := PrintBodyExpr(b) + rest;
            ParseBodyExpr(ms) == Ok(b, rest) && Peek(ms) in {LBRACK, MUL, IDENT}
  {
    hide OneOf;
    var star := if b.star then [Sign(MUL)] else [];
    var name := star + ([Word(b.name)] + rest);
    OneReads(Word(b.name), rest, {IDENT});
    OneReads(Sign(MUL), [Word(b.name)] + rest, {MUL});
    assert !b.star ==> name == [Word(b.name)] + rest;
    OneReads(Sign(RBRACK), name, {RBRACK});
    OneReads(Sign(LBRACK), [Sign(RBRACK)] + name, {LBRACK});
    Assoc(star, [Word(b.name)], rest);
    Assoc([Sign(LBRACK)], [Sign(RBRACK)], name);
    Assoc(if b.list then [Sign(LBRACK)] + [Sign(RBRACK)] else [], star + [Word(b.name)], rest);
    assert !b.list ==> [] + name == name;
  }

  lemma BodyReads(b: Option<Body>, rest: seq<Mark>)
    requires Fine(rest)
    ensures var ms := PrintBodyStmt(b) + rest; ParseBody(ms) == Ok(b, rest) && Peek(ms) == LPAREN
  {
    hide OneOf, ParseBodyExpr, PrintBodyExpr;
    var inner := if b.None? then [] else PrintBodyExpr(b.value);
    var close := [Sign(RPAREN)] + rest;
    OneReads(Sign(RPAREN), rest, {RPAREN});
    if b.Some? {
      BodyExprReads(b.value, close);
    } else {
      assert inner + close == close;
    }
    OneReads(Sign(LPAREN), inner + close, {LPAREN});
    GroupSplit(inner, rest);
  }

  /** What may follow the items of a service. */
  predicate AfterItem(rest: seq<Mark>) {
    Peek(rest) in {AT_DOC, AT_HANDLER, RBRACE} && PeekText(rest) != "returns"
  }

  function Semicolon(semicolon: bool): seq<Mark> {
    if semicolon then [Sign(SEMICOLON)] else []
  }

  lemma SemicolonReads<T>(value: T, semicolon: bool, rest: seq<Mark>)
    requires AfterItem(rest)
    ensures var ms := Semicolon(semicolon) + rest;
            && SkipSemicolon(value, ms) == Ok(value, rest) && PeekText(ms) != "returns"
            && Peek(ms) in {AT_DOC, AT_HANDLER, RBRACE, SEMICOLON} && (semicolon <==> Peek(ms) == SEMICOLON)
            && (!semicolon ==> ms == rest)
  {
    if semicolon {
      Cons(Sign(SEMICOLON), rest);
    } else {
      assert [] + rest == rest;
    }
  }

  lemma ReturnsRead(r: Option<Option<Body>>, semicolon: bool, rest: seq<Mark>)
    requires AfterItem(rest)
    ensures var ms := PrintReturns(r) + (Semicolon(semicolon) + rest);
            && ParseReturns(ms) == Ok(r, rest) && (r.Some? <==> PeekText(ms) == "returns")
            && (r.Some? ==> Peek(ms) == IDENT) && (r.None? ==> ms == Semicolon(semicolon) + rest)
  {
    hide SkipSemicolon, ParseBody, PrintBodyStmt;
    var tail := Semicolon(semicolon) + rest;
    SemicolonReads(r, semicolon, rest);
    if r.Some? {
      BodyReads(r.value, tail);
      WordReads(Word("returns"), PrintBodyStmt(r.value) + tail, {"returns"});
      Cons(Word("returns"), PrintBodyStmt(r.value) + tail);
      Assoc([Word("returns")], PrintBodyStmt(r.value), tail);
    } else {
      assert [] + tail == tail;
    }
  }

  lemma BodiesUnfold(verb: string, path: string, ms: seq<Mark>)
    ensures Peek(ms) == LPAREN && ParseBody(ms).Ok? ==>
              ParseBodies(verb, path, ms) ==
              WithResponse(verb, path, Some(ParseBody(ms).value), ParseReturns(ParseBody(ms).rest))
    ensures Peek(ms) == IDENT && PeekText(ms) == "returns" ==>
              ParseBodies(verb, path, ms) == WithResponse(verb, path, None, ParseReturns(ms))
    ensures Peek(ms) in {AT_DOC, AT_HANDLER, RBRACE} ==>
              ParseBodies(verb, path, ms) == Ok(Route(verb, path, None, None), ms)
    ensures Peek(ms) == SEMICOLON ==>
              ParseBodies(verb, path, ms) == SkipSemicolon(Route(verb, path, None, None), ms)
  {
    hide SkipSemicolon, ParseBody, ParseReturns;
  }

  lemma BodiesRead(r: RouteTree, path: string, rest: seq<Mark>)
    requires AfterItem(rest)
    ensures var ms := PrintBodies(r) + rest;
            && ParseBodies(r.verb, path, ms) == Ok(Route(r.verb, path, r.request, r.response), rest)
            && EndsPath(ms) && Fine(ms)
  {
    hide SkipSemicolon, ParseBody, PrintBodyStmt, ParseReturns, PrintReturns, EndsPath, Semicolon, ParseBodies;
    BodiesUnfold(r.verb, path, PrintBodies(r) + rest);
    var semi := Semicolon(r.semicolon);
    var more := PrintReturns(r.response) + (semi + rest);
    ReturnsRead(r.response, r.semicolon, rest);
    SemicolonReads(Route(r.verb, path, None, None), r.semicolon, rest);
    Assoc(PrintReturns(r.response), semi, rest);
    BodiesSplit(r, rest);
    if r.request.Some? {
      BodyReads(r.request.value, more);
    }
    EndsHere(PrintBodies(r) + rest);
  }

  lemma BodiesSplit(r: RouteTree, rest: seq<Mark>)
    ensures PrintBodies(r) + rest ==
            if r.request.None? then PrintReturns(r.response) + (Semicolon(r.semicolon) + rest)
            else PrintBodyStmt(r.request.value) + (PrintReturns(r.response) + (Semicolon(r.semicolon) + rest))
  {
    hide PrintBodyStmt, PrintReturns;
    var semi := Semicolon(r.semicolon);
    Assoc(PrintReturns(r.response), semi, rest);
    if r.request.Some? {
      Assoc(PrintBodyStmt(r.request.value), PrintReturns(r.response) + semi, rest);
    } else {
      assert [] + (PrintReturns(r.response) + semi) == PrintReturns(r.response) + semi;
    }
  }

  lemma EndsHere(ms: seq<Mark>)
    requires Peek(ms) in {LPAREN, AT_DOC, AT_HANDLER, SEMICOLON, RBRACE} || PeekText(ms) == "returns"
    ensures EndsPath(ms)
  {
  }

  lemma RouteReads(r: RouteTree, rest: seq<Mark>)
    requires RouteOk(r) && AfterItem(rest)
    ensures var ms := PrintRoute(r) + rest; ParseRoute(ms) == Ok(PlainRoute(r), rest) && Fine(ms)
  {
    hide ParsePath, ParseBodies, PrintBodies, IsPath, Texts, EndsPath;
    var end := PrintBodies(r) + rest;
    BodiesRead(r, Texts(r.path), rest);
    PathReads(r.path, end);
    PathIsFine(r.path, end);
    WordReads(Word(r.verb), r.path + end, HTTP_METHODS);
    Cons(Word(r.verb), r.path + end);
    Assoc(r.path, PrintBodies(r), rest);
    Assoc([Word(r.verb)], r.path + PrintBodies(r), rest);
  }

  lemma PathIsFine(path: seq<Mark>, rest: seq<Mark>)
    requires path != [] && IsPath(path)
    ensures Fine(path + rest)
  {
  }

  // ---- services --------------------------------------------------------------------------------------

  lemma HandledReads(i: ItemTree, rest: seq<Mark>)
    requires ItemTreeOk(i) && AfterItem(rest) && (i.handled.None? ==> Peek(rest) == RBRACE)
    ensures var ms := PrintHandled(i) + rest;
            && ParseHandled(i.doc, ms) == Ok(PlainItem(i), rest) && Peek(ms) == (if i.brace then RBRACE else AT_HANDLER)
            && PeekText(ms) != "returns"
  {
    hide OneOf, ParseRoute, PrintRoute, RouteOk;
    var word := Sign(if i.brace then RBRACE else AT_HANDLER);
    match i.handled
    case None =>
      OneReads(word, rest, {AT_HANDLER, RBRACE});
      assert [word] + [] == [word];
    case Some((name, route)) =>
      var tail := PrintRoute(route) + rest;
      RouteReads(route, rest);
      OneReads(Word(name), tail, {IDENT});
      OneReads(word, [Word(name)] + tail, {AT_HANDLER, RBRACE});
      Assoc([Word(name)], PrintRoute(route), rest);
      Assoc([word], [Word(name)] + PrintRoute(route), rest);
  }

  lemma ItemReads(i: ItemTree, rest: seq<Mark>)
    requires ItemTreeOk(i) && AfterItem(rest) && (i.handled.None? ==> Peek(rest) == RBRACE)
    ensures var ms := PrintItem(i) + rest;
            ParseServiceItem(ms) == Ok(PlainItem(i), rest) && Peek(ms) in {AT_DOC, AT_HANDLER} && AfterItem(ms)
  {
    hide OneOf, ParseHandled, PrintHandled, ParseDoc, PrintDoc, PlainItem;
    var tail := PrintHandled(i) + rest;
    HandledReads(i, rest);
    if i.doc.Some? {
      DocReads(i.doc.value, tail);
      OneReads(Sign(AT_DOC), PrintDoc(i.doc.value) + tail, {AT_DOC});
      Assoc([Sign(AT_DOC)], PrintDoc(i.doc.value), tail);
      Assoc([Sign(AT_DOC)] + PrintDoc(i.doc.value), PrintHandled(i), rest);
    } else {
      assert [] + PrintHandled(i) == PrintHandled(i);
    }
  }

  lemma ItemsOkRest(items: seq<ItemTree>)
    requires ItemsOk(items) && items != []
    ensures ItemTreeOk(items[0]) && ItemsOk(items[1..]) && (|items| > 1 ==> items[0].handled.Some?)
  {
    hide ItemTreeOk;
  }

  lemma {:induction false} ItemsRead(items: seq<ItemTree>, rest: seq<Mark>)
    requires ItemsOk(items) && Peek(rest) == RBRACE && PeekText(rest) != "returns"
    ensures var ms := PrintItems(items) + rest; ParseItems(ms) == Ok(PlainItems(items), rest) && AfterItem(ms)
    ensures items != [] ==> Peek(PrintItems(items) + rest) in {AT_DOC, AT_HANDLER}
    decreases |items|
  {
    hide ParseServiceItem, PrintItem, PlainItem, ItemTreeOk, ItemsOk;
    if items == [] {
      assert PrintItems(items) + rest == rest;
    } else {
      var more := PrintItems(items[1..]) + rest;
      assert items[1..] == [] ==> more == rest;
      ItemsOkRest(items);
      ItemsRead(items[1..], rest);
      ItemReads(items[0], more);
      Assoc(PrintItem(items[0]), PrintItems(items[1..]), rest);
    }
  }

  lemma NameReads(s: ServiceTree, rest: seq<Mark>)
    requires Fine(rest) && Peek(rest) != SUB
    ensures var ms := PrintName(s) + rest;
            && Peek(ms) == IDENT && Fine(ms[1..]) && PeekText(ms) == s.name
            && ParseServiceName(s.name, ms[1..]) == Ok(if s.api then s.name + "-" + "api" else s.name, rest)
  {
    hide OneOf;
    var more := (if s.api then [Sign(SUB)] + [Word("api")] else []) + rest;
    if s.api {
      WordReads(Word("api"), rest, {"api"});
      Cons(Word("api"), rest);
      OneReads(Sign(SUB), [Word("api")] + rest, {SUB});
      Assoc([Sign(SUB)], [Word("api")], rest);
    } else {
      assert more == rest;
    }
    Cons(Word(s.name), more);
    Assoc([Word(s.name)], if s.api then [Sign(SUB)] + [Word("api")] else [], rest);
  }

  lemma NamedReads(s: ServiceTree, server: Option<seq<KV>>, rest: seq<Mark>)
    requires ItemsOk(s.items) && Fine(rest)
    ensures var ms := PrintNamed(s) + rest;
            && Peek(ms) == IDENT
            && ParseNamedService(server, ms) == Ok(PlainService(s).(server := server), rest)
  {
    hide OneOf, ParseItems, PrintItems, ParseServiceName, PrintName, ItemsOk, PlainItems;
    var open, close := Sign(LBRACE), Sign(RBRACE);
    var inner := PrintItems(s.items) + ([close] + rest);
    OneReads(close, rest, {RBRACE});
    ItemsRead(s.items, [close] + rest);
    OneReads(open, inner, {LBRACE});
    NameReads(s, [open] + inner);
    NamedSplit(PrintName(s), PrintItems(s.items), rest);
    var ms := PrintName(s) + ([open] + inner);
    Cons(ms[0], ms[1..]);
    assert ms == [ms[0]] + ms[1..];
    OneReads(ms[0], ms[1..], {IDENT});
  }

  lemma NamedSplit(name: seq<Mark>, items: seq<Mark>, rest: seq<Mark>)
    ensures (name + ([Sign(LBRACE)] + (items + [Sign(RBRACE)]))) + rest ==
            name + ([Sign(LBRACE)] + (items + ([Sign(RBRACE)] + rest)))
  {
    Assoc(items, [Sign(RBRACE)], rest);
    Assoc([Sign(LBRACE)], items + [Sign(RBRACE)], rest);
    Assoc(name, [Sign(LBRACE)] + (items + [Sign(RBRACE)]), rest);
  }

  lemma ServiceReads(s: ServiceTree, rest: seq<Mark>)
    requires ServiceOk(s) && Fine(rest)
    ensures var ms := PrintService(s) + rest;
            ParseServiceStmt(s.server.Some?, ms) == Ok(PlainService(s), rest) && Peek(ms) in {IDENT, LPAREN}
  {
    hide OneWord, ParseNamedService, PrintNamed, ParseKVGroup, Parens, ItemsOk, KVsOk, PlainItems;
    var server := if s.server.None? then None else Some(PlainKVs(s.server.value));
    NamedReads(s, server, rest);
    if s.server.Some? {
      var named := PrintNamed(s) + rest;
      WordReads(Word("service"), named, {"service"});
      Cons(Word("service"), named);
      ServerGroupReads(s.server.value, [Word("service")] + named);
      Assoc([Word("service")], PrintNamed(s), rest);
      Assoc(Parens(PrintServerKVs(s.server.value)), [Word("service")] + PrintNamed(s), rest);
    }
  }

  // ---- files -----------------------------------------------------------------------------------------

  lemma SyntaxReads(value: string, rest: seq<Mark>)
    requires Fine(rest)
    ensures var ms := ([Sign(ASSIGN)] + [StringMark(value)]) + rest; ParseSyntax(ms) == Ok(value, rest) && Fine(ms)
  {
    hide OneOf;
    OneReads(StringMark(value), rest, {STRING});
    OneReads(Sign(ASSIGN), [StringMark(value)] + rest, {ASSIGN});
    Assoc([Sign(ASSIGN)], [StringMark(value)], rest);
  }

  /** The tokens of a statement are read as the statement, whatever follows. */
  lemma StmtReads(t: StmtTree, rest: seq<Mark>)
    requires TreeOk(t) && Fine(rest)
    ensures var ms := PrintAfter(t) + rest;
            ParseStmtAfter(FirstOf(t).kind, FirstOf(t).text, ms) == Ok(PlainStmt(t), rest) && Fine(ms)
  {
    hide ParseSyntax, ParseImport, ParseKVGroup, ParseTypes, ParseServiceStmt, TypesOk, ServiceOk, PlainService,
      PrintImports, PrintTypes, PrintService, Parens, PrintKVs;
    match t
    case SyntaxTree(value) => SyntaxReads(value, rest);
    case ImportTree(imports) => ImportsRead(imports, rest);
    case InfoTree(info) => KVGroupReads(info, rest);
    case TypeTree(types) =>
      TypesRoundTrip(types, rest);
      StartsTypes(types, rest);
    case ServiceStmtTree(service) => ServiceReads(service, rest);
  }

  lemma FirstIsFine(t: StmtTree)
    ensures FirstOf(t).kind in {IDENT, AT_SERVER}
  {
  }

  /** The tokens of a file are read as its statements. */
  lemma {:induction false} FileRoundTrip(trees: seq<StmtTree>, rest: seq<Mark>)
    requires (forall t <- trees :: TreeOk(t)) && Peek(rest) == EOF
    ensures ParseFile(PrintFile(trees) + rest) == Ok(PlainFile(trees), rest)
    ensures Fine(PrintFile(trees) + rest)
    decreases |trees|
  {
    hide TreeOk, ParseStmtAfter, PrintAfter, FirstOf, PlainStmt;
    if trees == [] {
      assert PrintFile(trees) + rest == rest;
    } else {
      var t, more := trees[0], PrintFile(trees[1..]) + rest;
      assert TreeOk(t);
      FileRoundTrip(trees[1..], rest);
      StmtReads(t, more);
      FirstIsFine(t);
      Cons(FirstOf(t), PrintAfter(t) + more);
      Assoc([FirstOf(t)] + PrintAfter(t), PrintFile(trees[1..]), rest);
      Assoc([FirstOf(t)], PrintAfter(t), more);
    }
  }
}
