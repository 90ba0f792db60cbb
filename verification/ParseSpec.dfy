/** What the parser of data types reads from the tokens ahead, and that it undoes the printer. */
module ParseSpec {
  import opened Tokens
  import opened Lexis
  import opened Grammar
  import opened DataTypes

  /** A parse: what was read and the marks left, or a failure. */
  datatype Parsed<T> = Fail | Ok(value: T, rest: seq<Mark>)

  /** A list already read, put before what is still to be read. */
  function Prepend<T>(list: seq<T>, r: Parsed<seq<T>>): Parsed<seq<T>> {
    match r
    case Fail => Fail
    case Ok(more, rest) => Ok(list + more, rest)
  }

  /** The kind of the next token; nothing left reads as end of input. */
  function Peek(ms: seq<Mark>): Kind {
    if ms == [] then EOF else ms[0].kind
  }

  function PeekText(ms: seq<Mark>): string {
    if ms == [] then "" else ms[0].text
  }

  /** Moving past a token fails when the scanner fails on the token after it. */
  predicate CanAdvance(ms: seq<Mark>) {
    ms != [] && Peek(ms[1..]) != ERROR
  }

  function ParseType(ms: seq<Mark>): (r: Parsed<DataType>)
    ensures r.Ok? ==> |r.rest| < |ms|
    decreases |ms|, 1
  {
    if !CanAdvance(ms) then Fail
    else if PeekText(ms) == "any" then Ok(AnyType, ms[1..])
    else match Peek(ms)
      case LBRACE => ParseStruct(ms[1..])
      case IDENT =>
        if PeekText(ms) == "map" then ParseMap(ms[1..])
        else if IsKeyword(PeekText(ms)) then Fail
        else Ok(BaseType(PeekText(ms)), ms[1..])
      case LBRACK => ParseBrackets(ms[1..])
      case ANY => Ok(InterfaceType, ms[1..])
      case MUL => ParsePointer(ms[1..])
      case _ => Fail
  }

  /** After `[`: a slice, or an array with its length. */
  function ParseBrackets(ms: seq<Mark>): (r: Parsed<DataType>)
    ensures r.Ok? ==> |r.rest| < |ms|
    decreases |ms|, 2
  {
    if !CanAdvance(ms) then Fail
    else if Peek(ms) == RBRACK then
      match ParseType(ms[1..])
      case Ok(elem, rest) => Ok(SliceType(elem), rest)
      case Fail => Fail
    else if Peek(ms) == INT || Peek(ms) == ELLIPSIS then
      if Peek(ms[1..]) != RBRACK || !CanAdvance(ms[1..]) then Fail
      else
        match ParseType(ms[1..][1..])
        case Ok(elem, rest) => Ok(ArrayType(if Peek(ms) == INT then Fixed(PeekText(ms)) else Dynamic, elem), rest)
        case Fail => Fail
    else Fail
  }

  /** After `map`. */
  function ParseMap(ms: seq<Mark>): (r: Parsed<DataType>)
    ensures r.Ok? ==> |r.rest| < |ms|
    decreases |ms|, 2
  {
    if Peek(ms) != LBRACK || !CanAdvance(ms) then Fail
    else
      match ParseType(ms[1..])
      case Fail => Fail
      case Ok(key, rest) =>
        if Peek(rest) != RBRACK || !CanAdvance(rest) then Fail
        else
          match ParseType(rest[1..])
          case Ok(value, rest') => Ok(MapType(key, value), rest')
          case Fail => Fail
  }

  /** After `*`. */
  function ParsePointer(ms: seq<Mark>): (r: Parsed<DataType>)
    ensures r.Ok? ==> |r.rest| < |ms|
    decreases |ms|, 2
  {
    if Peek(ms) !in {IDENT, LBRACK, ANY, MUL} then Fail
    else
      match ParseType(ms)
      case Ok(elem, rest) => Ok(PointerType(elem), rest)
      case Fail => Fail
  }

  /** After `{`. */
  function ParseStruct(ms: seq<Mark>): (r: Parsed<DataType>)
    ensures r.Ok? ==> |r.rest| < |ms|
    decreases |ms|, 3
  {
    if Peek(ms) !in {IDENT, MUL, RBRACE} then Fail
    else
      match ParseElems(ms)
      case Ok(elems, rest) =>
        if Peek(rest) != RBRACE || !CanAdvance(rest) then Fail else Ok(StructType(elems), rest[1..])
      case Fail => Fail
  }

  function ParseElems(ms: seq<Mark>): (r: Parsed<seq<Elem>>)
    ensures r.Ok? ==> |r.rest| <= |ms|
    decreases |ms|, 2
  {
    if Peek(ms) == RBRACE || Peek(ms) == EOF then Ok([], ms)
    else if Peek(ms) !in {IDENT, MUL} then Fail
    else
      match ParseElem(ms)
      case Fail => Fail
      case Ok(e, rest) =>
        if Peek(rest) !in {IDENT, MUL, RBRACE} then Fail
        else
          match ParseElems(rest)
          case Ok(es, rest') => Ok([e] + es, rest')
          case Fail => Fail
  }

  function ParseElem(ms: seq<Mark>): (r: Parsed<Elem>)
    ensures r.Ok? ==> |r.rest| < |ms|
    decreases |ms|, 1
  {
    if Peek(ms) !in {IDENT, MUL} || !CanAdvance(ms) || IsKeyword(PeekText(ms)) then Fail
    else
      match ParseElemBody(ms)
      case Fail => Fail
      case Ok((names, tp), rest) =>
        if Peek(rest) !in {RAW_STRING, MUL, IDENT, RBRACE} then Fail
        else if Peek(rest) != RAW_STRING then Ok(Elem(names, tp, None), rest)
        else if !CanAdvance(rest) then Fail
        else Ok(Elem(names, tp, Some(PeekText(rest))), rest[1..])
  }

  function NameType(text: string): DataType {
    if text == "any" then AnyType else BaseType(text)
  }

  /** The names and the type of an element, whose first token may be read. */
  function ParseElemBody(ms: seq<Mark>): (r: Parsed<(seq<string>, DataType)>)
    requires CanAdvance(ms)
    ensures r.Ok? ==> |r.rest| < |ms|
    decreases |ms|, 0
  {
    var next := ms[1..];
    if Peek(ms) == MUL then
      if Peek(next) != IDENT || !CanAdvance(next) then Fail
      else Ok(([], PointerType(NameType(PeekText(next)))), next[1..])
    else if (next != [] && next[0].later) || Peek(next) == RAW_STRING then
      Ok(([], NameType(PeekText(ms))), next)
    else if Peek(next) !in {COMMA, IDENT, LBRACK, ANY, MUL, LBRACE} then Fail
    else
      match ParseNames(next)
      case Fail => Fail
      case Ok(names, rest) =>
        match ParseType(rest)
        case Ok(tp, rest') => Ok(([PeekText(ms)] + names, tp), rest')
        case Fail => Fail
  }

  /** The further names of an element, each after a comma. */
  function ParseNames(ms: seq<Mark>): (r: Parsed<seq<string>>)
    ensures r.Ok? ==> |r.rest| <= |ms|
    decreases |ms|
  {
    if Peek(ms) != COMMA then Ok([], ms)
    else if !CanAdvance(ms) || Peek(ms[1..]) != IDENT || !CanAdvance(ms[1..]) || IsKeyword(PeekText(ms[1..])) then Fail
    else
      match ParseNames(ms[1..][1..])
      case Ok(names, rest) => Ok([PeekText(ms[1..])] + names, rest)
      case Fail => Fail
  }
}
