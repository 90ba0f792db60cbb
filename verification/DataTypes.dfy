/** Data types of the language, what the printer writes for them, and what the parser reads. */
module DataTypes {
  import opened Tokens
  import opened Lexis
  import opened Grammar

  datatype Option<T> = None | Some(value: T)

  datatype DataType =
    | AnyType
    | InterfaceType
    | BaseType(name: string)
    | ArrayType(length: Length, elem: DataType)
    | SliceType(elem: DataType)
    | MapType(key: DataType, value: DataType)
    | PointerType(elem: DataType)
    | StructType(elems: seq<Elem>)

  /** The length of an array: digits, or three dots. */
  datatype Length = Fixed(digits: string) | Dynamic

  /** A struct element; one without names is anonymous. */
  datatype Elem = Elem(names: seq<string>, tp: DataType, tag: Option<string>)

  /** What stands at that place in a type: elements and parts by number, from the outside in. */
  function PartAt(t: DataType, path: seq<nat>): Option<DataType>
    decreases t
  {
    if path == [] then Some(t)
    else
      match t
      case ArrayType(_, elem) => if path[0] == 0 then PartAt(elem, path[1..]) else None
      case SliceType(elem) => if path[0] == 0 then PartAt(elem, path[1..]) else None
      case MapType(key, value) =>
        if path[0] == 0 then PartAt(key, path[1..]) else if path[0] == 1 then PartAt(value, path[1..]) else None
      case PointerType(elem) => if path[0] == 0 then PartAt(elem, path[1..]) else None
      case StructType(elems) => if path[0] < |elems| then PartAt(elems[path[0]].tp, path[1..]) else None
      case _ => None
  }

  /**
   A token as the parser sees it. It is `later` if it is on a later line than the token before it, which of a raw string
   is not told; and `noted` if between the two there is a comment on the line of the token before it.
   */
  datatype Mark = Mark(kind: Kind, text: string, later: bool, noted: bool := false)

  function Sign(kind: Kind): Mark {
    Mark(kind, Spelling(kind), false)
  }

  // ---- the printer -----------------------------------------------------------------------------

  function LengthMark(length: Length): Mark {
    match length
    case Fixed(digits) => Mark(INT, digits, false)
    case Dynamic => Sign(ELLIPSIS)
  }

  /** The tokens printed for a type; `later` says whether the first of them opens a line. */
  function Print(t: DataType, later: bool): (ms: seq<Mark>)
    ensures ms != [] && ms[0].later == later
    decreases t, 1
  {
    match t
    case AnyType => [Mark(IDENT, "any", later)]
    case InterfaceType => [Mark(ANY, "interface{}", later)]
    case BaseType(name) => [Mark(IDENT, name, later)]
    case ArrayType(length, elem) =>
      [Mark(LBRACK, "[", later)] + ([LengthMark(length)] + ([Sign(RBRACK)] + Print(elem, false)))
    case SliceType(elem) => [Mark(LBRACK, "[", later)] + ([Sign(RBRACK)] + Print(elem, false))
    case MapType(key, value) =>
      [Mark(IDENT, "map", later)] + ([Sign(LBRACK)] + (Print(key, false) + ([Sign(RBRACK)] + Print(value, false))))
    case PointerType(elem) => [Mark(MUL, "*", later)] + Print(elem, false)
    case StructType(elems) =>
      [Mark(LBRACE, "{", later)] + (PrintElems(elems) + [Mark(RBRACE, "}", elems != [])])
  }

  /** Each element is printed on a line of its own. */
  function PrintElems(elems: seq<Elem>): (ms: seq<Mark>)
    ensures elems != [] ==> ms != [] && ms[0].later
    decreases elems, 0
  {
    if elems == [] then [] else PrintElem(elems[0]) + PrintElems(elems[1..])
  }

  function PrintElem(e: Elem): (ms: seq<Mark>)
    ensures ms != [] && ms[0].later
    decreases e, 2
  {
    PrintBody(e) + PrintTag(e.tag)
  }

  /** The tokens of an element up to its tag. */
  function PrintBody(e: Elem): (ms: seq<Mark>)
    ensures ms != [] && ms[0].later
    decreases e, 1
  {
    if e.names == [] then Print(e.tp, true)
    else [Mark(IDENT, e.names[0], true)] + (PrintNames(e.names[1..]) + Print(e.tp, false))
  }

  function PrintNames(names: seq<string>): seq<Mark> {
    if names == [] then [] else [Sign(COMMA)] + ([Mark(IDENT, names[0], false)] + PrintNames(names[1..]))
  }

  function PrintTag(tag: Option<string>): seq<Mark> {
    match tag
    case None => []
    case Some(text) => [Mark(RAW_STRING, text, false)]
  }

  // ---- well-formed types ------------------------------------------------------------------------

  predicate IsName(text: string) {
    IsIdent(text) && !IsKeyword(text)
  }

  predicate LengthOk(length: Length) {
    length.Fixed? ==> length.digits != "" && All(length.digits, Digit)
  }

  /** The types that can be written: names are legal, and a pointer is not to a struct literal. */
  predicate WellFormed(t: DataType)
    decreases t, 1
  {
    match t
    case AnyType => true
    case InterfaceType => true
    case BaseType(name) => IsName(name) && name != "any"
    case ArrayType(length, elem) => LengthOk(length) && WellFormed(elem)
    case SliceType(elem) => WellFormed(elem)
    case MapType(key, value) => WellFormed(key) && WellFormed(value)
    case PointerType(elem) => !elem.StructType? && WellFormed(elem)
    case StructType(elems) => forall e <- elems :: ElemOk(e)
  }

  /** An anonymous element is a name or a pointer to a name, which may then even be a keyword. */
  predicate ElemOk(e: Elem)
    decreases e, 2
  {
    && (e.tag.Some? ==> IsQuoted(e.tag.value, '`'))
    && if e.names == [] then
         match e.tp
         case AnyType => true
         case BaseType(name) => IsName(name) && name != "any"
         case PointerType(elem) => elem.AnyType? || (elem.BaseType? && IsIdent(elem.name) && elem.name != "any")
         case _ => false
       else (forall n <- e.names :: IsName(n)) && WellFormed(e.tp)
  }
}
