/**
 The conversion of declarations into specification types, the filling in of the types that members name, and what the
 check of declarations guarantees to them.
 */
module Conversion {
  import opened Tokens
  import opened Lexis
  import opened Grammar
  import opened DataTypes
  import opened Declared
  import opened TypeText
  import opened Printer
  import opened Squeezing
  import opened PrintTrip
  import opened Declarations
  import opened Comments
  import opened NodeText
  import opened Offsets

  // ---- conversion ----------------------------------------------------------------------------------

  /** The types of a specification. */
  datatype SpecType =
    | PrimitiveSpec(rawName: string)
    | DefineStruct(rawName: string, members: seq<Member>)
    | NestedStruct(rawName: string, members: seq<Member>)
    | InterfaceSpec(rawName: string)
    | MapSpec(rawName: string, key: string, value: SpecType)
    | PointerSpec(rawName: string, value: SpecType)
    | ArraySpec(rawName: string, value: SpecType)

  datatype Member = Member(name: string, tp: SpecType, tag: string, isInline: bool)

  predicate IsLiteralType(t: DataType) {
    t.BaseType? || t.AnyType?
  }

  predicate CanEqual(t: DataType) {
    match t
    case AnyType | InterfaceType | BaseType(_) => true
    case ArrayType(_, elem) => CanEqual(elem)
    case SliceType(_) | MapType(_, _) => false
    case PointerType(elem) => CanEqual(elem)
    case StructType(elems) => forall e <- elems :: CanEqual(e.tp)
  }

  /** The raw text of a type: what is printed of it. */
  function Raw(t: DataType, w: Writer): string {
    Format(t, "", w)
  }

  /** The raw text of a struct, with the comments at the braces of an empty one. */
  function StructText(elems: seq<Elem>, w: Writer): string {
    if elems == [] then BracesText(w.braces([]), w) else Raw(StructType(elems), w)
  }

  // ---- the places of elements ------------------------------------------------------------------------

  function NamesLength(e: Elem): nat {
    if e.names == [] then 0 else 1 + |PrintNames(e.names[1..])|
  }

  /** Where the type of element `k` starts, when the first element starts at `i`. */
  function TypeStart(elems: seq<Elem>, i: nat, k: nat): nat
    requires k < |elems|
  {
    i + |PrintElems(elems[..k])| + NamesLength(elems[k])
  }

  /** Where its tag stands, if it has one. */
  function TagStart(elems: seq<Elem>, i: nat, k: nat): nat
    requires k < |elems|
  {
    TypeStart(elems, i, k) + |Print(elems[k].tp, false)|
  }

  /**
   Does the tag of the element, or a comment above it, stand on a later line than the end of the type? It starts at
   node `i`, and the element is given by its path.
   */
  function ApartAt(t: DataType, nodes: seq<TokenNode>, i: nat, path: seq<nat>): bool
    decreases t
  {
    match t
    case ArrayType(_, elem) => ApartAt(elem, nodes, i + 3, path)
    case SliceType(elem) => ApartAt(elem, nodes, i + 2, path)
    case PointerType(elem) => ApartAt(elem, nodes, i + 1, path)
    case MapType(key, value) =>
      if path == [] then false
      else if path[0] == 0 then ApartAt(key, nodes, i + 2, path[1..])
      else path[0] == 1 && ApartAt(value, nodes, i + 3 + |Print(key, false)|, path[1..])
    case StructType(elems) =>
      if path == [] || path[0] >= |elems| then false
      else if |path| > 1 then ApartAt(elems[path[0]].tp, nodes, TypeStart(elems, i + 1, path[0]), path[1..])
      else
        var tag := TagStart(elems, i + 1, path[0]);
        elems[path[0]].tag.Some? && Pos(NodeAt(nodes, tag)).line > End(NodeAt(nodes, tag - 1)).line
    case _ => false
  }

  /** The braces of the empty struct at that path, with the comments above and behind them. */
  function BracesAt(t: DataType, nodes: seq<TokenNode>, i: nat, path: seq<nat>): TokenNode
    decreases t
  {
    match t
    case ArrayType(_, elem) => BracesAt(elem, nodes, i + 3, path)
    case SliceType(elem) => BracesAt(elem, nodes, i + 2, path)
    case PointerType(elem) => BracesAt(elem, nodes, i + 1, path)
    case MapType(key, value) =>
      if path == [] then NO_NODE
      else if path[0] == 0 then BracesAt(key, nodes, i + 2, path[1..])
      else if path[0] == 1 then BracesAt(value, nodes, i + 3 + |Print(key, false)|, path[1..])
      else NO_NODE
    case StructType(elems) =>
      if path == [] then NodeAt(nodes, i).(leading := NodeAt(nodes, i + 1).leading)
      else if path[0] >= |elems| then NO_NODE
      else BracesAt(elems[path[0]].tp, nodes, TypeStart(elems, i + 1, path[0]), path[1..])
    case _ => NO_NODE
  }

  /** What is printed of the type of a declaration depends on where its tags and comments stand. */
  function WriterFor(e: TypeExpr, w: Writer): Writer {
    Writer(
      w.pad, w.verbs, (path: seq<nat>) => ApartAt(e.tp, e.nodes, 0, path),
      (path: seq<nat>) => BracesAt(e.tp, e.nodes, 0, path))
  }

  function AstTypeToSpec(t: DataType, w: Writer): Option<SpecType>
    decreases t, 0
  {
    match t
    case BaseType(name) => Some(if IsBaseType(name) then PrimitiveSpec(name) else DefineStruct(name, []))
    case AnyType => None
    case StructType(elems) =>
      var members := MembersOf(elems, w);
      if members.None? || StructText(elems, w) == "{}" then None else Some(NestedStruct(Raw(t, w), members.value))
    case InterfaceType => Some(InterfaceSpec(Raw(t, w)))
    case MapType(key, value) =>
      if !IsLiteralType(key) || !CanEqual(key) || ContainsStruct(value) then None
      else
        var v := AstTypeToSpec(value, w.At(1));
        if v.None? then None else Some(MapSpec(Raw(t, w), Raw(key, w.At(0)), v.value))
    case PointerType(elem) =>
      if IsBaseType(Raw(elem, w)) then Some(PointerSpec(Raw(t, w), PrimitiveSpec(Raw(elem, w))))
      else
        var v := AstTypeToSpec(elem, w);
        if v.None? then None else Some(PointerSpec(Raw(t, w), v.value))
    case ArrayType(length, elem) =>
      if length.Dynamic? || ContainsStruct(elem) then None
      else
        var v := AstTypeToSpec(elem, w);
        if v.None? then None else Some(ArraySpec(Raw(t, w), v.value))
    case SliceType(elem) =>
      if ContainsStruct(elem) then None
      else
        var v := AstTypeToSpec(elem, w);
        if v.None? then None else Some(ArraySpec(Raw(t, w), v.value))
  }

  function FieldToMember(e: Elem, w: Writer): Option<Member>
    decreases e, 1
  {
    var tp := AstTypeToSpec(e.tp, w);
    if tp.None? then None
    else Some(Member(Joined(e.names, ", "), tp.value, if e.tag.Some? then e.tag.value else "", e.names == []))
  }

  function MembersOf(elems: seq<Elem>, w: Writer): Option<seq<Member>>
    decreases elems, 0
  {
    if elems == [] then Some([])
    else
      var n := |elems| - 1;
      var init, last := MembersOf(elems[..n], w), FieldToMember(elems[n], w.At(n));
      if init.None? || last.None? then None else Some(init.value + [last.value])
  }

  /** Comments begin with a slash. */
  predicate Slashed(comments: seq<Token>) {
    forall c <- comments :: '/' in c.text
  }

  predicate BracesSlashed(w: Writer, path: seq<nat>) {
    Slashed(w.braces(path).head) && Slashed(w.braces(path).leading)
  }

  ghost predicate AllSlashed(w: Writer) {
    forall path: seq<nat> :: BracesSlashed(w, path)
  }

  predicate Remarked(n: TokenNode) {
    n.head != [] || n.leading != []
  }

  /** The raw text of a struct is two braces exactly if it has no elements, and no comment above or behind them. */
  lemma EmptyStructText(elems: seq<Elem>, w: Writer)
    requires Pads(w.pad) && BracesSlashed(w, [])
    ensures StructText(elems, w) == "{}" <==> elems == [] && !Remarked(w.braces([]))
  {
    hide Squeeze, FormatElems, Padded;
    if elems == [] {
      var n := w.braces([]);
      var t := Above(n.head) + ("{}" + Behind(n.leading));
      if Remarked(n) {
        SlashShown(n);
        SqueezeKeeps(t);
        PaddedHas(Squeeze(t), w.pad(Squeeze(t)), '/');
      } else {
        assert t == "{}";
        FirmStays("{}", w);
      }
    } else {
      var inner := "{" + ("\n" + (FormatElems(elems, "", w) + ("" + "}")));
      assert inner[1] == '\n' && Padded(inner, w.pad(inner));
      if w.pad(inner) == "{}" {
        PaddedLine(inner, w.pad(inner));
      }
    }
  }

  lemma SlashShown(n: TokenNode)
    requires Slashed(n.head) && Slashed(n.leading) && Remarked(n)
    ensures '/' in Above(n.head) + ("{}" + Behind(n.leading))
  {
    if n.head != [] {
      assert n.head[0] in n.head && '/' in Above(n.head);
    } else {
      assert n.leading[0] in n.leading && '/' in Behind(n.leading);
    }
  }

  /** A newline stays one. */
  lemma PaddedLine(s: string, o: string)
    requires Padded(s, o) && |s| > 1 && s[0] == '{' && s[1] == '\n'
    ensures |o| > 1 && o[1] == '\n'
  {
    var i := PaddedHead(s, o);
    var j := PaddedHead(s[1..], o[i..]);
    assert o[..i] == "{" && o[i..][..j] == "\n";
    assert o[i..][..j][0] == o[i];
  }

  predicate IsTypeSign(c: char) {
    c == '[' || c == '*' || c == '{'
  }

  lemma NoSigns(text: string, c: char)
    requires IsBaseType(text) && IsTypeSign(c)
    ensures c !in text
  {
    hide IsBaseType;
    BaseIsWord(text);
    forall k | 0 <= k < |text|
      ensures text[k] != c
    {
      assert Ident.Has(text[k]);
    }
  }

  lemma BaseIsWord(text: string)
    requires IsBaseType(text)
    ensures All(text, Ident)
  {
  }

  /** A sign is neither squeezed nor padded away. */
  lemma SignStays(s: string, w: Writer, c: char)
    requires Pads(w.pad) && c in s && IsTypeSign(c)
    ensures c in w.pad(s) && c in w.pad(Squeeze(s))
  {
    hide Squeeze, Padded;
    SqueezeKeeps(s);
    PaddedHas(s, w.pad(s), c);
    PaddedHas(Squeeze(s), w.pad(Squeeze(s)), c);
  }

  /** A type that is no name has a sign in its text. */
  lemma RawHasSign(t: DataType, w: Writer) returns (c: char)
    requires !t.AnyType? && !t.BaseType? && Pads(w.pad)
    ensures IsTypeSign(c) && c in Raw(t, w)
  {
    hide Squeeze, Pads, LengthMark;
    match t
    case InterfaceType =>
      c := '{';
      assert "interface{}"[9] == '{' && Raw(t, w) == "" + "interface{}" == "interface{}";
    case ArrayType(length, elem) =>
      c := '[';
      SignStays("[" + (LengthMark(length).text + ("]" + Format(elem, "", w))), w, c);
    case SliceType(elem) =>
      c := '[';
      SignStays("[" + ("]" + Format(elem, "", w)), w, c);
    case MapType(key, value) =>
      c := '[';
      var rest := "[" + (Format(key, "", w.At(0)) + ("]" + Format(value, "", w.At(1))));
      assert rest[0] == '[' && ("map" + rest)[3] == rest[0];
      SignStays("map" + rest, w, c);
    case PointerType(elem) =>
      c := '*';
      assert (("" + "*") + Format(elem, "", w))[0] == '*';
      SignStays(("" + "*") + Format(elem, "", w), w, c);
    case StructType(elems) =>
      c := '{';
      if elems == [] {
        assert (("" + "{") + "}")[0] == '{';
        SignStays(("" + "{") + "}", w, c);
      } else {
        SignStays("{" + ("\n" + (FormatElems(elems, "", w) + ("" + "}"))), w, c);
      }
  }

  lemma RawWord(t: DataType, w: Writer)
    requires t.AnyType? || t.BaseType?
    ensures Raw(t, w) == if t.AnyType? then "any" else t.name
  {
  }

  /** Of all types only the built-in names and `any` are written like a built-in name. */
  lemma RawLikeBase(t: DataType, w: Writer)
    requires Pads(w.pad)
    ensures IsBaseType(Raw(t, w)) <==> t.AnyType? || (t.BaseType? && IsBaseType(t.name))
  {
    hide IsBaseType, Raw, Pads;
    AnyIsBase();
    if t.AnyType? || t.BaseType? {
      RawWord(t, w);
    } else if IsBaseType(Raw(t, w)) {
      var c := RawHasSign(t, w);
      NoSigns(Raw(t, w), c);
    }
  }

  lemma AnyIsBase()
    ensures IsBaseType("any")
  {
  }

  /**
   The conversion keeps a type's text as its raw name, and so tells well-formed types apart whose tags have neither
   tabs nor blanks at newlines.
   */
  lemma ConversionIsInjective(t: DataType, u: DataType, w: Writer)
    requires Pads(w.pad) && AstTypeToSpec(t, w).Some? && AstTypeToSpec(u, w) == AstTypeToSpec(t, w)
    requires WellFormed(t) && NoTabs(Tags(t)) && AllTidy(Tags(t)) && WellFormed(u) &&
             NoTabs(Tags(u)) && AllTidy(Tags(u))
    ensures t == u
  {
    hide WellFormed, Raw, IsBaseType, ContainsStruct, MembersOf, NoTabs, AllTidy, Pads, Tags, StructText;
    RawNameIsRaw(t, w);
    RawNameIsRaw(u, w);
    SameRaw(t, u, w);
    PrintedIsInjective(t, u, "", w) by {
      assert Blanks("");
    }
  }

  lemma SameRaw(t: DataType, u: DataType, w: Writer)
    requires Raw(t, w) == Raw(u, w)
    ensures Format(t, "", w) == Format(u, "", w)
  {
  }

  lemma RawNameIsRaw(t: DataType, w: Writer)
    requires AstTypeToSpec(t, w).Some?
    ensures AstTypeToSpec(t, w).value.rawName == Raw(t, w)
  {
    hide Raw, IsBaseType, ContainsStruct, MembersOf, StructText;
    if t.BaseType? {
      RawWord(t, w);
    }
  }

  /** A converted struct has a member for each element, with its names, its tag and its converted type. */
  ghost predicate HasMembers(ms: seq<Member>, elems: seq<Elem>, w: Writer) {
    && |ms| == |elems|
    && forall i :: 0 <= i < |elems| ==>
         IsField(ms[i], elems[i]) && Some(ms[i].tp) == AstTypeToSpec(elems[i].tp, w.At(i))
  }

  /** The name of a member is the names of the element with commas between them; one without names is inline. */
  ghost predicate IsField(m: Member, e: Elem) {
    && (exists at :: Joins(m.name, e.names, ", ", at))
    && (m.isInline <==> e.names == [])
    && m.tag == if e.tag.Some? then e.tag.value else ""
  }

  lemma FieldIs(e: Elem, w: Writer)
    requires FieldToMember(e, w).Some?
    ensures IsField(FieldToMember(e, w).value, e) && Some(FieldToMember(e, w).value.tp) == AstTypeToSpec(e.tp, w)
  {
    hide AstTypeToSpec, Joins, Joined;
    var at := JoinedIs(e.names, ", ");
  }

  lemma MembersHold(elems: seq<Elem>, w: Writer)
    requires MembersOf(elems, w).Some?
    ensures HasMembers(MembersOf(elems, w).value, elems, w)
  {
    hide FieldToMember, IsField, AstTypeToSpec;
    MembersOfAt(elems, w);
    var ms := MembersOf(elems, w).value;
    forall i | 0 <= i < |elems|
      ensures IsField(ms[i], elems[i]) && Some(ms[i].tp) == AstTypeToSpec(elems[i].tp, w.At(i))
    {
      FieldIs(elems[i], w.At(i));
    }
  }

  /** The parts of a converted type are the converted parts of the type. */
  lemma ConversionKeepsParts(t: DataType, w: Writer)
    requires AstTypeToSpec(t, w).Some? && Pads(w.pad)
    ensures var s := AstTypeToSpec(t, w).value;
            && s.rawName == Raw(t, w)
            && match t
               case AnyType => false
               case InterfaceType => s.InterfaceSpec?
               case BaseType(name) => if IsBaseType(name) then s.PrimitiveSpec? else s.DefineStruct?
               case ArrayType(length, elem) =>
                 length.Fixed? && s.ArraySpec? && Some(s.value) == AstTypeToSpec(elem, w)
               case SliceType(elem) => s.ArraySpec? && Some(s.value) == AstTypeToSpec(elem, w)
               case MapType(key, value) =>
                 s.MapSpec? && s.key == Raw(key, w.At(0)) && Some(s.value) == AstTypeToSpec(value, w.At(1))
               case PointerType(elem) =>
                 s.PointerSpec? &&
                 if elem.AnyType? then s.value == PrimitiveSpec("any") else Some(s.value) == AstTypeToSpec(elem, w)
               case StructType(elems) => s.NestedStruct? && HasMembers(s.members, elems, w)
  {
    hide Raw, IsBaseType, ContainsStruct, MembersOf, Pads, StructText, HasMembers;
    RawNameIsRaw(t, w);
    match t
    case PointerType(elem) =>
      RawLikeBase(elem, w);
      if elem.AnyType? || elem.BaseType? {
        RawWord(elem, w);
      }
    case StructType(elems) =>
      MembersHold(elems, w);
    case _ =>
  }

  // ---- what converts ---------------------------------------------------------------------------------

  /**
   Does a type convert? Not `any`, except right behind a pointer; an empty struct only with a comment at its braces; and
   structs only as the types of elements.
   */
  predicate Convertible(t: DataType, w: Writer)
    decreases t, 1
  {
    match t
    case AnyType => false
    case InterfaceType | BaseType(_) => true
    case ArrayType(length, elem) => length.Fixed? && !ContainsStruct(elem) && Convertible(elem, w)
    case SliceType(elem) => !ContainsStruct(elem) && Convertible(elem, w)
    case MapType(key, value) => (key.BaseType? || key.AnyType?) && !ContainsStruct(value) && Convertible(value, w.At(1))
    case PointerType(elem) => elem.AnyType? || Convertible(elem, w)
    case StructType(elems) => AllConvertible(elems, w) && (elems == [] ==> Remarked(w.braces([])))
  }

  predicate AllConvertible(elems: seq<Elem>, w: Writer)
    decreases elems, 0
  {
    forall i :: 0 <= i < |elems| ==> Convertible(elems[i].tp, w.At(i))
  }

  lemma SlashedAt(w: Writer, i: nat)
    requires AllSlashed(w)
    ensures AllSlashed(w.At(i))
  {
    forall path: seq<nat>
      ensures BracesSlashed(w.At(i), path)
    {
      assert BracesSlashed(w, [i] + path);
    }
  }

  /** A type is converted exactly if it is convertible. */
  lemma {:induction false} ConvertsIff(t: DataType, w: Writer)
    requires Pads(w.pad) && AllSlashed(w)
    ensures AstTypeToSpec(t, w).Some? <==> Convertible(t, w)
    decreases t, 1
  {
    hide Raw, IsBaseType, ContainsStruct, MembersOf, Pads, AllSlashed, StructText;
    match t
    case ArrayType(_, elem) => ConvertsIff(elem, w);
    case SliceType(elem) => ConvertsIff(elem, w);
    case MapType(_, value) =>
      SlashedAt(w, 1);
      ConvertsIff(value, w.At(1));
    case PointerType(elem) =>
      RawLikeBase(elem, w);
      ConvertsIff(elem, w);
    case StructType(elems) =>
      MembersConvertIff(elems, w);
      EmptyStructText(elems, w) by {
        assert BracesSlashed(w, []) by { HereSlashed(w); }
      }
    case _ =>
  }

  lemma HereSlashed(w: Writer)
    requires AllSlashed(w)
    ensures BracesSlashed(w, [])
  {
  }

  lemma {:induction false} MembersConvertIff(elems: seq<Elem>, w: Writer)
    requires Pads(w.pad) && AllSlashed(w)
    ensures MembersOf(elems, w).Some? <==> AllConvertible(elems, w)
    decreases elems, 0
  {
    hide AstTypeToSpec, Convertible, Pads, AllSlashed;
    forall i | 0 <= i < |elems|
      ensures FieldToMember(elems[i], w.At(i)).Some? <==> Convertible(elems[i].tp, w.At(i))
    {
      SlashedAt(w, i);
      ConvertsIff(elems[i].tp, w.At(i));
    }
    MembersOfExact(elems, w);
  }

  lemma {:induction false} MembersOfExact(elems: seq<Elem>, w: Writer)
    ensures MembersOf(elems, w).Some? <==> forall i :: 0 <= i < |elems| ==> FieldToMember(elems[i], w.At(i)).Some?
  {
    hide FieldToMember;
    if elems == [] {
    } else {
      var n := |elems| - 1;
      MembersOfExact(elems[..n], w);
      assert forall i :: 0 <= i < n ==> elems[..n][i] == elems[i];
    }
  }

  /** A declaration is converted exactly if it is a struct with convertible elements. */
  predicate ExprConvertible(e: TypeExpr, w: Writer) {
    e.tp.StructType? && AllConvertible(e.tp.elems, WriterFor(e, w))
  }

  /** The comments in the type are comments. */
  predicate ExprSlashed(e: TypeExpr) {
    forall n <- e.nodes :: Slashed(n.head) && Slashed(n.leading)
  }

  lemma {:induction false} BracesAreSlashed(t: DataType, nodes: seq<TokenNode>, i: nat, path: seq<nat>)
    requires forall n <- nodes :: Slashed(n.head) && Slashed(n.leading)
    ensures var b := BracesAt(t, nodes, i, path); Slashed(b.head) && Slashed(b.leading)
    decreases t
  {
    hide Slashed;
    NothingSlashed();
    match t
    case ArrayType(_, elem) => BracesAreSlashed(elem, nodes, i + 3, path);
    case SliceType(elem) => BracesAreSlashed(elem, nodes, i + 2, path);
    case PointerType(elem) => BracesAreSlashed(elem, nodes, i + 1, path);
    case MapType(key, value) =>
      if path != [] && path[0] == 0 {
        BracesAreSlashed(key, nodes, i + 2, path[1..]);
      } else if path != [] && path[0] == 1 {
        BracesAreSlashed(value, nodes, i + 3 + |Print(key, false)|, path[1..]);
      }
    case StructType(elems) =>
      if path != [] && path[0] < |elems| {
        var e := elems[path[0]];
        BracesAreSlashed(e.tp, nodes, TypeStart(elems, i + 1, path[0]), path[1..]);
      }
    case _ =>
  }

  lemma NothingSlashed()
    ensures Slashed([])
  {
  }

  lemma StructConvertsIff(e: TypeExpr, w: Writer)
    requires Pads(w.pad) && ExprSlashed(e)
    ensures StructOf(e, w).Some? <==> ExprConvertible(e, w)
  {
    hide MembersOf, AllConvertible, Pads;
    if e.tp.StructType? {
      assert AllSlashed(WriterFor(e, w)) by {
        forall path: seq<nat>
          ensures BracesSlashed(WriterFor(e, w), path)
        {
          BracesAreSlashed(e.tp, e.nodes, 0, path);
        }
      }
      MembersConvertIff(e.tp.elems, WriterFor(e, w));
    }
  }

  /** All declarations are converted exactly if each of them is a struct with convertible elements. */
  lemma {:induction false} StructsConvertIff(exprs: seq<TypeExpr>, w: Writer)
    requires Pads(w.pad) && forall e <- exprs :: ExprSlashed(e)
    ensures StructsOf(exprs, w).Some? <==> forall e <- exprs :: ExprConvertible(e, w)
  {
    hide StructOf, ExprConvertible, Pads, ExprSlashed;
    if exprs == [] {
    } else {
      var init, last := exprs[..|exprs| - 1], exprs[|exprs| - 1];
      assert forall e :: e in exprs <==> e in init || e == last;
      StructsConvertIff(init, w);
      StructConvertsIff(last, w);
    }
  }

  // ---- filling in the defined types ----------------------------------------------------------------

  /** The first defined struct of that name. */
  function Find(types: seq<SpecType>, name: string): Option<SpecType> {
    if types == [] then None
    else if types[0].DefineStruct? && types[0].rawName == name then Some(types[0])
    else Find(types[1..], name)
  }

  lemma {:induction false} FindIsExact(types: seq<SpecType>, name: string)
    ensures Find(types, name).None? <==> forall tp <- types :: !(tp.DefineStruct? && tp.rawName == name)
    ensures Find(types, name).Some? ==>
              var tp := Find(types, name).value; tp in types && tp.DefineStruct? && tp.rawName == name
  {
    if types == [] {
    } else {
      FindIsExact(types[1..], name);
    }
  }

  predicate IsFirst(types: seq<SpecType>, name: string, i: nat)
    requires i < |types|
  {
    && types[i].DefineStruct? && types[i].rawName == name
    && forall j :: 0 <= j < i ==> !(types[j].DefineStruct? && types[j].rawName == name)
  }

  lemma {:induction false} FoundIsFirst(types: seq<SpecType>, name: string)
    ensures Find(types, name).Some? ==>
              exists i :: 0 <= i < |types| && Find(types, name).value == types[i] && IsFirst(types, name, i)
  {
    if types == [] {
    } else if types[0].DefineStruct? && types[0].rawName == name {
      assert IsFirst(types, name, 0);
    } else {
      FoundIsFirst(types[1..], name);
      if Find(types, name).Some? {
        var i :| 0 <= i < |types[1..]| && Find(types, name).value == types[1..][i] && IsFirst(types[1..], name, i);
        assert IsFirst(types, name, i + 1) by {
          assert forall j :: 0 < j < i + 1 ==> types[j] == types[1..][j - 1];
        }
      }
    }
  }

  /** The specification type of a declaration: a struct of its name. */
  function StructOf(e: TypeExpr, w: Writer): Option<SpecType> {
    if !e.tp.StructType? then None
    else
      var members := MembersOf(e.tp.elems, WriterFor(e, w));
      if members.None? then None else Some(DefineStruct(e.name.text, members.value))
  }

  function StructsOf(exprs: seq<TypeExpr>, w: Writer): Option<seq<SpecType>> {
    if exprs == [] then Some([])
    else
      var init, last := StructsOf(exprs[..|exprs| - 1], w), StructOf(exprs[|exprs| - 1], w);
      if init.None? || last.None? then None else Some(init.value + [last.value])
  }

  /** A member whose type is a name gets the defined type of that name. */
  function FillMember(types: seq<SpecType>, m: Member): Option<Member> {
    if !m.tp.DefineStruct? then Some(m)
    else
      var tp := Find(types, m.tp.rawName);
      if tp.None? then None else Some(m.(tp := tp.value))
  }

  function FillMembers(types: seq<SpecType>, ms: seq<Member>): Option<seq<Member>> {
    if ms == [] then Some([])
    else
      var init, last := FillMembers(types, ms[..|ms| - 1]), FillMember(types, ms[|ms| - 1]);
      if init.None? || last.None? then None else Some(init.value + [last.value])
  }

  function FillType(types: seq<SpecType>, tp: SpecType): Option<SpecType> {
    if !tp.DefineStruct? then None
    else
      var ms := FillMembers(types, tp.members);
      if ms.None? then None else Some(tp.(members := ms.value))
  }

  /** Every type of `todo`, its members filled in from `types`. */
  function FillAll(types: seq<SpecType>, todo: seq<SpecType>): Option<seq<SpecType>> {
    if todo == [] then Some([])
    else
      var init, last := FillAll(types, todo[..|todo| - 1]), FillType(types, todo[|todo| - 1]);
      if init.None? || last.None? then None else Some(init.value + [last.value])
  }

  lemma {:induction false} MembersOfAt(elems: seq<Elem>, w: Writer)
    requires MembersOf(elems, w).Some?
    ensures var ms := MembersOf(elems, w).value;
            |ms| == |elems| && forall i :: 0 <= i < |elems| ==> FieldToMember(elems[i], w.At(i)) == Some(ms[i])
  {
    hide FieldToMember;
    if elems == [] {
    } else {
      MembersOfAt(elems[..|elems| - 1], w);
    }
  }

  lemma {:induction false} StructsOfAt(exprs: seq<TypeExpr>, w: Writer)
    requires StructsOf(exprs, w).Some?
    ensures var s := StructsOf(exprs, w).value;
            |s| == |exprs| && forall i :: 0 <= i < |exprs| ==> StructOf(exprs[i], w) == Some(s[i])
  {
    hide StructOf;
    if exprs == [] {
    } else {
      StructsOfAt(exprs[..|exprs| - 1], w);
    }
  }

  /** Among the converted declarations exactly the declared names are found. */
  lemma FoundIffDeclared(exprs: seq<TypeExpr>, name: string, w: Writer)
    requires StructsOf(exprs, w).Some?
    ensures Find(StructsOf(exprs, w).value, name).Some? <==> name in DeclaredNames(exprs)
  {
    hide MembersOf, StructsOf;
    var s := StructsOf(exprs, w).value;
    StructsOfAt(exprs, w);
    FindIsExact(s, name);
    if e :| e in exprs && e.name.text == name {
      var i :| 0 <= i < |exprs| && exprs[i] == e;
      assert StructOf(exprs[i], w) == Some(s[i]) && s[i] in s;
    }
    if Find(s, name).Some? {
      var i :| 0 <= i < |s| && s[i] == Find(s, name).value;
      assert StructOf(exprs[i], w) == Some(s[i]) && exprs[i] in exprs;
    }
  }

  /** Is the member's type found, if it is a name? */
  predicate Fillable(types: seq<SpecType>, m: Member) {
    m.tp.DefineStruct? ==> Find(types, m.tp.rawName).Some?
  }

  lemma {:induction false} FillMembersExact(types: seq<SpecType>, ms: seq<Member>)
    ensures FillMembers(types, ms).Some? <==> forall m <- ms :: Fillable(types, m)
    ensures FillMembers(types, ms).Some? ==>
              var r := FillMembers(types, ms).value;
              |r| == |ms| && forall i :: 0 <= i < |ms| ==> FillMember(types, ms[i]) == Some(r[i])
  {
    hide Find;
    if ms == [] {
    } else {
      var init, last := ms[..|ms| - 1], ms[|ms| - 1];
      FillMembersExact(types, init);
      assert forall m :: m in ms <==> m in init || m == last;
      assert FillMember(types, last).Some? <==> Fillable(types, last);
      if FillMembers(types, ms).Some? {
        var r := FillMembers(types, ms).value;
        assert r == FillMembers(types, init).value + [FillMember(types, last).value];
        assert forall i :: 0 <= i < |init| ==> ms[i] == init[i];
      }
    }
  }

  lemma {:induction false} FillAllExact(types: seq<SpecType>, todo: seq<SpecType>)
    ensures FillAll(types, todo).Some? <==> forall tp <- todo :: FillType(types, tp).Some?
    ensures FillAll(types, todo).Some? ==>
              var r := FillAll(types, todo).value;
              |r| == |todo| && forall i :: 0 <= i < |todo| ==> FillType(types, todo[i]) == Some(r[i])
  {
    hide FillType;
    if todo == [] {
    } else {
      var init, last := todo[..|todo| - 1], todo[|todo| - 1];
      FillAllExact(types, init);
      assert forall tp :: tp in todo <==> tp in init || tp == last;
    }
  }

  /** A filled-in member is the member with, for the name of a type, the struct defined by that name. */
  predicate FilledFrom(types: seq<SpecType>, m: Member, r: Member) {
    && r.name == m.name && r.tag == m.tag && r.isInline == m.isInline
    && if m.tp.DefineStruct? then r.tp in types && r.tp.DefineStruct? && r.tp.rawName == m.tp.rawName else r.tp == m.tp
  }

  /** Filling in keeps the types, their names and their members, and gives every member that names a type that type. */
  lemma FilledIsDefined(types: seq<SpecType>, todo: seq<SpecType>, i: nat, j: nat)
    requires FillAll(types, todo).Some? && i < |todo| && todo[i].DefineStruct? && j < |todo[i].members|
    ensures var r := FillAll(types, todo).value;
            && |r| == |todo| && r[i].DefineStruct? && r[i].rawName == todo[i].rawName
            && |r[i].members| == |todo[i].members| && FilledFrom(types, todo[i].members[j], r[i].members[j])
  {
    hide Find;
    FillAllExact(types, todo);
    var r := FillAll(types, todo).value;
    assert FillType(types, todo[i]) == Some(r[i]);
    FillMembersExact(types, todo[i].members);
    FindIsExact(types, todo[i].members[j].tp.rawName);
  }

  /** Does a member name only a type that is built in or declared? */
  predicate NamesDeclared(exprs: seq<TypeExpr>, e: Elem) {
    e.tp.BaseType? ==> IsBaseType(e.tp.name) || e.tp.name in DeclaredNames(exprs)
  }

  /** A converted field can be filled in exactly if the name it has for a type, if any, is built in or declared. */
  lemma FieldFillable(exprs: seq<TypeExpr>, e: Elem, w: Writer, v: Writer)
    requires StructsOf(exprs, w).Some? && FieldToMember(e, v).Some?
    ensures Fillable(StructsOf(exprs, w).value, FieldToMember(e, v).value) <==> NamesDeclared(exprs, e)
  {
    hide StructsOf, Find, IsBaseType, MembersOf, Raw, StructText;
    if e.tp.BaseType? {
      FoundIffDeclared(exprs, e.tp.name, w);
    }
  }

  lemma StructFillable(exprs: seq<TypeExpr>, e: TypeExpr, w: Writer)
    requires StructsOf(exprs, w).Some? && StructOf(e, w).Some?
    ensures FillType(StructsOf(exprs, w).value, StructOf(e, w).value).Some? <==>
            forall f <- e.tp.elems :: NamesDeclared(exprs, f)
  {
    hide StructsOf, Find, MembersOf, FieldToMember, NamesDeclared, Fillable, FillMembers;
    var types, ms, elems := StructsOf(exprs, w).value, StructOf(e, w).value.members, e.tp.elems;
    var v := WriterFor(e, w);
    MembersOfAt(elems, v);
    FillMembersExact(types, ms);
    forall i | 0 <= i < |elems|
      ensures Fillable(types, ms[i]) <==> NamesDeclared(exprs, elems[i])
    {
      FieldFillable(exprs, elems[i], w, v.At(i));
    }
    if forall m <- ms :: Fillable(types, m) {
      forall f | f in elems
        ensures NamesDeclared(exprs, f)
      {
        var i :| 0 <= i < |elems| && elems[i] == f;
        assert ms[i] in ms;
      }
    } else {
      var m :| m in ms && !Fillable(types, m);
      var i :| 0 <= i < |ms| && ms[i] == m;
      assert elems[i] in elems;
    }
  }

  /** The converted declarations can be filled in exactly if every member that names a type names a known one. */
  lemma FillsIffDeclared(exprs: seq<TypeExpr>, w: Writer)
    requires StructsOf(exprs, w).Some?
    ensures var s := StructsOf(exprs, w).value;
            FillAll(s, s).Some? <==>
            forall e <- exprs :: e.tp.StructType? && forall f <- e.tp.elems :: NamesDeclared(exprs, f)
  {
    hide StructsOf, StructOf, FillType, NamesDeclared;
    var s := StructsOf(exprs, w).value;
    StructsOfAt(exprs, w);
    FillAllExact(s, s);
    forall i | 0 <= i < |exprs|
      ensures exprs[i].tp.StructType?
      ensures FillType(s, s[i]).Some? <==> forall f <- exprs[i].tp.elems :: NamesDeclared(exprs, f)
    {
      OnlyStructs(exprs[i], w);
      StructFillable(exprs, exprs[i], w);
    }
    if forall tp <- s :: FillType(s, tp).Some? {
      forall e | e in exprs
        ensures e.tp.StructType? && forall f <- e.tp.elems :: NamesDeclared(exprs, f)
      {
        var i :| 0 <= i < |exprs| && exprs[i] == e;
        assert s[i] in s;
      }
    } else {
      var tp :| tp in s && FillType(s, tp).None?;
      var i :| 0 <= i < |s| && s[i] == tp;
      assert exprs[i] in exprs;
    }
  }

  lemma OnlyStructs(e: TypeExpr, w: Writer)
    requires StructOf(e, w).Some?
    ensures e.tp.StructType?
  {
  }

  /** Declarations that pass the check and convert can always be filled in. */
  lemma CheckedDeclarationsFill(exprs: seq<TypeExpr>, w: Writer)
    requires CheckAll(DeclaredNames(exprs), exprs) == [] && StructsOf(exprs, w).Some?
    ensures var s := StructsOf(exprs, w).value; FillAll(s, s).Some?
  {
    hide IsBaseType, StructsOf, StructOf, FillAll, DeclaredNames;
    var declared := DeclaredNames(exprs);
    CheckAllOk(declared, exprs);
    StructsOfAt(exprs, w);
    forall e | e in exprs
      ensures e.tp.StructType? && forall f <- e.tp.elems :: NamesDeclared(exprs, f)
    {
      var i :| 0 <= i < |exprs| && exprs[i] == e;
      OnlyStructs(e, w);
      forall f | f in e.tp.elems && f.tp.BaseType?
        ensures NamesDeclared(exprs, f)
      {
        assert f.tp.name in NamesIn(f.tp) && f.tp.name in NamesIn(e.tp);
        CheckIsExact(declared, e.tp, f.tp.name);
      }
    }
    FillsIffDeclared(exprs, w);
  }

  // ---- the analyzer ----------------------------------------------------------------------------------

  lemma StructsMore(exprs: seq<TypeExpr>, e: TypeExpr, w: Writer)
    ensures StructsOf(exprs + [e], w) ==
            if StructsOf(exprs, w).None? || StructOf(e, w).None? then None
            else Some(StructsOf(exprs, w).value + [StructOf(e, w).value])
  {
    hide StructOf;
    assert (exprs + [e])[..|exprs|] == exprs;
  }

  lemma {:induction false} NoConversion(a: seq<TypeExpr>, b: seq<TypeExpr>, w: Writer)
    requires StructsOf(a, w).None?
    ensures StructsOf(a + b, w).None?
    decreases |b|
  {
    hide StructOf;
    if b == [] {
      assert a + b == a;
    } else {
      assert (a + b)[..|a + b| - 1] == a + b[..|b| - 1];
      NoConversion(a, b[..|b| - 1], w);
    }
  }

  lemma {:induction false} ExprsConcat(a: seq<TypeStmt>, b: seq<TypeStmt>)
    ensures Exprs(a + b) == Exprs(a) + Exprs(b)
    decreases |b|
  {
    hide ExprsOf;
    if b == [] {
      assert a + b == a;
    } else {
      var init := b[..|b| - 1];
      assert (a + b)[..|a + b| - 1] == a + init;
      ExprsConcat(a, init);
    }
  }

  lemma {:induction false} NoMembers(types: seq<SpecType>, a: seq<Member>, b: seq<Member>)
    requires FillMembers(types, a).None?
    ensures FillMembers(types, a + b).None?
    decreases |b|
  {
    hide FillMember;
    if b == [] {
      assert a + b == a;
    } else {
      assert (a + b)[..|a + b| - 1] == a + b[..|b| - 1];
      NoMembers(types, a, b[..|b| - 1]);
    }
  }

  lemma {:induction false} NoFilling(types: seq<SpecType>, a: seq<SpecType>, b: seq<SpecType>)
    requires FillAll(types, a).None?
    ensures FillAll(types, a + b).None?
    decreases |b|
  {
    hide FillType;
    if b == [] {
      assert a + b == a;
    } else {
      assert (a + b)[..|a + b| - 1] == a + b[..|b| - 1];
      NoFilling(types, a, b[..|b| - 1]);
    }
  }

  /** Filling in neither adds nor drops a name. */
  lemma FilledFinds(types: seq<SpecType>, todo: seq<SpecType>, name: string)
    requires FillAll(types, todo).Some?
    ensures Find(FillAll(types, todo).value, name).Some? <==> Find(todo, name).Some?
  {
    hide Find, FillMembers;
    var r := FillAll(types, todo).value;
    FillAllExact(types, todo);
    FindIsExact(r, name);
    FindIsExact(todo, name);
    forall i | 0 <= i < |todo|
      ensures r[i].DefineStruct? && todo[i].DefineStruct? && r[i].rawName == todo[i].rawName
    {
      assert FillType(types, todo[i]) == Some(r[i]);
    }
    if tp :| tp in r && tp.DefineStruct? && tp.rawName == name {
      var i :| 0 <= i < |r| && r[i] == tp;
      assert todo[i] in todo;
    }
    if tp :| tp in todo && tp.DefineStruct? && tp.rawName == name {
      var i :| 0 <= i < |todo| && todo[i] == tp;
      assert r[i] in r;
    }
  }

  /** The declared types, converted and filled in. */
  function TypesFor(exprs: seq<TypeExpr>, w: Writer): Option<seq<SpecType>> {
    var structs := StructsOf(exprs, w);
    if structs.None? then None else FillAll(structs.value, structs.value)
  }

  // ---- what the types of a program are -----------------------------------------------------------------

  /** Declaration `k` is the first of that name, and converted, before its members are filled in, it is `tp`. */
  ghost predicate IsDeclaredAs(tp: SpecType, exprs: seq<TypeExpr>, name: string, k: nat, w: Writer)
    requires k < |exprs|
  {
    && exprs[k].name.text == name && (forall j :: 0 <= j < k ==> exprs[j].name.text != name)
    && tp.DefineStruct? && tp.rawName == name && exprs[k].tp.StructType?
    && HasMembers(tp.members, exprs[k].tp.elems, WriterFor(exprs[k], w))
  }

  /** The type of a member is the converted one; but a name that is not built in stands for its declaration. */
  ghost predicate IsMemberType(tp: SpecType, t: DataType, v: Writer, exprs: seq<TypeExpr>, w: Writer) {
    if t.BaseType? && !IsBaseType(t.name) then
      exists k :: 0 <= k < |exprs| && IsDeclaredAs(tp, exprs, t.name, k, w)
    else Some(tp) == AstTypeToSpec(t, v)
  }

  /** A type of a program has the name of its declaration, and a member for each of its elements. */
  ghost predicate IsDefined(tp: SpecType, e: TypeExpr, exprs: seq<TypeExpr>, w: Writer) {
    && tp.DefineStruct? && tp.rawName == e.name.text && e.tp.StructType? && |tp.members| == |e.tp.elems|
    && forall i :: 0 <= i < |tp.members| ==>
         && IsField(tp.members[i], e.tp.elems[i])
         && IsMemberType(tp.members[i].tp, e.tp.elems[i].tp, WriterFor(e, w).At(i), exprs, w)
  }

  /** There is a type for each declaration, in order. */
  ghost predicate AreTypesOf(types: seq<SpecType>, exprs: seq<TypeExpr>, w: Writer) {
    |types| == |exprs| && forall k :: 0 <= k < |exprs| ==> IsDefined(types[k], exprs[k], exprs, w)
  }

  lemma StructHolds(e: TypeExpr, w: Writer)
    requires StructOf(e, w).Some?
    ensures var tp := StructOf(e, w).value;
            && tp.DefineStruct? && tp.rawName == e.name.text && e.tp.StructType?
            && HasMembers(tp.members, e.tp.elems, WriterFor(e, w))
  {
    hide HasMembers, MembersOf;
    MembersHold(e.tp.elems, WriterFor(e, w));
  }

  /** What a name that is not built in is filled in with. */
  lemma FoundIsDeclared(exprs: seq<TypeExpr>, name: string, w: Writer)
    requires StructsOf(exprs, w).Some? && Find(StructsOf(exprs, w).value, name).Some?
    ensures exists k :: 0 <= k < |exprs| &&
                        IsDeclaredAs(Find(StructsOf(exprs, w).value, name).value, exprs, name, k, w)
  {
    hide Find, StructsOf, StructOf, HasMembers;
    var s := StructsOf(exprs, w).value;
    StructsOfAt(exprs, w);
    FoundIsFirst(s, name);
    var k :| 0 <= k < |s| && Find(s, name).value == s[k] && IsFirst(s, name, k);
    assert StructOf(exprs[k], w) == Some(s[k]);
    StructHolds(exprs[k], w);
    forall j | 0 <= j < k
      ensures exprs[j].name.text != name
    {
      assert StructOf(exprs[j], w) == Some(s[j]);
      StructHolds(exprs[j], w);
    }
    assert IsDeclaredAs(s[k], exprs, name, k, w);
  }

  lemma MemberHolds(exprs: seq<TypeExpr>, w: Writer, m: Member, e: Elem, v: Writer)
    requires StructsOf(exprs, w).Some? && FillMember(StructsOf(exprs, w).value, m).Some?
    requires IsField(m, e) && Some(m.tp) == AstTypeToSpec(e.tp, v)
    ensures var r := FillMember(StructsOf(exprs, w).value, m).value;
            IsField(r, e) && IsMemberType(r.tp, e.tp, v, exprs, w)
  {
    hide Find, StructsOf, IsBaseType, MembersOf, Raw, StructText, IsDeclaredAs, ContainsStruct;
    if m.tp.DefineStruct? {
      FoundIsDeclared(exprs, m.tp.rawName, w);
    }
  }

  lemma TypeHolds(exprs: seq<TypeExpr>, e: TypeExpr, w: Writer)
    requires StructsOf(exprs, w).Some? && StructOf(e, w).Some?
    requires FillType(StructsOf(exprs, w).value, StructOf(e, w).value).Some?
    ensures IsDefined(FillType(StructsOf(exprs, w).value, StructOf(e, w).value).value, e, exprs, w)
  {
    hide StructsOf, StructOf, FillMembers, FillMember, IsField, IsMemberType, AstTypeToSpec;
    var types, tp := StructsOf(exprs, w).value, StructOf(e, w).value;
    StructHolds(e, w);
    FillMembersExact(types, tp.members);
    forall i | 0 <= i < |tp.members|
      ensures var r := FillMembers(types, tp.members).value[i];
              IsField(r, e.tp.elems[i]) && IsMemberType(r.tp, e.tp.elems[i].tp, WriterFor(e, w).At(i), exprs, w)
    {
      MemberHolds(exprs, w, tp.members[i], e.tp.elems[i], WriterFor(e, w).At(i));
    }
  }

  /** The types of a program are its declarations, converted and filled in. */
  lemma TypesHold(exprs: seq<TypeExpr>, w: Writer)
    requires TypesFor(exprs, w).Some?
    ensures AreTypesOf(TypesFor(exprs, w).value, exprs, w)
  {
    hide StructsOf, StructOf, FillType, IsDefined;
    var s := StructsOf(exprs, w).value;
    StructsOfAt(exprs, w);
    FillAllExact(s, s);
    var types := TypesFor(exprs, w).value;
    forall k | 0 <= k < |exprs|
      ensures IsDefined(types[k], exprs[k], exprs, w)
    {
      assert StructOf(exprs[k], w) == Some(s[k]) && FillType(s, s[k]) == Some(types[k]);
      TypeHolds(exprs, exprs[k], w);
    }
  }

  /** In the types of a program exactly the declared names are found. */
  lemma TypesHaveNames(exprs: seq<TypeExpr>, w: Writer, name: string)
    requires TypesFor(exprs, w).Some?
    ensures Find(TypesFor(exprs, w).value, name).Some? <==> name in DeclaredNames(exprs)
  {
    hide Find, StructsOf, FillAll, DeclaredNames;
    var structs := StructsOf(exprs, w).value;
    FilledFinds(structs, structs, name);
    FoundIffDeclared(exprs, name, w);
  }
}
