/** The tokens of the syntax trees of a text are the tokens that have nodes, one by one. */
module Alignment {
  import opened Tokens
  import opened Lexis
  import opened Grammar
  import opened Source
  import opened DataTypes
  import opened Comments
  import opened ParseSpec
  import opened RoundTrip
  import opened PathSpec
  import opened TypeStatements
  import opened Stream
  import opened Formatting
  import opened TextTrip
  import opened SyntaxTrees
  import opened Files
  import opened NodeFacts
  import S = StatementSpec
  import TypeText

  predicate NoneFinal(ms: seq<Mark>) {
    forall m <- ms :: !Final(m.kind)
  }

  lemma JoinNone(a: seq<Mark>, b: seq<Mark>)
    requires NoneFinal(a) && NoneFinal(b)
    ensures NoneFinal(a + b)
  {
  }

  lemma {:induction false} StringsNone(values: seq<string>)
    ensures NoneFinal(PrintStrings(values))
  {
    if values == [] {
    } else {
      StringsNone(values[1..]);
    }
  }

  lemma {:induction false} KVsNone(list: seq<S.KV>)
    ensures NoneFinal(PrintKVs(list))
  {
    if list == [] {
    } else {
      KVsNone(list[1..]);
    }
  }

  lemma {:induction false} PartsNone(v: seq<Mark>, sign: Kind, dashed: bool)
    requires IsParts(v, sign, dashed) && !Final(sign)
    ensures NoneFinal(v)
    decreases |v|
  {
    if v == [] {
    } else if dashed && |v| > 2 && v[2].kind == SUB {
      PartsNone(v[4..], sign, dashed);
      assert v == [v[0], v[1], v[2], v[3]] + v[4..];
    } else {
      PartsNone(v[2..], sign, dashed);
      assert v == [v[0], v[1]] + v[2..];
    }
  }

  lemma ServerValueNone(key: string, v: seq<Mark>)
    requires IsServerValue(key, v)
    ensures NoneFinal(v)
  {
    hide IsParts;
    assert v == [v[0]] + v[1..];
    if v[0].kind == QUO {
      PartsNone(v, QUO, true);
    } else if v[0].kind == IDENT {
      if IsParts(v[1..], COMMA, false) {
        PartsNone(v[1..], COMMA, false);
      } else if IsParts(v[1..], SUB, false) {
        PartsNone(v[1..], SUB, false);
      } else {
        PartsNone(v[1..], QUO, true);
      }
    }
  }

  lemma {:induction false} ServerKVsNone(list: seq<ServerKV>)
    requires KVsOk(list)
    ensures NoneFinal(PrintServerKVs(list))
    decreases |list|
  {
    hide IsServerValue;
    if list == [] {
    } else {
      assert list[0] in list;
      ServerValueNone(list[0].key, list[0].value);
      ServerKVsNone(list[1..]);
    }
  }

  lemma {:induction false} PathNone(a: Kind, ms: seq<Mark>)
    requires GoesOnAs(a, ms)
    ensures NoneFinal(ms)
    decreases |ms|
  {
    if ms == [] {
    } else {
      PathNone(ms[0].kind, ms[1..]);
      assert ms == [ms[0]] + ms[1..];
    }
  }

  lemma RouteNone(r: RouteTree)
    requires RouteOk(r)
    ensures NoneFinal(PrintRoute(r))
  {
    hide GoesOnAs;
    assert r.path == [r.path[0]] + r.path[1..];
    PathNone(QUO, r.path[1..]);
    BodiesNone(r);
  }

  lemma BodiesNone(r: RouteTree)
    ensures NoneFinal(PrintBodies(r))
  {
    if r.request.Some? {
      BodyNone(r.request.value);
    }
    if r.response.Some? {
      BodyNone(r.response.value);
    }
  }

  lemma BodyNone(b: Option<S.Body>)
    ensures NoneFinal(PrintBodyStmt(b))
  {
  }

  lemma ItemNone(i: ItemTree)
    requires ItemTreeOk(i)
    ensures NoneFinal(PrintItem(i))
  {
    hide RouteOk, PrintRoute;
    if i.doc.Some? && i.doc.value.DocValues? {
      KVsNone(i.doc.value.values);
    }
    if i.handled.Some? {
      RouteNone(i.handled.value.1);
    }
  }

  lemma {:induction false} ItemsNone(items: seq<ItemTree>)
    requires forall i <- items :: ItemTreeOk(i)
    ensures NoneFinal(PrintItems(items))
    decreases |items|
  {
    hide ItemTreeOk, PrintItem;
    if items == [] {
    } else {
      assert items[0] in items;
      ItemNone(items[0]);
      ItemsNone(items[1..]);
    }
  }

  lemma ServiceNone(s: ServiceTree)
    requires ServiceOk(s)
    ensures NoneFinal(PrintService(s))
  {
    hide ItemTreeOk, KVsOk, PrintItems, PrintServerKVs;
    ItemsNone(s.items);
    JoinNone([Sign(LBRACE)], PrintItems(s.items) + [Sign(RBRACE)]);
    JoinNone(PrintName(s), [Sign(LBRACE)] + (PrintItems(s.items) + [Sign(RBRACE)]));
    if s.server.Some? {
      ServerKVsNone(s.server.value);
      JoinNone(Parens(PrintServerKVs(s.server.value)), [Word("service")] + PrintNamed(s));
    }
  }

  lemma TypeNone(t: DataType, later: bool)
    requires WellFormed(t)
    ensures NoneFinal(Print(t, later))
  {
    hide WellFormed, Print;
    TypeText.TypePrintable(t, later);
  }

  lemma ExprNone(e: NamedType, later: bool)
    requires ExprOk(e)
    ensures NoneFinal(PrintExpr(e, later))
  {
    hide WellFormed, Print;
    TypeNone(e.tp, false);
  }

  lemma {:induction false} ExprsNone(exprs: seq<NamedType>)
    requires forall e <- exprs :: ExprOk(e)
    ensures NoneFinal(PrintExprs(exprs))
    decreases |exprs|
  {
    hide ExprOk, PrintExpr;
    if exprs == [] {
    } else {
      assert exprs[0] in exprs;
      ExprNone(exprs[0], true);
      ExprsNone(exprs[1..]);
    }
  }

  lemma StmtNone(t: StmtTree)
    requires TreeOk(t)
    ensures NoneFinal([FirstOf(t)] + PrintAfter(t))
  {
    hide ServiceOk, PrintService, ExprOk, PrintExprs, PrintExpr, PrintStrings, PrintKVs;
    match t
    case SyntaxTree(_) =>
    case ImportTree(imports) =>
      if imports.ManyImports? {
        StringsNone(imports.values);
      }
    case InfoTree(info) => KVsNone(info);
    case TypeTree(types) =>
      match types {
        case Single(e) => ExprNone(e, false);
        case Group(exprs) => ExprsNone(exprs);
      }
    case ServiceStmtTree(s) => ServiceNone(s);
  }

  lemma {:induction false} FileNone(trees: seq<StmtTree>)
    requires forall t <- trees :: TreeOk(t)
    ensures NoneFinal(PrintFile(trees))
    decreases |trees|
  {
    hide TreeOk, PrintAfter, FirstOf;
    if trees == [] {
    } else {
      assert trees[0] in trees;
      StmtNone(trees[0]);
      FileNone(trees[1..]);
    }
  }

  // ---- words and nodes -------------------------------------------------------------------------------

  lemma {:induction false} WordsAt(ms: seq<Mark>, k: nat)
    requires k < |ms|
    ensures |Words(ms)| == |ms| && Words(ms)[k] == (ms[k].kind, ms[k].text)
    decreases |ms|
  {
    WordsLength(ms);
    if k == 0 {
    } else {
      WordsAt(ms[1..], k - 1);
    }
  }

  lemma {:induction false} WordsLength(ms: seq<Mark>)
    ensures |Words(ms)| == |ms|
  {
    if ms == [] {
    } else {
      WordsLength(ms[1..]);
    }
  }

  /** Token for token, the nodes of a text are those of its syntax trees. */
  lemma Aligned(file: string, data: string, trees: seq<StmtTree>)
    requires S.ParseFile(MarksIn(file, data)).Ok? && IsReading(trees, file, data)
    ensures |PrintFile(trees)| <= |NodesIn(file, data)|
    ensures forall k :: 0 <= k < |PrintFile(trees)| ==>
              var t, m := NodesIn(file, data)[k].token, PrintFile(trees)[k];
              t.kind == m.kind && t.text == m.text
  {
    hide S.ParseFile, MarksAt, Nodes, Tokenize, PrintFile, Words, PlainFile, TreeOk, NodesOfMarks, NoneFinal;
    NodesAndMarks(Tokenize(file, data, START), 0, false, [], None);
    FileNone(trees);
    WordsAligned(
      NodesIn(file, data), MarksIn(file, data), PrintFile(trees), S.ParseFile(MarksIn(file, data)).rest);
  }

  lemma WordsAligned(ns: seq<TokenNode>, ms: seq<Mark>, ps: seq<Mark>, rest: seq<Mark>)
    requires NodesOfMarks(ns, 0, ms) && NoneFinal(ps) && Words(ms) == Words(ps) + Words(rest)
    ensures |ps| <= |ns|
    ensures forall k :: 0 <= k < |ps| ==> ns[k].token.kind == ps[k].kind && ns[k].token.text == ps[k].text
  {
    hide Words;
    WordsLength(ms);
    WordsLength(ps);
    WordsLength(rest);
    forall k | 0 <= k < |ps|
      ensures ms[k].kind == ps[k].kind && ms[k].text == ps[k].text && ps[k] in ps
    {
      WordsAt(ms, k);
      WordsAt(ps, k);
      assert (Words(ps) + Words(rest))[k] == Words(ps)[k];
    }
    forall k | 0 <= k < |ps|
      ensures k < |ns| && ns[k].token.kind == ps[k].kind && ns[k].token.text == ps[k].text
    {
      assert !Final(ps[k].kind);
      if k < |ns| {
        assert ns[0 + k].token.kind == ms[k].kind;
      }
    }
  }
}
