/** Comments and the tokens they are attached to. */
module Comments {
  import opened Tokens

  /** A token with the comments above it and those behind it on its line. */
  datatype TokenNode = TokenNode(head: seq<Token>, token: Token, leading: seq<Token>)

  type NodeTable = map<Token, TokenNode>

  const NO_NODE := TokenNode([], NO_TOKEN, [])

  /** The node of that number, if there is one. */
  function NodeAt(nodes: seq<TokenNode>, i: nat): TokenNode {
    if i < |nodes| then nodes[i] else NO_NODE
  }

  /** The comments attached to the given tokens, in their order. */
  function Attached(node: NodeTable, taken: seq<Token>): seq<Token>
    requires forall t <- taken :: t in node
  {
    if taken == [] then []
    else
      var t := taken[|taken| - 1];
      Attached(node, taken[..|taken| - 1]) + (node[t].head + node[t].leading)
  }

  /** The nodes of the given tokens, in their order. */
  function NodesOf(node: NodeTable, taken: seq<Token>): (made: seq<TokenNode>)
    requires forall t <- taken :: t in node
    ensures |made| == |taken|
  {
    if taken == [] then [] else NodesOf(node, taken[..|taken| - 1]) + [node[taken[|taken| - 1]]]
  }

  lemma {:induction false} MadeFrame(node: NodeTable, node': NodeTable, taken: seq<Token>)
    requires forall t <- taken :: t in node && t in node' && node[t] == node'[t]
    ensures NodesOf(node, taken) == NodesOf(node', taken)
  {
    if taken == [] {
    } else {
      MadeFrame(node, node', taken[..|taken| - 1]);
    }
  }

  lemma MadeMore(node: NodeTable, taken: seq<Token>, n: TokenNode)
    requires (forall t <- taken :: t in node) && n.token !in taken
    ensures NodesOf(node[n.token := n], taken + [n.token]) == NodesOf(node, taken) + [n]
  {
    MadeFrame(node, node[n.token := n], taken);
    assert (taken + [n.token])[..|taken|] == taken;
  }

  lemma {:induction false} AttachedFrame(node: NodeTable, node': NodeTable, taken: seq<Token>)
    requires forall t <- taken :: t in node && t in node' && node[t] == node'[t]
    ensures Attached(node, taken) == Attached(node', taken)
  {
    if taken == [] {
    } else {
      AttachedFrame(node, node', taken[..|taken| - 1]);
    }
  }

  lemma AttachedMore(node: NodeTable, taken: seq<Token>, n: TokenNode)
    requires (forall t <- taken :: t in node) && n.token !in taken
    ensures Attached(node[n.token := n], taken + [n.token]) == Attached(node, taken) + (n.head + n.leading)
  {
    AttachedFrame(node, node[n.token := n], taken);
    assert (taken + [n.token])[..|taken|] == taken;
  }

  /** A node that is made again without comments loses those it had. */
  lemma {:induction false} AttachedAgain(node: NodeTable, taken: seq<Token>, t: Token)
    requires t in node && forall u <- taken :: u in node
    ensures var node' := node[t := TokenNode([], t, [])];
            var kept, had := Attached(node', taken), Attached(node, taken);
            && |kept| <= |had|
            && (node[t].head + node[t].leading == [] ==> kept == had)
            && (t in taken && node[t].head + node[t].leading != [] ==> |kept| < |had|)
  {
    if taken == [] {
    } else {
      var init, last := taken[..|taken| - 1], taken[|taken| - 1];
      AttachedAgain(node, init, t);
      assert t in taken <==> t in init || t == last;
    }
  }

  /** All comments that are somewhere: attached to a token, made statements, or waiting. */
  function Accounted(node: NodeTable, taken: seq<Token>, stmts: seq<Token>, waiting: seq<Token>): seq<Token>
    requires forall t <- taken :: t in node
  {
    Attached(node, taken) + (stmts + waiting)
  }

  /** A token takes the comments that waited for it and those on its line; others wait for the next one. */
  lemma AccountTake(node: NodeTable, taken: seq<Token>, n: TokenNode, node': NodeTable, waiting: seq<Token>)
    requires (forall t <- taken :: t in node) && n.token !in taken && node' == node[n.token := n]
    ensures Accounted(node', taken + [n.token], [], waiting) ==
            Accounted(node, taken, [], n.head) + (n.leading + waiting)
  {
    AttachedMore(node, taken, n);
  }

  /** A token taken again loses comments exactly if it had any. */
  lemma AccountAgain(node: NodeTable, taken: seq<Token>, t: Token)
    requires t in taken && forall u <- taken :: u in node
    ensures var node' := node[t := TokenNode([], t, [])];
            Accounted(node', taken + [t], [], []) == Accounted(node, taken, [], []) <==>
            node[t].head + node[t].leading == []
  {
    var node' := node[t := TokenNode([], t, [])];
    AttachedAgain(node, taken, t);
    assert (taken + [t])[..|taken|] == taken;
    assert Attached(node', taken + [t]) == Attached(node', taken);
    assert Accounted(node', taken + [t], [], []) == Attached(node', taken) &&
           Accounted(node, taken, [], []) == Attached(node, taken);
  }

  /** Taking a token and reading on keeps all comments accounted for, read and unread. */
  lemma ConservedOn(
      node: NodeTable, taken: seq<Token>, n: TokenNode, node': NodeTable, waiting: seq<Token>,
      read: seq<Token>, ahead: seq<Token>, ahead': seq<Token>)
    requires (forall t <- taken :: t in node) && n.token !in taken && node' == node[n.token := n]
    requires read == Accounted(node, taken, [], n.head) && ahead == (n.leading + waiting) + ahead'
    ensures forall t <- taken + [n.token] :: t in node'
    ensures var read' := read + (n.leading + waiting);
            read' == Accounted(node', taken + [n.token], [], waiting) && read' + ahead' == read + ahead
  {
    hide Accounted;
    AccountTake(node, taken, n, node', waiting);
    Regroup(read, n.leading + waiting, ahead');
  }

  /** At the end of the input the waiting comments become statements. */
  lemma AccountFlush(node: NodeTable, taken: seq<Token>, stmts: seq<Token>, waiting: seq<Token>)
    requires forall t <- taken :: t in node
    ensures Accounted(node, taken, stmts + waiting, []) == Accounted(node, taken, stmts, waiting)
  {
    assert (stmts + waiting) + [] == stmts + waiting;
  }

  lemma AccountWait(node: NodeTable, taken: seq<Token>, waiting: seq<Token>, more: seq<Token>)
    requires forall t <- taken :: t in node
    ensures Accounted(node, taken, [], waiting + more) == Accounted(node, taken, [], waiting) + ([] + more)
  {
  }

  lemma Regroup(a: seq<Token>, b: seq<Token>, c: seq<Token>)
    ensures (a + b) + c == a + (b + c)
  {
  }

  /**
   From `read`, `group` and `ahead` on, comments were read: some are `leading`, the others wait for the next token.
   */
  ghost predicate Gathered(
    read: seq<Token>, group: seq<Token>, ahead: seq<Token>, leading: seq<Token>, waiting: seq<Token>,
    read': seq<Token>, group': seq<Token>, ahead': seq<Token>)
  {
    && read' == read + (leading + waiting)
    && group' == group + waiting
    && ahead == (leading + waiting) + ahead'
  }

  lemma GatherNone(read: seq<Token>, group: seq<Token>, ahead: seq<Token>)
    ensures Gathered(read, group, ahead, [], [], read, group, ahead)
  {
  }

  lemma GatheredAll(
      read: seq<Token>, ahead: seq<Token>, leading: seq<Token>, waiting: seq<Token>, read': seq<Token>,
      group': seq<Token>, ahead': seq<Token>)
    requires Gathered(read, [], ahead, leading, waiting, read', group', ahead')
    ensures read' == read + (leading + waiting) && group' == waiting && ahead == (leading + waiting) + ahead'
  {
  }

  /** One more comment on the line of the current token. */
  lemma GatherLeading(
      read: seq<Token>, group: seq<Token>, ahead: seq<Token>, leading: seq<Token>, read': seq<Token>,
      group': seq<Token>, t: Token, rest: seq<Token>)
    requires Gathered(read, group, ahead, leading, [], read', group', [t] + rest)
    ensures Gathered(read, group, ahead, leading + [t], [], read' + [t], group', rest)
  {
  }

  /** One more comment for the next token. */
  lemma GatherWaiting(
      read: seq<Token>, group: seq<Token>, ahead: seq<Token>, leading: seq<Token>, waiting: seq<Token>,
      read': seq<Token>, group': seq<Token>, t: Token, rest: seq<Token>)
    requires Gathered(read, group, ahead, leading, waiting, read', group', [t] + rest)
    ensures Gathered(read, group, ahead, leading, waiting + [t], read' + [t], group' + [t], rest)
  {
  }
}
