/** The parser: one token of look-ahead over the scanner, comments attached to tokens, and statements. */
module Parser {
  import opened Tokens
  import opened Lexis
  import opened Source
  import opened DataTypes
  import opened ParseSpec
  import opened PathSpec
  import opened TypeStatements
  import opened StatementSpec
  import opened Comments
  import opened Stream
  import opened Rounds
  import S = Scanner

  predicate NoneIllegal(tokens: seq<Token>) {
    forall t <- tokens :: t.kind != ILLEGAL
  }

  /** Every token taken has its node, and is behind the cursor `c` or is what the scanner is stuck on. */
  ghost predicate NodesBehind(file: string, data: string, node: NodeTable, taken: seq<Token>, c: Cursor)
    requires |c.lines| > 0
  {
    forall t <- taken ::
      t in node && node[t].token == t && t.kind != NONE && HasPosition(t) &&
      (Behind(file, t, c) || Stuck(file, data, t, c))
  }

  lemma NodesBehindSet(file: string, data: string, node: NodeTable, taken: seq<Token>, c: Cursor, n: TokenNode)
    requires |c.lines| > 0 && NodesBehind(file, data, node, taken, c)
    ensures NodesBehind(file, data, node[n.token := n], taken, c)
  {
    hide Behind, Stuck;
  }

  lemma NodesBehindMore(file: string, data: string, node: NodeTable, taken: seq<Token>, c: Cursor, n: TokenNode)
    requires |c.lines| > 0 && NodesBehind(file, data, node, taken, c) && n.token.kind != NONE && HasPosition(n.token)
    requires Behind(file, n.token, c) || Stuck(file, data, n.token, c)
    ensures NodesBehind(file, data, node[n.token := n], taken + [n.token], c)
  {
    hide Behind, Stuck;
  }

  class Parser {
    const s: S.Scanner
    var curTok: Token
    var peekTok: Token
    var headCommentGroup: seq<Token>
    var node: NodeTable
    /** The comments that were left at the end of the input and became statements. */
    var commentStmts: seq<Token>
    /** How many errors have been recorded. */
    var errors: nat

    /** All comments the scanner has delivered, and all tokens that have been the current one, in order. */
    ghost var comments: seq<Token>
    ghost var taken: seq<Token>

    /**
     The tokens taken have their own nodes, and stand before the scanner's cursor and before the look-ahead; only the
     current one may be the lone `@` at the end of a source, which the scanner delivers for ever.
     */
    ghost predicate Valid()
      reads this`curTok, this`peekTok, this`node, this`taken, s
    {
      && s.Valid()
      && TakenBehind(s.State())
      && (forall t <- taken :: Behind(s.filename, t, s.State()) || t == peekTok)
      && (peekTok in taken ==> peekTok == curTok && Stuck(s.filename, s.data, peekTok, s.State()))
      && (curTok.kind == NONE ==> taken == [])
      && (peekTok.kind == NONE ==> peekTok == NO_TOKEN)
      && (curTok.kind != NONE && curTok.kind != EOF ==> curTok in taken)
      && (peekTok.kind == NONE || peekTok.kind == ERROR || BehindOrStuck(peekTok, s.State()))
      && (peekTok.kind == EOF ==> Stuck(s.filename, s.data, peekTok, s.State()))
      && (peekTok.kind != NONE && HasPosition(peekTok) ==> 1 <= peekTok.position.line <= |s.lines|)
      && (Final(peekTok.kind) ==> |peekTok.text| <= 1)
      && (peekTok.kind == NONE ==> curTok.kind == NONE)
      && (curTok.kind == EOF ==> peekTok.kind == EOF)
      && !IsComment(peekTok)
    }

    ghost predicate BehindOrStuck(t: Token, c: Cursor)
      requires |c.lines| > 0
    {
      Behind(s.filename, t, c) || Stuck(s.filename, s.data, t, c)
    }

    /**
     Every comment of the file is read or still ahead, and every one read is attached to a token, or a statement, or
     waits for the next token: in order, and once. At a lone `@` none waits. Those of a line are attached to the token
     before them, and any other to the next one: the nodes made and those still to be made are the nodes of the file.
     */
    ghost predicate Conserved()
      requires Valid()
      reads this`curTok, this`peekTok, this`node, this`taken, this`comments, this`commentStmts, this`headCommentGroup, s
    {
      && comments == Accounted(node, taken, commentStmts, headCommentGroup)
      && (commentStmts != [] ==> curTok.kind == EOF)
      && (peekTok in taken ==> headCommentGroup == [])
      && comments + CommentsAhead() == CommentsIn(Tokenize(s.filename, s.data, START))
      && (NoneIllegal(taken) ==>
            NodesOf(node, taken) + NodesAhead() == Nodes(Tokenize(s.filename, s.data, START), [], None))
    }

    /** Comments are conserved, and no illegal token was taken. */
    ghost predicate Kept()
      requires Valid()
      reads this`curTok, this`peekTok, this`node, this`taken, this`comments, this`commentStmts, this`headCommentGroup, s
    {
      Conserved() && NoneIllegal(taken)
    }

    /** The nodes still to be made. */
    ghost function NodesAhead(): seq<TokenNode>
      requires s.Valid()
      reads this`peekTok, this`headCommentGroup, s
    {
      var rest := Tokenize(s.filename, s.data, s.State());
      Nodes(if peekTok.kind == NONE then rest else [peekTok] + rest, headCommentGroup, None)
    }

    /** The comments still to be read. */
    ghost function CommentsAhead(): seq<Token>
      requires s.Valid()
      reads this`peekTok, s
    {
      CommentsIn([peekTok] + Tokenize(s.filename, s.data, s.State()))
    }

    /** Does a comment stand behind the current token, on its line? */
    ghost predicate CurNoted()
      reads this`curTok, this`node
    {
      curTok.kind != NONE && curTok in node && node[curTok].leading != []
    }

    /** The marks of the tokens from the next one on. */
    ghost function Ahead(): seq<Mark>
      requires s.Valid()
      reads this`curTok, this`peekTok, this`node, s
    {
      MarksAt([peekTok] + Tokenize(s.filename, s.data, s.State()), curTok.position.line, CurNoted())
    }

    /** A parser of the source, unless that is empty, on which the program ends. */
    static method New(filename: string, data: string) returns (p: Option<Parser>)
      ensures p.None? <==> data == ""
      ensures p.Some? ==>
                && fresh(p.value) && fresh(p.value.s) && p.value.Starts() && p.value.Kept()
                && p.value.s.filename == filename && p.value.s.data == data
    {
      var scanner := S.Scanner.New(filename, data);
      if scanner.None? {
        return None;
      }
      var parser := new Parser(scanner.value);
      p := Some(parser);
    }

    /** Nothing has been read. */
    ghost predicate Starts()
      reads this, s
    {
      && Valid() && s.State() == START && curTok == NO_TOKEN == peekTok
      && errors == 0 && headCommentGroup == [] && commentStmts == []
    }

    constructor (scanner: S.Scanner)
      requires scanner.Valid() && scanner.State() == START
      ensures Starts() && Kept() && s == scanner
    {
      s := scanner;
      curTok, peekTok := NO_TOKEN, NO_TOKEN;
      headCommentGroup, node, commentStmts, errors := [], map[], [], 0;
      comments, taken := [], [];
      CommentCounts(NO_TOKEN, Tokenize(scanner.filename, scanner.data, START));
    }

    /** Every token taken is behind the cursor `c`, or is what the scanner is stuck on. */
    ghost predicate TakenBehind(c: Cursor)
      requires |c.lines| > 0
      reads this`taken, this`node
    {
      NodesBehind(s.filename, s.data, node, taken, c)
    }

    /** Makes the look-ahead the current token and gives it a node with the comments that waited for it. */
    method Take() returns (line: int)
      requires Valid() && !(peekTok.kind in {NONE, EOF, ERROR})
      modifies this`curTok, this`node, this`taken, this`headCommentGroup
      ensures curTok == peekTok && taken == old(taken) + [curTok] && TakenBehind(s.State())
      ensures forall t <- taken :: Behind(s.filename, t, s.State()) || t == curTok
      ensures node == old(node)[curTok := TokenNode(old(headCommentGroup), curTok, [])]
      ensures headCommentGroup == [] && line == curTok.position.line && 1 <= line <= |s.lines|
    {
      hide Behind, Stuck, NodesBehind, CursorOk;
      NodesBehindMore(
        s.filename, s.data, node, taken, s.State(), TokenNode(headCommentGroup, peekTok, []));
      curTok := peekTok;
      node := node[curTok := TokenNode(headCommentGroup, curTok, [])];
      taken := taken + [curTok];
      headCommentGroup := [];
      line := curTok.position.line;
    }

    /**
     Moves to the next token. A comment on the current token's line goes to that token, any other waits for the
     next token; at the end of the input the waiting ones become statements.
     */
    method NextToken() returns (ok: bool)
      requires Valid() && peekTok.kind != ERROR
      modifies this, s
      ensures Valid() && curTok == old(peekTok)
      ensures errors == (old(errors) + if ok then 0 else 1) && ok == (peekTok.kind != ERROR)
      // Conservation of comments, unless the token taken was taken before and had comments. It is then a lone `@`.
      ensures ok && old(Conserved()) && old(peekTok) !in old(taken) ==> Conserved()
      ensures old(peekTok) in old(taken) ==> curTok == old(curTok) && Stuck(s.filename, s.data, curTok, s.State())
      ensures ok && old(Conserved()) && old(peekTok) in old(taken) ==>
                (Conserved() <==> old(node)[curTok].head + old(node)[curTok].leading == [])
      ensures ok && curTok.kind != NONE && curTok.kind != EOF ==>
                && curTok in node && node[curTok].head == old(headCommentGroup)
                && comments == old(comments) + (node[curTok].leading + headCommentGroup)
                && old(CommentsAhead()) == (node[curTok].leading + headCommentGroup) + CommentsAhead()
      ensures curTok.kind == EOF ==> commentStmts == old(commentStmts + headCommentGroup) && headCommentGroup == []
      ensures curTok.kind != EOF ==> commentStmts == old(commentStmts)
      // The node table: the new token gets a node of its own, and no other token's node changes.
      ensures taken == old(taken) + if curTok.kind != NONE && curTok.kind != EOF then [curTok] else []
      ensures curTok.kind != ILLEGAL ==> curTok !in old(taken)
      ensures forall t <- old(taken) :: t != curTok ==> node[t] == old(node)[t]
      // The tokens ahead.
      ensures !Final(curTok.kind) ==> ok == CanAdvance(old(Ahead())) && (ok ==> Ahead() == old(Ahead())[1..])
      ensures curTok.kind == EOF ==> ok && peekTok == old(peekTok) && s.State() == old(s.State())
      ensures peekTok.kind != NONE
    {
      hide Tokenize, MarksAt, CommentsIn, CommentsAhead, Behind, Stuck, Accounted, TakenBehind, Conserved, Ahead,
        S.Scanner.Valid;
      TakenHaveNodes();
      OnlyLoneAtAgain();
      if peekTok.kind == EOF {
        Flush();
        ok := true;
      } else if peekTok.kind == NONE {
        ok := Start();
      } else {
        ok := Advance();
      }
    }

    /** At the end of the input. */
    method Flush()
      requires Valid() && peekTok.kind == EOF
      modifies this`curTok, this`commentStmts, this`headCommentGroup
      ensures Valid() && curTok == peekTok && (old(Conserved()) ==> Conserved())
      ensures commentStmts == old(commentStmts + headCommentGroup) && headCommentGroup == []
    {
      hide Tokenize, MarksAt, CommentsIn, Behind, Accounted, Nodes, NodesOf;
      curTok := peekTok;
      AccountFlush(node, taken, commentStmts, headCommentGroup);
      NodeOf(peekTok, Tokenize(s.filename, s.data, s.State()), headCommentGroup, None);
      NodeOf(peekTok, Tokenize(s.filename, s.data, s.State()), [], None);
      commentStmts := commentStmts + headCommentGroup;
      headCommentGroup := [];
    }

    /** The very first read, when there is no token to take yet. */
    method Start() returns (ok: bool)
      requires Valid() && peekTok.kind == NONE
      modifies this`curTok, this`peekTok, this`headCommentGroup, this`comments, this`errors, s
      ensures Valid() && curTok == old(peekTok)
      ensures errors == (old(errors) + if ok then 0 else 1) && ok == (peekTok.kind != ERROR)
      ensures old(Conserved()) ==> Conserved()
      ensures ok == CanAdvance(old(Ahead())) && (ok ==> Ahead() == old(Ahead())[1..]) && peekTok.kind != NONE
    {
      hide Tokenize, MarksAt, CommentsIn, Behind, Stuck, Onward, NotBefore, Accounted, Scanned, Nodes, Conserved,
        CommentsAhead, NodesAhead, Ahead, Gathered, LookAlike, Valid;
      NothingTaken();
      ghost var c, file := s.State(), s.filename;
      ghost var read, group, ahead, nodes := comments, headCommentGroup, CommentsAhead(), NodesAhead();
      StartAhead();
      if Conserved() {
        Accounts();
      }
      curTok := peekTok;
      var leading;
      ghost var waiting;
      ok, leading, waiting := ReadPeek(-1, curTok.position.line, None);
      StartValid(c);
      SameMarks(0, Tokenize(file, s.data, c), group, [peekTok] + Tokenize(file, s.data, s.State()), headCommentGroup);
      AheadReads(false);
      if old(Conserved()) {
        StartConserved(read, group, ahead, nodes, waiting, Tokenize(file, s.data, c));
      }
    }

    lemma NothingTaken()
      requires Valid() && peekTok.kind == NONE
      ensures s.Valid() && taken == [] && peekTok == NO_TOKEN && curTok.kind == NONE
    {
    }

    lemma StartValid(c: Cursor)
      requires s.Valid() && |c.lines| > 0 && taken == [] && curTok == NO_TOKEN && !IsComment(peekTok)
      requires Scanned(s.filename, s.data, c, peekTok, s.State())
      ensures Valid() && peekTok.kind != NONE && !CurNoted()
    {
      hide Behind, Stuck, Scanned, CursorOk;
      ScannedFacts(s.filename, s.data, c, peekTok, s.State());
    }

    lemma SameMarks(from: int, a: seq<Token>, head: seq<Token>, b: seq<Token>, waiting: seq<Token>)
      requires LookAlike(from, a, head, None, b, waiting, None)
      ensures MarksAt(a, from) == MarksAt(b, from)
    {
      hide MarksAt, Nodes;
    }

    /** What is ahead before the first read. */
    lemma StartAhead()
      requires Valid() && peekTok.kind == NONE
      ensures CommentsAhead() == CommentsIn(Tokenize(s.filename, s.data, s.State()))
      ensures NodesAhead() == Nodes(Tokenize(s.filename, s.data, s.State()), headCommentGroup, None)
      ensures Ahead() != [] && Ahead()[1..] == MarksAt(Tokenize(s.filename, s.data, s.State()), 0)
    {
      hide Tokenize, MarksAt, CommentsIn, Nodes;
      CommentCounts(peekTok, Tokenize(s.filename, s.data, s.State()));
      MarkOf(peekTok, Tokenize(s.filename, s.data, s.State()), curTok.position.line, CurNoted());
    }

    /** What is conserved by the first read. */
    lemma StartConserved(
        read: seq<Token>, group: seq<Token>, ahead: seq<Token>, nodes: seq<TokenNode>, waiting: seq<Token>,
        tokens: seq<Token>)
      requires Valid() && taken == [] && commentStmts == [] && peekTok.kind != NONE
      requires read == Accounted(node, taken, [], group) && ahead == CommentsIn(tokens) &&
               nodes == Nodes(tokens, group, None)
      requires read + ahead == CommentsIn(Tokenize(s.filename, s.data, START))
      requires nodes == Nodes(Tokenize(s.filename, s.data, START), [], None)
      requires Gathered(read, group, ahead, [], waiting, comments, headCommentGroup, CommentsAhead())
      requires LookAlike(
                 0, tokens, group, None, [peekTok] + Tokenize(s.filename, s.data, s.State()), headCommentGroup, None)
      ensures Conserved()
    {
      hide Tokenize, MarksAt, CommentsIn, Behind, Stuck, Nodes, CommentsAhead;
      AccountWait(node, taken, group, waiting);
      Regroup(read, [] + waiting, CommentsAhead());
      assert NodesOf(node, taken) == [] && [] + NodesAhead() == NodesAhead();
    }

    /** Takes the look-ahead and reads on. */
    method Advance() returns (ok: bool)
      requires Valid() && !(peekTok.kind in {NONE, EOF, ERROR})
      modifies this`curTok, this`peekTok, this`headCommentGroup, this`node, this`comments, this`taken, this`errors, s
      ensures Valid() && curTok == old(peekTok)
      ensures errors == (old(errors) + if ok then 0 else 1) && ok == (peekTok.kind != ERROR)
      ensures ok && old(Conserved()) && old(peekTok) !in old(taken) ==> Conserved()
      ensures taken == old(taken) + [curTok]
      ensures old(peekTok) in old(taken) ==> curTok == old(curTok) && Stuck(s.filename, s.data, curTok, s.State())
      ensures ok && old(Conserved()) && old(peekTok) in old(taken) ==>
                (Conserved() <==> old(node)[curTok].head + old(node)[curTok].leading == [])
      ensures ok ==>
                && curTok in node && node[curTok].head == old(headCommentGroup)
                && comments == old(comments) + (node[curTok].leading + headCommentGroup)
                && old(CommentsAhead()) == (node[curTok].leading + headCommentGroup) + CommentsAhead()
      ensures forall t <- old(taken) :: t != curTok ==> node[t] == old(node)[t]
      ensures !Final(curTok.kind) ==> ok == CanAdvance(old(Ahead())) && (ok ==> Ahead() == old(Ahead())[1..])
    {
      hide Tokenize, MarksAt, CommentsIn, CommentsAhead, Behind, Stuck, TakenBehind, Accounted, Ahead, S.Scanner.Valid,
        Valid, Conserved, NodesAhead, Nodes, NodesOf, NoneIllegal;
      TakenHaveNodes();
      OnlyLoneAtAgain();
      ghost var before, had, ahead, nodes := node, taken, CommentsAhead(), NodesAhead();
      ghost var leading, waiting;
      if Conserved() {
        Accounts();
      }
      ok, leading, waiting := TakeAndRead();
      TakenHaveNodes();
      if ok && old(Conserved()) {
        StaysConserved(before, had, old(headCommentGroup), old(comments), ahead, leading, waiting, nodes);
      }
    }

    /** What conservation says while there are tokens to come. */
    lemma Accounts()
      requires Valid() && Conserved() && peekTok.kind != EOF
      ensures (forall t <- taken :: t in node) && comments == Accounted(node, taken, [], headCommentGroup)
      ensures commentStmts == [] && comments + CommentsAhead() == CommentsIn(Tokenize(s.filename, s.data, START))
      ensures peekTok in taken ==> headCommentGroup == []
      ensures NoneIllegal(taken) ==>
                NodesOf(node, taken) + NodesAhead() == Nodes(Tokenize(s.filename, s.data, START), [], None)
    {
      hide Tokenize, CommentsIn, CommentsAhead, Behind, Stuck, Accounted, S.Scanner.Valid, NodesAhead, Nodes, NodesOf,
        NoneIllegal;
    }

    /** What is conserved when a token has been taken and the next one read. */
    lemma StaysConserved(
        before: NodeTable, had: seq<Token>, head: seq<Token>, read: seq<Token>, ahead: seq<Token>, leading: seq<Token>,
        waiting: seq<Token>, nodes: seq<TokenNode>)
      requires Valid() && s.Valid() && (forall t <- had :: t in before) && read == Accounted(before, had, [], head)
      requires read + ahead == CommentsIn(Tokenize(s.filename, s.data, START))
      requires (curTok in had ==> head == [] && peekTok in taken) && taken == had + [curTok]
      requires (peekTok in taken ==> leading + waiting == []) && commentStmts == []
      requires comments == read + (leading + waiting) && headCommentGroup == waiting
      requires node == before[curTok := TokenNode(head, curTok, leading)]
      requires ahead == (leading + waiting) + CommentsAhead()
      requires NoneIllegal(had) ==> NodesOf(before, had) + nodes == Nodes(Tokenize(s.filename, s.data, START), [], None)
      requires !Final(curTok.kind) ==> nodes == [TokenNode(head, curTok, leading)] + NodesAhead()
      requires curTok.kind != EOF && curTok.kind != ERROR && (curTok in had ==> curTok.kind == ILLEGAL)
      ensures curTok !in had ==> Conserved()
      ensures curTok in had ==> (Conserved() <==> before[curTok].head + before[curTok].leading == [])
    {
      hide Tokenize, CommentsIn, CommentsAhead, Behind, Stuck, TakenBehind, Accounted, S.Scanner.Valid, NodesAhead,
        Nodes, NodesOf, Valid;
      if curTok.kind == ILLEGAL {
        assert taken[|had|] == curTok && !NoneIllegal(taken);
      } else {
        assert NoneIllegal(taken) ==> NoneIllegal(had);
        MadeMore(before, had, TokenNode(head, curTok, leading));
        NodesOn(NodesOf(before, had), TokenNode(head, curTok, leading), NodesAhead());
      }
      if curTok in had {
        assert leading == [] && waiting == [] && comments == read && CommentsAhead() == ahead;
        AccountAgain(before, had, curTok);
      } else {
        ConservedOn(before, had, TokenNode(head, curTok, leading), node, waiting, read, ahead, CommentsAhead());
      }
    }

    lemma NodesOn(made: seq<TokenNode>, n: TokenNode, ahead: seq<TokenNode>)
      ensures (made + [n]) + ahead == made + ([n] + ahead)
    {
    }

    lemma TakenHaveNodes()
      requires Valid()
      ensures s.Valid() && (forall t <- taken :: t in node)
      ensures peekTok in taken ==> peekTok == curTok
    {
    }

    lemma TakenAgainIsStuck()
      requires Valid()
      ensures !IsComment(peekTok)
      ensures peekTok in taken ==> Stuck(s.filename, s.data, peekTok, s.State())
    {
    }

    /** Takes the look-ahead and reads on; the tokens and comments ahead move on with it. */
    method TakeAndRead() returns (ok: bool, ghost leading: seq<Token>, ghost waiting: seq<Token>)
      requires Valid() && !(peekTok.kind in {NONE, EOF, ERROR})
      modifies this`curTok, this`peekTok, this`headCommentGroup, this`node, this`comments, this`taken, this`errors, s
      ensures Valid() && curTok == old(peekTok) && taken == old(taken) + [curTok]
      ensures errors == (old(errors) + if ok then 0 else 1) && ok == (peekTok.kind != ERROR)
      ensures old(peekTok) in old(taken) ==> Stuck(s.filename, s.data, curTok, s.State())
      ensures peekTok in taken ==> leading == [] && waiting == []
      ensures old(peekTok) in old(taken) ==> peekTok in taken
      ensures node == old(node)[curTok := TokenNode(old(headCommentGroup), curTok, if ok then leading else [])]
      ensures comments == old(comments) + (leading + waiting) && headCommentGroup == waiting
      ensures old(CommentsAhead()) == (leading + waiting) + CommentsAhead()
      ensures !Final(curTok.kind) ==> ok == CanAdvance(old(Ahead())) && (ok ==> Ahead() == old(Ahead())[1..])
      ensures !Final(curTok.kind) ==>
                old(NodesAhead()) == [TokenNode(old(headCommentGroup), curTok, leading)] + NodesAhead()
    {
      hide Tokenize, MarksAt, CommentsIn, Behind, Stuck, Accounted, TakenBehind, Ahead, CommentsAhead, CursorOk, Valid,
        NodesAhead, Nodes, Gathered;
      TakenHaveNodes();
      AheadTaken();
      ghost var read, ahead := comments, CommentsAhead();
      ok, leading, waiting := TakeToken();
      AheadReads(leading != []);
      TakenHaveNodes();
      TakenAgainIsStuck();
      GatheredAll(read, ahead, leading, waiting, comments, headCommentGroup, CommentsAhead());
      NodesRead(Some(TokenNode(old(headCommentGroup), curTok, leading)));
    }

    method TakeToken() returns (ok: bool, ghost leading: seq<Token>, ghost waiting: seq<Token>)
      requires Valid() && !(peekTok.kind in {NONE, EOF, ERROR})
      modifies this`curTok, this`peekTok, this`headCommentGroup, this`node, this`comments, this`taken, this`errors, s
      ensures Valid() && curTok == old(peekTok) && taken == old(taken) + [curTok]
      ensures errors == (old(errors) + if ok then 0 else 1) && ok == (peekTok.kind != ERROR)
      ensures old(peekTok) in old(taken) ==> Stuck(s.filename, s.data, curTok, s.State())
      ensures peekTok.kind != NONE && (peekTok in taken ==> leading == [] && waiting == [])
      ensures old(peekTok) in old(taken) ==> peekTok in taken
      ensures node == old(node)[curTok := TokenNode(old(headCommentGroup), curTok, if ok then leading else [])]
      ensures Gathered(
                old(comments), [], CommentsIn(Tokenize(s.filename, s.data, old(s.State()))),
                leading, waiting, comments, headCommentGroup, CommentsAhead())
      ensures LookAlike(
                curTok.position.line, Tokenize(s.filename, s.data, old(s.State())), [],
                Some(TokenNode(old(headCommentGroup), curTok, [])), [peekTok] + Tokenize(s.filename, s.data, s.State()),
                headCommentGroup, Some(TokenNode(old(headCommentGroup), curTok, leading)))
    {
      hide Tokenize, MarksAt, CommentsIn, Behind, Stuck, Stops, Onward, NotBefore, Accounted, TakenBehind, Scanned,
        CommentsAhead, CursorOk, Valid, Gathered, LookAlike;
      ghost var c := s.State();
      TakenHaveNodes();
      TakenAgainIsStuck();
      var line := Take();
      var found;
      ok, found, waiting := ReadPeek(line, curTok.position.line, Some(TokenNode(old(headCommentGroup), curTok, [])));
      leading := found;
      if ok && |found| > 0 {
        SetLeading(found, c, old(node), old(headCommentGroup));
      }
      TakenStaysBehind(c);
    }

    /** What is ahead of a look-ahead that is about to be taken. */
    lemma AheadTaken()
      requires Valid() && !(peekTok.kind in {NONE, EOF, ERROR})
      ensures CommentsAhead() == CommentsIn(Tokenize(s.filename, s.data, s.State())) && Ahead() != []
      ensures !Final(peekTok.kind) ==>
                Ahead()[1..] == MarksAt(Tokenize(s.filename, s.data, s.State()), peekTok.position.line)
      ensures !Final(peekTok.kind) ==>
                NodesAhead() ==
                Nodes(Tokenize(s.filename, s.data, s.State()), [], Some(TokenNode(headCommentGroup, peekTok, [])))
    {
      hide Tokenize, MarksAt, CommentsIn, Behind, Stuck, TakenBehind, S.Scanner.Valid, Nodes;
      NodeOf(peekTok, Tokenize(s.filename, s.data, s.State()), headCommentGroup, None);
      CommentCounts(peekTok, Tokenize(s.filename, s.data, s.State()));
      MarkOf(peekTok, Tokenize(s.filename, s.data, s.State()), curTok.position.line, CurNoted());
    }

    /** The look-ahead is the first token ahead. */
    lemma AheadReads(noted: bool)
      requires Valid()
      ensures var ms := MarksAt([peekTok] + Tokenize(s.filename, s.data, s.State()), curTok.position.line, noted);
              ms != [] && Peek(ms) == peekTok.kind && (CurNoted() == noted ==> Ahead() == ms)
    {
      hide Tokenize, MarksAt;
      MarkOf(peekTok, Tokenize(s.filename, s.data, s.State()), curTok.position.line, noted);
    }

    /** With the look-ahead read, the node of the current token is done. */
    lemma NodesRead(cur: Option<TokenNode>)
      requires s.Valid() && !IsComment(peekTok) && peekTok.kind != NONE
      ensures Nodes([peekTok] + Tokenize(s.filename, s.data, s.State()), headCommentGroup, cur) ==
              Done(cur) + NodesAhead()
    {
      hide Tokenize, Nodes, CursorOk;
      NodesDone(peekTok, Tokenize(s.filename, s.data, s.State()), headCommentGroup, cur);
    }

    /** The comments on the current token's line go to its node. */
    method SetLeading(leading: seq<Token>, ghost c: Cursor, ghost before: NodeTable, ghost head: seq<Token>)
      requires |c.lines| > 0 && TakenBehind(c) && curTok in taken
      requires node == before[curTok := TokenNode(head, curTok, [])]
      modifies this`node
      ensures node == before[curTok := TokenNode(head, curTok, leading)]
      ensures TakenBehind(c)
    {
      hide NodesBehind;
      NodesBehindSet(s.filename, s.data, node, taken, c, node[curTok].(leading := leading));
      node := node[curTok := node[curTok].(leading := leading)];
    }

    lemma TakenStaysBehind(c: Cursor)
      requires s.Valid() && |c.lines| > 0 && TakenBehind(c) && curTok in taken && !(curTok.kind in {NONE, EOF})
      requires forall t <- taken :: Behind(s.filename, t, c) || t == curTok
      requires Scanned(s.filename, s.data, c, peekTok, s.State()) && !IsComment(peekTok)
      ensures Valid() && peekTok.kind != NONE
      ensures Stuck(s.filename, s.data, curTok, c) ==> peekTok == curTok && Stuck(s.filename, s.data, curTok, s.State())
      ensures peekTok in taken ==> Stops(s.data, c)
    {
      hide Behind, Stuck, Scanned, CursorOk;
      ScannedFacts(s.filename, s.data, c, peekTok, s.State());
      ScannedKeeps(s.filename, s.data, c, peekTok, s.State(), curTok);
      forall t <- taken
        ensures (Behind(s.filename, t, s.State()) && t != peekTok) ||
                (t == peekTok == curTok && Stuck(s.filename, s.data, t, s.State()))
      {
        ScannedKeeps(s.filename, s.data, c, peekTok, s.State(), t);
      }
    }

    /** Reads one token into the look-ahead. */
    method ScanPeek(ghost from: int, ghost cur: Option<TokenNode>) returns (ok: bool)
      requires s.Valid()
      modifies s, this`peekTok, this`errors
      ensures s.Valid() && errors == old(errors) + if ok then 0 else 1
      ensures ok == (peekTok.kind != ERROR)
      ensures Scanned(s.filename, s.data, old(s.State()), peekTok, s.State())
      ensures Stops(s.data, old(s.State())) ==> !IsComment(peekTok)
      ensures IsComment(peekTok) ==> old(s.position) < s.position && old(s.position) < |s.data|
      ensures LookAlike(
                from, Tokenize(s.filename, s.data, old(s.State())), headCommentGroup, cur,
                [peekTok] + Tokenize(s.filename, s.data, s.State()), headCommentGroup, cur)
      ensures CommentsIn(Tokenize(s.filename, s.data, old(s.State()))) == CommentsAhead()
    {
      hide Lex, NextLexeme, TokenStart, NextCursor, Lexis.NextToken, Stops, Tokenize, LookAlike, CommentsIn, Scanned;
      ghost var c := s.State();
      CallIsCalled(s.filename, s.data, c);
      if Stops(s.data, c) {
        NoCommentAtStop(s.filename, s.data, c);
      }
      LookStep(s.filename, s.data, c, from, headCommentGroup, cur);
      CommentsStep(s.filename, s.data, c);
      peekTok, ok := s.NextToken();
      if !ok {
        errors := errors + 1;
      }
    }

    /** Reads the next token that is no comment; the comments on the way that are on `line` are returned. */
    method ReadPeek(line: int, ghost from: int, ghost cur: Option<TokenNode>)
      returns (ok: bool, leading: seq<Token>, ghost waiting: seq<Token>)
      requires s.Valid() && -1 <= line <= |s.lines| && (line > -1 ==> headCommentGroup == [])
      requires if cur.None? then line == -1 && from == 0
               else line == from == cur.value.token.position.line > -1 && cur.value.leading == []
      modifies s, this`peekTok, this`headCommentGroup, this`comments, this`errors
      ensures s.Valid() && errors == old(errors) + if ok then 0 else 1
      ensures line == -1 || Stops(s.data, old(s.State())) ==> leading == []
      ensures Stops(s.data, old(s.State())) ==> waiting == []
      ensures Gathered(
                old(comments), old(headCommentGroup), CommentsIn(Tokenize(s.filename, s.data, old(s.State()))),
                leading, waiting, comments, headCommentGroup, CommentsAhead())
      ensures ok == (peekTok.kind != ERROR) && !IsComment(peekTok)
      ensures Scanned(s.filename, s.data, old(s.State()), peekTok, s.State())
      ensures LookAlike(
                from, Tokenize(s.filename, s.data, old(s.State())), old(headCommentGroup), cur,
                [peekTok] + Tokenize(s.filename, s.data, s.State()), headCommentGroup, WithLeading(cur, leading))
    {
      hide Tokenize, CommentsIn, CommentsAhead, Scanned, Stops, CursorOk, Gathered, LookAlike, PeekedOn;
      ghost var start, read, group := s.State(), comments, headCommentGroup;
      ghost var tokens := Tokenize(s.filename, s.data, start);
      ok := ScanPeek(from, cur);
      leading, waiting := [], [];
      FirstPeek(start, line, from, cur, tokens, read, group);
      while IsComment(peekTok)
        invariant s.Valid() && ok == (peekTok.kind != ERROR) && errors == old(errors) + if ok then 0 else 1
        invariant s.Valid() && PeekedOn(start, line, from, cur, tokens, read, group, leading, waiting)
        decreases IsComment(peekTok), |s.data| - s.position
      {
        ok, leading, waiting := PassComment(start, line, from, cur, tokens, read, group, leading, waiting);
      }
      PeekedFacts(start, line, from, cur, tokens, read, group, leading, waiting);
    }

    /** Comments were read since the cursor was `start`, and went behind the current token or wait. */
    ghost predicate PeekedOn(
      start: Cursor, line: int, from: int, cur: Option<TokenNode>, tokens: seq<Token>, read: seq<Token>,
      group: seq<Token>, leading: seq<Token>, waiting: seq<Token>)
      requires s.Valid() && |start.lines| > 0
      reads this`peekTok, this`comments, this`headCommentGroup, s
    {
      && Scanned(s.filename, s.data, start, peekTok, s.State())
      && (line == -1 ==> leading == [])
      && (Stops(s.data, start) ==> leading == [] && waiting == [] && !IsComment(peekTok))
      && line <= |s.lines| && (waiting != [] ==> line < |s.lines|)
      && Gathered(read, group, CommentsIn(tokens), leading, waiting, comments, headCommentGroup, CommentsAhead())
      && LookAlike(
           from, tokens, group, cur, [peekTok] + Tokenize(s.filename, s.data, s.State()), headCommentGroup,
           WithLeading(cur, leading))
    }

    lemma PeekedFacts(
        start: Cursor, line: int, from: int, cur: Option<TokenNode>, tokens: seq<Token>, read: seq<Token>,
        group: seq<Token>, leading: seq<Token>, waiting: seq<Token>)
      requires s.Valid() && |start.lines| > 0
      requires PeekedOn(start, line, from, cur, tokens, read, group, leading, waiting)
      ensures Scanned(s.filename, s.data, start, peekTok, s.State()) && line <= |s.lines|
      ensures (line == -1 ==> leading == []) && (waiting != [] ==> line < |s.lines|)
      ensures Stops(s.data, start) ==> leading == [] && waiting == [] && !IsComment(peekTok)
      ensures Gathered(
                read, group, CommentsIn(tokens), leading, waiting, comments, headCommentGroup, CommentsAhead())
      ensures LookAlike(
                from, tokens, group, cur, [peekTok] + Tokenize(s.filename, s.data, s.State()), headCommentGroup,
                WithLeading(cur, leading))
    {
      hide Tokenize, CommentsIn, CommentsAhead, Scanned, Stops, CursorOk, Gathered, LookAlike;
    }

    lemma FirstPeek(
        start: Cursor, line: int, from: int, cur: Option<TokenNode>, tokens: seq<Token>, read: seq<Token>,
        group: seq<Token>)
      requires s.Valid() && |start.lines| > 0 && Scanned(s.filename, s.data, start, peekTok, s.State())
      requires line <= |start.lines| && (Stops(s.data, start) ==> !IsComment(peekTok))
      requires read == comments && group == headCommentGroup && CommentsIn(tokens) == CommentsAhead()
      requires cur.Some? ==> cur.value.leading == []
      requires LookAlike(
                 from, tokens, group, cur, [peekTok] + Tokenize(s.filename, s.data, s.State()), headCommentGroup, cur)
      ensures PeekedOn(start, line, from, cur, tokens, read, group, [], [])
    {
      hide Tokenize, CommentsIn, CommentsAhead, Scanned, Stops, CursorOk, Gathered, LookAlike;
      ScannedLine(s.filename, s.data, start, peekTok, s.State());
      GatherNone(read, group, CommentsIn(tokens));
    }

    /** A comment that is the look-ahead is kept, and the next token read. */
    method PassComment(
        ghost start: Cursor, line: int, ghost from: int, ghost cur: Option<TokenNode>, ghost tokens: seq<Token>,
        ghost read: seq<Token>, ghost group: seq<Token>, before: seq<Token>, ghost waited: seq<Token>)
      returns (ok: bool, leading: seq<Token>, ghost waiting: seq<Token>)
      requires s.Valid() && |start.lines| > 0 && IsComment(peekTok)
      requires if cur.None? then line == -1 && from == 0
               else line == from == cur.value.token.position.line > -1 && cur.value.leading == []
      requires PeekedOn(start, line, from, cur, tokens, read, group, before, waited)
      modifies s, this`peekTok, this`headCommentGroup, this`comments, this`errors
      ensures s.Valid() && errors == old(errors) + (if ok then 0 else 1) && ok == (peekTok.kind != ERROR)
      ensures PeekedOn(start, line, from, cur, tokens, read, group, leading, waiting)
      ensures IsComment(peekTok) ==> old(s.position) < s.position && old(s.position) < |s.data|
    {
      hide Tokenize, CommentsIn, CommentsAhead, Scanned, Stops, CursorOk, Gathered, LookAlike;
      ScannedLine(s.filename, s.data, start, peekTok, s.State());
      leading, waiting := KeepComment(line, from, cur, before, waited, read, group, CommentsIn(tokens), tokens);
      ok := ScanOn(start, from, tokens, group, cur, WithLeading(cur, leading));
    }

    /** Reads on after a comment. */
    method ScanOn(
        ghost start: Cursor, ghost from: int, ghost tokens: seq<Token>, ghost group: seq<Token>,
        ghost cur: Option<TokenNode>, ghost now: Option<TokenNode>)
      returns (ok: bool)
      requires s.Valid() && |start.lines| > 0 && Scanned(s.filename, s.data, start, peekTok, s.State())
      requires LookAlike(from, tokens, group, cur, Tokenize(s.filename, s.data, s.State()), headCommentGroup, now)
      modifies s, this`peekTok, this`errors
      ensures s.Valid() && errors == old(errors) + if ok then 0 else 1
      ensures ok == (peekTok.kind != ERROR)
      ensures Scanned(s.filename, s.data, start, peekTok, s.State()) && |old(s.lines)| <= |s.lines|
      ensures IsComment(peekTok) ==> old(s.position) < s.position && old(s.position) < |s.data|
      ensures LookAlike(
                from, tokens, group, cur, [peekTok] + Tokenize(s.filename, s.data, s.State()), headCommentGroup, now)
      ensures CommentsIn(Tokenize(s.filename, s.data, old(s.State()))) == CommentsAhead()
    {
      hide Tokenize, CommentsIn, CommentsAhead, Scanned, Stops, CursorOk, LookAlike;
      ghost var c, t := s.State(), peekTok;
      ok := ScanPeek(from, now);
      LookTrans(
        from, tokens, group, cur, Tokenize(s.filename, s.data, c), headCommentGroup, now,
        [peekTok] + Tokenize(s.filename, s.data, s.State()), headCommentGroup, now);
      ScannedTrans(s.filename, s.data, start, t, c, peekTok, s.State());
      ScannedLine(s.filename, s.data, c, peekTok, s.State());
    }

    /** The comment that has been read belongs to the current token if it is on its line, and waits otherwise. */
    method KeepComment(
        line: int, ghost from: int, ghost cur: Option<TokenNode>, before: seq<Token>, ghost waited: seq<Token>,
        ghost read: seq<Token>, ghost group: seq<Token>, ghost all: seq<Token>, ghost tokens: seq<Token>)
      returns (leading: seq<Token>, ghost waiting: seq<Token>)
      requires s.Valid() && IsComment(peekTok) && 1 <= peekTok.position.line
      requires if cur.None? then line == -1 && from == 0
               else line == from == cur.value.token.position.line > -1 && cur.value.leading == []
      requires peekTok.position.line == line ==> waited == []
      requires Gathered(read, group, all, before, waited, comments, headCommentGroup, CommentsAhead())
      requires LookAlike(
                 from, tokens, group, cur, [peekTok] + Tokenize(s.filename, s.data, s.State()), headCommentGroup,
                 WithLeading(cur, before))
      modifies this`comments, this`headCommentGroup
      ensures if peekTok.position.line == line then leading == before + [peekTok] && waiting == waited
              else leading == before && waiting == waited + [peekTok]
      ensures Gathered(
                read, group, all, leading, waiting, comments, headCommentGroup,
                CommentsIn(Tokenize(s.filename, s.data, s.State())))
      ensures LookAlike(
                from, tokens, group, cur, Tokenize(s.filename, s.data, s.State()), headCommentGroup,
                WithLeading(cur, leading))
    {
      hide Tokenize, CommentsIn, CommentsAhead, CursorOk, Gathered, LookAlike;
      ghost var had, head, was := comments, headCommentGroup, WithLeading(cur, before);
      ghost var after := Tokenize(s.filename, s.data, s.State());
      CommentIsNext();
      comments := comments + [peekTok];
      if peekTok.position.line == line && line > -1 {
        GatherLeading(read, group, all, before, had, head, peekTok, CommentsIn(after));
        LookBehind(peekTok, after, from, head, was.value);
        leading, waiting := before + [peekTok], waited;
      } else {
        GatherWaiting(read, group, all, before, waited, had, head, peekTok, CommentsIn(after));
        LookAbove(peekTok, after, from, head, was);
        headCommentGroup := headCommentGroup + [peekTok];
        leading, waiting := before, waited + [peekTok];
      }
      LookTrans(
        from, tokens, group, cur, [peekTok] + after, head, was, after, headCommentGroup, WithLeading(cur, leading));
    }

    lemma CommentIsNext()
      requires s.Valid() && IsComment(peekTok)
      ensures CommentsAhead() == [peekTok] + CommentsIn(Tokenize(s.filename, s.data, s.State()))
    {
      hide Tokenize, CommentsIn;
      CommentCounts(peekTok, Tokenize(s.filename, s.data, s.State()));
    }

    // ---- data types ------------------------------------------------------------------------------

    /** The parser stands on a token and may look at the next one. */
    ghost predicate Ready()
      reads this`curTok, this`peekTok, this`node, this`taken, s
    {
      Stands() && !Final(curTok.kind)
    }

    /** The parser has a token and may look at the next one. */
    ghost predicate Stands()
      reads this`curTok, this`peekTok, this`node, this`taken, s
    {
      Valid() && s.Valid() && curTok.kind != NONE && curTok.kind != EOF && peekTok.kind != NONE && peekTok.kind != ERROR
    }

    /**
     What a parse method does, given what the specification reads from the tokens ahead: it returns that value,
     leaves exactly the tokens that the specification leaves, keeps all comments and records no error; or else it
     records an error and returns nothing.
     */
    twostate predicate Parses<T>(new spec: Parsed<T>, new r: Option<T>)
      requires old(Valid())
      reads this, s
    {
      && Valid()
      && match spec
         case Fail => r.None? && errors > old(errors)
         case Ok(value, rest) => r == Some(value) && Ahead() == rest && GoesOn(old(Kept()), old(errors))
    }

    /** The look-ahead is the first mark ahead. */
    lemma LookAhead()
      requires Valid()
      ensures Final(peekTok.kind) ==> |peekTok.text| <= 1
      ensures Ahead() != [] && Peek(Ahead()) == peekTok.kind && PeekText(Ahead()) == peekTok.text
      ensures Ahead()[0] == MarkFrom(peekTok, curTok.position.line, CurNoted())
    {
      hide Tokenize;
      MarkOf(peekTok, Tokenize(s.filename, s.data, s.State()), curTok.position.line, CurNoted());
    }

    /** Only a lone `@` is delivered twice, and one after the other. */
    lemma OnlyLoneAtAgain()
      requires Valid()
      ensures peekTok in taken ==> peekTok == curTok && peekTok.kind == ILLEGAL && peekTok.text == "@"
    {
      hide Behind;
      if peekTok in taken {
        StuckIsLoneAt(s.filename, s.data, peekTok, s.State());
      }
    }

    /** The parser may go on: it stands on a token and has no error in sight. */
    ghost predicate GoesOn(kept: bool, noted: nat)
      reads this, s
    {
      Valid() && Ready() && errors == noted && (kept ==> Kept())
    }

    /** Moves to the next token, which is one that a parse may go past. */
    method Step() returns (ok: bool)
      requires Ready() && !Final(peekTok.kind)
      modifies this, s
      ensures ok == CanAdvance(old(Ahead())) == (peekTok.kind != ERROR) && old(Ahead()) != []
      ensures if ok then GoesOn(old(Kept()), old(errors)) && Ahead() == old(Ahead())[1..] && curTok == old(peekTok)
              else Valid() && errors > old(errors)
    {
      hide Tokenize, MarksAt, CommentsIn, CommentsAhead, Behind, Stuck, Accounted, Valid, Conserved, Ahead, NoneIllegal;
      StandsAhead();
      ghost var had := taken;
      ok := NextToken();
      TakenHaveNodes();
      if ok {
        if old(Kept()) {
          StillNone(had, curTok);
        }
      }
    }

    /** The token that a parse goes to has not been taken. */
    lemma StandsAhead()
      requires Valid() && !Final(peekTok.kind)
      ensures s.Valid() && Ahead() != [] && peekTok !in taken
    {
      hide Tokenize;
      LookAhead();
      OnlyLoneAtAgain();
    }

    static lemma StillNone(had: seq<Token>, t: Token)
      requires NoneIllegal(had) && t.kind != ILLEGAL
      ensures NoneIllegal(had + [t])
    {
    }

    /** Records an error unless the next token is of an expected kind. */
    method ExpectPeekToken(expected: set<Kind>) returns (ok: bool)
      requires Ready()
      modifies this`errors
      ensures Ahead() == old(Ahead()) && ok == (peekTok.kind in expected) == (Peek(Ahead()) in expected)
      ensures GoesOn(old(Kept()), old(errors) + if ok then 0 else 1)
    {
      hide Tokenize, MarksAt, CommentsIn, Behind, Accounted, TakenBehind, Kept, Valid, Ahead, S.Scanner.Valid;
      LookAhead();
      ok := peekTok.kind in expected;
      if !ok {
        errors := errors + 1;
      }
    }

    method AdvanceIfPeekTokenIs(expected: set<Kind>) returns (ok: bool)
      requires Ready() && expected !! {EOF, ILLEGAL, ERROR}
      modifies this, s
      ensures ok == (Peek(old(Ahead())) in expected && CanAdvance(old(Ahead()))) && old(Ahead()) != []
      ensures if ok then GoesOn(old(Kept()), old(errors)) && Ahead() == old(Ahead())[1..] && curTok == old(peekTok)
              else Valid() && errors > old(errors)
    {
      hide Tokenize, MarksAt, CommentsIn, Behind, Accounted, TakenBehind, Kept, Valid, Ahead;
      LookAhead();
      ok := ExpectPeekToken(expected);
      if ok {
        ok := Step();
      }
    }

    /** The text of the current token, by way of its node. */
    function CurText(): (text: string)
      requires Ready()
      reads this, s
      ensures text == curTok.text
    {
      node[curTok].token.text
    }

    method CurTokenIsKeyword() returns (yes: bool)
      requires Ready()
      modifies this`errors
      ensures Ahead() == old(Ahead()) && yes == IsKeyword(curTok.text)
      ensures GoesOn(old(Kept()), old(errors) + if yes then 1 else 0)
    {
      hide Tokenize, MarksAt, CommentsIn, Behind, Accounted, TakenBehind, Kept, Valid, Ahead, S.Scanner.Valid,
        IsKeyword;
      yes := IsKeyword(curTok.text);
      if yes {
        errors := errors + 1;
      }
    }

    method ParseDataType() returns (dt: Option<DataType>)
      requires Ready()
      modifies this, s
      ensures Parses(ParseType(old(Ahead())), dt)
      decreases |Ahead()|, 4
    {
      hide Tokenize, MarksAt, CommentsIn, Behind, Accounted, TakenBehind, Kept, Valid, Ahead, IsKeyword,
        ParseStruct, ParseMap, ParsePointer, ParseBrackets, ParseElems, ParseElem, ParseElemBody, ParseNames,
        S.Scanner.Valid;
      LookAhead();
      if peekTok.text == "any" {
        dt := ParseAnyDataType();
      } else if peekTok.kind == LBRACE {
        dt := ParseStructDataType();
      } else if peekTok.kind == IDENT {
        if peekTok.text == "map" {
          dt := ParseMapDataType();
        } else {
          dt := ParseBaseDataType();
        }
      } else if peekTok.kind == LBRACK {
        dt := ParseBracketDataType();
      } else if peekTok.kind == ANY {
        dt := ParseInterfaceDataType();
      } else if peekTok.kind == MUL {
        dt := ParsePointerDataType();
      } else {
        var fits := ExpectPeekToken({IDENT, LBRACK, ANY, MUL, LBRACE});
        dt := None;
      }
    }

    method ParseAnyDataType() returns (dt: Option<DataType>)
      requires Ready() && peekTok.text == "any"
      modifies this, s
      ensures Parses(ParseType(old(Ahead())), dt)
    {
      hide Tokenize, MarksAt, CommentsIn, Behind, Accounted, TakenBehind, Kept, Valid, Ahead, IsKeyword,
        ParseStruct, ParseMap, ParsePointer, ParseBrackets, ParseElems, ParseElem, ParseElemBody, ParseNames,
        S.Scanner.Valid;
      LookAhead();
      var ok := Step();
      dt := if ok then Some(AnyType) else None;
    }

    method ParseInterfaceDataType() returns (dt: Option<DataType>)
      requires Ready() && peekTok.text != "any" && peekTok.kind == ANY
      modifies this, s
      ensures Parses(ParseType(old(Ahead())), dt)
    {
      hide Tokenize, MarksAt, CommentsIn, Behind, Accounted, TakenBehind, Kept, Valid, Ahead, IsKeyword,
        ParseStruct, ParseMap, ParsePointer, ParseBrackets, ParseElems, ParseElem, ParseElemBody, ParseNames,
        S.Scanner.Valid;
      LookAhead();
      var ok := Step();
      dt := if ok then Some(InterfaceType) else None;
    }

    method ParseBaseDataType() returns (dt: Option<DataType>)
      requires Ready() && peekTok.kind == IDENT && peekTok.text != "any" && peekTok.text != "map"
      modifies this, s
      ensures Parses(ParseType(old(Ahead())), dt)
    {
      hide Tokenize, MarksAt, CommentsIn, Behind, Accounted, TakenBehind, Kept, Valid, Ahead, IsKeyword,
        ParseStruct, ParseMap, ParsePointer, ParseBrackets, ParseElems, ParseElem, ParseElemBody, ParseNames,
        S.Scanner.Valid;
      LookAhead();
      var ok := Step();
      if !ok {
        return None;
      }
      var keyword := CurTokenIsKeyword();
      dt := if keyword then None else Some(BaseType(CurText()));
    }

    method ParseBracketDataType() returns (dt: Option<DataType>)
      requires Ready() && peekTok.kind == LBRACK && peekTok.text != "any"
      modifies this, s
      ensures Parses(ParseType(old(Ahead())), dt)
      decreases |Ahead()|, 3
    {
      hide Tokenize, MarksAt, CommentsIn, Behind, Accounted, TakenBehind, Kept, Valid, Ahead, IsKeyword,
        ParseStruct, ParseMap, ParsePointer, ParseBrackets, ParseElems, ParseElem, ParseElemBody, ParseNames,
        S.Scanner.Valid;
      LookAhead();
      var ok := Step();
      if !ok {
        return None;
      }
      dt := ParseAfterBracket();
    }

    /** After `[`: decides between a slice and an array. */
    method ParseAfterBracket() returns (dt: Option<DataType>)
      requires Ready()
      modifies this, s
      ensures Parses(ParseBrackets(old(Ahead())), dt)
      decreases |Ahead()|, 2
    {
      hide Tokenize, MarksAt, CommentsIn, Behind, Accounted, TakenBehind, Kept, Valid, Ahead, IsKeyword,
        ParseType, ParseStruct, ParseMap, ParsePointer, ParseElems, ParseElem, ParseElemBody, ParseNames,
        S.Scanner.Valid;
      LookAhead();
      if peekTok.kind == RBRACK {
        dt := ParseSliceDataType();
      } else if peekTok.kind == INT || peekTok.kind == ELLIPSIS {
        dt := ParseArrayDataType();
      } else {
        var fits := ExpectPeekToken({RBRACK, INT, ELLIPSIS});
        dt := None;
      }
    }

    method ParseSliceDataType() returns (dt: Option<DataType>)
      requires Ready() && peekTok.kind == RBRACK
      modifies this, s
      ensures Parses(ParseBrackets(old(Ahead())), dt)
      decreases |Ahead()|, 1
    {
      hide Tokenize, MarksAt, CommentsIn, Behind, Accounted, TakenBehind, Kept, Valid, Ahead, IsKeyword,
        ParseType, ParseStruct, ParseMap, ParsePointer, ParseElems, ParseElem, ParseElemBody, ParseNames,
        S.Scanner.Valid;
      LookAhead();
      var ok := AdvanceIfPeekTokenIs({RBRACK});
      if !ok {
        return None;
      }
      var elem := ParseDataType();
      dt := match elem case None => None case Some(t) => Some(SliceType(t));
    }

    method ParseArrayDataType() returns (dt: Option<DataType>)
      requires Ready() && (peekTok.kind == INT || peekTok.kind == ELLIPSIS)
      modifies this, s
      ensures Parses(ParseBrackets(old(Ahead())), dt)
      decreases |Ahead()|, 1
    {
      hide Tokenize, MarksAt, CommentsIn, Behind, Accounted, TakenBehind, Kept, Valid, Ahead, IsKeyword,
        ParseType, ParseStruct, ParseMap, ParsePointer, ParseElems, ParseElem, ParseElemBody, ParseNames,
        S.Scanner.Valid;
      LookAhead();
      var ok := Step();
      if !ok {
        return None;
      }
      var length := if curTok.kind == INT then Fixed(CurText()) else Dynamic;
      ok := AdvanceIfPeekTokenIs({RBRACK});
      if !ok {
        return None;
      }
      var elem := ParseDataType();
      dt := match elem case None => None case Some(t) => Some(ArrayType(length, t));
    }

    method ParseMapDataType() returns (dt: Option<DataType>)
      requires Ready() && peekTok.kind == IDENT && peekTok.text == "map"
      modifies this, s
      ensures Parses(ParseType(old(Ahead())), dt)
      decreases |Ahead()|, 3
    {
      hide Tokenize, MarksAt, CommentsIn, Behind, Accounted, TakenBehind, Kept, Valid, Ahead, IsKeyword,
        ParseStruct, ParseMap, ParsePointer, ParseBrackets, ParseElems, ParseElem, ParseElemBody, ParseNames,
        S.Scanner.Valid;
      LookAhead();
      var ok := Step();
      if !ok {
        return None;
      }
      dt := ParseAfterMap();
    }

    /** After `map`: the key in brackets, and the value. */
    method ParseAfterMap() returns (dt: Option<DataType>)
      requires Ready()
      modifies this, s
      ensures Parses(ParseMap(old(Ahead())), dt)
      decreases |Ahead()|, 2
    {
      hide Tokenize, MarksAt, CommentsIn, Behind, Accounted, TakenBehind, Kept, Valid, Ahead, IsKeyword,
        ParseType, ParseStruct, ParsePointer, ParseBrackets, ParseElems, ParseElem, ParseElemBody, ParseNames,
        S.Scanner.Valid;
      var ok := AdvanceIfPeekTokenIs({LBRACK});
      if !ok {
        return None;
      }
      var key := ParseDataType();
      if key.None? {
        return None;
      }
      ok := AdvanceIfPeekTokenIs({RBRACK});
      if !ok {
        return None;
      }
      var value := ParseDataType();
      dt := match value case None => None case Some(t) => Some(MapType(key.value, t));
    }

    method ParsePointerDataType() returns (dt: Option<DataType>)
      requires Ready() && peekTok.kind == MUL && peekTok.text != "any"
      modifies this, s
      ensures Parses(ParseType(old(Ahead())), dt)
      decreases |Ahead()|, 3
    {
      hide Tokenize, MarksAt, CommentsIn, Behind, Accounted, TakenBehind, Kept, Valid, Ahead, IsKeyword,
        ParseStruct, ParseMap, ParsePointer, ParseBrackets, ParseElems, ParseElem, ParseElemBody, ParseNames,
        S.Scanner.Valid;
      LookAhead();
      var ok := Step();
      if !ok {
        return None;
      }
      dt := ParseAfterStar();
    }

    /** After `*`: the type pointed to. */
    method ParseAfterStar() returns (dt: Option<DataType>)
      requires Ready()
      modifies this, s
      ensures Parses(ParsePointer(old(Ahead())), dt)
      decreases |Ahead()|, 5
    {
      hide Tokenize, MarksAt, CommentsIn, Behind, Accounted, TakenBehind, Kept, Valid, Ahead, IsKeyword,
        ParseType, ParseStruct, ParseMap, ParseBrackets, ParseElems, ParseElem, ParseElemBody, ParseNames,
        S.Scanner.Valid;
      var fits := ExpectPeekToken({IDENT, LBRACK, ANY, MUL});
      if !fits {
        return None;
      }
      var elem := ParseDataType();
      dt := match elem case None => None case Some(t) => Some(PointerType(t));
    }

    method ParseStructDataType() returns (dt: Option<DataType>)
      requires Ready() && peekTok.kind == LBRACE && peekTok.text != "any"
      modifies this, s
      ensures Parses(ParseType(old(Ahead())), dt)
      decreases |Ahead()|, 3
    {
      hide Tokenize, MarksAt, CommentsIn, Behind, Accounted, TakenBehind, Kept, Valid, Ahead, IsKeyword,
        ParseStruct, ParseMap, ParsePointer, ParseBrackets, ParseElems, ParseElem, ParseElemBody, ParseNames,
        S.Scanner.Valid;
      LookAhead();
      var ok := Step();
      if !ok {
        return None;
      }
      dt := ParseAfterBrace();
    }

    /** After `{`: the elements and the closing brace. */
    method ParseAfterBrace() returns (dt: Option<DataType>)
      requires Ready()
      modifies this, s
      ensures Parses(ParseStruct(old(Ahead())), dt)
      decreases |Ahead()|, 4
    {
      hide Tokenize, MarksAt, CommentsIn, Behind, Accounted, TakenBehind, Kept, Valid, Ahead, IsKeyword,
        ParseType, ParseMap, ParsePointer, ParseBrackets, ParseElems, ParseElem, ParseElemBody, ParseNames,
        S.Scanner.Valid;
      var fits := ExpectPeekToken({IDENT, MUL, RBRACE});
      if !fits {
        return None;
      }
      var elems := ParseElemExprList();
      if elems.None? {
        return None;
      }
      var ok := AdvanceIfPeekTokenIs({RBRACE});
      dt := if ok then Some(StructType(elems.value)) else None;
    }

    method ParseElemExprList() returns (list: Option<seq<Elem>>)
      requires Ready()
      modifies this, s
      ensures Parses(ParseElems(old(Ahead())), list)
      decreases |Ahead()|, 3
    {
      hide Tokenize, MarksAt, CommentsIn, Behind, Accounted, TakenBehind, Kept, Valid, Ahead, IsKeyword,
        ParseType, ParseStruct, ParseMap, ParsePointer, ParseBrackets, ParseElems, ParseElem, ParseElemBody,
        ParseNames, S.Scanner.Valid;
      var elems := [];
      LookAhead();
      PrependNone(ParseElems(Ahead()));
      while peekTok.kind != RBRACE && peekTok.kind != EOF
        invariant GoesOn(old(Kept()), old(errors))
        invariant Ahead() != [] && Peek(Ahead()) == peekTok.kind && |Ahead()| <= |old(Ahead())|
        invariant ParseElems(old(Ahead())) == Prepend(elems, ParseElems(Ahead()))
        decreases |Ahead()|
      {
        ElemsUnfold(Ahead());
        var fits := ExpectPeekToken({IDENT, MUL, RBRACE});
        if !fits {
          return None;
        }
        var e := ParseElemExpr();
        if e.None? {
          return None;
        }
        PrependOne(elems, e.value, ParseElems(Ahead()));
        elems := elems + [e.value];
        fits := ExpectPeekToken({IDENT, MUL, RBRACE});
        if !fits {
          return None;
        }
        LookAhead();
      }
      ElemsUnfold(Ahead());
      assert elems + [] == elems;
      list := Some(elems);
    }

    method ParseElemExpr() returns (e: Option<Elem>)
      requires Ready()
      modifies this, s
      ensures Parses(ParseElem(old(Ahead())), e)
      decreases |Ahead()|, 2
    {
      hide Tokenize, MarksAt, CommentsIn, Behind, Accounted, TakenBehind, Kept, Valid, Ahead, IsKeyword,
        ParseType, ParseStruct, ParseMap, ParsePointer, ParseBrackets, ParseElems, ParseElemBody, ParseNames,
        S.Scanner.Valid, CursorOk;
      LookAhead();
      var ok := AdvanceIfPeekTokenIs({IDENT, MUL});
      if !ok {
        return None;
      }
      var keyword := CurTokenIsKeyword();
      if keyword {
        return None;
      }
      ghost var ms := old(Ahead());
      var body := ParseElemRest(ms);
      if body.None? {
        return None;
      }
      var tag := ParseTag();
      if tag.None? {
        return None;
      }
      e := Some(Elem(body.value.0, body.value.1, tag.value));
    }

    /** The tag behind an element, or none before what may follow one. */
    static function TagSpec(ms: seq<Mark>): Parsed<Option<string>> {
      if Peek(ms) !in {RAW_STRING, MUL, IDENT, RBRACE} then Fail
      else if Peek(ms) != RAW_STRING then Ok(None, ms)
      else if !CanAdvance(ms) then Fail
      else Ok(Some(PeekText(ms)), ms[1..])
    }

    method ParseTag() returns (tag: Option<Option<string>>)
      requires Ready()
      modifies this, s
      ensures Parses(TagSpec(old(Ahead())), tag)
    {
      hide Tokenize, MarksAt, CommentsIn, Behind, Accounted, TakenBehind, Kept, Valid, Ahead, S.Scanner.Valid, CursorOk;
      LookAhead();
      var fits := ExpectPeekToken({RAW_STRING, MUL, IDENT, RBRACE});
      if !fits {
        return None;
      }
      if peekTok.kind != RAW_STRING {
        return Some(None);
      }
      var ok := Step();
      tag := if ok then Some(Some(CurText())) else None;
    }

    /** The names and the type of an element whose first token, mark `ms[0]`, is the current one. */
    method ParseElemRest(ghost ms: seq<Mark>) returns (body: Option<(seq<string>, DataType)>)
      requires Ready() && CanAdvance(ms) && Ahead() == ms[1..]
      requires (curTok.kind == IDENT || curTok.kind == MUL) && curTok.kind == Peek(ms) && curTok.text == PeekText(ms)
      modifies this, s
      ensures Parses(ParseElemBody(ms), body)
      decreases |ms|, 1
    {
      hide Tokenize, MarksAt, CommentsIn, Behind, Accounted, TakenBehind, Kept, Valid, Ahead, IsKeyword,
        ParseType, ParseStruct, ParseMap, ParsePointer, ParseBrackets, ParseElems, ParseElem, ParseNames,
        S.Scanner.Valid;
      LookAhead();
      if curTok.kind == MUL {
        var ok := AdvanceIfPeekTokenIs({IDENT});
        body := if ok then Some(([], PointerType(NameType(CurText())))) else None;
      } else if peekTok.position.line > curTok.position.line || peekTok.kind == RAW_STRING {
        body := Some(([], NameType(CurText())));
      } else {
        body := ParseField(ms);
      }
    }

    /** The further names and the type of an element that is not anonymous. */
    method ParseField(ghost ms: seq<Mark>) returns (body: Option<(seq<string>, DataType)>)
      requires Ready() && CanAdvance(ms) && Ahead() == ms[1..]
      requires curTok.kind == IDENT == Peek(ms) && curTok.text == PeekText(ms)
      requires !(peekTok.position.line > curTok.position.line || peekTok.kind == RAW_STRING)
      modifies this, s
      ensures Parses(ParseElemBody(ms), body)
      decreases |ms|, 0
    {
      hide Tokenize, MarksAt, CommentsIn, Behind, Accounted, TakenBehind, Kept, Valid, Ahead, IsKeyword,
        ParseType, ParseStruct, ParseMap, ParsePointer, ParseBrackets, ParseElems, ParseElem, ParseNames,
        S.Scanner.Valid;
      LookAhead();
      var name := CurText();
      var fits := ExpectPeekToken({COMMA, IDENT, LBRACK, ANY, MUL, LBRACE});
      if !fits {
        return None;
      }
      var names := ParseFurtherNames();
      if names.None? {
        return None;
      }
      var tp := ParseDataType();
      body := match tp case None => None case Some(t) => Some(([name] + names.value, t));
    }

    /** The names after the first one, each after a comma. */
    method ParseFurtherNames() returns (list: Option<seq<string>>)
      requires Ready()
      modifies this, s
      ensures Parses(ParseNames(old(Ahead())), list)
    {
      hide Tokenize, MarksAt, CommentsIn, Behind, Accounted, TakenBehind, Kept, Valid, Ahead, IsKeyword,
        ParseType, ParseStruct, ParseMap, ParsePointer, ParseBrackets, ParseElems, ParseElem, ParseElemBody,
        ParseNames, S.Scanner.Valid;
      var names := [];
      LookAhead();
      PrependNone(ParseNames(Ahead()));
      while peekTok.kind == COMMA
        invariant GoesOn(old(Kept()), old(errors))
        invariant Ahead() != [] && Peek(Ahead()) == peekTok.kind && |Ahead()| <= |old(Ahead())|
        invariant ParseNames(old(Ahead())) == Prepend(names, ParseNames(Ahead()))
        decreases |Ahead()|
      {
        NamesUnfold(Ahead());
        var ok := Step();
        if !ok {
          return None;
        }
        LookAhead();
        ok := AdvanceIfPeekTokenIs({IDENT});
        if !ok {
          return None;
        }
        var keyword := CurTokenIsKeyword();
        if keyword {
          return None;
        }
        PrependOne(names, CurText(), ParseNames(Ahead()));
        names := names + [CurText()];
        LookAhead();
      }
      NamesUnfold(Ahead());
      assert names + [] == names;
      list := Some(names);
    }

    // ---- paths -----------------------------------------------------------------------------------

    /** As `Parses`, for tokens that match those the specification reads. */
    twostate predicate Collects(new spec: Parsed<seq<Mark>>, new r: Option<seq<Token>>)
      requires old(Valid())
      reads this, s
    {
      && Valid()
      && match spec
         case Fail => r.None? && errors > old(errors)
         case Ok(marks, rest) =>
           r.Some? && Match(r.value, marks) && Ahead() == rest && GoesOn(old(Kept()), old(errors))
    }

    method NoteError()
      requires Valid()
      modifies this`errors
      ensures Valid() && errors == old(errors) + 1
    {
      hide Tokenize, MarksAt, CommentsIn, Behind, Accounted, TakenBehind, Kept, Valid, Ahead, S.Scanner.Valid;
      errors := errors + 1;
    }

    /** Does the next token end a path? */
    predicate PeekEndsPath()
      reads this
    {
      peekTok.kind in {LPAREN, AT_DOC, AT_HANDLER, SEMICOLON, RBRACE} || peekTok.text == "returns"
    }

    /** Records an error unless the next token ends a path or is a slash. */
    method ExpectPathGoesOn() returns (ok: bool)
      requires Ready()
      modifies this`errors
      ensures Ahead() == old(Ahead()) && ok == (EndsPath(Ahead()) || Peek(Ahead()) == QUO)
      ensures GoesOn(old(Kept()), old(errors) + if ok then 0 else 1)
    {
      hide Tokenize, MarksAt, CommentsIn, Behind, Accounted, TakenBehind, Kept, Valid, Ahead, S.Scanner.Valid;
      LookAhead();
      ok := PeekEndsPath() || peekTok.kind == QUO;
      if !ok {
        errors := errors + 1;
      }
    }

    /** Records an error if a comment stands behind the current token. */
    method ExpectNoComment() returns (ok: bool)
      requires Ready()
      modifies this`errors
      ensures Ahead() == old(Ahead()) && ok == !CurNoted()
      ensures GoesOn(old(Kept()), old(errors) + if ok then 0 else 1)
    {
      hide Tokenize, MarksAt, CommentsIn, Behind, Accounted, Kept, Ahead, S.Scanner.Valid;
      ok := node[curTok].leading == [];
      if !ok {
        errors := errors + 1;
      }
    }

    /** An identifier or a number, and the identifiers that follow it, each maybe after a dash. */
    method ParsePathItem() returns (list: Option<seq<Token>>)
      requires Ready()
      modifies this, s
      ensures Collects(ParseItem(old(Ahead())), list)
    {
      hide Tokenize, MarksAt, CommentsIn, Behind, Accounted, TakenBehind, Kept, Valid, Ahead, ParseItemRest,
        ItemRound, S.Scanner.Valid;
      ghost var start := Ahead();
      LookAhead();
      var ok := AdvanceIfPeekTokenIs({IDENT, INT});
      if !ok {
        return None;
      }
      var tokens := [curTok];
      ghost var done := [start[0]];
      LookAhead();
      while curTok.kind != EOF && !(PeekEndsPath() || peekTok.kind == QUO || peekTok.kind == EOF)
        invariant GoesOn(old(Kept()), old(errors))
        invariant Ahead() != [] && Peek(Ahead()) == peekTok.kind && PeekText(Ahead()) == peekTok.text
        invariant Match(tokens, done) && ParseItem(start) == Prepend(done, ParseItemRest(Ahead()))
        decreases |Ahead()|
      {
        ghost var round := ItemRound(Ahead());
        ItemUnfold(Ahead());
        var more := ParsePathItemRound();
        if more.None? {
          return None;
        }
        PrependMany(done, round.value, ParseItemRest(Ahead()));
        MatchMore(tokens, done, more.value, round.value);
        tokens, done := tokens + more.value, done + round.value;
        LookAhead();
      }
      ItemUnfold(Ahead());
      assert done + [] == done;
      list := Some(tokens);
    }

    method ParsePathItemRound() returns (list: Option<seq<Token>>)
      requires Ready()
      modifies this, s
      ensures Collects(ItemRound(old(Ahead())), list)
    {
      hide Tokenize, MarksAt, CommentsIn, Behind, Accounted, TakenBehind, Kept, Valid, Ahead,
        S.Scanner.Valid;
      LookAhead();
      var tokens := [];
      if peekTok.kind == SUB {
        var ok := Step();
        if !ok {
          return None;
        }
        tokens := [curTok];
        LookAhead();
      }
      var ok := AdvanceIfPeekTokenIs({IDENT});
      list := if ok then Some(tokens + [curTok]) else None;
    }

    /** After a slash: maybe a colon, and an item. */
    method ParsePathSegment() returns (list: Option<seq<Token>>)
      requires Ready()
      modifies this, s
      ensures Collects(ParseSegment(old(Ahead())), list)
    {
      hide Tokenize, MarksAt, CommentsIn, Behind, Accounted, TakenBehind, Kept, Valid, Ahead, ParseItem, Match,
        S.Scanner.Valid;
      ghost var ms := Ahead();
      LookAhead();
      if peekTok.kind != COLON {
        list := ParsePathItem();
      } else {
        var ok := Step();
        if !ok {
          return None;
        }
        var colon := curTok;
        var item := ParsePathItem();
        if item.None? {
          return None;
        }
        MatchOne(colon, ms[0]);
        MatchMore([colon], [ms[0]], item.value, ParseItem(ms[1..]).value);
        list := Some([colon] + item.value);
      }
    }

    /** The tokens of a path, up to one that ends it. */
    method ParsePathTokens() returns (values: Option<seq<Token>>)
      requires Ready()
      modifies this, s
      ensures Collects(ParsePath(old(Ahead())), values)
      ensures values.Some? && values.value != [] ==> values.value[0] == old(peekTok)
    {
      hide Tokenize, MarksAt, CommentsIn, Behind, Accounted, TakenBehind, Kept, Valid, Ahead, PathRound,
        ParsePath, S.Scanner.Valid;
      ghost var start := Ahead();
      var tokens := [];
      ghost var done := [];
      LookAhead();
      PrependNone(ParsePath(start));
      while curTok.kind != EOF && !PeekEndsPath()
        invariant GoesOn(old(Kept()), old(errors))
        invariant Ahead() != [] && Peek(Ahead()) == peekTok.kind && PeekText(Ahead()) == peekTok.text
        invariant if tokens == [] then peekTok == old(peekTok) else tokens[0] == old(peekTok)
        invariant Match(tokens, done) && ParsePath(start) == Prepend(done, ParsePath(Ahead()))
        decreases |Ahead()|
      {
        ghost var round := PathRound(Ahead());
        PathUnfold(Ahead());
        var more := ParsePathRound();
        if more.None? {
          return None;
        }
        PrependMany(done, round.value, ParsePath(Ahead()));
        MatchMore(tokens, done, more.value, round.value);
        tokens, done := tokens + more.value, done + round.value;
        LookAhead();
      }
      PathUnfold(Ahead());
      assert done + [] == done;
      values := Some(tokens);
    }

    /** A slash and, unless the path ends with it, a segment. */
    method ParsePathRound() returns (list: Option<seq<Token>>)
      requires Ready()
      modifies this, s
      ensures Collects(PathRound(old(Ahead())), list)
      ensures list.Some? ==> list.value != [] && list.value[0] == old(peekTok)
    {
      hide Tokenize, MarksAt, CommentsIn, Behind, Accounted, TakenBehind, Kept, Valid, Ahead, ParseSegment,
        AfterSlash, Match, S.Scanner.Valid;
      ghost var ms := Ahead();
      LookAhead();
      var ok := AdvanceIfPeekTokenIs({QUO});
      if !ok {
        return None;
      }
      var slash := curTok;
      MatchOne(slash, ms[0]);
      LookAhead();
      if PeekEndsPath() {
        return Some([slash]);
      }
      ok := ExpectNoComment();
      if !ok {
        return None;
      }
      var segment := ParsePathAfterSlash();
      if segment.None? {
        return None;
      }
      MatchMore([slash], [ms[0]], segment.value, AfterSlash(ms[1..]).value);
      list := Some([slash] + segment.value);
    }

    method ParsePathAfterSlash() returns (list: Option<seq<Token>>)
      requires Ready()
      modifies this, s
      ensures Collects(AfterSlash(old(Ahead())), list)
    {
      hide Tokenize, MarksAt, CommentsIn, Behind, Accounted, TakenBehind, Kept, Valid, Ahead, ParseSegment,
        EndsPath, Match, S.Scanner.Valid;
      SegmentStarts(Ahead());
      var ok := ExpectPeekToken({COLON, IDENT, INT});
      if !ok {
        return None;
      }
      list := ParsePathSegment();
      if list.Some? {
        ok := ExpectPathGoesOn();
        if !ok {
          list := None;
        }
      }
    }

    /**
     A path: its text is the texts of exactly the tokens it consists of. A path without tokens, on which the source
     panics, is an error like the others.
     */
    method ParsePathExpr() returns (path: Option<Token>)
      requires Ready()
      modifies this, s
      ensures Valid() && (path.Some? <==> ParsePath(old(Ahead())).Ok? && ParsePath(old(Ahead())).value != [])
      ensures path.Some? ==>
                var spec := ParsePath(old(Ahead()));
                && Ahead() == spec.rest && GoesOn(old(Kept()), old(errors))
                && path.value == Token(PATH, Texts(spec.value), old(peekTok).position)
      ensures path.None? ==> errors > old(errors)
    {
      hide Tokenize, MarksAt, CommentsIn, Behind, Accounted, TakenBehind, Kept, Valid, Ahead, ParsePath,
        S.Scanner.Valid;
      ghost var taken := ParsePath(Ahead());
      PathUnfold(Ahead());
      var values := ParsePathTokens();
      if values.None? {
        return None;
      }
      if |values.value| == 0 {
        NoteError();
        return None;
      }
      var text := JoinTexts(values.value, taken.value);
      path := Some(Token(PATH, text, values.value[0].position));
    }

    // ---- statements ------------------------------------------------------------------------------

    method AdvanceIfPeekTextIs(texts: set<string>) returns (ok: bool)
      requires Ready() && forall text <- texts :: |text| > 1
      modifies this, s
      ensures ok == (PeekText(old(Ahead())) in texts && CanAdvance(old(Ahead()))) && old(Ahead()) != []
      ensures if ok then GoesOn(old(Kept()), old(errors)) && Ahead() == old(Ahead())[1..] && curTok == old(peekTok)
              else Valid() && errors > old(errors)
    {
      hide Tokenize, MarksAt, CommentsIn, Behind, Accounted, TakenBehind, Kept, S.Scanner.Valid;
      LookAhead();
      ok := peekTok.text in texts;
      if ok {
        ok := Step();
      } else {
        errors := errors + 1;
      }
    }

    /** The text of the next token, if it is of an expected kind. */
    method TakeText(expected: set<Kind>) returns (r: Option<string>)
      requires Ready() && expected !! {EOF, ILLEGAL, ERROR}
      modifies this, s
      ensures Parses(OneOf(old(Ahead()), expected), r) && (r.Some? ==> curTok.text == r.value)
    {
      hide Tokenize, MarksAt, CommentsIn, Behind, Accounted, TakenBehind, Kept, Valid, Ahead, S.Scanner.Valid;
      LookAhead();
      var ok := AdvanceIfPeekTokenIs(expected);
      r := if ok then Some(CurText()) else None;
    }

    /** The text of the next token, if it is an expected word. */
    method TakeTextOf(words: set<string>) returns (r: Option<string>)
      requires Ready() && forall word <- words :: |word| > 1
      modifies this, s
      ensures Parses(OneWord(old(Ahead()), words), r)
    {
      hide Tokenize, MarksAt, CommentsIn, Behind, Accounted, TakenBehind, Kept, Valid, Ahead, S.Scanner.Valid;
      LookAhead();
      var ok := AdvanceIfPeekTextIs(words);
      r := if ok then Some(CurText()) else None;
    }

    method ParseSyntaxStmt() returns (value: Option<string>)
      requires Ready()
      modifies this, s
      ensures Parses(ParseSyntax(old(Ahead())), value)
    {
      hide Tokenize, MarksAt, CommentsIn, Behind, Accounted, TakenBehind, Kept, Valid, Ahead, S.Scanner.Valid,
        OneOf;
      value := TakeText({ASSIGN});
      if value.Some? {
        value := TakeText({STRING});
      }
    }

    /** A string, or strings in parentheses. */
    method ParseImportStmt() returns (imports: Option<Imports>)
      requires Ready()
      modifies this, s
      ensures Parses(ParseImport(old(Ahead())), imports)
    {
      hide Tokenize, MarksAt, CommentsIn, Behind, Accounted, TakenBehind, Kept, Valid, Ahead, S.Scanner.Valid,
        OneOf, ParseStrings;
      LookAhead();
      if peekTok.kind != LPAREN {
        var value := TakeText({STRING});
        return if value.Some? then Some(OneImport(value.value)) else None;
      }
      var open := TakeText({LPAREN});
      if open.None? {
        return None;
      }
      var values := ParseImportGroup();
      if values.None? {
        return None;
      }
      var close := TakeText({RPAREN});
      imports := if close.Some? then Some(ManyImports(values.value)) else None;
    }

    method ParseImportGroup() returns (list: Option<seq<string>>)
      requires Ready()
      modifies this, s
      ensures Parses(ParseStrings(old(Ahead())), list)
    {
      hide Tokenize, MarksAt, CommentsIn, Behind, Accounted, TakenBehind, Kept, Valid, Ahead, S.Scanner.Valid,
        OneOf, ParseStrings;
      var values := [];
      LookAhead();
      PrependNone(ParseStrings(Ahead()));
      while curTok.kind != EOF && peekTok.kind != RPAREN
        invariant GoesOn(old(Kept()), old(errors))
        invariant Ahead() != [] && Peek(Ahead()) == peekTok.kind
        invariant ParseStrings(old(Ahead())) == Prepend(values, ParseStrings(Ahead()))
        decreases |Ahead()|
      {
        StringsUnfold(Ahead());
        var value := TakeText({STRING});
        if value.None? {
          return None;
        }
        PrependOne(values, value.value, ParseStrings(Ahead()));
        values := values + [value.value];
        var fits := ExpectPeekToken({RPAREN, STRING});
        if !fits {
          return None;
        }
        LookAhead();
      }
      StringsUnfold(Ahead());
      assert values + [] == values;
      list := Some(values);
    }

    // ---- keys and values -------------------------------------------------------------------------

    /** A sign, an identifier and, for a path, maybe a dash and another one. */
    method TakePart(sign: Kind, dashed: bool) returns (r: Option<string>)
      requires Ready() && sign !in {EOF, ILLEGAL, ERROR}
      modifies this, s
      ensures Parses(ParsePart(old(Ahead()), sign, dashed), r)
      decreases dashed
    {
      hide Tokenize, MarksAt, CommentsIn, Behind, Accounted, TakenBehind, Kept, Valid, Ahead, S.Scanner.Valid,
        OneOf, ParsePart;
      ghost var ms := Ahead();
      PartUnfold(ms, sign, dashed);
      var first := TakeText({sign});
      if first.None? {
        return None;
      }
      var id := TakeText({IDENT});
      if id.None? {
        return None;
      }
      r := Some(first.value + id.value);
      LookAhead();
      if dashed && peekTok.kind == SUB {
        var more := TakePart(SUB, false);
        r := if more.Some? then Some(r.value + more.value) else None;
      }
    }

    /** Further parts of a text, each after the sign. */
    method TakeParts(text: string, sign: Kind, dashed: bool) returns (r: Option<string>)
      requires Ready() && sign !in {EOF, ILLEGAL, ERROR}
      modifies this, s
      ensures Parses(Then(text, ParseParts(old(Ahead()), sign, dashed)), r)
    {
      hide Tokenize, MarksAt, CommentsIn, Behind, Accounted, TakenBehind, Kept, Valid, Ahead, S.Scanner.Valid,
        ParsePart, ParseParts;
      var value := text;
      ghost var start := Ahead();
      LookAhead();
      while peekTok.kind == sign
        invariant GoesOn(old(Kept()), old(errors))
        invariant Ahead() != [] && Peek(Ahead()) == peekTok.kind
        invariant Then(text, ParseParts(start, sign, dashed)) == Then(value, ParseParts(Ahead(), sign, dashed))
        decreases |Ahead()|
      {
        PartsUnfold(Ahead(), sign, dashed);
        var part := TakePart(sign, dashed);
        if part.None? {
          return None;
        }
        ThenThen(value, part.value, ParseParts(Ahead(), sign, dashed));
        value := value + part.value;
        LookAhead();
      }
      PartsUnfold(Ahead(), sign, dashed);
      assert value + "" == value;
      r := Some(value);
    }

    /** The value of an `@server` key: a path, a list, a dashed word, a duration, a number or, for a summary, text. */
    method ParseAtServerValue(key: string) returns (value: Option<string>)
      requires Ready()
      modifies this, s
      ensures Parses(ParseServerValue(key, old(Ahead())), value)
    {
      hide Tokenize, MarksAt, CommentsIn, Behind, Accounted, TakenBehind, Kept, Valid, Ahead, S.Scanner.Valid,
        OneOf, ParsePart, ParseParts;
      LookAhead();
      OneOfFails(Ahead(), {IDENT});
      var ok := ExpectPeekToken({QUO, DURATION, IDENT, INT, STRING});
      if !ok {
        return None;
      }
      if peekTok.kind == DURATION || peekTok.kind == INT {
        value := TakeText({DURATION, INT});
      } else if peekTok.kind == STRING {
        if key != "summary:" {
          ok := ExpectPeekToken({QUO, DURATION, IDENT, INT});
          return None;
        }
        value := TakeText({STRING});
      } else if peekTok.kind == QUO {
        value := TakePart(QUO, true);
        if value.Some? {
          value := TakeParts(value.value, QUO, true);
        }
      } else {
        value := ParseWordValue();
      }
    }

    /** A word, a list, a dashed word or a path that begins with a word. */
    method ParseWordValue() returns (value: Option<string>)
      requires Ready()
      modifies this, s
      ensures Parses(WordValue(old(Ahead())), value)
    {
      hide Tokenize, MarksAt, CommentsIn, Behind, Accounted, TakenBehind, Kept, Valid, Ahead, S.Scanner.Valid,
        OneOf, ParseParts;
      value := TakeText({IDENT});
      if value.None? {
        return;
      }
      LookAhead();
      if peekTok.kind == COMMA || peekTok.kind == SUB {
        value := TakeParts(value.value, peekTok.kind, false);
      } else {
        value := TakeParts(value.value, QUO, true);
      }
    }

    method ParseKVExpression(server: bool) returns (kv: Option<KV>)
      requires Ready()
      modifies this, s
      ensures Parses(ParseKV(old(Ahead()), server), kv)
    {
      hide Tokenize, MarksAt, CommentsIn, Behind, Accounted, TakenBehind, Kept, Valid, Ahead, S.Scanner.Valid,
        OneOf, ParseServerValue;
      var key := TakeText(if server then {KEY, RPAREN} else {KEY});
      if key.None? {
        return None;
      }
      var value;
      if server {
        value := ParseAtServerValue(key.value);
      } else {
        value := TakeText({STRING});
      }
      kv := if value.Some? then Some(KV(key.value, value.value)) else None;
    }

    method ParseKVList(server: bool) returns (list: Option<seq<KV>>)
      requires Ready()
      modifies this, s
      ensures Parses(ParseKVs(old(Ahead()), server), list)
    {
      hide Tokenize, MarksAt, CommentsIn, Behind, Accounted, TakenBehind, Kept, Valid, Ahead, S.Scanner.Valid,
        ParseKV, ParseKVs;
      var values := [];
      LookAhead();
      PrependNone(ParseKVs(Ahead(), server));
      while curTok.kind != EOF && peekTok.kind != RPAREN
        invariant GoesOn(old(Kept()), old(errors))
        invariant Ahead() != [] && Peek(Ahead()) == peekTok.kind
        invariant ParseKVs(old(Ahead()), server) == Prepend(values, ParseKVs(Ahead(), server))
        decreases |Ahead()|
      {
        KVsUnfold(Ahead(), server);
        var kv := ParseKVExpression(server);
        if kv.None? {
          return None;
        }
        PrependOne(values, kv.value, ParseKVs(Ahead(), server));
        values := values + [kv.value];
        var fits := ExpectPeekToken({RPAREN, KEY});
        if !fits {
          return None;
        }
        LookAhead();
      }
      KVsUnfold(Ahead(), server);
      assert values + [] == values;
      list := Some(values);
    }

    /** Keys and values in parentheses. */
    method ParseKVGroup(server: bool) returns (list: Option<seq<KV>>)
      requires Ready()
      modifies this, s
      ensures Parses(StatementSpec.ParseKVGroup(old(Ahead()), server), list)
    {
      hide Tokenize, MarksAt, CommentsIn, Behind, Accounted, TakenBehind, Kept, Valid, Ahead, S.Scanner.Valid,
        OneOf, ParseKVs;
      var open := TakeText({LPAREN});
      if open.None? {
        return None;
      }
      list := ParseKVList(server);
      if list.Some? {
        var close := TakeText({RPAREN});
        if close.None? {
          list := None;
        }
      }
    }

    method ParseAtDocStmt() returns (doc: Option<Doc>)
      requires Ready()
      modifies this, s
      ensures Parses(ParseDoc(old(Ahead())), doc)
    {
      hide Tokenize, MarksAt, CommentsIn, Behind, Accounted, TakenBehind, Kept, Valid, Ahead, S.Scanner.Valid,
        OneOf, StatementSpec.ParseKVGroup;
      LookAhead();
      if peekTok.kind == LPAREN {
        var list := ParseKVGroup(false);
        doc := if list.Some? then Some(DocValues(list.value)) else None;
      } else {
        var text := TakeText({STRING});
        doc := if text.Some? then Some(DocText(text.value)) else None;
      }
    }

    // ---- type statements -------------------------------------------------------------------------

    /** One declaration. */
    method ParseTypeExpr() returns (e: Option<NamedType>)
      requires Ready()
      modifies this, s
      ensures Parses(TypeStatements.ParseTypeExpr(old(Ahead())), e)
    {
      hide Tokenize, MarksAt, CommentsIn, Behind, Accounted, TakenBehind, Kept, Valid, Ahead, S.Scanner.Valid,
        IsKeyword, ParseType;
      ghost var ms := Ahead();
      LookAhead();
      var ok := AdvanceIfPeekTokenIs({IDENT});
      if !ok {
        return None;
      }
      var keyword := CurTokenIsKeyword();
      if keyword {
        return None;
      }
      var name, assign := CurText(), false;
      LookAhead();
      if peekTok.kind == ASSIGN {
        ok := Step();
        if !ok {
          return None;
        }
        assign := true;
      }
      var tp := ParseDataType();
      e := match tp case None => None case Some(t) => Some(NamedType(name, assign, t));
    }

    /** The declarations of a group. */
    method ParseTypeExprList() returns (list: Option<seq<NamedType>>)
      requires Ready() && (peekTok.kind == IDENT || peekTok.kind == RPAREN)
      modifies this, s
      ensures Parses(ParseTypeExprs(old(Ahead())), list)
    {
      hide Tokenize, MarksAt, CommentsIn, Behind, Accounted, TakenBehind, Kept, Valid, Ahead, S.Scanner.Valid,
        TypeStatements.ParseTypeExpr, ParseTypeExprs;
      var exprs := [];
      LookAhead();
      PrependNone(ParseTypeExprs(Ahead()));
      while curTok.kind != EOF && peekTok.kind != RPAREN && peekTok.kind != EOF
        invariant GoesOn(old(Kept()), old(errors))
        invariant Ahead() != [] && Peek(Ahead()) == peekTok.kind
        invariant ParseTypeExprs(old(Ahead())) == Prepend(exprs, ParseTypeExprs(Ahead()))
        decreases |Ahead()|
      {
        ExprsUnfold(Ahead());
        var e := ParseTypeExpr();
        if e.None? {
          return None;
        }
        PrependOne(exprs, e.value, ParseTypeExprs(Ahead()));
        exprs := exprs + [e.value];
        var fits := ExpectPeekToken({IDENT, RPAREN});
        if !fits {
          return None;
        }
        LookAhead();
      }
      ExprsUnfold(Ahead());
      assert exprs + [] == exprs;
      list := Some(exprs);
    }

    /** After `type`: one declaration, or a group. */
    method ParseTypeStmt() returns (t: Option<Types>)
      requires Ready()
      modifies this, s
      ensures Parses(ParseTypes(old(Ahead())), t)
    {
      hide Tokenize, MarksAt, CommentsIn, Behind, Accounted, TakenBehind, Kept, Valid, Ahead, S.Scanner.Valid,
        TypeStatements.ParseTypeExpr, ParseGroup;
      LookAhead();
      if peekTok.kind == LPAREN {
        var ok := Step();
        if !ok {
          return None;
        }
        t := ParseTypeGroup();
      } else if peekTok.kind == IDENT {
        var e := ParseTypeExpr();
        t := match e case None => None case Some(x) => Some(Single(x));
      } else {
        var fits := ExpectPeekToken({LPAREN, IDENT});
        t := None;
      }
    }

    method ParseTypeGroup() returns (t: Option<Types>)
      requires Ready()
      modifies this, s
      ensures Parses(ParseGroup(old(Ahead())), t)
    {
      hide Tokenize, MarksAt, CommentsIn, Behind, Accounted, TakenBehind, Kept, Valid, Ahead, S.Scanner.Valid,
        ParseTypeExprs;
      LookAhead();
      var fits := ExpectPeekToken({IDENT, RPAREN});
      if !fits {
        return None;
      }
      var list := ParseTypeExprList();
      if list.None? {
        return None;
      }
      var ok := AdvanceIfPeekTokenIs({RPAREN});
      t := if ok then Some(Group(list.value)) else None;
    }

    // ---- routes ----------------------------------------------------------------------------------

    /** The name in a body, and the star before it, if there is one. */
    method ParseBodyName(list: bool) returns (body: Option<Body>)
      requires Ready()
      modifies this, s
      ensures Parses(StatementSpec.ParseBodyName(list, old(Ahead())), body)
    {
      hide Tokenize, MarksAt, CommentsIn, Behind, Accounted, TakenBehind, Kept, Valid, Ahead, S.Scanner.Valid,
        OneOf;
      LookAhead();
      var star := peekTok.kind == MUL;
      if star {
        var sign := TakeText({MUL});
        if sign.None? {
          return None;
        }
      }
      var name := TakeText({IDENT});
      body := if name.Some? then Some(Body(list, star, name.value)) else None;
    }

    method ParseBodyExpr() returns (body: Option<Body>)
      requires Ready()
      modifies this, s
      ensures Parses(StatementSpec.ParseBodyExpr(old(Ahead())), body)
    {
      hide Tokenize, MarksAt, CommentsIn, Behind, Accounted, TakenBehind, Kept, Valid, Ahead, S.Scanner.Valid,
        OneOf, StatementSpec.ParseBodyName;
      LookAhead();
      if peekTok.kind != LBRACK {
        body := ParseBodyName(false);
        return;
      }
      var open := TakeText({LBRACK});
      if open.None? {
        return None;
      }
      var close := TakeText({RBRACK});
      if close.None? {
        return None;
      }
      body := ParseBodyName(true);
    }

    method ParseBodyStmt() returns (body: Option<Option<Body>>)
      requires Ready()
      modifies this, s
      ensures Parses(ParseBody(old(Ahead())), body)
    {
      hide Tokenize, MarksAt, CommentsIn, Behind, Accounted, TakenBehind, Kept, Valid, Ahead, S.Scanner.Valid,
        OneOf, StatementSpec.ParseBodyExpr;
      var open := TakeText({LPAREN});
      if open.None? {
        return None;
      }
      LookAhead();
      var expr := None;
      if peekTok.kind != RPAREN {
        expr := ParseBodyExpr();
        if expr.None? {
          return None;
        }
      }
      var close := TakeText({RPAREN});
      body := if close.Some? then Some(expr) else None;
    }

    /** The result of a route: nothing if the scanner has failed behind it. */
    function Sound<T>(r: Option<T>): Option<T>
      reads this
    {
      if peekTok.kind == ERROR then None else r
    }

    /** A semicolon, if there is one. If the scanner fails behind it, it is for the caller to see. */
    method SkipOneSemicolon<T>(value: T) returns (r: Option<T>)
      requires Ready()
      modifies this, s
      ensures Parses(SkipSemicolon(value, old(Ahead())), Sound(r))
    {
      hide Tokenize, MarksAt, CommentsIn, Behind, Accounted, TakenBehind, Kept, Valid, Ahead, S.Scanner.Valid;
      LookAhead();
      if peekTok.kind == SEMICOLON {
        var stepped := Step();
      }
      r := Some(value);
    }

    /** The response body, if there is one, and the semicolon, if there is one. */
    method ParseReturnsStmt() returns (r: Option<Option<Option<Body>>>)
      requires Ready()
      modifies this, s
      ensures Parses(ParseReturns(old(Ahead())), Sound(r))
    {
      hide Tokenize, MarksAt, CommentsIn, Behind, Accounted, TakenBehind, Kept, Valid, Ahead, S.Scanner.Valid,
        OneWord, ParseBody, SkipSemicolon;
      LookAhead();
      if peekTok.text == "returns" {
        var word := TakeTextOf({"returns"});
        if word.None? {
          return None;
        }
        var body := ParseBodyStmt();
        if body.None? {
          return None;
        }
        r := SkipOneSemicolon(Some(body.value));
      } else {
        var fits := ExpectPeekToken({AT_DOC, AT_HANDLER, RBRACE, SEMICOLON});
        if !fits {
          return None;
        }
        r := SkipOneSemicolon(None);
      }
    }

    /** What follows the path of a route. */
    method ParseBodiesOf(verb: string, path: string) returns (r: Option<Route>)
      requires Ready()
      modifies this, s
      ensures Parses(ParseBodies(verb, path, old(Ahead())), Sound(r))
    {
      hide Tokenize, MarksAt, CommentsIn, Behind, Accounted, TakenBehind, Kept, Valid, Ahead, S.Scanner.Valid,
        ParseReturns, ParseBody, SkipSemicolon;
      LookAhead();
      if peekTok.kind in {AT_DOC, AT_HANDLER, RBRACE} {
        return Some(Route(verb, path, None, None));
      }
      if peekTok.kind == SEMICOLON {
        r := SkipOneSemicolon(Route(verb, path, None, None));
        return;
      }
      var request := None;
      if peekTok.kind == LPAREN {
        var body := ParseBodyStmt();
        if body.None? {
          return None;
        }
        request := Some(body.value);
      } else if peekTok.text != "returns" {
        NoteError();
        return None;
      }
      var response := ParseReturnsStmt();
      r := if response.Some? then Some(Route(verb, path, request, response.value)) else None;
    }

    /** A method, a path and bodies. */
    method ParseRouteStmt() returns (r: Option<Route>)
      requires Ready()
      modifies this, s
      ensures Parses(ParseRoute(old(Ahead())), Sound(r))
    {
      hide Tokenize, MarksAt, CommentsIn, Behind, Accounted, TakenBehind, Kept, Valid, Ahead, S.Scanner.Valid,
        OneWord, ParsePath, ParseBodies;
      var verb := TakeTextOf(HTTP_METHODS);
      if verb.None? {
        return None;
      }
      var path := ParsePathExpr();
      if path.None? {
        return None;
      }
      r := ParseBodiesOf(verb.value, path.value.text);
    }

    // ---- services --------------------------------------------------------------------------------

    /** A handler and its route; nothing before the end of the service. */
    method ParseHandledRoute(doc: Option<Doc>) returns (item: Option<Item>)
      requires Ready()
      modifies this, s
      ensures Parses(ParseHandled(doc, old(Ahead())), Sound(item))
    {
      hide Tokenize, MarksAt, CommentsIn, Behind, Accounted, TakenBehind, Kept, Valid, Ahead, S.Scanner.Valid,
        OneOf, ParseRoute;
      var word := TakeText({AT_HANDLER, RBRACE});
      if word.None? {
        return None;
      }
      LookAhead();
      if peekTok.kind == RBRACE {
        return Some(Item(doc, None));
      }
      var name := TakeText({IDENT});
      if name.None? {
        return None;
      }
      var route := ParseRouteStmt();
      item := if route.Some? then Some(Item(doc, Some((name.value, route.value)))) else None;
    }

    method ParseServiceItemStmt() returns (item: Option<Item>)
      requires Ready()
      modifies this, s
      ensures Parses(ParseServiceItem(old(Ahead())), Sound(item))
    {
      hide Tokenize, MarksAt, CommentsIn, Behind, Accounted, TakenBehind, Kept, Valid, Ahead, S.Scanner.Valid,
        OneOf, ParseDoc, ParseHandled;
      LookAhead();
      if peekTok.kind != AT_DOC {
        item := ParseHandledRoute(None);
        return;
      }
      var word := TakeText({AT_DOC});
      if word.None? {
        return None;
      }
      var doc := ParseAtDocStmt();
      if doc.None? {
        return None;
      }
      item := ParseHandledRoute(Some(doc.value));
    }

    method ParseServiceItemsStmt() returns (list: Option<seq<Item>>)
      requires Ready()
      modifies this, s
      ensures Parses(ParseItems(old(Ahead())), list)
    {
      hide Tokenize, MarksAt, CommentsIn, Behind, Accounted, TakenBehind, Kept, Valid, Ahead, S.Scanner.Valid,
        ParseServiceItem, ParseItems;
      var items := [];
      LookAhead();
      PrependNone(ParseItems(Ahead()));
      while curTok.kind != EOF && peekTok.kind != RBRACE
        invariant GoesOn(old(Kept()), old(errors))
        invariant Ahead() != [] && Peek(Ahead()) == peekTok.kind
        invariant ParseItems(old(Ahead())) == Prepend(items, ParseItems(Ahead()))
        decreases |Ahead()|
      {
        ItemsUnfold(Ahead());
        var item := ParseServiceItemStmt();
        if item.None? {
          return None;
        }
        if peekTok.kind == ERROR {
          NoteError();
          return None;
        }
        PrependOne(items, item.value, ParseItems(Ahead()));
        items := items + [item.value];
        LookAhead();
        if peekTok.kind !in {AT_DOC, AT_HANDLER, RBRACE} {
          NoteError();
          return None;
        }
      }
      ItemsUnfold(Ahead());
      assert items + [] == items;
      list := Some(items);
    }

    /** The name of a service, maybe with the suffix `-api`. */
    method ParseServiceNameExpr() returns (name: Option<string>)
      requires Ready()
      modifies this, s
      ensures Parses(ParseServiceName(old(curTok.text), old(Ahead())), name)
    {
      hide Tokenize, MarksAt, CommentsIn, Behind, Accounted, TakenBehind, Kept, Valid, Ahead, S.Scanner.Valid,
        OneOf, OneWord;
      var text := CurText();
      LookAhead();
      if peekTok.kind != SUB {
        return Some(text);
      }
      var dash := TakeText({SUB});
      if dash.None? {
        return None;
      }
      var api := TakeTextOf({"api"});
      name := if api.Some? then Some(text + dash.value + api.value) else None;
    }

    /** From the name on. */
    method ParseServiceBody(server: Option<seq<KV>>) returns (service: Option<Service>)
      requires Ready()
      modifies this, s
      ensures Parses(ParseNamedService(server, old(Ahead())), service)
    {
      hide Tokenize, MarksAt, CommentsIn, Behind, Accounted, TakenBehind, Kept, Valid, Ahead, S.Scanner.Valid,
        OneOf, ParseServiceName, ParseItems;
      var id := TakeText({IDENT});
      if id.None? {
        return None;
      }
      var name := ParseServiceNameExpr();
      if name.None? {
        return None;
      }
      var open := TakeText({LBRACE});
      if open.None? {
        return None;
      }
      var items := ParseServiceItemsStmt();
      if items.None? {
        return None;
      }
      var close := TakeText({RBRACE});
      service := if close.Some? then Some(Service(server, name.value, items.value)) else None;
    }

    method ParseService() returns (service: Option<Service>)
      requires Ready()
      modifies this, s
      ensures Parses(ParseServiceStmt(old(curTok).kind == AT_SERVER, old(Ahead())), service)
    {
      hide Tokenize, MarksAt, CommentsIn, Behind, Accounted, TakenBehind, Kept, Valid, Ahead, S.Scanner.Valid,
        OneWord, ParseNamedService, StatementSpec.ParseKVGroup;
      if curTok.kind != AT_SERVER {
        service := ParseServiceBody(None);
        return;
      }
      var server := ParseKVGroup(true);
      if server.None? {
        return None;
      }
      var word := TakeTextOf({"service"});
      if word.None? {
        return None;
      }
      service := ParseServiceBody(Some(server.value));
    }

    // ---- whole files -----------------------------------------------------------------------------

    method ParseStmt() returns (stmt: Option<Stmt>)
      requires Stands()
      modifies this, s
      ensures Parses(ParseStmtAfter(old(curTok).kind, old(curTok).text, old(Ahead())), stmt)
    {
      hide Tokenize, MarksAt, CommentsIn, Behind, Accounted, TakenBehind, Kept, Valid, Ahead, S.Scanner.Valid,
        ParseTypes, ParseServiceStmt, ParseSyntax, ParseImport, StatementSpec.ParseKVGroup;
      if curTok.kind == AT_SERVER || (curTok.kind == IDENT && curTok.text == "service") {
        var service := ParseService();
        stmt := match service case None => None case Some(x) => Some(ServiceStmt(x));
      } else if curTok.kind == IDENT && curTok.text == "syntax" {
        var value := ParseSyntaxStmt();
        stmt := match value case None => None case Some(v) => Some(SyntaxStmt(v));
      } else if curTok.kind == IDENT && curTok.text == "info" {
        var list := ParseKVGroup(false);
        stmt := match list case None => None case Some(l) => Some(InfoStmt(l));
      } else if curTok.kind == IDENT && curTok.text == "type" {
        var types := ParseTypeStmt();
        stmt := match types case None => None case Some(t) => Some(TypeStmt(t));
      } else if curTok.kind == IDENT && curTok.text == "import" {
        var imports := ParseImportStmt();
        stmt := match imports case None => None case Some(i) => Some(ImportStmt(i));
      } else {
        NoteError();
        stmt := None;
      }
    }

    /** Is the parser between two statements, with the token that begins the next one, and `here` from that token on? */
    ghost predicate Between(here: seq<Mark>, kept: bool, noted: nat)
      reads this, s
    {
      && Valid() && errors == noted && curTok.kind != NONE && peekTok.kind != NONE && peekTok.kind != ERROR
      && (kept ==> Conserved() && (curTok.kind == ILLEGAL || Kept()))
      && (curTok.kind == EOF ==> headCommentGroup == [] && peekTok.kind == EOF)
      && here != [] && Peek(here) == curTok.kind && PeekText(here) == curTok.text
      && (!Final(curTok.kind) ==> Ahead() == here[1..])
    }

    /** Reads the first token of the file. */
    method Begin(ghost file: seq<Mark>) returns (ok: bool)
      requires Valid() && Kept() && s.State() == START && curTok == NO_TOKEN == peekTok
      requires file == MarksAt(Tokenize(s.filename, s.data, START), 0)
      modifies this, s
      ensures Valid() && errors == (old(errors) + if ok then 0 else 1)
      ensures if ok then Kept() && curTok == NO_TOKEN && Ahead() == file &&
              peekTok.kind != ERROR && peekTok.kind != NONE
              else ParseFile(file) == Fail
    {
      hide Tokenize, MarksAt, CommentsIn, CommentsAhead, Behind, Accounted, TakenBehind, Conserved, ParseFile,
        ParseStmtAfter;
      MarkOf(NO_TOKEN, Tokenize(s.filename, s.data, START), 0);
      FileUnfold(file);
      ok := NextToken();
    }

    /** Moves to the token that begins the next statement, or to the end. */
    method NextStart() returns (ok: bool, ghost here: seq<Mark>)
      requires Valid() && peekTok.kind != ERROR && peekTok.kind != NONE && !Final(curTok.kind)
      modifies this, s
      ensures here == old(Ahead())
      ensures if ok then Between(here, old(Kept()), old(errors))
              else Valid() && errors > old(errors) && ParseFile(here) == Fail
    {
      hide Tokenize, MarksAt, CommentsIn, CommentsAhead, Behind, Accounted, TakenBehind, Conserved, ParseFile,
        ParseStmtAfter;
      here := Ahead();
      MarkOf(peekTok, Tokenize(s.filename, s.data, s.State()), curTok.position.line, CurNoted());
      OnlyLoneAtAgain();
      ok := NextToken();
      FileUnfold(here);
    }

    /** One statement, and the step to the next one. */
    method ParseStmtAndOn(ghost here: seq<Mark>) returns (stmt: Option<Stmt>, ghost next: seq<Mark>)
      requires Between(here, true, errors) && curTok.kind != EOF
      modifies this, s
      ensures stmt.None? ==> Valid() && errors > old(errors) && ParseFile(here) == Fail
      ensures stmt.Some? ==> Between(next, true, old(errors)) && |next| < |here|
      ensures stmt.Some? ==> ParseFile(here) == Prepend([stmt.value], ParseFile(next))
    {
      hide Tokenize, MarksAt, CommentsIn, Behind, Accounted, TakenBehind, Conserved, Kept, Ahead, S.Scanner.Valid,
        CommentsAhead, ParseStmtAfter, ParseFile;
      next := [];
      LookAhead();
      FileUnfold(here);
      StmtStarts(curTok.kind, curTok.text, Ahead());
      stmt := ParseStmt();
      if stmt.Some? {
        var ok;
        ok, next := NextStart();
        if !ok {
          stmt := None;
        }
      }
    }

    /**
     Parses the whole file, whatever it holds: exactly if the specification reads the tokens of the file there are
     statements, and then those that it reads; else an error is recorded. With the statements, all comments of the file
     are found: each is attached to a token, in the order of the file, but those at its end, which are statements; and
     the nodes of the tokens are those of the file.
     */
    method Parse() returns (stmts: Option<seq<Stmt>>)
      requires Valid() && Kept() && s.State() == START && curTok == NO_TOKEN == peekTok
      modifies this, s
      ensures Valid() && if stmts.Some? then errors == old(errors) && curTok.kind == EOF else errors > old(errors)
      ensures var spec := ParseFile(MarksAt(Tokenize(s.filename, s.data, START), 0));
              if stmts.Some? then spec.Ok? && spec.value == stmts.value else spec == Fail
      ensures stmts.Some? ==>
                && (forall t <- taken :: t in node)
                && CommentsIn(Tokenize(s.filename, s.data, START)) == Attached(node, taken) + commentStmts
                && NodesOf(node, taken) == Nodes(Tokenize(s.filename, s.data, START), [], None)
    {
      hide Tokenize, MarksAt, CommentsIn, Behind, Accounted, TakenBehind, Conserved, Kept, Ahead, S.Scanner.Valid,
        CommentsAhead, ParseStmtAfter, ParseFile;
      ghost var file := MarksAt(Tokenize(s.filename, s.data, START), 0);
      var ok := Begin(file);
      if !ok {
        return None;
      }
      ghost var here;
      ok, here := NextStart();
      if !ok {
        return None;
      }
      var list := [];
      PrependNone(ParseFile(file));
      while curTok.kind != EOF
        invariant Between(here, true, old(errors))
        invariant ParseFile(file) == Prepend(list, ParseFile(here))
        decreases |here|
      {
        var stmt;
        ghost var next;
        stmt, next := ParseStmtAndOn(here);
        if stmt.None? {
          return None;
        }
        PrependOne(list, stmt.value, ParseFile(next));
        list, here := list + [stmt.value], next;
      }
      FileUnfold(here);
      assert list + [] == list;
      AllFound();
      stmts := Some(list);
    }

    lemma AllFound()
      requires Valid() && Kept() && curTok.kind == EOF == peekTok.kind && headCommentGroup == []
      ensures forall t <- taken :: t in node
      ensures CommentsIn(Tokenize(s.filename, s.data, START)) == Attached(node, taken) + commentStmts
      ensures NodesOf(node, taken) == Nodes(Tokenize(s.filename, s.data, START), [], None)
    {
      hide Tokenize, Stuck, CommentsIn, Nodes, NodesOf;
      NothingAhead(s.filename, s.data, peekTok, s.State());
      NodeOf(peekTok, Tokenize(s.filename, s.data, s.State()), headCommentGroup, None);
      assert NodesOf(node, taken) + [] == NodesOf(node, taken);
      assert comments + [] == comments && commentStmts + [] == commentStmts;
    }
  }
}
