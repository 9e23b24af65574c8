/** The exact condition for the challenge edit of nginx to be undone through the text of a file: a
    marked line in front of text that does not start a line takes some of it into its comment, and
    then the cleanup never gives the original text back. */
module NginxExact {
  import opened Common
  import opened NginxLexer
  import opened NginxAst
  import opened NginxParser
  import opened NginxRoundTrip
  import opened NginxSwallow
  import opened NginxTokens
  import opened NginxSplice
  import opened NginxChallenge
  import opened NginxUndo
  import opened NginxRank
  import opened NginxMarks
  import opened Text

  // ----- Scanning the text behind a spelled prefix -----

  /** The text starts like the token. */
  predicate StartsAs(x: string, t: Token) {
    (t.ws != "" ==> x != "" && x[0] == t.ws[0]) &&
    (t.ws == "" && t.value != "" ==> x != "" && x[0] == t.value[0]) &&
    (t.ws == "" && t.value == "" ==> x == "")
  }

  lemma {:induction false} RenderJoin(p: Tokens, k: Tokens)
    ensures Render(Append(p, k)) == Render(p) + Render(k)
  {
    if p.Cons? {
      RenderJoin(p.tail, k);
      Assoc(p.head.ws + p.head.value, Render(p.tail), Render(k));
    } else {
      assert "" + Render(k) == Render(k);
    }
  }

  lemma TextStartsAs(t: Token, r: string)
    requires GoodToken(t) && (t.kind == EndOfFile ==> r == "")
    ensures StartsAs(t.ws + t.value + r, t)
  {
    TextStart(t, r);
    assert t.kind != EndOfFile ==> t.value != "";
  }

  /** A token is read in front of any text that starts like one that may follow it. */
  lemma ReadBefore(t: Token, u: Token, r: string)
    requires GoodToken(t) && GoodToken(u) && t.kind != EndOfFile && Follows(t, u) && StartsAs(r, u)
    ensures NextToken(t.ws + t.value + r) == (t, r)
  {
    TokenReadBack(t, r);
  }

  /** Tokens that may stand before `k` are read in front of any text that starts like `k`. */
  lemma {:induction false} LexPrefix(p: Tokens, k: Tokens, x: string)
    requires Lexable(Append(p, k)) && NoEnd(p) && k.Cons? && StartsAs(x, k.head)
    ensures Lex(Render(p) + x) == Append(p, Lex(x))
  {
    if p.Nil? {
      assert "" + x == x;
    } else {
      var t, r := p.head, Render(p.tail) + x;
      LexPrefix(p.tail, k, x);
      Assoc(t.ws + t.value, Render(p.tail), x);
      var u := Append(p.tail, k).head;
      if p.tail.Cons? {
        Assoc(u.ws + u.value, Render(p.tail.tail), x);
        TextStartsAs(u, Render(p.tail.tail) + x);
      } else {
        assert "" + x == x;
      }
      ReadBefore(t, u, r);
    }
  }

  lemma KindAt(t: Token, r: string)
    requires GoodToken(t) && t.kind != EndOfFile
    ensures var s := t.value + r;
      s != "" && !IsSpace(s[0]) && TokenAt(s, t.ws).0.kind == t.kind && TokenAt(s, t.ws).0.ws == t.ws
  {
    var s := t.value + r;
    assert s[0] == t.value[0];
    if t.kind == Quoted {
      QuoteLenAppend(t.value[1..], t.value[0], r);
      assert s[1..] == t.value[1..] + r;
    }
  }

  /** What the scanner makes of the text of a stream starts like the stream. */
  lemma HeadAlike(k: Tokens)
    requires k.Cons? && GoodToken(k.head) && (k.head.kind == EndOfFile ==> k.tail.Nil?)
    ensures Alike(k, Lex(Render(k)))
  {
    var t, r := k.head, Render(k.tail);
    if t.kind == EndOfFile {
      TokenReadBack(t, r);
    } else {
      KindAt(t, r);
      hide TokenAt;
      var s, all := t.value + r, t.ws + (t.value + r);
      Assoc(t.ws, t.value, r);
      SpaceLenAppend(t.ws, s);
      assert all[|t.ws|..] == s && all[..|t.ws|] == t.ws;
    }
  }

  /** A good node in front of a stream: the stream is scanned behind it as on its own. */
  lemma NodeParsed(m: Node, k: Tokens, ke: Tokens, topLevel: bool)
    requires Fits([m], k) && k.Cons? && ke.Cons? && ke.head == k.head && Lexable(k)
    requires ke.head.kind == EndOfFile ==> ke.tail.Nil?
    ensures ParseBody(Lex(Render(FlatNode(m, ke))), topLevel) ==
            Prepend([NormNode(m)], ParseBody(Lex(Render(ke)), topLevel))
  {
    var p, x := FlatNode(m, Nil), Render(ke);
    FitsOne(m, [], k);
    assert [m] + [] == [m];
    FlatNodeAppend(m, Nil, k);
    FlatNodeAppend(m, Nil, ke);
    FlatNodeAppend(m, Nil, Lex(x));
    NoEndNode(m, Nil);
    RenderJoin(p, ke);
    TextStartsAs(k.head, Render(ke.tail));
    LexPrefix(p, k, x);
    HeadAlike(ke);
    FirstNodeParsed(m, k, Lex(x), topLevel);
  }

  // ----- The text of the edited nodes -----

  lemma {:induction false} MarkHead(job: Job, nodes: seq<Node>, at: seq<nat>, i: nat, w: Want, k: Tokens, ke: Tokens)
    requires k.Cons? && ke.Cons? && ke.head == k.head
    ensures var flat := FlatNodes(Mark(job, nodes, at, i, w), ke);
      flat.Cons? && FlatNodes(nodes, k).Cons? && flat.head == FlatNodes(nodes, k).head && (nodes != [] ==> flat.head.kind != EndOfFile)
  {
  }

  lemma {:induction false} FlatNodesJoin(a: seq<Node>, b: seq<Node>, k: Tokens)
    ensures FlatNodes(a + b, k) == FlatNodes(a, FlatNodes(b, k))
  {
    if a == [] {
      assert a + b == b;
    } else {
      FlatNodesJoin(a[1..], b, k);
      assert (a + b)[1..] == a[1..] + b;
    }
  }

  lemma {:induction false} NodesTextJoin(a: seq<Node>, b: seq<Node>)
    ensures NodesText(a + b) == NodesText(a) + NodesText(b)
  {
    if a == [] {
      assert a + b == b && "" + NodesText(b) == NodesText(b);
    } else {
      NodesTextJoin(a[1..], b);
      assert (a + b)[1..] == a[1..] + b;
      Assoc(NodeText(a[0]), NodesText(a[1..]), NodesText(b));
    }
  }

  lemma {:induction false} LexableTidy(ts: Tokens)
    requires Lexable(ts)
    ensures Tidy(ts)
  {
    if ts.tail.Cons? { LexableTidy(ts.tail); }
  }

  lemma ConsBraces(t: Token, k: Tokens)
    ensures RankTokens(Cons(t, k)).braces == RankOf(t.value).braces + RankTokens(k).braces
  {
  }

  lemma {:induction false} WordsRank(args: seq<string>, n: int, k: Tokens)
    requires GoodWords(args) && Tidy(k) && RankTokens(k).braces == 0
    ensures var flat := FlatArgs(args, Spaces(|args|), [], n, k); Tidy(flat) && RankTokens(flat).braces == 0
  {
    hide RankTokens, RankOf;
    if args != [] {
      assert args[0] in args && Spaces(|args|)[1..] == Spaces(|args| - 1);
      WordsRank(args[1..], n + 1, k);
      RankNoBraces(args[0]);
      ConsBraces(ArgToken(args[0], " "), FlatArgs(args[1..], Spaces(|args| - 1), [], n + 1, k));
    }
  }

  lemma ManagedTokens(k: Tokens)
    ensures FlatTrailing(" " + Managed, k) == Cons(Token(Hash, Managed, " "), k)
    ensures RankOf(Managed).braces == 0 && RankOf(";").braces == 0
  {
    hide RankOf;
    SpaceLenAppend(" ", Managed);
    RankNoBraces(Managed);
    RankNoBraces(";");
  }

  lemma NilTidy()
    ensures Tidy(Cons(Token(Semicolon, ";", ""), Cons(Token(Hash, Managed, " "), Nil)))
    ensures RankTokens(Nil) == Zero
  {
  }

  lemma ConsTidy(t: Token, k: Tokens)
    ensures Tidy(Cons(t, k)) <==> AllSpace(t.ws) && Tidy(k)
  {
  }

  /** An inserted line has no braces. */
  lemma LineRank(d: Node)
    requires GoodLine(d)
    ensures Tidy(FlatNode(d, Nil)) && RankTokens(FlatNode(d, Nil)).braces == 0
  {
    hide RankOf, RankTokens, Tidy;
    ManagedTokens(Nil);
    RankNoBraces(d.name);
    assert Seps(d.args, []) == Spaces(|d.args|);
    var k1 := Cons(Token(Hash, Managed, " "), Nil);
    var k := Cons(Token(Semicolon, ";", ""), k1);
    ConsBraces(k1.head, Nil);
    ConsBraces(k.head, k1);
    NilTidy();
    WordsRank(d.args, 0, k);
    var flat := FlatArgs(d.args, Spaces(|d.args|), [], 0, k);
    ConsBraces(ArgToken(d.name, d.ws), flat);
    assert FlatNode(d, Nil) == Cons(ArgToken(d.name, d.ws), flat);
    ConsTidy(ArgToken(d.name, d.ws), flat);
  }

  lemma {:induction false} LinesRank(front: seq<Node>, k: Tokens)
    requires GoodLines(front) && Tidy(k)
    ensures Tidy(FlatNodes(front, k)) && RankTokens(FlatNodes(front, k)).braces == RankTokens(k).braces
  {
    hide GoodLine, RankTokens, Tidy, FlatNode;
    if front != [] {
      assert front[0] in front && forall n <- front[1..] :: n in front;
      LinesRank(front[1..], k);
      LineRank(front[0]);
      RankNode(front[0], FlatNodes(front[1..], k));
    }
  }

  lemma BlockTokens(n: Node, k: Tokens)
    requires n.Block?
    ensures var k1 := Cons(Token(CloseBrace, "}", n.beforeClose), k);
      FlatNode(n, k) == Append(Header(n), Cons(Token(OpenBrace, "{", " "), FlatNodes(n.body, k1))) && NoEnd(Header(n))
  {
    FlatBlock(n, k);
    assert [n][1..] == [];
  }

  /** Behind an open brace, lines without braces do not change the rank. */
  lemma BraceRank(t: Token, k: Tokens, k': Tokens)
    requires t.value == "{" && RankTokens(k').braces == RankTokens(k).braces
    ensures RankTokens(Cons(t, k')) == RankTokens(Cons(t, k))
  {
    assert RankOf("{") == Plus(CharRank('{'), RankOf(""));
  }

  /** The edit keeps the rank. */
  lemma {:induction false} MarkRank(job: Job, nodes: seq<Node>, at: seq<nat>, i: nat, w: Want, k: Tokens, ke: Tokens)
    requires WordPath(job.path) && Tidy(FlatNodes(nodes, k))
    requires k.Cons? && ke.Cons? && ke.head == k.head && Tidy(ke) && RankTokens(ke) == RankTokens(k)
    ensures var flat := FlatNodes(Mark(job, nodes, at, i, w), ke);
      Tidy(flat) && RankTokens(flat) == RankTokens(FlatNodes(nodes, k))
    decreases nodes, 1
  {
    hide Tidy, RankTokens, MarkNode, Next;
    if nodes != [] {
      var n, rest := nodes[0], Mark(job, nodes[1..], at, i + 1, Next(nodes[0], w));
      RankNode(n, FlatNodes(nodes[1..], k));
      MarkRank(job, nodes[1..], at, i + 1, Next(n, w), k, ke);
      MarkHead(job, nodes[1..], at, i + 1, Next(n, w), k, ke);
      MarkNodeRank(job, n, at + [i], w, FlatNodes(nodes[1..], k), FlatNodes(rest, ke));
      assert Mark(job, nodes, at, i, w)[1..] == rest;
    }
  }

  lemma {:induction false} MarkNodeRank(job: Job, n: Node, place: seq<nat>, w: Want, k: Tokens, ke: Tokens)
    requires WordPath(job.path) && Tidy(FlatNode(n, k))
    requires k.Cons? && ke.Cons? && ke.head == k.head && Tidy(ke) && RankTokens(ke) == RankTokens(k)
    ensures var flat := FlatNode(MarkNode(job, n, place, w), ke);
      Tidy(flat) && RankTokens(flat) == RankTokens(FlatNode(n, k))
    decreases n, 0
  {
    RankNode(n, k);
    RankNode(n, ke);
    if n.Block? {
      var close, open, m := Token(CloseBrace, "}", n.beforeClose), Token(OpenBrace, "{", " "), MarkNode(job, n, place, w);
      var k1, k1e := Cons(close, k), Cons(close, ke);
      hide Tidy, RankTokens, FlatNode, FlatNodes, Header, FrontOf, Plus;
      BlockTokens(n, k);
      BlockTokens(m, ke);
      assert Header(m) == Header(n) by { SameHeader(n, m.body); }
      RankJoin(Header(n), Cons(open, FlatNodes(n.body, k1)));
      ConsTidy(open, FlatNodes(n.body, k1));
      TailTidy(n.body, k1);
      ConsTidy(close, k);
      ConsTidy(close, ke);
      assert RankTokens(k1e) == RankTokens(k1) by { ConsRank(close, k); ConsRank(close, ke); }
      MarkRank(job, n.body, place, 0, Inner(n, w), k1, k1e);
      var front, body := FrontOf(job, n, place, w), Mark(job, n.body, place, 0, Inner(n, w));
      IndentTidy(n.body, k1);
      FrontIsGood(job, n, place, w);
      LinesRank(front, FlatNodes(body, k1e));
      FlatNodesJoin(front, body, k1e);
      BraceRank(open, FlatNodes(body, k1e), FlatNodes(front + body, k1e));
      RankJoin(Header(n), Cons(open, FlatNodes(front + body, k1e)));
      ConsTidy(open, FlatNodes(front + body, k1e));
      ConsRank(open, FlatNodes(body, k1e));
      ConsRank(open, FlatNodes(n.body, k1));
    }
  }

  lemma TailTidy(nodes: seq<Node>, k: Tokens)
    requires Tidy(FlatNodes(nodes, k))
    ensures Tidy(k)
  {
    FlatNodesAppend(nodes, Nil, k);
    RankJoin(FlatNodes(nodes, Nil), k);
  }

  lemma SameHeader(n: Node, body: seq<Node>)
    requires n.Block?
    ensures Header(n.(body := body)) == Header(n)
  {
  }

  lemma ConsRank(t: Token, k: Tokens)
    ensures RankTokens(Cons(t, k)) == Plus(RankOf(t.value), RankTokens(k))
  {
  }

  lemma IndentTidy(body: seq<Node>, k: Tokens)
    requires Tidy(FlatNodes(body, k))
    ensures AllSpace("\n" + ChildIndent(body))
  {
    if body != [] {
      assert FlatNodes(body, k) == FlatNode(body[0], FlatNodes(body[1..], k));
      IndentIsSpace(body[0].ws);
    }
  }

  // ----- The cleanup never increases the rank -----

  lemma JoinWithin(p: Tokens, k: Tokens, ts: Tokens)
    requires Within(k, ts) && Tidy(p)
    ensures Within(Append(p, k), Append(p, ts))
  {
    RankJoin(p, k);
    RankJoin(p, ts);
    PlusMono(RankTokens(p), RankTokens(p), RankTokens(k), RankTokens(ts));
  }

  lemma {:induction false} CleanWithin(job: Job, nodes: seq<Node>, l: Level, w: Want, k: Tokens, ts: Tokens)
    requires Within(k, ts) && Tidy(FlatNodes(nodes, ts)) && Terminated(nodes)
    ensures Within(FlatNodes(Clean(job, nodes, l, w), k), FlatNodes(nodes, ts))
    ensures Terminated(Clean(job, nodes, l, w))
    decreases nodes, 1
  {
    hide Within, Tidy, Drops;
    if nodes != [] {
      var n, rest := nodes[0], Clean(job, nodes[1..], l, Next(nodes[0], w));
      RankNode(n, FlatNodes(nodes[1..], ts));
      CleanWithin(job, nodes[1..], l, Next(n, w), k, ts);
      CleanNodeWithin(job, n, w, FlatNodes(rest, k), FlatNodes(nodes[1..], ts));
      if Drops(job, l, n) {
        assert [] + rest == rest;
        NodeLess(n, FlatNodes(rest, k), FlatNodes(nodes[1..], ts));
      } else {
        FlatOneMore(CleanNode(job, n, w), rest, k);
        OneMoreTerminated(CleanNode(job, n, w), rest);
      }
    }
  }

  lemma NodeLess(n: Node, k: Tokens, ts: Tokens)
    requires Within(k, ts)
    ensures Within(k, FlatNode(n, ts))
  {
    RankNode(n, ts);
    PlusMono(Zero, RankTokens(FlatNode(n, Nil)), RankTokens(k), RankTokens(ts));
    PlusZero(RankTokens(k));
  }

  lemma {:induction false} CleanNodeWithin(job: Job, n: Node, w: Want, k: Tokens, ts: Tokens)
    requires Within(k, ts) && Tidy(FlatNode(n, ts)) && TerminatedNode(n)
    ensures Within(FlatNode(CleanNode(job, n, w), k), FlatNode(n, ts)) && TerminatedNode(CleanNode(job, n, w))
    decreases n, 0
  {
    if n.Block? {
      hide Within, Tidy, Header;
      var close, open := Token(CloseBrace, "}", n.beforeClose), Token(OpenBrace, "{", " ");
      var k1, ts1 := Cons(close, k), Cons(close, ts);
      var body := Clean(job, n.body, LevelOf(n, w), Inner(n, w));
      BlockTokens(n, ts);
      BlockTokens(n.(body := body), k);
      SameHeader(n, body);
      RankJoin(Header(n), Cons(open, FlatNodes(n.body, ts1)));
      ConsTidy(open, FlatNodes(n.body, ts1));
      TailTidy(n.body, ts1);
      ConsTidy(close, ts);
      OneMoreWithin(close, close, k, ts);
      CleanWithin(job, n.body, LevelOf(n, w), Inner(n, w), k1, ts1);
      OneMoreWithin(open, open, FlatNodes(body, k1), FlatNodes(n.body, ts1));
      JoinWithin(Header(n), Cons(open, FlatNodes(body, k1)), Cons(open, FlatNodes(n.body, ts1)));
    } else {
      RankNode(n, k);
      RankNode(n, ts);
      RankNodeMono(n, ts, k);
    }
  }

  /** What is printed for a parsed and cleaned body, and then `y`, has no more than the tokens did. */
  lemma TailRank(job: Job, ts: Tokens, topLevel: bool, l: Level, w: Want, y: string)
    requires Sound(ts) && ParseBody(ts, topLevel).Success?
    requires AtMost(RankOf(y), RankTokens(Stop(ParseBody(ts, topLevel).value, topLevel)))
    ensures var nodes := Clean(job, ParseBody(ts, topLevel).value.nodes, l, w);
      AtMost(RankOf(NodesText(nodes) + y), RankTokens(ts))
  {
    var nodes := ParseBody(ts, topLevel).value.nodes;
    var k := Cons(Token(Word, y, ""), Nil);
    var cleaned := Clean(job, nodes, l, w);
    TextToken(y);
    hide *;
    AreWithin(k, Stop(ParseBody(ts, topLevel).value, topLevel));
    AreWithin(k, k);
    NodesWithin(ts, topLevel, k);
    IsWithin(FlatNodes(nodes, k), ts);
    CleanWithin(job, nodes, l, w, k, k);
    IsWithin(FlatNodes(cleaned, k), FlatNodes(nodes, k));
    RenderNodes(cleaned, k);
    RankRender(FlatNodes(cleaned, k));
    AtMostChain(RankTokens(FlatNodes(cleaned, k)), RankTokens(FlatNodes(nodes, k)), RankTokens(ts));
  }

  lemma AreWithin(k: Tokens, ts: Tokens)
    requires Tidy(k) && AtMost(RankTokens(k), RankTokens(ts))
    ensures Within(k, ts)
  {
  }

  lemma IsWithin(k: Tokens, ts: Tokens)
    requires Within(k, ts)
    ensures Tidy(k) && AtMost(RankTokens(k), RankTokens(ts))
  {
  }

  lemma AtMostChain(a: Rank, b: Rank, c: Rank)
    requires AtMost(a, b) && AtMost(b, c)
    ensures AtMost(a, c)
  {
  }

  lemma TextToken(y: string)
    ensures var k := Cons(Token(Word, y, ""), Nil);
      Tidy(k) && RankTokens(k) == RankOf(y) && Render(k) == y && AtMost(RankTokens(k), RankTokens(k))
  {
    hide RankOf, Plus;
    PlusZero(RankOf(y));
    var k := Cons(Token(Word, y, ""), Nil);
    assert RankTokens(k.tail) == Zero && Render(k.tail) == "" && Tidy(k.tail);
    AtMostItself(RankOf(y));
    assert "" + y + "" == y;
  }

  // ----- A line that swallows text -----

  /** The lines, the last of which has taken in the text `r`. */
  function Longer(front: seq<Node>, r: string): seq<Node>
    requires front != [] && GoodLines(front)
  {
    var d := front[|front| - 1];
    assert d in front;
    front[..|front| - 1] + [LongOne(d, r)]
  }

  function LongOne(d: Node, r: string): Node
    requires d.Directive?
  {
    Directive(d.ws, d.name, d.args, [], true, " " + Managed + r, [])
  }

  lemma LongFits(d: Node, r: string, e: string)
    requires GoodLine(d) && !ContainsNewline(r) && e in {"", "\n"}
    ensures Fits([LongOne(d, r)], EndToken(e)) && FlatNodes([LongOne(d, r)], EndToken(e)).head.ws == d.ws
  {
    var long := LongOne(d, r);
    LongNode(d, r, e);
    FitsOne(long, [], EndToken(e));
    assert [long] + [] == [long];
  }

  lemma LongNode(d: Node, r: string, e: string)
    requires GoodLine(d) && !ContainsNewline(r) && e in {"", "\n"}
    ensures var long := LongOne(d, r);
      GoodNode(long, EndToken(e)) && Lexable(FlatNode(long, EndToken(e))) && FlatNode(long, EndToken(e)).head.ws == d.ws
  {
    LongComment(r);
    hide GoodComment, GoodWord, GoodWords, FlatNode, GoodNode, Lexable, AllSpace, StartsLine;
    assert " " + Managed + r == " " + (Managed + r);
    CommentedNode(LongOne(d, r), Managed + r, e);
  }

  lemma LongerFits(front: seq<Node>, r: string, e: string)
    requires front != [] && GoodLines(front) && !ContainsNewline(r) && e in {"", "\n"}
    ensures Fits(Longer(front, r), EndToken(e))
  {
    var most, d := front[..|front| - 1], front[|front| - 1];
    assert d in front && forall n <- most :: n in front;
    LongFits(d, r, e);
    FrontFits(most, [LongOne(d, r)], EndToken(e));
  }

  lemma LongerText(front: seq<Node>, r: string)
    requires front != [] && GoodLines(front)
    ensures NodesText(Longer(front, r)) == NodesText(front) + r
  {
    var most, d := front[..|front| - 1], front[|front| - 1];
    assert d in front && front == most + [d];
    NodesTextJoin(most, [d]);
    NodesTextJoin(most, [LongOne(d, r)]);
    LongOneText(d, r);
    Assoc(NodesText(most), NodesText([d]), r);
  }

  lemma LongOneText(d: Node, r: string)
    requires GoodLine(d)
    ensures NodesText([LongOne(d, r)]) == NodesText([d]) + r
  {
    assert [d][1..] == [] && [LongOne(d, r)][1..] == [];
    assert NodesText([d]) == NodeText(d) + "" == NodeText(d);
    assert NodesText([LongOne(d, r)]) == NodeText(LongOne(d, r)) + "" == NodeText(LongOne(d, r));
    var t := d.ws + d.name + TextAt([], -1) + TextArgs(d.args, Seps(d.args, []), [], 0) + ";";
    Assoc(t, " " + Managed, r);
  }

  lemma {:induction false} LinesTerminated(front: seq<Node>)
    requires forall d <- front :: d.Directive? && d.semicolon
    ensures Terminated(front)
  {
    if front != [] {
      assert front[0] in front && forall d <- front[1..] :: d in front;
      LinesTerminated(front[1..]);
    }
  }

  /** The comment of the last line takes in the rest of the line. */
  lemma LineSwallows(front: seq<Node>, f: Tokens, r: string, after: string)
    requires front != [] && GoodLines(front) && Render(f) == r + after && !ContainsNewline(r)
    requires after == "" || after[0] == '\n'
    ensures Lex(Render(FlatNodes(front, f))) == FlatNodes(Longer(front, r), Lex(after))
  {
    var long, e := Longer(front, r), if after == "" then "" else "\n";
    var p := FlatNodes(long, Nil);
    LinesTerminated(front);
    LongerDirectives(front, r);
    LinesTerminated(long);
    RenderNodes(front, f);
    RenderNodes(long, Nil);
    assert NodesText(long) + "" == NodesText(long);
    LongerText(front, r);
    Assoc(NodesText(front), r, after);
    LongerFits(front, r, e);
    NoEndNodes(long, Nil);
    FlatNodesAppend(long, Nil, EndToken(e));
    FlatNodesAppend(long, Nil, Lex(after));
    LexPrefix(p, EndToken(e), after);
  }

  lemma LongerDirectives(front: seq<Node>, r: string)
    requires front != [] && GoodLines(front)
    ensures forall d <- Longer(front, r) :: d.Directive? && d.semicolon && d.trailing != ""
  {
    assert front[|front| - 1] in front;
    var long := LongOne(front[|front| - 1], r);
    assert long.trailing == " " + Managed + r && long.trailing[0] == ' ';
    assert (" " + Managed)[0] == ' ';
    forall d <- Longer(front, r) ensures d.Directive? && d.semicolon && d.trailing != "" {
      if d != long { assert d in front[..|front| - 1] && d in front && d.trailing[0] == ' '; }
    }
  }

  // ----- What is left of a body behind a swallowing line -----

  lemma {:induction false} LinesGood(front: seq<Node>, k: Tokens)
    requires forall d <- front :: d.Directive? && d.semicolon && d.trailing != "" && ArgKind(d.name) == Word
    requires forall d <- front :: d.comments == [] && !ContainsNewline(d.trailing)
    ensures GoodNodes(front, k)
  {
    if front != [] {
      assert front[0] in front && forall d <- front[1..] :: d in front;
      LinesGood(front[1..], k);
    }
  }

  lemma {:induction false} ArgsLess(ts: Tokens, n: nat)
    ensures AtMost(RankTokens(ParseArgs(ts, n).rest), RankTokens(ts))
  {
    hide Plus, RankOf, AtMost;
    if ts.Cons? && ts.head.kind in {Word, Quoted} {
      ArgsLess(ts.tail, n + 1);
      OneMoreRank(ts.head, ParseArgs(ts, n).rest, ts.tail);
    } else if ts.Cons? && ts.head.kind == Hash {
      ArgsLess(ts.tail, n);
      OneMoreRank(ts.head, ParseArgs(ts, n).rest, ts.tail);
    } else {
      AtMostItself(RankTokens(ts));
    }
  }

  lemma OneMoreRank(t: Token, k: Tokens, ts: Tokens)
    requires AtMost(RankTokens(k), RankTokens(ts))
    ensures AtMost(RankTokens(k), RankTokens(Cons(t, ts)))
  {
    PlusMono(Zero, RankOf(t.value), RankTokens(k), RankTokens(ts));
    PlusZero(RankTokens(k));
  }

  lemma TrailingLess(ts: Tokens)
    ensures AtMost(RankTokens(TakeTrailing(ts).1), RankTokens(ts))
  {
    AtMostItself(RankTokens(ts));
    if ts.Cons? {
      AtMostItself(RankTokens(ts.tail));
      OneMoreRank(ts.head, ts.tail, ts.tail);
    }
  }

  /** A word in front makes more. */
  lemma WordMore(t: Token, k: Tokens, ts: Tokens)
    requires GoodToken(t) && t.kind == Word && AtMost(RankTokens(k), RankTokens(ts))
    ensures !AtMost(RankTokens(Cons(t, ts)), RankTokens(k))
  {
    hide RankOf;
    WordRank(t.value);
  }

  lemma WordRank(v: string)
    requires GoodWord(v)
    ensures RankOf(v).braces == 0 && RankOf(v).head > 0
  {
    RankNoBraces(v);
    assert CharRank(v[0]) == Rank(0, 1) && RankOf(v) == Plus(CharRank(v[0]), RankOf(v[1..]));
    hide RankOf;
  }

  /** The parts of a body that starts with a directive. */
  lemma DirectiveFirst(ts: Tokens) returns (d: Node, rest: Tokens)
    requires Sound(ts) && ParseBody(ts, false).Success?
    requires ParseBody(ts, false).value.nodes != [] && ParseBody(ts, false).value.nodes[0].Directive?
    ensures ts.head.kind == Word && Sound(rest) && AtMost(RankTokens(rest), RankTokens(ts.tail))
    ensures d.Directive? && ParseBody(ts, false) == Prepend([d], ParseBody(rest, false))
  {
    hide AtMost, RankTokens;
    var a := ParseArgs(ts.tail, 0);
    ParsedIsSound(ts, false);
    ParsedArgs(ts.tail, 0);
    d, rest := ParseBody(ts, false).value.nodes[0], TakeTrailing(a.rest.tail).1;
    TrailingIsSound(a.rest.tail);
    ArgsLess(ts.tail, 0);
    TrailingLess(a.rest.tail);
    OneMoreRank(a.rest.head, rest, a.rest.tail);
    AtMostChain(RankTokens(rest), RankTokens(a.rest), RankTokens(ts.tail));
  }

  lemma DropFirst(job: Job, d: Node, nodes: seq<Node>, l: Level, w: Want)
    requires d.Directive? && Drops(job, l, d)
    ensures Clean(job, [d] + nodes, l, w) == Clean(job, nodes, l, w)
  {
    assert ([d] + nodes)[1..] == nodes && [] + Clean(job, nodes, l, w) == Clean(job, nodes, l, w);
  }

  lemma FirstChar(nodes: seq<Node>, y: string)
    requires nodes != [] && nodes[0].ws != ""
    ensures NodesText(nodes) + y != "" && (NodesText(nodes) + y)[0] == nodes[0].ws[0]
  {
  }

  lemma KeepFirst(job: Job, nodes: seq<Node>, l: Level, w: Want)
    requires nodes != [] && !Drops(job, l, nodes[0])
    ensures Clean(job, nodes, l, w) != [] && Clean(job, nodes, l, w)[0].ws == nodes[0].ws
  {
  }

  /** How a body starts. */
  lemma BodyHead(ts: Tokens)
    requires Sound(ts) && ParseBody(ts, false).Success?
    ensures var b := ParseBody(ts, false).value;
      ts.head.kind != Unterminated && (if b.nodes == [] then b.rest == ts else b.nodes[0].ws == ts.head.ws)
  {
    ParsedIsSound(ts, false);
    if ts.head.kind == Word { WordHead(ts); }
    hide Sound, GoodToken, Follows, ParseArgs, TakeTrailing;
  }

  lemma WordHead(ts: Tokens)
    requires Sound(ts) && ts.head.kind == Word && ParseBody(ts, false).Success?
    ensures var nodes := ParseBody(ts, false).value.nodes; nodes != [] && nodes[0].ws == ts.head.ws
  {
    ParsedArgs(ts.tail, 0);
    hide Sound, GoodToken, Follows, ParseArgs, TakeTrailing, Ordered;
  }

  /** What is parsed from text that starts a line, cleaned and printed, is not text that has at
      least as much before its first brace but does not start a line. */
  lemma BaseDiffers(job: Job, l: Level, w: Want, after: string, y: string, o: string)
    requires after != "" && after[0] == '\n' && ParseBody(Lex(after), false).Success?
    requires var rest := ParseBody(Lex(after), false).value.rest;
      AtMost(RankOf(y), RankTokens(rest)) && |rest.head.ws| <= |y| && y[..|rest.head.ws|] == rest.head.ws
    requires AtMost(RankOf(after), RankOf(o)) && o != "" && o[0] != '\n'
    ensures NodesText(Clean(job, ParseBody(Lex(after), false).value.nodes, l, w)) + y != o
  {
    hide *;
    var ts := Lex(after);
    var b := ParseBody(ts, false).value;
    LexIsSound(after);
    BodyHead(ts);
    LexedBlank(after);
    if b.nodes == [] {
      NothingCleaned(job, l, w, ts.head.ws, y);
    } else if !Drops(job, l, b.nodes[0]) {
      KeepFirst(job, b.nodes, l, w);
      FirstChar(Clean(job, b.nodes, l, w), y);
    } else {
      FirstDropped(job, l, w, ts, y);
      RankLex(after);
      AtMostChain(RankTokens(ts), RankOf(after), RankOf(o));
    }
  }

  lemma LexedBlank(s: string)
    requires s != "" && s[0] == '\n' && Lex(s).head.kind != Unterminated
    ensures Lex(s).head.ws != "" && Lex(s).head.ws[0] == '\n'
  {
    HeadStart(s);
    hide NextToken;
  }

  lemma NothingCleaned(job: Job, l: Level, w: Want, ws: string, y: string)
    requires ws != "" && |ws| <= |y| && y[..|ws|] == ws
    ensures var x := NodesText(Clean(job, [], l, w)) + y; x != "" && x[0] == ws[0]
  {
    assert y[..|ws|][0] == y[0];
  }

  lemma FirstDropped(job: Job, l: Level, w: Want, ts: Tokens, y: string)
    requires Sound(ts) && ParseBody(ts, false).Success?
    requires ParseBody(ts, false).value.nodes != [] && Drops(job, l, ParseBody(ts, false).value.nodes[0])
    requires AtMost(RankOf(y), RankTokens(ParseBody(ts, false).value.rest))
    ensures !AtMost(RankTokens(ts), RankOf(NodesText(Clean(job, ParseBody(ts, false).value.nodes, l, w)) + y))
  {
    var d, rest := DirectiveFirst(ts);
    var nodes := ParseBody(rest, false).value.nodes;
    assert ([d] + nodes)[0] == d;
    DropFirst(job, d, nodes, l, w);
    TailRank(job, rest, false, l, w, y);
    var x := NodesText(Clean(job, nodes, l, w)) + y;
    WordMore(ts.head, rest, ts.tail);
    if AtMost(RankTokens(ts), RankOf(x)) {
      AtMostChain(RankTokens(ts), RankOf(x), RankTokens(rest));
    }
  }

  // ----- The edited text is never cleaned back -----

  /** The cleanup leaves the nodes as they are. */
  predicate Stays(job: Job, nodes: seq<Node>, l: Level, w: Want) {
    Clean(job, nodes, l, w) == nodes
  }

  lemma StaysJoin(job: Job, nodes: seq<Node>, l: Level, w: Want)
    requires nodes != [] && !Drops(job, l, nodes[0]) && CleanNode(job, nodes[0], w) == nodes[0]
    requires Stays(job, nodes[1..], l, Next(nodes[0], w))
    ensures Stays(job, nodes, l, w)
  {
    assert nodes == [nodes[0]] + nodes[1..];
  }

  lemma BlockParsed(n: Node, ts: Tokens, topLevel: bool)
    requires n.Block? && ArgKind(n.name) == Word
    ensures ParseBody(Append(Header(n), Cons(Token(OpenBrace, "{", " "), ts)), topLevel) ==
      var inner := ParseBody(ts, false);
      if inner.Failure? then inner
      else
        Prepend([Block(n.ws, n.name, n.args, inner.value.nodes, inner.value.rest.head.ws)],
                ParseBody(inner.value.rest.tail, topLevel))
  {
    var k := Cons(Token(OpenBrace, "{", " "), ts);
    FlatArgsAppend(n.args, Spaces(|n.args|), [], 0, Nil, k);
    ParseFlatArgs(n.args, Spaces(|n.args|), [], 0, k);
  }

  /** The text behind an open brace is scanned on its own. */
  lemma HeaderLexed(n: Node, k: Tokens, f: Tokens)
    requires n.Block? && Fits([n], k)
    ensures var open := Token(OpenBrace, "{", " ");
      Lex(Render(Append(Header(n), Cons(open, f)))) == Append(Header(n), Cons(open, Lex(Render(f))))
  {
    var open := Token(OpenBrace, "{", " ");
    var x := open.ws + open.value + Render(f);
    FlatBlock(n, k);
    RenderJoin(Header(n), Cons(open, f));
    TextStartsAs(open, Render(f));
    TokenReadBack(open, Render(f));
    hide FlatNodes, Header;
    LexPrefix(Header(n), Cons(open, FlatNodes(n.body, Cons(Token(CloseBrace, "}", n.beforeClose), k))), x);
  }

  lemma Cancel(p: string, a: string, b: string)
    requires a != b
    ensures p + a != p + b
  {
    assert (p + a)[|p|..] == a && (p + b)[|p|..] == b;
  }

  function Opening(b: Node): string
    requires b.Block?
  {
    b.ws + b.name + TextWords(b.args) + " {"
  }

  lemma BlockText(b: Node, rest: seq<Node>, y: string)
    requires b.Block?
    ensures NodesText([b] + rest) + y ==
            Opening(b) + (NodesText(b.body) + (b.beforeClose + "}" + (NodesText(rest) + y)))
  {
    var h, body, close, tail := Opening(b), NodesText(b.body), b.beforeClose + "}", NodesText(rest);
    assert ([b] + rest)[1..] == rest;
    Assoc(h + body, b.beforeClose, "}");
    assert NodeText(b) == h + body + close;
    hide NodeText, NodesText, TextWords;
    Assoc(h + body + close, tail, y);
    Assoc(h + body, close, tail + y);
    Assoc(h, body, close + (tail + y));
  }

  /** `ke` is the edited form of the tokens `k` behind some nodes. */
  predicate Behind(k: Tokens, ke: Tokens) {
    k.Cons? && ke.Cons? && ke.head == k.head && Lexable(k) && Tidy(ke) && RankTokens(ke) == RankTokens(k) &&
    (ke.head.kind == EndOfFile ==> ke.tail.Nil?)
  }

  lemma RestBehind(job: Job, nodes: seq<Node>, at: seq<nat>, i: nat, w: Want, k: Tokens, ke: Tokens)
    requires WordPath(job.path) && Fits(nodes, k) && Behind(k, ke)
    ensures Behind(FlatNodes(nodes, k), FlatNodes(Mark(job, nodes, at, i, w), ke))
  {
    LexableTidy(FlatNodes(nodes, k));
    MarkHead(job, nodes, at, i, w, k, ke);
    MarkRank(job, nodes, at, i, w, k, ke);
    hide RankTokens, Tidy;
  }

  lemma CloseBehind(close: Token, k: Tokens, ke: Tokens)
    requires Behind(k, ke) && GoodToken(close) && close.kind == CloseBrace && Lexable(Cons(close, k))
    ensures Behind(Cons(close, k), Cons(close, ke))
  {
    ConsRank(close, k);
    ConsRank(close, ke);
    hide RankTokens;
  }

  function Edited(job: Job, nodes: seq<Node>, at: seq<nat>, i: nat, w: Want, ke: Tokens): Tokens {
    FlatNodes(Mark(job, nodes, at, i, w), ke)
  }

  function Reparsed(job: Job, nodes: seq<Node>, at: seq<nat>, i: nat, w: Want, ke: Tokens, topLevel: bool):
    Result<Body>
  {
    ParseBody(Lex(Render(Edited(job, nodes, at, i, w, ke))), topLevel)
  }

  /** `y` has no more than the tokens that a parse left. */
  predicate Leftover(y: string, r: Result<Body>, topLevel: bool) {
    r.Success? && (!topLevel ==> r.value.rest.Cons?) && AtMost(RankOf(y), RankTokens(Stop(r.value, topLevel))) &&
    (!topLevel ==> var ws := r.value.rest.head.ws; |ws| <= |y| && y[..|ws|] == ws)
  }

  /** The setting of one body: it is well formed, and either some marked line in it does not end
      before text that starts a line, or the cleanup takes away something that the source has. */
  predicate Spoiled(job: Job, nodes: seq<Node>, at: seq<nat>, i: nat, l: Level, w: Want, k: Tokens, ke: Tokens) {
    WordPath(job.path) && Matching(job) && Fits(nodes, k) && Behind(k, ke) &&
    !(AllStart(job, nodes, at, i, w) && Stays(job, nodes, l, w))
  }

  /** The trouble is in the node itself, which is kept. */
  predicate NodeSpoiled(job: Job, n: Node, place: seq<nat>, w: Want) {
    !(NodeStarts(job, n, place, w) && CleanNode(job, n, w) == n)
  }

  lemma {:induction false} SpoiledShows(job: Job, nodes: seq<Node>, at: seq<nat>, i: nat, l: Level, w: Want,
                                        k: Tokens, ke: Tokens, topLevel: bool, y: string)
    requires Spoiled(job, nodes, at, i, l, w, k, ke)
    requires Leftover(y, Reparsed(job, nodes, at, i, w, ke, topLevel), topLevel)
    ensures NodesText(Clean(job, Reparsed(job, nodes, at, i, w, ke, topLevel).value.nodes, l, w)) + y !=
            NodesText(nodes) + Render(k)
    decreases nodes, 2
  {
    if Drops(job, l, nodes[0]) {
      FirstGone(job, nodes, at, i, l, w, k, ke, topLevel, y);
    } else if NodeSpoiled(job, nodes[0], at + [i], w) {
      SpoiledInside(job, nodes, at, i, l, w, k, ke, topLevel, y);
    } else {
      SpoiledBehind(job, nodes, at, i, l, w, k, ke, topLevel, y);
    }
  }

  /** The first node is read back and cleaned; the trouble is behind it. */
  lemma {:induction false} SpoiledBehind(job: Job, nodes: seq<Node>, at: seq<nat>, i: nat, l: Level, w: Want, k: Tokens,
                                         ke: Tokens, topLevel: bool, y: string)
    requires Spoiled(job, nodes, at, i, l, w, k, ke)
    requires !Drops(job, l, nodes[0]) && !NodeSpoiled(job, nodes[0], at + [i], w)
    requires Leftover(y, Reparsed(job, nodes, at, i, w, ke, topLevel), topLevel)
    ensures NodesText(Clean(job, Reparsed(job, nodes, at, i, w, ke, topLevel).value.nodes, l, w)) + y !=
            NodesText(nodes) + Render(k)
    decreases nodes, 1
  {
    hide *;
    SpoiledRest(job, nodes, at, i, l, w, k, ke);
    var n, rest, w1 := nodes[0], nodes[1..], Next(nodes[0], w);
    var m := MarkNode(job, n, at + [i], w);
    FirstReparsed(job, nodes, at, i, w, k, ke, topLevel);
    var r := Reparsed(job, rest, at, i + 1, w1, ke, topLevel);
    SameLeftover(y, [NormNode(m)], r, topLevel);
    PrependSuccess([NormNode(m)], r);
    SpoiledShows(job, rest, at, i + 1, l, w1, k, ke, topLevel, y);
    FirstCleaned(job, n, at + [i], l, w, r.value.nodes);
    FirstText(n, Clean(job, r.value.nodes, l, w1), y);
    FirstText(n, rest, Render(k));
    assert nodes == [n] + rest;
    SameText(n, Clean(job, r.value.nodes, l, w1), y);
    Cancel(NodeText(n), NodesText(Clean(job, r.value.nodes, l, w1)) + y, NodesText(rest) + Render(k));
  }

  /** The trouble is behind the first node. */
  lemma SpoiledRest(job: Job, nodes: seq<Node>, at: seq<nat>, i: nat, l: Level, w: Want, k: Tokens, ke: Tokens)
    requires Spoiled(job, nodes, at, i, l, w, k, ke)
    requires nodes != [] ==> !Drops(job, l, nodes[0]) && !NodeSpoiled(job, nodes[0], at + [i], w)
    ensures WordPath(job.path) && Matching(job) && Fits(nodes, k) && Behind(k, ke) && nodes != []
    ensures NodeStarts(job, nodes[0], at + [i], w) && CleanNode(job, nodes[0], w) == nodes[0]
    ensures Spoiled(job, nodes[1..], at, i + 1, l, Next(nodes[0], w), k, ke)
  {
    assert nodes != [];
    FitsSplit(nodes, k);
    hide Fits, Behind, NodeStarts, CleanNode, WordPath;
    if AllStart(job, nodes[1..], at, i + 1, Next(nodes[0], w)) && Stays(job, nodes[1..], l, Next(nodes[0], w)) {
      StaysJoin(job, nodes, l, w);
    }
  }

  lemma SameLeftover(y: string, nodes: seq<Node>, r: Result<Body>, topLevel: bool)
    requires Leftover(y, Prepend(nodes, r), topLevel)
    ensures Prepend(nodes, r).Success? && Leftover(y, r, topLevel)
  {
    hide RankOf, RankTokens;
  }

  /** The cleanup drops the first node, which the source has: what it leaves has less before the
      first brace, or fewer braces. */
  lemma FirstGone(job: Job, nodes: seq<Node>, at: seq<nat>, i: nat, l: Level, w: Want, k: Tokens,
                  ke: Tokens, topLevel: bool, y: string)
    requires Spoiled(job, nodes, at, i, l, w, k, ke) && nodes != [] && Drops(job, l, nodes[0])
    requires Leftover(y, Reparsed(job, nodes, at, i, w, ke, topLevel), topLevel)
    ensures NodesText(Clean(job, Reparsed(job, nodes, at, i, w, ke, topLevel).value.nodes, l, w)) + y !=
            NodesText(nodes) + Render(k)
  {
    var n, rest, w1 := nodes[0], nodes[1..], Next(nodes[0], w);
    var k1, k1e := FlatNodes(rest, k), Edited(job, rest, at, i + 1, w1, ke);
    assert n.Directive? && w1 == w && MarkNode(job, n, at + [i], w) == n;
    FirstReparsed(job, nodes, at, i, w, k, ke, topLevel);
    FitsSplit(nodes, k);
    RestBehind(job, rest, at, i + 1, w1, k, ke);
    var r := Reparsed(job, rest, at, i + 1, w1, ke, topLevel);
    PrependSuccess([NormNode(n)], r);
    assert Drops(job, l, NormNode(n));
    DropFirst(job, NormNode(n), r.value.nodes, l, w);
    LexIsSound(Render(k1e));
    TailRank(job, Lex(Render(k1e)), topLevel, l, w, y);
    hide *;
    var x := NodesText(Clean(job, r.value.nodes, l, w)) + y;
    EditedRank(k1, k1e);
    AtMostChain(RankOf(x), RankTokens(Lex(Render(k1e))), RankTokens(k1));
    DirectiveMore(nodes, k, x);
  }

  /** Scanning the edited text behind a node finds no more than the source has there. */
  lemma EditedRank(k: Tokens, ke: Tokens)
    requires Behind(k, ke)
    ensures AtMost(RankTokens(Lex(Render(ke))), RankTokens(k))
  {
    RankRender(ke);
    RankLex(Render(ke));
  }

  lemma DirectiveRank(d: Node, k: Tokens)
    requires d.Directive? && GoodToken(ArgToken(d.name, d.ws)) && ArgKind(d.name) == Word
    ensures !AtMost(RankTokens(FlatNode(d, k)), RankTokens(k))
  {
    var p := FlatNode(d, Nil).tail;
    FlatNodeAppend(d, Nil, k);
    assert FlatNode(d, k) == Cons(ArgToken(d.name, d.ws), Append(p, k));
    hide FlatNode, ArgToken, RankTokens, GoodToken, Plus;
    RankJoin(p, k);
    ZeroLeast(RankTokens(p));
    AtMostItself(RankTokens(k));
    PlusMono(Zero, RankTokens(p), RankTokens(k), RankTokens(k));
    PlusZero(RankTokens(k));
    WordMore(ArgToken(d.name, d.ws), k, Append(p, k));
  }

  /** A text with no more than what stands behind the first directive is not the whole text. */
  lemma DirectiveMore(nodes: seq<Node>, k: Tokens, x: string)
    requires Fits(nodes, k) && nodes != [] && nodes[0].Directive? && AtMost(RankOf(x), RankTokens(FlatNodes(nodes[1..], k)))
    ensures x != NodesText(nodes) + Render(k)
  {
    hide *;
    var flat := FlatNodes(nodes, k);
    DirectiveHead(nodes, k);
    RenderNodes(nodes, k);
    RankRender(flat);
    DirectiveRank(nodes[0], FlatNodes(nodes[1..], k));
  }

  lemma DirectiveHead(nodes: seq<Node>, k: Tokens)
    requires Fits(nodes, k) && nodes != [] && nodes[0].Directive?
    ensures var d, flat := nodes[0], FlatNodes(nodes, k);
      Terminated(nodes) && Tidy(flat) && flat == FlatNode(d, FlatNodes(nodes[1..], k)) &&
      GoodToken(ArgToken(d.name, d.ws)) && ArgKind(d.name) == Word
  {
    GoodIsTerminated(nodes, k);
    LexableTidy(FlatNodes(nodes, k));
    assert GoodNode(nodes[0], FlatNodes(nodes[1..], k));
    hide Tidy, Terminated, GoodNode, GoodToken;
    assert FlatNode(nodes[0], FlatNodes(nodes[1..], k)).head == ArgToken(nodes[0].name, nodes[0].ws);
    assert GoodToken(FlatNodes(nodes, k).head);
  }

  lemma PrependSuccess(nodes: seq<Node>, r: Result<Body>)
    requires Prepend(nodes, r).Success?
    ensures r.Success? && Prepend(nodes, r).value.nodes == nodes + r.value.nodes
    ensures Prepend(nodes, r).value.rest == r.value.rest && Prepend(nodes, r).value.lastWs == r.value.lastWs
  {
  }

  lemma FirstText(n: Node, rest: seq<Node>, y: string)
    ensures NodesText([n] + rest) + y == NodeText(n) + (NodesText(rest) + y)
  {
    assert ([n] + rest)[1..] == rest;
    Assoc(NodeText(n), NodesText(rest), y);
  }

  lemma SameText(n: Node, rest: seq<Node>, y: string)
    ensures NodesText([NormNode(n)] + rest) + y == NodesText([n] + rest) + y
  {
    PrintNorm([n]);
    NormOne(n);
    NodesTextJoin([NormNode(n)], rest);
    NodesTextJoin([n], rest);
  }

  lemma FirstReparsed(job: Job, nodes: seq<Node>, at: seq<nat>, i: nat, w: Want, k: Tokens, ke: Tokens, topLevel: bool)
    requires WordPath(job.path) && Fits(nodes, k) && Behind(k, ke) && nodes != []
    requires NodeStarts(job, nodes[0], at + [i], w)
    ensures Reparsed(job, nodes, at, i, w, ke, topLevel) ==
            Prepend([NormNode(MarkNode(job, nodes[0], at + [i], w))],
                    Reparsed(job, nodes[1..], at, i + 1, Next(nodes[0], w), ke, topLevel))
  {
    var n, rest, w1 := nodes[0], nodes[1..], Next(nodes[0], w);
    var m := MarkNode(job, n, at + [i], w);
    var k1, k1e := FlatNodes(rest, k), Edited(job, rest, at, i + 1, w1, ke);
    FitsSplit(nodes, k);
    RestBehind(job, rest, at, i + 1, w1, k, ke);
    MarkNodeFits(job, n, at + [i], w, k1);
    NodeParsed(m, k1, k1e, topLevel);
    FlatOneMore(m, Mark(job, rest, at, i + 1, w1), ke);
  }

  lemma FirstCleaned(job: Job, n: Node, place: seq<nat>, l: Level, w: Want, nodes: seq<Node>)
    requires Matching(job) && !Drops(job, l, n) && CleanNode(job, n, w) == n
    ensures Clean(job, [NormNode(MarkNode(job, n, place, w))] + nodes, l, w) ==
            [NormNode(n)] + Clean(job, nodes, l, Next(n, w))
  {
    var m := MarkNode(job, n, place, w);
    CleanNormNode(job, m, w);
    CleanForgetsNode(job, n, place, w);
    MarkNodeNext(job, n, place, w, w);
    MarkNodeKind(job, n, place, w);
    DropsSame(job, l, n, m);
    assert Drops(job, l, NormNode(m)) == Drops(job, l, m);
    hide CleanNode, MarkNode, Next, Drops, NormNode;
    assert ([NormNode(m)] + nodes)[1..] == nodes;
  }

  /** The marked body of a block, scanned and parsed. */
  function Inside(job: Job, n: Node, place: seq<nat>, w: Want, ke: Tokens): Result<Body>
    requires n.Block?
  {
    ParseBody(Lex(Render(FlatNodes(MarkNode(job, n, place, w).body, ke))), false)
  }

  lemma BlockReparsed(job: Job, nodes: seq<Node>, at: seq<nat>, i: nat, w: Want, k: Tokens, ke: Tokens, topLevel: bool)
    requires nodes != [] && nodes[0].Block? && Fits([nodes[0]], k)
    ensures var n, rest := nodes[0], Edited(job, nodes[1..], at, i + 1, Next(nodes[0], w), ke);
      var inner := Inside(job, n, at + [i], w, Cons(Token(CloseBrace, "}", n.beforeClose), rest));
      Reparsed(job, nodes, at, i, w, ke, topLevel) ==
      if inner.Failure? then inner
      else
        Prepend([Block(n.ws, n.name, n.args, inner.value.nodes, inner.value.rest.head.ws)],
                ParseBody(inner.value.rest.tail, topLevel))
  {
    var n, place, w1 := nodes[0], at + [i], Next(nodes[0], w);
    var m, rest := MarkNode(job, n, place, w), Edited(job, nodes[1..], at, i + 1, w1, ke);
    var f := FlatNodes(m.body, Cons(Token(CloseBrace, "}", n.beforeClose), rest));
    FlatOneMore(m, Mark(job, nodes[1..], at, i + 1, w1), ke);
    BlockTokens(m, rest);
    SameHeader(n, m.body);
    HeaderLexed(n, k, f);
    FitsOne(n, [], k);
    assert [n] + [] == [n];
    hide FlatNodes, FlatNode, Header;
    BlockParsed(n, Lex(Render(f)), topLevel);
  }

  /** Text behind the closing brace, with the brace. */
  lemma CloserRank(closer: Token, z: string, ts: Tokens)
    requires GoodToken(closer) && closer.kind == CloseBrace && AtMost(RankOf(z), RankTokens(ts))
    ensures AtMost(RankOf(closer.ws + "}" + z), RankTokens(Cons(closer, ts)))
    ensures var y := closer.ws + "}" + z; |closer.ws| <= |y| && y[..|closer.ws|] == closer.ws
  {
    hide RankOf;
    RankBlank(closer.ws);
    RankAppend(closer.ws, "}");
    RankAppend(closer.ws + "}", z);
    PlusZero(RankOf("}"));
    AtMostItself(RankOf("}"));
    PlusMono(RankOf("}"), RankOf("}"), RankOf(z), RankTokens(ts));
    assert closer.ws + "}" + z == closer.ws + ("}" + z);
  }

  /** What is printed behind the nodes of a block: its end, the cleaned nodes behind it, and `y`. */
  function Tail(job: Job, b: Node, nodes: seq<Node>, l: Level, w: Want, y: string): string
    requires b.Block?
  {
    b.beforeClose + "}" + (NodesText(Clean(job, nodes, l, Next(b, w))) + y)
  }

  lemma {:induction false} SpoiledInside(job: Job, nodes: seq<Node>, at: seq<nat>, i: nat, l: Level, w: Want, k: Tokens,
                                         ke: Tokens, topLevel: bool, y: string)
    requires Spoiled(job, nodes, at, i, l, w, k, ke) && NodeSpoiled(job, nodes[0], at + [i], w)
    requires Leftover(y, Reparsed(job, nodes, at, i, w, ke, topLevel), topLevel)
    ensures NodesText(Clean(job, Reparsed(job, nodes, at, i, w, ke, topLevel).value.nodes, l, w)) + y !=
            NodesText(nodes) + Render(k)
    decreases nodes, 1
  {
    var n, rest, place, w1 := nodes[0], nodes[1..], at + [i], Next(nodes[0], w);
    var close := Token(CloseBrace, "}", n.beforeClose);
    var k1, k1e := FlatNodes(rest, k), Edited(job, rest, at, i + 1, w1, ke);
    var kc, kce := Cons(close, k1), Cons(close, k1e);
    FitsSplit(nodes, k);
    RestBehind(job, rest, at, i + 1, w1, k, ke);
    BodyFits(n, k1);
    LexableSuffix(n.body, kc);
    CloseBehind(close, k1, k1e);
    BlockReparsed(job, nodes, at, i, w, k1, ke, topLevel);
    var inner := Inside(job, n, place, w, kce);
    InsideLeft(job, n, place, w, kce);
    var closer := inner.value.rest.head;
    var b := Block(n.ws, n.name, n.args, inner.value.nodes, closer.ws);
    var p1 := ParseBody(inner.value.rest.tail, topLevel);
    PrependSuccess([b], p1);
    TailRank(job, inner.value.rest.tail, topLevel, l, Next(b, w), y);
    CloserRank(closer, NodesText(Clean(job, p1.value.nodes, l, Next(b, w))) + y, inner.value.rest.tail);
    var y1 := Tail(job, b, p1.value.nodes, l, w, y);
    InnerLost(job, n, place, w, kc, kce, y1);
    SourceText(n, nodes, k);
    CleanedText(job, n, b, p1.value.nodes, l, w, y);
    Cancel(Opening(n), NodesText(Clean(job, b.body, LevelOf(n, w), Inner(n, w))) + y1, NodesText(n.body) + Render(kc));
  }

  lemma InsideLeft(job: Job, n: Node, place: seq<nat>, w: Want, ke: Tokens)
    requires n.Block? && Inside(job, n, place, w, ke).Success?
    ensures var rest := Inside(job, n, place, w, ke).value.rest;
      rest.Cons? && Sound(rest) && rest.head.kind == CloseBrace && GoodToken(rest.head) && Sound(rest.tail)
  {
    var text := Render(FlatNodes(MarkNode(job, n, place, w).body, ke));
    LexIsSound(text);
    ParsedIsSound(Lex(text), false);
    hide Lex, ParseBody;
  }

  lemma SourceText(n: Node, nodes: seq<Node>, k: Tokens)
    requires nodes != [] && n == nodes[0] && n.Block? && GoodNodes(nodes, k)
    ensures NodesText(nodes) + Render(k) == Opening(n) +
      (NodesText(n.body) + Render(Cons(Token(CloseBrace, "}", n.beforeClose), FlatNodes(nodes[1..], k))))
  {
    GoodIsTerminated(nodes, k);
    RenderNodes(nodes[1..], k);
    BlockText(n, nodes[1..], Render(k));
    assert nodes == [n] + nodes[1..];
  }

  lemma CleanedText(job: Job, n: Node, b: Node, nodes: seq<Node>, l: Level, w: Want, y: string)
    requires n.Block? && b.Block? && b.ws == n.ws && b.name == n.name && b.args == n.args
    ensures NodesText(Clean(job, [b] + nodes, l, w)) + y ==
            Opening(n) + (NodesText(Clean(job, b.body, LevelOf(n, w), Inner(n, w))) + Tail(job, b, nodes, l, w, y))
  {
    var cleaned := CleanNode(job, b, w);
    assert ([b] + nodes)[1..] == nodes && !Drops(job, l, b);
    assert Clean(job, [b] + nodes, l, w) == [cleaned] + Clean(job, nodes, l, Next(b, w));
    BlockText(cleaned, Clean(job, nodes, l, Next(b, w)), y);
  }

  /** Inside the block: the lines in front are read back and dropped, or the last of them swallows. */
  lemma {:induction false} InnerLost(job: Job, n: Node, place: seq<nat>, w: Want, k: Tokens, ke: Tokens, y: string)
    requires n.Block? && WordPath(job.path) && Matching(job)
    requires Fits(n.body, k) && Behind(k, ke) && k.head == Token(CloseBrace, "}", n.beforeClose)
    requires NodeSpoiled(job, n, place, w)
    requires Leftover(y, Inside(job, n, place, w, ke), false)
    ensures NodesText(Clean(job, Inside(job, n, place, w, ke).value.nodes, LevelOf(n, w), Inner(n, w))) + y !=
            NodesText(n.body) + Render(k)
    decreases n, 0
  {
    var front, u := FrontOf(job, n, place, w), Inner(n, w);
    if front == [] {
      assert [] + Mark(job, n.body, place, 0, u) == Mark(job, n.body, place, 0, u);
      SpoiledShows(job, n.body, place, 0, LevelOf(n, w), u, k, ke, false, y);
    } else if BodyStartsLine(n) {
      FrontReparsed(job, n, place, w, k, ke);
      var r := Reparsed(job, n.body, place, 0, u, ke, false);
      PrependSuccess(NormNodes(front), r);
      SpoiledShows(job, n.body, place, 0, LevelOf(n, w), u, k, ke, false, y);
      NormDropped(job, n, place, w);
      hide Reparsed, Inside, FrontOf, Clean;
      DroppedFront(job, NormNodes(front), r.value.nodes, LevelOf(n, w), u);
    } else {
      LineLost(job, n, place, w, k, ke, y);
    }
  }

  lemma {:induction false} NormLines(front: seq<Node>)
    requires forall d <- front :: d.Directive?
    ensures forall d <- NormNodes(front) ::
      d.Directive? && exists c <- front :: d == NormNode(c)
  {
    if front != [] {
      assert front[0] in front && forall d <- front[1..] :: d in front;
      NormLines(front[1..]);
      forall d <- NormNodes(front) ensures d.Directive? && exists c <- front :: d == NormNode(c) {
        if d != NormNode(front[0]) {
          assert d in NormNodes(front[1..]);
          var c :| c in front[1..] && d == NormNode(c);
          assert c in front;
        }
      }
    }
  }

  lemma NormDropped(job: Job, n: Node, place: seq<nat>, w: Want)
    requires n.Block? && Matching(job)
    ensures forall d <- NormNodes(FrontOf(job, n, place, w)) :: d.Directive? && Drops(job, LevelOf(n, w), d)
  {
    var front := FrontOf(job, n, place, w);
    FrontDropped(job, n, place, w);
    NormLines(front);
    forall c <- front ensures Drops(job, LevelOf(n, w), NormNode(c)) {
    }
    hide FrontOf;
  }

  lemma FrontReparsed(job: Job, n: Node, place: seq<nat>, w: Want, k: Tokens, ke: Tokens)
    requires n.Block? && WordPath(job.path) && Fits(n.body, k) && Behind(k, ke) && BodyStartsLine(n)
    requires k.head == Token(CloseBrace, "}", n.beforeClose)
    ensures Inside(job, n, place, w, ke) ==
            Prepend(NormNodes(FrontOf(job, n, place, w)), Reparsed(job, n.body, place, 0, Inner(n, w), ke, false))
  {
    var front, body := FrontOf(job, n, place, w), Mark(job, n.body, place, 0, Inner(n, w));
    var f, x := FlatNodes(body, ke), Render(FlatNodes(body, ke));
    IndentGood(n.body, k);
    FrontIsGood(job, n, place, w);
    FirstWs(n.body, k);
    FrontFits(front, n.body, k);
    FlatNodesJoin(front, n.body, k);
    FlatNodesJoin(front, body, ke);
    MarkHead(job, n.body, place, 0, Inner(n, w), k, ke);
    hide Mark, FrontOf, Fits;
    FrontLexed(front, FlatNodes(n.body, k), f);
    GoodLinesGood(front, Lex(x));
    ParseFlatNodes(front, Lex(x), false);
  }

  lemma FrontLexed(front: seq<Node>, k: Tokens, f: Tokens)
    requires k.Cons? && f.Cons? && f.head == k.head && k.head.kind != EndOfFile && GoodToken(k.head)
    requires Lexable(FlatNodes(front, k))
    ensures Lex(Render(FlatNodes(front, f))) == FlatNodes(front, Lex(Render(f)))
  {
    var p := FlatNodes(front, Nil);
    NoEndNodes(front, Nil);
    FlatNodesAppend(front, Nil, k);
    FlatNodesAppend(front, Nil, f);
    FlatNodesAppend(front, Nil, Lex(Render(f)));
    RenderJoin(p, f);
    TextStartsAs(f.head, Render(f.tail));
    LexPrefix(p, k, Render(f));
  }

  lemma GoodLinesGood(front: seq<Node>, k: Tokens)
    requires GoodLines(front)
    ensures GoodNodes(front, k)
  {
    forall d <- front ensures d.trailing != "" && ArgKind(d.name) == Word && !ContainsNewline(d.trailing) {
      assert d.trailing[0] == ' ';
      assert '\n' !in " " + Managed;
    }
    LinesGood(front, k);
  }

  // ----- The line that swallows -----

  lemma ContainsMore(s: string, r: string, sub: string)
    requires Contains(s, sub)
    ensures Contains(s + r, sub)
  {
    var i :| 0 <= i <= |s| - |sub| && OccursAt(s, sub, i);
    assert (s + r)[i..i + |sub|] == s[i..i + |sub|];
    assert OccursAt(s + r, sub, i);
  }

  lemma LongOneDropped(job: Job, l: Level, d: Node, r: string)
    requires GoodLine(d) && Drops(job, l, d)
    ensures Drops(job, l, NormNode(LongOne(d, r)))
  {
    if Contains(d.trailing, "managed by Certbot") { ContainsMore(d.trailing, r, "managed by Certbot"); }
  }

  lemma LongDropped(job: Job, n: Node, place: seq<nat>, w: Want, r: string)
    requires n.Block? && Matching(job) && GoodLines(FrontOf(job, n, place, w)) && FrontOf(job, n, place, w) != []
    ensures forall d <- NormNodes(Longer(FrontOf(job, n, place, w), r)) ::
      d.Directive? && Drops(job, LevelOf(n, w), d)
  {
    var front := FrontOf(job, n, place, w);
    FrontDropped(job, n, place, w);
    hide FrontOf;
    var last := front[|front| - 1];
    assert last in front;
    LongOneDropped(job, LevelOf(n, w), last, r);
    LongerDirectives(front, r);
    NormLines(Longer(front, r));
    forall c <- Longer(front, r) ensures Drops(job, LevelOf(n, w), NormNode(c)) {
      if c != LongOne(last, r) {
        assert c in front[..|front| - 1] && c in front;
        assert Drops(job, LevelOf(n, w), c);
      }
    }
  }

  /** The body text does not start a line. */
  lemma SourceStart(n: Node, k: Tokens)
    requires n.Block? && Fits(n.body, k) && k.Cons? && k.head == Token(CloseBrace, "}", n.beforeClose)
    requires !BodyStartsLine(n)
    ensures var o := NodesText(n.body) + Render(k);
      o == Render(FlatNodes(n.body, k)) && o != "" && o[0] != '\n'
  {
    var flat := FlatNodes(n.body, k);
    FirstWs(n.body, k);
    GoodIsTerminated(n.body, k);
    RenderNodes(n.body, k);
    assert flat.head.kind != EndOfFile;
    TextStart(flat.head, Render(flat.tail));
    HeadChar(flat.head);
  }

  lemma HeadChar(t: Token)
    requires GoodToken(t) && t.kind != EndOfFile
    ensures t.value != "" && t.value[0] != '\n'
  {
  }

  lemma LongReparsed(front: seq<Node>, f: Tokens, r: string, after: string)
    requires front != [] && GoodLines(front) && Render(f) == r + after && !ContainsNewline(r)
    requires after == "" || after[0] == '\n'
    ensures ParseBody(Lex(Render(FlatNodes(front, f))), false) ==
            Prepend(NormNodes(Longer(front, r)), ParseBody(Lex(after), false))
  {
    hide Lex, ParseBody, FlatNodes, GoodNodes, Render, Longer;
    LineSwallows(front, f, r, after);
    LongerGood(front, r, Lex(after));
    ParseFlatNodes(Longer(front, r), Lex(after), false);
  }

  lemma LongerGood(front: seq<Node>, r: string, k: Tokens)
    requires front != [] && GoodLines(front) && !ContainsNewline(r)
    ensures GoodNodes(Longer(front, r), k)
  {
    var last := front[|front| - 1];
    assert last in front;
    LongerDirectives(front, r);
    hide ArgKind, ContainsNewline, GoodWord, GoodWords, AllSpace, StartsLine;
    forall d <- Longer(front, r)
      ensures ArgKind(d.name) == Word && d.comments == [] && !ContainsNewline(d.trailing)
    {
      if d == LongOne(last, r) {
        LineHasKind(last);
        LongStaysOnLine(r);
      } else {
        assert d in front[..|front| - 1] && d in front;
        LineHasKind(d);
      }
    }
    LinesGood(Longer(front, r), k);
  }

  lemma LineHasKind(d: Node)
    requires GoodLine(d)
    ensures ArgKind(d.name) == Word && !ContainsNewline(d.trailing)
  {
    assert '\n' !in " " + Managed;
  }

  lemma LongStaysOnLine(r: string)
    requires !ContainsNewline(r)
    ensures !ContainsNewline(" " + Managed + r)
  {
    assert '\n' !in " " + Managed;
  }

  lemma NothingFails()
    ensures ParseBody(Lex(""), false).Failure?
  {
    assert NextToken("") == (Token(EndOfFile, "", ""), "");
  }

  lemma LineLost(job: Job, n: Node, place: seq<nat>, w: Want, k: Tokens, ke: Tokens, y: string)
    requires n.Block? && WordPath(job.path) && Matching(job)
    requires Fits(n.body, k) && Behind(k, ke) && k.head == Token(CloseBrace, "}", n.beforeClose)
    requires FrontOf(job, n, place, w) != [] && !BodyStartsLine(n)
    requires Leftover(y, Inside(job, n, place, w, ke), false)
    ensures NodesText(Clean(job, Inside(job, n, place, w, ke).value.nodes, LevelOf(n, w), Inner(n, w))) + y !=
            NodesText(n.body) + Render(k)
  {
    hide FrontOf, Clean, Mark, ParseBody, Lex, Fits, FlatNodes, RankTokens, RankOf, NodesText, Lexable, Drops;
    var front, u := FrontOf(job, n, place, w), Inner(n, w);
    var body := Mark(job, n.body, place, 0, u);
    var f := FlatNodes(body, ke);
    var r, after := Render(f)[..LineLen(Render(f))], Render(f)[LineLen(Render(f))..];
    IndentGood(n.body, k);
    FrontIsGood(job, n, place, w);
    RestBehind(job, n.body, place, 0, u, k, ke);
    FlatNodesJoin(front, body, ke);
    LongReparsed(front, f, r, after);
    var q := ParseBody(Lex(after), false);
    PrependSuccess(NormNodes(Longer(front, r)), q);
    NothingFails();
    LongDropped(job, n, place, w, r);
    SourceStart(n, k);
    LexableTidy(FlatNodes(n.body, k));
    AfterRank(r, after, f, FlatNodes(n.body, k));
    DroppedFront(job, NormNodes(Longer(front, r)), q.value.nodes, LevelOf(n, w), u);
    BaseDiffers(job, LevelOf(n, w), u, after, y, NodesText(n.body) + Render(k));
  }

  lemma AfterRank(r: string, after: string, f: Tokens, k: Tokens)
    requires Render(f) == r + after && Behind(k, f) && Tidy(k)
    ensures AtMost(RankOf(after), RankOf(Render(k)))
  {
    hide RankOf, RankTokens;
    RankRender(f);
    RankRender(k);
    RankAppend(r, after);
    ZeroLeast(RankOf(r));
    AtMostItself(RankOf(after));
    PlusMono(Zero, RankOf(r), RankOf(after), RankOf(after));
    PlusZero(RankOf(after));
  }

  // ----- The exact condition -----

  lemma {:induction false} StartIff(job: Job, nodes: seq<Node>, at: seq<nat>, i: nat, w: Want)
    ensures AllStart(job, nodes, at, i, w) <==>
      HitsStartLine(nodes, job.hits, at, i) && (w != NoWant && FindHttp(nodes).At? ==> HttpStartsLine(nodes))
    decreases nodes
  {
    if nodes != [] {
      var n := nodes[0];
      StartIff(job, nodes[1..], at, i + 1, Next(n, w));
      if n.Block? {
        StartIff(job, n.body, at + [i], 0, Inner(n, w));
        FrontIff(job, n, at + [i], w);
      }
      hide FrontOf;
    }
  }

  lemma FrontIff(job: Job, n: Node, place: seq<nat>, w: Want)
    requires n.Block?
    ensures FrontOf(job, n, place, w) != [] <==>
      if n.name == "http" then w != NoWant else n.name == "server" && place in job.hits && !HasRewrite(n.body)
  {
  }

  lemma {:induction false} MarkTerminated(job: Job, nodes: seq<Node>, at: seq<nat>, i: nat, w: Want)
    requires Terminated(nodes)
    ensures Terminated(Mark(job, nodes, at, i, w))
    decreases nodes
  {
    if nodes != [] {
      var n := nodes[0];
      MarkTerminated(job, nodes[1..], at, i + 1, Next(n, w));
      if n.Block? {
        MarkTerminated(job, n.body, at + [i], 0, Inner(n, w));
        TerminatedJoin(FrontOf(job, n, at + [i], w), Mark(job, n.body, at + [i], 0, Inner(n, w)));
      }
      assert Mark(job, nodes, at, i, w)[1..] == Mark(job, nodes[1..], at, i + 1, Next(n, w));
    }
  }

  lemma {:induction false} TerminatedJoin(front: seq<Node>, body: seq<Node>)
    requires (forall d <- front :: d.Directive? && d.semicolon) && Terminated(body)
    ensures Terminated(front + body)
  {
    if front == [] {
      assert front + body == body;
    } else {
      assert front[0] in front && forall d <- front[1..] :: d in front;
      TerminatedJoin(front[1..], body);
      assert (front + body)[1..] == front[1..] + body;
    }
  }

  /** The cleanup with these marks leaves the unedited tree alone, unless that has challenge rewrites
      of its own and the cleanup looks for them. */
  lemma EditStays(job: Job, nodes: seq<Node>, http: bool)
    requires Matching(job)
    ensures var e := EditTree(nodes, job.hits, http, job.path);
      Stays(job, nodes, Plain, Want(e.addedInclude, e.addedBucketSize)) <==> (job.rewrites ==> NoRewrites(nodes))
  {
    var e := EditTree(nodes, job.hits, http, job.path);
    var w := Want(e.addedInclude, e.addedBucketSize);
    TreeUndone(nodes, job.hits, http, job.path);
    MarkIsEdit(job, nodes, http);
    CleanIsStrip(job, e.nodes, w);
    CleanForgets(job, nodes, [], 0, Plain, w);
    StripFixes(nodes);
  }

  lemma EndBehind(ws: string)
    requires Lexable(EndToken(ws))
    ensures Behind(EndToken(ws), EndToken(ws)) && Render(EndToken(ws)) == ws
  {
    LexableTidy(EndToken(ws));
    assert ws + "" + "" == ws;
  }

  lemma BlankLeftover(r: Result<Body>)
    requires r.Success? && AllSpace(r.value.lastWs)
    ensures Leftover(r.value.lastWs, r, true)
  {
    RankBlank(r.value.lastWs);
    ZeroLeast(RankTokens(Stop(r.value, true)));
  }

  /** What the cleanup with these marks has to find: every marked line in front of text that starts a
      line, and no rewrite of the source's own where it looks for rewrites. */
  predicate Undoable(c: Config, job: Job, http: bool) {
    Editable(c, job.hits, http, job.path) && (job.rewrites ==> NoRewrites(c.nodes))
  }

  /** Otherwise the edit is never undone. */
  lemma TextSpoiled(c: Config, job: Job, http: bool)
    requires WellFormed(c) && WordPath(job.path) && Matching(job) && !Undoable(c, job, http)
    ensures var e := EditTree(c.nodes, job.hits, http, job.path);
      StripText(Print(c.(nodes := e.nodes)), job.rewrites, e.addedInclude, e.addedBucketSize, job.path) !=
      Success(Print(c))
  {
    var e := EditTree(c.nodes, job.hits, http, job.path);
    var w, end := Want(e.addedInclude, e.addedBucketSize), EndToken(c.trailing);
    var text := Print(c.(nodes := e.nodes));
    LexableSuffix(c.nodes, end);
    EndBehind(c.trailing);
    MarkIsEdit(job, c.nodes, http);
    EditStays(job, c.nodes, http);
    AddsHttpLine(c.nodes, job.hits, http, job.path);
    StartIff(job, c.nodes, [], 0, w);
    GoodIsTerminated(c.nodes, end);
    MarkTerminated(job, c.nodes, [], 0, w);
    RenderNodes(e.nodes, end);
    var r := Reparsed(job, c.nodes, [], 0, w, end, true);
    assert r == ParseBody(Lex(text), true);
    if r.Success? {
      LexIsSound(text);
      TrailingSpace(Lex(text));
      BlankLeftover(r);
      SpoiledShows(job, c.nodes, [], 0, Plain, w, end, end, true, r.value.lastWs);
      CleanIsStrip(job, r.value.nodes, w);
    }
  }

  /** Edit, print, parse, strip and print gives the print of the unedited configuration exactly when
      every block that gets a marked line starts with a newline behind its brace and, if rewrites are
      stripped, the source has no challenge rewrite of its own. */
  lemma TextUndoneExactly(c: Config, job: Job, http: bool)
    requires WellFormed(c) && WordPath(job.path) && (job.hits != {} ==> job.rewrites)
    ensures var e := EditTree(c.nodes, job.hits, http, job.path);
      var undone := StripText(Print(c.(nodes := e.nodes)), job.rewrites, e.addedInclude, e.addedBucketSize, job.path);
      undone == Success(Print(c)) <==> Undoable(c, job, http)
  {
    hide StripText, EditTree, WellFormed, Editable;
    if Undoable(c, job, http) {
      TextUndone(c, job.hits, http, job.path);
      StripFixes(c.nodes);
    } else {
      TextSpoiled(c, job, http);
    }
  }
}
