/** How much of a text comes before its first brace, and how many braces it has: a measure that
    parsing, printing and deleting nodes never increase, and that text inserted behind a brace
    does not change. */
module NginxRank {
  import opened NginxLexer
  import opened NginxAst
  import opened NginxParser
  import opened NginxRoundTrip
  import opened NginxSplice
  import opened NginxTokens
  import opened Text

  /** The braces of a text, and its visible characters before the first of them. */
  datatype Rank = Rank(braces: nat, head: nat)

  const Zero := Rank(0, 0)

  function Plus(a: Rank, b: Rank): Rank {
    Rank(a.braces + b.braces, if a.braces > 0 then a.head else a.head + b.head)
  }

  /** The lexicographic order. */
  predicate AtMost(a: Rank, b: Rank) {
    a.braces < b.braces || (a.braces == b.braces && a.head <= b.head)
  }

  lemma PlusMono(a: Rank, b: Rank, c: Rank, d: Rank)
    requires AtMost(a, b) && AtMost(c, d)
    ensures AtMost(Plus(a, c), Plus(b, d))
  {
  }

  lemma ZeroLeast(a: Rank)
    ensures AtMost(Zero, a)
  {
  }

  lemma AtMostItself(a: Rank)
    ensures AtMost(a, a)
  {
  }

  lemma PlusAssoc(a: Rank, b: Rank, c: Rank)
    ensures Plus(Plus(a, b), c) == Plus(a, Plus(b, c))
  {
  }

  lemma PlusZero(a: Rank)
    ensures Plus(Zero, a) == a && Plus(a, Zero) == a
  {
  }

  function CharRank(c: char): Rank {
    if c == '{' || c == '}' then Rank(1, 0) else if IsSpace(c) then Zero else Rank(0, 1)
  }

  function RankOf(s: string): Rank {
    if s == "" then Zero else Plus(CharRank(s[0]), RankOf(s[1..]))
  }

  lemma {:induction false} RankAppend(a: string, b: string)
    ensures RankOf(a + b) == Plus(RankOf(a), RankOf(b))
  {
    hide Plus, CharRank;
    if a == "" {
      assert a + b == b;
      PlusZero(RankOf(b));
    } else {
      RankAppend(a[1..], b);
      assert (a + b)[1..] == a[1..] + b;
      PlusAssoc(CharRank(a[0]), RankOf(a[1..]), RankOf(b));
    }
  }

  lemma RankEmpty()
    ensures RankOf("") == Zero
  {
  }

  lemma {:induction false} RankBlank(ws: string)
    requires AllSpace(ws)
    ensures RankOf(ws) == Zero
  {
    if ws != "" {
      assert IsSpace(ws[0]) && CharRank(ws[0]) == Zero;
      RankBlank(ws[1..]);
    }
  }

  lemma {:induction false} RankNoBraces(s: string)
    requires '{' !in s && '}' !in s
    ensures RankOf(s).braces == 0
  {
    if s != "" { RankNoBraces(s[1..]); }
  }

  // ----- Token streams -----

  function RankTokens(ts: Tokens): Rank {
    if ts.Nil? then Zero else Plus(RankOf(ts.head.value), RankTokens(ts.tail))
  }

  /** All whitespace is whitespace. */
  predicate Tidy(ts: Tokens) {
    ts.Cons? ==> AllSpace(ts.head.ws) && Tidy(ts.tail)
  }

  lemma {:induction false} RankRender(ts: Tokens)
    requires Tidy(ts)
    ensures RankOf(Render(ts)) == RankTokens(ts)
  {
    hide Plus, RankOf;
    RankEmpty();
    if ts.Cons? {
      RankRender(ts.tail);
      RankBlank(ts.head.ws);
      RankAppend(ts.head.ws, ts.head.value);
      RankAppend(ts.head.ws + ts.head.value, Render(ts.tail));
      PlusZero(RankOf(ts.head.value));
    }
  }

  lemma LexUnclosed(s: string)
    requires NextToken(s).0.kind == Unterminated
    ensures RankTokens(Lex(s)) == Zero
  {
    UnclosedToken(s);
    LexNothing();
    hide NextToken;
  }

  lemma UnclosedToken(s: string)
    requires NextToken(s).0.kind == Unterminated
    ensures NextToken(s) == (Token(Unterminated, "", ""), "")
  {
    hide SpaceLen, QuoteLen, WordLen, LineLen;
  }

  lemma LexNothing()
    ensures Lex("") == Cons(Token(EndOfFile, "", ""), Nil)
  {
    assert NextToken("") == (Token(EndOfFile, "", ""), "");
  }

  lemma LexNext(s: string)
    requires NextToken(s).0.kind != Unterminated
    ensures var (t, rest) := NextToken(s);
      s == t.ws + t.value + rest && (t.kind != EndOfFile ==> |rest| < |s|) &&
      RankTokens(Lex(s)) == Plus(RankOf(t.value), if t.kind == EndOfFile then Zero else RankTokens(Lex(rest)))
  {
    hide NextToken, RankOf, Plus;
    assert RankTokens(Nil) == Zero;
  }

  /** The scanner finds no more than the text has. */
  lemma {:induction false} RankLex(s: string)
    ensures AtMost(RankTokens(Lex(s)), RankOf(s))
    decreases |s|
  {
    hide *;
    var (t, rest) := NextToken(s);
    if t.kind == Unterminated {
      LexUnclosed(s);
      ZeroLeast(RankOf(s));
    } else {
      LexNext(s);
      var front := t.ws + t.value;
      RankAppend(t.ws, t.value);
      RankAppend(front, rest);
      ZeroLeast(RankOf(t.ws));
      AtMostItself(RankOf(t.value));
      PlusMono(Zero, RankOf(t.ws), RankOf(t.value), RankOf(t.value));
      PlusZero(RankOf(t.value));
      ZeroLeast(RankOf(rest));
      if t.kind == EndOfFile {
        PlusMono(RankOf(t.value), RankOf(front), Zero, RankOf(rest));
      } else {
        RankLex(rest);
        PlusMono(RankOf(t.value), RankOf(front), RankTokens(Lex(rest)), RankOf(rest));
      }
    }
  }

  lemma {:induction false} RankJoin(a: Tokens, k: Tokens)
    ensures RankTokens(Append(a, k)) == Plus(RankTokens(a), RankTokens(k))
    ensures Tidy(Append(a, k)) <==> Tidy(a) && Tidy(k)
  {
    hide Plus, RankOf;
    PlusZero(RankTokens(k));
    if a.Cons? {
      RankJoin(a.tail, k);
      PlusAssoc(RankOf(a.head.value), RankTokens(a.tail), RankTokens(k));
    }
  }

  lemma NothingBefore(k: Tokens)
    ensures Append(Nil, k) == k
  {
  }

  lemma RankNode(n: Node, k: Tokens)
    ensures RankTokens(FlatNode(n, k)) == Plus(RankTokens(FlatNode(n, Nil)), RankTokens(k))
    ensures Tidy(FlatNode(n, k)) <==> Tidy(FlatNode(n, Nil)) && Tidy(k)
  {
    hide *;
    FlatNodeAppend(n, Nil, k);
    NothingBefore(k);
    RankJoin(FlatNode(n, Nil), k);
  }

  /** A node in front of a smaller stream. */
  lemma RankNodeMono(n: Node, k: Tokens, k': Tokens)
    requires AtMost(RankTokens(k'), RankTokens(k))
    ensures AtMost(RankTokens(FlatNode(n, k')), RankTokens(FlatNode(n, k)))
  {
    RankNode(n, k);
    RankNode(n, k');
    PlusMono(RankTokens(FlatNode(n, Nil)), RankTokens(FlatNode(n, Nil)), RankTokens(k'), RankTokens(k));
  }

  // ----- Parsing -----

  /** `k` has no more than `ts`, and blanks between its tokens. */
  predicate Within(k: Tokens, ts: Tokens) {
    Tidy(k) && AtMost(RankTokens(k), RankTokens(ts))
  }

  lemma OneMoreWithin(t: Token, u: Token, k: Tokens, ts: Tokens)
    requires Within(k, ts) && t.value == u.value && AllSpace(t.ws)
    ensures Within(Cons(t, k), Cons(u, ts))
  {
    PlusMono(RankOf(t.value), RankOf(t.value), RankTokens(k), RankTokens(ts));
  }

  lemma OneLessWithin(u: Token, k: Tokens, ts: Tokens)
    requires Within(k, ts)
    ensures Within(k, Cons(u, ts))
  {
    PlusMono(Zero, RankOf(u.value), RankTokens(k), RankTokens(ts));
  }

  lemma {:induction false} ArgsWithin(ts: Tokens, n: nat, k: Tokens)
    requires Sound(ts) && Within(k, ParseArgs(ts, n).rest)
    ensures var a := ParseArgs(ts, n); Within(FlatFrom(a, Seps(a.args, a.argWs), n, k), ts)
    decreases ts
  {
    if ts.head.kind in {Word, Quoted} {
      ArgsWithin(ts.tail, n + 1, k);
      FlatFromArg(ts, n, k);
      var b := ParseArgs(ts.tail, n + 1);
      assert AllSpace(Sep([ts.head.ws], 0));
      OneMoreWithin(ArgToken(ts.head.value, Sep([ts.head.ws], 0)), ts.head,
                    FlatFrom(b, Seps(b.args, b.argWs), n + 1, k), ts.tail);
    } else if ts.head.kind == Hash {
      ArgsWithin(ts.tail, n, k);
      FlatFromComment(ts, n, k);
      var b := ParseArgs(ts.tail, n);
      OneMoreWithin(ts.head, ts.head, FlatFrom(b, Seps(b.args, b.argWs), n, k), ts.tail);
    }
  }

  lemma {:induction false} HeaderWithin(ts: Tokens, n: nat, k: Tokens)
    requires Sound(ts) && Within(k, ParseArgs(ts, n).rest)
    ensures var a := ParseArgs(ts, n); Within(FlatArgs(a.args, Spaces(|a.args|), [], n, k), ts)
    decreases ts
  {
    hide Within;
    var a := ParseArgs(ts, n);
    if ts.head.kind in {Word, Quoted} {
      HeaderWithin(ts.tail, n + 1, k);
      assert a.args[1..] == ParseArgs(ts.tail, n + 1).args && Spaces(|a.args|)[1..] == Spaces(|a.args| - 1);
      OneMoreWithin(ArgToken(ts.head.value, " "), ts.head,
                    FlatArgs(a.args[1..], Spaces(|a.args| - 1), [], n + 1, k), ts.tail);
    } else if ts.head.kind == Hash {
      HeaderWithin(ts.tail, n, k);
      OneLessWithin(ts.head, FlatArgs(a.args, Spaces(|a.args|), [], n, k), ts.tail);
    }
  }

  lemma TrailingWithin(ts: Tokens, k: Tokens)
    requires Sound(ts) && Within(k, TakeTrailing(ts).1)
    ensures Within(FlatTrailing(TakeTrailing(ts).0, k), ts)
  {
    hide Within;
    if ts.head.kind == Hash && !ContainsNewline(ts.head.ws) {
      SpaceLenAppend(ts.head.ws, ts.head.value);
      assert FlatTrailing(TakeTrailing(ts).0, k) == Cons(ts.head, k);
      OneMoreWithin(ts.head, ts.head, k, ts.tail);
    } else if ts.head.kind == Unterminated {
      OneLessWithin(ts.head, k, ts.tail);
    }
  }

  /** The printed nodes have no more than the tokens they were read from. */
  lemma {:induction false} NodesWithin(ts: Tokens, topLevel: bool, k: Tokens)
    requires Sound(ts) && ParseBody(ts, topLevel).Success?
    requires Within(k, Stop(ParseBody(ts, topLevel).value, topLevel))
    ensures Within(FlatNodes(ParseBody(ts, topLevel).value.nodes, k), ts)
    ensures Terminated(ParseBody(ts, topLevel).value.nodes)
    decreases Size(ts), 1
  {
    hide Within;
    ParsedIsSound(ts, topLevel);
    if ts.head.kind == Hash {
      NodesWithin(ts.tail, topLevel, k);
      var nodes := ParseBody(ts.tail, topLevel).value.nodes;
      FlatOneMore(Comment(ts.head.ws, ts.head.value), nodes, k);
      OneMoreTerminated(Comment(ts.head.ws, ts.head.value), nodes);
      OneMoreWithin(ts.head, ts.head, FlatNodes(nodes, k), ts.tail);
    } else if ts.head.kind == Word {
      ParsedArgs(ts.tail, 0);
      if ParseArgs(ts.tail, 0).rest.head.kind == Semicolon { DirectiveWithin(ts, topLevel, k); }
      else { BlockWithin(ts, topLevel, k); }
    }
  }

  lemma OneMoreTerminated(n: Node, nodes: seq<Node>)
    requires TerminatedNode(n) && Terminated(nodes)
    ensures Terminated([n] + nodes)
  {
    assert ([n] + nodes)[1..] == nodes;
  }

  lemma BlockTerminated(b: Node, nodes: seq<Node>)
    requires b.Block? && Terminated(b.body) && Terminated(nodes)
    ensures Terminated([b] + nodes)
  {
    OneMoreTerminated(b, nodes);
  }

  lemma {:induction false} DirectiveWithin(ts: Tokens, topLevel: bool, k: Tokens)
    requires Sound(ts) && ParseBody(ts, topLevel).Success? && ts.head.kind == Word
    requires var a := ParseArgs(ts.tail, 0); a.rest.Cons? && Sound(a.rest) && a.rest.head.kind == Semicolon
    requires Within(k, Stop(ParseBody(ts, topLevel).value, topLevel))
    ensures Within(FlatNodes(ParseBody(ts, topLevel).value.nodes, k), ts)
    ensures Terminated(ParseBody(ts, topLevel).value.nodes)
    decreases Size(ts), 0
  {
    hide Within, FlatNode, FlatNodes, Terminated;
    var a := ParseArgs(ts.tail, 0);
    var rest := TakeTrailing(a.rest.tail).1;
    TrailingIsSound(a.rest.tail);
    NodesWithin(rest, topLevel, k);
    var nodes := ParseBody(rest, topLevel).value.nodes;
    var d := Directive(ts.head.ws, ts.head.value, a.args, a.argWs, true, TakeTrailing(a.rest.tail).0, a.comments);
    FlatOneMore(d, nodes, k);
    OneMoreTerminated(d, nodes);
    OneDirectiveWithin(ts, FlatNodes(nodes, k));
  }

  lemma SemicolonSound(ts: Tokens)
    requires Sound(ts) && ts.head.kind == Semicolon
    ensures Sound(ts.tail) && ts.head.value == ";" && AllSpace("")
  {
  }

  lemma WordSound(ts: Tokens)
    requires Sound(ts) && ts.head.kind == Word
    ensures Sound(ts.tail) && AllSpace(ts.head.ws)
    ensures var t := ArgToken(ts.head.value, ts.head.ws); t.value == ts.head.value && t.ws == ts.head.ws
  {
  }

  /** A directive in front of `k` has no more than its tokens in front of those behind it. */
  lemma OneDirectiveWithin(ts: Tokens, k: Tokens)
    requires Sound(ts) && ts.head.kind == Word
    requires var a := ParseArgs(ts.tail, 0); a.rest.Cons? && Sound(a.rest) && a.rest.head.kind == Semicolon
    requires Within(k, TakeTrailing(ParseArgs(ts.tail, 0).rest.tail).1)
    ensures var a := ParseArgs(ts.tail, 0); var trailing := TakeTrailing(a.rest.tail).0;
      Within(FlatNode(Directive(ts.head.ws, ts.head.value, a.args, a.argWs, true, trailing, a.comments), k), ts)
  {
    var a := ParseArgs(ts.tail, 0);
    var trailing := TakeTrailing(a.rest.tail).0;
    SemicolonSound(a.rest);
    WordSound(ts);
    hide Within, Sound, ParseArgs, TakeTrailing, FlatTrailing, FlatAt, FlatArgs, Seps, ArgToken, GoodToken;
    TrailingWithin(a.rest.tail, k);
    var k1 := FlatTrailing(trailing, k);
    OneMoreWithin(Token(Semicolon, ";", ""), a.rest.head, k1, a.rest.tail);
    ArgsWithin(ts.tail, 0, Cons(Token(Semicolon, ";", ""), k1));
    OneMoreWithin(ArgToken(ts.head.value, ts.head.ws), ts.head,
                  FlatFrom(a, Seps(a.args, a.argWs), 0, Cons(Token(Semicolon, ";", ""), k1)), ts.tail);
  }

  lemma {:induction false} BlockWithin(ts: Tokens, topLevel: bool, k: Tokens)
    requires Sound(ts) && ParseBody(ts, topLevel).Success? && ts.head.kind == Word
    requires var a := ParseArgs(ts.tail, 0); a.rest.Cons? && Sound(a.rest) && a.rest.head.kind == OpenBrace
    requires Within(k, Stop(ParseBody(ts, topLevel).value, topLevel))
    ensures Within(FlatNodes(ParseBody(ts, topLevel).value.nodes, k), ts)
    ensures Terminated(ParseBody(ts, topLevel).value.nodes)
    decreases Size(ts), 0
  {
    hide Within, RankTokens, RankOf, Tidy, Terminated;
    var a := ParseArgs(ts.tail, 0);
    var inner := ParseBody(a.rest.tail, false).value;
    var closer := inner.rest.head;
    ParsedIsSound(a.rest.tail, false);
    NodesWithin(inner.rest.tail, topLevel, k);
    var nodes := ParseBody(inner.rest.tail, topLevel).value.nodes;
    var k1 := Cons(Token(CloseBrace, "}", closer.ws), FlatNodes(nodes, k));
    OneMoreWithin(k1.head, closer, FlatNodes(nodes, k), inner.rest.tail);
    NodesWithin(a.rest.tail, false, k1);
    var block := Block(ts.head.ws, ts.head.value, a.args, inner.nodes, closer.ws);
    FlatOneMore(block, nodes, k);
    BlockTerminated(block, nodes);
    var k2 := Cons(Token(OpenBrace, "{", " "), FlatNodes(inner.nodes, k1));
    OneMoreWithin(k2.head, a.rest.head, FlatNodes(inner.nodes, k1), a.rest.tail);
    HeaderWithin(ts.tail, 0, k2);
    OneMoreWithin(ArgToken(ts.head.value, ts.head.ws), ts.head,
                  FlatArgs(a.args, Spaces(|a.args|), [], 0, k2), ts.tail);
  }
}
