/** Which tokens of an nginx configuration survive parsing and printing. */
module NginxTokens {
  import opened NginxLexer
  import opened NginxAst
  import opened NginxParser
  import opened NginxRoundTrip
  import opened NginxSwallow

  /** Kinds and texts, without the whitespace. */
  function Strip(ts: Tokens): (s: seq<(Kind, string)>)
    ensures |s| == Size(ts)
  {
    if ts.Nil? then [] else [(ts.head.kind, ts.head.value)] + Strip(ts.tail)
  }

  /** How many tokens a parser throws away: the comments in the header of a block, and an unclosed
      quote. `inItem` says a directive or block has begun, with `pending` comments in it so far. */
  function Lost(ts: Tokens, inItem: bool, pending: nat): nat {
    if ts.Nil? then 0
    else match ts.head.kind
      case Word | Quoted => Lost(ts.tail, true, if inItem then pending else 0)
      case Hash => Lost(ts.tail, inItem, if inItem then pending + 1 else 0)
      case OpenBrace => pending + Lost(ts.tail, false, 0)
      case Unterminated => 1 + Lost(ts.tail, false, 0)
      case _ => Lost(ts.tail, false, 0)
  }

  /** What is kept of `args` arguments and `comments` comments at the front of `ts`. */
  predicate ArgsKeep(ts: Tokens, rest: Tokens, flat: Tokens, k: Tokens, args: nat, comments: nat, pending: nat) {
    Lost(ts, true, pending) == Lost(rest, true, pending + comments) &&
    Size(ts) == args + comments + Size(rest) && Size(flat) == args + comments + Size(k) &&
    (Strip(k) == Strip(rest) ==> Strip(flat) == Strip(ts))
  }

  lemma OneArgKept(t: Token, u: Token, ts: Tokens, rest: Tokens, flat: Tokens, k: Tokens,
                   args: nat, comments: nat, pending: nat)
    requires ArgsKeep(ts, rest, flat, k, args, comments, pending)
    requires t.kind in {Word, Quoted} && u.kind == t.kind && u.value == t.value
    ensures ArgsKeep(Cons(t, ts), rest, Cons(u, flat), k, args + 1, comments, pending)
  {
  }

  lemma OneCommentKept(t: Token, ts: Tokens, rest: Tokens, flat: Tokens, k: Tokens,
                       args: nat, comments: nat, pending: nat)
    requires ArgsKeep(ts, rest, flat, k, args, comments, pending + 1) && t.kind == Hash
    ensures ArgsKeep(Cons(t, ts), rest, Cons(t, flat), k, args, comments + 1, pending)
  {
  }

  lemma {:induction false} ArgsKept(ts: Tokens, n: nat, pending: nat, k: Tokens)
    requires Sound(ts)
    ensures var a := ParseArgs(ts, n);
      ArgsKeep(ts, a.rest, FlatFrom(a, Seps(a.args, a.argWs), n, k), k, |a.args|, |a.comments|, pending)
    decreases ts
  {
    var a := ParseArgs(ts, n);
    if ts.head.kind in {Word, Quoted} {
      var b, u := ParseArgs(ts.tail, n + 1), ArgToken(ts.head.value, Sep([ts.head.ws], 0));
      FlatFromArg(ts, n, k);
      ArgsKept(ts.tail, n + 1, pending, k);
      hide FlatFrom, Seps, Sound, ArgsKeep;
      OneArgKept(ts.head, u, ts.tail, a.rest, FlatFrom(b, Seps(b.args, b.argWs), n + 1, k), k,
                 |b.args|, |b.comments|, pending);
    } else if ts.head.kind == Hash {
      var b := ParseArgs(ts.tail, n);
      FlatFromComment(ts, n, k);
      ArgsKept(ts.tail, n, pending + 1, k);
      hide FlatFrom, Seps, Sound, ArgsKeep;
      OneCommentKept(ts.head, ts.tail, a.rest, FlatFrom(b, Seps(b.args, b.argWs), n, k), k,
                     |b.args|, |b.comments|, pending);
    }
  }

  lemma {:induction false} SepsDoNotMatter(args: seq<string>, s1: seq<string>, s2: seq<string>, n: int, k: Tokens)
    requires |args| == |s1| == |s2|
    ensures Strip(FlatArgs(args, s1, [], n, k)) == Strip(FlatArgs(args, s2, [], n, k))
  {
    if args != [] { SepsDoNotMatter(args[1..], s1[1..], s2[1..], n + 1, k); }
  }

  /** What is kept of the part of `ts` before `rest` in the part of `flat` before `k`. */
  predicate Keeps(ts: Tokens, rest: Tokens, flat: Tokens, k: Tokens) {
    Lost(ts, false, 0) >= Lost(rest, false, 0) &&
    Size(flat) + Size(rest) + Lost(ts, false, 0) == Size(ts) + Size(k) + Lost(rest, false, 0) &&
    (Lost(ts, false, 0) == Lost(rest, false, 0) && Strip(k) == Strip(rest) ==> Strip(flat) == Strip(ts))
  }

  lemma KeepsChain(ts: Tokens, mid: Tokens, rest: Tokens, flat: Tokens, m: Tokens, k: Tokens)
    requires Keeps(ts, mid, flat, m) && Keeps(mid, rest, m, k)
    ensures Keeps(ts, rest, flat, k)
  {
    hide Lost, Size, Strip;
  }

  function Stop(b: Body, topLevel: bool): Tokens {
    if topLevel then EndToken(b.lastWs) else b.rest
  }

  lemma KeepsDirectiveArgs(ts: Tokens, k: Tokens)
    requires Sound(ts) && ts.head.kind == Word
    requires var a := ParseArgs(ts.tail, 0); a.rest.Cons? && Sound(a.rest) && a.rest.head.kind == Semicolon
    ensures var a := ParseArgs(ts.tail, 0);
      Keeps(ts, a.rest.tail,
            Cons(ts.head, FlatFrom(a, Seps(a.args, a.argWs), 0, Cons(Token(Semicolon, ";", ""), k))), k)
  {
    ArgsKept(ts.tail, 0, 0, Cons(Token(Semicolon, ";", ""), k));
    hide ParseArgs, FlatFrom, Seps;
  }

  lemma KeepsTrailing(ts: Tokens, k: Tokens)
    requires Sound(ts)
    ensures Keeps(ts, TakeTrailing(ts).1, FlatTrailing(TakeTrailing(ts).0, k), k)
  {
    if ts.head.kind == Hash && !ContainsNewline(ts.head.ws) {
      SpaceLenAppend(ts.head.ws, ts.head.value);
      assert FlatTrailing(TakeTrailing(ts).0, k) == Cons(ts.head, k);
    }
  }

  lemma KeepsBlockHeader(ts: Tokens, k: Tokens)
    requires Sound(ts) && ts.head.kind == Word
    requires var a := ParseArgs(ts.tail, 0); a.rest.Cons? && Sound(a.rest) && a.rest.head.kind == OpenBrace
    ensures var a := ParseArgs(ts.tail, 0);
      Keeps(ts, a.rest.tail,
            Cons(ts.head, FlatArgs(a.args, Spaces(|a.args|), [], 0, Cons(Token(OpenBrace, "{", " "), k))), k)
  {
    var a := ParseArgs(ts.tail, 0);
    var k2 := Cons(Token(OpenBrace, "{", " "), k);
    hide Sound;
    ArgsKept(ts.tail, 0, 0, k2);
    FlatWithoutComments(a, k2);
    hide ParseArgs, FlatFrom, FlatArgs, Seps, Spaces;
    SepsDoNotMatter(a.args, Spaces(|a.args|), Seps(a.args, a.argWs), 0, k2);
    HeaderSize(a.args, Spaces(|a.args|), 0, k2);
  }

  lemma FlatWithoutComments(a: Args, k: Tokens)
    requires |a.args| == |a.argWs|
    ensures a.comments == [] ==> FlatFrom(a, Seps(a.args, a.argWs), 0, k) == FlatArgs(a.args, Seps(a.args, a.argWs), [], 0, k)
  {
    hide FlatArgs;
  }

  lemma {:induction false} HeaderSize(args: seq<string>, seps: seq<string>, n: int, k: Tokens)
    requires |args| == |seps|
    ensures Size(FlatArgs(args, seps, [], n, k)) == |args| + Size(k)
  {
    if args != [] { HeaderSize(args[1..], seps[1..], n + 1, k); }
  }

  lemma FlatOneMore(n: Node, nodes: seq<Node>, k: Tokens)
    ensures FlatNodes([n] + nodes, k) == FlatNode(n, FlatNodes(nodes, k))
  {
    assert ([n] + nodes)[1..] == nodes;
  }

  lemma {:induction false} NodesKept(ts: Tokens, topLevel: bool, k: Tokens)
    requires Sound(ts) && ParseBody(ts, topLevel).Success?
    ensures var b := ParseBody(ts, topLevel).value; Keeps(ts, Stop(b, topLevel), FlatNodes(b.nodes, k), k)
    decreases Size(ts), 1
  {
    ParsedIsSound(ts, topLevel);
    if ts.head.kind == Hash {
      CommentKept(ts, topLevel, k);
    } else if ts.head.kind == Word {
      ParsedArgs(ts.tail, 0);
      hide Keeps, FlatNodes, Ordered, GoodToken, Follows;
      if ParseArgs(ts.tail, 0).rest.head.kind == Semicolon { DirectiveKept(ts, topLevel, k); }
      else { BlockKept(ts, topLevel, k); }
    }
  }

  lemma {:induction false} CommentKept(ts: Tokens, topLevel: bool, k: Tokens)
    requires Sound(ts) && ParseBody(ts, topLevel).Success? && ts.head.kind == Hash
    ensures var b := ParseBody(ts, topLevel).value; Keeps(ts, Stop(b, topLevel), FlatNodes(b.nodes, k), k)
    decreases Size(ts), 0
  {
    NodesKept(ts.tail, topLevel, k);
    FlatOneMore(Comment(ts.head.ws, ts.head.value), ParseBody(ts.tail, topLevel).value.nodes, k);
    hide FlatNodes, Sound;
  }

  lemma {:induction false} DirectiveKept(ts: Tokens, topLevel: bool, k: Tokens)
    requires Sound(ts) && ParseBody(ts, topLevel).Success? && ts.head.kind == Word
    requires var a := ParseArgs(ts.tail, 0); a.rest.Cons? && Sound(a.rest) && a.rest.head.kind == Semicolon
    ensures var b := ParseBody(ts, topLevel).value; Keeps(ts, Stop(b, topLevel), FlatNodes(b.nodes, k), k)
    decreases Size(ts), 0
  {
    var b := ParseBody(ts, topLevel).value;
    var a := ParseArgs(ts.tail, 0);
    var (trailing, rest) := TakeTrailing(a.rest.tail);
    TrailingIsSound(a.rest.tail);
    NodesKept(rest, topLevel, k);
    var flat := FlatNodes(ParseBody(rest, topLevel).value.nodes, k);
    var d := Directive(ts.head.ws, ts.head.value, a.args, a.argWs, true, trailing, a.comments);
    FlatOneMore(d, ParseBody(rest, topLevel).value.nodes, k);
    assert ArgToken(ts.head.value, ts.head.ws) == ts.head;
    hide Keeps;
    KeepsTrailing(a.rest.tail, flat);
    KeepsDirectiveArgs(ts, FlatTrailing(trailing, flat));
    KeepsChain(ts, a.rest.tail, rest, FlatNode(d, flat), FlatTrailing(trailing, flat), flat);
    KeepsChain(ts, rest, Stop(b, topLevel), FlatNode(d, flat), flat, k);
  }

  lemma {:induction false} BlockKept(ts: Tokens, topLevel: bool, k: Tokens)
    requires Sound(ts) && ParseBody(ts, topLevel).Success? && ts.head.kind == Word
    requires var a := ParseArgs(ts.tail, 0); a.rest.Cons? && Sound(a.rest) && a.rest.head.kind == OpenBrace
    ensures var b := ParseBody(ts, topLevel).value; Keeps(ts, Stop(b, topLevel), FlatNodes(b.nodes, k), k)
    decreases Size(ts), 0
  {
    var b := ParseBody(ts, topLevel).value;
    var a := ParseArgs(ts.tail, 0);
    var inner := ParseBody(a.rest.tail, false).value;
    ParsedIsSound(a.rest.tail, false);
    NodesKept(inner.rest.tail, topLevel, k);
    var flat := FlatNodes(ParseBody(inner.rest.tail, topLevel).value.nodes, k);
    var k1 := Cons(inner.rest.head, flat);
    assert Keeps(inner.rest, inner.rest.tail, k1, flat);
    NodesKept(a.rest.tail, false, k1);
    var block := Block(ts.head.ws, ts.head.value, a.args, inner.nodes, inner.rest.head.ws);
    FlatOneMore(block, ParseBody(inner.rest.tail, topLevel).value.nodes, k);
    assert ArgToken(ts.head.value, ts.head.ws) == ts.head;
    assert Token(CloseBrace, "}", inner.rest.head.ws) == inner.rest.head;
    hide Keeps;
    var body := FlatNodes(inner.nodes, k1);
    KeepsBlockHeader(ts, body);
    KeepsChain(ts, a.rest.tail, inner.rest, FlatNode(block, flat), body, k1);
    KeepsChain(ts, inner.rest, inner.rest.tail, FlatNode(block, flat), k1, flat);
    KeepsChain(ts, inner.rest.tail, Stop(b, topLevel), FlatNode(block, flat), flat, k);
  }

  /** The tokens of the text of a well-formed configuration are those of its tree. */
  lemma PrintedTokens(c: Config)
    requires WellFormed(c)
    ensures Lex(Print(c)) == FlatConfig(c)
  {
    hide Lexable, Spelled, GoodNodes, Lex, FlatNodes;
    var end := EndToken(c.trailing);
    GoodIsTerminated(c.nodes, end);
    RenderNodes(c.nodes, end);
    assert Render(end) == c.trailing by { assert c.trailing + "" + "" == c.trailing; }
    LexReadsBack(FlatConfig(c));
  }

  // ----- The first token that differs -----

  predicate Same(t: Token, u: Token) {
    t.kind == u.kind && t.value == u.value
  }

  /** Up to the first token that differs, `flat` is `ts`; there, `flat` has no comment. */
  predicate Tracks(ts: Tokens, flat: Tokens) {
    ts.Cons? && flat.Cons? && flat.head.kind != Unterminated &&
    if !Same(ts.head, flat.head) then flat.head.kind != Hash
    else (ts.tail.Nil? && flat.tail.Nil?) || Tracks(ts.tail, flat.tail)
  }

  lemma {:induction false} ArgsTrack(ts: Tokens, n: nat, k: Tokens)
    requires Sound(ts) && Tracks(ParseArgs(ts, n).rest, k)
    ensures var a := ParseArgs(ts, n); Tracks(ts, FlatFrom(a, Seps(a.args, a.argWs), n, k))
    decreases ts
  {
    if ts.head.kind in {Word, Quoted} {
      ArgsTrack(ts.tail, n + 1, k);
      FlatFromArg(ts, n, k);
    } else if ts.head.kind == Hash {
      ArgsTrack(ts.tail, n, k);
      FlatFromComment(ts, n, k);
    }
  }

  /** A comment that is dropped from a block header leaves an argument or the brace in its place. */
  lemma {:induction false} HeaderTracks(ts: Tokens, n: nat, k: Tokens)
    requires Sound(ts) && Tracks(ParseArgs(ts, n).rest, k) && k.head.kind == OpenBrace
    ensures var a := ParseArgs(ts, n); Tracks(ts, FlatArgs(a.args, Spaces(|a.args|), [], n, k))
    decreases ts
  {
    var a := ParseArgs(ts, n);
    if ts.head.kind in {Word, Quoted} {
      HeaderTracks(ts.tail, n + 1, k);
      assert a.args[1..] == ParseArgs(ts.tail, n + 1).args;
      assert Spaces(|a.args|)[1..] == Spaces(|a.args| - 1);
    }
  }

  lemma TrailingTracks(ts: Tokens, k: Tokens)
    requires Sound(ts) && Tracks(TakeTrailing(ts).1, k)
    ensures Tracks(ts, FlatTrailing(TakeTrailing(ts).0, k))
  {
    if ts.head.kind == Hash && !ContainsNewline(ts.head.ws) {
      SpaceLenAppend(ts.head.ws, ts.head.value);
      assert FlatTrailing(TakeTrailing(ts).0, k) == Cons(ts.head, k);
    }
  }

  lemma {:induction false} NodesTrack(ts: Tokens, topLevel: bool, k: Tokens)
    requires Sound(ts) && ParseBody(ts, topLevel).Success?
    requires Tracks(Stop(ParseBody(ts, topLevel).value, topLevel), k)
    ensures Tracks(ts, FlatNodes(ParseBody(ts, topLevel).value.nodes, k))
    decreases Size(ts), 1
  {
    ParsedIsSound(ts, topLevel);
    if ts.head.kind == Hash {
      NodesTrack(ts.tail, topLevel, k);
      FlatOneMore(Comment(ts.head.ws, ts.head.value), ParseBody(ts.tail, topLevel).value.nodes, k);
    } else if ts.head.kind == Word {
      ParsedArgs(ts.tail, 0);
      if ParseArgs(ts.tail, 0).rest.head.kind == Semicolon { DirectiveTracks(ts, topLevel, k); }
      else { BlockTracks(ts, topLevel, k); }
    }
  }

  lemma {:induction false} DirectiveTracks(ts: Tokens, topLevel: bool, k: Tokens)
    requires Sound(ts) && ParseBody(ts, topLevel).Success? && ts.head.kind == Word
    requires var a := ParseArgs(ts.tail, 0); a.rest.Cons? && Sound(a.rest) && a.rest.head.kind == Semicolon
    requires Tracks(Stop(ParseBody(ts, topLevel).value, topLevel), k)
    ensures Tracks(ts, FlatNodes(ParseBody(ts, topLevel).value.nodes, k))
    decreases Size(ts), 0
  {
    var a := ParseArgs(ts.tail, 0);
    var (trailing, rest) := TakeTrailing(a.rest.tail);
    TrailingIsSound(a.rest.tail);
    NodesTrack(rest, topLevel, k);
    var flat := FlatNodes(ParseBody(rest, topLevel).value.nodes, k);
    var d := Directive(ts.head.ws, ts.head.value, a.args, a.argWs, true, trailing, a.comments);
    FlatOneMore(d, ParseBody(rest, topLevel).value.nodes, k);
    TrailingTracks(a.rest.tail, flat);
    ArgsTrack(ts.tail, 0, Cons(Token(Semicolon, ";", ""), FlatTrailing(trailing, flat)));
    assert ArgToken(ts.head.value, ts.head.ws) == ts.head;
  }

  lemma {:induction false} BlockTracks(ts: Tokens, topLevel: bool, k: Tokens)
    requires Sound(ts) && ParseBody(ts, topLevel).Success? && ts.head.kind == Word
    requires var a := ParseArgs(ts.tail, 0); a.rest.Cons? && Sound(a.rest) && a.rest.head.kind == OpenBrace
    requires Tracks(Stop(ParseBody(ts, topLevel).value, topLevel), k)
    ensures Tracks(ts, FlatNodes(ParseBody(ts, topLevel).value.nodes, k))
    decreases Size(ts), 0
  {
    var a := ParseArgs(ts.tail, 0);
    var inner := ParseBody(a.rest.tail, false).value;
    ParsedIsSound(a.rest.tail, false);
    NodesTrack(inner.rest.tail, topLevel, k);
    var flat := FlatNodes(ParseBody(inner.rest.tail, topLevel).value.nodes, k);
    var k1 := Cons(inner.rest.head, flat);
    NodesTrack(a.rest.tail, false, k1);
    assert Sound(ts.tail);
    var block := Block(ts.head.ws, ts.head.value, a.args, inner.nodes, inner.rest.head.ws);
    FlatOneMore(block, ParseBody(inner.rest.tail, topLevel).value.nodes, k);
    assert ArgToken(ts.head.value, ts.head.ws) == ts.head;
    assert Token(CloseBrace, "}", inner.rest.head.ws) == inner.rest.head;
    hide Sound, GoodToken, Follows;
    HeaderTracks(ts.tail, 0, Cons(Token(OpenBrace, "{", " "), FlatNodes(inner.nodes, k1)));
  }

  /** A swallowed semicolon shows, whatever else was dropped. */
  lemma {:induction false} SwallowShows(ts: Tokens, flat: Tokens, lexed: Tokens)
    requires Tracks(ts, flat) && Agree(flat, lexed) && HasSwallow(flat)
    ensures Strip(lexed) != Strip(ts)
    decreases flat
  {
    if Same(ts.head, flat.head) && !Swallows(flat.head, flat.tail.head) {
      SwallowShows(ts.tail, flat.tail, lexed.tail);
      assert Strip(lexed)[1..] == Strip(lexed.tail) && Strip(ts)[1..] == Strip(ts.tail);
    } else {
      assert Strip(lexed)[0] != Strip(ts)[0];
    }
  }

  lemma ParseIsBody(src: string)
    requires Parse(src).Success?
    ensures var c, b := Parse(src).value, ParseBody(Lex(src), true);
      b.Success? && b.value.nodes == c.nodes && Stop(b.value, true) == EndToken(c.trailing)
  {
  }

  lemma EndLosesNothing(ws: string)
    ensures Lost(EndToken(ws), false, 0) == 0
  {
  }

  lemma KeepsExactly(ts: Tokens, end: Tokens, flat: Tokens)
    requires Keeps(ts, end, flat, end) && Lost(end, false, 0) == 0
    ensures Strip(flat) == Strip(ts) <==> Lost(ts, false, 0) == 0
  {
    hide Lost, Size, Strip;
  }

  lemma KeptWithoutTails(src: string)
    requires Parse(src).Success? && NoTailComments(Parse(src).value.nodes)
    ensures Strip(Lex(Print(Parse(src).value))) == Strip(Lex(src)) <==> Lost(Lex(src), false, 0) == 0
  {
    hide *;
    var c, ts := Parse(src).value, Lex(src);
    var end := EndToken(c.trailing);
    LexIsSound(src);
    ParseIsBody(src);
    ParsedRoundTrip(src);
    PrintedTokens(c);
    NodesKept(ts, true, end);
    EndLosesNothing(c.trailing);
    FlatConfigIs(c);
    KeepsExactly(ts, end, FlatConfig(c));
  }

  lemma FlatConfigIs(c: Config)
    ensures FlatConfig(c) == FlatNodes(c.nodes, EndToken(c.trailing))
  {
  }

  lemma LostWithTails(src: string)
    requires Parse(src).Success? && !NoTailComments(Parse(src).value.nodes)
    ensures Strip(Lex(Print(Parse(src).value))) != Strip(Lex(src))
  {
    hide *;
    var c, ts := Parse(src).value, Lex(src);
    var end := EndToken(c.trailing);
    LexIsSound(src);
    ParseIsBody(src);
    EndTracks(c.trailing);
    NodesTrack(ts, true, end);
    FlatConfigIs(c);
    PrintedAgrees(src);
    TailCommentSwallows(src);
    SwallowShows(ts, FlatConfig(c), Lex(Print(c)));
  }

  lemma EndTracks(ws: string)
    ensures Tracks(EndToken(ws), EndToken(ws))
  {
  }

  /** Printing a parsed configuration spells the tokens of the source, in order and with nothing
      added, exactly when no comment stands directly before a semicolon, no block header holds a
      comment and every quote is closed. */
  lemma TokensKept(src: string)
    requires Parse(src).Success?
    ensures var c := Parse(src).value;
      Strip(Lex(Print(c))) == Strip(Lex(src)) <==> NoTailComments(c.nodes) && Lost(Lex(src), false, 0) == 0
  {
    hide *;
    if NoTailComments(Parse(src).value.nodes) { KeptWithoutTails(src); } else { LostWithTails(src); }
  }
}
