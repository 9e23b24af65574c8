/** The exact condition for the round trip of a parsed nginx configuration: a comment directly
    before a semicolon swallows the semicolon when it is printed, and then the text never parses
    back to the same tree. */
module NginxSwallow {
  import opened NginxLexer
  import opened NginxAst
  import opened NginxParser
  import opened NginxRoundTrip

  /** `lexed` is what the scanner makes of the text of `ts`: the same tokens up to the first
      comment that swallows a semicolon, which is longer. */
  predicate Agree(ts: Tokens, lexed: Tokens) {
    ts.Cons? && lexed.Cons? &&
    if ts.tail.Cons? && Swallows(ts.head, ts.tail.head) then
      lexed.head.kind == Hash && lexed.head.ws == ts.head.ws && lexed.head.value != ts.head.value
    else lexed.head == ts.head && (if ts.tail.Nil? then lexed.tail.Nil? else Agree(ts.tail, lexed.tail))
  }

  /** A comment in front of text that does not start a new line takes some of it in. */
  lemma LongerComment(v: string, r: string)
    requires GoodComment(v) && r != "" && r[0] != '\n'
    ensures LineLen(v + r) > |v|
  {
    LineLenAppend(v, []);
    LineLenSplit(v, r);
  }

  lemma {:induction false} LineLenSplit(v: string, r: string)
    requires '\n' !in v
    ensures LineLen(v + r) == |v| + LineLen(r)
  {
    if v == "" { assert v + r == r; }
    else {
      LineLenSplit(v[1..], r);
      assert (v + r)[1..] == v[1..] + r;
    }
  }

  lemma LexSwallowing(t: Token, r: string)
    requires GoodToken(t) && t.kind == Hash && r != "" && r[0] == ';'
    ensures var u := NextToken(t.ws + t.value + r).0;
      u.kind == Hash && u.ws == t.ws && u.value != t.value
  {
    var s := t.value + r;
    var all := t.ws + t.value + r;
    assert all == t.ws + s && s[0] == '#';
    SpaceLenAppend(t.ws, s);
    assert all[|t.ws|..] == s && all[..|t.ws|] == t.ws;
    LongerComment(t.value, r);
  }

  lemma {:induction false} LexAgrees(ts: Tokens)
    requires Spelled(ts, false)
    ensures Agree(ts, Lex(Render(ts)))
  {
    var t, r := ts.head, Render(ts.tail);
    if t.kind == EndOfFile {
      TokenReadBack(t, r);
    } else {
      var u := ts.tail.head;
      TextStart(u, Render(ts.tail.tail));
      if Swallows(t, u) {
        LexSwallowing(t, r);
      } else {
        LexAgrees(ts.tail);
        TokenReadBack(t, r);
      }
    }
  }

  // ----- Parsing what the scanner made of the text -----

  /** The argument tokens end with a comment directly before the semicolon. */
  predicate EndsInComment(ts: Tokens) {
    ts.Cons? && ts.tail.Cons? &&
    match ts.head.kind
    case Word | Quoted => EndsInComment(ts.tail)
    case Hash => Swallows(ts.head, ts.tail.head) || EndsInComment(ts.tail)
    case _ => false
  }

  lemma {:induction false} TailCommentEnds(ts: Tokens, n: nat, c: InternalComment)
    requires var a := ParseArgs(ts, n);
      c in a.comments && c.after >= n + |a.args| - 1 && a.rest.Cons? && a.rest.head == Token(Semicolon, ";", "")
    ensures EndsInComment(ts)
  {
    var a := ParseArgs(ts, n);
    if ts.head.kind in {Word, Quoted} {
      TailCommentEnds(ts.tail, n + 1, c);
    } else if ts.head.kind == Hash {
      var b := ParseArgs(ts.tail, n);
      if b.comments == [] {
        assert c == InternalComment(n - 1, ts.head.ws, ts.head.value);
        assert b.args == [];
      } else {
        CommentsBetween(ts.tail, n, b.comments[0]);
        if c !in b.comments { NoArgsLeft(ts, n); TailCommentEnds(ts.tail, n, b.comments[0]); }
        else { TailCommentEnds(ts.tail, n, c); }
      }
    }
  }

  lemma {:induction false} CommentsBetween(ts: Tokens, n: nat, c: InternalComment)
    requires c in ParseArgs(ts, n).comments
    ensures n - 1 <= c.after < n + |ParseArgs(ts, n).args|
  {
    if ts.head.kind in {Word, Quoted} { CommentsBetween(ts.tail, n + 1, c); }
    else if c in ParseArgs(ts.tail, n).comments { CommentsBetween(ts.tail, n, c); }
  }

  lemma NoArgsLeft(ts: Tokens, n: nat)
    requires ts.Cons? && ts.head.kind == Hash
    ensures ParseArgs(ts, n).args == ParseArgs(ts.tail, n).args
  {
  }

  /** The swallowing comment is read back longer, so the comments of the directive differ. */
  lemma {:induction false} CommentsDiffer(ts: Tokens, lexed: Tokens, n: nat)
    requires EndsInComment(ts) && Agree(ts, lexed)
    ensures ParseArgs(lexed, n).comments != ParseArgs(ts, n).comments
  {
    if ts.head.kind in {Word, Quoted} {
      CommentsDiffer(ts.tail, lexed.tail, n + 1);
    } else if !Swallows(ts.head, ts.tail.head) {
      CommentsDiffer(ts.tail, lexed.tail, n);
      var x, y := ParseArgs(lexed.tail, n).comments, ParseArgs(ts.tail, n).comments;
      var ic := InternalComment(n - 1, ts.head.ws, ts.head.value);
      assert ([ic] + x)[1..] == x && ([ic] + y)[1..] == y;
    } else {
      assert ParseArgs(lexed, n).comments[0].value == lexed.head.value;
      assert ParseArgs(ts, n).comments[0].value == ts.head.value;
    }
  }

  /** Comments that end before the tokens `k` are read back unchanged. */
  lemma {:induction false} AgreeAt(comments: seq<InternalComment>, after: int, k: Tokens, lexed: Tokens)
    returns (rest: Tokens)
    requires Agree(FlatAt(comments, after, k), lexed) && k.Cons?
    requires (exists c <- comments :: c.after == after) ==> k.head.kind != Semicolon
    ensures lexed == FlatAt(comments, after, rest) && Agree(k, rest)
  {
    if comments == [] {
      rest := lexed;
    } else if comments[0].after == after {
      assert comments[0] in comments;
      AtHead(comments[1..], after, k);
      rest := AgreeAt(comments[1..], after, k, lexed.tail);
    } else {
      rest := AgreeAt(comments[1..], after, k, lexed);
    }
  }

  lemma {:induction false} AtCons(comments: seq<InternalComment>, after: int, k: Tokens)
    requires k.Cons?
    ensures FlatAt(comments, after, k).Cons?
  {
    if comments != [] { AtCons(comments[1..], after, k); }
  }

  lemma ArgsCons(args: seq<string>, seps: seq<string>, comments: seq<InternalComment>, n: int, k: Tokens)
    requires |args| == |seps| && k.Cons?
    ensures var flat := FlatArgs(args, seps, comments, n, k);
      flat.Cons? && (args != [] ==> flat.head.kind in {Word, Quoted})
  {
  }

  lemma {:induction false} AtHead(comments: seq<InternalComment>, after: int, k: Tokens)
    requires k.Cons? && k.head.kind != Semicolon
    ensures FlatAt(comments, after, k).Cons? && FlatAt(comments, after, k).head.kind != Semicolon
  {
    if comments != [] { AtHead(comments[1..], after, k); }
  }

  lemma {:induction false} AgreeArgs(args: seq<string>, seps: seq<string>, comments: seq<InternalComment>, n: int,
                                     k: Tokens, lexed: Tokens) returns (rest: Tokens)
    requires |args| == |seps| && k.Cons? && Agree(FlatArgs(args, seps, comments, n, k), lexed)
    requires forall c <- comments :: c.after < n + |args| - 1
    ensures lexed == FlatArgs(args, seps, comments, n, rest) && Agree(k, rest)
  {
    if args == [] {
      rest := lexed;
    } else {
      var k1 := FlatArgs(args[1..], seps[1..], comments, n + 1, k);
      ArgsCons(args[1..], seps[1..], comments, n + 1, k);
      AtCons(comments, n, k1);
      var rest1 := AgreeAt(comments, n, k1, lexed.tail);
      rest := AgreeArgs(args[1..], seps[1..], comments, n + 1, k, rest1);
    }
  }

  /** Nodes without swallowing comments are read back unchanged. */
  lemma {:induction false} AgreeNodes(nodes: seq<Node>, k: Tokens, lexed: Tokens) returns (rest: Tokens)
    requires NoTailComments(nodes) && k.Cons? && k.head.kind != Semicolon
    requires Terminated(nodes) && GoodNodes(nodes, k) && Agree(FlatNodes(nodes, k), lexed)
    ensures lexed == FlatNodes(nodes, rest) && Agree(k, rest)
    decreases nodes, 1
  {
    if nodes == [] {
      rest := lexed;
    } else {
      NotSemicolon(nodes[1..], k);
      var rest1 := AgreeNode(nodes[0], FlatNodes(nodes[1..], k), lexed);
      rest := AgreeNodes(nodes[1..], k, rest1);
    }
  }

  lemma NotSemicolon(nodes: seq<Node>, k: Tokens)
    requires k.Cons? && k.head.kind != Semicolon
    ensures FlatNodes(nodes, k).Cons? && FlatNodes(nodes, k).head.kind != Semicolon
  {
  }

  lemma {:induction false} AgreeNode(n: Node, k: Tokens, lexed: Tokens) returns (rest: Tokens)
    requires NoTailComment(n) && k.Cons? && k.head.kind != Semicolon
    requires TerminatedNode(n) && GoodNode(n, k) && Agree(FlatNode(n, k), lexed)
    ensures lexed == FlatNode(n, rest) && Agree(k, rest)
    decreases n, 0
  {
    match n
    case Comment(_, _) => rest := lexed.tail;
    case Directive(ws, name, args, argWs, _, trailing, comments) => rest := AgreeDirective(n, k, lexed);
    case Block(ws, name, args, body, beforeClose) =>
      var close := Token(CloseBrace, "}", beforeClose);
      var k1 := FlatNodes(body, Cons(close, k));
      NotSemicolon(body, Cons(close, k));
      var rest2 := AgreeHeader(n, k1, lexed);
      var rest1 := AgreeNodes(body, Cons(close, k), rest2);
      rest := rest1.tail;
  }

  lemma AgreeDirective(d: Node, k: Tokens, lexed: Tokens) returns (rest: Tokens)
    requires d.Directive? && d.semicolon && NoTailComment(d) && k.Cons? && k.head.kind != Semicolon
    requires Agree(FlatNode(d, k), lexed) && ArgKind(d.name) == Word
    ensures lexed == FlatNode(d, rest) && Agree(k, rest)
  {
    var k2 := Cons(Token(Semicolon, ";", ""), FlatTrailing(d.trailing, k));
    var k1 := FlatArgs(d.args, Seps(d.args, d.argWs), d.comments, 0, k2);
    ArgsCons(d.args, Seps(d.args, d.argWs), d.comments, 0, k2);
    AtCons(d.comments, -1, k1);
    var rest1 := AgreeAt(d.comments, -1, k1, lexed.tail);
    var rest2 := AgreeArgs(d.args, Seps(d.args, d.argWs), d.comments, 0, k2, rest1);
    rest := if d.trailing == "" then rest2.tail else rest2.tail.tail;
  }

  /** The header of a block is always read back unchanged. */
  lemma AgreeHeader(b: Node, k: Tokens, lexed: Tokens) returns (rest: Tokens)
    requires b.Block? && k.Cons? && ArgKind(b.name) == Word
    requires Agree(Cons(ArgToken(b.name, b.ws), FlatArgs(b.args, Spaces(|b.args|), [], 0,
                                                         Cons(Token(OpenBrace, "{", " "), k))), lexed)
    ensures lexed == Cons(ArgToken(b.name, b.ws), FlatArgs(b.args, Spaces(|b.args|), [], 0,
                                                           Cons(Token(OpenBrace, "{", " "), rest)))
    ensures Agree(k, rest)
  {
    var k1 := Cons(Token(OpenBrace, "{", " "), k);
    ArgsCons(b.args, Spaces(|b.args|), [], 0, k1);
    var rest1 := AgreeArgs(b.args, Spaces(|b.args|), [], 0, k1, lexed.tail);
    rest := rest1.tail;
  }

  /** A parse result that starts with the nodes of the tree. */
  predicate StartsWith(r: Result<Body>, nodes: seq<Node>) {
    r.Success? && nodes <= r.value.nodes
  }

  lemma {:induction false} TailCommentLost(nodes: seq<Node>, k: Tokens, lexed: Tokens, topLevel: bool)
    requires !NoTailComments(nodes) && k.Cons? && k.head.kind != Semicolon
    requires GoodNodes(nodes, k) && Agree(FlatNodes(nodes, k), lexed)
    ensures !StartsWith(ParseBody(lexed, topLevel), NormNodes(nodes))
    decreases nodes, 1
  {
    var n, k1 := nodes[0], FlatNodes(nodes[1..], k);
    NotSemicolon(nodes[1..], k);
    if NoTailComment(n) {
      GoodIsTerminated(nodes, k);
      var rest := AgreeNode(n, k1, lexed);
      AgreeAlike(k1, rest);
      FirstNodeParsed(n, k1, rest, topLevel);
      TailCommentLost(nodes[1..], k, rest, topLevel);
      var r := ParseBody(rest, topLevel);
      OneMoreStarts(NormNode(n), NormNodes(nodes[1..]), r);
    } else if n.Directive? {
      DirectiveLost(n, k1, lexed, topLevel);
    } else {
      var k2 := Cons(Token(CloseBrace, "}", n.beforeClose), k1);
      NotSemicolon(n.body, k2);
      assert FlatNodes(nodes, k) == FlatNode(n, k1) && GoodNode(n, k1);
      var rest := AgreeHeader(n, FlatNodes(n.body, k2), lexed);
      TailCommentLost(n.body, k2, rest, false);
      BlockLost(n, rest, lexed, topLevel);
    }
  }

  lemma OneMoreStarts(n: Node, nodes: seq<Node>, r: Result<Body>)
    ensures StartsWith(Prepend([n], r), [n] + nodes) ==> StartsWith(r, nodes)
  {
    if r.Success? && [n] + nodes <= [n] + r.value.nodes {
      assert ([n] + nodes)[1..] == nodes;
      assert ([n] + r.value.nodes)[1..] == r.value.nodes;
    }
  }

  lemma AgreeAlike(k: Tokens, lexed: Tokens)
    requires Agree(k, lexed)
    ensures Alike(k, lexed)
  {
  }

  lemma FirstNodeParsed(n: Node, k: Tokens, rest: Tokens, topLevel: bool)
    requires GoodNode(n, k) && Alike(k, rest)
    ensures ParseBody(FlatNode(n, rest), topLevel) == Prepend([NormNode(n)], ParseBody(rest, topLevel))
  {
    GoodAlike([n], k, rest) by { assert [n][1..] == []; }
    assert GoodNode(n, rest);
    match n
    case Comment(_, _) =>
    case Directive(_, _, _, _, _, _, _) => ParseFlatDirective(n, rest, topLevel);
    case Block(_, _, _, body, beforeClose) =>
      ParseFlatNodes(body, Cons(Token(CloseBrace, "}", beforeClose), rest), false);
      ParseFlatBlock(n, rest, topLevel);
  }

  lemma DirectiveArgsDiffer(d: Node, k: Tokens, lexed: Tokens)
    requires d.Directive? && GoodNode(d, k) && !NoTailComment(d) && Agree(FlatNode(d, k), lexed)
    ensures lexed.Cons? && lexed.head.kind == Word && ParseArgs(lexed.tail, 0).comments != d.comments
  {
    var seps := Seps(d.args, d.argWs);
    var k2 := Cons(Token(Semicolon, ";", ""), FlatTrailing(d.trailing, k));
    var k1 := FlatArgs(d.args, seps, d.comments, 0, k2);
    var ts := FlatAt(d.comments, -1, k1);
    ArgsCons(d.args, seps, d.comments, 0, k2);
    AtCons(d.comments, -1, k1);
    assert Agree(ts, lexed.tail);
    ParseFlatDirectiveArgs(d.args, seps, d.comments, k2);
    hide ParseArgs, Agree, FlatAt, FlatArgs, EndsInComment, FlatTrailing;
    var c :| c in d.comments && c.after >= |d.args| - 1;
    TailCommentEnds(ts, 0, c);
    CommentsDiffer(ts, lexed.tail, 0);
  }

  lemma DirectiveLost(d: Node, k: Tokens, lexed: Tokens, topLevel: bool)
    requires d.Directive? && GoodNode(d, k) && !NoTailComment(d) && Agree(FlatNode(d, k), lexed)
    ensures ParseBody(lexed, topLevel).Success? ==>
      ParseBody(lexed, topLevel).value.nodes != [] && ParseBody(lexed, topLevel).value.nodes[0] != NormNode(d)
  {
    DirectiveArgsDiffer(d, k, lexed);
    hide Agree, FlatNode, GoodNode;
  }

  lemma BlockLost(b: Node, rest: Tokens, lexed: Tokens, topLevel: bool)
    requires b.Block? && ArgKind(b.name) == Word
    requires lexed == Cons(ArgToken(b.name, b.ws), FlatArgs(b.args, Spaces(|b.args|), [], 0,
                                                            Cons(Token(OpenBrace, "{", " "), rest)))
    requires !StartsWith(ParseBody(rest, false), NormNodes(b.body))
    ensures ParseBody(lexed, topLevel).Success? ==>
      ParseBody(lexed, topLevel).value.nodes != [] && ParseBody(lexed, topLevel).value.nodes[0] != NormNode(b)
  {
    ParseFlatArgs(b.args, Spaces(|b.args|), [], 0, Cons(Token(OpenBrace, "{", " "), rest));
  }

  /** The scanner reads the text of a parsed configuration as the tokens of its tree, up to the
      first comment that swallows a semicolon. */
  lemma PrintedAgrees(src: string)
    requires Parse(src).Success?
    ensures var c := Parse(src).value;
      GoodNodes(c.nodes, EndToken(c.trailing)) && Spelled(FlatConfig(c), false) &&
      Agree(FlatConfig(c), Lex(Print(c)))
  {
    var c := Parse(src).value;
    var end := EndToken(c.trailing);
    LexIsSound(src);
    TrailingSpace(Lex(src));
    ParsedNodes(Lex(src), true, end, false);
    GoodIsTerminated(c.nodes, end);
    RenderNodes(c.nodes, end);
    assert Render(end) == c.trailing by { assert c.trailing + "" + "" == c.trailing; }
    LexAgrees(FlatConfig(c));
  }

  /** Printing a parsed configuration and parsing the text again gives the configuration back
      exactly when no internal comment stands directly before a semicolon. */
  lemma RoundTripExactly(src: string)
    requires Parse(src).Success?
    ensures var c := Parse(src).value;
      Parse(Print(c)) == Success(Norm(c)) <==> NoTailComments(c.nodes)
  {
    var c := Parse(src).value;
    if NoTailComments(c.nodes) {
      ParsedRoundTrip(src);
    } else {
      PrintedAgrees(src);
      TailCommentLost(c.nodes, EndToken(c.trailing), Lex(Print(c)), true);
    }
  }

  /** Some comment swallows a semicolon. */
  predicate HasSwallow(ts: Tokens) {
    ts.Cons? && ts.tail.Cons? && (Swallows(ts.head, ts.tail.head) || HasSwallow(ts.tail))
  }

  lemma {:induction false} NoSwallowIsLexable(ts: Tokens)
    requires Spelled(ts, false) && !HasSwallow(ts)
    ensures Lexable(ts)
  {
    if ts.tail.Cons? { NoSwallowIsLexable(ts.tail); }
  }

  /** The printed tokens of a tree with such a comment have a swallowed semicolon. */
  lemma TailCommentSwallows(src: string)
    requires Parse(src).Success? && !NoTailComments(Parse(src).value.nodes)
    ensures HasSwallow(FlatConfig(Parse(src).value))
  {
    var c := Parse(src).value;
    if !HasSwallow(FlatConfig(c)) {
      PrintedAgrees(src);
      NoSwallowIsLexable(FlatConfig(c));
      RoundTrip(c);
      RoundTripExactly(src);
      assert false;
    }
  }
}
