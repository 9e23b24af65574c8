/** Printing and parsing nginx configurations: which trees come back from their own text, and what
    a parsed configuration keeps of its source. */
module NginxRoundTrip {
  import opened Common
  import opened Text
  import opened NginxLexer
  import opened NginxAst
  import opened NginxParser

  // ----- Well-formed trees -----

  /** The tree with every separator written out, as a parse records it. */
  function NormNode(n: Node): Node
    decreases n, 0
  {
    match n
    case Directive(ws, name, args, argWs, semicolon, trailing, comments) => n.(argWs := Seps(args, argWs))
    case Block(ws, name, args, body, beforeClose) => n.(body := NormNodes(body))
    case Comment(_, _) => n
  }

  function NormNodes(nodes: seq<Node>): (r: seq<Node>)
    ensures |r| == |nodes|
    decreases nodes, 1
  {
    if nodes == [] then [] else [NormNode(nodes[0])] + NormNodes(nodes[1..])
  }

  function Norm(c: Config): Config {
    c.(nodes := NormNodes(c.nodes))
  }

  /** Internal comments in the order of the arguments they follow, of which there are `m`. */
  predicate Ordered(comments: seq<InternalComment>, m: int) {
    (forall i :: 0 <= i < |comments| ==> -1 <= comments[i].after < m) &&
    (forall i, j :: 0 <= i < j < |comments| ==> comments[i].after <= comments[j].after)
  }

  /** A parser behind a semicolon would take (or drop) the head of `k` with the directive. */
  predicate Attaches(k: Tokens) {
    k.Cons? && (k.head.kind == Unterminated || (k.head.kind == Hash && !ContainsNewline(k.head.ws)))
  }

  predicate GoodNode(n: Node, k: Tokens)
    decreases n, 0
  {
    match n
    case Directive(ws, name, args, argWs, semicolon, trailing, comments) =>
      ArgKind(name) == Word && semicolon && Ordered(comments, |args|) && !ContainsNewline(trailing) &&
      (trailing == "" ==> !Attaches(k))
    case Block(ws, name, args, body, beforeClose) =>
      ArgKind(name) == Word && GoodNodes(body, Cons(Token(CloseBrace, "}", beforeClose), k))
    case Comment(_, _) => true
  }

  /** Nothing in the tree would attach to a different place when its tokens, followed by `k`, are parsed. */
  predicate GoodNodes(nodes: seq<Node>, k: Tokens)
    decreases nodes, 1
  {
    nodes == [] || (GoodNode(nodes[0], FlatNodes(nodes[1..], k)) && GoodNodes(nodes[1..], k))
  }

  /** Whether trailing comments attach is decided by the kind and the whitespace of the next token. */
  predicate Alike(k: Tokens, k': Tokens) {
    k.Cons? && k'.Cons? && k.head.kind == k'.head.kind && k.head.ws == k'.head.ws
  }

  lemma {:induction false} GoodAlike(nodes: seq<Node>, k: Tokens, k': Tokens)
    requires GoodNodes(nodes, k) && Alike(k, k')
    ensures GoodNodes(nodes, k') && Alike(FlatNodes(nodes, k), FlatNodes(nodes, k'))
    decreases nodes
  {
    if nodes != [] {
      GoodAlike(nodes[1..], k, k');
      var n := nodes[0];
      if n.Block? {
        var close := Token(CloseBrace, "}", n.beforeClose);
        GoodAlike(n.body, Cons(close, FlatNodes(nodes[1..], k)), Cons(close, FlatNodes(nodes[1..], k')));
      }
    }
  }

  predicate WellFormed(c: Config) {
    GoodNodes(c.nodes, EndToken(c.trailing)) && Lexable(FlatConfig(c))
  }

  lemma {:induction false} GoodIsTerminated(nodes: seq<Node>, k: Tokens)
    requires GoodNodes(nodes, k)
    ensures Terminated(nodes)
    decreases nodes
  {
    if nodes != [] {
      GoodIsTerminated(nodes[1..], k);
      if nodes[0].Block? {
        GoodIsTerminated(nodes[0].body, Cons(Token(CloseBrace, "}", nodes[0].beforeClose), FlatNodes(nodes[1..], k)));
      }
    }
  }

  // ----- Parsing the tokens of a tree -----

  function At(comments: seq<InternalComment>, after: int): seq<InternalComment> {
    if comments == [] then []
    else (if comments[0].after == after then [comments[0]] else []) + At(comments[1..], after)
  }

  function From(comments: seq<InternalComment>, after: int): seq<InternalComment> {
    if comments == [] then []
    else (if comments[0].after >= after then [comments[0]] else []) + From(comments[1..], after)
  }

  lemma {:induction false} FromAll(comments: seq<InternalComment>, after: int)
    requires forall i :: 0 <= i < |comments| ==> comments[i].after >= after
    ensures From(comments, after) == comments
  {
    if comments != [] { FromAll(comments[1..], after); }
  }

  lemma {:induction false} FromNone(comments: seq<InternalComment>, after: int)
    requires forall i :: 0 <= i < |comments| ==> comments[i].after < after
    ensures From(comments, after) == []
  {
    if comments != [] { FromNone(comments[1..], after); }
  }

  lemma {:induction false} AtNone(comments: seq<InternalComment>, after: int)
    requires forall i :: 0 <= i < |comments| ==> comments[i].after > after
    ensures At(comments, after) == []
  {
    if comments != [] { AtNone(comments[1..], after); }
  }

  lemma {:induction false} FromSplits(comments: seq<InternalComment>, after: int)
    requires forall i, j :: 0 <= i < j < |comments| ==> comments[i].after <= comments[j].after
    ensures At(comments, after) + From(comments, after + 1) == From(comments, after)
  {
    if comments != [] {
      FromSplits(comments[1..], after);
      if comments[0].after > after { AtNone(comments[1..], after); }
    }
  }

  lemma AtFirst(comments: seq<InternalComment>, after: int)
    requires comments != []
    ensures At(comments, after) ==
            if comments[0].after == after then [comments[0]] + At(comments[1..], after) else At(comments[1..], after)
  {
    assert [] + At(comments[1..], after) == At(comments[1..], after);
  }

  lemma ParseComment(c: InternalComment, n: nat, rest: Tokens)
    requires c.after == n - 1
    ensures var a := ParseArgs(rest, n);
      ParseArgs(Cons(Token(Hash, c.value, c.ws), rest), n) == a.(comments := [c] + a.comments)
  {
  }

  lemma ParseArg(arg: string, sep: string, n: nat, rest: Tokens)
    ensures var a := ParseArgs(rest, n + 1);
      ParseArgs(Cons(ArgToken(arg, sep), rest), n) == a.(args := [arg] + a.args, argWs := [sep] + a.argWs)
  {
  }

  lemma {:induction false} ParseFlatAt(comments: seq<InternalComment>, n: nat, k: Tokens)
    ensures var a := ParseArgs(k, n);
      ParseArgs(FlatAt(comments, n - 1, k), n) == a.(comments := At(comments, n - 1) + a.comments)
  {
    var a := ParseArgs(k, n);
    if comments == [] {
      assert [] + a.comments == a.comments;
    } else {
      ParseFlatAt(comments[1..], n, k);
      AtFirst(comments, n - 1);
      if comments[0].after == n - 1 {
        var c, rest := comments[0], FlatAt(comments[1..], n - 1, k);
        assert FlatAt(comments, n - 1, k) == Cons(Token(Hash, c.value, c.ws), rest);
        ParseComment(c, n, rest);
        hide ParseArgs, At, FlatAt;
        Assoc([c], At(comments[1..], n - 1), a.comments);
      }
    }
  }

  predicate EndsArgs(k: Tokens) {
    k.Nil? || k.head.kind !in {Word, Quoted, Hash}
  }

  lemma ParseFlatArg(arg: string, sep: string, comments: seq<InternalComment>, n: nat, m: nat, k: Tokens)
    requires Ordered(comments, m) && ParseArgs(k, n + 1).comments == From(comments, n + 1)
    ensures var a := ParseArgs(k, n + 1);
      ParseArgs(Cons(ArgToken(arg, sep), FlatAt(comments, n, k)), n) ==
      Args([arg] + a.args, [sep] + a.argWs, From(comments, n), a.rest)
  {
    FromSplits(comments, n);
    hide *;
    ParseArg(arg, sep, n, FlatAt(comments, n, k));
    ParseFlatAt(comments, n + 1, k);
  }

  lemma {:induction false} ParseFlatArgs(args: seq<string>, seps: seq<string>, comments: seq<InternalComment>,
                                         n: nat, k: Tokens)
    requires |args| == |seps| && Ordered(comments, n + |args|) && EndsArgs(k)
    ensures ParseArgs(FlatArgs(args, seps, comments, n, k), n) == Args(args, seps, From(comments, n), k)
  {
    if args == [] {
      FromNone(comments, n);
    } else {
      var k1 := FlatArgs(args[1..], seps[1..], comments, n + 1, k);
      ParseFlatArgs(args[1..], seps[1..], comments, n + 1, k);
      hide At, From, FlatAt, ArgToken, ParseArgs, Ordered;
      ParseFlatArg(args[0], seps[0], comments, n, n + |args|, k1);
      assert args == [args[0]] + args[1..] && seps == [seps[0]] + seps[1..];
    }
  }

  lemma ParseFlatDirectiveArgs(args: seq<string>, seps: seq<string>, comments: seq<InternalComment>, k: Tokens)
    requires |args| == |seps| && Ordered(comments, |args|) && EndsArgs(k)
    ensures ParseArgs(FlatAt(comments, -1, FlatArgs(args, seps, comments, 0, k)), 0) == Args(args, seps, comments, k)
  {
    hide ParseArgs, FlatAt, FlatArgs, At, From;
    ParseFlatArgs(args, seps, comments, 0, k);
    ParseFlatAt(comments, 0, FlatArgs(args, seps, comments, 0, k));
    FromSplits(comments, -1);
    FromAll(comments, -1);
  }

  lemma TakeFlatTrailing(trailing: string, k: Tokens)
    requires !ContainsNewline(trailing) && (trailing == "" ==> !Attaches(k))
    ensures TakeTrailing(FlatTrailing(trailing, k)) == (trailing, k)
  {
    if trailing != "" {
      var n := SpaceLen(trailing);
      assert trailing[..n] + trailing[n..] == trailing;
      assert !ContainsNewline(trailing[..n]);
    }
  }

  lemma ParseFlatDirective(d: Node, k: Tokens, topLevel: bool)
    requires d.Directive? && GoodNode(d, k)
    ensures ParseBody(FlatNode(d, k), topLevel) == Prepend([NormNode(d)], ParseBody(k, topLevel))
  {
    var seps := Seps(d.args, d.argWs);
    var k2 := Cons(Token(Semicolon, ";", ""), FlatTrailing(d.trailing, k));
    var ts := FlatAt(d.comments, -1, FlatArgs(d.args, seps, d.comments, 0, k2));
    ParseFlatDirectiveArgs(d.args, seps, d.comments, k2);
    TakeFlatTrailing(d.trailing, k);
    assert ParseArgs(ts, 0) == Args(d.args, seps, d.comments, k2);
    assert FlatNode(d, k) == Cons(ArgToken(d.name, d.ws), ts);
  }

  lemma ParseFlatBlock(b: Node, k: Tokens, topLevel: bool)
    requires b.Block? && GoodNode(b, k)
    requires var k2 := Cons(Token(CloseBrace, "}", b.beforeClose), k);
      ParseBody(FlatNodes(b.body, k2), false) == Prepend(NormNodes(b.body), ParseBody(k2, false))
    ensures ParseBody(FlatNode(b, k), topLevel) == Prepend([NormNode(b)], ParseBody(k, topLevel))
  {
    var k2 := Cons(Token(CloseBrace, "}", b.beforeClose), k);
    assert ParseBody(k2, false) == Success(Body([], k2, ""));
    assert NormNodes(b.body) + [] == NormNodes(b.body);
    var k3 := Cons(Token(OpenBrace, "{", " "), FlatNodes(b.body, k2));
    ParseFlatArgs(b.args, Spaces(|b.args|), [], 0, k3);
    var ts := FlatArgs(b.args, Spaces(|b.args|), [], 0, k3);
    assert ParseArgs(ts, 0) == Args(b.args, Spaces(|b.args|), [], k3);
    assert FlatNode(b, k) == Cons(ArgToken(b.name, b.ws), ts);
  }

  /** Parsing the tokens of a well-formed tree gives the tree. */
  lemma {:induction false} ParseFlatNodes(nodes: seq<Node>, k: Tokens, topLevel: bool)
    requires GoodNodes(nodes, k)
    ensures ParseBody(FlatNodes(nodes, k), topLevel) == Prepend(NormNodes(nodes), ParseBody(k, topLevel))
    decreases nodes
  {
    if nodes == [] {
      PrependNothing(ParseBody(k, topLevel));
    } else {
      var n, k1 := nodes[0], FlatNodes(nodes[1..], k);
      ParseFlatNodes(nodes[1..], k, topLevel);
      PrependPrepend([NormNode(n)], NormNodes(nodes[1..]), ParseBody(k, topLevel));
      match n
      case Comment(_, _) =>
      case Directive(_, _, _, _, _, _, _) => ParseFlatDirective(n, k1, topLevel);
      case Block(_, _, _, body, beforeClose) =>
        ParseFlatNodes(body, Cons(Token(CloseBrace, "}", beforeClose), k1), false);
        ParseFlatBlock(n, k1, topLevel);
    }
  }

  /** The text of a well-formed configuration parses back to that configuration. */
  lemma RoundTrip(c: Config)
    requires WellFormed(c)
    ensures Parse(Print(c)) == Success(Norm(c))
  {
    var end := EndToken(c.trailing);
    GoodIsTerminated(c.nodes, end);
    RenderNodes(c.nodes, end);
    assert Render(end) == c.trailing by { assert c.trailing + "" + "" == c.trailing; }
    LexReadsBack(FlatConfig(c));
    ParseFlatNodes(c.nodes, end, true);
    assert NormNodes(c.nodes) + [] == NormNodes(c.nodes);
  }

  // ----- What a parse yields -----

  /** No internal comment stands behind the last argument, where printing would put the semicolon. */
  predicate NoTailComments(nodes: seq<Node>) {
    nodes == [] || (NoTailComment(nodes[0]) && NoTailComments(nodes[1..]))
  }

  predicate NoTailComment(n: Node) {
    match n
    case Directive(_, _, args, _, _, _, comments) => forall c <- comments :: c.after < |args| - 1
    case Block(_, _, _, body, _) => NoTailComments(body)
    case Comment(_, _) => true
  }

  lemma {:induction false} ParsedArgs(ts: Tokens, n: nat)
    requires Sound(ts)
    ensures var a := ParseArgs(ts, n);
      a.rest.Cons? && Sound(a.rest) && Ordered(a.comments, n + |a.args|) &&
      (forall c <- a.comments :: c.after >= n - 1) && (forall v <- a.args :: GoodToken(ArgToken(v, " ")))
  {
    if ts.head.kind in {Word, Quoted} {
      ParsedArgs(ts.tail, n + 1);
      var a := ParseArgs(ts.tail, n + 1);
      assert ParseArgs(ts, n) == a.(args := [ts.head.value] + a.args, argWs := [ts.head.ws] + a.argWs);
      assert GoodToken(ArgToken(ts.head.value, " "));
      hide ParseArgs, Sound, GoodToken;
    } else if ts.head.kind == Hash {
      ParsedArgs(ts.tail, n);
      var a, ic := ParseArgs(ts.tail, n), InternalComment(n - 1, ts.head.ws, ts.head.value);
      assert ParseArgs(ts, n).comments == [ic] + a.comments;
    }
  }

  /** The tokens of an argument list from argument `n` on, with the comments before that argument. */
  function FlatFrom(a: Args, seps: seq<string>, n: nat, k: Tokens): Tokens
    requires |a.args| == |seps|
  {
    FlatAt(a.comments, n - 1, FlatArgs(a.args, seps, a.comments, n, k))
  }

  lemma {:induction false} FlatAtNone(comments: seq<InternalComment>, after: int, k: Tokens)
    requires forall c <- comments :: c.after > after
    ensures FlatAt(comments, after, k) == k
  {
    if comments != [] { FlatAtNone(comments[1..], after, k); }
  }

  lemma {:induction false} FlatArgsEarly(args: seq<string>, seps: seq<string>, ic: InternalComment,
                                         comments: seq<InternalComment>, n: int, k: Tokens)
    requires |args| == |seps| && ic.after < n
    ensures FlatArgs(args, seps, [ic] + comments, n, k) == FlatArgs(args, seps, comments, n, k)
  {
    if args != [] {
      FlatArgsEarly(args[1..], seps[1..], ic, comments, n + 1, k);
      assert ([ic] + comments)[1..] == comments;
    }
  }

  /** Reading one more token of an argument list adds that token to the flat form of the result. */
  lemma FlatFromArg(ts: Tokens, n: nat, k: Tokens)
    requires Sound(ts) && ts.head.kind in {Word, Quoted}
    ensures var a, b := ParseArgs(ts, n), ParseArgs(ts.tail, n + 1);
      FlatFrom(a, Seps(a.args, a.argWs), n, k) ==
      Cons(ArgToken(ts.head.value, Sep([ts.head.ws], 0)), FlatFrom(b, Seps(b.args, b.argWs), n + 1, k))
  {
    var a, b := ParseArgs(ts, n), ParseArgs(ts.tail, n + 1);
    ParsedArgs(ts.tail, n + 1);
    assert a == b.(args := [ts.head.value] + b.args, argWs := [ts.head.ws] + b.argWs);
    hide Sound, GoodToken, Follows, Ordered, ParseArgs, FlatAt;
    FlatAtNone(a.comments, n - 1, FlatArgs(a.args, Seps(a.args, a.argWs), a.comments, n, k));
    assert Seps(a.args, a.argWs)[1..] == Seps(b.args, b.argWs);
    assert a.args[1..] == b.args;
  }

  lemma FlatFromComment(ts: Tokens, n: nat, k: Tokens)
    requires Sound(ts) && ts.head.kind == Hash
    ensures var a, b := ParseArgs(ts, n), ParseArgs(ts.tail, n);
      FlatFrom(a, Seps(a.args, a.argWs), n, k) == Cons(ts.head, FlatFrom(b, Seps(b.args, b.argWs), n, k))
  {
    var b, ic := ParseArgs(ts.tail, n), InternalComment(n - 1, ts.head.ws, ts.head.value);
    FlatArgsEarly(b.args, Seps(b.args, b.argWs), ic, b.comments, n, k);
    assert ([ic] + b.comments)[1..] == b.comments;
  }

  /** An argument may stand where it stood, even when its empty separator becomes a space. */
  lemma ArgFits(prev: Token, t: Token)
    requires GoodToken(t) && t.kind in {Word, Quoted} && prev.kind in {Word, Quoted, Hash} && Follows(prev, t)
    ensures var u := ArgToken(t.value, Sep([t.ws], 0));
      GoodToken(u) && u.kind == t.kind && Follows(prev, u) && Follows(Token(Word, "", ""), u)
  {
  }

  /** The arguments of a parsed directive can be spelled again in front of its semicolon. */
  lemma {:induction false} ArgsSpelled(prev: Token, ts: Tokens, n: nat, k: Tokens, strict: bool)
    requires Sound(ts) && prev.kind in {Word, Quoted, Hash} && (ts.head.kind == Unterminated || Follows(prev, ts.head))
    requires Spelled(k, strict) && k.head == Token(Semicolon, ";", "")
    requires var a := ParseArgs(ts, n);
      a.rest.Cons? && a.rest.head.kind != Unterminated &&
      (strict ==> (forall c <- a.comments :: c.after < n + |a.args| - 1) && (prev.kind == Hash ==> a.args != []))
    ensures var a := ParseArgs(ts, n); var flat := FlatFrom(a, Seps(a.args, a.argWs), n, k);
      Spelled(flat, strict) && (Follows(prev, flat.head) || (!strict && Swallows(prev, flat.head)))
    decreases ts
  {
    var a := ParseArgs(ts, n);
    if ts.head.kind in {Word, Quoted} {
      ArgFits(prev, ts.head);
      var t := ArgToken(ts.head.value, Sep([ts.head.ws], 0));
      ArgsSpelled(t, ts.tail, n + 1, k, strict);
      FlatFromArg(ts, n, k);
    } else if ts.head.kind == Hash {
      assert a.comments == [InternalComment(n - 1, ts.head.ws, ts.head.value)] + ParseArgs(ts.tail, n).comments;
      assert InternalComment(n - 1, ts.head.ws, ts.head.value) in a.comments;
      ArgsSpelled(ts.head, ts.tail, n, k, strict);
      FlatFromComment(ts, n, k);
    }
  }

  /** So can those of a block, all separated by one space. */
  lemma {:induction false} BlockArgsSpelled(args: seq<string>, n: int, k: Tokens, strict: bool)
    requires Spelled(k, strict) && k.head.ws == " "
    requires forall v <- args :: GoodToken(ArgToken(v, " "))
    ensures var flat := FlatArgs(args, Spaces(|args|), [], n, k); Spelled(flat, strict) && flat.head.ws == " "
  {
    if args != [] {
      assert Spaces(|args|)[1..] == Spaces(|args| - 1);
      BlockArgsSpelled(args[1..], n + 1, k, strict);
    }
  }

  lemma FlatTakenTrailing(ts: Tokens, k: Tokens, strict: bool)
    requires Sound(ts) && k.Cons?
    requires var rest := TakeTrailing(ts).1; Sound(rest) && rest.head.kind != Unterminated && k.head == rest.head
    ensures var trailing := TakeTrailing(ts).0;
      !ContainsNewline(trailing) && (trailing == "" ==> !Attaches(k)) &&
      (Spelled(k, strict) ==> Spelled(FlatTrailing(trailing, k), strict))
  {
    if ts.head.kind == Hash && !ContainsNewline(ts.head.ws) {
      var trailing := ts.head.ws + ts.head.value;
      SpaceLenAppend(ts.head.ws, ts.head.value);
      assert FlatTrailing(trailing, k) == Cons(ts.head, k);
    }
  }

  /** The token with which the text behind a parsed body starts. */
  function EndHead(b: Body, topLevel: bool): Token
    requires !topLevel ==> b.rest.Cons?
  {
    if topLevel then Token(EndOfFile, "", b.lastWs) else b.rest.head
  }

  lemma {:induction false} ParsedIsSound(ts: Tokens, topLevel: bool)
    requires Sound(ts) && ParseBody(ts, topLevel).Success?
    ensures ts.head.kind != Unterminated
    ensures !topLevel ==> Sound(ParseBody(ts, topLevel).value.rest)
    decreases Size(ts)
  {
    match ts.head.kind
    case Hash => ParsedIsSound(ts.tail, topLevel);
    case Word =>
      var a := ParseArgs(ts.tail, 0);
      ParsedArgs(ts.tail, 0);
      if a.rest.head.kind == Semicolon {
        ParsedIsSound(TakeTrailing(a.rest.tail).1, topLevel);
      } else {
        ParsedIsSound(a.rest.tail, false);
        ParsedIsSound(ParseBody(a.rest.tail, false).value.rest.tail, topLevel);
      }
    case _ =>
  }

  lemma ParsedDirective(ts: Tokens, k: Tokens, strict: bool)
    requires Sound(ts) && ts.head.kind == Word
    requires var a := ParseArgs(ts.tail, 0); a.rest.Cons? && Sound(a.rest) && a.rest.head.kind == Semicolon
    requires var rest := TakeTrailing(ParseArgs(ts.tail, 0).rest.tail).1;
      k.Cons? && Sound(rest) && rest.head.kind != Unterminated && k.head == rest.head
    ensures var a := ParseArgs(ts.tail, 0);
      var d := Directive(ts.head.ws, ts.head.value, a.args, a.argWs, true, TakeTrailing(a.rest.tail).0, a.comments);
      GoodNode(d, k) && FlatNode(d, k).head == ts.head &&
      ((strict ==> NoTailComment(d)) && Spelled(k, strict) ==> Spelled(FlatNode(d, k), strict))
  {
    var a := ParseArgs(ts.tail, 0);
    ParsedArgs(ts.tail, 0);
    FlatTakenTrailing(a.rest.tail, k, strict);
    var trailing := TakeTrailing(a.rest.tail).0;
    var d := Directive(ts.head.ws, ts.head.value, a.args, a.argWs, true, trailing, a.comments);
    assert ArgToken(ts.head.value, ts.head.ws) == ts.head;
    hide Sound, GoodToken, Follows, ParseArgs, TakeTrailing;
    if (strict ==> NoTailComment(d)) && Spelled(k, strict) {
      ArgsSpelled(ts.head, ts.tail, 0, Cons(Token(Semicolon, ";", ""), FlatTrailing(trailing, k)), strict);
    }
  }

  lemma ParsedBlock(ts: Tokens, body: seq<Node>, beforeClose: string, k: Tokens, strict: bool)
    requires Sound(ts) && ts.head.kind == Word && k.Cons? && AllSpace(beforeClose)
    requires var k2 := Cons(Token(CloseBrace, "}", beforeClose), k);
      GoodNodes(body, k2) &&
      ((strict ==> NoTailComments(body)) && Spelled(k2, strict) ==> Spelled(FlatNodes(body, k2), strict))
    ensures var b := Block(ts.head.ws, ts.head.value, ParseArgs(ts.tail, 0).args, body, beforeClose);
      GoodNode(b, k) && FlatNode(b, k).head == ts.head &&
      ((strict ==> NoTailComment(b)) && Spelled(k, strict) ==> Spelled(FlatNode(b, k), strict))
  {
    var a := ParseArgs(ts.tail, 0);
    ParsedArgs(ts.tail, 0);
    var k2 := Cons(Token(CloseBrace, "}", beforeClose), k);
    if (strict ==> NoTailComments(body)) && Spelled(k, strict) {
      BlockArgsSpelled(a.args, 0, Cons(Token(OpenBrace, "{", " "), FlatNodes(body, k2)), strict);
    }
  }

  lemma TrailingIsSound(ts: Tokens)
    requires Sound(ts)
    ensures Sound(TakeTrailing(ts).1)
  {
  }

  /** What a parsed body promises when `k` follows it. */
  predicate ParsedWell(nodes: seq<Node>, k: Tokens, head: Token, strict: bool) {
    var flat := FlatNodes(nodes, k);
    GoodNodes(nodes, k) && flat.Cons? && flat.head == head &&
    ((strict ==> NoTailComments(nodes)) && Spelled(k, strict) ==> Spelled(flat, strict))
  }

  lemma OneMoreParsedWell(n: Node, nodes: seq<Node>, k: Tokens, head: Token, strict: bool)
    requires FlatNodes(nodes, k).Cons? && ParsedWell(nodes, k, FlatNodes(nodes, k).head, strict)
    requires var k1 := FlatNodes(nodes, k);
      GoodNode(n, k1) && FlatNode(n, k1).Cons? && FlatNode(n, k1).head == head &&
      ((strict ==> NoTailComment(n)) && Spelled(k1, strict) ==> Spelled(FlatNode(n, k1), strict))
    ensures ParsedWell([n] + nodes, k, head, strict)
  {
    hide GoodNode, NoTailComment, Spelled, FlatNode;
    assert ([n] + nodes)[1..] == nodes;
  }

  /** A parsed body, followed by tokens that start as those behind it in the source, attaches
      nothing wrongly, and can be spelled unless an internal comment stands before a semicolon. */
  lemma {:induction false} ParsedNodes(ts: Tokens, topLevel: bool, k: Tokens, strict: bool)
    requires Sound(ts) && ParseBody(ts, topLevel).Success?
    requires k.Cons? && k.head == EndHead(ParseBody(ts, topLevel).value, topLevel)
    ensures ParsedWell(ParseBody(ts, topLevel).value.nodes, k, ts.head, strict)
    decreases Size(ts)
  {
    ParsedIsSound(ts, topLevel);
    if ts.head.kind == Hash { ParsedCommentFirst(ts, topLevel, k, strict); }
    else if ts.head.kind == Word {
      ParsedArgs(ts.tail, 0);
      if ParseArgs(ts.tail, 0).rest.head.kind == Semicolon { ParsedDirectiveFirst(ts, topLevel, k, strict); }
      else { ParsedBlockFirst(ts, topLevel, k, strict); }
    }
  }

  lemma {:induction false} ParsedCommentFirst(ts: Tokens, topLevel: bool, k: Tokens, strict: bool)
    requires Sound(ts) && ParseBody(ts, topLevel).Success? && ts.head.kind == Hash
    requires k.Cons? && k.head == EndHead(ParseBody(ts, topLevel).value, topLevel)
    ensures ParsedWell(ParseBody(ts, topLevel).value.nodes, k, ts.head, strict)
    decreases Size(ts), 0
  {
    ParsedNodes(ts.tail, topLevel, k, strict);
    ParsedIsSound(ts.tail, topLevel);
    OneMoreParsedWell(Comment(ts.head.ws, ts.head.value), ParseBody(ts.tail, topLevel).value.nodes, k, ts.head,
                      strict);
  }

  lemma {:induction false} ParsedDirectiveFirst(ts: Tokens, topLevel: bool, k: Tokens, strict: bool)
    requires Sound(ts) && ParseBody(ts, topLevel).Success? && ts.head.kind == Word
    requires var a := ParseArgs(ts.tail, 0); a.rest.Cons? && Sound(a.rest) && a.rest.head.kind == Semicolon
    requires k.Cons? && k.head == EndHead(ParseBody(ts, topLevel).value, topLevel)
    ensures ParsedWell(ParseBody(ts, topLevel).value.nodes, k, ts.head, strict)
    decreases Size(ts), 0
  {
    var a := ParseArgs(ts.tail, 0);
    var (trailing, rest) := TakeTrailing(a.rest.tail);
    TrailingIsSound(a.rest.tail);
    ParsedIsSound(rest, topLevel);
    ParsedNodes(rest, topLevel, k, strict);
    var nodes := ParseBody(rest, topLevel).value.nodes;
    ParsedDirective(ts, FlatNodes(nodes, k), strict);
    hide ParseArgs, TakeTrailing, GoodNode, NoTailComment, Spelled, FlatNode, ParsedWell, GoodNodes, FlatNodes;
    OneMoreParsedWell(Directive(ts.head.ws, ts.head.value, a.args, a.argWs, true, trailing, a.comments),
                      nodes, k, ts.head, strict);
  }

  lemma {:induction false} ParsedBlockFirst(ts: Tokens, topLevel: bool, k: Tokens, strict: bool)
    requires Sound(ts) && ParseBody(ts, topLevel).Success? && ts.head.kind == Word
    requires var a := ParseArgs(ts.tail, 0); a.rest.Cons? && Sound(a.rest) && a.rest.head.kind == OpenBrace
    requires k.Cons? && k.head == EndHead(ParseBody(ts, topLevel).value, topLevel)
    ensures ParsedWell(ParseBody(ts, topLevel).value.nodes, k, ts.head, strict)
    decreases Size(ts), 0
  {
    var a := ParseArgs(ts.tail, 0);
    var inner := ParseBody(a.rest.tail, false).value;
    ParsedIsSound(a.rest.tail, false);
    var closer, rest := inner.rest.head, inner.rest.tail;
    ParsedIsSound(rest, topLevel);
    ParsedNodes(rest, topLevel, k, strict);
    var nodes := ParseBody(rest, topLevel).value.nodes;
    var k1 := FlatNodes(nodes, k);
    ParsedNodes(a.rest.tail, false, Cons(Token(CloseBrace, "}", closer.ws), k1), strict);
    ParsedBlock(ts, inner.nodes, closer.ws, k1, strict);
    hide ParseArgs, TakeTrailing, GoodNode, NoTailComment, Spelled, FlatNode, ParsedWell, GoodNodes, FlatNodes;
    OneMoreParsedWell(Block(ts.head.ws, ts.head.value, a.args, inner.nodes, closer.ws), nodes, k, ts.head, strict);
  }

  /** Printing a parsed configuration and parsing it again gives that configuration, unless an
      internal comment stands directly before a semicolon. */
  lemma ParsedRoundTrip(src: string)
    requires Parse(src).Success? && NoTailComments(Parse(src).value.nodes)
    ensures WellFormed(Parse(src).value) && Parse(Print(Parse(src).value)) == Success(Norm(Parse(src).value))
  {
    var c := Parse(src).value;
    LexIsSound(src);
    TrailingSpace(Lex(src));
    ParsedNodes(Lex(src), true, EndToken(c.trailing), true);
    RoundTrip(c);
  }

  lemma {:induction false} TrailingSpace(ts: Tokens)
    requires Sound(ts) && ParseBody(ts, true).Success?
    ensures AllSpace(ParseBody(ts, true).value.lastWs)
    decreases Size(ts)
  {
    ParsedIsSound(ts, true);
    if ts.head.kind == Hash { TrailingSpace(ts.tail); }
    else if ts.head.kind == Word {
      var a := ParseArgs(ts.tail, 0);
      ParsedArgs(ts.tail, 0);
      if a.rest.head.kind == Semicolon {
        TrailingSpace(TakeTrailing(a.rest.tail).1);
      } else {
        ParsedIsSound(a.rest.tail, false);
        TrailingSpace(ParseBody(a.rest.tail, false).value.rest.tail);
      }
    }
  }
}
