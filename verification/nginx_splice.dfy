/** Putting other nodes in front of, behind or inside a well-formed tree keeps it well formed. */
module NginxSplice {
  import opened NginxLexer
  import opened NginxAst
  import opened NginxRoundTrip

  function Append(ts: Tokens, k: Tokens): Tokens {
    if ts.Nil? then k else Cons(ts.head, Append(ts.tail, k))
  }

  lemma {:induction false} AppendAssoc(a: Tokens, b: Tokens, c: Tokens)
    ensures Append(Append(a, b), c) == Append(a, Append(b, c))
  {
    if a.Cons? { AppendAssoc(a.tail, b, c); }
  }

  lemma {:induction false} FlatAtAppend(comments: seq<InternalComment>, after: int, a: Tokens, k: Tokens)
    ensures FlatAt(comments, after, Append(a, k)) == Append(FlatAt(comments, after, a), k)
  {
    if comments != [] { FlatAtAppend(comments[1..], after, a, k); }
  }

  lemma {:induction false} FlatArgsAppend(args: seq<string>, seps: seq<string>, comments: seq<InternalComment>,
                                          n: int, a: Tokens, k: Tokens)
    requires |args| == |seps|
    ensures FlatArgs(args, seps, comments, n, Append(a, k)) == Append(FlatArgs(args, seps, comments, n, a), k)
  {
    if args != [] {
      FlatArgsAppend(args[1..], seps[1..], comments, n + 1, a, k);
      FlatAtAppend(comments, n, FlatArgs(args[1..], seps[1..], comments, n + 1, a), k);
    }
  }

  lemma {:induction false} FlatNodeAppend(n: Node, a: Tokens, k: Tokens)
    ensures FlatNode(n, Append(a, k)) == Append(FlatNode(n, a), k)
    decreases n, 0
  {
    match n
    case Directive(_, _, args, argWs, _, trailing, comments) =>
      var a2 := Cons(Token(Semicolon, ";", ""), FlatTrailing(trailing, a));
      FlatArgsAppend(args, Seps(args, argWs), comments, 0, a2, k);
      FlatAtAppend(comments, -1, FlatArgs(args, Seps(args, argWs), comments, 0, a2), k);
    case Block(_, _, args, body, beforeClose) =>
      var a1 := Cons(Token(CloseBrace, "}", beforeClose), a);
      FlatNodesAppend(body, a1, k);
      FlatArgsAppend(args, Spaces(|args|), [], 0, Cons(Token(OpenBrace, "{", " "), FlatNodes(body, a1)), k);
    case Comment(_, _) =>
  }

  lemma {:induction false} FlatNodesAppend(nodes: seq<Node>, a: Tokens, k: Tokens)
    ensures FlatNodes(nodes, Append(a, k)) == Append(FlatNodes(nodes, a), k)
    decreases nodes, 1
  {
    if nodes != [] {
      FlatNodesAppend(nodes[1..], a, k);
      FlatNodeAppend(nodes[0], FlatNodes(nodes[1..], a), k);
    }
  }

  /** In a spelled stream the tail may be replaced by one that starts with the same token. */
  lemma {:induction false} SwapTail(p: Tokens, k: Tokens, k': Tokens)
    requires Lexable(Append(p, k)) && k.Cons?
    requires k'.Cons? && k'.head == k.head && Lexable(k')
    requires NoEnd(p)
    ensures Lexable(k) && Lexable(Append(p, k')) && Append(p, k').head == Append(p, k).head
  {
    if p.Cons? { SwapTail(p.tail, k, k'); }
  }

  predicate NoEnd(ts: Tokens) {
    ts.Cons? ==> ts.head.kind != EndOfFile && NoEnd(ts.tail)
  }

  /** Behind an open brace anything may come that can be spelled itself. */
  lemma {:induction false} SwapBehindBrace(p: Tokens, ws: string, k: Tokens, k': Tokens)
    requires Lexable(Append(p, Cons(Token(OpenBrace, "{", ws), k))) && NoEnd(p) && Lexable(k')
    ensures Lexable(k) && Lexable(Append(p, Cons(Token(OpenBrace, "{", ws), k')))
    ensures Append(p, Cons(Token(OpenBrace, "{", ws), k')).head == Append(p, Cons(Token(OpenBrace, "{", ws), k)).head
  {
    if p.Cons? { SwapBehindBrace(p.tail, ws, k, k'); }
  }

  lemma {:induction false} NoEndAt(comments: seq<InternalComment>, after: int, a: Tokens)
    requires NoEnd(a)
    ensures NoEnd(FlatAt(comments, after, a))
  {
    if comments != [] { NoEndAt(comments[1..], after, a); }
  }

  lemma {:induction false} NoEndArgs(args: seq<string>, seps: seq<string>, comments: seq<InternalComment>,
                                     n: int, a: Tokens)
    requires |args| == |seps| && NoEnd(a)
    ensures NoEnd(FlatArgs(args, seps, comments, n, a))
  {
    if args != [] {
      NoEndArgs(args[1..], seps[1..], comments, n + 1, a);
      NoEndAt(comments, n, FlatArgs(args[1..], seps[1..], comments, n + 1, a));
    }
  }

  lemma {:induction false} NoEndNode(n: Node, a: Tokens)
    requires NoEnd(a)
    ensures NoEnd(FlatNode(n, a))
    decreases n, 0
  {
    match n
    case Directive(_, _, args, argWs, _, trailing, comments) =>
      var a2 := Cons(Token(Semicolon, ";", ""), FlatTrailing(trailing, a));
      NoEndArgs(args, Seps(args, argWs), comments, 0, a2);
      NoEndAt(comments, -1, FlatArgs(args, Seps(args, argWs), comments, 0, a2));
    case Block(_, _, args, body, beforeClose) =>
      var a1 := Cons(Token(CloseBrace, "}", beforeClose), a);
      NoEndNodes(body, a1);
      NoEndArgs(args, Spaces(|args|), [], 0, Cons(Token(OpenBrace, "{", " "), FlatNodes(body, a1)));
    case Comment(_, _) =>
  }

  lemma {:induction false} NoEndNodes(nodes: seq<Node>, a: Tokens)
    requires NoEnd(a)
    ensures NoEnd(FlatNodes(nodes, a))
    decreases nodes, 1
  {
    if nodes != [] {
      NoEndNodes(nodes[1..], a);
      NoEndNode(nodes[0], FlatNodes(nodes[1..], a));
    }
  }

  /** Well-formed nodes in front of `k`. */
  predicate Fits(nodes: seq<Node>, k: Tokens) {
    GoodNodes(nodes, k) && Lexable(FlatNodes(nodes, k))
  }

  /** `k'` can replace `k`: it is spelled, and starts with the same token. */
  predicate Replaces(k': Tokens, k: Tokens) {
    k.Cons? && k'.Cons? && k'.head == k.head && Lexable(k')
  }

  lemma FitsBefore(nodes: seq<Node>, k: Tokens, k': Tokens)
    requires Fits(nodes, k) && Replaces(k', k)
    ensures Lexable(k) && Fits(nodes, k') && Replaces(FlatNodes(nodes, k'), FlatNodes(nodes, k))
  {
    NoEndNodes(nodes, Nil);
    FlatNodesAppend(nodes, Nil, k);
    FlatNodesAppend(nodes, Nil, k');
    GoodAlike(nodes, k, k');
    SwapTail(FlatNodes(nodes, Nil), k, k');
  }

  lemma FitsOne(n: Node, nodes: seq<Node>, k: Tokens)
    ensures Fits([n] + nodes, k) <==>
      GoodNodes(nodes, k) && GoodNode(n, FlatNodes(nodes, k)) && Lexable(FlatNode(n, FlatNodes(nodes, k)))
    ensures FlatNodes([n] + nodes, k) == FlatNode(n, FlatNodes(nodes, k))
  {
    assert ([n] + nodes)[1..] == nodes;
  }

  /** A well-formed first node, and well-formed nodes behind it. */
  lemma FitsSplit(nodes: seq<Node>, k: Tokens)
    requires Fits(nodes, k) && nodes != [] && k.Cons? && Lexable(k)
    ensures Fits(nodes[1..], k) && FlatNodes(nodes[1..], k).Cons?
    ensures Fits([nodes[0]], FlatNodes(nodes[1..], k))
  {
    var k1 := FlatNodes(nodes[1..], k);
    ConsNodes(nodes[1..], k);
    assert nodes == [nodes[0]] + nodes[1..];
    FitsOne(nodes[0], nodes[1..], k);
    assert [nodes[0]][1..] == [];
    NoEndNode(nodes[0], Nil);
    FlatNodeAppend(nodes[0], Nil, k1);
    LexableTail(FlatNode(nodes[0], Nil), k1);
  }

  lemma ConsNodes(nodes: seq<Node>, k: Tokens)
    requires k.Cons?
    ensures FlatNodes(nodes, k).Cons?
  {
  }

  lemma {:induction false} LexableTail(p: Tokens, k: Tokens)
    requires Lexable(Append(p, k)) && NoEnd(p) && k.Cons?
    ensures Lexable(k)
  {
    if p.Cons? { LexableTail(p.tail, k); }
  }

  /** The tokens of a block up to its open brace. */
  function Header(b: Node): Tokens
    requires b.Block?
  {
    Cons(ArgToken(b.name, b.ws), FlatArgs(b.args, Spaces(|b.args|), [], 0, Nil))
  }

  lemma FlatBlock(b: Node, k: Tokens)
    requires b.Block?
    ensures NoEnd(Header(b))
    ensures FlatNodes([b], k) ==
      Append(Header(b), Cons(Token(OpenBrace, "{", " "), FlatNodes(b.body, Cons(Token(CloseBrace, "}", b.beforeClose), k))))
  {
    var k1 := Cons(Token(CloseBrace, "}", b.beforeClose), k);
    NoEndArgs(b.args, Spaces(|b.args|), [], 0, Nil);
    FlatArgsAppend(b.args, Spaces(|b.args|), [], 0, Nil, Cons(Token(OpenBrace, "{", " "), FlatNodes(b.body, k1)));
    assert [b][1..] == [];
  }

  lemma BodyFits(b: Node, k: Tokens)
    requires b.Block? && Fits([b], k)
    ensures Fits(b.body, Cons(Token(CloseBrace, "}", b.beforeClose), k))
  {
    var k1 := Cons(Token(CloseBrace, "}", b.beforeClose), k);
    FlatBlock(b, k);
    LexableTail(Header(b), Cons(Token(OpenBrace, "{", " "), FlatNodes(b.body, k1)));
    assert GoodNode(b, FlatNodes([b][1..], k)) && [b][1..] == [];
  }

  /** The body of a block may be replaced by any that fits before the closing brace. */
  lemma FitsBody(b: Node, body: seq<Node>, k: Tokens)
    requires b.Block? && Fits([b], k) && Fits(body, Cons(Token(CloseBrace, "}", b.beforeClose), k))
    ensures Fits([b.(body := body)], k) && FlatNodes([b.(body := body)], k).head == FlatNodes([b], k).head
  {
    var k1, b' := Cons(Token(CloseBrace, "}", b.beforeClose), k), b.(body := body);
    FlatBlock(b, k);
    FlatBlock(b', k);
    SwapBehindBrace(Header(b), " ", FlatNodes(b.body, k1), FlatNodes(body, k1));
    assert GoodNode(b, FlatNodes([b][1..], k)) && [b][1..] == [] && [b'][1..] == [];
  }
}
