/** The temporary edits of `internal/plugins/nginx/configurator.go` for an HTTP-01 challenge, and
    their removal from the files written to disk. */
module NginxChallenge {
  import opened Common
  import opened NginxLexer
  import opened NginxAst
  import opened NginxRoundTrip
  import opened NginxSplice
  import opened Text

  const Marker := "well-known/acme-challenge"
  const Managed := "# managed by Certbot"

  /** Go's `strings.Contains`. */
  predicate Contains(s: string, sub: string) {
    exists i | 0 <= i <= |s| - |sub| :: OccursAt(s, sub, i)
  }

  predicate OccursAt(s: string, sub: string, i: nat)
    requires i + |sub| <= |s|
  {
    s[i..i + |sub|] == sub
  }

  /** Go's `strings.Trim(s, "\"'")`. */
  function TrimQuotes(s: string): string {
    if s != "" && IsQuote(s[0]) then TrimQuotes(s[1..])
    else if s != "" && IsQuote(s[|s| - 1]) then TrimQuotes(s[..|s| - 1])
    else s
  }

  // ----- Nodes that are inserted -----

  /** The part of `ws` behind its last newline. */
  function LeadingIndent(ws: string): string {
    if ws == "" then ""
    else if ws[|ws| - 1] == '\n' then ""
    else LeadingIndent(ws[..|ws| - 1]) + [ws[|ws| - 1]]
  }

  function ChildIndent(body: seq<Node>): string {
    if body == [] then "    " else LeadingIndent(body[0].ws)
  }

  /** A directive of its own line, marked with a comment behind the semicolon. */
  function Inserted(indent: string, name: string, args: seq<string>): Node {
    Directive("\n" + indent, name, args, [], true, " " + Managed, [])
  }

  const RewriteArgs := ["^(/.well-known/acme-challenge/.*)", "$1", "break"]

  predicate IsChallengeRewrite(n: Node) {
    n.Directive? && n.name == "rewrite" && |n.args| >= 1 && Contains(n.args[0], Marker)
  }

  predicate HasRewrite(body: seq<Node>) {
    exists n <- body :: IsChallengeRewrite(n)
  }

  /** `prependChallengeRewrite`. */
  function PrependRewrite(body: seq<Node>): seq<Node> {
    if HasRewrite(body) then body
    else [Inserted(ChildIndent(body), "rewrite", RewriteArgs)] + body
  }

  /** The rewrite in every server block that `hits` names by its place in the tree: `nodes` are
      the children from number `i` on of the node at `path`. */
  function InjectRewrites(nodes: seq<Node>, hits: set<seq<nat>>, path: seq<nat>, i: nat): (r: seq<Node>)
    ensures |r| == |nodes|
    decreases nodes
  {
    if nodes == [] then []
    else
      var n := nodes[0];
      var first :=
        if !n.Block? then n
        else
          var body := InjectRewrites(n.body, hits, path + [i], 0);
          n.(body := if path + [i] in hits && n.name == "server" then PrependRewrite(body) else body);
      [first] + InjectRewrites(nodes[1..], hits, path, i + 1)
  }

  function WithoutRewrites(nodes: seq<Node>): seq<Node> {
    if nodes == [] then []
    else (if IsChallengeRewrite(nodes[0]) then [] else [nodes[0]]) + WithoutRewrites(nodes[1..])
  }

  /** `stripChallengeRewrites`. The original filters a body before it goes down; the filter looks
      at directives and the descent changes blocks, so the order makes no difference. */
  function StripRewrites(nodes: seq<Node>): (r: seq<Node>)
    ensures |r| == |nodes|
    decreases nodes, 1
  {
    if nodes == [] then [] else [StripNode(nodes[0])] + StripRewrites(nodes[1..])
  }

  function StripNode(n: Node): Node
    decreases n, 0
  {
    if !n.Block? then n
    else
      var body := StripRewrites(n.body);
      n.(body := if n.name == "server" then WithoutRewrites(body) else body)
  }

  // ----- The http block -----

  datatype Found = Missing | At(body: seq<Node>)

  /** `findHTTPBlock`: the body of the first http block in document order. */
  function FindHttp(nodes: seq<Node>): Found {
    if nodes == [] then Missing
    else if !nodes[0].Block? then FindHttp(nodes[1..])
    else if nodes[0].name == "http" then At(nodes[0].body)
    else if FindHttp(nodes[0].body).At? then FindHttp(nodes[0].body)
    else FindHttp(nodes[1..])
  }

  /** All http blocks in document order. */
  function Https(nodes: seq<Node>): (r: seq<Node>)
    ensures forall b <- r :: b.Block?
  {
    if nodes == [] then []
    else if !nodes[0].Block? then Https(nodes[1..])
    else (if nodes[0].name == "http" then [nodes[0]] else []) + Https(nodes[0].body) + Https(nodes[1..])
  }

  lemma {:induction false} FindHttpExactly(nodes: seq<Node>)
    ensures FindHttp(nodes) == if Https(nodes) == [] then Missing else At(Https(nodes)[0].body)
  {
    if nodes != [] {
      FindHttpExactly(nodes[1..]);
      if nodes[0].Block? { FindHttpExactly(nodes[0].body); }
    }
  }

  /** The tree after an assignment to the body of that block. */
  function SetHttp(nodes: seq<Node>, body: seq<Node>): (r: seq<Node>)
    ensures |r| == |nodes|
  {
    if nodes == [] then []
    else if !nodes[0].Block? then [nodes[0]] + SetHttp(nodes[1..], body)
    else if nodes[0].name == "http" then [nodes[0].(body := body)] + nodes[1..]
    else if FindHttp(nodes[0].body).At? then [nodes[0].(body := SetHttp(nodes[0].body, body))] + nodes[1..]
    else [nodes[0]] + SetHttp(nodes[1..], body)
  }

  predicate IsInclude(n: Node, path: string) {
    n.Directive? && n.name == "include" && |n.args| == 1 && TrimQuotes(n.args[0]) == path
  }

  predicate IsBucketSize(n: Node) {
    n.Directive? && n.name == "server_names_hash_bucket_size"
  }

  function IncludeLine(indent: string, path: string): Node {
    Inserted(indent, "include", [path])
  }

  function BucketLine(indent: string): Node {
    Inserted(indent, "server_names_hash_bucket_size", ["128"])
  }

  predicate HasInclude(body: seq<Node>, path: string) {
    exists n <- body :: IsInclude(n, path)
  }

  predicate HasBucketSize(body: seq<Node>) {
    exists n <- body :: IsBucketSize(n)
  }

  /** `ensureHTTPInclude`: the tree and whether the directive was added. */
  function EnsureInclude(nodes: seq<Node>, path: string): (seq<Node>, bool) {
    match FindHttp(nodes)
    case Missing => (nodes, false)
    case At(body) =>
      if HasInclude(body, path) then (nodes, false)
      else (SetHttp(nodes, [IncludeLine(ChildIndent(body), path)] + body), true)
  }

  /** `ensureBucketSize`. */
  function EnsureBucketSize(nodes: seq<Node>): (seq<Node>, bool) {
    match FindHttp(nodes)
    case Missing => (nodes, false)
    case At(body) =>
      if HasBucketSize(body) then (nodes, false)
      else (SetHttp(nodes, [BucketLine(ChildIndent(body))] + body), true)
  }

  function WithoutInclude(body: seq<Node>, path: string): seq<Node> {
    if body == [] then []
    else (if IsInclude(body[0], path) then [] else [body[0]]) + WithoutInclude(body[1..], path)
  }

  /** Only the directive with the marker comment goes. */
  function WithoutBucketSize(body: seq<Node>): seq<Node> {
    if body == [] then []
    else (if IsBucketSize(body[0]) && Contains(body[0].trailing, "managed by Certbot") then [] else [body[0]]) +
         WithoutBucketSize(body[1..])
  }

  function StripInclude(nodes: seq<Node>, path: string): seq<Node> {
    match FindHttp(nodes)
    case Missing => nodes
    case At(body) => SetHttp(nodes, WithoutInclude(body, path))
  }

  function StripBucketSize(nodes: seq<Node>): seq<Node> {
    match FindHttp(nodes)
    case Missing => nodes
    case At(body) => SetHttp(nodes, WithoutBucketSize(body))
  }

  // ----- Stripping undoes injecting, on trees -----

  /** No server block has an ACME challenge rewrite of its own. */
  predicate NoRewrites(nodes: seq<Node>)
    decreases nodes, 1
  {
    nodes == [] || (NoRewritesIn(nodes[0]) && NoRewrites(nodes[1..]))
  }

  predicate NoRewritesIn(n: Node)
    decreases n, 0
  {
    n.Block? ==> NoRewrites(n.body) && (n.name == "server" ==> !HasRewrite(n.body))
  }

  lemma {:induction false} WithoutNothing(nodes: seq<Node>)
    ensures |WithoutRewrites(nodes)| <= |nodes|
    ensures |WithoutRewrites(nodes)| == |nodes| <==> !HasRewrite(nodes)
    ensures !HasRewrite(nodes) ==> WithoutRewrites(nodes) == nodes
  {
    if nodes != [] {
      WithoutNothing(nodes[1..]);
      HasRewriteFirst(nodes);
      assert nodes == [nodes[0]] + nodes[1..];
      if IsChallengeRewrite(nodes[0]) { assert WithoutRewrites(nodes) == WithoutRewrites(nodes[1..]); }
    }
  }

  lemma HasRewriteFirst(nodes: seq<Node>)
    requires nodes != []
    ensures HasRewrite(nodes) <==> IsChallengeRewrite(nodes[0]) || HasRewrite(nodes[1..])
  {
    assert forall n :: n in nodes <==> n == nodes[0] || n in nodes[1..];
  }

  /** The order of filtering and descending is immaterial. */
  lemma {:induction false} StripOrder(nodes: seq<Node>)
    ensures WithoutRewrites(StripRewrites(nodes)) == StripRewrites(WithoutRewrites(nodes))
  {
    if nodes != [] {
      StripOrder(nodes[1..]);
      assert StripRewrites(nodes)[1..] == StripRewrites(nodes[1..]);
      var rest := WithoutRewrites(nodes[1..]);
      if IsChallengeRewrite(nodes[0]) {
        assert WithoutRewrites(nodes) == rest;
      } else {
        assert WithoutRewrites(nodes)[1..] == rest && WithoutRewrites(nodes)[0] == nodes[0];
      }
    }
  }

  /** Stripping leaves exactly the trees without challenge rewrites alone. */
  lemma {:induction false} StripFixes(nodes: seq<Node>)
    ensures StripRewrites(nodes) == nodes <==> NoRewrites(nodes)
    decreases nodes, 1
  {
    if nodes != [] {
      StripFixes(nodes[1..]);
      StripFixesNode(nodes[0]);
      hide StripNode, NoRewritesIn;
      SameCons(StripNode(nodes[0]), StripRewrites(nodes[1..]), nodes[0], nodes[1..]);
      assert nodes == [nodes[0]] + nodes[1..];
    }
  }

  lemma {:induction false} StripFixesNode(n: Node)
    ensures StripNode(n) == n <==> NoRewritesIn(n)
    decreases n, 0
  {
    if n.Block? {
      StripFixes(n.body);
      WithoutNothing(StripRewrites(n.body));
    }
  }

  lemma RewriteIsChallenge(indent: string)
    ensures IsChallengeRewrite(Inserted(indent, "rewrite", RewriteArgs))
  {
    assert RewriteArgs[0] == "^(/." + Marker + "/.*)";
    assert OccursAt(RewriteArgs[0], Marker, 4);
  }

  /** Whatever server blocks are hit, stripping forgets the injection. */
  lemma {:induction false} StripForgets(nodes: seq<Node>, hits: set<seq<nat>>, path: seq<nat>, i: nat)
    ensures StripRewrites(InjectRewrites(nodes, hits, path, i)) == StripRewrites(nodes)
    decreases nodes
  {
    if nodes != [] {
      var n := nodes[0];
      var injected := InjectRewrites(nodes, hits, path, i);
      StripForgets(nodes[1..], hits, path, i + 1);
      assert injected[1..] == InjectRewrites(nodes[1..], hits, path, i + 1);
      if n.Block? {
        StripForgets(n.body, hits, path + [i], 0);
        StripForgetsPrepend(InjectRewrites(n.body, hits, path + [i], 0));
      }
    }
  }

  lemma StripForgetsPrepend(body: seq<Node>)
    ensures WithoutRewrites(StripRewrites(PrependRewrite(body))) == WithoutRewrites(StripRewrites(body))
  {
    if !HasRewrite(body) {
      var r := Inserted(ChildIndent(body), "rewrite", RewriteArgs);
      RewriteIsChallenge(ChildIndent(body));
      assert ([r] + body)[1..] == body;
      assert ([r] + StripRewrites(body))[1..] == StripRewrites(body);
    }
  }

  /** On trees, the challenge edit is undone exactly when the source has no challenge rewrite of
      its own: the strip cannot tell the user's rewrites from the inserted ones. */
  lemma RewriteUndoneExactly(nodes: seq<Node>, hits: set<seq<nat>>)
    ensures StripRewrites(InjectRewrites(nodes, hits, [], 0)) == nodes <==> NoRewrites(nodes)
  {
    StripForgets(nodes, hits, [], 0);
    StripFixes(nodes);
  }

  /** Injecting further down changes none of the directives of a body. */
  lemma {:induction false} InjectKeepsRewrite(nodes: seq<Node>, hits: set<seq<nat>>, at: seq<nat>, i: nat)
    ensures HasRewrite(InjectRewrites(nodes, hits, at, i)) == HasRewrite(nodes)
  {
    if nodes != [] {
      var r := InjectRewrites(nodes, hits, at, i);
      InjectKeepsRewrite(nodes[1..], hits, at, i + 1);
      assert r[1..] == InjectRewrites(nodes[1..], hits, at, i + 1);
      HasRewriteFirst(r);
      HasRewriteFirst(nodes);
    }
  }

  // ----- The edited tree is well formed -----

  /** Whitespace in front of a comment ends the comment only when it starts with a newline. */
  predicate StartsLine(ws: string) {
    ws != "" && ws[0] == '\n'
  }

  /** The text behind the open brace of a block starts a new line. */
  predicate BodyStartsLine(b: Node)
    requires b.Block?
  {
    StartsLine(if b.body == [] then b.beforeClose else b.body[0].ws)
  }

  /** So it does in every server block that is hit and has no challenge rewrite yet. */
  predicate HitsStartLine(nodes: seq<Node>, hits: set<seq<nat>>, path: seq<nat>, i: nat)
    decreases nodes
  {
    nodes == [] ||
    ((nodes[0].Block? ==>
        HitsStartLine(nodes[0].body, hits, path + [i], 0) &&
        (path + [i] in hits && nodes[0].name == "server" && !HasRewrite(nodes[0].body) ==> BodyStartsLine(nodes[0]))) &&
     HitsStartLine(nodes[1..], hits, path, i + 1))
  }

  lemma {:induction false} IndentIsSpace(ws: string)
    requires AllSpace(ws)
    ensures AllSpace(LeadingIndent(ws))
  {
    if ws != "" {
      IndentIsSpace(ws[..|ws| - 1]);
      assert IsSpace(ws[|ws| - 1]);
    }
  }

  /** The whitespace with which nodes in front of `k` start. */
  lemma FirstWs(nodes: seq<Node>, k: Tokens)
    requires Fits(nodes, k) && k.Cons?
    ensures var ws := FlatNodes(nodes, k).head.ws;
      ws == (if nodes == [] then k.head.ws else nodes[0].ws) && AllSpace(ws)
  {
    assert GoodToken(FlatNodes(nodes, k).head);
    if nodes != [] { assert FlatNodes(nodes, k) == FlatNode(nodes[0], FlatNodes(nodes[1..], k)); }
  }

  predicate GoodWords(args: seq<string>) {
    forall v <- args :: GoodWord(v)
  }

  lemma {:induction false} WordsLexable(args: seq<string>, n: int, k: Tokens)
    requires GoodWords(args) && Lexable(k) && k.head == Token(Semicolon, ";", "")
    ensures var flat := FlatArgs(args, Spaces(|args|), [], n, k); Lexable(flat) && flat.head.kind != EndOfFile
  {
    if args != [] {
      assert args[0] in args && Spaces(|args|)[1..] == Spaces(|args| - 1);
      WordsLexable(args[1..], n + 1, k);
      assert args[1..] != [] ==> FlatArgs(args[1..], Spaces(|args| - 1), [], n + 1, k).head.ws == " ";
    }
  }

  /** An inserted directive fits in front of tokens that start a new line. */
  lemma InsertedFits(indent: string, name: string, args: seq<string>, body: seq<Node>, k: Tokens)
    requires AllSpace("\n" + indent) && GoodWord(name) && GoodWords(args)
    requires Fits(body, k) && k.Cons? && StartsLine(FlatNodes(body, k).head.ws)
    ensures Fits([Inserted(indent, name, args)] + body, k)
    ensures FlatNodes([Inserted(indent, name, args)] + body, k).head.ws == "\n" + indent
  {
    var d, k1 := Inserted(indent, name, args), FlatNodes(body, k);
    assert Seps(args, []) == Spaces(|args|);
    var comment := Token(Hash, Managed, " ");
    TrailingManaged(k1);
    var k2 := Cons(Token(Semicolon, ";", ""), Cons(comment, k1));
    WordsLexable(args, 0, k2);
    assert args != [] ==> FlatArgs(args, Spaces(|args|), [], 0, k2).head.ws == " ";
    FitsOne(d, body, k);
  }

  lemma TrailingManaged(k: Tokens)
    requires Lexable(k) && StartsLine(k.head.ws)
    ensures FlatTrailing(" " + Managed, k) == Cons(Token(Hash, Managed, " "), k)
    ensures Lexable(Cons(Token(Hash, Managed, " "), k)) && !ContainsNewline(" " + Managed)
  {
    assert AllSpace(" ");
    SpaceLenAppend(" ", Managed);
  }

  /** Visible ASCII without the characters that end a word. */
  predicate Plain(s: string) {
    forall i :: 0 <= i < |s| ==> '!' <= s[i] <= '~' && !IsSpecial(s[i])
  }

  lemma PlainIsWord(s: string)
    requires Plain(s) && s != "" && !IsQuote(s[0])
    ensures GoodWord(s)
  {
  }

  lemma RewritePattern()
    ensures GoodWord("^(/.well-known/acme-challenge/.*)")
  {
    PlainIsWord("^(/.well-known/acme-challenge/.*)");
  }

  lemma RewriteWords()
    ensures GoodWord("rewrite") && GoodWords(RewriteArgs)
  {
    PlainIsWord("rewrite");
    PlainIsWord("$1");
    PlainIsWord("break");
    RewritePattern();
    hide GoodWord, Plain;
  }

  lemma IndentGood(body: seq<Node>, k: Tokens)
    requires Fits(body, k) && k.Cons?
    ensures AllSpace("\n" + ChildIndent(body))
  {
    FirstWs(body, k);
    if body != [] { IndentIsSpace(body[0].ws); }
  }

  /** `PrependRewrite` and the http edits put a directive of their own line in front of a body. */
  lemma PrependedFits(body: seq<Node>, name: string, args: seq<string>, k: Tokens)
    requires Fits(body, k) && k.Cons? && StartsLine(FlatNodes(body, k).head.ws)
    requires GoodWord(name) && GoodWords(args)
    ensures Fits([Inserted(ChildIndent(body), name, args)] + body, k)
  {
    IndentGood(body, k);
    InsertedFits(ChildIndent(body), name, args, body, k);
  }

  /** The tree with the injected rewrites is well formed and starts with the same token. */
  lemma {:induction false} InjectFits(nodes: seq<Node>, hits: set<seq<nat>>, path: seq<nat>, i: nat, k: Tokens)
    requires Fits(nodes, k) && k.Cons? && Lexable(k) && HitsStartLine(nodes, hits, path, i)
    ensures var injected := InjectRewrites(nodes, hits, path, i);
      Fits(injected, k) && FlatNodes(injected, k).Cons? && FlatNodes(injected, k).head == FlatNodes(nodes, k).head
    decreases nodes, 0
  {
    if nodes != [] {
      var n, rest := nodes[0], InjectRewrites(nodes[1..], hits, path, i + 1);
      var k1 := FlatNodes(rest, k);
      FitsSplit(nodes, k);
      InjectFits(nodes[1..], hits, path, i + 1, k);
      FitsBefore([n], FlatNodes(nodes[1..], k), k1);
      FitsOne(n, nodes[1..], k);
      FitsOne(n, [], FlatNodes(nodes[1..], k));
      assert nodes == [n] + nodes[1..];
      var first := InjectRewrites(nodes, hits, path, i)[0];
      if n.Block? { InjectBlockFits(n, hits, path, i, k1); }
      FitsOne(first, rest, k);
      FitsOne(first, [], k1);
      FitsOne(n, [], k1);
    }
  }

  lemma {:induction false} InjectBlockFits(n: Node, hits: set<seq<nat>>, path: seq<nat>, i: nat, k: Tokens)
    requires n.Block? && Fits([n], k) && k.Cons? && Lexable(k) && HitsStartLine(n.body, hits, path + [i], 0)
    requires path + [i] in hits && n.name == "server" && !HasRewrite(n.body) ==> BodyStartsLine(n)
    ensures var body := InjectRewrites(n.body, hits, path + [i], 0);
      var n' := n.(body := if path + [i] in hits && n.name == "server" then PrependRewrite(body) else body);
      Fits([n'], k) && FlatNodes([n'], k).head == FlatNodes([n], k).head
    decreases n.body, 1
  {
    var k1 := Cons(Token(CloseBrace, "}", n.beforeClose), k);
    BodyFits(n, k);
    LexableSuffix(n.body, k1);
    InjectFits(n.body, hits, path + [i], 0, k1);
    var body := InjectRewrites(n.body, hits, path + [i], 0);
    InjectKeepsRewrite(n.body, hits, path + [i], 0);
    if path + [i] in hits && n.name == "server" && !HasRewrite(body) {
      FirstWs(n.body, k1);
      RewriteWords();
      PrependedFits(body, "rewrite", RewriteArgs, k1);
      FitsBody(n, PrependRewrite(body), k);
    } else {
      FitsBody(n, body, k);
    }
  }

  lemma LexableSuffix(nodes: seq<Node>, k: Tokens)
    requires Fits(nodes, k) && k.Cons?
    ensures Lexable(k)
  {
    NoEndNodes(nodes, Nil);
    FlatNodesAppend(nodes, Nil, k);
    LexableTail(FlatNodes(nodes, Nil), k);
  }

  // ----- The same for the http block -----

  predicate HttpStartsLine(nodes: seq<Node>) {
    if nodes == [] then true
    else if !nodes[0].Block? then HttpStartsLine(nodes[1..])
    else if nodes[0].name == "http" then BodyStartsLine(nodes[0])
    else if FindHttp(nodes[0].body).At? then HttpStartsLine(nodes[0].body)
    else HttpStartsLine(nodes[1..])
  }

  lemma {:induction false} PrependHttpFits(nodes: seq<Node>, body: seq<Node>, name: string, args: seq<string>, k: Tokens)
    requires Fits(nodes, k) && k.Cons? && Lexable(k) && HttpStartsLine(nodes) && FindHttp(nodes) == At(body)
    requires GoodWord(name) && GoodWords(args)
    ensures var nodes' := SetHttp(nodes, [Inserted(ChildIndent(body), name, args)] + body);
      Fits(nodes', k) && FlatNodes(nodes', k).Cons? && FlatNodes(nodes', k).head == FlatNodes(nodes, k).head
    decreases nodes
  {
    var n, k1 := nodes[0], FlatNodes(nodes[1..], k);
    var body' := [Inserted(ChildIndent(body), name, args)] + body;
    FitsSplit(nodes, k);
    LexableSuffix(nodes[1..], k);
    FitsOne(n, nodes[1..], k);
    FitsOne(n, [], k1);
    assert nodes == [n] + nodes[1..];
    if n.Block? && (n.name == "http" || FindHttp(n.body).At?) {
      var k2 := Cons(Token(CloseBrace, "}", n.beforeClose), k1);
      BodyFits(n, k1);
      LexableSuffix(n.body, k2);
      if n.name == "http" {
        FirstWs(n.body, k2);
        PrependedFits(body, name, args, k2);
        FitsBody(n, body', k1);
        FitsOne(n.(body := body'), nodes[1..], k);
        FitsOne(n.(body := body'), [], k1);
      } else {
        PrependHttpFits(n.body, body, name, args, k2);
        FitsBody(n, SetHttp(n.body, body'), k1);
        FitsOne(n.(body := SetHttp(n.body, body')), nodes[1..], k);
        FitsOne(n.(body := SetHttp(n.body, body')), [], k1);
      }
    } else {
      PrependHttpFits(nodes[1..], body, name, args, k);
      var rest := SetHttp(nodes[1..], body');
      FitsBefore([n], k1, FlatNodes(rest, k));
      FitsOne(n, rest, k);
      FitsOne(n, [], FlatNodes(rest, k));
    }
  }

  /** Reading back what was assigned, assigning twice, and assigning what is there. */
  lemma {:induction false} HttpLens(nodes: seq<Node>, body: seq<Node>, body': seq<Node>)
    requires FindHttp(nodes).At?
    ensures FindHttp(SetHttp(nodes, body)) == At(body)
    ensures SetHttp(SetHttp(nodes, body), body') == SetHttp(nodes, body')
    ensures SetHttp(nodes, FindHttp(nodes).body) == nodes
    decreases nodes
  {
    var n := nodes[0];
    var set1 := SetHttp(nodes, body);
    assert nodes == [n] + nodes[1..];
    if n.Block? && n.name == "http" {
      assert set1[1..] == nodes[1..];
    } else if n.Block? && FindHttp(n.body).At? {
      HttpLens(n.body, body, body');
      assert set1[1..] == nodes[1..];
    } else {
      HttpLens(nodes[1..], body, body');
      assert set1[1..] == SetHttp(nodes[1..], body);
    }
  }

  lemma {:induction false} SetHttpStartsLine(nodes: seq<Node>, body: seq<Node>)
    requires FindHttp(nodes).At? && body != [] && StartsLine(body[0].ws)
    ensures HttpStartsLine(SetHttp(nodes, body))
    decreases nodes
  {
    var n := nodes[0];
    var set1 := SetHttp(nodes, body);
    if n.Block? && n.name == "http" {
    } else if n.Block? && FindHttp(n.body).At? {
      SetHttpStartsLine(n.body, body);
      HttpLens(n.body, body, body);
    } else {
      SetHttpStartsLine(nodes[1..], body);
      assert set1[1..] == SetHttp(nodes[1..], body);
    }
  }

  // ----- Stripping undoes all three edits -----

  function NormFound(f: Found): Found {
    if f.Missing? then f else At(NormNodes(f.body))
  }

  /** None of the searches and filters looks at separators. */
  lemma {:induction false} NormStrip(nodes: seq<Node>)
    ensures StripRewrites(NormNodes(nodes)) == NormNodes(StripRewrites(nodes))
    decreases nodes
  {
    if nodes != [] {
      NormStrip(nodes[1..]);
      assert NormNodes(nodes)[1..] == NormNodes(nodes[1..]);
      assert StripRewrites(nodes)[1..] == StripRewrites(nodes[1..]);
      if nodes[0].Block? {
        NormStrip(nodes[0].body);
        NormWithout(StripRewrites(nodes[0].body));
      }
    }
  }

  lemma {:induction false} NormWithout(nodes: seq<Node>)
    ensures WithoutRewrites(NormNodes(nodes)) == NormNodes(WithoutRewrites(nodes))
  {
    if nodes != [] {
      NormWithout(nodes[1..]);
      assert NormNodes(nodes)[1..] == NormNodes(nodes[1..]);
      if IsChallengeRewrite(nodes[0]) { assert WithoutRewrites(nodes) == WithoutRewrites(nodes[1..]); }
      else { assert WithoutRewrites(nodes)[1..] == WithoutRewrites(nodes[1..]); }
    }
  }

  lemma {:induction false} NormHttp(nodes: seq<Node>, body: seq<Node>)
    ensures FindHttp(NormNodes(nodes)) == NormFound(FindHttp(nodes))
    ensures SetHttp(NormNodes(nodes), NormNodes(body)) == NormNodes(SetHttp(nodes, body))
    decreases nodes
  {
    if nodes != [] {
      var n, set1 := nodes[0], SetHttp(nodes, body);
      NormHttp(nodes[1..], body);
      assert NormNodes(nodes)[1..] == NormNodes(nodes[1..]);
      if n.Block? { NormHttp(n.body, body); }
      assert set1[1..] == (if n.Block? && (n.name == "http" || FindHttp(n.body).At?) then nodes[1..]
                           else SetHttp(nodes[1..], body));
    }
  }

  lemma {:induction false} NormWithoutInclude(body: seq<Node>, path: string)
    ensures WithoutInclude(NormNodes(body), path) == NormNodes(WithoutInclude(body, path))
  {
    if body != [] {
      NormWithoutInclude(body[1..], path);
      assert NormNodes(body)[1..] == NormNodes(body[1..]);
      if IsInclude(body[0], path) { assert WithoutInclude(body, path) == WithoutInclude(body[1..], path); }
      else { assert WithoutInclude(body, path)[1..] == WithoutInclude(body[1..], path); }
    }
  }

  lemma {:induction false} NormWithoutBucketSize(body: seq<Node>)
    ensures WithoutBucketSize(NormNodes(body)) == NormNodes(WithoutBucketSize(body))
  {
    if body != [] {
      NormWithoutBucketSize(body[1..]);
      assert NormNodes(body)[1..] == NormNodes(body[1..]);
      assert WithoutBucketSize(body) ==
             (if IsBucketSize(body[0]) && Contains(body[0].trailing, "managed by Certbot") then [] else [body[0]]) +
             WithoutBucketSize(body[1..]);
      if !(IsBucketSize(body[0]) && Contains(body[0].trailing, "managed by Certbot")) {
        assert WithoutBucketSize(body)[1..] == WithoutBucketSize(body[1..]);
      } else { assert WithoutBucketSize(body) == WithoutBucketSize(body[1..]); }
    }
  }

  /** Stripping the rewrites commutes with assigning to the http block. */
  lemma {:induction false} StripSetHttp(nodes: seq<Node>, body: seq<Node>)
    ensures FindHttp(StripRewrites(nodes)).At? <==> FindHttp(nodes).At?
    ensures FindHttp(nodes).At? ==> FindHttp(StripRewrites(nodes)) == At(StripRewrites(FindHttp(nodes).body))
    ensures StripRewrites(SetHttp(nodes, body)) == SetHttp(StripRewrites(nodes), StripRewrites(body))
    decreases nodes
  {
    if nodes != [] {
      var n := nodes[0];
      StripSetHttp(nodes[1..], body);
      assert StripRewrites(nodes)[1..] == StripRewrites(nodes[1..]);
      if n.Block? {
        StripSetHttp(n.body, body);
        WithoutSetHttp(StripRewrites(n.body), StripRewrites(body));
      }
      assert SetHttp(nodes, body)[1..] == (if n.Block? && (n.name == "http" || FindHttp(n.body).At?) then nodes[1..]
                                           else SetHttp(nodes[1..], body));
    }
  }

  lemma {:induction false} WithoutSetHttp(nodes: seq<Node>, body: seq<Node>)
    ensures FindHttp(WithoutRewrites(nodes)) == FindHttp(nodes)
    ensures WithoutRewrites(SetHttp(nodes, body)) == SetHttp(WithoutRewrites(nodes), body)
  {
    if nodes != [] {
      var n := nodes[0];
      WithoutSetHttp(nodes[1..], body);
      var set1 := SetHttp(nodes, body);
      assert set1[1..] == (if n.Block? && (n.name == "http" || FindHttp(n.body).At?) then nodes[1..]
                           else SetHttp(nodes[1..], body));
      if IsChallengeRewrite(n) {
        assert WithoutRewrites(nodes) == WithoutRewrites(nodes[1..]);
      } else {
        assert WithoutRewrites(nodes)[1..] == WithoutRewrites(nodes[1..]);
        assert WithoutRewrites(set1)[1..] == WithoutRewrites(set1[1..]);
      }
    }
  }
}
