/** The life of a challenge in the nginx plugin: the configuration files are edited and written,
    and later read, parsed, stripped and written again. */
module NginxUndo {
  import opened Common
  import opened Text
  import opened NginxLexer
  import opened NginxAst
  import opened NginxParser
  import opened NginxRoundTrip
  import opened NginxSplice
  import opened NginxChallenge

  /** A tree with what `injectChallengeLocations` does to it; `http` says that the tree is the one
      whose http block gets the include of `path` and the bucket size. */
  datatype Edited = Edited(nodes: seq<Node>, addedInclude: bool, addedBucketSize: bool)

  function EditTree(nodes: seq<Node>, hits: set<seq<nat>>, http: bool, path: string): Edited {
    var injected := InjectRewrites(nodes, hits, [], 0);
    if !http then Edited(injected, false, false)
    else
      var (t1, addedInclude) := EnsureInclude(injected, path);
      var (t2, addedBucketSize) := EnsureBucketSize(t1);
      Edited(t2, addedInclude, addedBucketSize)
  }

  /** What `removeChallengeLocations` does to the tree of one file; `rewrites` is false for an http
      file in which no server was edited. */
  function StripTree(nodes: seq<Node>, rewrites: bool, withInclude: bool, withBucket: bool, path: string): seq<Node> {
    var t := if rewrites then StripRewrites(nodes) else nodes;
    var t1 := if withInclude then StripInclude(t, path) else t;
    if withBucket then StripBucketSize(t1) else t1
  }

  /** The same on the text of the file. */
  function StripText(text: string, rewrites: bool, withInclude: bool, withBucket: bool, path: string): Result<string> {
    match Parse(text)
    case Failure(e) => Failure(e)
    case Success(c) => Success(Print(c.(nodes := StripTree(c.nodes, rewrites, withInclude, withBucket, path))))
  }

  // ----- On trees -----

  lemma {:induction false} KeepIncludeFree(body: seq<Node>, path: string)
    requires !HasInclude(body, path)
    ensures WithoutInclude(body, path) == body
  {
    if body != [] {
      assert body[0] in body && forall n <- body[1..] :: n in body;
      KeepIncludeFree(body[1..], path);
    }
  }

  lemma {:induction false} KeepBucketFree(body: seq<Node>)
    requires !HasBucketSize(body)
    ensures WithoutBucketSize(body) == body
  {
    if body != [] {
      assert body[0] in body && forall n <- body[1..] :: n in body;
      KeepBucketFree(body[1..]);
    }
  }

  /** Stripping rewrites neither adds nor loses other directives at the same level. */
  lemma {:induction false} StripKeepsOthers(body: seq<Node>, path: string)
    ensures HasInclude(StripRewrites(body), path) ==> HasInclude(body, path)
    ensures HasBucketSize(StripRewrites(body)) ==> HasBucketSize(body)
  {
    if body != [] {
      StripKeepsOthers(body[1..], path);
      assert StripRewrites(body)[1..] == StripRewrites(body[1..]);
      assert forall n <- StripRewrites(body) :: n == StripNode(body[0]) || n in StripRewrites(body[1..]);
      assert body[0] in body && forall n <- body[1..] :: n in body;
    }
  }

  lemma IncludeFound(indent: string, path: string)
    requires TrimQuotes(path) == path
    ensures IsInclude(IncludeLine(indent, path), path)
  {
  }

  lemma IncludeIsNoBucket(indent: string, path: string)
    ensures !IsBucketSize(IncludeLine(indent, path)) && !IsInclude(BucketLine(indent), path)
  {
    assert |"include"| == 7 && |"server_names_hash_bucket_size"| == 29;
  }

  lemma BucketFound(indent: string)
    ensures IsBucketSize(BucketLine(indent)) && Contains(BucketLine(indent).trailing, "managed by Certbot")
  {
    assert " " + Managed == " # " + "managed by Certbot";
    assert OccursAt(" " + Managed, "managed by Certbot", 3);
  }

  /** The nodes put in front of the http body. */
  function Front(withInclude: bool, withBucket: bool, i1: string, i2: string, path: string): seq<Node> {
    (if withBucket then [BucketLine(i2)] else []) + (if withInclude then [IncludeLine(i1, path)] else [])
  }

  lemma WithoutFirstInclude(n: Node, body: seq<Node>, path: string)
    ensures WithoutInclude([n] + body, path) ==
            (if IsInclude(n, path) then [] else [n]) + WithoutInclude(body, path)
  {
    assert ([n] + body)[1..] == body;
  }

  lemma WithoutFrontInclude(withBucket: bool, i1: string, i2: string, body: seq<Node>, path: string)
    requires TrimQuotes(path) == path && !HasInclude(body, path)
    ensures WithoutInclude(Front(true, withBucket, i1, i2, path) + body, path) ==
            (if withBucket then [BucketLine(i2)] else []) + body
  {
    var i, b := IncludeLine(i1, path), BucketLine(i2);
    IncludeFound(i1, path);
    IncludeIsNoBucket(i2, path);
    KeepIncludeFree(body, path);
    hide IsInclude, IncludeLine, BucketLine, HasInclude;
    WithoutFirstInclude(i, body, path);
    assert [] + body == body;
    if withBucket {
      WithoutFirstInclude(b, [i] + body, path);
      assert Front(true, withBucket, i1, i2, path) + body == [b] + ([i] + body);
    } else {
      assert Front(true, withBucket, i1, i2, path) + body == [i] + body;
    }
  }

  lemma WithoutFrontBucket(i2: string, body: seq<Node>)
    requires !HasBucketSize(body)
    ensures WithoutBucketSize([BucketLine(i2)] + body) == body
  {
    var b := BucketLine(i2);
    BucketFound(i2);
    KeepBucketFree(body);
    hide IsBucketSize, BucketLine, HasBucketSize, Contains;
    assert ([b] + body)[1..] == body && [] + body == body;
  }

  lemma ClearFront(nodes: seq<Node>, body: seq<Node>, withInclude: bool, withBucket: bool, i1: string, i2: string,
                   path: string)
    requires FindHttp(nodes) == At(body) && TrimQuotes(path) == path
    requires (withInclude ==> !HasInclude(body, path)) && (withBucket ==> !HasBucketSize(body))
    ensures StripTree(SetHttp(nodes, Front(withInclude, withBucket, i1, i2, path) + body), false, withInclude, withBucket, path)
            == nodes
  {
    var front := Front(withInclude, withBucket, i1, i2, path);
    var b1 := (if withBucket then [BucketLine(i2)] else []) + body;
    HttpLens(nodes, front + body, b1);
    HttpLens(nodes, b1, body);
    if withInclude { WithoutFrontInclude(withBucket, i1, i2, body, path); }
    if withBucket { WithoutFrontBucket(i2, body); }
    hide FindHttp, SetHttp, IncludeLine, BucketLine, HasInclude, HasBucketSize, WithoutInclude, WithoutBucketSize;
    assert !withInclude ==> front + body == b1;
    assert !withBucket ==> b1 == body;
  }

  lemma IncludeIsFront(nodes: seq<Node>, body: seq<Node>, path: string)
    requires FindHttp(nodes) == At(body)
    ensures var (t1, withInclude) := EnsureInclude(nodes, path);
      var b1 := (if withInclude then [IncludeLine(ChildIndent(body), path)] else []) + body;
      t1 == SetHttp(nodes, b1) && FindHttp(t1) == At(b1) && (withInclude ==> !HasInclude(body, path))
  {
    var (t1, withInclude) := EnsureInclude(nodes, path);
    var b1 := (if withInclude then [IncludeLine(ChildIndent(body), path)] else []) + body;
    HttpLens(nodes, b1, b1);
    assert [] + body == body;
  }

  lemma BucketIsFront(nodes: seq<Node>, body: seq<Node>)
    requires FindHttp(nodes) == At(body)
    ensures var (t1, withBucket) := EnsureBucketSize(nodes);
      t1 == SetHttp(nodes, (if withBucket then [BucketLine(ChildIndent(body))] else []) + body) &&
      (withBucket ==> !HasBucketSize(body))
  {
    HttpLens(nodes, body, body);
    assert [] + body == body;
  }

  lemma BucketFreeSuffix(front: seq<Node>, body: seq<Node>)
    requires !HasBucketSize(front + body)
    ensures !HasBucketSize(body)
  {
    assert forall n <- body :: n in front + body;
  }

  /** The edit of the http block, in one assignment. */
  lemma EditIsFront(nodes: seq<Node>, body: seq<Node>, path: string) returns (i1: string, i2: string)
    requires FindHttp(nodes) == At(body)
    ensures var (t1, withInclude) := EnsureInclude(nodes, path); var (t2, withBucket) := EnsureBucketSize(t1);
      t2 == SetHttp(nodes, Front(withInclude, withBucket, i1, i2, path) + body) &&
      (withInclude ==> !HasInclude(body, path)) && (withBucket ==> !HasBucketSize(body)) &&
      i1 == ChildIndent(body) && i2 == ChildIndent((if withInclude then [IncludeLine(i1, path)] else []) + body)
  {
    hide FindHttp, SetHttp, IncludeLine, BucketLine, ChildIndent, EnsureInclude, EnsureBucketSize, HasInclude,
         HasBucketSize;
    var (t1, withInclude) := EnsureInclude(nodes, path);
    i1 := ChildIndent(body);
    var front1 := if withInclude then [IncludeLine(i1, path)] else [];
    var b1 := front1 + body;
    IncludeIsFront(nodes, body, path);
    i2 := ChildIndent(b1);
    var (t2, withBucket) := EnsureBucketSize(t1);
    var front2 := if withBucket then [BucketLine(i2)] else [];
    BucketIsFront(t1, b1);
    HttpLens(nodes, b1, front2 + b1);
    Assoc(front2, front1, body);
    if withBucket { BucketFreeSuffix(front1, body); }
  }

  lemma StripFront(withInclude: bool, withBucket: bool, i1: string, i2: string, path: string, body: seq<Node>)
    ensures StripRewrites(Front(withInclude, withBucket, i1, i2, path) + body) ==
            Front(withInclude, withBucket, i1, i2, path) + StripRewrites(body)
  {
    StripDirectives(Front(withInclude, withBucket, i1, i2, path), body);
  }

  lemma {:induction false} StripDirectives(front: seq<Node>, body: seq<Node>)
    requires forall n <- front :: n.Directive?
    ensures StripRewrites(front + body) == front + StripRewrites(body)
  {
    if front == [] {
      assert [] + body == body && [] + StripRewrites(body) == StripRewrites(body);
    } else {
      assert front[0] in front && forall n <- front[1..] :: n in front;
      StripDirectives(front[1..], body);
      assert (front + body)[1..] == front[1..] + body;
      assert front + StripRewrites(body) == [front[0]] + (front[1..] + StripRewrites(body));
    }
  }

  lemma {:induction false} InjectNothing(nodes: seq<Node>, path: seq<nat>, i: nat)
    ensures InjectRewrites(nodes, {}, path, i) == nodes
    decreases nodes
  {
    if nodes != [] {
      InjectNothing(nodes[1..], path, i + 1);
      if nodes[0].Block? { InjectNothing(nodes[0].body, path + [i], 0); }
      var r := InjectRewrites(nodes, {}, path, i);
      assert r == [r[0]] + r[1..] && nodes == [nodes[0]] + nodes[1..];
    }
  }

  lemma {:induction false} InjectKeepsHttp(nodes: seq<Node>, hits: set<seq<nat>>, path: seq<nat>, i: nat)
    ensures FindHttp(InjectRewrites(nodes, hits, path, i)).At? <==> FindHttp(nodes).At?
    ensures HttpStartsLine(nodes) ==> HttpStartsLine(InjectRewrites(nodes, hits, path, i))
    decreases nodes
  {
    if nodes != [] {
      var n, injected := nodes[0], InjectRewrites(nodes, hits, path, i);
      InjectKeepsHttp(nodes[1..], hits, path, i + 1);
      assert injected[1..] == InjectRewrites(nodes[1..], hits, path, i + 1);
      if n.Block? {
        InjectKeepsHttp(n.body, hits, path + [i], 0);
        PrependKeepsHttp(InjectRewrites(n.body, hits, path + [i], 0));
        FirstKept(n.body, hits, path + [i], 0);
      }
    }
  }

  lemma PrependKeepsHttp(body: seq<Node>)
    ensures FindHttp(PrependRewrite(body)) == FindHttp(body)
    ensures HttpStartsLine(body) == HttpStartsLine(PrependRewrite(body))
  {
    if !HasRewrite(body) { assert PrependRewrite(body)[1..] == body; }
  }

  lemma FirstKept(nodes: seq<Node>, hits: set<seq<nat>>, path: seq<nat>, i: nat)
    ensures nodes != [] ==> InjectRewrites(nodes, hits, path, i)[0].ws == nodes[0].ws
  {
  }

  /** On trees, stripping undoes the whole edit, and takes the challenge rewrites of the source with
      it when it looks for rewrites. */
  lemma TreeUndone(nodes: seq<Node>, hits: set<seq<nat>>, http: bool, path: string)
    requires TrimQuotes(path) == path
    ensures var e := EditTree(nodes, hits, http, path);
      StripTree(e.nodes, true, e.addedInclude, e.addedBucketSize, path) == StripRewrites(nodes) &&
      (hits == {} ==> StripTree(e.nodes, false, e.addedInclude, e.addedBucketSize, path) == nodes)
  {
    var injected := InjectRewrites(nodes, hits, [], 0);
    StripForgets(nodes, hits, [], 0);
    if hits == {} { InjectNothing(nodes, [], 0); }
    if http && FindHttp(injected).At? {
      var body := FindHttp(injected).body;
      var i1, i2 := EditIsFront(injected, body, path);
      var e := EditTree(nodes, hits, http, path);
      var front := Front(e.addedInclude, e.addedBucketSize, i1, i2, path);
      StripSetHttp(injected, front + body);
      StripFront(e.addedInclude, e.addedBucketSize, i1, i2, path, body);
      StripKeepsOthers(body, path);
      ClearFront(StripRewrites(nodes), StripRewrites(body), e.addedInclude, e.addedBucketSize, i1, i2, path);
      if hits == {} { ClearFront(nodes, body, e.addedInclude, e.addedBucketSize, i1, i2, path); }
    }
  }

  // ----- Through the text -----

  lemma NormStripTree(nodes: seq<Node>, rewrites: bool, withInclude: bool, withBucket: bool, path: string)
    ensures StripTree(NormNodes(nodes), rewrites, withInclude, withBucket, path) ==
            NormNodes(StripTree(nodes, rewrites, withInclude, withBucket, path))
  {
    NormStrip(nodes);
    var t := if rewrites then StripRewrites(nodes) else nodes;
    NormHttp(t, []);
    if FindHttp(t).At? {
      NormWithoutInclude(FindHttp(t).body, path);
      NormHttp(t, WithoutInclude(FindHttp(t).body, path));
    }
    var t1 := if withInclude then StripInclude(t, path) else t;
    NormHttp(t1, []);
    if FindHttp(t1).At? {
      NormWithoutBucketSize(FindHttp(t1).body);
      NormHttp(t1, WithoutBucketSize(FindHttp(t1).body));
    }
  }

  /** Writing the separators out does not change the text. */
  lemma {:induction false} PrintNorm(nodes: seq<Node>)
    ensures NodesText(NormNodes(nodes)) == NodesText(nodes)
    decreases nodes
  {
    if nodes != [] {
      PrintNorm(nodes[1..]);
      assert NormNodes(nodes)[1..] == NormNodes(nodes[1..]);
      match nodes[0]
      case Directive(_, _, args, argWs, _, _, _) => assert Seps(args, Seps(args, argWs)) == Seps(args, argWs);
      case Block(_, _, _, body, _) => PrintNorm(body);
      case Comment(_, _) =>
    }
  }

  /** The include path can be written as one unquoted word. */
  predicate WordPath(path: string) {
    GoodWord(path) && TrimQuotes(path) == path
  }

  /** The http block misses the include or the bucket size. */
  predicate GetsHttpLine(nodes: seq<Node>, path: string) {
    FindHttp(nodes).At? && (!HasInclude(FindHttp(nodes).body, path) || !HasBucketSize(FindHttp(nodes).body))
  }

  /** The source allows the edit: the text behind each brace that gets a marked line starts a line. */
  predicate Editable(c: Config, hits: set<seq<nat>>, http: bool, path: string) {
    HitsStartLine(c.nodes, hits, [], 0) && (http && GetsHttpLine(c.nodes, path) ==> HttpStartsLine(c.nodes))
  }

  lemma {:induction false} InjectKeepsDirectives(nodes: seq<Node>, hits: set<seq<nat>>, at: seq<nat>, i: nat, n: Node)
    requires n.Directive?
    ensures n in InjectRewrites(nodes, hits, at, i) <==> n in nodes
  {
    if nodes != [] {
      var r := InjectRewrites(nodes, hits, at, i);
      InjectKeepsDirectives(nodes[1..], hits, at, i + 1, n);
      assert r[1..] == InjectRewrites(nodes[1..], hits, at, i + 1);
      assert n in r <==> n == r[0] || n in r[1..];
      assert n in nodes <==> n == nodes[0] || n in nodes[1..];
    }
  }

  lemma InjectKeepsLines(body: seq<Node>, hits: set<seq<nat>>, at: seq<nat>, i: nat, path: string)
    ensures var r := InjectRewrites(body, hits, at, i);
      HasInclude(r, path) == HasInclude(body, path) && HasBucketSize(r) == HasBucketSize(body)
  {
    forall n: Node | n.Directive? ensures n in InjectRewrites(body, hits, at, i) <==> n in body {
      InjectKeepsDirectives(body, hits, at, i, n);
    }
  }

  /** The http block of the injected tree misses the same lines. */
  lemma {:induction false} InjectGetsLine(nodes: seq<Node>, hits: set<seq<nat>>, at: seq<nat>, i: nat, path: string)
    ensures var r := InjectRewrites(nodes, hits, at, i);
      GetsHttpLine(r, path) == GetsHttpLine(nodes, path) && (FindHttp(r).At? <==> FindHttp(nodes).At?)
    decreases nodes
  {
    if nodes != [] {
      var n, r := nodes[0], InjectRewrites(nodes, hits, at, i);
      InjectGetsLine(nodes[1..], hits, at, i + 1, path);
      assert r[1..] == InjectRewrites(nodes[1..], hits, at, i + 1);
      if n.Block? {
        InjectGetsLine(n.body, hits, at + [i], 0, path);
        InjectKeepsLines(n.body, hits, at + [i], 0, path);
        PrependKeepsHttp(InjectRewrites(n.body, hits, at + [i], 0));
      }
    }
  }

  /** Which lines the edit adds to the http block. */
  lemma AddsHttpLine(nodes: seq<Node>, hits: set<seq<nat>>, http: bool, path: string)
    ensures var e := EditTree(nodes, hits, http, path);
      (e.addedInclude || e.addedBucketSize <==> http && GetsHttpLine(nodes, path)) &&
      (!e.addedInclude && !e.addedBucketSize ==> e.nodes == InjectRewrites(nodes, hits, [], 0))
  {
    var injected := InjectRewrites(nodes, hits, [], 0);
    InjectGetsLine(nodes, hits, [], 0, path);
    if http && FindHttp(injected).At? { IncludeLeavesBucket(injected, path); }
  }

  lemma IncludeLeavesBucket(nodes: seq<Node>, path: string)
    requires FindHttp(nodes).At?
    ensures var t1 := EnsureInclude(nodes, path).0;
      FindHttp(t1).At? && HasBucketSize(FindHttp(t1).body) == HasBucketSize(FindHttp(nodes).body)
  {
    var body := FindHttp(nodes).body;
    var line := IncludeLine(ChildIndent(body), path);
    HttpLens(nodes, [line] + body, []);
    IncludeIsNoBucket(ChildIndent(body), path);
    hide IsBucketSize, FindHttp, SetHttp;
    assert forall n :: n in [line] + body <==> n == line || n in body;
  }

  lemma EditedIsWellFormed(c: Config, hits: set<seq<nat>>, http: bool, path: string)
    requires WellFormed(c) && Editable(c, hits, http, path) && WordPath(path)
    ensures WellFormed(c.(nodes := EditTree(c.nodes, hits, http, path).nodes))
  {
    var end := EndToken(c.trailing);
    LexableSuffix(c.nodes, end);
    InjectFits(c.nodes, hits, [], 0, end);
    InjectKeepsHttp(c.nodes, hits, [], 0);
    AddsHttpLine(c.nodes, hits, http, path);
    var injected := InjectRewrites(c.nodes, hits, [], 0);
    if http && GetsHttpLine(c.nodes, path) {
      IncludeFits(injected, path, end);
      BucketFits(EnsureInclude(injected, path).0, end);
    }
  }

  lemma IncludeFits(nodes: seq<Node>, path: string, k: Tokens)
    requires Fits(nodes, k) && k.Cons? && Lexable(k) && HttpStartsLine(nodes) && FindHttp(nodes).At? && WordPath(path)
    ensures var t1 := EnsureInclude(nodes, path).0; Fits(t1, k) && HttpStartsLine(t1) && FindHttp(t1).At?
  {
    var body := FindHttp(nodes).body;
    PlainIsWord("include");
    hide GoodWord, Fits, Lexable;
    if EnsureInclude(nodes, path).1 {
      PrependHttpFits(nodes, body, "include", [path], k);
      var b1 := [IncludeLine(ChildIndent(body), path)] + body;
      HttpLens(nodes, b1, b1);
      SetHttpStartsLine(nodes, b1);
    }
  }

  lemma BucketWords()
    ensures GoodWord("server_names_hash_bucket_size") && GoodWords(["128"])
  {
    PlainIsWord("server_names_hash_bucket_size");
    PlainIsWord("128");
    hide GoodWord;
  }

  lemma BucketFits(nodes: seq<Node>, k: Tokens)
    requires Fits(nodes, k) && k.Cons? && Lexable(k) && HttpStartsLine(nodes) && FindHttp(nodes).At?
    ensures Fits(EnsureBucketSize(nodes).0, k)
  {
    BucketWords();
    hide GoodWord, GoodWords, Fits, Lexable, HttpStartsLine, HasBucketSize;
    if EnsureBucketSize(nodes).1 {
      PrependHttpFits(nodes, FindHttp(nodes).body, "server_names_hash_bucket_size", ["128"], k);
    }
  }

  /** The challenge edit of a file undoes itself through its text. */
  lemma TextUndone(c: Config, hits: set<seq<nat>>, http: bool, path: string)
    requires WellFormed(c) && Editable(c, hits, http, path) && WordPath(path)
    ensures var e := EditTree(c.nodes, hits, http, path); var text := Print(c.(nodes := e.nodes));
      StripText(text, true, e.addedInclude, e.addedBucketSize, path) == Success(Print(c.(nodes := StripRewrites(c.nodes)))) &&
      (hits == {} ==> StripText(text, false, e.addedInclude, e.addedBucketSize, path) == Success(Print(c)))
  {
    var e := EditTree(c.nodes, hits, http, path);
    EditedIsWellFormed(c, hits, http, path);
    RoundTrip(c.(nodes := e.nodes));
    NormStripTree(e.nodes, true, e.addedInclude, e.addedBucketSize, path);
    NormStripTree(e.nodes, false, e.addedInclude, e.addedBucketSize, path);
    TreeUndone(c.nodes, hits, http, path);
    PrintNorm(c.nodes);
    PrintNorm(StripRewrites(c.nodes));
  }

  // ----- A server block on one line -----

  /** The text behind the open brace of a block that ends a file. */
  function Behind(b: Node, trailing: string): string
    requires b.Block?
  {
    NodesText(b.body) + b.beforeClose + "}" + trailing
  }

  /** An inserted line whose comment has taken in the text `r`. */
  function LongLine(indent: string, name: string, args: seq<string>, r: string): Node {
    Directive("\n" + indent, name, args, [], true, " " + Managed + r, [])
  }

  lemma RewriteTextLonger(indent: string, r: string)
    ensures NodeText(LongLine(indent, "rewrite", RewriteArgs, r)) ==
            NodeText(Inserted(indent, "rewrite", RewriteArgs)) + r
  {
    var d := Inserted(indent, "rewrite", RewriteArgs);
    var t := d.ws + d.name + TextAt([], -1) + TextArgs(RewriteArgs, Seps(RewriteArgs, []), [], 0) + ";";
    Assoc(t, " " + Managed, r);
  }

  lemma RenderHeader(b: Node, k: Tokens)
    requires b.Block?
    ensures Render(Append(Header(b), k)) == b.ws + b.name + TextWords(b.args) + Render(k)
  {
    FlatArgsAppend(b.args, Spaces(|b.args|), [], 0, Nil, k);
    RenderArgs(b.args, Spaces(|b.args|), [], 0, k);
    WordsAreArgs(b.args, 0);
    Assoc(b.ws + b.name, TextWords(b.args), Render(k));
  }

  lemma RenderBrace(d: Node)
    requires d.Directive? && d.semicolon
    ensures Render(Cons(Token(OpenBrace, "{", " "), FlatNode(d, EndToken("")))) == " {" + NodeText(d)
  {
    RenderDirective(d, EndToken(""));
    assert Render(EndToken("")) == "";
    assert NodeText(d) + "" == NodeText(d);
  }

  lemma OneLineText(b: Node, indent: string, trailing: string)
    requires b.Block?
    ensures var d := Inserted(indent, "rewrite", RewriteArgs);
      var long := LongLine(indent, "rewrite", RewriteArgs, Behind(b, trailing));
      Print(Config([b.(body := [d] + b.body)], trailing)) ==
      Render(Append(Header(b), Cons(Token(OpenBrace, "{", " "), FlatNode(long, EndToken("")))))
  {
    var d := Inserted(indent, "rewrite", RewriteArgs);
    var long := LongLine(indent, "rewrite", RewriteArgs, Behind(b, trailing));
    var b' := b.(body := [d] + b.body);
    var head, text, body := b.ws + b.name + TextWords(b.args), NodeText(d), NodesText(b.body);
    RenderHeader(b, Cons(Token(OpenBrace, "{", " "), FlatNode(long, EndToken(""))));
    RenderBrace(long);
    RewriteTextLonger(indent, Behind(b, trailing));
    assert ([d] + b.body)[1..] == b.body && [b'][1..] == [];
    assert NodesText([b']) == NodeText(b') + "" == NodeText(b');
    assert NodeText(b') == head + " {" + (text + body) + b.beforeClose + "}";
    hide NodeText, NodesText, Render, FlatNode, TextWords;
    OneLineConcat(head, text, body, b.beforeClose, trailing);
  }

  lemma OneLineConcat(head: string, text: string, body: string, close: string, trailing: string)
    ensures head + " {" + (text + body) + close + "}" + trailing ==
            head + (" {" + (text + (body + close + "}" + trailing)))
  {
    var h := head + " {";
    Assoc(h, text, body);
    Assoc(head, " {", text + (body + close + "}" + trailing));
    Assoc(h, text, body + close + "}" + trailing);
    Assoc(h + text, body + close + "}", trailing);
    Assoc(h + text, body + close, "}");
    Assoc(h + text, body, close);
  }

  /** An inserted line with any comment of one line at the end of a file. */
  lemma CommentedNode(d: Node, v: string, e: string)
    requires d.Directive? && d == Directive(d.ws, d.name, d.args, [], true, " " + v, []) && GoodComment(v)
    requires StartsLine(d.ws) && AllSpace(d.ws) && GoodWord(d.name) && GoodWords(d.args) && e in {"", "\n"}
    ensures GoodNode(d, EndToken(e)) && Lexable(FlatNode(d, EndToken(e))) && FlatNode(d, EndToken(e)).head.ws == d.ws
  {
    LongTrailing(v, e);
    var k1 := Cons(Token(Hash, v, " "), EndToken(e));
    var k2 := Cons(Token(Semicolon, ";", ""), k1);
    var flat := FlatArgs(d.args, Spaces(|d.args|), [], 0, k2);
    hide GoodWords, FlatTrailing;
    WordsLexable(d.args, 0, k2);
    assert Seps(d.args, []) == Spaces(|d.args|);
    assert d.args != [] ==> flat.head.ws == " ";
    assert FlatNode(d, EndToken(e)) == Cons(ArgToken(d.name, d.ws), flat);
  }

  lemma LongTrailing(v: string, e: string)
    requires GoodComment(v) && e in {"", "\n"}
    ensures FlatTrailing(" " + v, EndToken(e)) == Cons(Token(Hash, v, " "), EndToken(e))
    ensures Lexable(Cons(Token(Hash, v, " "), EndToken(e))) && !ContainsNewline(" " + v)
  {
    assert AllSpace(" ") && AllSpace(e);
    SpaceLenAppend(" ", v);
  }

  lemma LongComment(r: string)
    requires !ContainsNewline(r)
    ensures GoodComment(Managed + r)
  {
    assert (Managed + r)[0] == Managed[0] == '#' && '\n' !in Managed;
  }

  lemma LongLineFits(indent: string, name: string, args: seq<string>, r: string)
    requires AllSpace("\n" + indent) && !ContainsNewline(r) && GoodWord(name) && GoodWords(args)
    ensures var d := LongLine(indent, name, args, r);
      GoodNode(d, EndToken("")) && Lexable(FlatNode(d, EndToken("")))
  {
    LongComment(r);
    hide GoodComment, GoodWord, GoodWords, FlatNode, GoodNode, Lexable, AllSpace;
    assert " " + Managed + r == " " + (Managed + r);
    CommentedNode(LongLine(indent, name, args, r), Managed + r, "");
  }

  /** An open block at the end of a file is an error. */
  lemma OpenBlockFails(b: Node, d: Node)
    requires b.Block? && ArgKind(b.name) == Word && d.Directive? && GoodNode(d, EndToken(""))
    ensures ParseBody(Append(Header(b), Cons(Token(OpenBrace, "{", " "), FlatNode(d, EndToken("")))), true) ==
            Failure(UnexpectedEnd)
  {
    var open, k := Token(OpenBrace, "{", " "), FlatNode(d, EndToken(""));
    ParseFlatDirective(d, EndToken(""), false);
    assert ParseBody(k, false) == Failure(UnexpectedEnd);
    FlatArgsAppend(b.args, Spaces(|b.args|), [], 0, Nil, Cons(open, k));
    ParseFlatArgs(b.args, Spaces(|b.args|), [], 0, Cons(open, k));
  }

  /** A server block written on one line at the end of a file is parsed and edited, but the comment
      behind the inserted rewrite swallows the rest of the line: the written file does not parse. */
  lemma OneLineServerBreaks(b: Node, trailing: string)
    requires WellFormed(Config([b], trailing)) && b.Block? && !HasRewrite(b.body)
    requires !ContainsNewline(Behind(b, trailing))
    ensures Parse(Print(Config([b.(body := PrependRewrite(b.body))], trailing))) == Failure(UnexpectedEnd)
  {
    var end, close := EndToken(trailing), Token(CloseBrace, "}", b.beforeClose);
    var indent := ChildIndent(b.body);
    var long := LongLine(indent, "rewrite", RewriteArgs, Behind(b, trailing));
    BodyFits(b, end);
    IndentGood(b.body, Cons(close, end));
    RewriteWords();
    LongLineFits(indent, "rewrite", RewriteArgs, Behind(b, trailing));
    FlatBlock(b, end);
    assert GoodNode(b, FlatNodes([b][1..], end));
    var k := FlatNode(long, EndToken(""));
    SwapBehindBrace(Header(b), " ", FlatNodes(b.body, Cons(close, end)), k);
    hide Lex, ParseBody, Lexable, Fits, GoodNode, FlatNode, FlatNodes, Header, GoodWord, GoodWords, LongLine;
    OneLineText(b, indent, trailing);
    LexReadsBack(Append(Header(b), Cons(Token(OpenBrace, "{", " "), k)));
    OpenBlockFails(b, long);
  }
}
