/** The challenge edit of one file and its cleanup, each in one pass over the tree. */
module NginxMarks {
  import opened Common
  import opened Text
  import opened NginxLexer
  import opened NginxAst
  import opened NginxRoundTrip
  import opened NginxSplice
  import opened NginxChallenge
  import opened NginxUndo

  /** What stays the same during one edit: the server blocks to edit, the path of the challenge
      file, and whether the cleanup looks for rewrites. */
  datatype Job = Job(hits: set<seq<nat>>, path: string, rewrites: bool)

  /** The lines for the first http block in document order, while it is still to come. */
  datatype Want = Want(withInclude: bool, withBucket: bool)

  const NoWant := Want(false, false)

  function Inner(n: Node, w: Want): Want {
    if n.Block? && n.name == "http" then NoWant else w
  }

  /** What is still wanted behind a node. */
  function Next(n: Node, w: Want): Want {
    if n.Block? && (n.name == "http" || FindHttp(n.body).At?) then NoWant else w
  }

  // ----- The edit -----

  /** The lines put in front of the body of the block at `place`. */
  function FrontOf(job: Job, n: Node, place: seq<nat>, w: Want): seq<Node>
    requires n.Block?
  {
    var indent := ChildIndent(n.body);
    if n.name == "http" then Front(w.withInclude, w.withBucket, indent, indent, job.path)
    else if n.name == "server" && place in job.hits && !HasRewrite(n.body) then
      [Inserted(indent, "rewrite", RewriteArgs)]
    else []
  }

  /** The edited nodes, which are the children from number `i` on of the node at `at`. */
  function Mark(job: Job, nodes: seq<Node>, at: seq<nat>, i: nat, w: Want): (r: seq<Node>)
    ensures |r| == |nodes|
    decreases nodes, 1
  {
    if nodes == [] then []
    else [MarkNode(job, nodes[0], at + [i], w)] + Mark(job, nodes[1..], at, i + 1, Next(nodes[0], w))
  }

  function MarkNode(job: Job, n: Node, place: seq<nat>, w: Want): Node
    decreases n, 0
  {
    if !n.Block? then n
    else n.(body := FrontOf(job, n, place, w) + Mark(job, n.body, place, 0, Inner(n, w)))
  }

  /** Every body that gets a marked line starts a line. */
  predicate AllStart(job: Job, nodes: seq<Node>, at: seq<nat>, i: nat, w: Want)
    decreases nodes, 1
  {
    nodes == [] ||
    (NodeStarts(job, nodes[0], at + [i], w) && AllStart(job, nodes[1..], at, i + 1, Next(nodes[0], w)))
  }

  predicate NodeStarts(job: Job, n: Node, place: seq<nat>, w: Want)
    decreases n, 0
  {
    n.Block? ==>
      (FrontOf(job, n, place, w) != [] ==> BodyStartsLine(n)) && AllStart(job, n.body, place, 0, Inner(n, w))
  }

  // ----- The cleanup -----

  /** The kind of body that nodes are in, which decides what is removed from it. */
  datatype Level = Plain | InServer | InHttp(want: Want)

  function LevelOf(n: Node, w: Want): Level {
    if n.Block? && n.name == "http" then InHttp(w)
    else if n.Block? && n.name == "server" then InServer
    else Plain
  }

  predicate Drops(job: Job, l: Level, n: Node) {
    match l
    case Plain => false
    case InServer => job.rewrites && IsChallengeRewrite(n)
    case InHttp(w) =>
      (w.withInclude && IsInclude(n, job.path)) ||
      (w.withBucket && IsBucketSize(n) && Contains(n.trailing, "managed by Certbot"))
  }

  function Kept(job: Job, l: Level, n: Node, cleaned: Node): seq<Node> {
    if Drops(job, l, n) then [] else [cleaned]
  }

  function Clean(job: Job, nodes: seq<Node>, l: Level, w: Want): (r: seq<Node>)
    ensures |r| <= |nodes|
    decreases nodes, 1
  {
    if nodes == [] then []
    else Kept(job, l, nodes[0], CleanNode(job, nodes[0], w)) + Clean(job, nodes[1..], l, Next(nodes[0], w))
  }

  function CleanNode(job: Job, n: Node, w: Want): Node
    decreases n, 0
  {
    if !n.Block? then n else n.(body := Clean(job, n.body, LevelOf(n, w), Inner(n, w)))
  }

  // ----- The cleanup is the original one -----

  function ServerPass(job: Job, nodes: seq<Node>): seq<Node> {
    if job.rewrites then StripRewrites(nodes) else nodes
  }

  function HttpFilter(job: Job, body: seq<Node>, w: Want): seq<Node> {
    var b1 := if w.withInclude then WithoutInclude(body, job.path) else body;
    if w.withBucket then WithoutBucketSize(b1) else b1
  }

  function HttpPass(job: Job, nodes: seq<Node>, w: Want): seq<Node> {
    match FindHttp(nodes)
    case Missing => nodes
    case At(body) => SetHttp(nodes, HttpFilter(job, body, w))
  }

  function LevelPass(job: Job, nodes: seq<Node>, l: Level): seq<Node> {
    match l
    case Plain => nodes
    case InServer => if job.rewrites then WithoutRewrites(nodes) else nodes
    case InHttp(w) => HttpFilter(job, nodes, w)
  }

  lemma HttpPassIsStrip(job: Job, nodes: seq<Node>, w: Want)
    ensures StripTree(nodes, job.rewrites, w.withInclude, w.withBucket, job.path) == HttpPass(job, ServerPass(job, nodes), w)
  {
    var t := ServerPass(job, nodes);
    if FindHttp(t).At? {
      var body := FindHttp(t).body;
      HttpLens(t, WithoutInclude(body, job.path), HttpFilter(job, body, w));
      HttpLens(t, body, body);
    }
  }

  lemma NoWantPass(job: Job, nodes: seq<Node>)
    ensures HttpPass(job, nodes, NoWant) == nodes
  {
    if FindHttp(nodes).At? { HttpLens(nodes, [], []); }
  }

  /** What the first pass makes of one node. */
  function ServerNode(job: Job, n: Node): Node {
    if n.Block? then n.(body := LevelPass(job, ServerPass(job, n.body), LevelOf(n, NoWant))) else n
  }

  function HttpNode(job: Job, n: Node, w: Want): Node {
    if !n.Block? then n
    else n.(body := if n.name == "http" then HttpFilter(job, n.body, w) else HttpPass(job, n.body, w))
  }

  lemma ServerPassFirst(job: Job, nodes: seq<Node>)
    requires nodes != []
    ensures ServerPass(job, nodes) == [ServerNode(job, nodes[0])] + ServerPass(job, nodes[1..])
  {
    var n := nodes[0];
    assert nodes == [n] + nodes[1..];
    if job.rewrites { assert StripNode(n) == ServerNode(job, n); } else { assert n == ServerNode(job, n); }
  }

  lemma HttpPassFirst(job: Job, nodes: seq<Node>, w: Want)
    requires nodes != []
    ensures HttpPass(job, nodes, w) == [HttpNode(job, nodes[0], w)] + HttpPass(job, nodes[1..], Next(nodes[0], w))
  {
    hide HttpFilter;
    NoWantPass(job, nodes[1..]);
    assert nodes == [nodes[0]] + nodes[1..];
  }

  lemma LevelPassFirst(job: Job, n: Node, rest: seq<Node>, l: Level)
    ensures LevelPass(job, [n] + rest, l) == Kept(job, l, n, n) + LevelPass(job, rest, l)
  {
    assert ([n] + rest)[1..] == rest && [] + rest == rest;
    match l
    case Plain =>
    case InServer => if job.rewrites { assert [] + WithoutRewrites(rest) == WithoutRewrites(rest); }
    case InHttp(w) =>
      var r := if w.withInclude then WithoutInclude(rest, job.path) else rest;
      assert ([n] + r)[1..] == r && [] + r == r;
      assert [] + WithoutBucketSize(r) == WithoutBucketSize(r);
      hide IsInclude, IsBucketSize, Contains;
  }

  /** The passes over the servers and over the http block can be exchanged. */
  lemma PassesCommute(job: Job, n: Node, w: Want)
    requires n.Block? && n.name != "http"
    ensures var body := ServerPass(job, n.body); var l := LevelOf(n, w);
      HttpPass(job, LevelPass(job, body, l), w) == LevelPass(job, HttpPass(job, body, w), l) &&
      (FindHttp(LevelPass(job, body, l)).At? <==> FindHttp(n.body).At?)
  {
    hide HttpFilter;
    var body := ServerPass(job, n.body);
    StripSetHttp(n.body, []);
    WithoutSetHttp(body, []);
    if FindHttp(body).At? { WithoutSetHttp(body, HttpFilter(job, FindHttp(body).body, w)); }
  }

  lemma {:induction false} CleanIsPasses(job: Job, nodes: seq<Node>, l: Level, w: Want)
    ensures Clean(job, nodes, l, w) == LevelPass(job, HttpPass(job, ServerPass(job, nodes), w), l)
    decreases nodes, 1
  {
    if nodes == [] {
      assert ServerPass(job, []) == [] && HttpPass(job, [], w) == [];
    } else {
      var n, n' := nodes[0], ServerNode(job, nodes[0]);
      ServerPassFirst(job, nodes);
      HttpPassFirst(job, ServerPass(job, nodes), w);
      CleanIsPassesNode(job, n, w);
      CleanIsPasses(job, nodes[1..], l, Next(n, w));
      LevelPassFirst(job, HttpNode(job, n', w), HttpPass(job, ServerPass(job, nodes[1..]), Next(n', w)), l);
      assert ServerPass(job, nodes)[1..] == ServerPass(job, nodes[1..]);
      hide ServerPass, HttpPass, LevelPass, CleanNode, ServerNode, HttpNode;
      DropsSame(job, l, n, CleanNode(job, n, w));
    }
  }

  lemma DropsSame(job: Job, l: Level, n: Node, m: Node)
    requires (n.Block? && m.Block?) || n == m
    ensures Drops(job, l, n) == Drops(job, l, m)
  {
  }

  lemma {:induction false} CleanIsPassesNode(job: Job, n: Node, w: Want)
    ensures CleanNode(job, n, w) == HttpNode(job, ServerNode(job, n), w)
    ensures Next(ServerNode(job, n), w) == Next(n, w)
    ensures (n.Block? && CleanNode(job, n, w).Block?) || CleanNode(job, n, w) == n
    decreases n, 0
  {
    if n.Block? {
      CleanIsPasses(job, n.body, LevelOf(n, w), Inner(n, w));
      if n.name == "http" {
        NoWantPass(job, ServerPass(job, n.body));
        assert HttpFilter(job, ServerPass(job, n.body), NoWant) == ServerPass(job, n.body);
      } else {
        PassesCommute(job, n, w);
        assert LevelOf(n, w) == LevelOf(n, NoWant);
      }
    }
  }

  /** The cleanup in one pass is the original one. */
  lemma CleanIsStrip(job: Job, nodes: seq<Node>, w: Want)
    ensures StripTree(nodes, job.rewrites, w.withInclude, w.withBucket, job.path) == Clean(job, nodes, Plain, w)
  {
    HttpPassIsStrip(job, nodes, w);
    CleanIsPasses(job, nodes, Plain, w);
  }

  // ----- So is the edit -----

  /** The http lines in front of the first http block, in one assignment. */
  function AddLines(job: Job, nodes: seq<Node>, w: Want): seq<Node> {
    match FindHttp(nodes)
    case Missing => nodes
    case At(body) => SetHttp(nodes, HttpLines(job, body, w) + body)
  }

  function HttpLines(job: Job, body: seq<Node>, w: Want): seq<Node> {
    Front(w.withInclude, w.withBucket, ChildIndent(body), ChildIndent(body), job.path)
  }

  function AddNode(job: Job, n: Node, w: Want): Node {
    if !n.Block? then n
    else n.(body := if n.name == "http" then HttpLines(job, n.body, w) + n.body else AddLines(job, n.body, w))
  }

  lemma NothingAdded(job: Job, nodes: seq<Node>)
    ensures AddLines(job, nodes, NoWant) == nodes
  {
    if FindHttp(nodes).At? {
      HttpLens(nodes, [], []);
      assert HttpLines(job, FindHttp(nodes).body, NoWant) == [];
      assert [] + FindHttp(nodes).body == FindHttp(nodes).body;
    }
  }

  lemma AddLinesFirst(job: Job, nodes: seq<Node>, w: Want)
    requires nodes != []
    ensures AddLines(job, nodes, w) == [AddNode(job, nodes[0], w)] + AddLines(job, nodes[1..], Next(nodes[0], w))
  {
    hide HttpLines;
    NothingAdded(job, nodes[1..]);
    assert nodes == [nodes[0]] + nodes[1..];
  }

  lemma {:induction false} InjectKeepsIndent(nodes: seq<Node>, hits: set<seq<nat>>, at: seq<nat>, i: nat)
    ensures ChildIndent(InjectRewrites(nodes, hits, at, i)) == ChildIndent(nodes)
  {
    if nodes != [] {
      var r := InjectRewrites(nodes, hits, at, i);
      InjectKeepsIndent(nodes[1..], hits, at, i + 1);
      assert r[1..] == InjectRewrites(nodes[1..], hits, at, i + 1);
    }
  }

  lemma {:induction false} MarkIsInject(job: Job, nodes: seq<Node>, at: seq<nat>, i: nat, w: Want)
    ensures Mark(job, nodes, at, i, w) == AddLines(job, InjectRewrites(nodes, job.hits, at, i), w)
    decreases nodes, 0
  {
    if nodes != [] {
      var n, r := nodes[0], InjectRewrites(nodes, job.hits, at, i);
      AddLinesFirst(job, r, w);
      assert r[1..] == InjectRewrites(nodes[1..], job.hits, at, i + 1);
      MarkIsInject(job, nodes[1..], at, i + 1, Next(n, w));
      if n.Block? { MarkBlockIsInject(job, n, at + [i], w); }
      hide AddLines, AddNode, MarkNode, InjectRewrites;
    }
  }

  lemma {:induction false} MarkBlockIsInject(job: Job, n: Node, place: seq<nat>, w: Want)
    requires n.Block?
    ensures var body := InjectRewrites(n.body, job.hits, place, 0);
      var n' := n.(body := if place in job.hits && n.name == "server" then PrependRewrite(body) else body);
      MarkNode(job, n, place, w) == AddNode(job, n', w) && Next(n', w) == Next(n, w)
    decreases n.body, 1
  {
    var body := InjectRewrites(n.body, job.hits, place, 0);
    MarkIsInject(job, n.body, place, 0, Inner(n, w));
    InjectKeepsIndent(n.body, job.hits, place, 0);
    InjectKeepsRewrite(n.body, job.hits, place, 0);
    InjectKeepsHttp(n.body, job.hits, place, 0);
    NothingAdded(job, body);
    if place in job.hits && n.name == "server" && !HasRewrite(body) {
      var d := Inserted(ChildIndent(body), "rewrite", RewriteArgs);
      AddLinesFirst(job, [d] + body, w);
      assert ([d] + body)[1..] == body;
      PrependKeepsHttp(body);
    } else {
      assert [] + Mark(job, n.body, place, 0, Inner(n, w)) == Mark(job, n.body, place, 0, Inner(n, w));
    }
  }

  lemma {:induction false} IndentAgain(ws: string)
    ensures '\n' !in LeadingIndent(ws)
    ensures LeadingIndent("\n" + LeadingIndent(ws)) == LeadingIndent(ws)
  {
    if ws != "" && ws[|ws| - 1] != '\n' { IndentAgain(ws[..|ws| - 1]); }
    NoNewlineIndent(LeadingIndent(ws));
  }

  lemma {:induction false} NoNewlineIndent(s: string)
    requires '\n' !in s
    ensures LeadingIndent("\n" + s) == s
  {
    var t := "\n" + s;
    if s != "" {
      NoNewlineIndent(s[..|s| - 1]);
      assert t[..|t| - 1] == "\n" + s[..|s| - 1];
    } else {
      assert t == "\n";
    }
  }

  lemma SecondIndent(body: seq<Node>, path: string)
    ensures ChildIndent([IncludeLine(ChildIndent(body), path)] + body) == ChildIndent(body)
  {
    if body != [] { IndentAgain(body[0].ws); } else { NoNewlineIndent("    "); }
  }

  /** The edit in one pass is the original one; `w` says which http lines it added. */
  lemma MarkIsEdit(job: Job, nodes: seq<Node>, http: bool)
    ensures var e := EditTree(nodes, job.hits, http, job.path);
      e.nodes == Mark(job, nodes, [], 0, Want(e.addedInclude, e.addedBucketSize))
  {
    var e := EditTree(nodes, job.hits, http, job.path);
    var w := Want(e.addedInclude, e.addedBucketSize);
    var injected := InjectRewrites(nodes, job.hits, [], 0);
    MarkIsInject(job, nodes, [], 0, w);
    if http && FindHttp(injected).At? {
      var body := FindHttp(injected).body;
      SecondIndent(body, job.path);
      assert [] + body == body;
      var i1, i2 := EditIsFront(injected, body, job.path);
    } else if !http {
      NothingAdded(job, injected);
    }
  }

  // ----- The cleanup forgets the edit -----

  /** The cleanup looks for rewrites whenever the edit makes some. */
  predicate Matching(job: Job) {
    TrimQuotes(job.path) == job.path && (job.hits != {} ==> job.rewrites)
  }

  lemma {:induction false} MarkFinds(job: Job, nodes: seq<Node>, at: seq<nat>, i: nat, w: Want)
    ensures FindHttp(Mark(job, nodes, at, i, w)).At? <==> FindHttp(nodes).At?
    decreases nodes
  {
    if nodes != [] {
      var n, r := nodes[0], Mark(job, nodes, at, i, w);
      MarkFinds(job, nodes[1..], at, i + 1, Next(n, w));
      assert r[1..] == Mark(job, nodes[1..], at, i + 1, Next(n, w));
      if n.Block? {
        MarkFinds(job, n.body, at + [i], 0, Inner(n, w));
        FrontFinds(FrontOf(job, n, at + [i], w), Mark(job, n.body, at + [i], 0, Inner(n, w)));
      }
    }
  }

  lemma {:induction false} FrontFinds(front: seq<Node>, body: seq<Node>)
    requires forall n <- front :: n.Directive?
    ensures FindHttp(front + body) == FindHttp(body)
  {
    if front == [] {
      assert [] + body == body;
    } else {
      assert front[0] in front && forall n <- front[1..] :: n in front;
      FrontFinds(front[1..], body);
      assert (front + body)[1..] == front[1..] + body;
    }
  }

  lemma MarkNodeNext(job: Job, n: Node, place: seq<nat>, w: Want, u: Want)
    ensures Next(MarkNode(job, n, place, w), u) == Next(n, u)
    ensures LevelOf(MarkNode(job, n, place, w), u) == LevelOf(n, u)
  {
    if n.Block? {
      MarkFinds(job, n.body, place, 0, Inner(n, w));
      FrontFinds(FrontOf(job, n, place, w), Mark(job, n.body, place, 0, Inner(n, w)));
    }
  }

  lemma {:induction false} DroppedFront(job: Job, front: seq<Node>, body: seq<Node>, l: Level, w: Want)
    requires forall n <- front :: n.Directive? && Drops(job, l, n)
    ensures Clean(job, front + body, l, w) == Clean(job, body, l, w)
  {
    if front == [] {
      assert [] + body == body;
    } else {
      assert front[0] in front && forall n <- front[1..] :: n in front;
      DroppedFront(job, front[1..], body, l, w);
      assert (front + body)[1..] == front[1..] + body;
      assert [] + Clean(job, body, l, w) == Clean(job, body, l, w);
    }
  }

  /** The cleanup drops each line that the edit inserts. */
  lemma FrontDropped(job: Job, n: Node, place: seq<nat>, w: Want)
    requires n.Block? && Matching(job)
    ensures forall d <- FrontOf(job, n, place, w) :: d.Directive? && Drops(job, LevelOf(n, w), d)
  {
    var indent := ChildIndent(n.body);
    IncludeFound(indent, job.path);
    BucketFound(indent);
    RewriteIsChallenge(indent);
    hide IsInclude, IsBucketSize, Contains, IsChallengeRewrite, TrimQuotes;
  }

  lemma {:induction false} CleanForgets(job: Job, nodes: seq<Node>, at: seq<nat>, i: nat, l: Level, w: Want)
    requires Matching(job)
    ensures Clean(job, Mark(job, nodes, at, i, w), l, w) == Clean(job, nodes, l, w)
    decreases nodes, 1
  {
    if nodes != [] {
      var n, m := nodes[0], MarkNode(job, nodes[0], at + [i], w);
      CleanForgets(job, nodes[1..], at, i + 1, l, Next(n, w));
      CleanForgetsNode(job, n, at + [i], w);
      assert Mark(job, nodes, at, i, w)[1..] == Mark(job, nodes[1..], at, i + 1, Next(n, w));
      MarkNodeNext(job, n, at + [i], w, w);
      hide MarkNode, CleanNode, Next, LevelOf;
      MarkNodeKind(job, n, at + [i], w);
      DropsSame(job, l, n, m);
    }
  }

  lemma MarkNodeKind(job: Job, n: Node, place: seq<nat>, w: Want)
    ensures var m := MarkNode(job, n, place, w); (n.Block? && m.Block?) || n == m
  {
  }

  lemma {:induction false} CleanForgetsNode(job: Job, n: Node, place: seq<nat>, w: Want)
    requires Matching(job)
    ensures CleanNode(job, MarkNode(job, n, place, w), w) == CleanNode(job, n, w)
    decreases n, 0
  {
    if n.Block? {
      FrontDropped(job, n, place, w);
      var body := Mark(job, n.body, place, 0, Inner(n, w));
      DroppedFront(job, FrontOf(job, n, place, w), body, LevelOf(n, w), Inner(n, w));
      CleanForgets(job, n.body, place, 0, LevelOf(n, w), Inner(n, w));
    }
  }

  lemma {:induction false} CleanNorm(job: Job, nodes: seq<Node>, l: Level, w: Want)
    ensures Clean(job, NormNodes(nodes), l, w) == NormNodes(Clean(job, nodes, l, w))
    decreases nodes, 1
  {
    if nodes != [] {
      var n := nodes[0];
      CleanNorm(job, nodes[1..], l, Next(n, w));
      CleanNormNode(job, n, w);
      assert NormNodes(nodes)[1..] == NormNodes(nodes[1..]);
      NormPrepend(Kept(job, l, n, CleanNode(job, n, w)), Clean(job, nodes[1..], l, Next(n, w)));
      assert Drops(job, l, NormNode(n)) == Drops(job, l, n);
      NormOne(CleanNode(job, n, w));
    }
  }

  lemma NormOne(n: Node)
    ensures NormNodes([n]) == [NormNode(n)] && NormNodes([]) == []
  {
    assert [n][1..] == [];
  }

  lemma NormFirst(n: Node, rest: seq<Node>)
    ensures NormNodes([n] + rest) == [NormNode(n)] + NormNodes(rest)
  {
    assert ([n] + rest)[1..] == rest;
  }

  lemma {:induction false} NormPrepend(a: seq<Node>, b: seq<Node>)
    ensures NormNodes(a + b) == NormNodes(a) + NormNodes(b)
  {
    if a == [] {
      assert a + b == b && [] + NormNodes(b) == NormNodes(b);
    } else {
      NormPrepend(a[1..], b);
      NormFirst(a[0], a[1..]);
      NormFirst(a[0], a[1..] + b);
      hide NormNodes, NormNode;
      assert a == [a[0]] + a[1..] && a + b == [a[0]] + (a[1..] + b);
      Assoc([NormNode(a[0])], NormNodes(a[1..]), NormNodes(b));
    }
  }

  lemma {:induction false} CleanNormNode(job: Job, n: Node, w: Want)
    ensures CleanNode(job, NormNode(n), w) == NormNode(CleanNode(job, n, w))
    ensures Next(NormNode(n), w) == Next(n, w)
    decreases n, 0
  {
    if n.Block? {
      CleanNorm(job, n.body, LevelOf(n, w), Inner(n, w));
      NormHttp(n.body, []);
    }
  }

  // ----- The edited tree is well formed -----

  /** A line as the edit inserts it. */
  predicate GoodLine(d: Node) {
    d.Directive? && d == Directive(d.ws, d.name, d.args, [], true, " " + Managed, []) &&
    StartsLine(d.ws) && AllSpace(d.ws) && GoodWord(d.name) && GoodWords(d.args)
  }

  predicate GoodLines(front: seq<Node>) {
    forall d <- front :: GoodLine(d)
  }

  lemma FrontIsGood(job: Job, n: Node, place: seq<nat>, w: Want)
    requires n.Block? && WordPath(job.path) && AllSpace("\n" + ChildIndent(n.body))
    ensures GoodLines(FrontOf(job, n, place, w))
  {
    hide GoodWord, GoodWords, TrimQuotes, ChildIndent, AllSpace, RewriteArgs, GoodLine;
    var indent := ChildIndent(n.body);
    RewriteWords();
    InsertedGood(indent, "rewrite", RewriteArgs);
    HttpLinesGood(indent, job.path);
  }

  lemma InsertedGood(indent: string, name: string, args: seq<string>)
    requires AllSpace("\n" + indent) && GoodWord(name) && GoodWords(args)
    ensures GoodLine(Inserted(indent, name, args))
  {
    hide GoodWord, GoodWords, AllSpace;
    assert ("\n" + indent)[0] == '\n';
  }

  lemma HttpLinesGood(indent: string, path: string)
    requires AllSpace("\n" + indent) && WordPath(path)
    ensures GoodLine(IncludeLine(indent, path)) && GoodLine(BucketLine(indent))
  {
    PlainIsWord("include");
    BucketWords();
    hide GoodWord, TrimQuotes, GoodLine, AllSpace;
    InsertedGood(indent, "include", [path]);
    InsertedGood(indent, "server_names_hash_bucket_size", ["128"]);
  }

  lemma GoodLinesRest(front: seq<Node>)
    requires GoodLines(front) && front != []
    ensures GoodLine(front[0]) && GoodLines(front[1..])
  {
    hide GoodLine;
    assert front[0] in front && forall n <- front[1..] :: n in front;
  }

  lemma LineFits(d: Node, nodes: seq<Node>, k: Tokens)
    requires GoodLine(d) && Fits(nodes, k) && k.Cons? && StartsLine(FlatNodes(nodes, k).head.ws)
    ensures Fits([d] + nodes, k) && StartsLine(FlatNodes([d] + nodes, k).head.ws)
  {
    assert d == Inserted(d.ws[1..], d.name, d.args) && "\n" + d.ws[1..] == d.ws;
    hide Fits, FlatNodes, GoodWord, GoodWords;
    InsertedFits(d.ws[1..], d.name, d.args, nodes, k);
  }

  lemma {:induction false} FrontFits(front: seq<Node>, body: seq<Node>, k: Tokens)
    requires GoodLines(front) && Fits(body, k) && k.Cons? && StartsLine(FlatNodes(body, k).head.ws)
    ensures Fits(front + body, k) && StartsLine(FlatNodes(front + body, k).head.ws)
  {
    if front == [] {
      assert front + body == body;
    } else {
      GoodLinesRest(front);
      hide Fits, FlatNodes, GoodWord, GoodWords;
      FrontFits(front[1..], body, k);
      LineFits(front[0], front[1..] + body, k);
      assert front + body == [front[0]] + (front[1..] + body);
    }
  }

  /** The edited nodes fit where the nodes did, and start with the same token. */
  lemma {:induction false} MarkFits(job: Job, nodes: seq<Node>, at: seq<nat>, i: nat, w: Want, k: Tokens)
    requires WordPath(job.path) && AllStart(job, nodes, at, i, w)
    requires Fits(nodes, k) && k.Cons? && Lexable(k)
    ensures var r := Mark(job, nodes, at, i, w);
      Fits(r, k) && FlatNodes(r, k).Cons? && FlatNodes(r, k).head == FlatNodes(nodes, k).head
    decreases nodes, 1
  {
    if nodes != [] {
      var n, rest := nodes[0], Mark(job, nodes[1..], at, i + 1, Next(nodes[0], w));
      var k1 := FlatNodes(rest, k);
      FitsSplit(nodes, k);
      MarkFits(job, nodes[1..], at, i + 1, Next(n, w), k);
      FitsBefore([n], FlatNodes(nodes[1..], k), k1);
      FitsOne(n, nodes[1..], k);
      FitsOne(n, [], FlatNodes(nodes[1..], k));
      assert nodes == [n] + nodes[1..];
      var first := MarkNode(job, n, at + [i], w);
      MarkNodeFits(job, n, at + [i], w, k1);
      FitsOne(first, rest, k);
      FitsOne(first, [], k1);
      FitsOne(n, [], k1);
    }
  }

  lemma {:induction false} MarkNodeFits(job: Job, n: Node, place: seq<nat>, w: Want, k: Tokens)
    requires WordPath(job.path) && NodeStarts(job, n, place, w)
    requires Fits([n], k) && k.Cons? && Lexable(k)
    ensures var m := MarkNode(job, n, place, w);
      Fits([m], k) && FlatNodes([m], k).Cons? && FlatNodes([m], k).head == FlatNodes([n], k).head
    decreases n, 0
  {
    if n.Block? {
      var k1 := Cons(Token(CloseBrace, "}", n.beforeClose), k);
      BodyFits(n, k);
      LexableSuffix(n.body, k1);
      MarkFits(job, n.body, place, 0, Inner(n, w), k1);
      var front, body := FrontOf(job, n, place, w), Mark(job, n.body, place, 0, Inner(n, w));
      IndentGood(n.body, k1);
      FrontIsGood(job, n, place, w);
      FirstWs(n.body, k1);
      if front == [] { assert front + body == body; } else { FrontFits(front, body, k1); }
      FitsBody(n, front + body, k);
    }
  }
}
