/** The challenge edit of `internal/plugins/apache/configurator.go` and its undo through the printed
    file.
 */
module ApacheChallenge {
  import opened Common
  import opened Text
  import opened ApacheParser

  // ----- The edit -----

  /** `strings.Contains`. */
  predicate Contains(s: string, p: string) {
    HasPrefix(s, p) || (s != "" && Contains(s[1..], p))
  }

  const MARK := "go-certbot acme-challenge"
  const MARKER_TEXT := "# " + (MARK + " (auto-cleaned)")

  predicate IsMarker(n: Node) {
    n.CommentLine? && Contains(n.verbatim, MARK)
  }

  /** `childIndent`: the indent of the first directive or section, or four blanks. */
  function ChildIndent(body: seq<Node>): string {
    if body == [] then "    " else if body[0].CommentLine? then ChildIndent(body[1..]) else body[0].indent
  }

  function Alias(indent: string, target: string): Node {
    Directive(indent, "Alias", ["/.well-known/acme-challenge/", target], "", "\n")
  }

  function Quoted(webroot: string): string {
    "\"" + (webroot + "/.well-known/acme-challenge/") + "\""
  }

  function Require(indent: string): Node {
    Directive(indent + "    ", "Require", ["all", "granted"], "", "\n")
  }

  function DirectoryBlock(indent: string, webroot: string): Node {
    Section(indent, "Directory", [Quoted(webroot)], "", "\n", [Require(indent)], indent, "", "\n")
  }

  /** The three nodes that `injectChallengeAliases` appends to a virtual host. */
  function Snippet(indent: string, webroot: string, target: string): seq<Node> {
    [CommentLine(indent + MARKER_TEXT, "\n"), Alias(indent, target), DirectoryBlock(indent, webroot)]
  }

  type Path = seq<nat>

  /** What is appended to a section whose children have this indent. */
  type Tail = string -> seq<Node>

  function Snippets(webroot: string, target: string): Tail {
    indent => Snippet(indent, webroot, target)
  }

  /** The edit of the sections at these positions (the virtual hosts that were chosen). */
  function InjectNode(n: Node, at: set<Path>, here: Path, tail: Tail): Node
    decreases n, 1
  {
    if !n.Section? then n
    else
      var body := InjectNodes(n.body, at, here, 0, tail);
      WithBody(n, if here in at then body + tail(ChildIndent(n.body)) else body)
  }

  function InjectNodes(nodes: seq<Node>, at: set<Path>, parent: Path, k: nat, tail: Tail): (r: seq<Node>)
    ensures |r| == |nodes|
    decreases nodes, 0
  {
    if nodes == [] then []
    else [InjectNode(nodes[0], at, parent + [k], tail)] + InjectNodes(nodes[1..], at, parent, k + 1, tail)
  }

  function NodeAt(nodes: seq<Node>, p: Path): Option<Node>
    decreases |p|
  {
    if p == [] || p[0] >= |nodes| then None
    else if |p| == 1 then Some(nodes[p[0]])
    else if nodes[p[0]].Section? then NodeAt(nodes[p[0]].body, p[1..]) else None
  }

  /** What the edit makes of a node at its place: a chosen section gets the new nodes at its end, with
      the indent of its children, and nothing else changes. */
  predicate EditedAt(n: Node, m: Node, chosen: bool, tail: Tail) {
    if !n.Section? then m == n
    else
      m.Section? && m == WithBody(n, m.body) && |m.body| >= |n.body| &&
      m.body[|n.body|..] == if chosen then tail(ChildIndent(n.body)) else []
  }

  lemma {:induction false} InjectedAt(nodes: seq<Node>, at: set<Path>, parent: Path, k: nat, tail: Tail, p: Path)
    requires NodeAt(nodes, p).Some?
    ensures var m := NodeAt(InjectNodes(nodes, at, parent, k, tail), p);
      m.Some? && EditedAt(NodeAt(nodes, p).value, m.value, parent + [k + p[0]] + p[1..] in at, tail)
    decreases nodes
  {
    hide *;
    SomeNode(nodes, p);
    var here := parent + [k];
    var r := InjectNodes(nodes, at, parent, k, tail);
    InjectFirst(nodes, at, parent, k, tail);
    if p[0] > 0 {
      AtNext(nodes, p);
      AtNext(r, p);
      InjectedAt(nodes[1..], at, parent, k + 1, tail, [p[0] - 1] + p[1..]);
      LaterPlace(parent, k, p);
    } else if |p| == 1 {
      AtFirst(nodes, p);
      AtFirst(r, p);
      InjectedNode(nodes[0], at, here, tail);
      assert parent + [k + p[0]] + p[1..] == here;
    } else {
      var n := nodes[0];
      AtInside(nodes, p);
      InjectedAt(n.body, at, here, 0, tail, p[1..]);
      assert here + [0 + p[1..][0]] + p[1..][1..] == parent + [k + p[0]] + p[1..];
      InjectedInside(n, at, here, tail, p[1..]);
      InsideFirst(r, p);
    }
  }

  lemma SomeNode(nodes: seq<Node>, p: Path)
    requires NodeAt(nodes, p).Some?
    ensures p != [] && p[0] < |nodes|
  {
  }

  lemma InjectFirst(nodes: seq<Node>, at: set<Path>, parent: Path, k: nat, tail: Tail)
    requires nodes != []
    ensures var r := InjectNodes(nodes, at, parent, k, tail);
      r != [] && r[0] == InjectNode(nodes[0], at, parent + [k], tail) && r[1..] == InjectNodes(nodes[1..], at, parent, k + 1, tail)
  {
  }

  lemma LaterPlace(parent: Path, k: nat, p: Path)
    requires p != [] && p[0] > 0
    ensures var q := [p[0] - 1] + p[1..]; parent + [k + 1 + q[0]] + q[1..] == parent + [k + p[0]] + p[1..]
  {
    var q := [p[0] - 1] + p[1..];
    assert q[1..] == p[1..];
  }

  lemma AtFirst(nodes: seq<Node>, p: Path)
    requires nodes != [] && |p| == 1 && p[0] == 0
    ensures NodeAt(nodes, p) == Some(nodes[0])
  {
  }

  /** One node. */
  lemma InjectedNode(n: Node, at: set<Path>, here: Path, tail: Tail)
    ensures EditedAt(n, InjectNode(n, at, here, tail), here in at, tail)
  {
    if n.Section? {
      var inner := InjectNodes(n.body, at, here, 0, tail);
      assert inner + [] == inner && inner[|n.body|..] == [];
      hide InjectNodes, ChildIndent;
    }
  }

  /** What is inside of a section stays at its place. */
  lemma InjectedInside(n: Node, at: set<Path>, here: Path, tail: Tail, p: Path)
    requires n.Section? && NodeAt(InjectNodes(n.body, at, here, 0, tail), p).Some?
    ensures var m := InjectNode(n, at, here, tail);
      m.Section? && NodeAt(m.body, p) == NodeAt(InjectNodes(n.body, at, here, 0, tail), p)
  {
    var inner := InjectNodes(n.body, at, here, 0, tail);
    var more := if here in at then tail(ChildIndent(n.body)) else [];
    FrontAt(inner, more, p);
    assert inner + [] == inner;
    hide InjectNodes, ChildIndent, NodeAt;
  }

  lemma InsideFirst(nodes: seq<Node>, p: Path)
    requires nodes != [] && nodes[0].Section? && |p| > 1 && p[0] == 0
    ensures NodeAt(nodes, p) == NodeAt(nodes[0].body, p[1..])
  {
  }

  lemma AtNext(nodes: seq<Node>, p: Path)
    requires p != [] && p[0] > 0 && nodes != []
    ensures NodeAt(nodes, p) == NodeAt(nodes[1..], [p[0] - 1] + p[1..])
  {
    assert ([p[0] - 1] + p[1..])[1..] == p[1..];
  }

  lemma AtInside(nodes: seq<Node>, p: Path)
    requires |p| > 1 && p[0] == 0 && NodeAt(nodes, p).Some?
    ensures nodes != [] && nodes[0].Section? && NodeAt(nodes, p) == NodeAt(nodes[0].body, p[1..])
  {
  }

  /** The whole edit, place by place. */
  lemma EditExactly(nodes: seq<Node>, at: set<Path>, tail: Tail, p: Path)
    requires NodeAt(nodes, p).Some?
    ensures var m := NodeAt(InjectNodes(nodes, at, [], 0, tail), p);
      m.Some? && EditedAt(NodeAt(nodes, p).value, m.value, p in at, tail)
  {
    InjectedAt(nodes, at, [], 0, tail, p);
    assert [] + [0 + p[0]] + p[1..] == p;
    hide InjectNodes, NodeAt, EditedAt;
  }

  lemma FrontAt(nodes: seq<Node>, more: seq<Node>, p: Path)
    requires NodeAt(nodes, p).Some?
    ensures NodeAt(nodes + more, p) == NodeAt(nodes, p)
  {
  }

  /** The indent of the first node that is no comment, and four blanks without one. */
  lemma {:induction false} ChildIndentExactly(comments: seq<Node>, n: Node, rest: seq<Node>)
    requires forall i :: 0 <= i < |comments| ==> comments[i].CommentLine?
    ensures ChildIndent(comments) == "    " && (!n.CommentLine? ==> ChildIndent(comments + [n] + rest) == n.indent)
  {
    if comments != [] {
      ChildIndentExactly(comments[1..], n, rest);
      assert (comments + [n] + rest)[1..] == comments[1..] + [n] + rest;
    }
  }

  /** The filter of `stripChallengeMarkers`: a marker goes with the two nodes behind it. */
  function Filter(body: seq<Node>, skipping: nat): (r: seq<Node>)
    ensures |r| <= |body|
    ensures forall n <- r :: n in body
  {
    if body == [] then []
    else if skipping > 0 then Filter(body[1..], skipping - 1)
    else if IsMarker(body[0]) then Filter(body[1..], 2)
    else [body[0]] + Filter(body[1..], 0)
  }

  /** The loop of `stripChallengeMarkers` over one body. */
  method FilterBody(body: seq<Node>) returns (filtered: seq<Node>)
    ensures filtered == Filter(body, 0)
  {
    filtered := [];
    var skipping: nat := 0;
    for i := 0 to |body|
      invariant filtered + Filter(body[i..], skipping) == Filter(body, 0)
    {
      var child := body[i];
      assert body[i..][0] == child && body[i..][1..] == body[i + 1..];
      if skipping > 0 { skipping := skipping - 1; continue; }
      if IsMarker(child) { skipping := 2; continue; }
      Assoc(filtered, [child], Filter(body[i + 1..], 0));
      filtered := filtered + [child];
    }
    assert body[|body|..] == [] && filtered + [] == filtered;
  }

  function Size(n: Node): (k: nat)
    ensures k > 0
    decreases n, 1
  {
    if n.Section? then 1 + SizeAll(n.body) else 1
  }

  function SizeAll(nodes: seq<Node>): nat
    decreases nodes, 0
  {
    if nodes == [] then 0 else Size(nodes[0]) + SizeAll(nodes[1..])
  }

  lemma {:induction false} FilterShrinks(body: seq<Node>, skipping: nat)
    ensures SizeAll(Filter(body, skipping)) <= SizeAll(body)
    decreases |body|
  {
    if body != [] {
      if skipping > 0 { FilterShrinks(body[1..], skipping - 1); }
      else if IsMarker(body[0]) { FilterShrinks(body[1..], 2); }
      else {
        FilterShrinks(body[1..], 0);
        assert ([body[0]] + Filter(body[1..], 0))[1..] == Filter(body[1..], 0);
      }
    }
  }

  function WithBody(n: Node, body: seq<Node>): Node
    requires n.Section?
  {
    Section(n.indent, n.name, n.args, n.trailing, n.newline, body, n.closeIndent, n.closeTrailing, n.closeNewline)
  }

  /** `stripChallengeMarkers`. */
  function StripNodes(nodes: seq<Node>): (r: seq<Node>)
    ensures |r| == |nodes|
    decreases SizeAll(nodes), 1
  {
    if nodes == [] then [] else [StripNode(nodes[0])] + StripNodes(nodes[1..])
  }

  function StripNode(n: Node): Node
    decreases Size(n), 0
  {
    if !n.Section? then n
    else
      FilterShrinks(n.body, 0);
      WithBody(n, StripNodes(Filter(n.body, 0)))
  }

  /** The loop of `stripChallengeMarkers` over the nodes, and its recursion. */
  method StripMarkers(nodes: seq<Node>) returns (stripped: seq<Node>)
    ensures stripped == StripNodes(nodes)
    decreases SizeAll(nodes)
  {
    stripped := [];
    for i := 0 to |nodes|
      invariant stripped + StripNodes(nodes[i..]) == StripNodes(nodes)
    {
      var n := nodes[i];
      assert nodes[i..][0] == n && nodes[i..][1..] == nodes[i + 1..];
      Assoc(stripped, [StripNode(n)], StripNodes(nodes[i + 1..]));
      if n.Section? {
        SizeOfMember(nodes, i);
        FilterShrinks(n.body, 0);
        var filtered := FilterBody(n.body);
        var inner := StripMarkers(filtered);
        stripped := stripped + [WithBody(n, inner)];
      } else {
        stripped := stripped + [n];
      }
    }
    assert nodes[|nodes|..] == [] && stripped + [] == stripped;
  }

  lemma {:induction false} SizeOfMember(nodes: seq<Node>, i: nat)
    requires i < |nodes|
    ensures Size(nodes[i]) <= SizeAll(nodes)
  {
    if i > 0 { SizeOfMember(nodes[1..], i - 1); }
  }

  // ----- Stripping undoes the edit -----

  /** No section, at any depth, has a marker in its body. */
  predicate Unmarked(nodes: seq<Node>)
    decreases nodes
  {
    nodes == [] || ((nodes[0].Section? ==> NoMarker(nodes[0].body) && Unmarked(nodes[0].body)) && Unmarked(nodes[1..]))
  }

  predicate NoMarker(body: seq<Node>) {
    forall i :: 0 <= i < |body| ==> !IsMarker(body[i])
  }

  lemma {:induction false} ContainsLater(a: string, b: string, p: string)
    requires Contains(b, p)
    ensures Contains(a + b, p)
  {
    if a == "" { assert a + b == b; }
    else {
      ContainsLater(a[1..], b, p);
      assert (a + b)[1..] == a[1..] + b;
    }
  }

  lemma MarkerIsMarker(indent: string)
    ensures IsMarker(CommentLine(indent + MARKER_TEXT, "\n"))
  {
    MarkInText();
    hide Contains, MARK, MARKER_TEXT;
    ContainsLater(indent, MARKER_TEXT, MARK);
  }

  lemma MarkInText()
    ensures Contains(MARKER_TEXT, MARK)
  {
    var tail := " (auto-cleaned)";
    assert MARKER_TEXT == "# " + (MARK + tail);
    hide Contains, MARK, MARKER_TEXT;
    MarkFirst(tail);
    ContainsLater("# ", MARK + tail, MARK);
  }

  lemma MarkFirst(tail: string)
    ensures Contains(MARK + tail, MARK)
  {
    assert (MARK + tail)[..|MARK|] == MARK;
  }

  lemma {:induction false} FilterNoMarker(body: seq<Node>, more: seq<Node>)
    requires NoMarker(body)
    ensures Filter(body + more, 0) == body + Filter(more, 0)
    decreases |body|
  {
    hide IsMarker;
    if body == [] {
      assert [] + more == more && [] + Filter(more, 0) == Filter(more, 0);
    } else {
      var all := body + more;
      assert all[0] == body[0] && all[1..] == body[1..] + more;
      assert !IsMarker(body[0]);
      FilterNoMarker(body[1..], more);
      Assoc([body[0]], body[1..], Filter(more, 0));
      assert body == [body[0]] + body[1..];
    }
  }

  /** A marker and the two nodes that go with it. */
  ghost predicate Marked(tail: Tail) {
    forall indent: string :: |tail(indent)| == 3 && IsMarker(tail(indent)[0])
  }

  lemma FilterSnippet(s: seq<Node>)
    requires |s| == 3 && IsMarker(s[0])
    ensures Filter(s, 0) == []
  {
    hide IsMarker;
    assert s[1..] == [s[1], s[2]] && [s[1], s[2]][1..] == [s[2]] && [s[2]][1..] == [];
    assert Filter([s[2]], 1) == Filter([], 0) == [];
    assert Filter([s[1], s[2]], 2) == Filter([s[2]], 1);
  }

  lemma {:induction false} InjectNoMarker(nodes: seq<Node>, at: set<Path>, parent: Path, k: nat, tail: Tail)
    requires NoMarker(nodes)
    ensures NoMarker(InjectNodes(nodes, at, parent, k, tail))
    decreases |nodes|
  {
    if nodes != [] {
      assert !IsMarker(nodes[0]);
      hide Contains;
      InjectNoMarker(nodes[1..], at, parent, k + 1, tail);
    }
  }

  /** Stripping a configuration without markers, after any choice of sections was edited, gives it
      back. */
  lemma {:induction false} StripUndoes(nodes: seq<Node>, at: set<Path>, parent: Path, k: nat, tail: Tail)
    requires Unmarked(nodes) && Marked(tail)
    ensures StripNodes(InjectNodes(nodes, at, parent, k, tail)) == nodes
    decreases nodes, 0
  {
    if nodes != [] {
      var n := InjectNode(nodes[0], at, parent + [k], tail);
      var rest := InjectNodes(nodes[1..], at, parent, k + 1, tail);
      StripUndoes(nodes[1..], at, parent, k + 1, tail);
      StripNodeUndoes(nodes[0], at, parent + [k], tail);
      hide InjectNode, Unmarked, Marked;
      assert ([n] + rest)[1..] == rest && ([n] + rest)[0] == n;
      assert nodes == [nodes[0]] + nodes[1..];
    }
  }

  lemma {:induction false} StripNodeUndoes(n: Node, at: set<Path>, here: Path, tail: Tail)
    requires (n.Section? ==> NoMarker(n.body) && Unmarked(n.body)) && Marked(tail)
    ensures StripNode(InjectNode(n, at, here, tail)) == n
    decreases n, 1
  {
    if n.Section? {
      var body := InjectNodes(n.body, at, here, 0, tail);
      var snippet := tail(ChildIndent(n.body));
      InjectNoMarker(n.body, at, here, 0, tail);
      FilterNoMarker(body, snippet);
      FilterNoMarker(body, []);
      FilterSnippet(snippet);
      StripUndoes(n.body, at, here, 0, tail);
      hide Filter, InjectNodes, StripNodes, Unmarked, NoMarker, Marked;
      assert body + [] == body;
      FilterNone(0);
      StripNodeIs(InjectNode(n, at, here, tail), body);
    }
  }

  lemma {:induction false} FilterUnmarks(body: seq<Node>, skipping: nat)
    ensures NoMarker(Filter(body, skipping))
    decreases |body|
  {
    hide IsMarker;
    if body != [] {
      if skipping > 0 { FilterUnmarks(body[1..], skipping - 1); }
      else if IsMarker(body[0]) { FilterUnmarks(body[1..], 2); }
      else { FilterUnmarks(body[1..], 0); }
    }
  }

  lemma {:induction false} StripKeepsMarks(nodes: seq<Node>)
    ensures NoMarker(nodes) ==> NoMarker(StripNodes(nodes))
    decreases |nodes|
  {
    hide Contains;
    if nodes != [] && NoMarker(nodes) {
      assert !IsMarker(nodes[0]) && NoMarker(nodes[1..]);
      StripKeepsMarks(nodes[1..]);
      assert StripNodes(nodes)[1..] == StripNodes(nodes[1..]);
    }
  }

  /** What was stripped has no markers. */
  lemma {:induction false} StripUnmarks(nodes: seq<Node>)
    ensures Unmarked(StripNodes(nodes))
    decreases SizeAll(nodes), 1
  {
    hide NoMarker;
    if nodes != [] {
      StripUnmarks(nodes[1..]);
      StripNodeUnmarks(nodes[0]);
      assert StripNodes(nodes)[1..] == StripNodes(nodes[1..]);
    }
  }

  lemma {:induction false} StripNodeUnmarks(n: Node)
    ensures var m := StripNode(n); m.Section? ==> NoMarker(m.body) && Unmarked(m.body)
    decreases Size(n), 0
  {
    if n.Section? {
      FilterShrinks(n.body, 0);
      FilterUnmarks(n.body, 0);
      StripUnmarks(Filter(n.body, 0));
      StripKeepsMarks(Filter(n.body, 0));
    }
  }

  /** Stripping gives an edited configuration back exactly when it had no markers of its own,
      whatever sections were edited. */
  lemma StripUndoesExactly(nodes: seq<Node>, at: set<Path>, tail: Tail)
    requires Marked(tail)
    ensures StripNodes(InjectNodes(nodes, at, [], 0, tail)) == nodes <==> Unmarked(nodes)
  {
    hide *;
    if Unmarked(nodes) { StripUndoes(nodes, at, [], 0, tail); }
    StripUnmarks(InjectNodes(nodes, at, [], 0, tail));
  }

  lemma FilterNone(skipping: nat)
    ensures Filter([], skipping) == []
  {
  }

  lemma StripNodeIs(n: Node, filtered: seq<Node>)
    requires n.Section? && Filter(n.body, 0) == filtered
    ensures StripNode(n) == WithBody(n, StripNodes(filtered))
  {
  }
}
