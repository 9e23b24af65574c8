/** Which server blocks of the loaded files are edited: the walks over the trees in
    `internal/plugins/nginx/configurator.go` that collect them for a challenge
    (`findMatchingServers`) and for a certificate (`selectBestServerPerDomain`). */
module NginxHits {
  import opened Common
  import opened NginxAst
  import opened NginxChallenge
  import opened NginxListen
  import opened NginxServers
  import opened Text

  /** A node in a tree, by the child to take at each level. */
  type Place = seq<nat>

  function NodeAt(nodes: seq<Node>, p: Place): Option<Node>
    decreases |p|
  {
    if p == [] || p[0] >= |nodes| then None
    else if |p| == 1 then Some(nodes[p[0]])
    else if nodes[p[0]].Block? then NodeAt(nodes[p[0]].body, p[1..]) else None
  }

  /** A server block that passes the test stands at `p`. */
  predicate ServerAt(nodes: seq<Node>, p: Place, ok: Node -> bool) {
    var n := NodeAt(nodes, p);
    n.Some? && n.value.Block? && n.value.name == "server" && ok(n.value)
  }

  /** The document order. */
  predicate Before(p: Place, q: Place)
    decreases |p|
  {
    q != [] && (p == [] || p[0] < q[0] || (p[0] == q[0] && Before(p[1..], q[1..])))
  }

  // ----- The walk -----

  function Under(i: nat, places: seq<Place>): (r: seq<Place>)
    ensures |r| == |places| && forall j :: 0 <= j < |r| ==> r[j] == [i] + places[j]
  {
    seq(|places|, j requires 0 <= j < |places| => [i] + places[j])
  }

  /** What one node contributes: itself, and then the server blocks inside it. */
  function ServersOf(n: Node, i: nat, ok: Node -> bool): seq<Place>
    decreases n, 0
  {
    if !n.Block? then []
    else (if n.name == "server" && ok(n) then [[i]] else []) + Under(i, Servers(n.body, 0, ok))
  }

  /** The places of the server blocks that pass the test; `nodes` are the children from number `i` on. */
  function Servers(nodes: seq<Node>, i: nat, ok: Node -> bool): seq<Place>
    decreases nodes, 1
  {
    if nodes == [] then [] else ServersOf(nodes[0], i, ok) + Servers(nodes[1..], i + 1, ok)
  }

  method Visit(nodes: seq<Node>, ok: Node -> bool) returns (out: seq<Place>)
    ensures out == Servers(nodes, 0, ok)
    decreases nodes
  {
    out := [];
    hide ServersOf;
    for i := 0 to |nodes|
      invariant out + Servers(nodes[i..], i, ok) == Servers(nodes, 0, ok)
    {
      assert nodes[i..][0] == nodes[i] && nodes[i..][1..] == nodes[i + 1..];
      Assoc(out, ServersOf(nodes[i], i, ok), Servers(nodes[i + 1..], i + 1, ok));
      var more := VisitNode(nodes[i], i, ok);
      out := out + more;
    }
    assert Servers(nodes[|nodes|..], |nodes|, ok) == [];
  }

  method VisitNode(n: Node, i: nat, ok: Node -> bool) returns (out: seq<Place>)
    ensures out == ServersOf(n, i, ok)
    decreases n
  {
    out := [];
    if !n.Block? { return; }
    if n.name == "server" && ok(n) { out := [[i]]; }
    var inside := Visit(n.body, ok);
    out := out + Under(i, inside);
  }

  lemma {:induction false} ServersExactly(nodes: seq<Node>, i: nat, ok: Node -> bool, p: Place)
    ensures p in Servers(nodes, i, ok) <==> p != [] && p[0] >= i && ServerAt(nodes, [p[0] - i] + p[1..], ok)
    decreases nodes, 1
  {
    hide ServersOf, ServerAt;
    if nodes == [] {
      if p != [] && p[0] >= i { NothingAt([p[0] - i] + p[1..], ok); }
    } else {
      ServersExactly(nodes[1..], i + 1, ok, p);
      ServersOfExactly(nodes[0], i, ok, p);
      if p != [] && p[0] >= i { AtFirst(nodes, p[0] - i, p[1..], ok); }
    }
  }

  lemma NothingAt(p: Place, ok: Node -> bool)
    ensures !ServerAt([], p, ok)
  {
  }

  lemma AtFirst(nodes: seq<Node>, k: nat, rest: Place, ok: Node -> bool)
    requires nodes != []
    ensures ServerAt(nodes, [k] + rest, ok) <==>
      if k == 0 then ServerAt([nodes[0]], [0] + rest, ok) else ServerAt(nodes[1..], [k - 1] + rest, ok)
  {
    assert ([k] + rest)[1..] == rest && ([0] + rest)[1..] == rest;
    if k > 0 { assert ([k - 1] + rest)[1..] == rest; }
  }

  lemma {:induction false} ServersOfExactly(n: Node, i: nat, ok: Node -> bool, p: Place)
    ensures p in ServersOf(n, i, ok) <==> p != [] && p[0] == i && ServerAt([n], [0] + p[1..], ok)
    decreases n, 0
  {
    if p != [] {
      var q := [0] + p[1..];
      assert q[1..] == p[1..];
      if n.Block? {
        var inside := Servers(n.body, 0, ok);
        UnderExactly(i, inside, p);
        ServersExactly(n.body, 0, ok, p[1..]);
        if p[1..] != [] { assert [p[1..][0] - 0] + p[1..][1..] == p[1..]; }
        if |p| == 1 { assert p == [p[0]]; }
      }
    } else if n.Block? {
      UnderExactly(i, Servers(n.body, 0, ok), p);
    }
  }

  lemma UnderExactly(i: nat, places: seq<Place>, p: Place)
    ensures p in Under(i, places) <==> p != [] && p[0] == i && p[1..] in places
  {
    if p in Under(i, places) {
      var j :| 0 <= j < |places| && Under(i, places)[j] == p;
      assert p[1..] == places[j];
    }
    if p != [] && p[0] == i && p[1..] in places {
      var j :| 0 <= j < |places| && places[j] == p[1..];
      assert Under(i, places)[j] == [i] + p[1..] == p;
    }
  }

  predicate Ascending(places: seq<Place>) {
    forall j, k :: 0 <= j < k < |places| ==> Before(places[j], places[k])
  }

  lemma AscendingAppend(a: seq<Place>, b: seq<Place>)
    requires Ascending(a) && Ascending(b) && forall p <- a, q <- b :: Before(p, q)
    ensures Ascending(a + b)
  {
    hide Before;
    forall j, k | 0 <= j < k < |a + b| ensures Before((a + b)[j], (a + b)[k]) {
      if j < |a| <= k { assert a[j] in a && b[k - |a|] in b; }
    }
  }

  /** The walk goes in document order, so it meets no block twice. */
  lemma {:induction false} ServersAscend(nodes: seq<Node>, i: nat, ok: Node -> bool)
    ensures Ascending(Servers(nodes, i, ok))
    decreases nodes, 1
  {
    if nodes != [] {
      var a, b := ServersOf(nodes[0], i, ok), Servers(nodes[1..], i + 1, ok);
      ServersOfAscend(nodes[0], i, ok);
      ServersAscend(nodes[1..], i + 1, ok);
      hide ServersOf, Servers, ServerAt, Ascending;
      forall p <- a, q <- b ensures Before(p, q) {
        ServersOfExactly(nodes[0], i, ok, p);
        ServersExactly(nodes[1..], i + 1, ok, q);
      }
      AscendingAppend(a, b);
    }
  }

  lemma {:induction false} ServersOfAscend(n: Node, i: nat, ok: Node -> bool)
    ensures Ascending(ServersOf(n, i, ok))
    decreases n, 0
  {
    if n.Block? {
      var inside := Servers(n.body, 0, ok);
      ServersAscend(n.body, 0, ok);
      UnderAscends(i, inside);
      var own := if n.name == "server" && ok(n) then [[i]] else [];
      forall p <- own, q <- Under(i, inside) ensures Before(p, q) {
        UnderExactly(i, inside, q);
        ServersExactly(n.body, 0, ok, q[1..]);
        assert p[1..] == [];
      }
      AscendingAppend(own, Under(i, inside));
    }
  }

  lemma UnderAscends(i: nat, places: seq<Place>)
    requires Ascending(places)
    ensures Ascending(Under(i, places))
  {
    forall j, k | 0 <= j < k < |places| ensures Before(Under(i, places)[j], Under(i, places)[k]) {
      assert ([i] + places[j])[1..] == places[j] && ([i] + places[k])[1..] == places[k];
    }
  }

  /** A walk collects exactly the server blocks that pass the test, at any depth, each once and in
      document order. */
  lemma WalkExactly(nodes: seq<Node>, ok: Node -> bool, p: Place)
    ensures p in Servers(nodes, 0, ok) <==> ServerAt(nodes, p, ok)
    ensures Ascending(Servers(nodes, 0, ok))
  {
    ServersExactly(nodes, 0, ok, p);
    ServersAscend(nodes, 0, ok);
    if p != [] { assert [p[0] - 0] + p[1..] == p; }
    hide Servers;
  }

  // ----- Default servers -----

  predicate IsDefault(args: seq<string>) {
    "default_server" in args || "default" in args
  }

  /** A listen on this port, the missing port being 80; any listen for the empty string. */
  predicate ListensOn(n: Node, port: string) {
    n.Directive? && n.name == "listen" &&
    (port == "" ||
     (n.args != [] &&
      var a := SplitListenAddr(TrimQuotes(n.args[0]));
      a.Address? && (a.port == port || (a.port == "" && port == "80"))))
  }

  predicate DefaultOn(n: Node, port: string) {
    n.Block? && exists d <- n.body :: ListensOn(d, port) && IsDefault(d.args)
  }

  /** `isDefaultServerOnPort`, and `isDefaultServer` for the empty string. */
  method IsDefaultServerOnPort(b: Node, port: string) returns (r: bool)
    requires b.Block?
    ensures r == DefaultOn(b, port)
  {
    for i := 0 to |b.body|
      invariant forall j :: 0 <= j < i ==> !(ListensOn(b.body[j], port) && IsDefault(b.body[j].args))
    {
      var d := b.body[i];
      if !d.Directive? || d.name != "listen" || (port != "" && |d.args| == 0) { continue; }
      var on := port == "";
      if port != "" {
        var a := SplitListenAddr(TrimQuotes(d.args[0]));
        on := a.Address? && (a.port == port || (a.port == "" && port == "80"));
      }
      if !on { continue; }
      for j := 0 to |d.args|
        invariant forall k :: 0 <= k < j ==> d.args[k] != "default_server" && d.args[k] != "default"
      {
        if d.args[j] == "default_server" || d.args[j] == "default" {
          assert d in b.body && IsDefault(d.args);
          return true;
        }
      }
    }
    r := false;
  }

  // ----- The servers for a challenge -----

  function Named(rx: Regex, domains: seq<string>): Node -> bool {
    (n: Node) => n.Block? && MatchesAny(rx, n.body, set d <- domains :: ToLower(d))
  }

  function Default(port: string): Node -> bool {
    (n: Node) => DefaultOn(n, port)
  }

  ghost predicate Exists(nodes: seq<Node>, ok: Node -> bool) {
    exists p: Place :: ServerAt(nodes, p, ok)
  }

  /** The test that decides in one file: the server names; without a match, the default servers on
      port 80, else on port 443, else on any port. */
  ghost function Deciding(rx: Regex, nodes: seq<Node>, domains: seq<string>): Node -> bool {
    if Exists(nodes, Named(rx, domains)) then Named(rx, domains)
    else if Exists(nodes, Default("80")) then Default("80")
    else if Exists(nodes, Default("443")) then Default("443")
    else Default("")
  }

  function Matching(rx: Regex, nodes: seq<Node>, domains: seq<string>): seq<Place> {
    var named, on80, on443 := Servers(nodes, 0, Named(rx, domains)), Servers(nodes, 0, Default("80")), Servers(nodes, 0, Default("443"));
    if named != [] then named else if on80 != [] then on80 else if on443 != [] then on443
    else Servers(nodes, 0, Default(""))
  }

  method FindMatchingServers(rx: Regex, nodes: seq<Node>, domains: seq<string>) returns (out: seq<Place>)
    ensures out == Matching(rx, nodes, domains)
  {
    out := Visit(nodes, Named(rx, domains));
    if |out| == 0 {
      var port80 := Visit(nodes, Default("80"));
      var port443 := Visit(nodes, Default("443"));
      if |port80| > 0 { out := port80; }
      else if |port443| > 0 { out := port443; }
      else { out := Visit(nodes, Default("")); }
    }
  }

  lemma WalkFinds(nodes: seq<Node>, ok: Node -> bool)
    ensures Servers(nodes, 0, ok) != [] <==> Exists(nodes, ok)
  {
    var s := Servers(nodes, 0, ok);
    hide Servers, ServerAt;
    if s != [] { WalkExactly(nodes, ok, s[0]); }
    if p: Place :| ServerAt(nodes, p, ok) { WalkExactly(nodes, ok, p); }
  }

  /** In one file, exactly the server blocks that pass the deciding test, in document order. */
  lemma MatchingExactly(rx: Regex, nodes: seq<Node>, domains: seq<string>, p: Place)
    ensures p in Matching(rx, nodes, domains) <==> ServerAt(nodes, p, Deciding(rx, nodes, domains))
    ensures Ascending(Matching(rx, nodes, domains))
  {
    hide Servers, Exists, Named, Default, ServerAt, Ascending;
    WalkFinds(nodes, Named(rx, domains));
    WalkFinds(nodes, Default("80"));
    WalkFinds(nodes, Default("443"));
    WalkExactly(nodes, Deciding(rx, nodes, domains), p);
  }

  // ----- Blocks of several files -----

  datatype Hit = Hit(file: nat, at: Place)

  function InFile(k: nat, places: seq<Place>): (r: seq<Hit>)
    ensures |r| == |places| && forall j :: 0 <= j < |r| ==> r[j] == Hit(k, places[j])
  {
    seq(|places|, j requires 0 <= j < |places| => Hit(k, places[j]))
  }

  /** What the walks of `by` collect; `files` are the trees from number `k` on. */
  function Across(files: seq<seq<Node>>, k: nat, walk: seq<Node> -> seq<Place>): seq<Hit>
    decreases |files|
  {
    if files == [] then [] else InFile(k, walk(files[0])) + Across(files[1..], k + 1, walk)
  }

  lemma {:induction false} AcrossExactly(files: seq<seq<Node>>, k: nat, walk: seq<Node> -> seq<Place>, h: Hit)
    ensures h in Across(files, k, walk) <==> k <= h.file < k + |files| && h.at in walk(files[h.file - k])
    decreases |files|
  {
    if files != [] {
      var places := walk(files[0]);
      AcrossExactly(files[1..], k + 1, walk, h);
      InFileExactly(k, places, h);
      if k < h.file < k + |files| { assert files[1..][h.file - (k + 1)] == files[h.file - k]; }
      var a, b := InFile(k, places), Across(files[1..], k + 1, walk);
      assert Across(files, k, walk) == a + b;
      hide InFile, Across;
      assert h in a + b <==> h in a || h in b;
    }
  }

  lemma InFileExactly(k: nat, places: seq<Place>, h: Hit)
    ensures h in InFile(k, places) <==> h.file == k && h.at in places
  {
    if h in InFile(k, places) {
      var j :| 0 <= j < |places| && InFile(k, places)[j] == h;
      assert places[j] in places;
    }
    if h.file == k && h.at in places {
      var j :| 0 <= j < |places| && places[j] == h.at;
      assert InFile(k, places)[j] == h;
    }
  }

  lemma AcrossStep(files: seq<seq<Node>>, k: nat, walk: seq<Node> -> seq<Place>, out: seq<Hit>)
    requires k < |files|
    ensures out + Across(files[k..], k, walk) == out + InFile(k, walk(files[k])) + Across(files[k + 1..], k + 1, walk)
  {
    assert files[k..][0] == files[k] && files[k..][1..] == files[k + 1..];
    Assoc(out, InFile(k, walk(files[k])), Across(files[k + 1..], k + 1, walk));
  }

  function Matches(rx: Regex, domains: seq<string>): seq<Node> -> seq<Place> {
    (nodes: seq<Node>) => Matching(rx, nodes, domains)
  }

  method FindMatchingServersAcrossFiles(rx: Regex, files: seq<seq<Node>>, domains: seq<string>) returns (out: seq<Hit>)
    ensures out == Across(files, 0, Matches(rx, domains))
  {
    out := [];
    assert files[0..] == files;
    for k := 0 to |files|
      invariant out + Across(files[k..], k, Matches(rx, domains)) == Across(files, 0, Matches(rx, domains))
    {
      AcrossStep(files, k, Matches(rx, domains), out);
      var places := FindMatchingServers(rx, files[k], domains);
      out := out + InFile(k, places);
    }
    assert files[|files|..] == [];
  }

  /** Each file decides on its own: its default servers are edited when none of its own servers
      matches, even when a server of another file does. */
  lemma EachFileDecides(rx: Regex, files: seq<seq<Node>>, domains: seq<string>, h: Hit)
    ensures h in Across(files, 0, Matches(rx, domains)) <==>
      h.file < |files| && ServerAt(files[h.file], h.at, Deciding(rx, files[h.file], domains))
  {
    hide Matching, Across, ServerAt, Deciding;
    AcrossExactly(files, 0, Matches(rx, domains), h);
    if h.file < |files| { MatchingExactly(rx, files[h.file], domains, h.at); }
  }

  // ----- The servers for a certificate -----

  predicate IsServer(files: seq<seq<Node>>, h: Hit) {
    h.file < |files| && ServerAt(files[h.file], h.at, _ => true)
  }

  function NodeOf(files: seq<seq<Node>>, h: Hit): (n: Node)
    requires IsServer(files, h)
    ensures n.Block?
  {
    NodeAt(files[h.file], h.at).value
  }

  function Every(): seq<Node> -> seq<Place> {
    (nodes: seq<Node>) => Servers(nodes, 0, _ => true)
  }

  /** All server blocks, file by file and in document order. */
  function AllServers(files: seq<seq<Node>>): (all: seq<Hit>)
    ensures forall h <- all :: IsServer(files, h)
  {
    AllAreServers(files);
    Across(files, 0, Every())
  }

  lemma AllAreServers(files: seq<seq<Node>>)
    ensures forall h :: h in Across(files, 0, Every()) <==> IsServer(files, h)
  {
    hide ServerAt, Servers, Across;
    forall h ensures h in Across(files, 0, Every()) <==> IsServer(files, h) {
      AcrossExactly(files, 0, Every(), h);
      if h.file < |files| { WalkExactly(files[h.file], _ => true, h.at); }
    }
  }

  predicate HitBefore(g: Hit, h: Hit) {
    g.file < h.file || (g.file == h.file && Before(g.at, h.at))
  }

  predicate InOrder(all: seq<Hit>) {
    forall i, j :: 0 <= i < j < |all| ==> HitBefore(all[i], all[j])
  }

  lemma {:induction false} AcrossAscends(files: seq<seq<Node>>, k: nat)
    ensures var all := Across(files, k, Every());
      (forall h <- all :: h.file >= k) && InOrder(all)
    decreases |files|
  {
    if files != [] {
      var a, b := InFile(k, Every()(files[0])), Across(files[1..], k + 1, Every());
      AcrossAscends(files[1..], k + 1);
      ServersAscend(files[0], 0, _ => true);
      hide Servers, Across, Before;
      forall i, j | 0 <= i < j < |a + b| ensures HitBefore((a + b)[i], (a + b)[j]) {
        if i >= |a| { assert HitBefore(b[i - |a|], b[j - |a|]); }
        else if j >= |a| { assert b[j - |a|] in b; }
      }
    }
  }

  function Blocks(files: seq<seq<Node>>): (r: seq<Node>)
    ensures |r| == |AllServers(files)| && forall s <- r :: s.Block?
    ensures forall i :: 0 <= i < |r| ==> r[i] == NodeOf(files, AllServers(files)[i])
  {
    var all := AllServers(files);
    seq(|all|, i requires 0 <= i < |all| => NodeOf(files, all[i]))
  }

  function SelectedHits(rx: Regex, files: seq<seq<Node>>, domains: seq<string>): seq<Hit> {
    var all, chosen := AllServers(files), Selected(rx, Blocks(files), domains);
    seq(|chosen|, i requires 0 <= i < |chosen| => all[chosen[i]])
  }

  method SelectBestServers(rx: Regex, files: seq<seq<Node>>, domains: seq<string>) returns (out: seq<Hit>)
    ensures out == SelectedHits(rx, files, domains)
  {
    var all: seq<Hit> := [];
    assert files[0..] == files;
    for k := 0 to |files|
      invariant all + Across(files[k..], k, Every()) == Across(files, 0, Every())
    {
      AcrossStep(files, k, Every(), all);
      var places := Visit(files[k], _ => true);
      all := all + InFile(k, places);
    }
    assert files[|files|..] == [];
    assert all == AllServers(files);
    var chosen := SelectBestServerPerDomain(rx, Blocks(files), domains);
    out := seq(|chosen|, i requires 0 <= i < |chosen| => all[chosen[i]]);
  }

  /** No server of any file scores higher for the domain, and none before this one as high. */
  ghost predicate BestFor(rx: Regex, files: seq<seq<Node>>, h: Hit, dom: string) {
    IsServer(files, h) && FinalScore(rx, NodeOf(files, h), dom) > 0 &&
    forall g :: IsServer(files, g) ==>
      FinalScore(rx, NodeOf(files, g), dom) <= FinalScore(rx, NodeOf(files, h), dom) &&
      (HitBefore(g, h) ==> FinalScore(rx, NodeOf(files, g), dom) < FinalScore(rx, NodeOf(files, h), dom))
  }

  /** The same for the list of all servers. */
  predicate BestIndex(rx: Regex, nodes: seq<Node>, k: nat, dom: string)
    requires k < |nodes| && forall s <- nodes :: s.Block?
  {
    FinalScore(rx, nodes[k], dom) > 0 &&
    (forall i :: 0 <= i < |nodes| ==> FinalScore(rx, nodes[i], dom) <= FinalScore(rx, nodes[k], dom)) &&
    forall i :: 0 <= i < k ==> FinalScore(rx, nodes[i], dom) < FinalScore(rx, nodes[k], dom)
  }

  lemma BestIndexIsBest(rx: Regex, nodes: seq<Node>, k: nat, dom: string)
    requires k < |nodes| && forall s <- nodes :: s.Block?
    ensures BestIndex(rx, nodes, k, dom) <==> BestServer(rx, nodes, dom).Chosen? && BestServer(rx, nodes, dom).index == k
  {
    BestServerIsBest(rx, nodes, dom);
    hide BestServer, FinalScore;
  }

  lemma {:induction false} OneWay(p: Place, q: Place)
    ensures !(Before(p, q) && Before(q, p))
  {
    if p != [] && q != [] { OneWay(p[1..], q[1..]); }
  }

  lemma OrderIsIndex(all: seq<Hit>, i: nat, k: nat)
    requires InOrder(all) && i < |all| && k < |all|
    ensures HitBefore(all[i], all[k]) <==> i < k
    ensures all[i] == all[k] <==> i == k
  {
    OneWay(all[i].at, all[k].at);
    assert i < k ==> HitBefore(all[i], all[k]);
    assert k < i ==> HitBefore(all[k], all[i]);
  }

  lemma AllInOrder(files: seq<seq<Node>>)
    ensures InOrder(AllServers(files))
  {
    AcrossAscends(files, 0);
    hide Across, InOrder;
  }

  lemma BestForIsIndex(rx: Regex, files: seq<seq<Node>>, dom: string, k: nat)
    requires k < |AllServers(files)|
    ensures BestFor(rx, files, AllServers(files)[k], dom) <==> BestIndex(rx, Blocks(files), k, dom)
  {
    var all, nodes := AllServers(files), Blocks(files);
    AllAreServers(files);
    AllInOrder(files);
    assert all[k] in all;
    hide FinalScore, IsServer, NodeOf, Blocks, AllServers, Across, HitBefore, InOrder;
    if BestFor(rx, files, all[k], dom) {
      forall i | 0 <= i < |nodes|
        ensures FinalScore(rx, nodes[i], dom) <= FinalScore(rx, nodes[k], dom)
        ensures i < k ==> FinalScore(rx, nodes[i], dom) < FinalScore(rx, nodes[k], dom)
      {
        assert all[i] in all;
        OrderIsIndex(all, i, k);
      }
    }
    if BestIndex(rx, nodes, k, dom) {
      forall g | IsServer(files, g)
        ensures FinalScore(rx, NodeOf(files, g), dom) <= FinalScore(rx, NodeOf(files, all[k]), dom)
        ensures HitBefore(g, all[k]) ==> FinalScore(rx, NodeOf(files, g), dom) < FinalScore(rx, NodeOf(files, all[k]), dom)
      {
        var i :| 0 <= i < |all| && all[i] == g;
        OrderIsIndex(all, i, k);
      }
    }
  }

  /** The servers that get the certificate: over all files and at any depth, exactly the best ones of
      the domains, each once. */
  lemma SelectionExactly(rx: Regex, files: seq<seq<Node>>, domains: seq<string>, h: Hit)
    ensures h in SelectedHits(rx, files, domains) <==> exists d <- domains :: BestFor(rx, files, h, ToLower(d))
    ensures var out := SelectedHits(rx, files, domains); forall i, j :: 0 <= i < j < |out| ==> out[i] != out[j]
  {
    SelectedOnce(rx, files, domains);
    hide Selected, BestFor, Across, Blocks, ToLower, AllServers;
    if h in SelectedHits(rx, files, domains) { var d := SelectedIsBest(rx, files, domains, h); }
    if d :| d in domains && BestFor(rx, files, h, ToLower(d)) { BestIsSelected(rx, files, domains, h, d); }
  }

  lemma SelectedOnce(rx: Regex, files: seq<seq<Node>>, domains: seq<string>)
    ensures var out := SelectedHits(rx, files, domains); forall i, j :: 0 <= i < j < |out| ==> out[i] != out[j]
  {
    var all, chosen, out := AllServers(files), Selected(rx, Blocks(files), domains), SelectedHits(rx, files, domains);
    hide Selected, Across, Blocks, AllServers, InOrder, BestOfSome;
    SelectionIsBest(rx, Blocks(files), domains, 0);
    AllInOrder(files);
    forall i, j | 0 <= i < j < |out| ensures out[i] != out[j] { OrderIsIndex(all, chosen[i], chosen[j]); }
  }

  lemma SelectedIsBest(rx: Regex, files: seq<seq<Node>>, domains: seq<string>, h: Hit) returns (d: string)
    requires h in SelectedHits(rx, files, domains)
    ensures d in domains && BestFor(rx, files, h, ToLower(d))
  {
    var nodes, chosen := Blocks(files), Selected(rx, Blocks(files), domains);
    var i :| 0 <= i < |chosen| && SelectedHits(rx, files, domains)[i] == h;
    SelectionIsBest(rx, nodes, domains, chosen[i]);
    hide Selected, BestServer, BestFor, BestIndex, Across, Blocks, AllServers, ToLower;
    d :| d in domains && BestServer(rx, nodes, ToLower(d)).Chosen? && BestServer(rx, nodes, ToLower(d)).index == chosen[i];
    BestIndexIsBest(rx, nodes, chosen[i], ToLower(d));
    BestForIsIndex(rx, files, ToLower(d), chosen[i]);
  }

  lemma BestIsSelected(rx: Regex, files: seq<seq<Node>>, domains: seq<string>, h: Hit, d: string)
    requires d in domains && BestFor(rx, files, h, ToLower(d))
    ensures h in SelectedHits(rx, files, domains)
  {
    var all, nodes, chosen := AllServers(files), Blocks(files), Selected(rx, Blocks(files), domains);
    AllAreServers(files);
    assert h in all;
    hide Selected, BestServer, BestFor, BestIndex, Across, Blocks, AllServers, ToLower;
    var k :| 0 <= k < |all| && all[k] == h;
    BestForIsIndex(rx, files, ToLower(d), k);
    BestIndexIsBest(rx, nodes, k, ToLower(d));
    SelectionIsBest(rx, nodes, domains, k);
    assert k in chosen;
    var i :| 0 <= i < |chosen| && chosen[i] == k;
    assert SelectedHits(rx, files, domains)[i] == h;
  }
}
