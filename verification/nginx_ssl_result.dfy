/** The whole result of the SSL edit of a server block (`insertSSLDirectives` of
    `internal/plugins/nginx/configurator.go`), node by node, without the order of its passes. */
module NginxSslResult {
  import opened Common
  import opened NginxAst
  import opened NginxChallenge
  import opened NginxListen
  import opened NginxSsl
  import opened Decimal
  import opened Text

  const CERTIFICATE := "ssl_certificate"
  const KEY := "ssl_certificate_key"

  /** What becomes of a node: the first certificate line and the first key line get the new path, and
      a listen on the HTTPS port the `ssl` flag. */
  function EditedNode(body: seq<Node>, i: nat, fullchain: string, privkey: string, httpsPort: string): Node
    requires i < |body|
  {
    if i == First(body, CERTIFICATE) then WithArgs(body[i], [fullchain])
    else if i == First(body, KEY) then WithArgs(body[i], [privkey])
    else if OnPort(body[i], httpsPort) && !ContainsArg(body[i].args, "ssl") then WithArgs(body[i], body[i].args + ["ssl"])
    else body[i]
  }

  predicate Lacks(body: seq<Node>, name: string) {
    forall n <- body :: !(n.Directive? && n.name == name)
  }

  /** The certificate lines that the block lacks. */
  function NewLines(body: seq<Node>, indent: string, fullchain: string, privkey: string): seq<Node> {
    (if Lacks(body, CERTIFICATE) then [Added(indent, CERTIFICATE, [fullchain])] else []) +
    (if Lacks(body, KEY) then [Added(indent, KEY, [privkey])] else [])
  }

  /** The hosts of the listens on the port, in their order. */
  function Hosts(body: seq<Node>, port: string): seq<string> {
    if body == [] then []
    else
      var last := body[|body| - 1];
      Hosts(body[..|body| - 1], port) + if OnPort(last, port) then [AddressOf(last).host] else []
  }

  function ForHosts(indent: string, hosts: seq<string>, httpsPort: string): seq<Node> {
    seq(|hosts|, i requires 0 <= i < |hosts| =>
      Added(indent, "listen", [if hosts[i] == "" then httpsPort else hosts[i] + ":" + httpsPort, "ssl"]))
  }

  /** The listens that are added: none when the block listens on the HTTPS port, one for each plain
      host, the two general ones when there is no plain host, and in a block without listens a plain
      one and one beside it, or just one when both ports are the same. */
  function NewListens(body: seq<Node>, indent: string, httpPort: string, httpsPort: string): seq<Node> {
    if Lacks(body, "listen") then
      if httpPort == httpsPort then [Added(indent, "listen", [httpPort, "ssl"])]
      else [Added(indent, "listen", [httpPort]), Added(indent, "listen", [httpsPort, "ssl"])]
    else if AnyOnPort(body, httpsPort) then []
    else if Hosts(body, httpPort) == [] then
      [Added(indent, "listen", ["[::]:" + httpsPort, "ssl", "ipv6only=on"]), Added(indent, "listen", [httpsPort, "ssl"])]
    else ForHosts(indent, Hosts(body, httpPort), httpsPort)
  }

  // ----- The certificate lines -----

  lemma LacksFirst(body: seq<Node>, name: string)
    ensures Lacks(body, name) <==> First(body, name) == |body|
  {
    var i := First(body, name);
    if i == |body| {
      forall n <- body ensures !(n.Directive? && n.name == name) {
        var j :| 0 <= j < |body| && body[j] == n;
      }
    } else {
      assert body[i] in body;
    }
  }

  lemma FirstIs(body: seq<Node>, name: string, i: nat)
    requires i <= |body| && (i < |body| ==> body[i].Directive? && body[i].name == name)
    requires forall j :: 0 <= j < i ==> !(body[j].Directive? && body[j].name == name)
    ensures First(body, name) == i
  {
  }

  /** Setting one directive leaves the first one of another name where it is. */
  lemma SetKeepsFirst(body: seq<Node>, indent: string, name: string, arg: string, other: string)
    requires name != other
    ensures var r := SetOrAppend(body, indent, name, arg); var i := First(body, other);
      First(r, other) == if i < |body| then i else |r|
  {
    var r, i := SetOrAppend(body, indent, name, arg), First(body, other);
    assert forall j :: 0 <= j < |body| && r[j] != body[j] ==> r[j].name == body[j].name == name;
    FirstIs(r, other, if i < |body| then i else |r|);
  }

  /** The block with both certificate lines set. */
  function Certified(body: seq<Node>, indent: string, fullchain: string, privkey: string): seq<Node> {
    SetOrAppend(SetOrAppend(body, indent, CERTIFICATE, fullchain), indent, KEY, privkey)
  }

  function CertifiedNode(body: seq<Node>, i: nat, fullchain: string, privkey: string): Node
    requires i < |body|
  {
    if i == First(body, CERTIFICATE) then WithArgs(body[i], [fullchain])
    else if i == First(body, KEY) then WithArgs(body[i], [privkey])
    else body[i]
  }

  lemma CertifiedIs(body: seq<Node>, indent: string, fullchain: string, privkey: string)
    ensures var b := Certified(body, indent, fullchain, privkey);
      |b| >= |body| && b[|body|..] == NewLines(body, indent, fullchain, privkey) &&
      forall i :: 0 <= i < |body| ==> b[i] == CertifiedNode(body, i, fullchain, privkey)
  {
    var b1 := SetOrAppend(body, indent, CERTIFICATE, fullchain);
    assert |CERTIFICATE| != |KEY|;
    LacksFirst(body, CERTIFICATE);
    LacksFirst(body, KEY);
    SetKeepsFirst(body, indent, CERTIFICATE, fullchain, KEY);
    hide First, Lacks;
    assert body[|body|..] == [] && b1[|b1|..] == [];
  }

  // ----- The listens -----

  lemma {:induction false} HostsFront(n: Node, rest: seq<Node>, port: string)
    ensures Hosts([n] + rest, port) == (if OnPort(n, port) then [AddressOf(n).host] else []) + Hosts(rest, port)
    decreases |rest|
  {
    var all := [n] + rest;
    var here := if OnPort(n, port) then [AddressOf(n).host] else [];
    if rest == [] {
      assert all[..0] == [] && all[0] == n;
    } else {
      var front, last := rest[..|rest| - 1], rest[|rest| - 1];
      HostsFront(n, front, port);
      assert all[..|all| - 1] == [n] + front && all[|all| - 1] == last;
      hide OnPort, AddressOf;
      Assoc(here, Hosts(front, port), if OnPort(last, port) then [AddressOf(last).host] else []);
    }
  }

  lemma {:induction false} DerivedHosts(body: seq<Node>, p: string, q: string)
    ensures var hosts, derived := Hosts(body, p), Derived(body, p, q);
      |derived| == |hosts| && forall i :: 0 <= i < |hosts| ==> derived[i] == SslAddress(hosts[i], q)
  {
    if body != [] {
      DerivedHosts(body[1..], p, q);
      assert body == [body[0]] + body[1..];
      hide OnPort, AddressOf, SslAddress;
      HostsFront(body[0], body[1..], p);
    }
  }

  lemma DigitsAreNoFlag(p: string)
    requires Port(p)
    ensures !ContainsArg([p], "ssl") && !(p != "" && p[0] == '[')
  {
    NoColonInDigits(p);
    assert IsDigit(p[0]) && ToLower(p)[0] == p[0] && ToLower("ssl")[0] == 's';
  }

  lemma PromotedPlain(b: seq<Node>, l: Node, q: string)
    requires Lacks(b, "listen")
    ensures PromoteAll(b + [l], q) == b + [Promote(l, q)]
  {
    NoneOnPort(b, q);
    hide OnPort, ContainsArg, AddressOf;
    assert forall i :: 0 <= i < |b| ==> b[i] in b && !OnPort(b[i], q);
  }

  lemma NoneOnPort(b: seq<Node>, q: string)
    requires Lacks(b, "listen")
    ensures !AnyOnPort(b, q) && Hosts(b, q) == []
  {
    if Hosts(b, q) != [] { HostHasListen(b, q); }
  }

  lemma {:induction false} HostHasListen(b: seq<Node>, port: string)
    ensures Hosts(b, port) != [] ==> AnyOnPort(b, port)
  {
    if b != [] {
      HostHasListen(b[..|b| - 1], port);
      assert forall n <- b[..|b| - 1] :: n in b;
      assert b[|b| - 1] in b;
    }
  }

  /** A block without listens. */
  lemma FirstListens(b: seq<Node>, indent: string, p: string, q: string)
    requires Port(p) && Port(q) && Lacks(b, "listen")
    ensures AddListenSSL(b, indent, p, q) == b + NewListens(b, indent, p, q)
  {
    if p == q {
      SamePort(b, indent, p);
    } else {
      PlainFirst(b, indent, p, q);
      Assoc(b, [Added(indent, "listen", [p])], [Added(indent, "listen", [q, "ssl"])]);
    }
  }

  lemma MoreListens(b: seq<Node>, indent: string, p: string, q: string)
    requires Port(p) && Port(q) && !Lacks(b, "listen")
    ensures AddListenSSL(b, indent, p, q) == PromoteAll(b, q) + NewListens(b, indent, p, q)
  {
    LacksFirst(b, "listen");
    hide Lacks, First, OnPort, AnyOnPort;
    if !AnyOnPort(b, q) {
      NothingPromoted(b, q);
      DerivedHosts(b, p, q);
      DigitsAreNoFlag(q);
      hide Derived, Hosts;
      var hosts, derived := Hosts(b, p), Derived(b, p, q);
      if hosts == [] {
        FallbackListens(indent, q);
      } else {
        HostListens(indent, hosts, derived, q);
      }
    }
  }

  lemma FallbackListens(indent: string, q: string)
    requires Port(q)
    ensures SslListens(indent, Fallback(q), true) ==
      [Added(indent, "listen", ["[::]:" + q, "ssl", "ipv6only=on"]), Added(indent, "listen", [q, "ssl"])]
  {
    DigitsAreNoFlag(q);
    SslListenIs(indent, "[::]:" + q, true);
    SslListenIs(indent, q, true);
  }

  lemma SslListenIs(indent: string, addr: string, fallback: bool)
    requires addr != ""
    ensures SslListen(indent, addr, fallback) ==
      Added(indent, "listen", if fallback && addr[0] == '[' then [addr, "ssl", "ipv6only=on"] else [addr, "ssl"])
  {
    assert addr[..1] == [addr[0]];
    assert [addr, "ssl"] + [] == [addr, "ssl"] && [addr, "ssl"] + ["ipv6only=on"] == [addr, "ssl", "ipv6only=on"];
  }

  lemma HostListens(indent: string, hosts: seq<string>, derived: seq<string>, q: string)
    requires Port(q) && |derived| == |hosts| && forall i :: 0 <= i < |hosts| ==> derived[i] == SslAddress(hosts[i], q)
    ensures SslListens(indent, derived, false) == ForHosts(indent, hosts, q)
  {
    forall i | 0 <= i < |hosts| ensures SslListen(indent, derived[i], false) == ForHosts(indent, hosts, q)[i] {
      SslListenIs(indent, derived[i], false);
    }
  }

  /** A block without listens gets the plain one; the edit goes on with it. */
  lemma PlainFirst(b: seq<Node>, indent: string, p: string, q: string)
    requires Port(p) && Port(q) && p != q && Lacks(b, "listen")
    ensures var l := Added(indent, "listen", [p]);
      AddListenSSL(b, indent, p, q) == b + [l] + [Added(indent, "listen", [q, "ssl"])]
  {
    var l := Added(indent, "listen", [p]);
    LacksFirst(b, "listen");
    AddedOnPort(indent, p);
    NoneOnPort(b, q);
    NoneOnPort(b, p);
    hide Lacks, First, ContainsArg, AddressOf;
    OneListen(b, l, q);
    DerivedHosts(b + [l], p, q);
    assert (b + [l])[..|b|] == b;
    assert Hosts(b + [l], p) == [""];
    assert Derived(b + [l], p, q) == [q];
    hide OnPort, AnyOnPort, Derived, Hosts;
    SslListenIs(indent, q, false);
    assert SslListens(indent, [q], false) == [Added(indent, "listen", [q, "ssl"])];
  }

  lemma SamePort(b: seq<Node>, indent: string, p: string)
    requires Port(p) && Lacks(b, "listen")
    ensures AddListenSSL(b, indent, p, p) == b + [Added(indent, "listen", [p, "ssl"])]
  {
    var l := Added(indent, "listen", [p]);
    LacksFirst(b, "listen");
    AddedOnPort(indent, p);
    DigitsAreNoFlag(p);
    NoneOnPort(b, p);
    PromotedPlain(b, l, p);
    hide Lacks, First, ContainsArg, AddressOf, AnyOnPort;
    OneListen(b, l, p);
    assert [p] + ["ssl"] == [p, "ssl"];
  }

  // ----- The whole edit -----

  /** The blocks have the same listens, and what the later one has behind is none. */
  predicate SameAddresses(body: seq<Node>, later: seq<Node>) {
    |body| <= |later| && (forall i :: 0 <= i < |body| ==> AddressOf(later[i]) == AddressOf(body[i])) &&
    forall i :: |body| <= i < |later| ==> AddressOf(later[i]) == Skipped
  }

  lemma {:induction false} SameHosts(body: seq<Node>, later: seq<Node>, port: string)
    requires SameAddresses(body, later)
    ensures Hosts(later, port) == Hosts(body, port) && AnyOnPort(later, port) == AnyOnPort(body, port)
    decreases |later|
  {
    hide AddressOf;
    if later != [] {
      var n := |later| - 1;
      var front := later[..n];
      var b := if |body| == |later| then body[..n] else body;
      SameHosts(b, front, port);
      assert later == front + [later[n]];
      if |body| == |later| { assert body == b + [body[n]]; }
      AnyOfMore(front, later[n], port);
      if |body| == |later| { AnyOfMore(b, body[n], port); }
    }
  }

  lemma AnyOfMore(front: seq<Node>, n: Node, port: string)
    ensures AnyOnPort(front + [n], port) == (AnyOnPort(front, port) || OnPort(n, port))
  {
    hide OnPort;
    assert n in front + [n] && forall x <- front + [n] :: x in front || x == n;
    assert forall x <- front :: x in front + [n];
  }

  lemma CertifiedListens(body: seq<Node>, indent: string, fullchain: string, privkey: string)
    ensures var b := Certified(body, indent, fullchain, privkey);
      SameAddresses(body, b) && Lacks(b, "listen") == Lacks(body, "listen")
  {
    var b := Certified(body, indent, fullchain, privkey);
    var new_ := NewLines(body, indent, fullchain, privkey);
    CertifiedIs(body, indent, fullchain, privkey);
    hide NewLines, Certified, Lacks, First, SplitListenAddr, TrimQuotes;
    NewLinesAre(body, indent, fullchain, privkey);
    forall i | 0 <= i < |body| ensures AddressOf(b[i]) == AddressOf(body[i]) && SameListenName(b[i], body[i]) {
      CertifiedKeeps(body, i, fullchain, privkey);
    }
    forall i | |body| <= i < |b| ensures IsCertificateLine(b[i]) { assert b[i] == new_[i - |body|]; }
    LacksByName(body, b);
  }

  predicate SameListenName(n: Node, m: Node) {
    n.Directive? && n.name == "listen" <==> m.Directive? && m.name == "listen"
  }

  lemma NewLinesAre(body: seq<Node>, indent: string, fullchain: string, privkey: string)
    ensures forall i :: 0 <= i < |NewLines(body, indent, fullchain, privkey)| ==>
      IsCertificateLine(NewLines(body, indent, fullchain, privkey)[i])
  {
  }

  lemma CertifiedKeeps(body: seq<Node>, i: nat, fullchain: string, privkey: string)
    requires i < |body|
    ensures var n := CertifiedNode(body, i, fullchain, privkey); AddressOf(n) == AddressOf(body[i]) && SameListenName(n, body[i])
  {
  }

  lemma LacksByName(body: seq<Node>, b: seq<Node>)
    requires |body| <= |b|
    requires forall i :: 0 <= i < |body| ==> SameListenName(b[i], body[i])
    requires forall i :: |body| <= i < |b| ==> IsCertificateLine(b[i])
    ensures Lacks(b, "listen") == Lacks(body, "listen")
  {
    if n :| n in body && n.Directive? && n.name == "listen" {
      var i :| 0 <= i < |body| && body[i] == n;
      assert b[i] in b;
    }
    if n :| n in b && n.Directive? && n.name == "listen" {
      var i :| 0 <= i < |b| && b[i] == n;
      assert body[i] in body;
    }
  }

  lemma ListenPart(b: seq<Node>, indent: string, p: string, q: string)
    requires Port(p) && Port(q)
    ensures AddListenSSL(b, indent, p, q) == PromoteAll(b, q) + NewListens(b, indent, p, q)
  {
    if Lacks(b, "listen") {
      NoneOnPort(b, q);
      NothingPromoted(b, q);
      FirstListens(b, indent, p, q);
    } else {
      MoreListens(b, indent, p, q);
    }
  }

  lemma SameNewListens(body: seq<Node>, b: seq<Node>, indent: string, p: string, q: string)
    requires SameAddresses(body, b) && Lacks(b, "listen") == Lacks(body, "listen")
    ensures NewListens(b, indent, p, q) == NewListens(body, indent, p, q)
  {
    SameHosts(body, b, p);
    SameHosts(body, b, q);
    hide Hosts, AnyOnPort, Lacks, SameAddresses;
  }

  lemma PromotedCertified(body: seq<Node>, indent: string, fullchain: string, privkey: string, q: string)
    ensures var b := PromoteAll(Certified(body, indent, fullchain, privkey), q);
      |b| >= |body| && b[|body|..] == NewLines(body, indent, fullchain, privkey) &&
      forall i :: 0 <= i < |body| ==> b[i] == EditedNode(body, i, fullchain, privkey, q)
  {
    var b, r := Certified(body, indent, fullchain, privkey), PromoteAll(Certified(body, indent, fullchain, privkey), q);
    CertifiedIs(body, indent, fullchain, privkey);
    CertifiedListens(body, indent, fullchain, privkey);
    hide Certified, NewLines, ContainsArg;
    forall i | 0 <= i < |body| ensures r[i] == EditedNode(body, i, fullchain, privkey, q) { }
    forall i | |body| <= i < |b| ensures r[i] == b[i] { }
    assert r[|body|..] == b[|body|..];
  }

  /** The edit, exactly: what every node of the block becomes, and what is added behind them. */
  lemma EditExactly(body: seq<Node>, fullchain: string, privkey: string, httpPort: int, httpsPort: int)
    ensures var r := InsertSSL(body, fullchain, privkey, httpPort, httpsPort);
      var indent, p, q := ChildIndent(body), PortText(httpPort, 80), PortText(httpsPort, 443);
      |r| >= |body| && (forall i :: 0 <= i < |body| ==> r[i] == EditedNode(body, i, fullchain, privkey, q)) &&
      r[|body|..] == NewLines(body, indent, fullchain, privkey) + NewListens(body, indent, p, q)
  {
    var indent, p, q := ChildIndent(body), PortText(httpPort, 80), PortText(httpsPort, 443);
    hide *;
    var b := Certified(body, indent, fullchain, privkey);
    PortIsText(httpPort, 80);
    PortIsText(httpsPort, 443);
    PromotedCertified(body, indent, fullchain, privkey, q);
    CertifiedListens(body, indent, fullchain, privkey);
    SameNewListens(body, b, indent, p, q);
    EditIs(body, fullchain, privkey, httpPort, httpsPort);
    ListenPart(b, indent, p, q);
    TailOf(PromoteAll(b, q), NewListens(body, indent, p, q), |body|);
  }

  lemma TailOf<T>(a: seq<T>, b: seq<T>, n: nat)
    requires n <= |a|
    ensures (a + b)[n..] == a[n..] + b && forall i :: 0 <= i < n ==> (a + b)[i] == a[i]
  {
  }

  lemma EditIs(body: seq<Node>, fullchain: string, privkey: string, httpPort: int, httpsPort: int)
    ensures var indent := ChildIndent(body);
      InsertSSL(body, fullchain, privkey, httpPort, httpsPort) ==
        AddListenSSL(Certified(body, indent, fullchain, privkey), indent, PortText(httpPort, 80), PortText(httpsPort, 443))
  {
  }

  /** The server presents the chain with its key: the first lines of both names say so, and no other
      line of these names has changed. */
  lemma CertificatesSet(body: seq<Node>, fullchain: string, privkey: string, httpPort: int, httpsPort: int)
    ensures var r := InsertSSL(body, fullchain, privkey, httpPort, httpsPort);
      IsSet(r, CERTIFICATE, fullchain) && IsSet(r, KEY, privkey) &&
      forall i :: 0 <= i < |body| && IsCertificateLine(body[i]) && i != First(body, CERTIFICATE) && i != First(body, KEY) ==>
        i < |r| && r[i] == body[i]
  {
    EditExactly(body, fullchain, privkey, httpPort, httpsPort);
    InsertSets(body, fullchain, privkey, httpPort, httpsPort);
    hide InsertSSL, IsSet, ContainsArg, NewLines, NewListens, PortText;
  }

  /** A block without a listen keeps a plain one on the HTTP port when the ports differ. */
  lemma PlainListenKept(body: seq<Node>, fullchain: string, privkey: string, httpPort: int, httpsPort: int)
    requires Lacks(body, "listen") && PortText(httpPort, 80) != PortText(httpsPort, 443)
    ensures var r := InsertSSL(body, fullchain, privkey, httpPort, httpsPort);
      exists n <- r :: IsListen(n) && n.args == [PortText(httpPort, 80)] && AddressOf(n) == Address("", PortText(httpPort, 80))
  {
    var r := InsertSSL(body, fullchain, privkey, httpPort, httpsPort);
    var indent, p := ChildIndent(body), PortText(httpPort, 80);
    EditExactly(body, fullchain, privkey, httpPort, httpsPort);
    PortIsText(httpPort, 80);
    AddedOnPort(indent, p);
    hide InsertSSL, AddressOf, Lacks, NewLines, PortText;
    var n := Added(indent, "listen", [p]);
    var k := |r| - 2;
    assert r[|body|..][k - |body|] == n;
    assert r[k] in r;
  }
}
