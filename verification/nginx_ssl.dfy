/** Turning a server block into an HTTPS one: `insertSSLDirectives` of
    `internal/plugins/nginx/configurator.go`, which edits the body of the block in place. */
module NginxSsl {
  import opened Common
  import opened NginxLexer
  import opened NginxAst
  import opened NginxChallenge
  import opened NginxListen
  import opened Decimal
  import opened Text

  function Added(indent: string, name: string, args: seq<string>): Node {
    Directive("\n" + indent, name, args, [], true, "", [])
  }

  function WithArgs(d: Node, args: seq<string>): Node
    requires d.Directive?
  {
    Directive(d.ws, d.name, args, d.argWs, d.semicolon, d.trailing, d.comments)
  }

  /** The position of the first directive of that name, or the number of nodes. */
  function First(body: seq<Node>, name: string): (i: nat)
    ensures i <= |body| && (i < |body| ==> body[i].Directive? && body[i].name == name)
    ensures forall j :: 0 <= j < i ==> !(body[j].Directive? && body[j].name == name)
  {
    if body == [] || (body[0].Directive? && body[0].name == name) then 0 else 1 + First(body[1..], name)
  }

  function SetOrAppend(body: seq<Node>, indent: string, name: string, arg: string): seq<Node> {
    var i := First(body, name);
    if i < |body| then body[i := WithArgs(body[i], [arg])] else body + [Added(indent, name, [arg])]
  }

  /** Host and port of a listen directive. */
  function AddressOf(n: Node): Address {
    if IsListen(n) then SplitListenAddr(TrimQuotes(n.args[0])) else Skipped
  }

  predicate OnPort(n: Node, port: string) {
    AddressOf(n).Address? && AddressOf(n).port == port
  }

  function Promote(n: Node, httpsPort: string): Node {
    if OnPort(n, httpsPort) && !ContainsArg(n.args, "ssl") then WithArgs(n, n.args + ["ssl"]) else n
  }

  function PromoteAll(body: seq<Node>, httpsPort: string): (r: seq<Node>)
    ensures |r| == |body| && forall i :: 0 <= i < |r| ==> r[i] == Promote(body[i], httpsPort)
  {
    seq(|body|, i requires 0 <= i < |body| => Promote(body[i], httpsPort))
  }

  predicate AnyOnPort(body: seq<Node>, port: string) {
    exists n <- body :: OnPort(n, port)
  }

  function SslAddress(host: string, httpsPort: string): string {
    if host != "" then host + ":" + httpsPort else httpsPort
  }

  /** The SSL addresses beside the plain listens. */
  function Derived(body: seq<Node>, httpPort: string, httpsPort: string): seq<string> {
    if body == [] then []
    else
      (if OnPort(body[0], httpPort) then [SslAddress(AddressOf(body[0]).host, httpsPort)] else []) +
      Derived(body[1..], httpPort, httpsPort)
  }

  function SslListen(indent: string, addr: string, fallback: bool): Node {
    Added(indent, "listen", [addr, "ssl"] + if fallback && HasPrefix(addr, "[") then ["ipv6only=on"] else [])
  }

  function SslListens(indent: string, addrs: seq<string>, fallback: bool): (r: seq<Node>)
    ensures |r| == |addrs| && forall i :: 0 <= i < |r| ==> r[i] == SslListen(indent, addrs[i], fallback)
  {
    seq(|addrs|, i requires 0 <= i < |addrs| => SslListen(indent, addrs[i], fallback))
  }

  function WithListen(body: seq<Node>, indent: string, httpPort: string): seq<Node> {
    if First(body, "listen") < |body| then body else body + [Added(indent, "listen", [httpPort])]
  }

  function Fallback(httpsPort: string): seq<string> {
    ["[::]:" + httpsPort, httpsPort]
  }

  function AddListenSSL(body: seq<Node>, indent: string, httpPort: string, httpsPort: string): seq<Node> {
    var b := WithListen(body, indent, httpPort);
    if AnyOnPort(b, httpsPort) then PromoteAll(b, httpsPort)
    else
      var addrs := Derived(b, httpPort, httpsPort);
      b + SslListens(indent, if addrs == [] then Fallback(httpsPort) else addrs, addrs == [])
  }

  /** The port as text; a port that is not positive means the default. */
  function PortText(port: int, default: nat): string {
    Itoa(if port <= 0 then default else port)
  }

  function InsertSSL(body: seq<Node>, fullchain: string, privkey: string, httpPort: int, httpsPort: int): seq<Node> {
    var indent := ChildIndent(body);
    var b1 := SetOrAppend(body, indent, "ssl_certificate", fullchain);
    var b2 := SetOrAppend(b1, indent, "ssl_certificate_key", privkey);
    AddListenSSL(b2, indent, PortText(httpPort, 80), PortText(httpsPort, 443))
  }

  // ----- The edits -----

  class ServerBlock {
    var body: seq<Node>

    method SetOrAppendDirective(indent: string, name: string, arg: string)
      modifies this
      ensures body == SetOrAppend(old(body), indent, name, arg)
    {
      for i := 0 to |body|
        invariant unchanged(this) && First(body, name) >= i
      {
        var d := body[i];
        if d.Directive? && d.name == name {
          body := body[i := WithArgs(d, [arg])];
          return;
        }
      }
      body := body + [Added(indent, name, [arg])];
    }

    method HasListen() returns (r: bool)
      ensures r == (First(body, "listen") < |body|)
    {
      for i := 0 to |body|
        invariant First(body, "listen") >= i
      {
        if body[i].Directive? && body[i].name == "listen" { return true; }
      }
      return false;
    }

    /** The first pass: every listen on the HTTPS port gets the `ssl` flag. */
    method PromoteListens(httpsPort: string) returns (found: bool)
      modifies this
      ensures body == PromoteAll(old(body), httpsPort) && found == AnyOnPort(old(body), httpsPort)
    {
      found := false;
      for i := 0 to |body|
        invariant |body| == |old(body)|
        invariant forall j :: 0 <= j < i ==> body[j] == Promote(old(body)[j], httpsPort)
        invariant forall j :: i <= j < |body| ==> body[j] == old(body)[j]
        invariant found == AnyOnPort(old(body)[..i], httpsPort)
      {
        assert old(body)[..i + 1] == old(body)[..i] + [old(body)[i]];
        var d := body[i];
        if OnPort(d, httpsPort) {
          found := true;
          if !ContainsArg(d.args, "ssl") { body := body[i := WithArgs(d, d.args + ["ssl"])]; }
        }
      }
      assert old(body)[..|old(body)|] == old(body);
    }

    /** The second pass: the addresses for the new listens. */
    method DeriveAddresses(httpPort: string, httpsPort: string) returns (addrs: seq<string>)
      ensures addrs == Derived(body, httpPort, httpsPort)
    {
      addrs := [];
      for i := 0 to |body|
        invariant addrs + Derived(body[i..], httpPort, httpsPort) == Derived(body, httpPort, httpsPort)
      {
        assert body[i..][1..] == body[i + 1..];
        var a := AddressOf(body[i]);
        var more := if a.Address? && a.port == httpPort then [SslAddress(a.host, httpsPort)] else [];
        Assoc(addrs, more, Derived(body[i + 1..], httpPort, httpsPort));
        addrs := addrs + more;
      }
      assert body[|body|..] == [];
    }

    /** The loop that appends the new listens. */
    method Append(ghost all: seq<Node>, indent: string, addrs: seq<string>, fallback: bool)
      requires all == SslListens(indent, addrs, fallback)
      modifies this
      ensures body == old(body) + all
    {
      for i := 0 to |addrs|
        invariant body == old(body) + all[..i]
      {
        assert all[..i + 1] == all[..i] + [all[i]];
        body := body + [SslListen(indent, addrs[i], fallback)];
      }
      assert all[..|addrs|] == all;
    }

    method AddListens(indent: string, httpPort: string, httpsPort: string)
      modifies this
      ensures body == AddListenSSL(old(body), indent, httpPort, httpsPort)
    {
      var hasListen := HasListen();
      if !hasListen { body := body + [Added(indent, "listen", [httpPort])]; }
      ghost var b := body;
      var found := PromoteListens(httpsPort);
      if found { return; }
      NothingPromoted(b, httpsPort);
      var addrs := DeriveAddresses(httpPort, httpsPort);
      var fallback := addrs == [];
      if fallback { addrs := Fallback(httpsPort); }
      ghost var all := SslListens(indent, addrs, fallback);
      Append(all, indent, addrs, fallback);
    }

    method InsertSSLDirectives(fullchain: string, privkey: string, httpPort: int, httpsPort: int)
      modifies this
      ensures body == InsertSSL(old(body), fullchain, privkey, httpPort, httpsPort)
    {
      var indent := ChildIndent(body);
      SetOrAppendDirective(indent, "ssl_certificate", fullchain);
      SetOrAppendDirective(indent, "ssl_certificate_key", privkey);
      AddListens(indent, PortText(httpPort, 80), PortText(httpsPort, 443));
    }
  }

  lemma NothingPromoted(body: seq<Node>, httpsPort: string)
    requires !AnyOnPort(body, httpsPort)
    ensures PromoteAll(body, httpsPort) == body
  {
    forall i | 0 <= i < |body| ensures Promote(body[i], httpsPort) == body[i] {
      assert body[i] in body;
    }
  }

  // ----- Addresses -----

  predicate Port(s: string) {
    s != "" && AllDigits(s)
  }

  lemma {:induction false} BracketIndexKept(v: string, r: string)
    requires BracketIndex(v) >= 0
    ensures BracketIndex(v[..BracketIndex(v) + 1] + ":" + r) == BracketIndex(v)
  {
    var i := BracketIndex(v);
    var t := v[..i + 1] + ":" + r;
    if i > 0 {
      BracketIndexKept(v[1..], r);
      assert t[1..] == v[1..][..i] + ":" + r;
      assert t[0] == v[0] && t[1] == v[1];
    }
  }

  lemma {:induction false} LastColonAt(host: string, port: string)
    requires AllDigits(port)
    ensures LastColon(host + ":" + port) == |host|
  {
    var t := host + ":" + port;
    assert t[|host|] == ':' && forall j :: |host| < j < |t| ==> IsDigit(t[j]);
  }

  lemma {:induction false} TrimmedEnds(s: string)
    ensures var t := TrimQuotes(s); t != "" ==> !IsQuote(t[0]) && !IsQuote(t[|t| - 1])
    decreases |s|
  {
    if s != "" {
      if IsQuote(s[0]) { TrimmedEnds(s[1..]); }
      else if IsQuote(s[|s| - 1]) { TrimmedEnds(s[..|s| - 1]); }
    }
  }

  lemma BracketedReadBack(v: string, httpsPort: string)
    requires HasPrefix(v, "[") && SplitListenAddr(v).Address? && Port(httpsPort)
    ensures var host := SplitListenAddr(v).host;
      host != "" && SplitListenAddr(host + ":" + httpsPort) == Address(host, httpsPort)
  {
    var i := BracketIndex(v);
    var t := v[..i + 1] + ":" + httpsPort;
    BracketIndexKept(v, httpsPort);
    assert t[0] == v[0] == '[' && t[..i + 1] == v[..i + 1] && t[i + 2..] == httpsPort;
  }

  lemma PlainReadBack(v: string, port: string, httpsPort: string)
    requires !HasPrefix(v, "[") && SplitListenAddr(v).Address? && SplitListenAddr(v).host != ""
    requires SplitListenAddr(v).port == port && port != "" && Port(httpsPort)
    ensures var host := SplitListenAddr(v).host;
      SplitListenAddr(host + ":" + httpsPort) == Address(host, httpsPort)
  {
    var host := SplitListenAddr(v).host;
    var t := host + ":" + httpsPort;
    assert v == host + ":" + port;
    NotUnix(host, port, httpsPort);
    LastColonAt(host, httpsPort);
    assert t[0] == v[0] && t[..|host|] == host && t[|host| + 1..] == httpsPort;
  }

  /** The SSL address of a host that was read from a plain listen is read back as that host. */
  lemma SslAddressReadBack(v: string, port: string, httpsPort: string)
    requires v == "" || !IsQuote(v[0])
    requires SplitListenAddr(v).Address? && SplitListenAddr(v).port == port && port != "" && Port(httpsPort)
    ensures var host := SplitListenAddr(v).host;
      SplitListenAddr(TrimQuotes(SslAddress(host, httpsPort))) == Address(host, httpsPort)
  {
    var host := SplitListenAddr(v).host;
    var t := SslAddress(host, httpsPort);
    assert IsDigit(t[|t| - 1]);
    if host == "" {
      NoColonInDigits(httpsPort);
    } else {
      assert t[0] == host[0] == v[0];
      assert TrimQuotes(t) == t;
      hide SplitListenAddr, TrimQuotes;
      if HasPrefix(v, "[") { BracketedReadBack(v, httpsPort); } else { PlainReadBack(v, port, httpsPort); }
    }
  }

  lemma NoColonInDigits(s: string)
    requires Port(s)
    ensures LastColon(s) == -1 && SplitListenAddr(s) == Address("", s) && TrimQuotes(s) == s
  {
    assert IsDigit(s[0]) && IsDigit(s[|s| - 1]);
  }

  lemma NotUnix(host: string, port: string, httpsPort: string)
    requires !HasPrefix(host + ":" + port, "unix:")
    ensures !HasPrefix(host + ":" + httpsPort, "unix:")
  {
    var s, t := host + ":" + port, host + ":" + httpsPort;
    assert s[|host|] == t[|host|] == ':';
    assert |host| >= 4 ==> s[..5] == t[..5];
  }

  // ----- What the edit guarantees -----

  lemma FirstFound(body: seq<Node>, name: string, i: nat)
    requires i < |body| && body[i].Directive? && body[i].name == name
    requires forall j :: 0 <= j < i ==> !(body[j].Directive? && body[j].name == name)
    ensures First(body, name) == i
  {
  }

  /** The first directive of that name has just this argument. */
  predicate IsSet(body: seq<Node>, name: string, arg: string) {
    var i := First(body, name);
    i < |body| && body[i].args == [arg]
  }

  lemma SetIsSet(body: seq<Node>, indent: string, name: string, arg: string)
    ensures IsSet(SetOrAppend(body, indent, name, arg), name, arg)
  {
    FirstFound(SetOrAppend(body, indent, name, arg), name, First(body, name));
  }

  lemma SetAgain(body: seq<Node>, indent: string, name: string, arg: string)
    requires IsSet(body, name, arg)
    ensures SetOrAppend(body, indent, name, arg) == body
  {
  }

  /** `later` has the directives called `name` of `body` in front, unchanged. */
  predicate Extends(body: seq<Node>, later: seq<Node>, name: string) {
    |body| <= |later| &&
    forall i :: 0 <= i < |body| ==>
      (body[i].Directive? && body[i].name == name ==> later[i] == body[i]) &&
      (!(body[i].Directive? && body[i].name == name) ==> !(later[i].Directive? && later[i].name == name))
  }

  lemma ExtendsKeepsSet(body: seq<Node>, later: seq<Node>, name: string, arg: string)
    requires IsSet(body, name, arg) && Extends(body, later, name)
    ensures IsSet(later, name, arg)
  {
    FirstFound(later, name, First(body, name));
  }

  lemma SetExtends(body: seq<Node>, indent: string, name: string, arg: string, other: string)
    requires name != other
    ensures Extends(body, SetOrAppend(body, indent, name, arg), other)
  {
  }

  lemma ListenExtends(body: seq<Node>, indent: string, httpPort: string, httpsPort: string, other: string)
    requires other != "listen"
    ensures Extends(body, AddListenSSL(body, indent, httpPort, httpsPort), other)
  {
  }

  /** Every listen on the HTTPS port has the `ssl` flag, and there is one. */
  predicate Secured(body: seq<Node>, httpsPort: string) {
    AnyOnPort(body, httpsPort) && forall n <- body :: OnPort(n, httpsPort) ==> ContainsArg(n.args, "ssl")
  }

  lemma SslFlag(args: seq<string>)
    ensures ContainsArg(args + ["ssl"], "ssl")
  {
    assert "ssl" in args + ["ssl"] && TrimQuotes("ssl") == "ssl";
  }

  lemma PromotedIsSecured(body: seq<Node>, httpsPort: string)
    requires AnyOnPort(body, httpsPort)
    ensures Secured(PromoteAll(body, httpsPort), httpsPort)
  {
    var r := PromoteAll(body, httpsPort);
    forall i | 0 <= i < |body|
      ensures OnPort(r[i], httpsPort) <==> OnPort(body[i], httpsPort)
      ensures OnPort(r[i], httpsPort) ==> ContainsArg(r[i].args, "ssl")
    {
      if r[i] != body[i] { SslFlag(body[i].args); }
    }
    var n :| n in body && OnPort(n, httpsPort);
    var k :| 0 <= k < |body| && body[k] == n;
    assert r[k] in r;
  }

  lemma SslListenOnPort(indent: string, addr: string, host: string, httpsPort: string, fallback: bool)
    requires SplitListenAddr(TrimQuotes(addr)) == Address(host, httpsPort)
    ensures var n := SslListen(indent, addr, fallback);
      AddressOf(n) == Address(host, httpsPort) && ContainsArg(n.args, "ssl")
  {
    var n := SslListen(indent, addr, fallback);
    assert n.args[0] == addr && n.args[1] == "ssl" && TrimQuotes("ssl") == "ssl";
    assert n.args[1] in n.args;
  }

  /** Each derived address belongs to a listen on the HTTP port and keeps its host. */
  lemma {:induction false} DerivedHosts(body: seq<Node>, httpPort: string, httpsPort: string)
    requires httpPort != "" && Port(httpsPort)
    ensures forall a <- Derived(body, httpPort, httpsPort) ::
      SplitListenAddr(TrimQuotes(a)).Address? && SplitListenAddr(TrimQuotes(a)).port == httpsPort
    ensures forall n <- body :: OnPort(n, httpPort) ==>
      exists a <- Derived(body, httpPort, httpsPort) :: SplitListenAddr(TrimQuotes(a)) == Address(AddressOf(n).host, httpsPort)
  {
    if body != [] {
      DerivedHosts(body[1..], httpPort, httpsPort);
      var rest := Derived(body[1..], httpPort, httpsPort);
      var all := Derived(body, httpPort, httpsPort);
      assert forall a <- rest :: a in all;
      if OnPort(body[0], httpPort) {
        var v := TrimQuotes(body[0].args[0]);
        TrimmedEnds(body[0].args[0]);
        SslAddressReadBack(v, httpPort, httpsPort);
        var a0 := SslAddress(AddressOf(body[0]).host, httpsPort);
        assert all == [a0] + rest && a0 in all;
        assert forall a <- all :: a == a0 || a in rest;
      } else {
        assert all == rest;
      }
    }
  }

  lemma FallbackHosts(httpsPort: string)
    requires Port(httpsPort)
    ensures SplitListenAddr(TrimQuotes("[::]:" + httpsPort)) == Address("[::]", httpsPort)
    ensures SplitListenAddr(TrimQuotes(httpsPort)) == Address("", httpsPort)
  {
    hide *;
    NoColonInDigits(httpsPort);
    GeneralBracket(httpsPort);
    GeneralEnds(httpsPort);
    NoQuotes("[::]:" + httpsPort);
    BracketAddress("[::]:" + httpsPort);
  }

  lemma GeneralEnds(httpsPort: string)
    requires Port(httpsPort)
    ensures var t := "[::]:" + httpsPort; t[0] == '[' && !IsQuote(t[0]) && !IsQuote(t[|t| - 1])
  {
    var t := "[::]:" + httpsPort;
    assert IsDigit(t[|t| - 1]);
  }

  lemma NoQuotes(s: string)
    requires s != "" && !IsQuote(s[0]) && !IsQuote(s[|s| - 1])
    ensures TrimQuotes(s) == s
  {
  }

  lemma BracketAddress(s: string)
    requires s != "" && s[0] == '[' && BracketIndex(s) >= 0
    ensures SplitListenAddr(s) == Address(s[..BracketIndex(s) + 1], s[BracketIndex(s) + 2..])
  {
    hide BracketIndex, LastColon;
    assert s[..1] == "[";
  }

  lemma GeneralBracket(httpsPort: string)
    ensures var t := "[::]:" + httpsPort; BracketIndex(t) == 3 && t[..4] == "[::]" && t[5..] == httpsPort
  {
    var t := "[::]:" + httpsPort;
    assert t[0] == '[' && t[1] == ':' && t[2] == ':' && t[3] == ']' && t[4] == ':';
    assert BracketIndex(t[3..]) == 0 && t[2..][1..] == t[3..] && t[1..][1..] == t[2..];
    assert BracketIndex(t[2..]) == 1;
    assert BracketIndex(t[1..]) == 2;
  }

  lemma NewListensSecured(body: seq<Node>, indent: string, httpPort: string, httpsPort: string)
    requires httpPort != "" && Port(httpsPort) && !AnyOnPort(WithListen(body, indent, httpPort), httpsPort)
    ensures Secured(AddListenSSL(body, indent, httpPort, httpsPort), httpsPort)
  {
    var b := WithListen(body, indent, httpPort);
    var derived := Derived(b, httpPort, httpsPort);
    var addrs := if derived == [] then Fallback(httpsPort) else derived;
    var new_ := SslListens(indent, addrs, derived == []);
    DerivedHosts(b, httpPort, httpsPort);
    FallbackHosts(httpsPort);
    forall i | 0 <= i < |new_| ensures OnPort(new_[i], httpsPort) && ContainsArg(new_[i].args, "ssl") {
      assert addrs[i] in addrs;
      SslListenOnPort(indent, addrs[i], SplitListenAddr(TrimQuotes(addrs[i])).host, httpsPort, derived == []);
    }
    AppendedSecured(b, new_, httpsPort);
  }

  lemma AppendedSecured(b: seq<Node>, more: seq<Node>, httpsPort: string)
    requires !AnyOnPort(b, httpsPort) && more != []
    requires forall i :: 0 <= i < |more| ==> OnPort(more[i], httpsPort) && ContainsArg(more[i].args, "ssl")
    ensures Secured(b + more, httpsPort)
  {
    hide ContainsArg;
    var r := b + more;
    assert r[|b|] == more[0] && more[0] in r;
    assert forall k :: 0 <= k < |b| ==> r[k] == b[k] && b[k] in b;
    assert forall k :: 0 <= k < |more| ==> r[|b| + k] == more[k];
    assert forall n <- r :: n in b || exists k :: 0 <= k < |more| && n == more[k];
  }

  lemma AddListenSecures(body: seq<Node>, indent: string, httpPort: string, httpsPort: string)
    requires httpPort != "" && Port(httpsPort)
    ensures Secured(AddListenSSL(body, indent, httpPort, httpsPort), httpsPort)
  {
    var b := WithListen(body, indent, httpPort);
    if AnyOnPort(b, httpsPort) { PromotedIsSecured(b, httpsPort); }
    else { NewListensSecured(body, indent, httpPort, httpsPort); }
  }

  lemma SecuredIsFixed(body: seq<Node>, indent: string, httpPort: string, httpsPort: string)
    requires Secured(body, httpsPort)
    ensures AddListenSSL(body, indent, httpPort, httpsPort) == body
  {
    var n :| n in body && OnPort(n, httpsPort);
    var k :| 0 <= k < |body| && body[k] == n;
    assert First(body, "listen") <= k;
    forall i | 0 <= i < |body| ensures Promote(body[i], httpsPort) == body[i] {
      assert body[i] in body;
    }
  }

  lemma InsertSets(body: seq<Node>, fullchain: string, privkey: string, httpPort: int, httpsPort: int)
    ensures var r := InsertSSL(body, fullchain, privkey, httpPort, httpsPort);
      IsSet(r, "ssl_certificate", fullchain) && IsSet(r, "ssl_certificate_key", privkey)
  {
    var indent, p, q := ChildIndent(body), PortText(httpPort, 80), PortText(httpsPort, 443);
    var b1 := SetOrAppend(body, indent, "ssl_certificate", fullchain);
    var b2 := SetOrAppend(b1, indent, "ssl_certificate_key", privkey);
    var once := AddListenSSL(b2, indent, p, q);
    var c, k := "ssl_certificate", "ssl_certificate_key";
    assert |c| != |k| && c != "listen" && k != "listen";
    hide AddListenSSL, SetOrAppend, ChildIndent, IsSet, Extends, PortText;
    SetIsSet(body, indent, c, fullchain);
    SetExtends(b1, indent, k, privkey, c);
    ExtendsKeepsSet(b1, b2, c, fullchain);
    SetIsSet(b1, indent, k, privkey);
    ListenExtends(b2, indent, p, q, c);
    ListenExtends(b2, indent, p, q, k);
    ExtendsKeepsSet(b2, once, c, fullchain);
    ExtendsKeepsSet(b2, once, k, privkey);
  }

  /** Inserting the SSL directives twice is inserting them once. */
  lemma InsertIsIdempotent(body: seq<Node>, fullchain: string, privkey: string, httpPort: int, httpsPort: int)
    ensures var once := InsertSSL(body, fullchain, privkey, httpPort, httpsPort);
      InsertSSL(once, fullchain, privkey, httpPort, httpsPort) == once
  {
    var once := InsertSSL(body, fullchain, privkey, httpPort, httpsPort);
    var indent, p, q := ChildIndent(body), PortText(httpPort, 80), PortText(httpsPort, 443);
    var b1 := SetOrAppend(body, indent, "ssl_certificate", fullchain);
    var b2 := SetOrAppend(b1, indent, "ssl_certificate_key", privkey);
    var indent2 := ChildIndent(once);
    hide AddListenSSL, SetOrAppend, ChildIndent, IsSet, PortText;
    InsertSets(body, fullchain, privkey, httpPort, httpsPort);
    SetAgain(once, indent2, "ssl_certificate", fullchain);
    SetAgain(once, indent2, "ssl_certificate_key", privkey);
    PortIsText(httpPort, 80);
    PortIsText(httpsPort, 443);
    AddListenSecures(b2, indent, p, q);
    SecuredIsFixed(once, indent2, p, q);
  }

  lemma PortIsText(port: int, default: nat)
    ensures Port(PortText(port, default))
  {
  }

  /** The result is an HTTPS server. */
  lemma InsertMakesHTTPS(body: seq<Node>, fullchain: string, privkey: string, httpPort: int, httpsPort: int)
    ensures ServerIsHTTPS(InsertSSL(body, fullchain, privkey, httpPort, httpsPort))
  {
    var indent, p, q := ChildIndent(body), PortText(httpPort, 80), PortText(httpsPort, 443);
    var b1 := SetOrAppend(body, indent, "ssl_certificate", fullchain);
    var b2 := SetOrAppend(b1, indent, "ssl_certificate_key", privkey);
    AddListenSecures(b2, indent, p, q);
    var r := AddListenSSL(b2, indent, p, q);
    var n :| n in r && OnPort(n, q);
    assert MakesHTTPS(n);
  }

  predicate IsCertificateLine(n: Node) {
    n.Directive? && (n.name == "ssl_certificate" || n.name == "ssl_certificate_key")
  }

  /** Nodes that are neither certificate lines nor listens on the HTTPS port stay where they are;
      in particular no listen on another port is changed. */
  lemma OthersUnchanged(body: seq<Node>, fullchain: string, privkey: string, httpPort: int, httpsPort: int, i: nat)
    requires i < |body| && !IsCertificateLine(body[i]) && !OnPort(body[i], PortText(httpsPort, 443))
    ensures var r := InsertSSL(body, fullchain, privkey, httpPort, httpsPort); i < |r| && r[i] == body[i]
  {
    var indent := ChildIndent(body);
    var b1 := SetOrAppend(body, indent, "ssl_certificate", fullchain);
    assert b1[i] == body[i];
    var b2 := SetOrAppend(b1, indent, "ssl_certificate_key", privkey);
    assert b2[i] == body[i];
    hide SetOrAppend, First, Derived, PortText, ChildIndent, AnyOnPort;
  }

  /** When no listen is on the HTTPS port yet, each listen on the HTTP port gains one for its host. */
  lemma HostsGainListens(body: seq<Node>, fullchain: string, privkey: string, httpPort: int, httpsPort: int, i: nat)
    requires i < |body| && OnPort(body[i], PortText(httpPort, 80)) && !AnyOnPort(body, PortText(httpsPort, 443))
    ensures var r := InsertSSL(body, fullchain, privkey, httpPort, httpsPort);
      exists n <- r :: AddressOf(n) == Address(AddressOf(body[i]).host, PortText(httpsPort, 443)) && ContainsArg(n.args, "ssl")
  {
    var indent, p, q := ChildIndent(body), PortText(httpPort, 80), PortText(httpsPort, 443);
    var b1 := SetOrAppend(body, indent, "ssl_certificate", fullchain);
    var b2 := SetOrAppend(b1, indent, "ssl_certificate_key", privkey);
    SetKeepsListens(body, indent, "ssl_certificate", fullchain, q);
    SetKeepsListens(b1, indent, "ssl_certificate_key", privkey, q);
    assert b2[i] == body[i] && b2[i] in b2;
    FirstAtMost(b2, "listen", i);
    hide SetOrAppend, First;
    assert WithListen(b2, indent, p) == b2;
    DerivedHosts(b2, p, q);
    var derived := Derived(b2, p, q);
    var a :| a in derived && SplitListenAddr(TrimQuotes(a)) == Address(AddressOf(b2[i]).host, q);
    var k :| 0 <= k < |derived| && derived[k] == a;
    SslListenOnPort(indent, a, AddressOf(b2[i]).host, q, false);
    var new_ := SslListens(indent, derived, false);
    assert new_[k] in b2 + new_;
  }

  lemma FirstAtMost(body: seq<Node>, name: string, i: nat)
    requires i < |body| && body[i].Directive? && body[i].name == name
    ensures First(body, name) <= i
  {
  }

  lemma SetKeepsListens(body: seq<Node>, indent: string, name: string, arg: string, port: string)
    requires name != "listen"
    ensures var r := SetOrAppend(body, indent, name, arg);
      |r| >= |body| && (forall i :: 0 <= i < |body| && IsListen(body[i]) ==> r[i] == body[i]) &&
      (AnyOnPort(r, port) ==> AnyOnPort(body, port))
  {
    var r := SetOrAppend(body, indent, name, arg);
    forall n <- r | OnPort(n, port) ensures n in body {
      var k :| 0 <= k < |r| && r[k] == n;
    }
  }

  // ----- Whether two equal listens are added -----

  predicate Distinct(s: seq<string>) {
    forall i, j :: 0 <= i < j < |s| ==> s[i] != s[j]
  }

  /** No two listens on the port have the same host. */
  predicate HostsDistinct(body: seq<Node>, port: string) {
    forall i, j :: 0 <= i < j < |body| && OnPort(body[i], port) && OnPort(body[j], port) ==>
      AddressOf(body[i]).host != AddressOf(body[j]).host
  }

  /** No listen on the port is written twice. */
  predicate NoTwins(body: seq<Node>, port: string) {
    forall i, j :: 0 <= i < j < |body| && OnPort(body[i], port) && OnPort(body[j], port) ==> body[i] != body[j]
  }

  lemma SslAddressInjective(host: string, other: string, port: string)
    requires SslAddress(host, port) == SslAddress(other, port)
    ensures host == other
  {
    if host != "" && other != "" {
      assert SslAddress(host, port)[..|host|] == host && SslAddress(other, port)[..|other|] == other;
    }
  }

  lemma {:induction false} DerivedFrom(body: seq<Node>, p: string, q: string, host: string)
    ensures SslAddress(host, q) in Derived(body, p, q) <==> HostAppears(body, p, host)
  {
    if body != [] {
      hide AddressOf, SslAddress;
      DerivedFrom(body[1..], p, q, host);
      var here := OnPort(body[0], p) && AddressOf(body[0]).host == host;
      if OnPort(body[0], p) && SslAddress(AddressOf(body[0]).host, q) == SslAddress(host, q) {
        SslAddressInjective(AddressOf(body[0]).host, host, q);
      }
      if i :| 0 <= i < |body| && OnPort(body[i], p) && AddressOf(body[i]).host == host {
        assert i > 0 ==> body[1..][i - 1] == body[i];
      }
    }
  }

  predicate HostAppears(body: seq<Node>, port: string, host: string) {
    exists i :: 0 <= i < |body| && OnPort(body[i], port) && AddressOf(body[i]).host == host
  }

  lemma HeadHosts(body: seq<Node>, p: string)
    requires body != []
    ensures HostsDistinct(body, p) <==>
      HostsDistinct(body[1..], p) && (OnPort(body[0], p) ==> !HostAppears(body[1..], p, AddressOf(body[0]).host))
  {
    hide AddressOf;
    var t := body[1..];
    assert forall i :: 0 <= i < |t| ==> t[i] == body[i + 1];
    if HostsDistinct(body, p) {
      assert forall i, j :: 0 <= i < j < |t| && OnPort(t[i], p) && OnPort(t[j], p) ==>
        OnPort(body[i + 1], p) && OnPort(body[j + 1], p);
    } else {
      var i, j :| 0 <= i < j < |body| && OnPort(body[i], p) && OnPort(body[j], p) &&
        AddressOf(body[i]).host == AddressOf(body[j]).host;
      assert t[j - 1] == body[j];
      if i > 0 { assert t[i - 1] == body[i]; }
    }
  }

  lemma HeadDistinct(a: string, rest: seq<string>)
    ensures Distinct([a] + rest) <==> a !in rest && Distinct(rest)
  {
    var s := [a] + rest;
    if Distinct(s) {
      forall i, j | 0 <= i < j < |rest| ensures rest[i] != rest[j] { assert s[i + 1] != s[j + 1]; }
      forall i | 0 <= i < |rest| ensures rest[i] != a { assert s[i + 1] != s[0]; }
    }
  }

  /** The derived addresses are distinct exactly when the plain hosts are. */
  lemma {:induction false} DerivedDistinct(body: seq<Node>, p: string, q: string)
    ensures Distinct(Derived(body, p, q)) <==> HostsDistinct(body, p)
  {
    if body != [] {
      hide AddressOf, SslAddress, HostsDistinct, HostAppears, Distinct;
      DerivedDistinct(body[1..], p, q);
      HeadHosts(body, p);
      var rest := Derived(body[1..], p, q);
      if OnPort(body[0], p) {
        DerivedFrom(body[1..], p, q, AddressOf(body[0]).host);
        HeadDistinct(SslAddress(AddressOf(body[0]).host, q), rest);
        assert Derived(body, p, q) == [SslAddress(AddressOf(body[0]).host, q)] + rest;
      } else {
        assert Derived(body, p, q) == rest;
      }
    }
  }

  /** The listens that are written for distinct addresses differ. */
  lemma ListensDistinct(b: seq<Node>, indent: string, addrs: seq<string>, fallback: bool, q: string)
    requires !AnyOnPort(b, q)
    requires forall n <- SslListens(indent, addrs, fallback) :: OnPort(n, q)
    ensures NoTwins(b + SslListens(indent, addrs, fallback), q) <==> Distinct(addrs)
  {
    hide OnPort;
    var more := SslListens(indent, addrs, fallback);
    var r := b + more;
    assert forall i :: 0 <= i < |b| ==> r[i] in b;
    assert forall i :: 0 <= i < |more| ==> r[|b| + i] == more[i] && more[i] in more && more[i].args[0] == addrs[i];
    if NoTwins(r, q) {
      forall i, j | 0 <= i < j < |addrs| ensures addrs[i] != addrs[j] {
        assert r[|b| + i] != r[|b| + j];
      }
    } else {
      var i, j :| 0 <= i < j < |r| && OnPort(r[i], q) && OnPort(r[j], q) && r[i] == r[j];
      assert i >= |b|;
      assert addrs[i - |b|] == addrs[j - |b|];
    }
  }

  lemma NewListensOnPort(b: seq<Node>, indent: string, p: string, q: string)
    requires p != "" && Port(q)
    ensures var derived := Derived(b, p, q);
      forall n <- SslListens(indent, if derived == [] then Fallback(q) else derived, derived == []) :: OnPort(n, q)
  {
    var derived := Derived(b, p, q);
    var addrs := if derived == [] then Fallback(q) else derived;
    DerivedHosts(b, p, q);
    FallbackHosts(q);
    forall i | 0 <= i < |addrs| ensures OnPort(SslListen(indent, addrs[i], derived == []), q) {
      assert addrs[i] in addrs;
      SslListenOnPort(indent, addrs[i], SplitListenAddr(TrimQuotes(addrs[i])).host, q, derived == []);
    }
  }

  /** Without a listen on the HTTPS port, the edit writes two equal listens exactly when two plain
      listens have one host. */
  lemma TwinsExactly(body: seq<Node>, indent: string, p: string, q: string)
    requires p != "" && Port(q) && !AnyOnPort(WithListen(body, indent, p), q)
    ensures NoTwins(AddListenSSL(body, indent, p, q), q) <==> HostsDistinct(WithListen(body, indent, p), p)
  {
    var b := WithListen(body, indent, p);
    var derived := Derived(b, p, q);
    var addrs := if derived == [] then Fallback(q) else derived;
    NewListensOnPort(b, indent, p, q);
    ListensDistinct(b, indent, addrs, derived == [], q);
    DerivedDistinct(b, p, q);
    assert Distinct(Fallback(q)) by { assert |Fallback(q)[0]| != |Fallback(q)[1]|; }
  }

  predicate SameListens(body: seq<Node>, later: seq<Node>) {
    |body| <= |later| &&
    (forall i :: 0 <= i < |body| ==> (IsListen(body[i]) || IsListen(later[i]) ==> body[i] == later[i])) &&
    (forall i :: |body| <= i < |later| ==> !IsListen(later[i]))
  }

  lemma SameListensKeep(body: seq<Node>, later: seq<Node>, port: string)
    requires SameListens(body, later)
    ensures HostsDistinct(body, port) <==> HostsDistinct(later, port)
    ensures AnyOnPort(body, port) <==> AnyOnPort(later, port)
  {
    hide SplitListenAddr, TrimQuotes;
    assert forall i :: 0 <= i < |body| ==> OnPort(body[i], port) == OnPort(later[i], port);
    if n :| n in body && OnPort(n, port) {
      var k :| 0 <= k < |body| && body[k] == n;
      assert later[k] in later;
    }
    if n :| n in later && OnPort(n, port) {
      var k :| 0 <= k < |later| && later[k] == n;
      assert body[k] in body;
    }
    if !HostsDistinct(body, port) {
      var i, j :| 0 <= i < j < |body| && OnPort(body[i], port) && OnPort(body[j], port) &&
        AddressOf(body[i]).host == AddressOf(body[j]).host;
      assert later[i] == body[i] && later[j] == body[j];
    }
  }

  lemma SetSameListens(body: seq<Node>, indent: string, name: string, arg: string)
    requires name != "listen"
    ensures SameListens(body, SetOrAppend(body, indent, name, arg))
  {
  }

  /** A block with a listen on no HTTPS port: the whole edit leaves two equal listens on that port
      exactly when two of its plain listens have one host. */
  lemma NoTwinListensExactly(body: seq<Node>, fullchain: string, privkey: string, httpPort: int, httpsPort: int)
    requires !AnyOnPort(body, PortText(httpsPort, 443))
    ensures NoTwins(InsertSSL(body, fullchain, privkey, httpPort, httpsPort), PortText(httpsPort, 443)) <==>
      HostsDistinct(body, PortText(httpPort, 80))
  {
    var indent, p, q := ChildIndent(body), PortText(httpPort, 80), PortText(httpsPort, 443);
    var b1 := SetOrAppend(body, indent, "ssl_certificate", fullchain);
    var b2 := SetOrAppend(b1, indent, "ssl_certificate_key", privkey);
    SetSameListens(body, indent, "ssl_certificate", fullchain);
    SetSameListens(b1, indent, "ssl_certificate_key", privkey);
    hide SetOrAppend, SameListens, PortText, HostsDistinct, NoTwins, AnyOnPort;
    SameListensKeep(body, b1, q);
    SameListensKeep(b1, b2, q);
    SameListensKeep(body, b1, p);
    SameListensKeep(b1, b2, p);
    ListenEdit(b2, indent, p, q);
  }

  lemma ListenEdit(b2: seq<Node>, indent: string, p: string, q: string)
    requires Port(p) && Port(q) && !AnyOnPort(b2, q)
    ensures NoTwins(AddListenSSL(b2, indent, p, q), q) <==> HostsDistinct(b2, p)
  {
    var b := WithListen(b2, indent, p);
    if b == b2 {
      TwinsExactly(b2, indent, p, q);
    } else {
      FreshListen(b2, indent, p, q);
    }
  }

  lemma NoListens(body: seq<Node>, port: string)
    requires First(body, "listen") == |body|
    ensures !AnyOnPort(body, port) && HostsDistinct(body, port) && NoTwins(body, port)
  {
  }

  lemma OneListen(body: seq<Node>, l: Node, port: string)
    requires !AnyOnPort(body, port)
    ensures HostsDistinct(body + [l], port) && NoTwins(body + [l], port)
    ensures AnyOnPort(body + [l], port) <==> OnPort(l, port)
  {
    hide OnPort, AddressOf;
    var b := body + [l];
    assert forall i :: 0 <= i < |body| ==> b[i] == body[i] && body[i] in body;
    assert l in b && forall n <- b :: n in body || n == l;
  }

  lemma OnlyListenPromoted(body: seq<Node>, l: Node, q: string)
    requires !AnyOnPort(body, q)
    ensures NoTwins(PromoteAll(body + [l], q), q)
  {
    hide OnPort, AddressOf, ContainsArg, NoTwins;
    OneListen(body, Promote(l, q), q);
    NothingPromoted(body, q);
    assert PromoteAll(body + [l], q) == PromoteAll(body, q) + [Promote(l, q)];
  }

  lemma AddedOnPort(indent: string, p: string)
    requires Port(p)
    ensures AddressOf(Added(indent, "listen", [p])) == Address("", p)
  {
    NoColonInDigits(p);
  }

  /** A block without listens gets one on the HTTP port first. */
  lemma FreshListen(b2: seq<Node>, indent: string, p: string, q: string)
    requires Port(p) && Port(q) && First(b2, "listen") == |b2|
    ensures NoTwins(AddListenSSL(b2, indent, p, q), q) && HostsDistinct(b2, p)
  {
    var l := Added(indent, "listen", [p]);
    hide AddressOf, NoTwins, HostsDistinct, AnyOnPort, PromoteAll, Derived;
    AddedOnPort(indent, p);
    NoListens(b2, p);
    NoListens(b2, q);
    OneListen(b2, l, p);
    OneListen(b2, l, q);
    if p == q { OnlyListenPromoted(b2, l, q); } else { TwinsExactly(b2, indent, p, q); }
  }
}
