/** What listen addresses and server names mean, form by form
    (`internal/plugins/nginx/configurator.go`). */
module NginxNames {
  import opened Common
  import opened Text
  import opened Decimal
  import opened NginxLexer
  import opened NginxAst
  import opened NginxChallenge
  import opened NginxListen
  import opened NginxServers
  import opened NginxHits

  // ----- Quotes around an argument -----

  predicate AllQuotes(s: string) {
    forall i :: 0 <= i < |s| ==> IsQuote(s[i])
  }

  /** All quotes at both ends go, and nothing else. */
  lemma {:induction false} TrimQuotesExactly(a: string, x: string, b: string)
    requires AllQuotes(a) && AllQuotes(b) && (x == "" || (!IsQuote(x[0]) && !IsQuote(x[|x| - 1])))
    ensures TrimQuotes(a + x + b) == x
    decreases |a| + |b|
  {
    var s := a + x + b;
    if a != "" {
      assert s[1..] == a[1..] + x + b && s[0] == a[0];
      TrimQuotesExactly(a[1..], x, b);
    } else if b != "" {
      var n := |b| - 1;
      if x == "" {
        assert s == b && s[1..] == "" + "" + b[1..];
        TrimQuotesExactly("", "", b[1..]);
      } else {
        assert s[..|s| - 1] == a + x + b[..n] && s[|s| - 1] == b[n] && s[0] == x[0];
        TrimQuotesExactly(a, x, b[..n]);
      }
    } else {
      assert s == x;
    }
  }

  // ----- Listen addresses -----

  /** The forms of a listen address: the path of a socket, a bracketed address with a port or
      without one, a host with a port, a port alone, a host alone. */
  datatype Form = Socket(path: string) | Bracketed(host: string, port: string) | Bracket(text: string)
                | HostPort(host: string, port: string) | PortOnly(port: string) | HostOnly(host: string)

  function Written(f: Form): string {
    match f
    case Socket(path) => "unix:" + path
    case Bracketed(host, port) => "[" + host + "]:" + port
    case Bracket(text) => "[" + text
    case HostPort(host, port) => host + ":" + port
    case PortOnly(port) => port
    case HostOnly(host) => host
  }

  predicate NoBracketColon(s: string) {
    forall i :: 0 <= i < |s| - 1 ==> !(s[i] == ']' && s[i + 1] == ':')
  }

  /** The text has just this form. */
  predicate Proper(f: Form) {
    match f
    case Socket(path) => true
    case Bracketed(host, port) => NoBracketColon(host + "]")
    case Bracket(text) => NoBracketColon(text)
    case HostPort(host, port) => ':' !in port && !HasPrefix(Written(f), "unix:") && !HasPrefix(Written(f), "[")
    case PortOnly(port) => port != "" && AllDigits(port)
    case HostOnly(host) => ':' !in host && !HasPrefix(host, "[") && !(host != "" && AllDigits(host))
  }

  /** `splitListenAddr` on every form. */
  lemma SplitExactly(f: Form)
    requires Proper(f)
    ensures SplitListenAddr(Written(f)) ==
      match f
      case Socket(_) => Skipped
      case Bracketed(host, port) => Address("[" + host + "]", port)
      case Bracket(_) => Skipped
      case HostPort(host, port) => Address(host, port)
      case PortOnly(port) => Address("", port)
      case HostOnly(host) => Address(host, "")
  {
    var v := Written(f);
    match f
    case Socket(path) => assert v[..5] == "unix:";
    case Bracketed(host, port) => BracketedSplit(host, port);
    case Bracket(text) =>
      assert v[..1] == "[" && v[0] == '[' && v[1..] == text;
      NoPairBehind(text);
      BracketMissing(v);
    case HostPort(host, port) => ColonAt(host, port);
    case PortOnly(port) => DigitsOnly(port);
    case HostOnly(host) => NoColon(host);
  }

  lemma NoPairBehind(s: string)
    requires NoBracketColon(s)
    ensures NoBracketColon("[" + s)
  {
    var v := "[" + s;
    forall i | 0 <= i < |v| - 1 ensures !(v[i] == ']' && v[i + 1] == ':') {
      if i > 0 { assert v[i] == s[i - 1] && v[i + 1] == s[i]; }
    }
  }

  lemma BracketedSplit(host: string, port: string)
    requires NoBracketColon(host + "]")
    ensures SplitListenAddr("[" + host + "]:" + port) == Address("[" + host + "]", port)
  {
    var v := "[" + host + "]:" + port;
    var h := "[" + host;
    NoPairBehind(host + "]");
    assert h + "]" == "[" + (host + "]");
    BracketFound(h, port);
    assert v == h + "]:" + port && v[..1] == "[" && v[0] != 'u';
    hide BracketIndex, NoBracketColon;
  }

  /** The first `]:` is found. */
  lemma BracketFound(a: string, r: string)
    requires NoBracketColon(a + "]")
    ensures var v := a + "]:" + r; BracketIndex(v) == |a| && v[..|a| + 1] == a + "]" && v[|a| + 2..] == r
  {
    var v, i := a + "]:" + r, BracketIndex(a + "]:" + r);
    FirstBracket(v);
    hide BracketIndex;
    var w := a + "]";
    assert v[|a|] == ']' && v[|a| + 1] == ':' && v[..|a| + 1] == w;
    assert forall k :: 0 <= k < |w| ==> w[k] == v[k];
  }

  lemma BracketMissing(v: string)
    requires NoBracketColon(v)
    ensures BracketIndex(v) == -1
  {
  }

  lemma ColonAt(host: string, port: string)
    requires ':' !in port
    ensures var v := host + ":" + port; LastColon(v) == |host| && v[..|host|] == host && v[|host| + 1..] == port
  {
    var v := host + ":" + port;
    assert v[|host|] == ':' && forall j :: |host| < j < |v| ==> v[j] == port[j - |host| - 1];
  }

  lemma DigitsOnly(port: string)
    requires port != "" && AllDigits(port)
    ensures LastColon(port) == -1 && !HasPrefix(port, "unix:") && !HasPrefix(port, "[")
  {
    assert IsDigit(port[0]);
  }

  lemma NoColon(host: string)
    requires ':' !in host
    ensures LastColon(host) == -1 && !HasPrefix(host, "unix:")
  {
    assert "unix:"[4] == ':';
    assert |host| >= 5 ==> host[..5][4] == host[4] && host[4] in host;
  }

  /** Every text has one of these forms. */
  lemma FormOf(v: string) returns (f: Form)
    ensures Proper(f) && Written(f) == v
  {
    if HasPrefix(v, "unix:") {
      f := Socket(v[5..]);
    } else if HasPrefix(v, "[") {
      f := BracketForm(v);
    } else if LastColon(v) >= 0 {
      var i := LastColon(v);
      f := HostPort(v[..i], v[i + 1..]);
      assert v == v[..i] + ":" + v[i + 1..];
    } else if v != "" && AllDigits(v) {
      f := PortOnly(v);
    } else {
      f := HostOnly(v);
    }
  }

  lemma BracketForm(v: string) returns (f: Form)
    requires HasPrefix(v, "[")
    ensures Proper(f) && Written(f) == v
  {
    var i := BracketIndex(v);
    FirstBracket(v);
    assert v[0] == '[' && v == "[" + v[1..];
    hide BracketIndex;
    if i < 0 {
      f := Bracket(v[1..]);
      PairsInside(v, |v|);
      assert v[1..|v|] == v[1..];
    } else {
      f := Bracketed(v[1..i], v[i + 2..]);
      PairsInside(v[..i + 1], i + 1);
      assert v[1..i] + "]" == v[..i + 1][1..];
      assert v == "[" + v[1..i] + "]:" + v[i + 2..];
    }
  }

  lemma PairsInside(s: string, n: nat)
    requires NoBracketColon(s) && 1 <= n == |s|
    ensures NoBracketColon(s[1..])
  {
    assert forall i :: 0 <= i < n - 1 ==> s[1..][i] == s[i + 1];
  }

  lemma {:induction false} FirstBracket(v: string)
    ensures var i := BracketIndex(v); NoBracketColon(if i < 0 then v else v[..i + 1])
  {
    if |v| >= 2 && !(v[0] == ']' && v[1] == ':') {
      FirstBracket(v[1..]);
      var i := BracketIndex(v);
      if i > 0 { assert v[..i + 1][1..] == v[1..][..i]; }
    }
  }

  /** The port of an address; the path of a socket and an address without a port behind its bracket
      have none, and a host alone has the empty one. */
  function PortOf(f: Form): Option<string> {
    match f
    case Bracketed(_, port) => Some(port)
    case HostPort(_, port) => Some(port)
    case PortOnly(port) => Some(port)
    case HostOnly(_) => Some("")
    case _ => None
  }

  /** A listen directive is on a port when its address says so; a host alone is on port 80. */
  lemma ListensExactly(n: Node, f: Form, port: string)
    requires n.Directive? && n.name == "listen" && n.args != [] && Proper(f) && TrimQuotes(n.args[0]) == Written(f) && port != ""
    ensures ListensOn(n, port) <==> PortOf(f) == Some(port) || (PortOf(f) == Some("") && port == "80")
  {
    SplitExactly(f);
    hide SplitListenAddr, TrimQuotes;
  }

  /** A listen makes its server an HTTPS one with the `ssl` flag or on port 443. */
  lemma SecureListen(n: Node, f: Form)
    requires n.Directive? && n.name == "listen" && n.args != [] && Proper(f) && n.args[0] == Written(f)
    ensures MakesHTTPS(n) <==> ContainsArg(n.args, "ssl") || PortOf(f) == Some("443")
  {
    SplitExactly(f);
    hide SplitListenAddr, ContainsArg;
  }

  // ----- Server names -----

  predicate NamedAt(body: seq<Node>, i: int, j: int, name: string) {
    0 <= i < |body| && body[i].Directive? && body[i].name == "server_name" &&
    0 <= j < |body[i].args| && ToLower(TrimQuotes(body[i].args[j])) == name
  }

  /** Every argument of every `server_name` directive is a name, in lower case without quotes. */
  lemma {:induction false} ServerNamesExactly(body: seq<Node>, name: string)
    ensures name in ServerNames(body) <==>
      exists i, j :: NamedAt(body, i, j, name)
  {
    if body != [] {
      var d, rest := body[0], body[1..];
      ServerNamesExactly(rest, name);
      hide ToLower, TrimQuotes;
      var here := if d.Directive? && d.name == "server_name" then Cleaned(d.args) else [];
      assert ServerNames(body) == here + ServerNames(rest);
      if name in here {
        var j :| 0 <= j < |here| && here[j] == name;
        assert NamedAt(body, 0, j, name);
      }
      if name in ServerNames(rest) {
        var i, j :| NamedAt(rest, i, j, name);
        assert NamedAt(body, i + 1, j, name);
      }
      if i, j :| NamedAt(body, i, j, name) {
        if i == 0 { assert here[j] == name; } else { assert NamedAt(rest, i - 1, j, name); }
      }
    }
  }

  ghost predicate EndsWith(dom: string, suffix: string) {
    exists x: string :: dom == x + suffix
  }

  ghost predicate StartsWith(dom: string, prefix: string) {
    exists x: string :: dom == prefix + x
  }

  lemma SuffixExactly(dom: string, suffix: string)
    ensures HasSuffix(dom, suffix) <==> EndsWith(dom, suffix)
  {
    if HasSuffix(dom, suffix) {
      var n := |dom| - |suffix|;
      assert dom == dom[..n] + suffix;
    }
  }

  lemma PrefixExactly(dom: string, prefix: string)
    ensures HasPrefix(dom, prefix) <==> StartsWith(dom, prefix)
  {
    if HasPrefix(dom, prefix) { assert dom == prefix + dom[|prefix|..]; }
  }

  /** `*.b` covers what ends in `.b`, and `.b` covers `b` and what ends in `.b`. */
  ghost predicate LeadingCovers(name: string, dom: string) {
    (|name| >= 2 && name[0] == '*' && name[1] == '.' && EndsWith(dom, name[1..])) ||
    (name != "" && name[0] == '.' && (dom == name[1..] || EndsWith(dom, name)))
  }

  /** `b.*` covers what starts with `b.`. */
  ghost predicate TrailingCovers(name: string, dom: string) {
    |name| >= 2 && name[|name| - 2] == '.' && name[|name| - 1] == '*' && StartsWith(dom, name[..|name| - 1])
  }

  /** Which form of a name covers a domain: the name itself, else a leading wildcard, else a trailing
      one, else a regular expression. */
  lemma MatchExactly(rx: Regex, name: string, dom: string)
    ensures var m := MatchOf(rx, name, dom);
      (m == Exact <==> name != "" && name == dom) &&
      (m == Leading <==> name != dom && LeadingCovers(name, dom)) &&
      (m == Trailing <==> name != dom && !LeadingCovers(name, dom) && TrailingCovers(name, dom)) &&
      (m == ByRegex <==>
        name != "" && name != dom && !LeadingCovers(name, dom) && !TrailingCovers(name, dom) &&
        name[0] == '~' && RegexMatches(rx, name, dom))
  {
    hide EndsWith, StartsWith, RegexMatches;
    if name != "" {
      FirstTwo(name);
      LastTwo(name);
      SuffixExactly(dom, name[1..]);
      SuffixExactly(dom, name);
      PrefixExactly(dom, name[..|name| - 1]);
    }
  }

  lemma FirstTwo(name: string)
    requires name != ""
    ensures HasPrefix(name, ".") <==> name[0] == '.'
    ensures HasPrefix(name, "*.") <==> |name| >= 2 && name[0] == '*' && name[1] == '.'
  {
    assert name[..1] == [name[0]];
    if |name| >= 2 { assert name[..2] == [name[0], name[1]]; }
  }

  lemma LastTwo(name: string)
    ensures HasSuffix(name, ".*") <==> |name| >= 2 && name[|name| - 2] == '.' && name[|name| - 1] == '*'
  {
    if |name| >= 2 { assert name[|name| - 2..] == [name[|name| - 2], name[|name| - 1]]; }
  }

  /** The matcher of the walks looks at the start of the name first. */
  ghost predicate Covers(rx: Regex, name: string, dom: string) {
    name != "" &&
    (name == dom ||
     (name[0] == '~' && RegexMatches(rx, name, dom)) ||
     LeadingCovers(name, dom) ||
     (name[0] !in {'~', '.'} && !(|name| >= 2 && name[0] == '*' && name[1] == '.') && TrailingCovers(name, dom)))
  }

  lemma MatchesExactly(rx: Regex, name: string, want: set<string>)
    ensures NameMatchesAny(rx, name, want) <==> exists dom <- want :: Covers(rx, name, dom)
  {
    hide EndsWith, StartsWith, RegexMatches;
    if name != "" {
      FirstTwo(name);
      LastTwo(name);
      forall dom <- want
        ensures HasSuffix(dom, name[1..]) == EndsWith(dom, name[1..]) && HasSuffix(dom, name) == EndsWith(dom, name) &&
          HasPrefix(dom, name[..|name| - 1]) == StartsWith(dom, name[..|name| - 1])
      {
        SuffixExactly(dom, name[1..]);
        SuffixExactly(dom, name);
        PrefixExactly(dom, name[..|name| - 1]);
      }
    }
  }

  /** A star behind the tilde asks for any case of letters. */
  lemma RegexForms(e: string)
    ensures RegexOf("~*" + e) == "(?i)" + e
    ensures e == "" || e[0] != '*' ==> RegexOf("~" + e) == e
  {
    assert ("~*" + e)[2..] == e && ("~" + e)[1..] == e;
  }

  /** Of two servers with the same score the one with SSL ranks higher. */
  lemma SslBreaksTies(rx: Regex, a: Node, b: Node, dom: string)
    requires a.Block? && b.Block? && ServerScore(rx, a.body, dom) == ServerScore(rx, b.body, dom) > 0
    ensures FinalScore(rx, a, dom) > FinalScore(rx, b, dom) <==> ServerIsHTTPS(a.body) && !ServerIsHTTPS(b.body)
  {
    hide ServerScore, ServerIsHTTPS;
  }

  // ----- Indents -----

  /** The indent of a node is what stands behind the last line break before it. */
  lemma {:induction false} IndentExactly(a: string, b: string)
    requires '\n' !in b
    ensures LeadingIndent(a + "\n" + b) == b && LeadingIndent(b) == b
    decreases |b|
  {
    if b == "" {
      assert a + "\n" + "" == a + "\n";
    } else {
      var n := |b| - 1;
      var s := a + "\n" + b;
      IndentExactly(a, b[..n]);
      assert b[n] in b && b == b[..n] + [b[n]];
      assert s[..|s| - 1] == a + "\n" + b[..n];
    }
  }
}
