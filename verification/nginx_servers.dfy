/** Choosing the server block for a domain: the scoring and the matching of server names in
    `internal/plugins/nginx/configurator.go`. */
module NginxServers {
  import opened NginxAst
  import opened NginxChallenge
  import opened NginxListen
  import opened Text

  /** The regular expressions of the configuration are left to the caller. */
  datatype Regex = Regex(compiles: string -> bool, matches: (string, string) -> bool)

  function RegexOf(name: string): string
    requires name != "" && name[0] == '~'
  {
    if |name| > 1 && name[1] == '*' then "(?i)" + name[2..] else name[1..]
  }

  predicate RegexMatches(rx: Regex, name: string, dom: string)
    requires name != "" && name[0] == '~'
  {
    rx.compiles(RegexOf(name)) && rx.matches(RegexOf(name), dom)
  }

  // ----- The score -----

  datatype Match = NoMatch | Exact | Leading | Trailing | ByRegex

  /** Which form of a server name covers the domain, tried in the order of `nameMatchScore`. */
  function MatchOf(rx: Regex, name: string, dom: string): Match {
    if name == "" then NoMatch
    else if name == dom then Exact
    else if HasPrefix(name, "*.") && HasSuffix(dom, name[1..]) then Leading
    else if HasPrefix(name, ".") && (dom == name[1..] || HasSuffix(dom, name)) then Leading
    else if HasSuffix(name, ".*") && HasPrefix(dom, name[..|name| - 1]) then Trailing
    else if name[0] == '~' && RegexMatches(rx, name, dom) then ByRegex
    else NoMatch
  }

  function NameMatchScore(rx: Regex, name: string, dom: string): nat {
    match MatchOf(rx, name, dom)
    case NoMatch => 0
    case Exact => 1000 + |name|
    case Leading => 500 + |name|
    case Trailing => 400 + |name|
    case ByRegex => 100
  }

  /** All arguments of the `server_name` directives of a block, in lower case without quotes. */
  function ServerNames(body: seq<Node>): seq<string> {
    if body == [] then []
    else
      (if body[0].Directive? && body[0].name == "server_name" then Cleaned(body[0].args) else []) +
      ServerNames(body[1..])
  }

  function Cleaned(args: seq<string>): (r: seq<string>)
    ensures |r| == |args| && forall i :: 0 <= i < |r| ==> r[i] == ToLower(TrimQuotes(args[i]))
  {
    seq(|args|, i requires 0 <= i < |args| => ToLower(TrimQuotes(args[i])))
  }

  function Best(rx: Regex, names: seq<string>, dom: string): nat {
    if names == [] then 0
    else Max(NameMatchScore(rx, names[0], dom), Best(rx, names[1..], dom))
  }

  function Max(a: nat, b: nat): nat {
    if a > b then a else b
  }

  function ServerScore(rx: Regex, body: seq<Node>, dom: string): nat {
    Best(rx, ServerNames(body), dom)
  }

  /** The score with the bump that prefers servers with SSL among equals. */
  function FinalScore(rx: Regex, server: Node, dom: string): nat
    requires server.Block?
  {
    var s := ServerScore(rx, server.body, dom);
    if s == 0 then 0 else if ServerIsHTTPS(server.body) then s + 1 else s
  }

  lemma {:induction false} BestIsMax(rx: Regex, names: seq<string>, dom: string)
    ensures forall n <- names :: NameMatchScore(rx, n, dom) <= Best(rx, names, dom)
    ensures Best(rx, names, dom) > 0 ==>
      exists n <- names :: NameMatchScore(rx, n, dom) == Best(rx, names, dom)
  {
    if names != [] {
      BestIsMax(rx, names[1..], dom);
      if Best(rx, names, dom) == Best(rx, names[1..], dom) && Best(rx, names, dom) > 0 {
        var n :| n in names[1..] && NameMatchScore(rx, n, dom) == Best(rx, names[1..], dom);
        assert n in names;
      } else {
        assert names[0] in names;
      }
    }
  }

  lemma {:induction false} BestAppend(rx: Regex, a: seq<string>, b: seq<string>, dom: string)
    ensures Best(rx, a + b, dom) == Max(Best(rx, a, dom), Best(rx, b, dom))
  {
    if a == [] { assert a + b == b; }
    else {
      BestAppend(rx, a[1..], b, dom);
      assert (a + b)[1..] == a[1..] + b;
    }
  }

  method ServerNameScore(rx: Regex, body: seq<Node>, dom: string) returns (best: nat)
    ensures best == ServerScore(rx, body, dom)
  {
    best := 0;
    for i := 0 to |body|
      invariant Max(best, ServerScore(rx, body[i..], dom)) == ServerScore(rx, body, dom)
    {
      var d := body[i];
      assert body[i..][1..] == body[i + 1..];
      if !d.Directive? || d.name != "server_name" {
        assert ServerNames(body[i..]) == [] + ServerNames(body[i + 1..]) == ServerNames(body[i + 1..]);
        continue;
      }
      var names := Cleaned(d.args);
      BestAppend(rx, names, ServerNames(body[i + 1..]), dom);
      ghost var before := best;
      assert ServerNames(body[i..]) == names + ServerNames(body[i + 1..]);
      for j := 0 to |d.args|
        invariant Max(best, Best(rx, names[j..], dom)) == Max(before, Best(rx, names, dom))
      {
        var name := ToLower(TrimQuotes(d.args[j]));
        assert names[j..][0] == name && names[j..][1..] == names[j + 1..];
        var score := NameMatchScore(rx, name, dom);
        assert Best(rx, names[j..], dom) == Max(score, Best(rx, names[j + 1..], dom));
        if score > best { best := score; }
      }
      assert names[|names|..] == [];
    }
  }

  // ----- The matcher -----

  /** One server name against a set of wanted domains, as `serverMatchesAny` decides it. */
  predicate NameMatchesAny(rx: Regex, name: string, want: set<string>) {
    if name == "" then false
    else if name in want then true
    else if name[0] == '~' then exists w <- want :: RegexMatches(rx, name, w)
    else if HasPrefix(name, "*.") then exists w <- want :: HasSuffix(w, name[1..])
    else if HasPrefix(name, ".") then exists w <- want :: w == name[1..] || HasSuffix(w, name)
    else if HasSuffix(name, ".*") then exists w <- want :: HasPrefix(w, name[..|name| - 1])
    else false
  }

  predicate AnyMatches(rx: Regex, names: seq<string>, want: set<string>) {
    exists name <- names :: NameMatchesAny(rx, name, want)
  }

  predicate MatchesAny(rx: Regex, body: seq<Node>, want: set<string>) {
    AnyMatches(rx, ServerNames(body), want)
  }

  lemma AnyAppend(rx: Regex, a: seq<string>, b: seq<string>, want: set<string>)
    ensures AnyMatches(rx, a + b, want) <==> AnyMatches(rx, a, want) || AnyMatches(rx, b, want)
  {
    assert forall n :: n in a + b <==> n in a || n in b;
  }

  lemma AnyOne(rx: Regex, name: string, want: set<string>)
    ensures AnyMatches(rx, [name], want) <==> NameMatchesAny(rx, name, want)
  {
    assert name in [name];
    hide NameMatchesAny;
  }

  lemma AnyNone(rx: Regex, want: set<string>)
    ensures !AnyMatches(rx, [], want)
  {
  }

  lemma NamesFirst(body: seq<Node>, i: nat)
    requires i < |body|
    ensures var d, rest := body[i], ServerNames(body[i + 1..]);
      ServerNames(body[i..]) == if d.Directive? && d.name == "server_name" then Cleaned(d.args) + rest else rest
  {
    assert body[i..][1..] == body[i + 1..];
    assert [] + ServerNames(body[i + 1..]) == ServerNames(body[i + 1..]);
    hide Cleaned;
  }

  lemma NamesNone(body: seq<Node>)
    ensures ServerNames(body[|body|..]) == []
  {
  }

  /** The loop over the wanted names for a regular expression. */
  method AnyRegexMatch(rx: Regex, name: string, want: set<string>) returns (r: bool)
    requires name != "" && name[0] == '~'
    ensures r == exists w <- want :: RegexMatches(rx, name, w)
  {
    if !rx.compiles(RegexOf(name)) { return false; }
    var todo := want;
    while todo != {}
      invariant todo <= want && forall w <- want :: w !in todo ==> !RegexMatches(rx, name, w)
      decreases todo
    {
      var w :| w in todo;
      if rx.matches(RegexOf(name), w) { return true; }
      todo := todo - {w};
    }
    r := false;
  }

  /** The loop over the wanted names for a name that they may end with. */
  method AnyEndsWith(suffix: string, bare: string, want: set<string>) returns (r: bool)
    ensures r == exists w <- want :: w == bare || HasSuffix(w, suffix)
  {
    var todo := want;
    while todo != {}
      invariant todo <= want && forall w <- want :: w !in todo ==> w != bare && !HasSuffix(w, suffix)
      decreases todo
    {
      var w :| w in todo;
      if w == bare || HasSuffix(w, suffix) { return true; }
      todo := todo - {w};
    }
    r := false;
  }

  method AnyStartsWith(prefix: string, want: set<string>) returns (r: bool)
    ensures r == exists w <- want :: HasPrefix(w, prefix)
  {
    var todo := want;
    while todo != {}
      invariant todo <= want && forall w <- want :: w !in todo ==> !HasPrefix(w, prefix)
      decreases todo
    {
      var w :| w in todo;
      if HasPrefix(w, prefix) { return true; }
      todo := todo - {w};
    }
    r := false;
  }

  method MatchName(rx: Regex, name: string, want: set<string>) returns (r: bool)
    ensures r == NameMatchesAny(rx, name, want)
  {
    if name == "" { return false; }
    if name in want { return true; }
    if HasPrefix(name, "~") {
      r := AnyRegexMatch(rx, name, want);
    } else if HasPrefix(name, "*.") {
      r := AnyEndsWith(name[1..], name[1..], want);
    } else if HasPrefix(name, ".") {
      r := AnyEndsWith(name, name[1..], want);
    } else if HasSuffix(name, ".*") {
      r := AnyStartsWith(name[..|name| - 1], want);
    } else {
      r := false;
    }
  }

  method ServerMatchesAny(rx: Regex, body: seq<Node>, want: set<string>) returns (r: bool)
    ensures r == MatchesAny(rx, body, set w <- want :: ToLower(w))
  {
    hide AnyMatches, NameMatchesAny, ServerNames, ToLower, TrimQuotes, Cleaned;
    var lcWant := set w <- want :: ToLower(w);
    assert body[0..] == body;
    for i := 0 to |body|
      invariant MatchesAny(rx, body, lcWant) == MatchesAny(rx, body[i..], lcWant)
    {
      var d := body[i];
      NamesFirst(body, i);
      if !d.Directive? || d.name != "server_name" { continue; }
      ghost var names := Cleaned(d.args);
      AnyAppend(rx, names, ServerNames(body[i + 1..]), lcWant);
      assert names[0..] == names;
      for j := 0 to |d.args|
        invariant AnyMatches(rx, names[j..], lcWant) == AnyMatches(rx, names, lcWant)
      {
        var name := ToLower(TrimQuotes(d.args[j]));
        assert names[j..] == [name] + names[j + 1..];
        AnyAppend(rx, [name], names[j + 1..], lcWant);
        AnyOne(rx, name, lcWant);
        var found := MatchName(rx, name, lcWant);
        if found { return true; }
      }
      assert names[|names|..] == [];
      AnyNone(rx, lcWant);
    }
    NamesNone(body);
    AnyNone(rx, lcWant);
    r := false;
  }

  /** The trailing wildcard made of the domain up to a dot. */
  function UpToDot(dom: string, k: nat): string
    requires k < |dom|
  {
    dom[..k + 1] + "*"
  }

  /** A trailing wildcard that also starts like another form: the score looks at its end, the
      matcher decides by its start and does not find the domain there. */
  predicate Misread(name: string, dom: string) {
    name != dom &&
    (HasPrefix(name, "~") ||
     (HasPrefix(name, "*.") && !HasSuffix(dom, name[1..])) ||
     (HasPrefix(name, ".") && !HasSuffix(dom, name)))
  }

  /** Some server name covers the domain for one matcher and not for the other. */
  predicate Ambiguous(dom: string) {
    exists k :: 0 <= k < |dom| && dom[k] == '.' && Misread(UpToDot(dom, k), dom)
  }

  /** On a domain that does not itself end like a trailing wildcard, the start decides. */
  lemma AmbiguousStarts(dom: string)
    requires !HasSuffix(dom, ".*")
    ensures Ambiguous(dom) <==>
      HasPrefix(dom, ".") || HasPrefix(dom, "*.") || (HasPrefix(dom, "~") && '.' in dom)
  {
    forall k | 0 <= k < |dom| && dom[k] == '.' ensures UpToDot(dom, k) != dom {
      assert UpToDot(dom, k)[k..] == ".*";
    }
    if HasPrefix(dom, ".") {
      assert UpToDot(dom, 0) == ".*";
      assert Misread(UpToDot(dom, 0), dom);
    } else if HasPrefix(dom, "*.") {
      assert UpToDot(dom, 1) == "*.*" && "*.*"[1..] == ".*";
      assert Misread(UpToDot(dom, 1), dom);
    } else if HasPrefix(dom, "~") && '.' in dom {
      var k :| 0 <= k < |dom| && dom[k] == '.';
      assert Misread(UpToDot(dom, k), dom);
    }
  }

  /** Only a misread trailing wildcard scores for a wanted domain that the matcher does not find. */
  lemma ScoresUnmatched(rx: Regex, name: string, want: set<string>, dom: string)
    requires dom in want && !NameMatchesAny(rx, name, want) && MatchOf(rx, name, dom) != NoMatch
    ensures Ambiguous(dom)
  {
    var k := |name| - 2;
    assert MatchOf(rx, name, dom) == Trailing;
    assert name[..k + 1] == dom[..k + 1] && name[k..] == ".*";
    assert dom[k] == name[k] && UpToDot(dom, k) == name;
  }

  lemma NameMatchersAgree(rx: Regex, name: string, want: set<string>)
    requires forall w <- want :: !Ambiguous(w)
    ensures NameMatchesAny(rx, name, want) <==> exists w <- want :: MatchOf(rx, name, w) != NoMatch
  {
    if NameMatchesAny(rx, name, want) {
      if name in want { assert MatchOf(rx, name, name) == Exact; }
    } else {
      forall w <- want | MatchOf(rx, name, w) != NoMatch ensures Ambiguous(w) {
        ScoresUnmatched(rx, name, want, w);
      }
    }
  }

  /** The two hand-written matchers agree on every block and every set of such domains: a block
      matches the set exactly when it scores for one of them. */
  lemma MatchersAgree(rx: Regex, body: seq<Node>, want: set<string>)
    requires forall w <- want :: !Ambiguous(w)
    ensures MatchesAny(rx, body, want) <==> exists w <- want :: ServerScore(rx, body, w) > 0
  {
    var names := ServerNames(body);
    if MatchesAny(rx, body, want) {
      var name :| name in names && NameMatchesAny(rx, name, want);
      NameMatchersAgree(rx, name, want);
      var w :| w in want && MatchOf(rx, name, w) != NoMatch;
      BestIsMax(rx, names, w);
      assert NameMatchScore(rx, name, w) > 0;
    }
    forall w <- want | ServerScore(rx, body, w) > 0 ensures MatchesAny(rx, body, want) {
      BestIsMax(rx, names, w);
      var name :| name in names && NameMatchScore(rx, name, w) == Best(rx, names, w);
      NameMatchersAgree(rx, name, want);
    }
  }

  /** The matchers agree on one domain, whatever the block and the regular expressions. */
  ghost predicate AgreeOn(dom: string) {
    forall rx, body :: MatchesAny(rx, body, {dom}) <==> ServerScore(rx, body, dom) > 0
  }

  /** Both fold the domain to lower case first. On the folded domain they agree for every block
      exactly when it is not ambiguous. */
  lemma MatchersAgreeExactly(domain: string)
    ensures AgreeOn(ToLower(domain)) <==> !Ambiguous(ToLower(domain))
  {
    var dom := ToLower(domain);
    if Ambiguous(dom) {
      var k :| 0 <= k < |dom| && dom[k] == '.' && Misread(UpToDot(dom, k), dom);
      MisreadBlock(dom, k);
    } else {
      forall rx, body ensures MatchesAny(rx, body, {dom}) <==> ServerScore(rx, body, dom) > 0 {
        MatchersAgree(rx, body, {dom});
      }
    }
  }

  const NoRegex := Regex(_ => false, (_, _) => false)

  /** A misread name scores and is not matched, when no regular expression compiles. */
  lemma MisreadName(dom: string, k: nat)
    requires k < |dom| && dom[k] == '.' && Misread(UpToDot(dom, k), dom)
    ensures NameMatchScore(NoRegex, UpToDot(dom, k), dom) > 0
    ensures !NameMatchesAny(NoRegex, UpToDot(dom, k), {dom})
  {
    var name := UpToDot(dom, k);
    assert name[|name| - 2..] == ".*" && name[..|name| - 1] == dom[..k + 1];
    assert name[1..][k] == '*';
  }

  /** The block that lists just that name. */
  lemma MisreadBlock(dom: string, k: nat)
    requires dom == ToLower(dom) && k < |dom| && dom[k] == '.' && Misread(UpToDot(dom, k), dom)
    ensures !AgreeOn(dom)
  {
    var name := UpToDot(dom, k);
    MisreadName(dom, k);
    assert TrimQuotes(name) == name && ToLower(name) == name by { assert name[..1] == name[..2][..1]; }
    hide Misread, UpToDot, NameMatchScore, NameMatchesAny, ToLower, TrimQuotes;
    var body := [Directive("", "server_name", [name], [], true, "", [])];
    assert Cleaned(body[0].args) == [name] && body[1..] == [];
    assert ServerNames(body) == [name] + [] == [name];
    BestIsMax(NoRegex, [name], dom);
    assert name in [name] && ServerScore(NoRegex, body, dom) > 0;
    assert !MatchesAny(NoRegex, body, {dom});
  }

  // ----- Ranking -----

  /** An exact name beats every name of another form, whatever the lengths and the SSL bump. */
  lemma ExactNameWins(rx: Regex, exact: string, other: string, dom: string)
    requires MatchOf(rx, exact, dom) == Exact && MatchOf(rx, other, dom) != Exact
    ensures NameMatchScore(rx, exact, dom) > NameMatchScore(rx, other, dom) + 1
  {
  }

  /** So a server that lists the domain outranks one that covers it in any other way. */
  lemma ExactServerWins(rx: Regex, a: Node, b: Node, dom: string)
    requires a.Block? && b.Block? && dom != ""
    requires dom in ServerNames(a.body) && dom !in ServerNames(b.body)
    ensures FinalScore(rx, a, dom) > FinalScore(rx, b, dom)
  {
    assert MatchOf(rx, dom, dom) == Exact;
    assert forall n :: MatchOf(rx, n, dom) == Exact ==> n == dom;
    assert NameMatchScore(rx, dom, dom) > 0;
    hide MatchOf, NameMatchScore, ServerNames, Best, ServerIsHTTPS;
    BestIsMax(rx, ServerNames(a.body), dom);
    BestIsMax(rx, ServerNames(b.body), dom);
    if ServerScore(rx, b.body, dom) > 0 {
      var n :| n in ServerNames(b.body) && NameMatchScore(rx, n, dom) == ServerScore(rx, b.body, dom);
      ExactNameWins(rx, dom, n, dom);
    }
  }

  /** A leading wildcard beats a trailing one, even against the SSL bump, on every domain of at
      most 98 characters. */
  lemma LeadingBeatsTrailing(rx: Regex, lead: string, trail: string, dom: string)
    requires MatchOf(rx, lead, dom) == Leading && MatchOf(rx, trail, dom) == Trailing && |dom| <= 98
    ensures NameMatchScore(rx, lead, dom) > NameMatchScore(rx, trail, dom) + 1
  {
  }

  /** On domains of `n` characters every leading wildcard beats every trailing one and the bump. */
  ghost predicate LeadingWins(n: nat) {
    forall rx, lead, trail, dom ::
      |dom| == n && MatchOf(rx, lead, dom) == Leading && MatchOf(rx, trail, dom) == Trailing ==>
      NameMatchScore(rx, lead, dom) > NameMatchScore(rx, trail, dom) + 1
  }

  /** That is so exactly for the lengths up to 98. */
  lemma NinetyEightIsTheBound(n: nat)
    ensures LeadingWins(n) <==> n <= 98
  {
    if n <= 98 {
      forall rx, lead, trail, dom |
        |dom| == n && MatchOf(rx, lead, dom) == Leading && MatchOf(rx, trail, dom) == Trailing
        ensures NameMatchScore(rx, lead, dom) > NameMatchScore(rx, trail, dom) + 1
      {
        LeadingBeatsTrailing(rx, lead, trail, dom);
      }
    } else {
      LongTrailing(n);
    }
  }

  lemma LongTrailing(n: nat)
    requires n > 98
    ensures !LeadingWins(n)
  {
    var rx := Regex(_ => false, (_, _) => false);
    var dom := seq(n - 1, _ => 'a') + ".";
    var trail := dom + "*";
    assert dom[n - 1..] == "." && trail[n - 1..] == ".*" && trail[..n] == dom;
    assert dom[0] == 'a' && trail[0] == 'a';
    assert MatchOf(rx, ".", dom) == Leading && MatchOf(rx, trail, dom) == Trailing;
    assert NameMatchScore(rx, ".", dom) <= NameMatchScore(rx, trail, dom) + 1;
  }

  // ----- The best server for each domain -----

  datatype Choice = Nobody | Chosen(index: nat, score: nat)

  /** The first server with the highest score, if any matches. */
  function BestServer(rx: Regex, servers: seq<Node>, dom: string): (c: Choice)
    requires forall s <- servers :: s.Block?
    ensures c.Chosen? ==> c.index < |servers|
  {
    if servers == [] then Nobody
    else
      var last := |servers| - 1;
      var before := BestServer(rx, servers[..last], dom);
      var score := FinalScore(rx, servers[last], dom);
      if score > 0 && (before.Nobody? || score > before.score) then Chosen(last, score) else before
  }

  /** Nobody is chosen exactly when nobody matches; the chosen server matches, has the highest
      score, and is the first with it. */
  lemma {:induction false} BestServerIsBest(rx: Regex, servers: seq<Node>, dom: string)
    requires forall s <- servers :: s.Block?
    ensures match BestServer(rx, servers, dom)
      case Nobody => forall i :: 0 <= i < |servers| ==> FinalScore(rx, servers[i], dom) == 0
      case Chosen(k, score) =>
        score == FinalScore(rx, servers[k], dom) > 0 &&
        (forall i :: 0 <= i < |servers| ==> FinalScore(rx, servers[i], dom) <= score) &&
        (forall i :: 0 <= i < k ==> FinalScore(rx, servers[i], dom) < score)
  {
    hide FinalScore;
    if servers != [] {
      var last := |servers| - 1;
      BestServerIsBest(rx, servers[..last], dom);
      assert forall i :: 0 <= i < last ==> servers[..last][i] == servers[i];
    }
  }

  /** The servers chosen for the domains, in their order, each once. */
  function Selected(rx: Regex, servers: seq<Node>, domains: seq<string>): (out: seq<nat>)
    requires forall s <- servers :: s.Block?
    ensures forall i :: 0 <= i < |out| ==> out[i] < |servers|
  {
    if domains == [] then []
    else
      var before := Selected(rx, servers, domains[..|domains| - 1]);
      var c := BestServer(rx, servers, ToLower(domains[|domains| - 1]));
      if c.Chosen? && c.index !in before then before + [c.index] else before
  }

  /** Server `k` is the best server of one of the domains. */
  predicate BestOfSome(rx: Regex, servers: seq<Node>, domains: seq<string>, k: nat)
    requires forall s <- servers :: s.Block?
  {
    exists d <- domains :: BestServer(rx, servers, ToLower(d)).Chosen? && BestServer(rx, servers, ToLower(d)).index == k
  }

  /** The result has no duplicates, and consists of exactly the best servers of the domains that
      some server matches. */
  lemma {:induction false} SelectionIsBest(rx: Regex, servers: seq<Node>, domains: seq<string>, k: nat)
    requires forall s <- servers :: s.Block?
    ensures var out := Selected(rx, servers, domains);
      (forall i, j :: 0 <= i < j < |out| ==> out[i] != out[j]) &&
      (k in out <==> BestOfSome(rx, servers, domains, k))
  {
    hide BestServer, ToLower;
    if domains != [] {
      var last := |domains| - 1;
      SelectionIsBest(rx, servers, domains[..last], k);
      assert domains == domains[..last] + [domains[last]];
      assert forall d :: d in domains <==> d in domains[..last] || d == domains[last];
    }
  }

  lemma SelectedNone(rx: Regex, servers: seq<Node>)
    requires forall s <- servers :: s.Block?
    ensures Selected(rx, servers, []) == []
  {
  }

  lemma SelectedStep(rx: Regex, servers: seq<Node>, domains: seq<string>, i: nat)
    requires i < |domains| && forall s <- servers :: s.Block?
    ensures var before, c := Selected(rx, servers, domains[..i]), BestServer(rx, servers, ToLower(domains[i]));
      Selected(rx, servers, domains[..i + 1]) == if c.Chosen? && c.index !in before then before + [c.index] else before
  {
    hide BestServer, ToLower;
    assert domains[..i + 1][..i] == domains[..i];
  }

  method SelectBestServerPerDomain(rx: Regex, servers: seq<Node>, domains: seq<string>) returns (out: seq<nat>)
    requires forall s <- servers :: s.Block?
    ensures out == Selected(rx, servers, domains)
  {
    hide BestServer, Selected, ToLower, FinalScore;
    var best: map<string, (nat, nat)> := map[];
    for i := 0 to |domains|
      invariant forall d :: d in best ==>
        BestServer(rx, servers, d) == Chosen(best[d].0, best[d].1)
      invariant forall j :: 0 <= j < i ==>
        (BestServer(rx, servers, ToLower(domains[j])).Chosen? ==> ToLower(domains[j]) in best)
    {
      var dom := ToLower(domains[i]);
      best := UpdateBest(rx, servers, dom, best);
    }
    out := [];
    SelectedNone(rx, servers);
    for i := 0 to |domains|
      invariant out == Selected(rx, servers, domains[..i])
    {
      var dom := ToLower(domains[i]);
      SelectedStep(rx, servers, domains, i);
      if dom !in best { continue; }
      if best[dom].0 in out { continue; }
      out := out + [best[dom].0];
    }
    assert domains[..|domains|] == domains;
  }

  /** The inner loop over the servers; the entry of a domain seen before stays as it is. */
  method UpdateBest(rx: Regex, servers: seq<Node>, dom: string, best: map<string, (nat, nat)>)
    returns (best': map<string, (nat, nat)>)
    requires forall s <- servers :: s.Block?
    requires dom in best ==> BestServer(rx, servers, dom) == Chosen(best[dom].0, best[dom].1)
    ensures forall d :: d != dom ==> (d in best' <==> d in best) && (d in best ==> best'[d] == best[d])
    ensures (dom in best' <==> BestServer(rx, servers, dom).Chosen?) &&
            (dom in best' ==> BestServer(rx, servers, dom) == Chosen(best'[dom].0, best'[dom].1))
  {
    hide ServerIsHTTPS, ServerScore;
    best' := best;
    BestServerIsBest(rx, servers, dom);
    for i := 0 to |servers|
      invariant forall d :: d != dom ==> (d in best' <==> d in best) && (d in best ==> best'[d] == best[d])
      invariant dom in best ==> dom in best' && best'[dom] == best[dom]
      invariant dom !in best ==>
        (dom in best' <==> BestServer(rx, servers[..i], dom).Chosen?) &&
        (dom in best' ==> BestServer(rx, servers[..i], dom) == Chosen(best'[dom].0, best'[dom].1))
    {
      assert servers[..i + 1][..i] == servers[..i];
      var base := ServerNameScore(rx, servers[i].body, dom);
      if base == 0 { continue; }
      var score := if ServerIsHTTPS(servers[i].body) then base + 1 else base;
      if dom !in best' || score > best'[dom].1 { best' := best'[dom := (i, score)]; }
    }
    assert servers[..|servers|] == servers;
  }
}
