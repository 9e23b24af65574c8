/** Listen addresses and the SSL edit of a server block in
    `internal/plugins/nginx/configurator.go`. */
module NginxListen {
  import opened NginxAst
  import opened NginxChallenge
  import opened Decimal
  import opened Text

  predicate ContainsArg(args: seq<string>, want: string) {
    exists a <- args :: ToLower(TrimQuotes(a)) == ToLower(want)
  }

  /** The first position of `]:`, or -1. */
  function BracketIndex(s: string): (i: int)
    ensures i == -1 || (0 <= i < |s| - 1 && s[i] == ']' && s[i + 1] == ':')
  {
    if |s| < 2 then -1
    else if s[0] == ']' && s[1] == ':' then 0
    else if BracketIndex(s[1..]) < 0 then -1 else 1 + BracketIndex(s[1..])
  }

  /** The last position of a colon, or -1. */
  function LastColon(s: string): (i: int)
    ensures -1 <= i < |s|
    ensures i >= 0 ==> s[i] == ':'
    ensures forall j :: i < j < |s| && j >= 0 ==> s[j] != ':'
  {
    if s == "" then -1 else if s[|s| - 1] == ':' then |s| - 1 else LastColon(s[..|s| - 1])
  }

  datatype Address = Skipped | Address(host: string, port: string)

  /** `splitListenAddr`; unix sockets and unclosed brackets are skipped. */
  function SplitListenAddr(v: string): Address {
    if HasPrefix(v, "unix:") then Skipped
    else if HasPrefix(v, "[") then
      var i := BracketIndex(v);
      if i < 0 then Skipped else Address(v[..i + 1], v[i + 2..])
    else
      var i := LastColon(v);
      if i >= 0 then Address(v[..i], v[i + 1..])
      else if v != "" && AllDigits(v) then Address("", v)
      else Address(v, "")
  }

  predicate IsListen(n: Node) {
    n.Directive? && n.name == "listen" && |n.args| > 0
  }

  predicate MakesHTTPS(n: Node) {
    n.Directive? &&
    ((n.name == "ssl" && |n.args| == 1 && ToLower(TrimQuotes(n.args[0])) == "on") ||
     (IsListen(n) &&
      (ContainsArg(n.args, "ssl") || (SplitListenAddr(n.args[0]).Address? && SplitListenAddr(n.args[0]).port == "443"))))
  }

  predicate ServerIsHTTPS(body: seq<Node>) {
    exists n <- body :: MakesHTTPS(n)
  }
}
