/** Quotes, escapes and arguments of a line, told by counting: a backslash escapes the character behind
    it, a double quote that is not escaped opens or closes a quotation. The scanners of
    `internal/plugins/apache/parser/parser.go` keep this as they go from left to right.
 */
module ApacheWords {
  import opened Text
  import opened ApacheScan
  import opened ApacheLines

  // ----- The searches -----

  /** The number of double quotes that no backslash escapes. */
  function Quotes(s: string): nat
    decreases |s|
  {
    if s == "" then 0 else Quotes(s[..|s| - 1]) + if Unescaped(s, |s| - 1, '"') then 1 else 0
  }

  /** The character is there, not escaped, behind an even number of quotes. */
  predicate Bare(s: string, i: nat, c: char)
    requires i < |s|
  {
    Unescaped(s, i, c) && Quotes(s[..i]) % 2 == 0
  }

  predicate FirstBare(s: string, i: nat, c: char) {
    i < |s| && Bare(s, i, c) && forall j :: 0 <= j < i ==> !Bare(s, j, c)
  }

  predicate NoneBare(s: string, c: char) {
    forall j :: 0 <= j < |s| ==> !Bare(s, j, c)
  }

  lemma BarePrefix(s: string, n: nat, i: nat, c: char)
    requires i < n <= |s|
    ensures Bare(s[..n], i, c) == Bare(s, i, c)
  {
    assert s[..n][..i] == s[..i];
  }

  lemma {:induction false} ScanCounts(s: string, c: char)
    requires Target(c)
    ensures match Scan(s, c, false, false)
      case Found(i) => FirstBare(s, i, c)
      case Ended(inQuote, escaped) =>
        NoneBare(s, c) && inQuote == (Quotes(s) % 2 == 1) && escaped == OddBackslashes(s)
    decreases |s|
  {
    if s != "" {
      var n := |s| - 1;
      var r := s[..n];
      assert s == r + [s[n]];
      ScanAppend(r, [s[n]], c, false, false);
      ScanCounts(r, c);
      hide Bare, Scan, Quotes, OddBackslashes;
      forall i | 0 <= i < n ensures Bare(r, i, c) == Bare(s, i, c) { BarePrefix(s, n, i, c); }
      LastCounts(s, c);
    }
  }

  /** The last character, in the state that the ones before it leave. */
  lemma LastCounts(s: string, c: char)
    requires s != "" && Target(c)
    ensures var r, x := s[..|s| - 1], s[|s| - 1];
      var q, e := Quotes(r) % 2 == 1, OddBackslashes(r);
      Scan([x], c, q, e) ==
        if Bare(s, |s| - 1, c) then Found(0) else Ended(Quotes(s) % 2 == 1, OddBackslashes(s))
  {
    assert [s[|s| - 1]][1..] == "";
  }

  /** The search finds the first bare occurrence, or there is none. */
  lemma ScanExactly(s: string, c: char)
    requires Target(c)
    ensures forall i: nat :: Scan(s, c, false, false) == Found(i) <==> FirstBare(s, i, c)
    ensures Scan(s, c, false, false).Ended? <==> NoneBare(s, c)
    ensures Scan(s, c, false, false) == Ended(false, false) <==>
      NoneBare(s, c) && Quotes(s) % 2 == 0 && !OddBackslashes(s)
  {
    ScanCounts(s, c);
  }

  // ----- Arguments -----

  /** Behind an opening quote the argument goes up to the first quote that is not escaped, or to the end. */
  lemma {:induction false} QuotedExactly(s: string)
    ensures var n := QuotedLen(s);
      (forall i :: 0 <= i < n - 1 ==> !Unescaped(s, i, '"')) && (n < |s| ==> n > 0 && Unescaped(s, n - 1, '"'))
    decreases |s|
  {
    if s != "" && s[0] == '\\' && |s| > 1 {
      QuotedExactly(s[2..]);
      forall i | 2 <= i < |s| ensures Unescaped(s, i, '"') == Unescaped(s[2..], i - 2, '"') { UnescapedSkip(s, 2, i, '"'); }
      assert OddBackslashes(s[..1]) by { assert s[..1][..0] == ""; }
    } else if s != "" && s[0] != '"' {
      QuotedExactly(s[1..]);
      if s[0] != '\\' {
        forall i | 1 <= i < |s| ensures Unescaped(s, i, '"') == Unescaped(s[1..], i - 1, '"') { UnescapedSkip(s, 1, i, '"'); }
      }
    }
  }

  /** How an argument stands in a line: a quoted one ends with its closing quote or with the line,
      any other one before a blank or with the line. */
  predicate IsArg(a: string, rest: string) {
    a != "" && !IsBlank(a[0]) &&
    if a[0] == '"' then
      (forall i :: 1 <= i < |a| - 1 ==> !Unescaped(a, i, '"')) && (rest != "" ==> |a| > 1 && Unescaped(a, |a| - 1, '"'))
    else
      (forall i :: 0 <= i < |a| ==> !IsBlank(a[i])) && (rest != "" ==> IsBlank(rest[0]))
  }

  lemma ArgExactly(a: string, rest: string)
    requires a != "" && !IsBlank(a[0])
    ensures ArgLen(a + rest) == |a| <==> IsArg(a, rest)
  {
    var s := a + rest;
    if a[0] == '"' {
      var t := s[1..];
      var n := QuotedLen(t);
      QuotedExactly(t);
      assert forall i :: 1 <= i < |a| ==> Unescaped(a, i, '"') == Unescaped(t, i - 1, '"') by {
        forall i | 1 <= i < |a| ensures Unescaped(a, i, '"') == Unescaped(t, i - 1, '"') {
          UnescapedSkip(s, 1, i, '"');
          assert s[..i] == a[..i];
        }
      }
      hide Unescaped, QuotedLen;
      if n < |a| - 1 {
        assert Unescaped(a, n, '"') == Unescaped(t, n - 1, '"');
      } else if n > |a| - 1 > 0 {
        assert Unescaped(a, |a| - 1, '"') == Unescaped(t, |a| - 2, '"');
      }
    } else {
      var n := WordLen(s);
      assert forall i :: 0 <= i < |a| ==> s[i] == a[i];
      if n < |a| { assert s[n] == a[n]; }
      if rest != "" { assert s[|a|] == rest[0]; }
    }
  }

  /** The line begins with blanks and this argument, which takes up `s[k..n]`. */
  predicate FirstArg(s: string, k: nat, n: nat, a: string) {
    k < n <= |s| && AllBlanks(s[..k]) && s[k..n] == a && IsArg(a, s[n..])
  }

  /** The line spells the arguments, with blanks around them. */
  predicate Spells(s: string, args: seq<string>)
    decreases |args|
  {
    if args == [] then AllBlanks(s)
    else exists k: nat, n: nat :: k < n <= |s| && FirstArg(s, k, n, args[0]) && Spells(s[n..], args[1..])
  }

  lemma {:induction false} SkipBlanksTo(s: string, k: nat)
    requires k <= |s| && AllBlanks(s[..k]) && (k < |s| ==> !IsBlank(s[k]))
    ensures SkipBlanks(s) == s[k..]
  {
    if k > 0 {
      assert s[..k][0] in s[..k] && s[0] == s[..k][0] && s[1..][..k - 1] == s[..k][1..] && s[1..][k - 1..] == s[k..];
      SkipBlanksTo(s[1..], k - 1);
    }
  }

  lemma {:induction false} BlanksBefore(s: string) returns (k: nat)
    ensures k <= |s| && AllBlanks(s[..k]) && (k < |s| ==> !IsBlank(s[k])) && SkipBlanks(s) == s[k..]
  {
    k := 0;
    if s != "" && IsBlank(s[0]) {
      k := BlanksBefore(s[1..]);
      k := k + 1;
      assert s[..k] == [s[0]] + s[1..][..k - 1] && s[k..] == s[1..][k - 1..];
    }
  }

  lemma FirstSplit(s: string, k: nat, n: nat, a: string)
    requires FirstArg(s, k, n, a)
    ensures SplitArgs(s) == [a] + SplitArgs(s[n..])
  {
    assert s[k] == a[0] && s[k..] == a + s[n..] && s[k..][n - k..] == s[n..] && s[k..][..n - k] == a;
    SkipBlanksTo(s, k);
    ArgExactly(a, s[n..]);
    hide IsArg, ArgLen;
    SplitFirst(s);
  }

  lemma {:induction false} SpellsSplit(s: string, args: seq<string>)
    requires Spells(s, args)
    ensures SplitArgs(s) == args
    decreases |args|
  {
    if args == [] {
      assert s[..|s|] == s;
      SkipBlanksTo(s, |s|);
      SplitNone(s);
    } else {
      var k: nat, n: nat :| k < n <= |s| && FirstArg(s, k, n, args[0]) && Spells(s[n..], args[1..]);
      FirstSplit(s, k, n, args[0]);
      SpellsSplit(s[n..], args[1..]);
    }
  }

  lemma CutThere(s: string, k: nat, n: nat)
    requires k < n <= |s|
    ensures s[k..] == s[k..n] + s[n..] && s[k..n][0] == s[k]
  {
  }

  lemma {:induction false} SplitSpells(s: string)
    ensures Spells(s, SplitArgs(s))
    decreases |s|
  {
    var k := BlanksBefore(s);
    if k == |s| {
      SplitNone(s);
    } else {
      var n := k + ArgLen(s[k..]);
      CutThere(s, k, n);
      ArgExactly(s[k..n], s[n..]);
      FirstSplit(s, k, n, s[k..n]);
      SplitSpells(s[n..]);
      var args := SplitArgs(s);
      assert args[0] == s[k..n] && args[1..] == SplitArgs(s[n..]);
      assert FirstArg(s, k, n, args[0]) && Spells(s[n..], args[1..]);
    }
  }

  /** `splitArgs` yields the arguments that the line spells. */
  lemma SplitExactly(s: string, args: seq<string>)
    ensures SplitArgs(s) == args <==> Spells(s, args)
  {
    SplitSpells(s);
    if Spells(s, args) { SpellsSplit(s, args); }
  }
}
