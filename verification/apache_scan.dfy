/** The three scanners of `internal/plugins/apache/parser/parser.go`: `splitArgs` and the searches
    for an unquoted `#` or `>`. They look at quotes and backslashes in different ways, but agree
    once the blanks between arguments are collapsed.
 */
module ApacheScan {
  import opened Common
  import opened Text

  predicate IsBlank(c: char) {
    c == ' ' || c == '\t'
  }

  /** `strings.TrimLeft` of blanks and tabs. */
  function SkipBlanks(s: string): (r: string)
    ensures |r| <= |s| && (r != "" ==> !IsBlank(r[0]))
  {
    if s != "" && IsBlank(s[0]) then SkipBlanks(s[1..]) else s
  }

  /** `leadingWhitespace`. */
  function Indent(s: string): (r: string)
    ensures forall c <- r :: IsBlank(c)
  {
    if s != "" && IsBlank(s[0]) then [s[0]] + Indent(s[1..]) else ""
  }

  /** `strings.TrimRight` of blanks and tabs. */
  function TrimBlanks(s: string): (r: string)
    ensures r <= s && (r != "" ==> !IsBlank(r[|r| - 1]))
  {
    if s != "" && IsBlank(s[|s| - 1]) then TrimBlanks(s[..|s| - 1]) else s
  }

  // ----- Arguments -----

  /** The rest of a quoted argument, behind its opening quote: up to the closing quote or the end. */
  function QuotedLen(s: string): (n: nat)
    ensures n <= |s|
  {
    if s == "" then 0
    else if s[0] == '\\' && |s| > 1 then 2 + QuotedLen(s[2..])
    else if s[0] == '"' then 1
    else 1 + QuotedLen(s[1..])
  }

  function WordLen(s: string): (n: nat)
    ensures n <= |s| && (forall i :: 0 <= i < n ==> !IsBlank(s[i])) && (n < |s| ==> IsBlank(s[n]))
  {
    if s == "" || IsBlank(s[0]) then 0 else 1 + WordLen(s[1..])
  }

  function ArgLen(s: string): (n: nat)
    requires s != "" && !IsBlank(s[0])
    ensures 0 < n <= |s|
  {
    if s[0] == '"' then 1 + QuotedLen(s[1..]) else WordLen(s)
  }

  /** `splitArgs`. */
  function SplitArgs(s: string): (args: seq<string>)
    ensures forall i :: 0 <= i < |args| ==> args[i] != "" && !IsBlank(args[i][0])
    decreases |s|
  {
    var r := SkipBlanks(s);
    if r == "" then [] else [r[..ArgLen(r)]] + SplitArgs(r[ArgLen(r)..])
  }

  /** What the printers write between the name and the end of the line. */
  function Join(args: seq<string>): string
    decreases |args|
  {
    if args == [] then "" else if |args| == 1 then args[0] else args[0] + " " + Join(args[1..])
  }

  // ----- The searches -----

  /** Where a search stops: at the character it looks for, or at the end, inside quotes or not and
      behind an escaping backslash or not. */
  datatype Stop = Found(at: nat) | Ended(inQuote: bool, escaped: bool)

  function Later(s: Stop, n: nat): Stop {
    if s.Found? then Found(s.at + n) else s
  }

  predicate Hit(c: char, target: char, inQuote: bool, escaped: bool) {
    c == target && !inQuote && !escaped && c != '\\' && c != '"'
  }

  /** Whether the search is inside quotes after this character. */
  predicate Quoting(c: char, inQuote: bool, escaped: bool) {
    if c == '"' && !escaped then !inQuote else inQuote
  }

  predicate Escaping(c: char, escaped: bool) {
    c == '\\' && !escaped
  }

  function Scan(s: string, target: char, inQuote: bool, escaped: bool): (r: Stop)
    ensures r.Found? ==> r.at < |s| && s[r.at] == target
    decreases |s|
  {
    if s == "" then Ended(inQuote, escaped)
    else if Hit(s[0], target, inQuote, escaped) then Found(0)
    else Later(Scan(s[1..], target, Quoting(s[0], inQuote, escaped), Escaping(s[0], escaped)), 1)
  }

  predicate Target(c: char) {
    c == '#' || c == '>'
  }

  lemma {:induction false} ScanAppend(a: string, b: string, t: char, q: bool, e: bool)
    ensures Scan(a + b, t, q, e) ==
      match Scan(a, t, q, e) { case Found(i) => Found(i) case Ended(q1, e1) => Later(Scan(b, t, q1, e1), |a|) }
    decreases |a|
  {
    if a == "" {
      assert a + b == b;
    } else {
      assert (a + b)[1..] == a[1..] + b && (a + b)[0] == a[0];
      hide Hit, Quoting, Escaping;
      ScanAppend(a[1..], b, t, Quoting(a[0], q, e), Escaping(a[0], e));
    }
  }

  /** Blanks do not change what a search sees, except that the first may be escaped. */
  lemma {:induction false} ScanBlanks(s: string, t: char, q: bool)
    requires Target(t)
    ensures var r := SkipBlanks(s); Scan(s, t, q, false) == Later(Scan(r, t, q, false), |s| - |r|)
  {
    if s != "" && IsBlank(s[0]) {
      assert !Hit(s[0], t, q, false) && Quoting(s[0], q, false) == q && !Escaping(s[0], false);
      hide Hit, Quoting, Escaping;
      ScanBlanks(s[1..], t, q);
    }
  }

  /** Behind the opening quote, a search leaves a quoted argument as `splitArgs` does: outside the
      quotes that were opened, and not behind an escape, unless the text ends inside it. */
  lemma {:induction false} ScanQuoted(s: string, t: char, q: bool)
    requires Target(t) && Scan(s, t, !q, false).Ended?
    ensures var n := QuotedLen(s);
      n < |s| ==> Scan(s[..n], t, !q, false) == Ended(q, false)
    decreases |s|
  {
    var n := QuotedLen(s);
    if s != "" && n < |s| {
      if s[0] == '\\' && |s| > 1 {
        ScanQuoted(s[2..], t, q);
        assert s[..n][1..][1..] == s[2..][..n - 2];
      } else if s[0] == '"' {
        assert s[..1][1..] == "";
      } else {
        ScanQuoted(s[1..], t, q);
        assert s[..n][1..] == s[1..][..n - 1];
      }
    }
  }

  // ----- One step of splitArgs -----

  lemma SplitNone(s: string)
    requires SkipBlanks(s) == ""
    ensures SplitArgs(s) == []
  {
  }

  lemma SplitFirst(s: string)
    requires SkipBlanks(s) != ""
    ensures var r := SkipBlanks(s); var n := ArgLen(r);
      SplitArgs(s) == [r[..n]] + SplitArgs(r[n..]) && r == r[..n] + r[n..] && |r[n..]| < |s|
  {
  }

  lemma SplitBlank(s: string)
    requires s != "" && IsBlank(s[0])
    ensures SplitArgs(s) == SplitArgs(s[1..])
  {
  }

  lemma JoinMore(a: string, rest: seq<string>)
    requires rest != []
    ensures Join([a] + rest) == a + (" " + Join(rest))
  {
    assert ([a] + rest)[1..] == rest;
    Assoc(a, " ", Join(rest));
  }

  lemma JoinOne(a: string)
    ensures Join([a]) == a
  {
  }

  /** A search through one argument that is not the end of the text. */
  lemma ScanArg(r: string, t: char, q: bool)
    requires Target(t) && r != "" && !IsBlank(r[0]) && Scan(r, t, q, false).Ended?
    ensures var n := ArgLen(r);
      Scan(r[..n], t, q, false).Ended? &&
      (n < |r| && Scan(r[..n], t, q, false).escaped ==> IsBlank(r[n]))
  {
    var n := ArgLen(r);
    ScanAppend(r[..n], r[n..], t, q, false);
    assert r[..n] + r[n..] == r;
    if r[0] == '"' && n < |r| {
      ScanQuoted(r[1..], t, q);
      assert r[..n][1..] == r[1..][..n - 1];
    }
  }

  /** Collapsing the blanks between arguments: a search that finds nothing still finds nothing, ends
      inside quotes or not as before, and in the same state if the text does not end in a blank. */
  lemma {:induction false} SplitScan(s: string, t: char, q: bool)
    requires Target(t) && Scan(s, t, q, false).Ended?
    ensures var before, after := Scan(s, t, q, false), Scan(Join(SplitArgs(s)), t, q, false);
      after.Ended? && after.inQuote == before.inQuote && (s != "" && !IsBlank(s[|s| - 1]) ==> after == before)
    decreases |s|, 2
  {
    var r := SkipBlanks(s);
    ScanBlanks(s, t, q);
    SkipKeepsEnd(s);
    if r == "" {
      SplitNone(s);
    } else {
      SplitFirst(s);
      SplitScanArg(s, r, t, q);
    }
  }

  lemma {:induction false} SkipKeepsEnd(s: string)
    ensures var r := SkipBlanks(s); |r| <= |s| && s[|s| - |r|..] == r && (s != "" && !IsBlank(s[|s| - 1]) ==> r != "")
  {
    if s != "" && IsBlank(s[0]) {
      var r := SkipBlanks(s[1..]);
      SkipKeepsEnd(s[1..]);
      hide SkipBlanks;
      assert s[|s| - |r|..] == s[1..][|s[1..]| - |r|..];
      if |s| > 1 { assert s[1..][|s| - 2] == s[|s| - 1]; }
    }
  }

  lemma {:induction false} SplitScanArg(s: string, r: string, t: char, q: bool)
    requires Target(t) && r != "" && r == SkipBlanks(s) && |r| <= |s| && s[|s| - |r|..] == r && Scan(r, t, q, false).Ended?
    ensures var before, after := Scan(r, t, q, false), Scan(Join(SplitArgs(s)), t, q, false);
      after.Ended? && after.inQuote == before.inQuote && (!IsBlank(s[|s| - 1]) ==> after == before)
    decreases |s|, 1
  {
    var n := ArgLen(r);
    var a, s2 := r[..n], r[n..];
    SplitFirst(s);
    ScanArg(r, t, q);
    ScanAppend(a, s2, t, q, false);
    var mid := Scan(a, t, q, false);
    var s3 := if mid.escaped && s2 != "" then s2[1..] else s2;
    if s2 == "" {
      JoinOne(a);
    } else {
      if mid.escaped { SplitBlank(s2); }
      SplitScanRest(a, s2, s3, t, q);
      assert s[|s| - 1] == s2[|s2| - 1];
    }
  }

  lemma {:induction false} SplitScanRest(a: string, s2: string, s3: string, t: char, q: bool)
    requires Target(t) && Scan(a, t, q, false).Ended? && s2 != ""
    requires var mid := Scan(a, t, q, false);
      (mid.escaped ==> IsBlank(s2[0])) && s3 == (if mid.escaped then s2[1..] else s2) && SplitArgs(s3) == SplitArgs(s2) &&
      Scan(s2, t, mid.inQuote, mid.escaped).Ended?
    ensures var mid := Scan(a, t, q, false);
      var before := Scan(s2, t, mid.inQuote, mid.escaped);
      var after := Scan(Join([a] + SplitArgs(s2)), t, q, false);
      after.Ended? && after.inQuote == before.inQuote && (!IsBlank(s2[|s2| - 1]) ==> after == before)
    decreases |s2|, 3
  {
    var mid := Scan(a, t, q, false);
    var rest := SplitArgs(s2);
    ScanSecond(s2, s3, t, mid.inQuote, mid.escaped);
    hide Scan, SplitArgs, Join, SkipBlanks;
    SplitScan(s3, t, mid.inQuote);
    if rest == [] {
      JoinOne(a);
      NothingLeft(s3);
      ScanBlanks(s3, t, mid.inQuote);
      ScanNone(t, mid.inQuote);
      AllBlank(s3);
      LastOfTail(s2, s3);
    } else {
      JoinMore(a, rest);
      ScanAppend(a, " " + Join(rest), t, q, false);
      ScanAppend(" ", Join(rest), t, mid.inQuote, mid.escaped);
      OneBlank(t, mid.inQuote, mid.escaped);
      SplitNone("");
      LastOfTail(s2, s3);
    }
  }

  lemma ScanNone(t: char, q: bool)
    ensures Scan("", t, q, false) == Ended(q, false) && SkipBlanks("") == ""
  {
  }

  lemma ScanSecond(s2: string, s3: string, t: char, q: bool, e: bool)
    requires Target(t) && s2 != "" && (e ==> IsBlank(s2[0])) && s3 == (if e then s2[1..] else s2)
    ensures Scan(s2, t, q, e).Ended? ==> Scan(s3, t, q, false) == Scan(s2, t, q, e)
  {
  }

  lemma LastOfTail(s2: string, s3: string)
    requires s2 != "" && (s3 == s2 || (s3 == s2[1..] && IsBlank(s2[0])))
    ensures s3 != "" ==> s2[|s2| - 1] == s3[|s3| - 1]
    ensures s3 == "" ==> IsBlank(s2[|s2| - 1])
  {
  }

  lemma OneBlank(t: char, q: bool, e: bool)
    requires Target(t)
    ensures Scan(" ", t, q, e) == Ended(q, false)
  {
    assert " "[1..] == "";
  }

  lemma NothingLeft(s: string)
    requires SplitArgs(s) == []
    ensures SkipBlanks(s) == ""
  {
  }

  lemma {:induction false} AllBlank(s: string)
    requires SkipBlanks(s) == ""
    ensures s != "" ==> IsBlank(s[|s| - 1])
  {
    if s != "" && s[1..] != "" { AllBlank(s[1..]); }
  }

  // ----- What splitArgs reads from a collapsed line -----

  lemma {:induction false} WordPrefix(a: string, y: string)
    requires (forall c <- a :: !IsBlank(c)) && (y == "" || IsBlank(y[0]))
    ensures WordLen(a + y) == |a|
  {
    if a == "" { assert a + y == y; }
    else {
      assert (a + y)[1..] == a[1..] + y;
      WordPrefix(a[1..], y);
    }
  }

  lemma {:induction false} QuotedClosed(s: string, y: string)
    requires QuotedLen(s) < |s|
    ensures QuotedLen(s[..QuotedLen(s)] + y) == QuotedLen(s)
    decreases |s|
  {
    var n := QuotedLen(s);
    var p := s[..n] + y;
    if s[0] == '\\' && |s| > 1 {
      QuotedClosed(s[2..], y);
      assert p[2..] == s[2..][..n - 2] + y && p[0] == s[0] && |p| > 1;
    } else if s[0] != '"' {
      QuotedClosed(s[1..], y);
      assert p[1..] == s[1..][..n - 1] + y && p[0] == s[0];
    } else {
      assert p[0] == s[0];
    }
  }

  /** An argument is cut off again at the same place, if what follows was put there by the printer. */
  lemma ArgAgain(r: string, y: string)
    requires r != "" && !IsBlank(r[0]) && (y == "" || IsBlank(y[0])) && (ArgLen(r) == |r| ==> y == "")
    ensures var a := r[..ArgLen(r)]; ArgLen(a + y) == |a|
  {
    var n := ArgLen(r);
    var a := r[..n];
    assert (a + y)[0] == r[0];
    if r[0] == '"' {
      assert (a + y)[1..] == r[1..][..n - 1] + y;
      if n < |r| { QuotedClosed(r[1..], y); }
      else { assert r[1..][..n - 1] + y == r[1..]; }
    } else {
      WordPrefix(a, y);
    }
  }

  lemma SkipNothing(s: string)
    requires s == "" || !IsBlank(s[0])
    ensures SkipBlanks(s) == s
  {
  }

  lemma SplitNext(a: string, y: string)
    requires a != "" && !IsBlank(a[0]) && ArgLen(a + y) == |a|
    ensures SplitArgs(a + y) == [a] + SplitArgs(y)
  {
    SkipNothing(a + y);
    assert (a + y)[..|a|] == a && (a + y)[|a|..] == y;
  }

  /** Splitting, printing and splitting again gives the same arguments. */
  lemma {:induction false} SplitJoin(s: string)
    ensures SplitArgs(Join(SplitArgs(s))) == SplitArgs(s)
    decreases |s|
  {
    var r := SkipBlanks(s);
    if r == "" {
      SplitNone(s);
      SplitNone("");
    } else {
      SplitFirst(s);
      var a, s2 := r[..ArgLen(r)], r[ArgLen(r)..];
      var rest := SplitArgs(s2);
      SplitJoin(s2);
      if rest == [] {
        JoinOne(a);
        ArgAgain(r, "");
        assert a + "" == a;
        SplitNext(a, "");
        SplitNone("");
      } else {
        JoinMore(a, rest);
        var y := " " + Join(rest);
        assert s2 != "" by { if s2 == "" { SplitNone(s2); } }
        ArgAgain(r, y);
        SplitNext(a, y);
        SplitBlank(y);
        assert y[1..] == Join(rest);
      }
    }
  }

  function Squeeze(s: string): string {
    if s == "" then "" else (if IsBlank(s[0]) then "" else [s[0]]) + Squeeze(s[1..])
  }

  lemma {:induction false} SqueezeAppend(a: string, b: string)
    ensures Squeeze(a + b) == Squeeze(a) + Squeeze(b)
    decreases |a|
  {
    if a == "" { assert a + b == b; }
    else {
      assert (a + b)[1..] == a[1..] + b && (a + b)[0] == a[0];
      SqueezeAppend(a[1..], b);
      Assoc(if IsBlank(a[0]) then "" else [a[0]], Squeeze(a[1..]), Squeeze(b));
    }
  }

  lemma {:induction false} SqueezeSkip(s: string)
    ensures Squeeze(SkipBlanks(s)) == Squeeze(s)
  {
    if s != "" && IsBlank(s[0]) {
      SqueezeSkip(s[1..]);
      assert Squeeze(s) == "" + Squeeze(s[1..]);
    }
  }

  /** `splitArgs` loses nothing but blanks. */
  lemma {:induction false} SplitKeepsText(s: string)
    ensures Squeeze(Join(SplitArgs(s))) == Squeeze(s)
    decreases |s|
  {
    var r := SkipBlanks(s);
    SqueezeSkip(s);
    if r == "" {
      SplitNone(s);
    } else {
      SplitFirst(s);
      var a, s2 := r[..ArgLen(r)], r[ArgLen(r)..];
      var rest := SplitArgs(s2);
      SplitKeepsText(s2);
      SqueezeAppend(a, s2);
      if rest == [] {
        JoinOne(a);
        assert Squeeze(s2) == "" && Squeeze(a) + "" == Squeeze(a);
      } else {
        JoinMore(a, rest);
        SqueezeAppend(a, " " + Join(rest));
        assert (" " + Join(rest))[1..] == Join(rest);
        assert Squeeze(" " + Join(rest)) == "" + Squeeze(Join(rest)) == Squeeze(Join(rest));
      }
    }
  }

  /** The last character stays the last, if it is not a blank. */
  lemma {:induction false} SplitKeepsLast(s: string)
    requires s != "" && !IsBlank(s[|s| - 1])
    ensures var j := Join(SplitArgs(s)); j != "" && j[|j| - 1] == s[|s| - 1]
    decreases |s|
  {
    hide SplitArgs, SkipBlanks, ArgLen, Join;
    var r := SkipBlanks(s);
    SkipKeepsEnd(s);
    SplitFirst(s);
    var a, s2 := r[..ArgLen(r)], r[ArgLen(r)..];
    assert r[|r| - 1] == s[|s| - 1];
    if s2 == "" {
      NothingToSplit();
      JoinOne(a);
      assert [a] + [] == [a] && r == a;
    } else {
      SplitKeepsLast(s2);
      if SplitArgs(s2) == [] { JoinNothing(); }
      JoinMore(a, SplitArgs(s2));
    }
  }

  lemma NothingToSplit()
    ensures SplitArgs("") == []
  {
  }

  lemma JoinNothing()
    ensures Join([]) == ""
  {
  }

  /** The first character of the first argument. */
  lemma SplitKeepsFirst(s: string)
    requires s != "" && !IsBlank(s[0])
    ensures var args := SplitArgs(s); args != [] && args[0][0] == s[0] && Join(args) != "" && Join(args)[0] == s[0]
  {
    SkipNothing(s);
    SplitFirst(s);
    var a, rest := s[..ArgLen(s)], SplitArgs(s[ArgLen(s)..]);
    if rest == [] { JoinOne(a); } else { JoinMore(a, rest); }
  }

  // ----- Backslashes at the end -----

  lemma {:induction false} EscapedIffOdd(s: string, t: char, q: bool)
    requires Scan(s, t, q, false).Ended?
    ensures Scan(s, t, q, false).escaped == OddBackslashes(s)
    decreases |s|
  {
    if s != "" {
      var n := |s| - 1;
      assert s == s[..n] + [s[n]];
      ScanAppend(s[..n], [s[n]], t, q, false);
      EscapedIffOdd(s[..n], t, q);
      assert [s[n]][1..] == "";
    }
  }

  lemma {:induction false} OddAfter(a: string, b: string)
    requires b != "" && (a == "" || a[|a| - 1] != '\\')
    ensures OddBackslashes(a + b) == OddBackslashes(b)
    decreases |b|
  {
    var n := |b| - 1;
    assert (a + b)[..|a + b| - 1] == a + b[..n];
    if n > 0 { OddAfter(a, b[..n]); }
    else { assert b[..n] == "" && a + b[..n] == a; }
  }

  lemma {:induction false} OddJoin(args: seq<string>)
    requires args != [] && forall i :: 0 <= i < |args| ==> args[i] != ""
    ensures Join(args) != "" && OddBackslashes(Join(args)) == OddBackslashes(args[|args| - 1])
    ensures Join(args)[|Join(args)| - 1] == args[|args| - 1][|args[|args| - 1]| - 1]
    decreases |args|
  {
    if |args| > 1 {
      OddJoin(args[1..]);
      var head := args[0] + " ";
      assert head[|head| - 1] == ' ';
      OddAfter(head, Join(args[1..]));
    }
  }
}
