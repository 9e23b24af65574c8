/** The string helpers that several parts of the program share. Text is a sequence of runes. */
module Text {
  import opened Common

  /** Go's `unicode.IsSpace`. */
  predicate IsSpace(c: char) {
    c in {'\t', '\n', '\U{B}', '\U{C}', '\r', ' ', '\U{85}', '\U{A0}', '\U{1680}',
          '\U{2028}', '\U{2029}', '\U{202F}', '\U{205F}', '\U{3000}'} || '\U{2000}' <= c <= '\U{200A}'
  }

  /** Go's `strings.TrimSpace`. */
  function TrimSpace(s: string): string
    decreases |s|
  {
    if s == "" then ""
    else if IsSpace(s[0]) then TrimSpace(s[1..])
    else if IsSpace(s[|s| - 1]) then TrimSpace(s[..|s| - 1])
    else s
  }

  /** No whitespace at either end. */
  predicate Trimmed(s: string) {
    s == "" || (!IsSpace(s[0]) && !IsSpace(s[|s| - 1]))
  }

  predicate AllSpace(s: string) {
    forall i :: 0 <= i < |s| ==> IsSpace(s[i])
  }

  /** `TrimSpace` cuts off whitespace at both ends, and all of it. */
  lemma {:induction false} TrimExactly(a: string, x: string, b: string)
    requires AllSpace(a) && Trimmed(x) && AllSpace(b)
    ensures TrimSpace(a + x + b) == x
    decreases |a| + |b|
  {
    var s := a + x + b;
    if a != "" {
      assert s[1..] == a[1..] + x + b && s[0] == a[0];
      TrimExactly(a[1..], x, b);
    } else if b != "" {
      var n := |s| - 1;
      assert s[..n] == a + x + b[..|b| - 1] && s[n] == b[|b| - 1];
      TrimExactly(a, x, b[..|b| - 1]);
      if x == "" {
        assert AllSpace(s[1..]) && s[1..] == s[1..] + "" + "" && s == b;
        TrimExactly(s[1..], "", "");
      } else {
        assert s[0] == x[0];
      }
    } else {
      assert s == x;
    }
  }

  lemma {:induction false} TrimParts(s: string) returns (a: string, b: string)
    ensures AllSpace(a) && Trimmed(TrimSpace(s)) && AllSpace(b) && s == a + TrimSpace(s) + b
    decreases |s|
  {
    a, b := "", "";
    if s != "" && IsSpace(s[0]) {
      a, b := TrimParts(s[1..]);
      hide IsSpace, Trimmed;
      Assoc([s[0]], a, TrimSpace(s));
      Assoc([s[0]], a + TrimSpace(s), b);
      a := [s[0]] + a;
    } else if s != "" && IsSpace(s[|s| - 1]) {
      a, b := TrimParts(s[..|s| - 1]);
      hide IsSpace, Trimmed;
      Assoc(a + TrimSpace(s), b, [s[|s| - 1]]);
      b := b + [s[|s| - 1]];
    }
  }

  predicate HasPrefix(s: string, p: string) {
    |p| <= |s| && s[..|p|] == p
  }

  predicate HasSuffix(s: string, p: string) {
    |p| <= |s| && s[|s| - |p|..] == p
  }

  /** Letters are folded in ASCII (for domain names, RFC 4343). */
  function ToLower(s: string): (r: string)
    ensures |r| == |s|
  {
    seq(|s|, i requires 0 <= i < |s| => if 'A' <= s[i] <= 'Z' then s[i] + 32 as char else s[i])
  }

  /** The text ends in an odd number of backslashes, so that the last one escapes what follows. */
  predicate OddBackslashes(s: string) {
    s != "" && s[|s| - 1] == '\\' && !OddBackslashes(s[..|s| - 1])
  }

  /** An escaped pair at the front of the text, or any other character there, does not change that. */
  lemma {:induction false} OddSkip(s: string, k: nat)
    requires s != "" && k <= |s| && (if s[0] == '\\' then k == 2 else k == 1)
    ensures OddBackslashes(s) == OddBackslashes(s[k..])
    decreases |s|
  {
    var n := |s| - 1;
    if |s| > k {
      OddSkip(s[..n], k);
      assert s[..n][k..] == s[k..][..|s[k..]| - 1];
    } else {
      assert s[k..] == "";
    }
  }

  /** The character is there and no backslash escapes it. */
  predicate Unescaped(s: string, i: nat, c: char)
    requires i < |s|
  {
    s[i] == c && !OddBackslashes(s[..i])
  }

  lemma UnescapedSkip(s: string, k: nat, i: nat, c: char)
    requires k <= i < |s| && (if s[0] == '\\' then k == 2 else k == 1)
    ensures Unescaped(s, i, c) == Unescaped(s[k..], i - k, c)
  {
    OddSkip(s[..i], k);
    assert s[..i][k..] == s[k..][..i - k];
  }

  /** The same letter, in upper or lower case, or the same character. */
  predicate SameLetter(c: char, d: char) {
    c == d || ('A' <= c <= 'Z' && d as int == c as int + 32) || ('A' <= d <= 'Z' && c as int == d as int + 32)
  }

  /** Each character keeps its letter, and none stays in upper case. */
  lemma LowerExactly(s: string, r: string)
    ensures ToLower(s) == r <==>
      |r| == |s| && forall i :: 0 <= i < |s| ==> SameLetter(s[i], r[i]) && !('A' <= r[i] <= 'Z')
  {
    if |r| == |s| && forall i :: 0 <= i < |s| ==> SameLetter(s[i], r[i]) && !('A' <= r[i] <= 'Z') {
      assert forall i :: 0 <= i < |s| ==> ToLower(s)[i] == r[i];
    }
  }

  /** The end of the first line. */
  function LineEnd(text: string): (n: nat)
    ensures n <= |text| && (n < |text| ==> text[n] == '\n') && forall i :: 0 <= i < n ==> text[i] != '\n'
  {
    if text == "" || text[0] == '\n' then 0 else 1 + LineEnd(text[1..])
  }
}
