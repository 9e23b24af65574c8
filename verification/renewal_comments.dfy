/** Inline comments of renewal configurations: where the reader cuts a value, and what it reads from a
    line with a comment.
 */
module RenewalComments {
  import opened Common
  import opened Text
  import opened RenewalValues
  import opened RenewalConf
  import opened RenewalStorable
  import opened RenewalReload

  // ----- Where the comment begins -----

  /** A `#` that is neither quoted nor escaped. */
  predicate BareHash(v: string, h: nat) {
    h < |v| && v[h] == '#' && End(v[..h], Start) == Start
  }

  predicate FirstHash(v: string, h: nat) {
    BareHash(v, h) && forall j: nat :: j < h ==> !BareHash(v, j)
  }

  predicate NoneBare(v: string) {
    forall j: nat :: j < |v| ==> !BareHash(v, j)
  }

  lemma BareInFront(v: string, n: nat, j: nat)
    requires j < n <= |v|
    ensures BareHash(v[..n], j) == BareHash(v, j)
  {
    assert v[..n][..j] == v[..j];
  }

  lemma {:induction false} NoHashCounts(v: string)
    ensures NoHash(v, Start) <==> NoneBare(v)
    decreases |v|
  {
    if v != "" {
      var n := |v| - 1;
      var front := v[..n];
      assert v == front + [v[n]];
      NoHashCounts(front);
      NoHashAppend(front, [v[n]], Start);
      OneChar(v[n], End(front, Start));
      hide NoHash, End;
      forall j: nat | j < n ensures BareHash(v, j) == BareHash(front, j) { BareInFront(v, n, j); }
      assert BareHash(v, n) <==> v[n] == '#' && End(front, Start) == Start;
    }
  }

  /** The search stops at a `#` outside quotes and escapes, and passes none before. */
  lemma {:induction false} HashFound(v: string, i: nat, inSingle: bool, inDouble: bool)
    requires i <= |v|
    ensures var h := HashAt(v, i, inSingle, inDouble); var st := Quote(inSingle, inDouble, false);
      NoHash(v[i..h], st) && (h < |v| ==> End(v[i..h], st) == Start)
    decreases |v| - i
  {
    hide HashAt, NoHash, End;
    var h, st := HashAt(v, i, inSingle, inDouble), Quote(inSingle, inDouble, false);
    if i < |v| { HashStep(v, i, inSingle, inDouble); }
    if i == h {
      SliceNone(v, i, st);
    } else {
      SliceStep(v, i, h, st);
      if v[i] == '\\' && i + 1 < |v| {
        SliceStep(v, i + 1, h, st.(escaped := true));
        HashFound(v, i + 2, inSingle, inDouble);
      } else if v[i] == '"' && !inSingle {
        HashFound(v, i + 1, inSingle, !inDouble);
      } else if v[i] == '\'' && !inDouble {
        HashFound(v, i + 1, !inSingle, inDouble);
      } else if v[i] != '\\' {
        HashFound(v, i + 1, inSingle, inDouble);
      }
    }
  }

  /** One step of the search. */
  lemma HashStep(v: string, i: nat, inSingle: bool, inDouble: bool)
    requires i < |v|
    ensures var h := HashAt(v, i, inSingle, inDouble);
      if v[i] == '\\' && i + 1 < |v| then h == HashAt(v, i + 2, inSingle, inDouble) && h >= i + 2
      else if v[i] == '"' && !inSingle then h == HashAt(v, i + 1, inSingle, !inDouble) && h > i
      else if v[i] == '\'' && !inDouble then h == HashAt(v, i + 1, !inSingle, inDouble) && h > i
      else if v[i] == '#' && !inSingle && !inDouble then h == i
      else h == HashAt(v, i + 1, inSingle, inDouble) && h > i && (v[i] == '\\' ==> h == |v| == i + 1)
  {
  }

  lemma SliceNone(v: string, i: nat, st: Quote)
    requires i <= |v|
    ensures NoHash(v[i..i], st) && End(v[i..i], st) == st
  {
  }

  lemma SliceStep(v: string, i: nat, h: nat, st: Quote)
    requires i < h <= |v|
    ensures NoHash(v[i..h], st) == (!(v[i] == '#' && st == Start) && NoHash(v[i + 1..h], After(st, v[i])))
    ensures End(v[i..h], st) == End(v[i + 1..h], After(st, v[i]))
    ensures i + 1 == h ==> NoHash(v[i + 1..h], After(st, v[i]))
  {
    assert v[i..h][0] == v[i] && v[i..h][1..] == v[i + 1..h];
  }

  lemma HashExactly(v: string)
    ensures var h := HashAt(v, 0, false, false); if h < |v| then FirstHash(v, h) else NoneBare(v)
  {
    var h := HashAt(v, 0, false, false);
    HashFound(v, 0, false, false);
    assert v[0..h] == v[..h] && v[..|v|] == v;
    NoHashCounts(v[..h]);
    hide NoHash, End, HashAt;
    forall j: nat | j < h ensures !BareHash(v, j) { BareInFront(v, h, j); }
  }

  // ----- What is left of the value -----

  predicate Gap(s: string) {
    forall i :: 0 <= i < |s| ==> s[i] == ' ' || s[i] == '\t'
  }

  /** The text in front of the first bare `#`, without the blanks at its end; a value without one stays. */
  ghost predicate CutOff(v: string, r: string) {
    r <= v &&
    if NoneBare(v) then r == v
    else
      (r != "" ==> r[|r| - 1] != ' ' && r[|r| - 1] != '\t') &&
      exists h: nat :: FirstHash(v, h) && |r| <= h && Gap(v[|r|..h])
  }

  lemma {:induction false} TrimRightExactly(s: string)
    ensures var r := TrimRight(s);
      Gap(s[|r|..]) && (r != "" ==> r[|r| - 1] != ' ' && r[|r| - 1] != '\t')
    decreases |s|
  {
    if s != "" && s[|s| - 1] in {' ', '\t'} {
      TrimRightExactly(s[..|s| - 1]);
      GapLast(s, |TrimRight(s[..|s| - 1])|);
    } else {
      assert s[|s|..] == "";
    }
  }

  lemma GapLast(s: string, k: nat)
    requires k < |s| && s[|s| - 1] in {' ', '\t'} && Gap(s[..|s| - 1][k..])
    ensures Gap(s[k..])
  {
    var n := |s| - 1;
    assert s[k..] == s[..n][k..] + [s[n]];
  }

  lemma FirstHashUnique(v: string, h: nat, k: nat)
    requires FirstHash(v, h) && FirstHash(v, k)
    ensures h == k
  {
  }

  lemma CutUnique(v: string, r: string, q: string)
    requires CutOff(v, r) && CutOff(v, q)
    ensures r == q
  {
    if !NoneBare(v) {
      var h: nat :| FirstHash(v, h) && |r| <= h && Gap(v[|r|..h]);
      var k: nat :| FirstHash(v, k) && |q| <= k && Gap(v[|q|..k]);
      FirstHashUnique(v, h, k);
      hide FirstHash, NoneBare;
    }
  }

  lemma CutIs(v: string)
    ensures CutOff(v, WithoutComment(v))
  {
    var h := HashAt(v, 0, false, false);
    HashExactly(v);
    if h < |v| {
      var r := TrimRight(v[..h]);
      TrimRightExactly(v[..h]);
      hide HashAt, TrimRight, BareHash;
      assert v[..h][|r|..] == v[|r|..h];
    }
  }

  /** `stripInlineComment` cuts off the comment, and nothing else. */
  lemma StripExactly(v: string, r: string)
    ensures WithoutComment(v) == r <==> CutOff(v, r)
  {
    CutIs(v);
    hide CutOff, WithoutComment;
    if CutOff(v, r) { CutUnique(v, r, WithoutComment(v)); }
  }

  // ----- A line with a comment -----

  /** A value whose quotes are closed and which ends in no escape. */
  predicate Settled(w: string) {
    Trimmed(w) && NoneBare(w) && End(w, Start) == Start
  }

  lemma CommentBehind(w: string, gap: string, comment: string)
    requires Settled(w) && Gap(gap) && comment != "" && comment[0] == '#'
    ensures WithoutComment(w + gap + comment) == w
  {
    var v := w + gap + comment;
    var h := |w| + |gap|;
    GapKeeps(gap);
    NoHashCounts(w);
    NoHashAppend(w, gap, Start);
    NoHashCounts(w + gap);
    assert v[..h] == w + gap && v[|w|..h] == gap && v[..|w|] == w && v[h] == comment[0];
    hide NoHash, End;
    forall j: nat | j < h ensures !BareHash(v, j) { BareInFront(v, h, j); }
    assert BareHash(v, h);
    hide BareHash;
    StripExactly(v, w);
  }

  lemma {:induction false} GapKeeps(gap: string)
    requires Gap(gap)
    ensures NoHash(gap, Start) && End(gap, Start) == Start
  {
    if gap != "" { GapKeeps(gap[1..]); }
  }

  /** A trimmed line, cut at its first `=`. */
  lemma ClassifyCut(line: string, head: string, val: string)
    requires TrimSpace(line) == head + "=" + val && '=' !in head && (head != "" ==> head[0] != '#')
    ensures var t := TrimSpace(line); var l := Classify(line);
      if t[0] == '[' && t[|t| - 1] == ']' then l.Nested? || l.Section?
      else l == Entry(TrimSpace(head), WithoutComment(TrimSpace(val)))
  {
    var t := TrimSpace(line);
    EqualsFound(head, val);
    HeaderEnds(t);
    assert t[..|head|] == head && t[|head| + 1..] == val;
    hide TrimSpace, WithoutComment, EqualsAt;
  }

  /** The comment without the whitespace at its end. */
  function CommentOf(c: string): string {
    TrimSpace("# " + c)
  }

  lemma CommentParts(c: string) returns (b: string)
    ensures "# " + c == CommentOf(c) + b && AllSpace(b) && Trimmed(CommentOf(c)) && CommentOf(c) != "" && CommentOf(c)[0] == '#'
  {
    var a: string;
    a, b := TrimParts("# " + c);
    CommentFront(a, CommentOf(c), b, c);
  }

  lemma CommentFront(a: string, t: string, b: string, c: string)
    requires AllSpace(a) && AllSpace(b) && a + t + b == "# " + c
    ensures t != "" && t[0] == '#' && a == ""
  {
    var s := "# " + c;
    assert s[0] == (a + t + b)[0] == '#';
  }

  /** The trimmed line. */
  function Visible(k: string, w: string, c: string): string {
    (if k == "" then "" else k + " ") + "=" + (" " + w + " " + CommentOf(c))
  }

  lemma VisibleIs(k: string, w: string, c: string)
    requires CleanKey(k)
    ensures TrimSpace(k + " = " + w + " # " + c) == Visible(k, w, c)
    ensures Visible(k, w, c) == (if k == "" then "" else k + " ") + "=" + (" " + w + " " + CommentOf(c))
    ensures CommentOf(c) != "" && Visible(k, w, c)[0] == (if k == "" then '=' else k[0])
    ensures Visible(k, w, c)[|Visible(k, w, c)| - 1] == CommentOf(c)[|CommentOf(c)| - 1]
  {
    var b := CommentParts(c);
    var t, line := Visible(k, w, c), k + " = " + w + " # " + c;
    var a := if k == "" then " " else "";
    hide TrimSpace, CommentOf;
    assert line == k + " = " + w + " " + ("# " + c);
    assert line == a + t + b;
    assert t[|t| - 1] == CommentOf(c)[|CommentOf(c)| - 1];
    assert Trimmed(t);
    TrimExactly(a, t, b);
  }

  lemma ValueTrims(w: string, comment: string)
    requires Trimmed(w) && Trimmed(comment) && comment != ""
    ensures TrimSpace(" " + w + " " + comment) == w + (if w == "" then "" else " ") + comment
  {
    if w == "" {
      assert " " + "" + " " + comment == "  " + comment + "";
      TrimExactly("  ", comment, "");
    } else {
      var x := w + " " + comment;
      assert " " + w + " " + comment == " " + x + "";
      assert x[0] == w[0] && x[|x| - 1] == comment[|comment| - 1];
      TrimExactly(" ", x, "");
    }
  }

  /** A value with a comment behind it is read as the value, whatever the comment says, unless the
      line has the brackets of a header. */
  lemma CommentedLine(k: string, w: string, c: string)
    requires CleanKey(k) && Settled(w)
    ensures var l := Classify(k + " = " + w + " # " + c);
      if k != "" && k[0] == '[' && EndsInBracket(CommentOf(c)) then l.Nested? || l.Section? else l == Entry(k, w)
  {
    hide *;
    var line := k + " = " + w + " # " + c;
    var head := if k == "" then "" else k + " ";
    var b := CommentParts(c);
    PartsClean(k, w, CommentOf(c));
    VisibleIs(k, w, c);
    ClassifyCut(line, head, " " + w + " " + CommentOf(c));
    ValueTrims(w, CommentOf(c));
    CommentBehind(w, if w == "" then "" else " ", CommentOf(c));
  }

  lemma PartsClean(k: string, w: string, comment: string)
    requires CleanKey(k) && Settled(w) && comment != "" && comment[0] == '#'
    ensures var head := if k == "" then "" else k + " ";
      TrimSpace(head) == k && '=' !in head && (head != "" ==> head[0] != '#')
    ensures Trimmed(w) && Gap(" ") && Gap("") && (w == "" ==> w + "" + comment == comment)
    ensures EndsInBracket(comment) == (comment[|comment| - 1] == ']')
  {
    TrimExactly("", k, if k == "" then "" else " ");
    hide TrimSpace, IsSpace, NoneBare, End;
    assert "" + k + (if k == "" then "" else " ") == if k == "" then "" else k + " ";
  }

  /** Wherever the line stands in a file, it enters this pair. */
  lemma CommentedRead(conf: Conf, scope: Scope, k: string, w: string, c: string, rest: string)
    requires CleanKey(k) && Settled(w) && '\n' !in w + c && !(k != "" && k[0] == '[' && EndsInBracket(CommentOf(c)))
    ensures Read(conf, scope, k + " = " + w + " # " + c + "\n" + rest) == Read(Enter(conf, scope, Entry(k, w)), scope, rest)
  {
    var line := k + " = " + w + " # " + c;
    var c1 := DropReturn(c);
    hide Read, Classify, Settled, TrimSpace;
    assert DropReturn(line) == k + " = " + w + " # " + c1;
    assert CommentOf(c1) == CommentOf(c) by {
      if c1 != c {
        assert "# " + c == "# " + c1 + ['\r'];
        TrimTrailing("# " + c1, '\r');
      }
    }
    CommentedLine(k, w, c1);
    ReadLine(conf, scope, line, rest);
  }
}
