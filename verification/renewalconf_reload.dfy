/** Saving a renewal configuration and loading it again. */
module RenewalReload {
  import opened Common
  import opened Text
  import opened RenewalValues
  import opened RenewalConf
  import opened RenewalStorable

  // ----- Clean files -----

  /** A key that its line shows as a key. */
  predicate CleanKey(k: string) {
    Trimmed(k) && '=' !in k && '\n' !in k && (k != "" ==> k[0] != '#')
  }

  predicate CleanPairs(pairs: seq<Pair>) {
    (forall i :: 0 <= i < |pairs| ==> CleanKey(pairs[i].key)) &&
    forall i, j :: 0 <= i < j < |pairs| ==> pairs[i].key != pairs[j].key
  }

  /** Under an empty name the reader has no place for pairs. */
  predicate CleanGroup(g: Group) {
    Trimmed(g.name) && '\n' !in g.name && CleanPairs(g.pairs) && (g.name == "" ==> g.pairs == [])
  }

  predicate DistinctNames(groups: seq<Group>) {
    forall i, j :: 0 <= i < j < |groups| ==> groups[i].name != groups[j].name
  }

  predicate CleanGroups(groups: seq<Group>) {
    DistinctNames(groups) && forall i :: 0 <= i < |groups| ==> CleanGroup(groups[i])
  }

  predicate NotParams(groups: seq<Group>) {
    forall i :: 0 <= i < |groups| ==> groups[i].name != "renewalparams"
  }

  predicate Clean(c: Conf) {
    CleanPairs(c.top) && CleanPairs(c.params) && CleanGroups(c.nested) && CleanGroups(c.sections) && NotParams(c.sections)
  }

  // ----- Lines that are taken for something else -----

  /** The line of the pair is taken for a header. */
  predicate LooksLikeHeader(p: Pair) {
    p.key != "" && p.key[0] == '[' && BracketEnd(p.value)
  }

  /** The header of the section is taken for a nested one. */
  predicate LooksNested(name: string) {
    name != "" && name[0] == '[' && name[|name| - 1] == ']'
  }

  predicate PlainPairs(pairs: seq<Pair>) {
    forall i :: 0 <= i < |pairs| ==> !LooksLikeHeader(pairs[i])
  }

  predicate PlainGroups(groups: seq<Group>) {
    forall i :: 0 <= i < |groups| ==> PlainPairs(groups[i].pairs)
  }

  predicate PlainNames(groups: seq<Group>) {
    forall i :: 0 <= i < |groups| ==> !LooksNested(groups[i].name)
  }

  predicate AllPlain(c: Conf) {
    PlainPairs(c.top) && PlainPairs(c.params) && PlainGroups(c.nested) && PlainGroups(c.sections) && PlainNames(c.sections)
  }

  // ----- What saving does to the values -----

  function Formatted(pairs: seq<Pair>): (r: seq<Pair>)
    ensures |r| == |pairs|
    ensures forall i :: 0 <= i < |pairs| ==> r[i] == Pair(pairs[i].key, FormatValue(pairs[i].value))
    decreases |pairs|
  {
    if pairs == [] then [] else [Pair(pairs[0].key, FormatValue(pairs[0].value))] + Formatted(pairs[1..])
  }

  function FormattedGroups(groups: seq<Group>): (r: seq<Group>)
    ensures |r| == |groups|
    ensures forall i :: 0 <= i < |groups| ==> r[i] == Group(groups[i].name, Formatted(groups[i].pairs))
    decreases |groups|
  {
    if groups == [] then [] else [Group(groups[0].name, Formatted(groups[0].pairs))] + FormattedGroups(groups[1..])
  }

  /** The same sections, keys and orders, with every value as it is written. */
  function Normal(c: Conf): Conf {
    Conf(Formatted(c.top), Formatted(c.params), FormattedGroups(c.nested), FormattedGroups(c.sections))
  }

  predicate StorablePairs(pairs: seq<Pair>) {
    forall i :: 0 <= i < |pairs| ==> Storable(pairs[i].value)
  }

  predicate StorableGroups(groups: seq<Group>) {
    forall i :: 0 <= i < |groups| ==> StorablePairs(groups[i].pairs)
  }

  predicate AllStorable(c: Conf) {
    StorablePairs(c.top) && StorablePairs(c.params) && StorableGroups(c.nested) && StorableGroups(c.sections)
  }

  // ----- One line -----

  lemma {:induction false} LineEndAt(line: string, rest: string)
    requires '\n' !in line
    ensures LineEnd(line + "\n" + rest) == |line|
  {
    if line != "" {
      LineEndAt(line[1..], rest);
      assert (line + "\n" + rest)[1..] == line[1..] + "\n" + rest;
    }
  }

  lemma LinesCons(line: string, rest: string)
    requires '\n' !in line
    ensures Lines(line + "\n" + rest) == [DropReturn(line)] + Lines(rest)
  {
    var text := line + "\n" + rest;
    LineEndAt(line, rest);
    assert text[..|line|] == line && text[|line| + 1..] == rest;
    if rest == "" { assert Lines(rest) == []; }
  }

  /** Reading text from the scope that the reader is in. */
  function Read(c: Conf, scope: Scope, text: string): Result {
    ParseLines(c, scope, Lines(text))
  }

  lemma ReadLine(c: Conf, scope: Scope, line: string, rest: string)
    requires '\n' !in line && Classify(DropReturn(line)) != Malformed
    ensures var l := Classify(DropReturn(line));
      Read(c, scope, line + "\n" + rest) == Read(Enter(c, scope, l), NextScope(scope, l), rest)
  {
    LinesCons(line, rest);
    assert ([DropReturn(line)] + Lines(rest))[1..] == Lines(rest);
  }

  lemma EqualsFound(a: string, b: string)
    requires '=' !in a
    ensures EqualsAt(a + "=" + b) == |a|
  {
    var s := a + "=" + b;
    assert s[|a|] == '=' && forall i :: 0 <= i < |a| ==> s[i] == a[i];
  }

  lemma TrimEnds(a: string, b: string)
    requires Trimmed(a) && Trimmed(b) && a != "" && b != ""
    ensures forall m: string :: TrimSpace(a + m + b) == a + m + b
  {
    forall m: string ensures TrimSpace(a + m + b) == a + m + b {
      var s := a + m + b;
      assert s[0] == a[0] && s[|s| - 1] == b[|b| - 1];
    }
  }

  lemma PairCutEmpty(k: string)
    requires CleanKey(k) && k != ""
    ensures var line := k + " = "; var t := TrimSpace(line);
      DropReturn(line) == line && t == k + " =" && EqualsAt(t) == |k| + 1 && t[..|k| + 1] == k + " " && t[|k| + 2..] == ""
  {
    var head := k + " ";
    assert '=' !in head;
    assert k + " = " == k + " =" + [' '];
    TrimTrailing(k + " =", ' ');
    TrimEnds(k, "=");
    assert k + " " + "=" == k + " =";
    EqualsFound(head, "");
    assert head + "=" + "" == k + " =";
  }

  lemma PairCutFull(k: string, w: string)
    requires CleanKey(k) && k != "" && Trimmed(w) && w != ""
    ensures var t := k + " = " + w;
      DropReturn(t) == t && TrimSpace(t) == t && EqualsAt(t) == |k| + 1 && t[..|k| + 1] == k + " " && t[|k| + 2..] == [' '] + w
  {
    var head := k + " ";
    assert '=' !in head;
    TrimEnds(k, w);
    EqualsFound(head, " " + w);
    assert head + "=" + (" " + w) == k + " = " + w;
  }

  lemma PairCutNoKey(w: string)
    requires Trimmed(w)
    ensures var line := "" + " = " + w; var t := TrimSpace(line);
      DropReturn(line) == line && t == (if w == "" then "=" else "= " + w) && EqualsAt(t) == 0
  {
    var line := "" + " = " + w;
    assert line[|line| - 1] == if w == "" then ' ' else w[|w| - 1];
    if w == "" {
      assert line == [' '] + ("=" + [' ']);
      TrimLeading(' ', "=" + [' ']);
      TrimTrailing("=", ' ');
      TrimmedStays("=");
    } else {
      assert line == [' '] + ("= " + w);
      TrimLeading(' ', "= " + w);
      TrimEnds("=", w);
      assert "=" + " " + w == "= " + w;
    }
  }

  /** The trimmed line of a pair, cut at its `=`, and its ends. */
  predicate CutsAs(line: string, k: string, w: string) {
    var t := TrimSpace(line);
    var i := EqualsAt(t);
    DropReturn(line) == line && i < |t| && TrimSpace(t[..i]) == k && TrimSpace(t[i + 1..]) == w &&
    t[0] == (if k == "" then '=' else k[0]) && t[|t| - 1] == (if w == "" then '=' else w[|w| - 1])
  }

  lemma CutNoKey(w: string)
    requires Trimmed(w)
    ensures CutsAs("" + " = " + w, "", w)
  {
    PairCutNoKey(w);
    TrimmedStays(w);
    TrimLeading(' ', w);
    hide DropReturn, EqualsAt, TrimSpace, Trimmed;
    assert w != "" ==> ("= " + w)[1..] == [' '] + w;
    assert TrimSpace("") == "" by { TrimmedStays(""); }
  }

  lemma CutEmpty(k: string)
    requires CleanKey(k) && k != ""
    ensures CutsAs(k + " = ", k, "")
  {
    PairCutEmpty(k);
    TrimmedStays(k);
    TrimTrailing(k, ' ');
    hide DropReturn, EqualsAt, TrimSpace, Trimmed, CleanKey;
    assert TrimSpace("") == "" by { TrimmedStays(""); }
  }

  lemma CutFull(k: string, w: string)
    requires CleanKey(k) && k != "" && Trimmed(w) && w != ""
    ensures CutsAs(k + " = " + w, k, w)
  {
    PairCutFull(k, w);
    TrimmedStays(k);
    TrimmedStays(w);
    TrimTrailing(k, ' ');
    TrimLeading(' ', w);
    hide DropReturn, EqualsAt, TrimSpace, Trimmed, CleanKey;
  }

  lemma PairCut(k: string, w: string)
    requires CleanKey(k) && Trimmed(w)
    ensures CutsAs(k + " = " + w, k, w)
  {
    hide *;
    if k == "" {
      CutNoKey(w);
    } else if w == "" {
      CutEmpty(k);
      assert k + " = " + "" == k + " = ";
    } else {
      CutFull(k, w);
    }
  }

  /** The line of a pair is read as that pair unless it has the brackets of a header. */
  lemma PairLine(k: string, w: string)
    requires CleanKey(k) && Trimmed(w) && NoBareHash(w)
    ensures var l := Classify(DropReturn(k + " = " + w));
      if k != "" && k[0] == '[' && EndsInBracket(w) then l.Nested? || l.Section? else l == Entry(k, w)
  {
    PairCut(k, w);
    CommentGone(w);
    var t := TrimSpace(k + " = " + w);
    hide TrimSpace, EqualsAt, NoBareHash, WithoutComment, DropReturn;
    HeaderEnds(t);
  }

  lemma HeaderEnds(t: string)
    requires t != ""
    ensures HasPrefix(t, "[") && HasSuffix(t, "]") <==> t[0] == '[' && t[|t| - 1] == ']'
    ensures HasPrefix(t, "[[") && HasSuffix(t, "]]") ==> t[0] == '[' && t[|t| - 1] == ']'
  {
    assert t[..1] == [t[0]] && t[|t| - 1..] == [t[|t| - 1]];
    if HasPrefix(t, "[[") && HasSuffix(t, "]]") { assert t[..2][0] == t[0] && t[|t| - 2..][1] == t[|t| - 1]; }
  }

  lemma Bracket(t: string)
    requires t != "" && t[0] == '[' && t[|t| - 1] == ']'
    ensures DropReturn(t) == t && TrimSpace(t) == t
  {
    assert !IsSpace('[') && !IsSpace(']');
  }

  lemma NestedLine(n: string)
    requires Trimmed(n)
    ensures Classify(DropReturn("[[" + n + "]]")) == Nested(n)
  {
    var t := "[[" + n + "]]";
    Bracket(t);
    TrimmedStays(n);
    hide TrimSpace, Trimmed, EqualsAt;
    assert t[..2] == "[[" && t[|t| - 2..] == "]]" && t[2..|t| - 2] == n;
  }

  /** The header of a section is read as that section unless it has the brackets of a nested one. */
  lemma SectionLine(n: string)
    requires Trimmed(n)
    ensures var l := Classify(DropReturn("[" + n + "]")); if LooksNested(n) then l.Nested? else l == Section(n)
  {
    var t := "[" + n + "]";
    Bracket(t);
    TrimmedStays(n);
    hide TrimSpace, Trimmed, EqualsAt;
    assert t[..1] == "[" && t[|t| - 1..] == "]" && t[1..|t| - 1] == n;
    if n != "" { assert t[..2] == ['[', n[0]] && t[|t| - 2..] == [n[|n| - 1], ']']; }
  }

  // ----- The lines of one table -----

  /** Entering the pairs as they are written. */
  function EnterAll(c: Conf, scope: Scope, pairs: seq<Pair>): Conf
    decreases |pairs|
  {
    if pairs == [] then c
    else EnterAll(Enter(c, scope, Entry(pairs[0].key, FormatValue(pairs[0].value))), scope, pairs[1..])
  }

  lemma CleanTail(pairs: seq<Pair>)
    requires CleanPairs(pairs) && pairs != []
    ensures CleanKey(pairs[0].key) && CleanPairs(pairs[1..]) && forall i :: 0 <= i < |pairs| - 1 ==> pairs[1..][i].key != pairs[0].key
  {
  }

  lemma NoNewline(k: string, w: string)
    requires '\n' !in k && '\n' !in w
    ensures '\n' !in k + " = " + w
  {
  }

  lemma ReadPair(c: Conf, scope: Scope, p: Pair, rest: string)
    requires CleanKey(p.key) && Storable(p.value) && !LooksLikeHeader(p)
    ensures Read(c, scope, p.key + " = " + FormatValue(p.value) + "\n" + rest) ==
      Read(Enter(c, scope, Entry(p.key, FormatValue(p.value))), scope, rest)
  {
    var w := FormatValue(p.value);
    FormatIdempotent(p.value);
    BracketEndExactly(p.value);
    PairLine(p.key, w);
    NoNewline(p.key, w);
    hide Read, BracketEnd, EndsInBracket, FormatValue, Classify, DropReturn, Enter;
    ReadLine(c, scope, p.key + " = " + w, rest);
  }

  lemma {:induction false} ReadPairs(c: Conf, scope: Scope, pairs: seq<Pair>, rest: string)
    requires CleanPairs(pairs) && StorablePairs(pairs) && PlainPairs(pairs)
    ensures Read(c, scope, RenderPairs(pairs) + rest) == Read(EnterAll(c, scope, pairs), scope, rest)
    decreases |pairs|
  {
    hide Read, FormatValue, CleanKey, Storable, LooksLikeHeader, Enter, CleanPairs;
    if pairs == [] {
      assert "" + rest == rest;
    } else {
      var p := pairs[0];
      CleanTail(pairs);
      var line := p.key + " = " + FormatValue(p.value) + "\n";
      Assoc(line, RenderPairs(pairs[1..]), rest);
      ReadPair(c, scope, p, RenderPairs(pairs[1..]) + rest);
      ReadPairs(Enter(c, scope, Entry(p.key, FormatValue(p.value))), scope, pairs[1..], rest);
    }
  }

  predicate HasKey(pairs: seq<Pair>, key: string) {
    exists i :: 0 <= i < |pairs| && pairs[i].key == key
  }

  lemma {:induction false} PutNew(pairs: seq<Pair>, key: string, value: string)
    requires !HasKey(pairs, key)
    ensures Put(pairs, key, value) == pairs + [Pair(key, value)]
    decreases |pairs|
  {
    if pairs != [] {
      assert pairs[0].key != key;
      assert forall i :: 0 <= i < |pairs| - 1 ==> pairs[1..][i] == pairs[i + 1];
      PutNew(pairs[1..], key, value);
    }
  }

  function PutAll(into: seq<Pair>, pairs: seq<Pair>): seq<Pair>
    decreases |pairs|
  {
    if pairs == [] then into else PutAll(Put(into, pairs[0].key, FormatValue(pairs[0].value)), pairs[1..])
  }

  lemma {:induction false} PutAllNew(into: seq<Pair>, pairs: seq<Pair>)
    requires CleanPairs(pairs) && forall i :: 0 <= i < |pairs| ==> !HasKey(into, pairs[i].key)
    ensures PutAll(into, pairs) == into + Formatted(pairs)
    decreases |pairs|
  {
    if pairs == [] {
      assert into + [] == into;
    } else {
      var p := Pair(pairs[0].key, FormatValue(pairs[0].value));
      CleanTail(pairs);
      PutNew(into, p.key, p.value);
      hide FormatValue, CleanKey, CleanPairs;
      forall i | 0 <= i < |pairs| - 1 ensures !HasKey(into + [p], pairs[1..][i].key) {
        assert !HasKey(into, pairs[i + 1].key) && pairs[1..][i] == pairs[i + 1];
      }
      PutAllNew(into + [p], pairs[1..]);
      Assoc(into, [p], Formatted(pairs[1..]));
    }
  }

  lemma {:induction false} EnterTop(c: Conf, pairs: seq<Pair>)
    ensures EnterAll(c, Scope("", ""), pairs) == c.(top := PutAll(c.top, pairs))
    decreases |pairs|
  {
    if pairs != [] { EnterTop(Enter(c, Scope("", ""), Entry(pairs[0].key, FormatValue(pairs[0].value))), pairs[1..]); }
  }

  lemma {:induction false} EnterParams(c: Conf, pairs: seq<Pair>)
    ensures EnterAll(c, Scope("renewalparams", ""), pairs) == c.(params := PutAll(c.params, pairs))
    decreases |pairs|
  {
    if pairs != [] {
      EnterParams(Enter(c, Scope("renewalparams", ""), Entry(pairs[0].key, FormatValue(pairs[0].value))), pairs[1..]);
    }
  }

  /** Setting a key in the last group. */
  lemma {:induction false} PutInLast(groups: seq<Group>, name: string, pairs: seq<Pair>, key: string, value: string)
    requires !HasGroup(groups, name)
    ensures PutIn(groups + [Group(name, pairs)], name, key, value) == groups + [Group(name, Put(pairs, key, value))]
    decreases |groups|
  {
    hide Put;
    var all := groups + [Group(name, pairs)];
    if groups == [] {
      assert all[1..] == [];
    } else {
      assert groups[0].name != name && all[0] == groups[0] && all[1..] == groups[1..] + [Group(name, pairs)];
      assert forall i :: 0 <= i < |groups| - 1 ==> groups[1..][i] == groups[i + 1];
      PutInLast(groups[1..], name, pairs, key, value);
      assert groups == [groups[0]] + groups[1..];
      Assoc([groups[0]], groups[1..], [Group(name, Put(pairs, key, value))]);
    }
  }

  lemma {:induction false} EnterNested(c: Conf, name: string, before: seq<Group>, done: seq<Pair>, pairs: seq<Pair>)
    requires name != "" && c.nested == before + [Group(name, done)] && !HasGroup(before, name)
    ensures EnterAll(c, Scope("renewalparams", name), pairs) == c.(nested := before + [Group(name, PutAll(done, pairs))])
    decreases |pairs|
  {
    if pairs != [] {
      var key, value := pairs[0].key, FormatValue(pairs[0].value);
      PutInLast(before, name, done, key, value);
      hide FormatValue, Put, PutIn, HasGroup;
      var c1 := Enter(c, Scope("renewalparams", name), Entry(key, value));
      EnterNested(c1, name, before, Put(done, key, value), pairs[1..]);
    }
  }

  lemma {:induction false} EnterSection(c: Conf, name: string, before: seq<Group>, done: seq<Pair>, pairs: seq<Pair>)
    requires name !in {"", "renewalparams"} && c.sections == before + [Group(name, done)] && !HasGroup(before, name)
    ensures EnterAll(c, Scope(name, ""), pairs) == c.(sections := before + [Group(name, PutAll(done, pairs))])
    decreases |pairs|
  {
    if pairs != [] {
      var key, value := pairs[0].key, FormatValue(pairs[0].value);
      PutInLast(before, name, done, key, value);
      hide FormatValue, Put, PutIn, HasGroup;
      var c1 := Enter(c, Scope(name, ""), Entry(key, value));
      EnterSection(c1, name, before, Put(done, key, value), pairs[1..]);
    }
  }

  // ----- The lines of the groups -----

  lemma OpenNew(groups: seq<Group>, name: string)
    requires !HasGroup(groups, name)
    ensures OpenGroup(groups, name) == groups + [Group(name, [])]
  {
  }

  lemma PutAllEmpty(pairs: seq<Pair>)
    requires CleanPairs(pairs)
    ensures PutAll([], pairs) == Formatted(pairs)
  {
    PutAllNew([], pairs);
    assert [] + Formatted(pairs) == Formatted(pairs);
  }

  lemma NestedHeader(c: Conf, scope: Scope, name: string, body: string)
    requires Trimmed(name) && '\n' !in name && !HasGroup(c.nested, name)
    ensures Read(c, scope, "[[" + name + "]]\n" + body) ==
      Read(c.(nested := c.nested + [Group(name, [])]), scope.(nested := name), body)
  {
    var line := "[[" + name + "]]";
    NestedLine(name);
    OpenNew(c.nested, name);
    assert "[[" + name + "]]\n" + body == line + "\n" + body;
    assert '\n' !in line;
    hide Read, Classify, Trimmed, HasGroup, OpenGroup, DropReturn;
    ReadLine(c, scope, line, body);
  }

  lemma SectionHeader(c: Conf, scope: Scope, name: string, body: string)
    requires Trimmed(name) && '\n' !in name && !LooksNested(name) && name != "renewalparams" && !HasGroup(c.sections, name)
    ensures Read(c, scope, "[" + name + "]\n" + body) ==
      Read(c.(sections := c.sections + [Group(name, [])]), Scope(name, ""), body)
  {
    var line := "[" + name + "]";
    SectionLine(name);
    OpenNew(c.sections, name);
    assert "[" + name + "]\n" + body == line + "\n" + body;
    assert '\n' !in line;
    hide Read, Classify, Trimmed, HasGroup, OpenGroup, DropReturn;
    ReadLine(c, scope, line, body);
  }

  /** One nested section: its header and its pairs. */
  lemma ReadNestedGroup(c: Conf, scope: Scope, g: Group, rest: string)
    requires scope.section == "renewalparams" && !HasGroup(c.nested, g.name)
    requires CleanGroup(g) && StorablePairs(g.pairs) && PlainPairs(g.pairs)
    ensures Read(c, scope, "[[" + g.name + "]]\n" + RenderPairs(g.pairs) + rest) ==
      Read(c.(nested := c.nested + [Group(g.name, Formatted(g.pairs))]), Scope("renewalparams", g.name), rest)
  {
    assert g.name == "" ==> g.pairs == [] && Formatted(g.pairs) == [] && RenderPairs(g.pairs) + rest == rest;
    hide Read, RenderPairs, Trimmed, CleanPairs, StorablePairs, PlainPairs, HasGroup, Formatted, EnterAll, PutAll;
    var c1 := c.(nested := c.nested + [Group(g.name, [])]);
    Assoc("[[" + g.name + "]]\n", RenderPairs(g.pairs), rest);
    NestedHeader(c, scope, g.name, RenderPairs(g.pairs) + rest);
    if g.name != "" {
      ReadPairs(c1, Scope("renewalparams", g.name), g.pairs, rest);
      EnterNested(c1, g.name, c.nested, [], g.pairs);
      PutAllEmpty(g.pairs);
    }
  }

  /** One other section. */
  lemma ReadSectionGroup(c: Conf, scope: Scope, g: Group, rest: string)
    requires !HasGroup(c.sections, g.name) && g.name != "renewalparams" && !LooksNested(g.name)
    requires CleanGroup(g) && StorablePairs(g.pairs) && PlainPairs(g.pairs)
    ensures Read(c, scope, "[" + g.name + "]\n" + RenderPairs(g.pairs) + rest) ==
      Read(c.(sections := c.sections + [Group(g.name, Formatted(g.pairs))]), Scope(g.name, ""), rest)
  {
    assert g.name == "" ==> g.pairs == [] && Formatted(g.pairs) == [] && RenderPairs(g.pairs) + rest == rest;
    hide Read, RenderPairs, Trimmed, CleanPairs, StorablePairs, PlainPairs, HasGroup, Formatted, EnterAll, PutAll, LooksNested;
    var c1 := c.(sections := c.sections + [Group(g.name, [])]);
    Assoc("[" + g.name + "]\n", RenderPairs(g.pairs), rest);
    SectionHeader(c, scope, g.name, RenderPairs(g.pairs) + rest);
    if g.name != "" {
      ReadPairs(c1, Scope(g.name, ""), g.pairs, rest);
      EnterSection(c1, g.name, c.sections, [], g.pairs);
      PutAllEmpty(g.pairs);
    }
  }

  predicate NoneOf(groups: seq<Group>, more: seq<Group>) {
    forall i :: 0 <= i < |more| ==> !HasGroup(groups, more[i].name)
  }

  lemma NoneOfTail(groups: seq<Group>, more: seq<Group>, pairs: seq<Pair>)
    requires NoneOf(groups, more) && more != [] && DistinctNames(more)
    ensures NoneOf(groups + [Group(more[0].name, pairs)], more[1..]) && DistinctNames(more[1..])
  {
    var all := groups + [Group(more[0].name, pairs)];
    forall i | 0 <= i < |more| - 1 ensures !HasGroup(all, more[1..][i].name) {
      assert !HasGroup(groups, more[i + 1].name);
      assert forall j :: 0 <= j < |groups| ==> all[j] == groups[j];
    }
  }

  lemma {:induction false} ReadNested(c: Conf, scope: Scope, groups: seq<Group>, rest: string) returns (last: Scope)
    requires scope.section == "renewalparams" && CleanGroups(groups) && NoneOf(c.nested, groups)
    requires StorableGroups(groups) && PlainGroups(groups)
    ensures Read(c, scope, RenderNested(groups) + rest) == Read(c.(nested := c.nested + FormattedGroups(groups)), last, rest)
    decreases |groups|
  {
    if groups == [] {
      assert "" + rest == rest && c.nested + [] == c.nested;
      last := scope;
    } else {
      var g := groups[0];
      NoneOfTail(c.nested, groups, Formatted(g.pairs));
      assert CleanGroups(groups[1..]) && StorableGroups(groups[1..]) && PlainGroups(groups[1..]);
      assert !HasGroup(c.nested, g.name);
      hide Read, RenderPairs, HasGroup, CleanGroup, StorablePairs, PlainPairs, NoneOf, Formatted;
      var part := "[[" + g.name + "]]\n" + RenderPairs(g.pairs);
      Assoc(part, RenderNested(groups[1..]), rest);
      ReadNestedGroup(c, scope, g, RenderNested(groups[1..]) + rest);
      var one := Group(g.name, Formatted(g.pairs));
      last := ReadNested(c.(nested := c.nested + [one]), Scope("renewalparams", g.name), groups[1..], rest);
      Assoc(c.nested, [one], FormattedGroups(groups[1..]));
    }
  }

  lemma {:induction false} ReadSections(c: Conf, scope: Scope, groups: seq<Group>) returns (last: Scope)
    requires CleanGroups(groups) && NotParams(groups) && PlainNames(groups) && NoneOf(c.sections, groups)
    requires StorableGroups(groups) && PlainGroups(groups)
    ensures Read(c, scope, RenderSections(groups)) == Read(c.(sections := c.sections + FormattedGroups(groups)), last, "")
    decreases |groups|
  {
    if groups == [] {
      assert c.sections + [] == c.sections;
      last := scope;
    } else {
      var g := groups[0];
      NoneOfTail(c.sections, groups, Formatted(g.pairs));
      assert CleanGroups(groups[1..]) && StorableGroups(groups[1..]) && PlainGroups(groups[1..]);
      assert NotParams(groups[1..]) && PlainNames(groups[1..]) && groups[0].name != "renewalparams" && !LooksNested(groups[0].name);
      assert !HasGroup(c.sections, g.name);
      hide Read, RenderPairs, HasGroup, CleanGroup, LooksNested, StorablePairs, PlainPairs, NoneOf, Formatted;
      ReadSectionGroup(c, scope, g, RenderSections(groups[1..]));
      var one := Group(g.name, Formatted(g.pairs));
      last := ReadSections(c.(sections := c.sections + [one]), Scope(g.name, ""), groups[1..]);
      Assoc(c.sections, [one], FormattedGroups(groups[1..]));
    }
  }

  // ----- The whole file -----

  lemma NoneOfEmpty(groups: seq<Group>)
    ensures NoneOf([], groups)
  {
  }

  /** Every storable file with lines that fit reads back. */
  lemma Reloads(c: Conf)
    requires Clean(c) && AllStorable(c) && AllPlain(c) && LinesFit(Render(c))
    ensures Parse(Render(c)) == Good(Normal(c))
  {
    NoneOfEmpty(c.nested);
    NoneOfEmpty(c.sections);
    RenewalparamsLine();
    hide Classify, Read, RenderPairs, RenderNested, RenderSections, CleanPairs, StorablePairs, PlainPairs,
      CleanGroups, StorableGroups, PlainGroups, NotParams, PlainNames, NoneOf, Formatted, FormattedGroups, PutAll;
    var others := RenderSections(c.sections);
    var nests := RenderNested(c.nested) + others;
    var params := RenderPairs(c.params) + nests;
    RenderedInOrder(c);
    var c0, top := EmptyConf, Scope("", "");
    ReadPairs(c0, top, c.top, "[renewalparams]" + "\n" + params);
    EnterTop(c0, c.top);
    PutAllEmpty(c.top);
    var c1 := c0.(top := Formatted(c.top));
    ReadLine(c1, top, "[renewalparams]", params);
    var scope := Scope("renewalparams", "");
    ReadPairs(c1, scope, c.params, nests);
    EnterParams(c1, c.params);
    PutAllEmpty(c.params);
    var c2 := c1.(params := Formatted(c.params));
    var scope2 := ReadNested(c2, scope, c.nested, others);
    var c3 := c2.(nested := [] + FormattedGroups(c.nested));
    var scope3 := ReadSections(c3, scope2, c.sections);
    ReadNothing(c3.(sections := [] + FormattedGroups(c.sections)), scope3);
    ParseIsRead(Render(c));
    assert [] + FormattedGroups(c.nested) == FormattedGroups(c.nested);
    assert [] + FormattedGroups(c.sections) == FormattedGroups(c.sections);
  }

  lemma RenewalparamsLine()
    ensures '\n' !in "[renewalparams]" && DropReturn("[renewalparams]") == "[renewalparams]"
    ensures Classify("[renewalparams]") == Section("renewalparams")
  {
    ParamsName();
    BracketedLine("renewalparams", "[renewalparams]");
  }

  lemma ParamsName()
    ensures Trimmed("renewalparams") && !LooksNested("renewalparams")
    ensures "[" + "renewalparams" + "]" == "[renewalparams]" && '\n' !in "[renewalparams]"
  {
    assert "renewalparams"[0] == 'r' && "renewalparams"[12] == 's' && !IsSpace('r') && !IsSpace('s');
  }

  lemma BracketedLine(n: string, line: string)
    requires Trimmed(n) && !LooksNested(n) && line == "[" + n + "]"
    ensures DropReturn(line) == line && Classify(line) == Section(n)
  {
    hide Classify, TrimSpace;
    Bracket(line);
    SectionLine(n);
  }

  lemma RenderedInOrder(c: Conf)
    ensures Render(c) == RenderPairs(c.top) +
      ("[renewalparams]" + "\n" + (RenderPairs(c.params) + (RenderNested(c.nested) + RenderSections(c.sections))))
  {
    hide RenderPairs, RenderNested, RenderSections;
    var a, b, n, s := RenderPairs(c.top), RenderPairs(c.params), RenderNested(c.nested), RenderSections(c.sections);
    var h := "[renewalparams]\n";
    assert h == "[renewalparams]" + "\n";
    Assoc(a, h, b);
    Assoc(a, h + b, n);
    Assoc(a, h + b + n, s);
    Assoc(h, b, n);
    Assoc(h, b + n, s);
    Assoc(b, n, s);
  }

  lemma ReadNothing(c: Conf, scope: Scope)
    ensures Read(c, scope, "") == Good(c)
  {
  }

  lemma ParseIsRead(text: string)
    requires LinesFit(text)
    ensures Parse(text) == Read(EmptyConf, Scope("", ""), text)
  {
  }

  // ----- What a reader can deliver at all -----

  /** Every pair is as it should be. */
  predicate PairsAre(pairs: seq<Pair>, ok: Pair -> bool) {
    forall i :: 0 <= i < |pairs| ==> ok(pairs[i])
  }

  predicate GroupsAre(groups: seq<Group>, ok: Pair -> bool) {
    forall i :: 0 <= i < |groups| ==> PairsAre(groups[i].pairs, ok)
  }

  predicate AllAre(c: Conf, ok: Pair -> bool) {
    PairsAre(c.top, ok) && PairsAre(c.params, ok) && GroupsAre(c.nested, ok) && GroupsAre(c.sections, ok)
  }

  predicate NamesAre(groups: seq<Group>, ok: string -> bool) {
    forall i :: 0 <= i < |groups| ==> ok(groups[i].name)
  }

  lemma {:induction false} PutAre(pairs: seq<Pair>, key: string, value: string, ok: Pair -> bool)
    requires PairsAre(pairs, ok) && ok(Pair(key, value))
    ensures PairsAre(Put(pairs, key, value), ok)
    decreases |pairs|
  {
    if pairs != [] { PutAre(pairs[1..], key, value, ok); }
  }

  lemma {:induction false} PutInAre(groups: seq<Group>, name: string, key: string, value: string, ok: Pair -> bool)
    requires GroupsAre(groups, ok) && ok(Pair(key, value))
    ensures GroupsAre(PutIn(groups, name, key, value), ok)
    decreases |groups|
  {
    hide PairsAre, Put;
    if groups != [] {
      PutAre(groups[0].pairs, key, value, ok);
      PutInAre(groups[1..], name, key, value, ok);
    }
  }

  lemma {:induction false} PutInNames(groups: seq<Group>, name: string, key: string, value: string)
    ensures var r := PutIn(groups, name, key, value);
      |r| == |groups| && forall i :: 0 <= i < |r| ==> r[i].name == groups[i].name
    decreases |groups|
  {
    if groups != [] { PutInNames(groups[1..], name, key, value); }
  }

  lemma OpenAre(groups: seq<Group>, name: string, ok: Pair -> bool)
    requires GroupsAre(groups, ok)
    ensures GroupsAre(OpenGroup(groups, name), ok)
  {
  }

  lemma EnterAre(c: Conf, scope: Scope, l: Line, ok: Pair -> bool)
    requires AllAre(c, ok) && (l.Entry? ==> ok(Pair(l.key, l.value)))
    ensures AllAre(Enter(c, scope, l), ok)
  {
    hide PairsAre, GroupsAre, Put, PutIn, OpenGroup;
    if l.Entry? {
      PutAre(c.top, l.key, l.value, ok);
      PutAre(c.params, l.key, l.value, ok);
      PutInAre(c.nested, scope.nested, l.key, l.value, ok);
      PutInAre(c.sections, scope.section, l.key, l.value, ok);
    } else if l.Nested? {
      OpenAre(c.nested, l.name, ok);
    } else if l.Section? {
      OpenAre(c.sections, l.name, ok);
    }
  }

  lemma EnterNames(c: Conf, scope: Scope, l: Line, ok: string -> bool)
    requires NamesAre(c.sections, ok) && (l.Section? ==> ok(l.name))
    ensures NamesAre(Enter(c, scope, l).sections, ok)
  {
    if l.Entry? { PutInNames(c.sections, scope.section, l.key, l.value); }
  }

  /** Every line that is a pair is as it should be, or every line that names a section. */
  predicate LinesPair(lines: seq<string>, ok: Pair -> bool) {
    forall i :: 0 <= i < |lines| ==> var l := Classify(lines[i]); l.Entry? ==> ok(Pair(l.key, l.value))
  }

  predicate LinesName(lines: seq<string>, ok: string -> bool) {
    forall i :: 0 <= i < |lines| ==> var l := Classify(lines[i]); l.Section? ==> ok(l.name)
  }

  lemma {:induction false} ReadsAre(c: Conf, scope: Scope, lines: seq<string>, ok: Pair -> bool)
    requires AllAre(c, ok) && LinesPair(lines, ok)
    ensures ParseLines(c, scope, lines).Good? ==> AllAre(ParseLines(c, scope, lines).conf, ok)
    decreases |lines|
  {
    hide AllAre, Classify, Enter;
    if lines != [] {
      var l := Classify(lines[0]);
      if l != Malformed {
        EnterAre(c, scope, l, ok);
        ReadsAre(Enter(c, scope, l), NextScope(scope, l), lines[1..], ok);
      }
    }
  }

  lemma {:induction false} ReadsNames(c: Conf, scope: Scope, lines: seq<string>, ok: string -> bool)
    requires NamesAre(c.sections, ok) && LinesName(lines, ok)
    ensures ParseLines(c, scope, lines).Good? ==> NamesAre(ParseLines(c, scope, lines).conf.sections, ok)
    decreases |lines|
  {
    hide NamesAre, Classify, Enter;
    if lines != [] {
      var l := Classify(lines[0]);
      if l != Malformed {
        EnterNames(c, scope, l, ok);
        ReadsNames(Enter(c, scope, l), NextScope(scope, l), lines[1..], ok);
      }
    }
  }

  /** A value that came from one line. */
  predicate Deliverable(p: Pair) {
    '\n' !in p.value && NoBareHash(p.value)
  }

  lemma EntryDeliverable(line: string)
    requires '\n' !in line && Classify(line).Entry?
    ensures Deliverable(Pair(Classify(line).key, Classify(line).value))
  {
    hide TrimSpace, WithoutComment, NoBareHash, IsSpace;
    var t := TrimSpace(line);
    var tail := t[EqualsAt(t) + 1..];
    var v := TrimSpace(tail);
    TrimSpaceTrims(line);
    TrimSpaceTrims(tail);
    CommentGone(v);
    WithoutIsPrefix(v);
    assert '\n' !in t;
    assert forall c <- tail :: c in t;
    assert '\n' !in v;
    assert forall c <- WithoutComment(v) :: c in v;
  }

  lemma WithoutIsPrefix(v: string)
    ensures WithoutComment(v) <= v
  {
  }

  lemma {:induction false} LinesAreLines(text: string)
    ensures forall i :: 0 <= i < |Lines(text)| ==> '\n' !in Lines(text)[i]
    decreases |text|
  {
    if text != "" {
      var n := LineEnd(text);
      assert '\n' !in DropReturn(text[..n]);
      if n < |text| { LinesAreLines(text[n + 1..]); }
    }
  }

  /** Whatever is parsed, its values came from lines. */
  lemma ParsedDeliverable(text: string)
    ensures Parse(text).Good? ==> AllAre(Parse(text).conf, Deliverable)
  {
    LinesAreLines(text);
    hide Classify, Deliverable, ParseLines, Lines, LinesFit;
    forall i | 0 <= i < |Lines(text)| && Classify(Lines(text)[i]).Entry?
      ensures var l := Classify(Lines(text)[i]); Deliverable(Pair(l.key, l.value))
    {
      EntryDeliverable(Lines(text)[i]);
    }
    ReadsAre(EmptyConf, Scope("", ""), Lines(text), Deliverable);
  }

  lemma NormalDeliverable(c: Conf)
    requires AllAre(Normal(c), Deliverable)
    ensures AllStorable(c)
  {
    hide PairsAre, GroupsAre, StorablePairs, StorableGroups, Formatted, FormattedGroups;
    PairsBack(c.top);
    PairsBack(c.params);
    GroupsBack(c.nested);
    GroupsBack(c.sections);
  }

  lemma PairsBack(pairs: seq<Pair>)
    requires PairsAre(Formatted(pairs), Deliverable)
    ensures StorablePairs(pairs)
  {
    forall i | 0 <= i < |pairs| ensures Storable(pairs[i].value) { assert Deliverable(Formatted(pairs)[i]); }
  }

  lemma GroupsBack(groups: seq<Group>)
    requires GroupsAre(FormattedGroups(groups), Deliverable)
    ensures StorableGroups(groups)
  {
    forall i | 0 <= i < |groups| ensures StorablePairs(groups[i].pairs) {
      assert PairsAre(FormattedGroups(groups)[i].pairs, Deliverable);
      PairsBack(groups[i].pairs);
    }
  }

  // ----- The lines of a written file -----

  predicate LinesAre(text: string, ok: string -> bool) {
    forall i :: 0 <= i < |Lines(text)| ==> ok(Lines(text)[i])
  }

  lemma FirstLine(line: string, rest: string, ok: string -> bool)
    requires '\n' !in line && ok(DropReturn(line)) && LinesAre(rest, ok)
    ensures LinesAre(line + "\n" + rest, ok)
  {
    LinesCons(line, rest);
    hide Lines, DropReturn;
  }

  function PairText(p: Pair): string {
    p.key + " = " + FormatValue(p.value)
  }

  predicate PairTexts(pairs: seq<Pair>, ok: string -> bool) {
    forall i :: 0 <= i < |pairs| ==> ok(DropReturn(PairText(pairs[i])))
  }

  lemma {:induction false} LinesOfPairs(pairs: seq<Pair>, rest: string, ok: string -> bool)
    requires CleanPairs(pairs) && StorablePairs(pairs) && PairTexts(pairs, ok) && LinesAre(rest, ok)
    ensures LinesAre(RenderPairs(pairs) + rest, ok)
    decreases |pairs|
  {
    if pairs == [] {
      assert "" + rest == rest;
    } else {
      var p := pairs[0];
      CleanTail(pairs);
      NoNewline(p.key, FormatValue(p.value));
      hide LinesAre, FormatValue, CleanPairs, CleanKey, NoBareHash, DropReturn;
      LinesOfPairs(pairs[1..], rest, ok);
      FirstLine(PairText(p), RenderPairs(pairs[1..]) + rest, ok);
      Assoc(PairText(p) + "\n", RenderPairs(pairs[1..]), rest);
    }
  }

  lemma {:induction false} LinesOfNested(groups: seq<Group>, rest: string, ok: string -> bool)
    requires (forall i :: 0 <= i < |groups| ==> CleanGroup(groups[i])) && StorableGroups(groups) && LinesAre(rest, ok)
    requires forall i :: 0 <= i < |groups| ==>
      PairTexts(groups[i].pairs, ok) && ok(DropReturn("[[" + groups[i].name + "]]"))
    ensures LinesAre(RenderNested(groups) + rest, ok)
    decreases |groups|
  {
    if groups == [] {
      assert "" + rest == rest;
    } else {
      var g, more := groups[0], RenderNested(groups[1..]);
      var line := "[[" + g.name + "]]";
      assert '\n' !in line && "[[" + g.name + "]]\n" == line + "\n";
      hide LinesAre, PairTexts, CleanPairs, StorablePairs, RenderPairs, DropReturn;
      LinesOfNested(groups[1..], rest, ok);
      LinesOfPairs(g.pairs, more + rest, ok);
      FirstLine(line, RenderPairs(g.pairs) + (more + rest), ok);
      Assoc(line + "\n", RenderPairs(g.pairs), more + rest);
      Assoc(line + "\n" + RenderPairs(g.pairs), more, rest);
    }
  }

  lemma {:induction false} LinesOfSections(groups: seq<Group>, ok: string -> bool)
    requires (forall i :: 0 <= i < |groups| ==> CleanGroup(groups[i])) && StorableGroups(groups)
    requires forall i :: 0 <= i < |groups| ==>
      PairTexts(groups[i].pairs, ok) && ok(DropReturn("[" + groups[i].name + "]"))
    ensures LinesAre(RenderSections(groups), ok)
    decreases |groups|
  {
    if groups != [] {
      var g, more := groups[0], RenderSections(groups[1..]);
      var line := "[" + g.name + "]";
      assert '\n' !in line && "[" + g.name + "]\n" == line + "\n";
      hide LinesAre, PairTexts, CleanPairs, StorablePairs, RenderPairs, DropReturn;
      LinesOfSections(groups[1..], ok);
      LinesOfPairs(g.pairs, more, ok);
      FirstLine(line, RenderPairs(g.pairs) + more, ok);
      Assoc(line + "\n", RenderPairs(g.pairs), more);
    }
  }

  /** What holds of the line of every pair and of every header holds of every line. */
  lemma LinesOfFile(c: Conf, ok: string -> bool)
    requires Clean(c) && AllStorable(c) && ok("[renewalparams]")
    requires PairTexts(c.top, ok) && PairTexts(c.params, ok)
    requires forall i :: 0 <= i < |c.nested| ==>
      PairTexts(c.nested[i].pairs, ok) && ok(DropReturn("[[" + c.nested[i].name + "]]"))
    requires forall i :: 0 <= i < |c.sections| ==>
      PairTexts(c.sections[i].pairs, ok) && ok(DropReturn("[" + c.sections[i].name + "]"))
    ensures LinesAre(Render(c), ok)
  {
    RenewalparamsLine();
    hide LinesAre, PairTexts, CleanPairs, CleanGroup, StorablePairs, StorableGroups, RenderPairs, RenderNested, RenderSections,
      Render, DropReturn;
    RenderedInOrder(c);
    var others := RenderSections(c.sections);
    LinesOfSections(c.sections, ok);
    LinesOfNested(c.nested, others, ok);
    LinesOfPairs(c.params, RenderNested(c.nested) + others, ok);
    FirstLine("[renewalparams]", RenderPairs(c.params) + (RenderNested(c.nested) + others), ok);
    LinesOfPairs(c.top, "[renewalparams]" + "\n" + (RenderPairs(c.params) + (RenderNested(c.nested) + others)), ok);
  }

  /** A pair as it stands in a file that was read, with the brackets of a header. */
  predicate NoHeader(p: Pair) {
    !(p.key != "" && p.key[0] == '[' && EndsInBracket(p.value))
  }

  /** Read as a pair, the line has no brackets of a header; read as a section, none of a nested one. */
  predicate ShowsNoHeader(line: string) {
    var l := Classify(line);
    l.Entry? ==> NoHeader(Pair(l.key, l.value))
  }

  predicate ShowsPlainName(line: string) {
    var l := Classify(line);
    l.Section? ==> !LooksNested(l.name)
  }

  lemma PairShows(p: Pair)
    requires CleanKey(p.key) && Storable(p.value)
    ensures ShowsNoHeader(DropReturn(PairText(p)))
    ensures !LooksLikeHeader(p) ==> ShowsPlainName(DropReturn(PairText(p)))
  {
    FormatIdempotent(p.value);
    BracketEndExactly(p.value);
    hide FormatValue, Classify, DropReturn, EndsInBracket, BracketEnd, NoBareHash, Trimmed;
    PairLine(p.key, FormatValue(p.value));
  }

  lemma PairsShow(pairs: seq<Pair>)
    requires CleanPairs(pairs) && StorablePairs(pairs)
    ensures PairTexts(pairs, ShowsNoHeader) && (PlainPairs(pairs) ==> PairTexts(pairs, ShowsPlainName))
  {
    hide CleanKey, Storable, LooksLikeHeader, ShowsNoHeader, ShowsPlainName, PairText, DropReturn;
    forall i | 0 <= i < |pairs|
      ensures ShowsNoHeader(DropReturn(PairText(pairs[i])))
      ensures !LooksLikeHeader(pairs[i]) ==> ShowsPlainName(DropReturn(PairText(pairs[i])))
    {
      PairShows(pairs[i]);
    }
  }

  lemma NestedShows(g: Group)
    requires CleanGroup(g) && StorablePairs(g.pairs)
    ensures var line := DropReturn("[[" + g.name + "]]"); ShowsNoHeader(line) && ShowsPlainName(line)
    ensures PairTexts(g.pairs, ShowsNoHeader) && (PlainPairs(g.pairs) ==> PairTexts(g.pairs, ShowsPlainName))
  {
    PairsShow(g.pairs);
    NestedLine(g.name);
    hide Classify, DropReturn, PairTexts;
  }

  lemma SectionShows(g: Group)
    requires CleanGroup(g) && StorablePairs(g.pairs)
    ensures var line := DropReturn("[" + g.name + "]"); ShowsNoHeader(line) && ShowsPlainName(line)
    ensures PairTexts(g.pairs, ShowsNoHeader) && (PlainPairs(g.pairs) ==> PairTexts(g.pairs, ShowsPlainName))
  {
    PairsShow(g.pairs);
    SectionLine(g.name);
    hide Classify, DropReturn, PairTexts;
  }

  lemma ParamsShows()
    ensures ShowsNoHeader("[renewalparams]") && ShowsPlainName("[renewalparams]")
  {
    RenewalparamsLine();
    hide Classify;
  }

  /** No line of a written file is read as a pair that looks like a header, and if no pair looks like
      one, none is read as a section that looks nested. */
  lemma FileShows(c: Conf)
    requires Clean(c) && AllStorable(c)
    ensures LinesAre(Render(c), ShowsNoHeader)
    ensures PlainPairs(c.top) && PlainPairs(c.params) && PlainGroups(c.nested) && PlainGroups(c.sections) ==>
      LinesAre(Render(c), ShowsPlainName)
  {
    ParamsShows();
    PairsShow(c.top);
    PairsShow(c.params);
    hide ShowsNoHeader, ShowsPlainName, PairTexts, PlainPairs, CleanPairs, StorablePairs, CleanGroup, Render, LinesAre, DropReturn;
    forall i | 0 <= i < |c.nested|
      ensures var g := c.nested[i]; var line := DropReturn("[[" + g.name + "]]");
        ShowsNoHeader(line) && ShowsPlainName(line) && PairTexts(g.pairs, ShowsNoHeader) &&
        (PlainPairs(g.pairs) ==> PairTexts(g.pairs, ShowsPlainName))
    {
      NestedShows(c.nested[i]);
    }
    forall i | 0 <= i < |c.sections|
      ensures var g := c.sections[i]; var line := DropReturn("[" + g.name + "]");
        ShowsNoHeader(line) && ShowsPlainName(line) && PairTexts(g.pairs, ShowsNoHeader) &&
        (PlainPairs(g.pairs) ==> PairTexts(g.pairs, ShowsPlainName))
    {
      SectionShows(c.sections[i]);
    }
    LinesOfFile(c, ShowsNoHeader);
    if PlainPairs(c.top) && PlainPairs(c.params) && PlainGroups(c.nested) && PlainGroups(c.sections) {
      LinesOfFile(c, ShowsPlainName);
    }
  }

  lemma PlainBack(pairs: seq<Pair>)
    requires PairsAre(Formatted(pairs), NoHeader)
    ensures PlainPairs(pairs)
  {
    hide BracketEnd, EndsInBracket, FormatValue;
    forall i | 0 <= i < |pairs| ensures !LooksLikeHeader(pairs[i]) {
      assert NoHeader(Formatted(pairs)[i]);
      BracketEndExactly(pairs[i].value);
    }
  }

  lemma PlainGroupsBack(groups: seq<Group>)
    requires GroupsAre(FormattedGroups(groups), NoHeader)
    ensures PlainGroups(groups)
  {
    forall i | 0 <= i < |groups| ensures PlainPairs(groups[i].pairs) {
      assert PairsAre(FormattedGroups(groups)[i].pairs, NoHeader);
      PlainBack(groups[i].pairs);
    }
  }

  /** What comes back from a file that was written has no pair that looks like a header and no section
      that looks nested. */
  lemma OnlyPlainBack(c: Conf)
    requires Clean(c) && AllStorable(c) && Parse(Render(c)) == Good(Normal(c))
    ensures AllPlain(c)
  {
    var lines, start := Lines(Render(c)), Scope("", "");
    FileShows(c);
    assert LinesPair(lines, NoHeader);
    hide Clean, AllStorable, Render, Lines, LinesFit, ParseLines, Formatted, FormattedGroups, PairsAre, GroupsAre,
      PlainPairs, PlainGroups;
    NothingYet();
    ReadsAre(EmptyConf, start, lines, NoHeader);
    PlainBack(c.top);
    PlainBack(c.params);
    PlainGroupsBack(c.nested);
    PlainGroupsBack(c.sections);
    assert LinesName(lines, n => !LooksNested(n));
    ReadsNames(EmptyConf, start, lines, n => !LooksNested(n));
    NamesBack(c.sections);
  }

  lemma NothingYet()
    ensures AllAre(EmptyConf, NoHeader)
  {
  }

  lemma NamesBack(groups: seq<Group>)
    requires NamesAre(FormattedGroups(groups), n => !LooksNested(n))
    ensures PlainNames(groups)
  {
    forall i | 0 <= i < |groups| ensures !LooksNested(groups[i].name) {
      assert FormattedGroups(groups)[i].name == groups[i].name;
    }
  }

  /** A clean file, saved and loaded: the same sections, keys and orders come back, each value as
      `formatValue` writes it, exactly when every value is storable, no pair looks like a header and
      no section name like a nested one, and every written line fits the buffer of the scanner. */
  lemma ReloadsExactly(c: Conf)
    requires Clean(c)
    ensures Parse(Render(c)) == Good(Normal(c)) <==> AllStorable(c) && AllPlain(c) && LinesFit(Render(c))
  {
    hide Clean, Render, LinesFit, Lines, ParseLines, AllStorable, AllPlain;
    if AllStorable(c) && AllPlain(c) && LinesFit(Render(c)) { Reloads(c); }
    if Parse(Render(c)) == Good(Normal(c)) {
      ParsedDeliverable(Render(c));
      NormalDeliverable(c);
      OnlyPlainBack(c);
    }
  }

  // ----- Files that were loaded are clean -----

  lemma {:induction false} PutOld(pairs: seq<Pair>, key: string, value: string)
    requires HasKey(pairs, key)
    ensures var r := Put(pairs, key, value);
      |r| == |pairs| && forall i :: 0 <= i < |r| ==> r[i].key == pairs[i].key
    decreases |pairs|
  {
    if pairs[0].key != key {
      var i :| 0 <= i < |pairs| && pairs[i].key == key;
      assert pairs[1..][i - 1].key == key;
      PutOld(pairs[1..], key, value);
    }
  }

  lemma PutClean(pairs: seq<Pair>, key: string, value: string)
    requires CleanPairs(pairs) && CleanKey(key)
    ensures CleanPairs(Put(pairs, key, value))
  {
    hide CleanKey;
    if HasKey(pairs, key) { PutOld(pairs, key, value); } else { PutNew(pairs, key, value); }
    hide Put;
  }

  lemma {:induction false} PutInClean(groups: seq<Group>, name: string, key: string, value: string)
    requires CleanGroups(groups) && CleanKey(key) && name != ""
    ensures CleanGroups(PutIn(groups, name, key, value))
    decreases |groups|
  {
    if groups != [] {
      var g := groups[0];
      assert CleanGroup(g) && forall i :: 0 <= i < |groups| - 1 ==> CleanGroup(groups[1..][i]);
      PutClean(g.pairs, key, value);
      hide CleanKey, CleanPairs, Put;
      PutInClean(groups[1..], name, key, value);
      PutInNames(groups[1..], name, key, value);
    }
  }

  lemma OpenClean(groups: seq<Group>, name: string)
    requires CleanGroups(groups) && Trimmed(name) && '\n' !in name
    ensures CleanGroups(OpenGroup(groups, name))
  {
    if !HasGroup(groups, name) {
      assert forall i :: 0 <= i < |groups| ==> groups[i].name != name;
      assert CleanGroup(Group(name, []));
    }
    hide CleanGroup;
  }

  /** What a line without line breaks can say. */
  lemma LineClean(line: string)
    requires '\n' !in line
    ensures var l := Classify(line);
      (l.Entry? ==> CleanKey(l.key)) && (l.Nested? || l.Section? ==> Trimmed(l.name) && '\n' !in l.name)
  {
    var t := TrimSpace(line);
    TrimSpaceTrims(line);
    assert '\n' !in t;
    hide TrimSpace, Trimmed, WithoutComment, CleanKey, EqualsAt, HasPrefix, HasSuffix;
    Brackets(t);
    if HasPrefix(t, "[[") && HasSuffix(t, "]]") { PartClean(t, 2, |t| - 2); }
    else if HasPrefix(t, "[") && HasSuffix(t, "]") { PartClean(t, 1, |t| - 1); }
    else if t != "" { KeyClean(t); }
  }

  lemma PartClean(t: string, i: nat, j: nat)
    requires i <= j <= |t| && '\n' !in t
    ensures Trimmed(TrimSpace(t[i..j])) && '\n' !in TrimSpace(t[i..j])
  {
    TrimSpaceTrims(t[i..j]);
    assert forall c <- t[i..j] :: c in t;
    hide TrimSpace, Trimmed;
  }

  lemma KeyClean(t: string)
    requires Trimmed(t) && t != "" && '\n' !in t
    ensures t[0] != '#' ==> CleanKey(TrimSpace(t[..EqualsAt(t)]))
  {
    var s := t[..EqualsAt(t)];
    FirstOfKey(t);
    TrimSpaceTrims(s);
    hide TrimSpace, Trimmed;
    assert '=' !in s;
    assert forall c <- s :: c in t;
  }

  lemma FirstOfKey(t: string)
    requires Trimmed(t) && t != ""
    ensures var k := TrimSpace(t[..EqualsAt(t)]); k != "" ==> k[0] == t[0]
  {
    var s := t[..EqualsAt(t)];
    if s != "" {
      assert !IsSpace(s[0]);
      FirstStays(s);
    }
  }

  lemma {:induction false} FirstStays(s: string)
    requires s != "" && !IsSpace(s[0])
    ensures TrimSpace(s) != "" && TrimSpace(s)[0] == s[0]
    decreases |s|
  {
    if IsSpace(s[|s| - 1]) { FirstStays(s[..|s| - 1]); }
  }

  lemma EnterClean(c: Conf, scope: Scope, l: Line)
    requires Clean(c) && l != Malformed && (l.Entry? ==> CleanKey(l.key))
    requires l.Nested? || l.Section? ==> Trimmed(l.name) && '\n' !in l.name
    ensures Clean(Enter(c, scope, l))
  {
    hide CleanKey, CleanPairs, CleanGroups, Trimmed, Put, PutIn;
    if l.Entry? {
      PutClean(c.top, l.key, l.value);
      PutClean(c.params, l.key, l.value);
      if scope.nested != "" { PutInClean(c.nested, scope.nested, l.key, l.value); }
      if scope.section != "" { PutInClean(c.sections, scope.section, l.key, l.value); }
      PutInNames(c.sections, scope.section, l.key, l.value);
    } else if l.Nested? {
      OpenClean(c.nested, l.name);
    } else if l.Section? {
      OpenClean(c.sections, l.name);
    }
  }

  lemma {:induction false} ReadsClean(c: Conf, scope: Scope, lines: seq<string>)
    requires Clean(c) && forall i :: 0 <= i < |lines| ==> '\n' !in lines[i]
    ensures ParseLines(c, scope, lines).Good? ==> Clean(ParseLines(c, scope, lines).conf)
    decreases |lines|
  {
    hide Clean, Classify, Enter, CleanKey, Trimmed;
    if lines != [] {
      var l := Classify(lines[0]);
      if l != Malformed {
        LineClean(lines[0]);
        EnterClean(c, scope, l);
        ReadsClean(Enter(c, scope, l), NextScope(scope, l), lines[1..]);
      }
    }
  }

  /** Whatever is loaded is clean. */
  lemma LoadedIsClean(text: string)
    ensures Parse(text).Good? ==> Clean(Parse(text).conf)
  {
    LinesAreLines(text);
    assert Clean(EmptyConf);
    hide Clean, ParseLines, Lines, LinesFit;
    ReadsClean(EmptyConf, Scope("", ""), Lines(text));
  }

  predicate FreePairs(pairs: seq<Pair>) {
    forall i :: 0 <= i < |pairs| ==> !Trap(pairs[i].value)
  }

  predicate FreeGroups(groups: seq<Group>) {
    forall i :: 0 <= i < |groups| ==> FreePairs(groups[i].pairs)
  }

  predicate TrapFree(c: Conf) {
    FreePairs(c.top) && FreePairs(c.params) && FreeGroups(c.nested) && FreeGroups(c.sections)
  }

  lemma PairsDelivered(pairs: seq<Pair>)
    requires PairsAre(pairs, Deliverable)
    ensures StorablePairs(pairs) <==> FreePairs(pairs)
  {
    hide Storable, Trap, NoBareHash;
    forall i | 0 <= i < |pairs| ensures Storable(pairs[i].value) <==> !Trap(pairs[i].value) {
      assert Deliverable(pairs[i]);
      DeliveredStorable(pairs[i].value);
    }
  }

  lemma GroupsDelivered(groups: seq<Group>)
    requires GroupsAre(groups, Deliverable)
    ensures StorableGroups(groups) <==> FreeGroups(groups)
  {
    hide PairsAre, StorablePairs, FreePairs;
    forall i | 0 <= i < |groups| ensures StorablePairs(groups[i].pairs) <==> FreePairs(groups[i].pairs) {
      PairsDelivered(groups[i].pairs);
    }
  }

  /** What was loaded, saved and loaded again: it comes back exactly when none of its values is an
      unquoted scalar in which the single quotes it is written in lay a `#` bare, no pair looks like
      a header, no section name looks nested, and the written lines fit the scanner. */
  lemma LoadedReloads(text: string, c: Conf)
    requires Parse(text) == Good(c)
    ensures Parse(Render(c)) == Good(Normal(c)) <==> TrapFree(c) && AllPlain(c) && LinesFit(Render(c))
  {
    hide Clean, Render, LinesFit, Parse, AllPlain, StorablePairs, FreePairs, StorableGroups, FreeGroups, PairsAre, GroupsAre;
    LoadedIsClean(text);
    ParsedDeliverable(text);
    ReloadsExactly(c);
    PairsDelivered(c.top);
    PairsDelivered(c.params);
    GroupsDelivered(c.nested);
    GroupsDelivered(c.sections);
  }

  // ----- Saving again -----

  lemma {:induction false} FormattedTwice(pairs: seq<Pair>)
    ensures Formatted(Formatted(pairs)) == Formatted(pairs) && RenderPairs(Formatted(pairs)) == RenderPairs(pairs)
    decreases |pairs|
  {
    if pairs != [] {
      FormattedTwice(pairs[1..]);
      FormatIdempotent(pairs[0].value);
      hide FormatValue;
      assert Formatted(pairs)[1..] == Formatted(pairs[1..]);
    }
  }

  lemma {:induction false} GroupsTwice(groups: seq<Group>)
    ensures var f := FormattedGroups(groups);
      FormattedGroups(f) == f && RenderNested(f) == RenderNested(groups) && RenderSections(f) == RenderSections(groups)
    decreases |groups|
  {
    if groups != [] {
      GroupsTwice(groups[1..]);
      FormattedTwice(groups[0].pairs);
      hide Formatted, RenderPairs;
      assert FormattedGroups(groups)[1..] == FormattedGroups(groups[1..]);
    }
  }

  /** Saving what was loaded writes the same text: one save reaches the fixed point. */
  lemma SavesTheSame(c: Conf)
    ensures Normal(Normal(c)) == Normal(c) && Render(Normal(c)) == Render(c)
  {
    hide Formatted, FormattedGroups, RenderPairs, RenderNested, RenderSections;
    FormattedTwice(c.top);
    FormattedTwice(c.params);
    GroupsTwice(c.nested);
    GroupsTwice(c.sections);
  }
}
