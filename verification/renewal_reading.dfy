/** What the reader of renewal configurations makes of a text: its lines, what each line says, which
    files are refused, and the value that a key has in the end.
 */
module RenewalReading {
  import opened Common
  import opened Text
  import opened RenewalValues
  import opened RenewalConf
  import opened RenewalReload

  // ----- Lines -----

  /** A text is read line by line; a last line counts without a line break, an empty one does not. */
  lemma LinesExactly(line: string, rest: string)
    requires '\n' !in line
    ensures Lines(line + "\n" + rest) == [DropReturn(line)] + Lines(rest)
    ensures Lines(line) == if line == "" then [] else [DropReturn(line)]
    ensures LinesFit(line + "\n" + rest) <==> Bytes(line) < 65536 && LinesFit(rest)
    ensures LinesFit(line) <==> Bytes(line) < 65536
  {
    var text := line + "\n" + rest;
    LinesCons(line, rest);
    LineEndAt(line, rest);
    assert text[..|line|] == line && text[|line| + 1..] == rest;
    OneLineEnd(line);
    assert line[..|line|] == line;
    hide Lines, DropReturn, Bytes;
    if line == "" { OnlyLine(); } else { LastLine(line); }
    FitsFirst(text, |line|);
    if rest == "" { assert LinesFit(rest); }
    FitsLast(line);
  }

  lemma {:induction false} OneLineEnd(line: string)
    requires '\n' !in line
    ensures LineEnd(line) == |line|
  {
    if line != "" { OneLineEnd(line[1..]); }
  }

  lemma OnlyLine()
    ensures Lines("") == []
  {
  }

  lemma LastLine(line: string)
    requires line != "" && LineEnd(line) == |line|
    ensures Lines(line) == [DropReturn(line)]
  {
    assert line[..|line|] == line;
  }

  lemma FitsFirst(text: string, n: nat)
    requires n < |text| && LineEnd(text) == n
    ensures LinesFit(text) <==> Bytes(text[..n]) < 65536 && LinesFit(text[n + 1..])
  {
  }

  lemma FitsLast(line: string)
    requires LineEnd(line) == |line|
    ensures LinesFit(line) <==> Bytes(line) < 65536
  {
    assert line[..|line|] == line;
  }

  // ----- One line -----

  predicate Bracketed(t: string, x: string) {
    t == "[" + x + "]"
  }

  predicate TwiceBracketed(t: string, x: string) {
    t == "[[" + x + "]]"
  }

  /** Cut at the first `=`. */
  predicate CutAt(t: string, k: string, v: string) {
    t == k + "=" + v && '=' !in k
  }

  /** The text without its first and last `n` characters. */
  function InnerOf(t: string, n: nat): string {
    if |t| < 2 * n then "" else t[n..|t| - n]
  }

  /** What a line says, by its text `t` without the whitespace around it: nothing, the header of a
      nested section, the header of a section, a key with its value, or an error. */
  lemma ClassifyExactly(a: string, t: string, b: string)
    requires AllSpace(a) && Trimmed(t) && AllSpace(b)
    ensures var l := Classify(a + t + b);
      if t == "" || t[0] == '#' then l == Blank
      else if TwiceBracketed(t, InnerOf(t, 2)) then l == Nested(TrimSpace(InnerOf(t, 2)))
      else if Bracketed(t, InnerOf(t, 1)) then l == Section(TrimSpace(InnerOf(t, 1)))
      else if '=' !in t then l == Malformed
      else forall k: string, v: string :: CutAt(t, k, v) ==> l == Entry(TrimSpace(k), WithoutComment(TrimSpace(v)))
  {
    TrimExactly(a, t, b);
    BracketsAre(t);
    hide TrimSpace, WithoutComment, EqualsAt, IsSpace;
    var i := EqualsAt(t);
    forall k: string, v: string | CutAt(t, k, v) ensures i == |k| && t[..i] == k && t[i + 1..] == v {
      EqualsFound(k, v);
    }
    if i < |t| { assert t[i] in t; }
    assert i == |t| ==> '=' !in t;
  }

  lemma BracketsAre(t: string)
    ensures TwiceBracketed(t, InnerOf(t, 2)) <==> HasPrefix(t, "[[") && HasSuffix(t, "]]")
    ensures Bracketed(t, InnerOf(t, 1)) <==> HasPrefix(t, "[") && HasSuffix(t, "]")
  {
    Brackets(t);
    if HasPrefix(t, "[[") && HasSuffix(t, "]]") { assert t == t[..2] + t[2..|t| - 2] + t[|t| - 2..]; }
    if HasPrefix(t, "[") && HasSuffix(t, "]") { assert t == t[..1] + t[1..|t| - 1] + t[|t| - 1..]; }
  }

  // ----- Which files load -----

  predicate AllKnown(lines: seq<string>) {
    forall i :: 0 <= i < |lines| ==> Classify(lines[i]) != Malformed
  }

  lemma {:induction false} LinesParse(c: Conf, scope: Scope, lines: seq<string>)
    ensures ParseLines(c, scope, lines).Good? <==> AllKnown(lines)
    decreases |lines|
  {
    hide Classify, Enter;
    if lines != [] {
      var l := Classify(lines[0]);
      LinesParse(Enter(c, scope, l), NextScope(scope, l), lines[1..]);
      assert forall i :: 0 < i < |lines| ==> lines[1..][i - 1] == lines[i];
    }
  }

  /** A file is refused exactly when a line does not fit the buffer or says nothing that is known. */
  lemma LoadsExactly(text: string)
    ensures Parse(text).Good? <==> LinesFit(text) && AllKnown(Lines(text))
  {
    LinesParse(EmptyConf, Scope("", ""), Lines(text));
    hide ParseLines, Lines, LinesFit, AllKnown;
  }

  // ----- The value of a key -----

  /** A table of the file. */
  datatype Table = Top | Params | NestedTable(name: string) | SectionTable(name: string)

  /** The table that a pair belongs to. */
  function TableOf(scope: Scope): Table {
    if scope.section == "renewalparams" then if scope.nested == "" then Params else NestedTable(scope.nested)
    else if scope.section == "" then Top
    else SectionTable(scope.section)
  }

  /** The last value that the lines give to the key of the table. */
  function LastValue(lines: seq<string>, scope: Scope, t: Table, key: string): Option<string>
    decreases |lines|
  {
    if lines == [] then None
    else
      var l := Classify(lines[0]);
      var later := LastValue(lines[1..], NextScope(scope, l), t, key);
      if later.Some? then later
      else if l.Entry? && l.key == key && TableOf(scope) == t then Some(l.value)
      else None
  }

  function ValueIn(pairs: seq<Pair>, key: string): Option<string>
    decreases |pairs|
  {
    if pairs == [] then None else if pairs[0].key == key then Some(pairs[0].value) else ValueIn(pairs[1..], key)
  }

  function ValueInGroup(groups: seq<Group>, name: string, key: string): Option<string>
    decreases |groups|
  {
    if groups == [] then None
    else if groups[0].name == name then ValueIn(groups[0].pairs, key)
    else ValueInGroup(groups[1..], name, key)
  }

  function ValueOf(c: Conf, t: Table, key: string): Option<string> {
    match t
    case Top => ValueIn(c.top, key)
    case Params => ValueIn(c.params, key)
    case NestedTable(name) => ValueInGroup(c.nested, name, key)
    case SectionTable(name) => ValueInGroup(c.sections, name, key)
  }

  /** The reader has opened the sections it is in. */
  predicate Opened(c: Conf, scope: Scope) {
    (scope.nested != "" ==> HasGroup(c.nested, scope.nested)) &&
    (scope.section != "" && scope.section != "renewalparams" ==> HasGroup(c.sections, scope.section))
  }

  lemma {:induction false} PutValue(pairs: seq<Pair>, key: string, value: string, k: string)
    ensures ValueIn(Put(pairs, key, value), k) == if k == key then Some(value) else ValueIn(pairs, k)
    decreases |pairs|
  {
    if pairs != [] && pairs[0].key != key {
      PutValue(pairs[1..], key, value, k);
      assert ([pairs[0]] + Put(pairs[1..], key, value))[1..] == Put(pairs[1..], key, value);
    } else if pairs != [] {
      assert ([Pair(key, value)] + pairs[1..])[1..] == pairs[1..];
    } else {
      assert [Pair(key, value)][1..] == [];
    }
  }

  lemma {:induction false} PutInValue(groups: seq<Group>, name: string, key: string, value: string, n: string, k: string)
    requires HasGroup(groups, name)
    ensures ValueInGroup(PutIn(groups, name, key, value), n, k) ==
      if n == name && k == key then Some(value) else ValueInGroup(groups, n, k)
    decreases |groups|
  {
    var rest := groups[1..];
    if groups[0].name == name {
      PutValue(groups[0].pairs, key, value, k);
      assert ([Group(name, Put(groups[0].pairs, key, value))] + rest)[1..] == rest;
    } else {
      var i :| 0 <= i < |groups| && groups[i].name == name;
      assert rest[i - 1] == groups[i];
      PutInValue(rest, name, key, value, n, k);
      assert ([groups[0]] + PutIn(rest, name, key, value))[1..] == PutIn(rest, name, key, value);
    }
  }

  lemma {:induction false} PutInNames(groups: seq<Group>, name: string, key: string, value: string)
    ensures var r := PutIn(groups, name, key, value); |r| == |groups| && forall i :: 0 <= i < |r| ==> r[i].name == groups[i].name
    decreases |groups|
  {
    if groups != [] && groups[0].name != name { PutInNames(groups[1..], name, key, value); }
  }

  lemma PutInHas(groups: seq<Group>, name: string, key: string, value: string, n: string)
    requires HasGroup(groups, n)
    ensures HasGroup(PutIn(groups, name, key, value), n)
  {
    PutInNames(groups, name, key, value);
    var i :| 0 <= i < |groups| && groups[i].name == n;
    assert PutIn(groups, name, key, value)[i].name == n;
  }

  lemma {:induction false} OpenValue(groups: seq<Group>, name: string, n: string, k: string)
    ensures ValueInGroup(groups + [Group(name, [])], n, k) == ValueInGroup(groups, n, k)
    decreases |groups|
  {
    var all := groups + [Group(name, [])];
    if groups == [] {
      assert all[1..] == [];
    } else {
      OpenValue(groups[1..], name, n, k);
      assert all[1..] == groups[1..] + [Group(name, [])];
    }
  }

  lemma OpenHas(groups: seq<Group>, name: string, n: string)
    ensures HasGroup(groups, n) || n == name ==> HasGroup(OpenGroup(groups, name), n)
  {
    var all := groups + [Group(name, [])];
    assert all[|groups|].name == name;
    if HasGroup(groups, n) {
      var i :| 0 <= i < |groups| && groups[i].name == n;
      assert all[i].name == n;
    }
  }

  /** One line. */
  lemma EnterValue(c: Conf, scope: Scope, l: Line, t: Table, key: string)
    requires Opened(c, scope) && l != Malformed
    ensures var d := Enter(c, scope, l);
      Opened(d, NextScope(scope, l)) &&
      ValueOf(d, t, key) == if l.Entry? && l.key == key && TableOf(scope) == t then Some(l.value) else ValueOf(c, t, key)
  {
    hide HasGroup, ValueIn, ValueInGroup, Put, PutIn, OpenGroup;
    match l
    case Blank =>
    case Nested(name) =>
      OpenHas(c.nested, name, name);
      OpenKeeps(c.nested, name, t, key);
    case Section(name) =>
      OpenHas(c.sections, name, name);
      OpenKeeps(c.sections, name, t, key);
    case Entry(k, v) =>
      if scope.nested != "" && scope.section == "renewalparams" {
        PutInHas(c.nested, scope.nested, k, v, scope.nested);
        if t.NestedTable? { PutInValue(c.nested, scope.nested, k, v, t.name, key); }
      } else if scope.section == "" {
        PutValue(c.top, k, v, key);
      } else if scope.section == "renewalparams" {
        PutValue(c.params, k, v, key);
      } else {
        PutInHas(c.sections, scope.section, k, v, scope.section);
        if t.SectionTable? { PutInValue(c.sections, scope.section, k, v, t.name, key); }
      }
  }

  lemma OpenKeeps(groups: seq<Group>, name: string, t: Table, key: string)
    ensures t.NestedTable? || t.SectionTable? ==>
      ValueInGroup(OpenGroup(groups, name), t.name, key) == ValueInGroup(groups, t.name, key)
  {
    if t.NestedTable? || t.SectionTable? { OpenValue(groups, name, t.name, key); }
  }

  lemma {:induction false} LinesGive(c: Conf, scope: Scope, lines: seq<string>, t: Table, key: string)
    requires Opened(c, scope) && ParseLines(c, scope, lines).Good?
    ensures var last := LastValue(lines, scope, t, key);
      ValueOf(ParseLines(c, scope, lines).conf, t, key) == if last.Some? then last else ValueOf(c, t, key)
    decreases |lines|
  {
    hide Classify, Enter, NextScope, Opened, ValueOf, TableOf;
    if lines != [] {
      var l := Classify(lines[0]);
      EnterValue(c, scope, l, t, key);
      LinesGive(Enter(c, scope, l), NextScope(scope, l), lines[1..], t, key);
    }
  }

  /** In a file that loads, a key of a table has the last value that a line of this table gives it, and
      no key has a value that no line gives. */
  lemma LoadedValue(text: string, t: Table, key: string)
    requires Parse(text).Good?
    ensures ValueOf(Parse(text).conf, t, key) == LastValue(Lines(text), Scope("", ""), t, key)
  {
    LinesGive(EmptyConf, Scope("", ""), Lines(text), t, key);
    hide ParseLines, Lines, LinesFit, LastValue;
  }
}
