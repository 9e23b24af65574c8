/** The renewal configuration file of `internal/storage/renewalconf/renewalconf.go`: the ordered
    maps of the class `File`, its reader and its writer.
 */
module RenewalConf {
  import opened Common
  import opened Text
  import opened RenewalValues

  // ----- What a file holds -----

  datatype Pair = Pair(key: string, value: string)
  datatype Group = Group(name: string, pairs: seq<Pair>)

  /** The keys and values in their order: top level, [renewalparams], the [[nested]] sections of
      it, and the other [sections]. */
  datatype Conf = Conf(top: seq<Pair>, params: seq<Pair>, nested: seq<Group>, sections: seq<Group>)

  const EmptyConf := Conf([], [], [], [])

  /** Sets a key: in its place, or at the end when it is new. */
  function Put(pairs: seq<Pair>, key: string, value: string): seq<Pair>
    decreases |pairs|
  {
    if pairs == [] then [Pair(key, value)]
    else if pairs[0].key == key then [Pair(key, value)] + pairs[1..]
    else [pairs[0]] + Put(pairs[1..], key, value)
  }

  function Without(pairs: seq<Pair>, key: string): seq<Pair>
    decreases |pairs|
  {
    if pairs == [] then []
    else (if pairs[0].key == key then [] else [pairs[0]]) + Without(pairs[1..], key)
  }

  predicate HasGroup(groups: seq<Group>, name: string) {
    exists i :: 0 <= i < |groups| && groups[i].name == name
  }

  function OpenGroup(groups: seq<Group>, name: string): seq<Group> {
    if HasGroup(groups, name) then groups else groups + [Group(name, [])]
  }

  /** Sets a key in the group of this name. */
  function PutIn(groups: seq<Group>, name: string, key: string, value: string): seq<Group>
    decreases |groups|
  {
    if groups == [] then []
    else if groups[0].name == name then [Group(name, Put(groups[0].pairs, key, value))] + groups[1..]
    else [groups[0]] + PutIn(groups[1..], name, key, value)
  }

  // ----- Reading -----

  function DropReturn(line: string): string {
    if line != "" && line[|line| - 1] == '\r' then line[..|line| - 1] else line
  }

  /** The lines that `bufio.Scanner` delivers. */
  function Lines(text: string): seq<string>
    decreases |text|
  {
    if text == "" then []
    else
      var n := LineEnd(text);
      [DropReturn(text[..n])] + (if n == |text| then [] else Lines(text[n + 1..]))
  }

  /** The length of a text in UTF-8. */
  function Bytes(s: string): nat {
    if s == "" then 0
    else (if s[0] < '\U{80}' then 1 else if s[0] < '\U{800}' then 2 else if s[0] < '\U{10000}' then 3 else 4) + Bytes(s[1..])
  }

  /** `bufio.MaxScanTokenSize`: a line that does not fit the buffer with its end is an error. */
  const BufferSize := 65536

  predicate LinesFit(text: string)
    decreases |text|
  {
    text == "" ||
    var n := LineEnd(text);
    Bytes(text[..n]) < BufferSize && (n == |text| || LinesFit(text[n + 1..]))
  }

  datatype Line = Blank | Nested(name: string) | Section(name: string) | Entry(key: string, value: string) | Malformed

  /** The first `=`, or the end. */
  function EqualsAt(s: string): (n: nat)
    ensures n <= |s| && (n < |s| ==> s[n] == '=') && forall i :: 0 <= i < n ==> s[i] != '='
  {
    if s == "" || s[0] == '=' then 0 else 1 + EqualsAt(s[1..])
  }

  /** Section headers are long enough for their brackets. */
  lemma Brackets(t: string)
    ensures HasPrefix(t, "[[") && HasSuffix(t, "]]") ==> |t| >= 4
    ensures HasPrefix(t, "[") && HasSuffix(t, "]") ==> |t| >= 2
  {
    if HasPrefix(t, "[[") && HasSuffix(t, "]]") {
      assert t[|t| - 2..][0] == ']' && t[..2][1] == '[' && t[..2][0] == '[';
    }
    if HasPrefix(t, "[") && HasSuffix(t, "]") { assert t[|t| - 1..][0] == ']' && t[..1][0] == '['; }
  }

  function Classify(line: string): Line {
    var t := TrimSpace(line);
    if t == "" || t[0] == '#' then Blank
    else if HasPrefix(t, "[[") && HasSuffix(t, "]]") then
      Brackets(t);
      Nested(TrimSpace(t[2..|t| - 2]))
    else if HasPrefix(t, "[") && HasSuffix(t, "]") then
      Brackets(t);
      Section(TrimSpace(t[1..|t| - 1]))
    else
      var i := EqualsAt(t);
      if i == |t| then Malformed else Entry(TrimSpace(t[..i]), WithoutComment(TrimSpace(t[i + 1..])))
  }

  /** The section and nested section that the reader is in. */
  datatype Scope = Scope(section: string, nested: string)

  function Enter(c: Conf, scope: Scope, line: Line): Conf {
    match line
    case Nested(name) => c.(nested := OpenGroup(c.nested, name))
    case Section(name) => if name == "renewalparams" then c else c.(sections := OpenGroup(c.sections, name))
    case Entry(key, value) =>
      if scope.nested != "" && scope.section == "renewalparams" then c.(nested := PutIn(c.nested, scope.nested, key, value))
      else if scope.section == "" then c.(top := Put(c.top, key, value))
      else if scope.section == "renewalparams" then c.(params := Put(c.params, key, value))
      else c.(sections := PutIn(c.sections, scope.section, key, value))
    case _ => c
  }

  function NextScope(scope: Scope, line: Line): Scope {
    match line
    case Nested(name) => scope.(nested := name)
    case Section(name) => Scope(name, "")
    case _ => scope
  }

  datatype Result = Bad | Good(conf: Conf)

  function ParseLines(c: Conf, scope: Scope, lines: seq<string>): Result
    decreases |lines|
  {
    if lines == [] then Good(c)
    else
      var line := Classify(lines[0]);
      if line == Malformed then Bad else ParseLines(Enter(c, scope, line), NextScope(scope, line), lines[1..])
  }

  /** `parse`. */
  function Parse(text: string): Result {
    ParseRest(EmptyConf, Scope("", ""), text)
  }

  /** The same from some line on. */
  function ParseRest(c: Conf, scope: Scope, text: string): Result {
    if LinesFit(text) then ParseLines(c, scope, Lines(text)) else Bad
  }

  // ----- Writing -----

  function RenderPairs(pairs: seq<Pair>): string
    decreases |pairs|
  {
    if pairs == [] then ""
    else pairs[0].key + " = " + FormatValue(pairs[0].value) + "\n" + RenderPairs(pairs[1..])
  }

  function RenderNested(groups: seq<Group>): string
    decreases |groups|
  {
    if groups == [] then "" else "[[" + groups[0].name + "]]\n" + RenderPairs(groups[0].pairs) + RenderNested(groups[1..])
  }

  function RenderSections(groups: seq<Group>): string
    decreases |groups|
  {
    if groups == [] then "" else "[" + groups[0].name + "]\n" + RenderPairs(groups[0].pairs) + RenderSections(groups[1..])
  }

  /** `Save`. */
  function Render(c: Conf): string {
    RenderPairs(c.top) + "[renewalparams]\n" + RenderPairs(c.params) + RenderNested(c.nested) + RenderSections(c.sections)
  }

  // ----- Ordered maps -----

  predicate NoRepeat(keys: seq<string>) {
    forall i, j :: 0 <= i < j < |keys| ==> keys[i] != keys[j]
  }

  /** The order lists each key of the map once. */
  ghost predicate Ordered(order: seq<string>, m: map<string, string>) {
    NoRepeat(order) && forall k: string :: k in m <==> k in order
  }

  function PairsOf(order: seq<string>, m: map<string, string>): (pairs: seq<Pair>)
    requires forall k <- order :: k in m
    ensures |pairs| == |order|
  {
    if order == [] then [] else [Pair(order[0], m[order[0]])] + PairsOf(order[1..], m)
  }

  lemma {:induction false} PairsOther(order: seq<string>, m: map<string, string>, key: string, value: string)
    requires (forall k <- order :: k in m) && key !in order
    ensures PairsOf(order, m[key := value]) == PairsOf(order, m)
  {
    if order != [] { PairsOther(order[1..], m, key, value); }
  }

  lemma {:induction false} PairsPut(order: seq<string>, m: map<string, string>, key: string, value: string)
    requires NoRepeat(order) && (forall k <- order :: k in m) && key in order
    ensures PairsOf(order, m[key := value]) == Put(PairsOf(order, m), key, value)
  {
    if order[0] == key {
      assert key !in order[1..];
      PairsOther(order[1..], m, key, value);
    } else {
      assert key in order[1..];
      PairsPut(order[1..], m, key, value);
    }
  }

  lemma {:induction false} PairsAppend(order: seq<string>, m: map<string, string>, key: string, value: string)
    requires (forall k <- order :: k in m) && key !in order
    ensures PairsOf(order + [key], m[key := value]) == Put(PairsOf(order, m), key, value)
    decreases |order|
  {
    if order == [] {
      assert ([] + [key])[1..] == [];
    } else {
      PairsAppend(order[1..], m, key, value);
      assert (order + [key])[1..] == order[1..] + [key];
    }
  }

  /** Setting a key of an ordered map. */
  lemma PutOrdered(order: seq<string>, m: map<string, string>, key: string, value: string)
    requires Ordered(order, m)
    ensures var order1 := if key in m then order else order + [key];
      Ordered(order1, m[key := value]) && PairsOf(order1, m[key := value]) == Put(PairsOf(order, m), key, value)
  {
    if key in m { PairsPut(order, m, key, value); } else { PairsAppend(order, m, key, value); }
  }

  function Except(order: seq<string>, key: string): seq<string>
    decreases |order|
  {
    if order == [] then [] else (if order[0] == key then [] else [order[0]]) + Except(order[1..], key)
  }

  lemma {:induction false} ExceptKeeps(order: seq<string>, m: map<string, string>, key: string)
    requires NoRepeat(order) && forall k <- order :: k in m
    ensures forall k :: k in Except(order, key) <==> k in order && k != key
    ensures NoRepeat(Except(order, key))
    ensures PairsOf(Except(order, key), m - {key}) == Without(PairsOf(order, m), key)
  {
    if order != [] {
      var rest := Except(order[1..], key);
      ExceptKeeps(order[1..], m, key);
      assert order == [order[0]] + order[1..] && order[0] !in order[1..];
      if order[0] != key {
        assert Except(order, key) == [order[0]] + rest && ([order[0]] + rest)[1..] == rest;
        assert Without(PairsOf(order, m), key) == [Pair(order[0], m[order[0]])] + Without(PairsOf(order[1..], m), key);
      } else {
        assert Except(order, key) == [] + rest == rest;
        assert Without(PairsOf(order, m), key) == [] + Without(PairsOf(order[1..], m), key);
      }
    }
  }

  lemma ExceptStep(order: seq<string>, i: nat, key: string)
    requires i < |order|
    ensures Except(order[i..], key) == (if order[i] == key then [] else [order[i]]) + Except(order[i + 1..], key)
  {
    assert order[i..][1..] == order[i + 1..];
  }

  lemma ExceptNone(order: seq<string>, key: string)
    ensures Except(order[|order|..], key) == []
  {
  }

  lemma {:induction false} ExceptNothing(order: seq<string>, m: map<string, string>, key: string)
    requires (forall k <- order :: k in m) && key !in order
    ensures Without(PairsOf(order, m), key) == PairsOf(order, m)
  {
    if order != [] { ExceptNothing(order[1..], m, key); }
  }

  /** Deleting a key of an ordered map. */
  lemma ExceptOrdered(order: seq<string>, m: map<string, string>, key: string)
    requires Ordered(order, m)
    ensures Ordered(Except(order, key), m - {key}) && PairsOf(Except(order, key), m - {key}) == Without(PairsOf(order, m), key)
    ensures key !in m ==> Without(PairsOf(order, m), key) == PairsOf(order, m)
  {
    ExceptKeeps(order, m, key);
    if key !in m { ExceptNothing(order, m, key); }
  }

  // ----- Groups of ordered maps -----

  type Tables = map<string, map<string, string>>
  type Orders = map<string, seq<string>>

  function KeysOf(orders: Orders, id: string): seq<string> {
    if id in orders then orders[id] else []
  }

  /** Each group is an ordered map, and its keys are listed under the prefixed name. */
  ghost predicate OrderedGroups(order: seq<string>, tables: Tables, prefix: string, orders: Orders) {
    NoRepeat(order) && (forall n: string :: n in tables <==> n in order) &&
    Grouped(order, tables, prefix, orders) &&
    forall n: string :: n !in order ==> KeysOf(orders, prefix + n) == []
  }

  ghost predicate Grouped(order: seq<string>, tables: Tables, prefix: string, orders: Orders) {
    forall i :: 0 <= i < |order| ==> order[i] in tables && Ordered(KeysOf(orders, prefix + order[i]), tables[order[i]])
  }

  ghost function GroupOf(name: string, tables: Tables, prefix: string, orders: Orders): (g: Group)
    requires name in tables && Ordered(KeysOf(orders, prefix + name), tables[name])
    ensures g.name == name
  {
    Group(name, PairsOf(KeysOf(orders, prefix + name), tables[name]))
  }

  ghost function GroupsOf(order: seq<string>, tables: Tables, prefix: string, orders: Orders): (groups: seq<Group>)
    requires Grouped(order, tables, prefix, orders)
    ensures |groups| == |order| && forall i :: 0 <= i < |order| ==> groups[i].name == order[i]
  {
    if order == [] then [] else [GroupOf(order[0], tables, prefix, orders)] + GroupsOf(order[1..], tables, prefix, orders)
  }

  /** Group `n` is the same in both. */
  ghost predicate SameGroup(n: string, tables: Tables, prefix: string, orders: Orders, tables1: Tables, orders1: Orders) {
    n in tables && n in tables1 && tables1[n] == tables[n] && KeysOf(orders1, prefix + n) == KeysOf(orders, prefix + n)
  }

  /** Groups only depend on their own tables and key lists. */
  lemma {:induction false} GroupsSame(order: seq<string>, tables: Tables, prefix: string, orders: Orders, tables1: Tables, orders1: Orders)
    requires Grouped(order, tables, prefix, orders)
    requires forall i :: 0 <= i < |order| ==> SameGroup(order[i], tables, prefix, orders, tables1, orders1)
    ensures Grouped(order, tables1, prefix, orders1)
    ensures GroupsOf(order, tables1, prefix, orders1) == GroupsOf(order, tables, prefix, orders)
  {
    hide Ordered;
    if order != [] {
      assert SameGroup(order[0], tables, prefix, orders, tables1, orders1);
      GroupsSame(order[1..], tables, prefix, orders, tables1, orders1);
    }
  }

  lemma {:induction false} GroupsPut(order: seq<string>, tables: Tables, prefix: string, orders: Orders,
      tables1: Tables, orders1: Orders, name: string, key: string, value: string)
    requires NoRepeat(order) && name in order && Grouped(order, tables, prefix, orders)
    requires name in tables1 && Ordered(KeysOf(orders1, prefix + name), tables1[name])
    requires forall i :: 0 <= i < |order| && order[i] != name ==> SameGroup(order[i], tables, prefix, orders, tables1, orders1)
    requires PairsOf(KeysOf(orders1, prefix + name), tables1[name]) == Put(PairsOf(KeysOf(orders, prefix + name), tables[name]), key, value)
    ensures Grouped(order, tables1, prefix, orders1)
    ensures GroupsOf(order, tables1, prefix, orders1) == PutIn(GroupsOf(order, tables, prefix, orders), name, key, value)
  {
    hide Ordered, Put, PairsOf, KeysOf;
    if order[0] == name {
      assert name !in order[1..];
      GroupsSame(order[1..], tables, prefix, orders, tables1, orders1);
    } else {
      assert name in order[1..];
      assert SameGroup(order[0], tables, prefix, orders, tables1, orders1);
      GroupsPut(order[1..], tables, prefix, orders, tables1, orders1, name, key, value);
    }
  }

  lemma PrefixInjective(prefix: string, a: string, b: string)
    requires prefix + a == prefix + b
    ensures a == b
  {
    assert (prefix + a)[|prefix|..] == a && (prefix + b)[|prefix|..] == b;
  }

  lemma KeysElsewhere(orders: Orders, prefix: string, name: string, keys: seq<string>)
    ensures forall n: string :: n != name ==> KeysOf(orders[prefix + name := keys], prefix + n) == KeysOf(orders, prefix + n)
    ensures KeysOf(orders[prefix + name := keys], prefix + name) == keys
  {
    forall n: string | n != name
      ensures KeysOf(orders[prefix + name := keys], prefix + n) == KeysOf(orders, prefix + n)
    {
      if prefix + n == prefix + name { PrefixInjective(prefix, n, name); }
    }
  }

  /** Setting a key in one group. */
  lemma PutOrderedGroups(order: seq<string>, tables: Tables, prefix: string, orders: Orders, name: string, key: string, value: string)
    requires OrderedGroups(order, tables, prefix, orders) && name in tables
    ensures var id := prefix + name;
      var orders1 := if key in tables[name] then orders else orders[id := KeysOf(orders, id) + [key]];
      var tables1 := tables[name := tables[name][key := value]];
      OrderedGroups(order, tables1, prefix, orders1) &&
      GroupsOf(order, tables1, prefix, orders1) == PutIn(GroupsOf(order, tables, prefix, orders), name, key, value)
  {
    hide Ordered, PairsOf, Put, KeysOf, GroupsOf, PutIn;
    var id := prefix + name;
    var orders1 := if key in tables[name] then orders else orders[id := KeysOf(orders, id) + [key]];
    var tables1 := tables[name := tables[name][key := value]];
    assert Ordered(KeysOf(orders, id), tables[name]);
    PutOrdered(KeysOf(orders, id), tables[name], key, value);
    KeysElsewhere(orders, prefix, name, KeysOf(orders, id) + [key]);
    assert forall i :: 0 <= i < |order| && order[i] != name ==> SameGroup(order[i], tables, prefix, orders, tables1, orders1);
    GroupsPut(order, tables, prefix, orders, tables1, orders1, name, key, value);
  }

  lemma {:induction false} GroupsAppend(order: seq<string>, tables: Tables, prefix: string, orders: Orders, name: string)
    requires Grouped(order, tables, prefix, orders) && name !in order && KeysOf(orders, prefix + name) == []
    ensures Grouped(order + [name], tables[name := map[]], prefix, orders)
    ensures GroupsOf(order + [name], tables[name := map[]], prefix, orders) == GroupsOf(order, tables, prefix, orders) + [Group(name, [])]
    decreases |order|
  {
    assert Ordered([], map[]);
    assert PairsOf([], map[]) == [];
    hide Ordered, KeysOf, PairsOf;
    if order == [] {
      assert ([] + [name])[1..] == [];
    } else {
      GroupsAppend(order[1..], tables, prefix, orders, name);
      assert (order + [name])[1..] == order[1..] + [name];
    }
  }

  lemma GroupsHave(order: seq<string>, tables: Tables, prefix: string, orders: Orders, name: string)
    requires Grouped(order, tables, prefix, orders)
    ensures HasGroup(GroupsOf(order, tables, prefix, orders), name) <==> name in order
  {
    var groups := GroupsOf(order, tables, prefix, orders);
    hide Grouped, GroupsOf;
    if name in order {
      var i :| 0 <= i < |order| && order[i] == name;
      assert groups[i].name == name;
    }
  }

  /** Creating a group when it is missing. */
  lemma OpenOrderedGroups(order: seq<string>, tables: Tables, prefix: string, orders: Orders, name: string)
    requires OrderedGroups(order, tables, prefix, orders)
    ensures var order1 := if name in tables then order else order + [name];
      var tables1 := if name in tables then tables else tables[name := map[]];
      OrderedGroups(order1, tables1, prefix, orders) && name in tables1 &&
      GroupsOf(order1, tables1, prefix, orders) == OpenGroup(GroupsOf(order, tables, prefix, orders), name)
  {
    hide Grouped, GroupsOf, Ordered, KeysOf, HasGroup;
    GroupsHave(order, tables, prefix, orders, name);
    if name !in tables { GroupsAppend(order, tables, prefix, orders, name); }
  }

  /** Key lists under another prefix do not matter. */
  lemma OtherPrefix(order: seq<string>, tables: Tables, prefix: string, orders: Orders, id: string, keys: seq<string>)
    requires OrderedGroups(order, tables, prefix, orders) && prefix != "" && id != "" && id[0] != prefix[0]
    ensures OrderedGroups(order, tables, prefix, orders[id := keys]) &&
      GroupsOf(order, tables, prefix, orders[id := keys]) == GroupsOf(order, tables, prefix, orders)
  {
    assert forall n: string :: (prefix + n)[0] == prefix[0];
    assert forall n: string :: KeysOf(orders[id := keys], prefix + n) == KeysOf(orders, prefix + n);
    hide Ordered, KeysOf;
    forall i | 0 <= i < |order| ensures SameGroup(order[i], tables, prefix, orders, tables, orders[id := keys]) {
    }
    GroupsSame(order, tables, prefix, orders, tables, orders[id := keys]);
  }

  // ----- The class -----

  class File {
    var top: map<string, string>
    var params: map<string, string>
    var sections: Tables
    var nested: Tables
    var topOrder: seq<string>
    var paramsOrder: seq<string>
    var sectionsOrder: seq<string>
    var nestedOrder: seq<string>
    var keyOrder: Orders

    constructor ()
      ensures Valid() && Contents() == EmptyConf
    {
      top, params, sections, nested := map[], map[], map[], map[];
      topOrder, paramsOrder, sectionsOrder, nestedOrder, keyOrder := [], [], [], [], map[];
    }

    ghost predicate Valid()
      reads this
    {
      Ordered(topOrder, top) && Ordered(paramsOrder, params) &&
      OrderedGroups(nestedOrder, nested, "nested:", keyOrder) && OrderedGroups(sectionsOrder, sections, "section:", keyOrder)
    }

    ghost function Contents(): Conf
      requires Valid()
      reads this
    {
      Conf(PairsOf(topOrder, top), PairsOf(paramsOrder, params),
        GroupsOf(nestedOrder, nested, "nested:", keyOrder), GroupsOf(sectionsOrder, sections, "section:", keyOrder))
    }

    method SetTop(key: string, value: string)
      requires Valid()
      modifies this
      ensures Valid() && Contents() == old(Contents()).(top := Put(old(Contents()).top, key, value))
      ensures nested == old(nested) && sections == old(sections)
    {
      hide Ordered, OrderedGroups, Grouped, GroupsOf, PairsOf, KeysOf, OpenGroup, PutIn, Put, HasGroup;
      PutOrdered(topOrder, top, key, value);
      if key !in top { topOrder := topOrder + [key]; }
      top := top[key := value];
    }

    method SetParam(key: string, value: string)
      requires Valid()
      modifies this
      ensures Valid() && Contents() == old(Contents()).(params := Put(old(Contents()).params, key, value))
      ensures nested == old(nested) && sections == old(sections)
    {
      hide Ordered, OrderedGroups, Grouped, GroupsOf, PairsOf, KeysOf, OpenGroup, PutIn, Put, HasGroup;
      PutOrdered(paramsOrder, params, key, value);
      if key !in params { paramsOrder := paramsOrder + [key]; }
      params := params[key := value];
    }

    method DeleteParam(key: string)
      requires Valid()
      modifies this
      ensures Valid() && Contents() == old(Contents()).(params := Without(old(Contents()).params, key))
    {
      hide Ordered, OrderedGroups, Grouped, GroupsOf, PairsOf, KeysOf, Except, Without;
      ExceptOrdered(paramsOrder, params, key);
      if key !in params { return; }
      var order := paramsOrder;
      var kept := [];
      for i := 0 to |order|
        modifies {}
        invariant kept + Except(order[i..], key) == Except(order, key)
      {
        ExceptStep(order, i, key);
        if order[i] != key {
          Assoc(kept, [order[i]], Except(order[i + 1..], key));
          kept := kept + [order[i]];
        }
      }
      ExceptNone(order, key);
      assert kept + Except(order[|order|..], key) == kept;
      params := params - {key};
      paramsOrder := kept;
    }

    method SetNested(name: string, key: string, value: string)
      requires Valid()
      modifies this
      ensures Valid()
      ensures var c := old(Contents()); Contents() == c.(nested := PutIn(OpenGroup(c.nested, name), name, key, value))
    {
      OpenNested(name);
      PutNested(name, key, value);
    }

    method OpenNested(name: string)
      requires Valid()
      modifies this
      ensures Valid() && Contents() == old(Contents()).(nested := OpenGroup(old(Contents()).nested, name))
      ensures nested.Keys == old(nested.Keys) + {name} && sections == old(sections)
    {
      hide Ordered, OrderedGroups, Grouped, GroupsOf, PairsOf, KeysOf, OpenGroup, PutIn, Put, HasGroup;
      OpenOrderedGroups(nestedOrder, nested, "nested:", keyOrder, name);
      if name !in nested {
        nested := nested[name := map[]];
        nestedOrder := nestedOrder + [name];
      }
    }

    method PutNested(name: string, key: string, value: string)
      requires Valid() && name in nested
      modifies this
      ensures Valid() && nested.Keys == old(nested.Keys) && sections == old(sections)
      ensures Contents() == old(Contents()).(nested := PutIn(old(Contents()).nested, name, key, value))
    {
      hide Ordered, OrderedGroups, Grouped, GroupsOf, PairsOf, KeysOf, OpenGroup, PutIn, Put, HasGroup;
      var id := "nested:" + name;
      PutOrderedGroups(nestedOrder, nested, "nested:", keyOrder, name, key, value);
      OtherPrefix(sectionsOrder, sections, "section:", keyOrder, id, KeysOf(keyOrder, id) + [key]);
      if key !in nested[name] { keyOrder := keyOrder[id := KeysOf(keyOrder, id) + [key]]; }
      nested := nested[name := nested[name][key := value]];
    }

    method SetSection(name: string, key: string, value: string)
      requires Valid()
      modifies this
      ensures Valid()
      ensures var c := old(Contents()); Contents() == c.(sections := PutIn(OpenGroup(c.sections, name), name, key, value))
    {
      OpenSection(name);
      PutSection(name, key, value);
    }

    method OpenSection(name: string)
      requires Valid()
      modifies this
      ensures Valid() && Contents() == old(Contents()).(sections := OpenGroup(old(Contents()).sections, name))
      ensures sections.Keys == old(sections.Keys) + {name} && nested == old(nested)
    {
      hide Ordered, OrderedGroups, Grouped, GroupsOf, PairsOf, KeysOf, OpenGroup, PutIn, Put, HasGroup;
      OpenOrderedGroups(sectionsOrder, sections, "section:", keyOrder, name);
      if name !in sections {
        sections := sections[name := map[]];
        sectionsOrder := sectionsOrder + [name];
      }
    }

    method PutSection(name: string, key: string, value: string)
      requires Valid() && name in sections
      modifies this
      ensures Valid() && sections.Keys == old(sections.Keys) && nested == old(nested)
      ensures Contents() == old(Contents()).(sections := PutIn(old(Contents()).sections, name, key, value))
    {
      hide Ordered, OrderedGroups, Grouped, GroupsOf, PairsOf, KeysOf, OpenGroup, PutIn, Put, HasGroup;
      var id := "section:" + name;
      PutOrderedGroups(sectionsOrder, sections, "section:", keyOrder, name, key, value);
      OtherPrefix(nestedOrder, nested, "nested:", keyOrder, id, KeysOf(keyOrder, id) + [key]);
      if key !in sections[name] { keyOrder := keyOrder[id := KeysOf(keyOrder, id) + [key]]; }
      sections := sections[name := sections[name][key := value]];
    }

    /** Sets a key where the reader is. */
    method PutEntry(section: string, nest: string, key: string, value: string)
      requires Valid() && (nest != "" && section == "renewalparams" ==> nest in nested)
      requires section in {"", "renewalparams"} || section in sections
      modifies this
      ensures Valid() && Contents() == Enter(old(Contents()), Scope(section, nest), Entry(key, value))
      ensures nested.Keys == old(nested.Keys) && sections.Keys == old(sections.Keys)
    {
      hide Valid, Contents, Put, PutIn;
      if nest != "" && section == "renewalparams" { PutNested(nest, key, value); }
      else if section == "" { SetTop(key, value); }
      else if section == "renewalparams" { SetParam(key, value); }
      else { PutSection(section, key, value); }
    }

    predicate InScope(section: string, nest: string)
      reads this
    {
      (nest != "" ==> nest in nested) && (section in {"", "renewalparams"} || section in sections)
    }

    /** The body of the loop of `parse`. */
    method ReadLine(line: string, section: string, nest: string) returns (ok: bool, nowSection: string, nowNest: string)
      requires Valid() && InScope(section, nest)
      modifies this
      ensures Valid() && InScope(nowSection, nowNest) && ok == (Classify(line) != Malformed)
      ensures ok ==> Contents() == Enter(old(Contents()), Scope(section, nest), Classify(line))
      ensures ok ==> Scope(nowSection, nowNest) == NextScope(Scope(section, nest), Classify(line))
    {
      hide Valid, Contents, TrimSpace, WithoutComment, HasPrefix, HasSuffix, OpenGroup, EqualsAt;
      ok, nowSection, nowNest := true, section, nest;
      var t := TrimSpace(line);
      PrefixOne(t, '#');
      if t == "" || HasPrefix(t, "#") { return; }
      Brackets(t);
      if HasPrefix(t, "[[") && HasSuffix(t, "]]") {
        nowNest := TrimSpace(t[2..|t| - 2]);
        OpenNested(nowNest);
        return;
      }
      if HasPrefix(t, "[") && HasSuffix(t, "]") {
        nowSection, nowNest := TrimSpace(t[1..|t| - 1]), "";
        if nowSection != "renewalparams" { OpenSection(nowSection); }
        return;
      }
      var at := EqualsAt(t);
      if at == |t| { return false, section, nest; }
      var value := StripInlineComment(TrimSpace(t[at + 1..]));
      PutEntry(section, nest, TrimSpace(t[..at]), value);
    }

    /** `parse`, into a new file. */
    method Load(text: string) returns (ok: bool)
      requires Valid() && Contents() == EmptyConf
      modifies this
      ensures Valid() && match Parse(text) { case Bad => !ok case Good(c) => ok && Contents() == c }
    {
      var section, nest, rest := "", "", text;
      hide Lines, Valid, Contents, Classify, Enter, NextScope, ParseRest, Bytes;
      while rest != ""
        invariant Valid() && InScope(section, nest)
        invariant ParseRest(Contents(), Scope(section, nest), rest) == Parse(text)
        decreases |rest|
      {
        var n := LineEnd(rest);
        ParseStep(Contents(), Scope(section, nest), rest);
        if Bytes(rest[..n]) >= BufferSize { return false; }
        ok, section, nest := ReadLine(DropReturn(rest[..n]), section, nest);
        if !ok { return; }
        rest := if n == |rest| then "" else rest[n + 1..];
      }
      ParseEnd(Contents(), Scope(section, nest));
      return true;
    }

    /** Writes the pairs of one ordered map; the map has no key that the order lacks. */
    method EmitKV(order: seq<string>, m: map<string, string>) returns (text: string)
      requires Ordered(order, m)
      ensures text == RenderPairs(PairsOf(order, m))
    {
      text := "";
      hide FormatValue;
      for i := 0 to |order|
        invariant text + RenderPairs(PairsOf(order[i..], m)) == RenderPairs(PairsOf(order, m))
      {
        var line := order[i] + " = " + FormatValue(m[order[i]]) + "\n";
        assert order[i..][1..] == order[i + 1..] && order[i..][0] == order[i];
        assert RenderPairs(PairsOf(order[i..], m)) == line + RenderPairs(PairsOf(order[i + 1..], m));
        Assoc(text, line, RenderPairs(PairsOf(order[i + 1..], m)));
        text := text + line;
      }
      assert m.Keys - (set k <- order) == {};
      assert order[|order|..] == [] && text + "" == text;
    }

    method EmitNested() returns (text: string)
      requires Valid()
      ensures text == RenderNested(Contents().nested)
    {
      ghost var groups := Contents().nested;
      text := "";
      hide RenderPairs, PairsOf;
      for i := 0 to |nestedOrder|
        invariant text + RenderNested(groups[i..]) == RenderNested(groups)
      {
        var name := nestedOrder[i];
        GroupAt(nestedOrder, nested, "nested:", keyOrder, i);
        var body := EmitKV(KeysOf(keyOrder, "nested:" + name), nested[name]);
        assert groups[i..][1..] == groups[i + 1..];
        var part := "[[" + name + "]]\n" + body;
        Assoc(text, part, RenderNested(groups[i + 1..]));
        text := text + part;
      }
      assert groups[|groups|..] == [] && text + "" == text;
    }

    method EmitSections() returns (text: string)
      requires Valid()
      ensures text == RenderSections(Contents().sections)
    {
      ghost var groups := Contents().sections;
      text := "";
      hide RenderPairs, PairsOf;
      for i := 0 to |sectionsOrder|
        invariant text + RenderSections(groups[i..]) == RenderSections(groups)
      {
        var name := sectionsOrder[i];
        GroupAt(sectionsOrder, sections, "section:", keyOrder, i);
        var body := EmitKV(KeysOf(keyOrder, "section:" + name), sections[name]);
        assert groups[i..][1..] == groups[i + 1..];
        var part := "[" + name + "]\n" + body;
        Assoc(text, part, RenderSections(groups[i + 1..]));
        text := text + part;
      }
      assert groups[|groups|..] == [] && text + "" == text;
    }

    /** The text that `Save` puts in the file. */
    method Save() returns (text: string)
      requires Valid()
      ensures text == Render(Contents())
    {
      hide RenderPairs, RenderNested, RenderSections, PairsOf, GroupsOf, Ordered, OrderedGroups;
      var top := EmitKV(topOrder, top);
      var params := EmitKV(paramsOrder, params);
      var nests := EmitNested();
      var others := EmitSections();
      text := top + "[renewalparams]\n" + params + nests + others;
    }
  }

  /** The text behind the first line. */
  function Rest(text: string): string {
    var n := LineEnd(text);
    if n == |text| then "" else text[n + 1..]
  }

  lemma FirstLine(text: string)
    requires text != ""
    ensures Lines(text) == [DropReturn(text[..LineEnd(text)])] + Lines(Rest(text))
    ensures LinesFit(text) <==> Bytes(text[..LineEnd(text)]) < BufferSize && LinesFit(Rest(text))
  {
    hide Bytes, LineEnd, DropReturn;
    assert Lines("") == [] && LinesFit("");
  }

  lemma ParseStep(c: Conf, scope: Scope, text: string)
    requires text != ""
    ensures var n := LineEnd(text); var line := Classify(DropReturn(text[..n]));
      ParseRest(c, scope, text) ==
        if Bytes(text[..n]) >= BufferSize || line == Malformed then Bad
        else ParseRest(Enter(c, scope, line), NextScope(scope, line), Rest(text))
  {
    hide Classify, Enter, Bytes, LineEnd, Lines, LinesFit, DropReturn, Rest;
    FirstLine(text);
    assert ([DropReturn(text[..LineEnd(text)])] + Lines(Rest(text)))[1..] == Lines(Rest(text));
  }

  lemma ParseEnd(c: Conf, scope: Scope)
    ensures ParseRest(c, scope, "") == Good(c)
  {
  }

  lemma PrefixOne(t: string, c: char)
    ensures HasPrefix(t, [c]) <==> t != "" && t[0] == c
  {
    if t != "" { assert t[..1] == [t[0]]; }
  }

  lemma {:induction false} GroupAt(order: seq<string>, tables: Tables, prefix: string, orders: Orders, i: nat)
    requires Grouped(order, tables, prefix, orders) && i < |order|
    ensures GroupsOf(order, tables, prefix, orders)[i] == GroupOf(order[i], tables, prefix, orders)
  {
    if i > 0 { GroupAt(order[1..], tables, prefix, orders, i - 1); }
  }
}
