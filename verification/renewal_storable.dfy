/** Which values of renewal configurations can be written and read back, told from the value itself. */
module RenewalStorable {
  import opened Text
  import opened RenewalValues

  // ----- The comment search as a state machine -----

  /** Inside which quotes the search is, and whether behind a backslash. */
  datatype Quote = Quote(single: bool, double: bool, escaped: bool)

  const Start := Quote(false, false, false)

  function After(st: Quote, c: char): Quote {
    if st.escaped then st.(escaped := false)
    else if c == '\\' then st.(escaped := true)
    else if c == '"' && !st.single then st.(double := !st.double)
    else if c == '\'' && !st.double then st.(single := !st.single)
    else st
  }

  predicate NoHash(s: string, st: Quote) {
    s == "" || (!(s[0] == '#' && st == Start) && NoHash(s[1..], After(st, s[0])))
  }

  function End(s: string, st: Quote): Quote {
    if s == "" then st else End(s[1..], After(st, s[0]))
  }

  lemma {:induction false} HashAtIs(v: string, i: nat, inSingle: bool, inDouble: bool)
    requires i <= |v|
    ensures HashAt(v, i, inSingle, inDouble) == |v| <==> NoHash(v[i..], Quote(inSingle, inDouble, false))
    decreases |v| - i
  {
    if i < |v| {
      assert v[i..][1..] == v[i + 1..];
      if v[i] == '\\' && i + 1 < |v| {
        assert v[i + 1..][1..] == v[i + 2..];
        HashAtIs(v, i + 2, inSingle, inDouble);
      } else if v[i] == '"' && !inSingle {
        HashAtIs(v, i + 1, inSingle, !inDouble);
      } else if v[i] == '\'' && !inDouble {
        HashAtIs(v, i + 1, !inSingle, inDouble);
      } else if !(v[i] == '#' && !inSingle && !inDouble) {
        HashAtIs(v, i + 1, inSingle, inDouble);
        if v[i] == '\\' { assert v[i + 1..] == ""; }
      }
    }
  }

  lemma BareIs(v: string)
    ensures NoBareHash(v) <==> NoHash(v, Start)
  {
    HashAtIs(v, 0, false, false);
    assert v[0..] == v;
  }

  lemma {:induction false} NoHashAppend(a: string, b: string, st: Quote)
    ensures NoHash(a + b, st) <==> NoHash(a, st) && NoHash(b, End(a, st))
    ensures End(a + b, st) == End(b, End(a, st))
    decreases |a|
  {
    hide After;
    if a == "" {
      assert a + b == b;
    } else {
      assert (a + b)[1..] == a[1..] + b && (a + b)[0] == a[0];
      NoHashAppend(a[1..], b, After(st, a[0]));
    }
  }

  lemma OneChar(c: char, st: Quote)
    ensures NoHash([c], st) <==> !(c == '#' && st == Start)
    ensures End([c], st) == After(st, c)
  {
    assert [c][1..] == "";
  }

  // ----- Lists -----

  /** The parts put together again. */
  function Raw(parts: seq<string>): string
    requires parts != []
    decreases |parts|
  {
    if |parts| == 1 then parts[0] else parts[0] + "," + Raw(parts[1..])
  }

  lemma {:induction false} RawOfSplit(v: string)
    ensures Raw(Split(v)) == v
  {
    if v != "" {
      var rest := Split(v[1..]);
      RawOfSplit(v[1..]);
      assert v == [v[0]] + v[1..];
      if v[0] == ',' {
        assert Split(v)[1..] == rest;
      } else {
        assert Split(v) == [[v[0]] + rest[0]] + rest[1..];
        assert Split(v)[1..] == rest[1..];
      }
    }
  }

  /** Nothing is found in the parts, each with the comma behind it. */
  predicate Clear(parts: seq<string>, st: Quote)
    decreases |parts|
  {
    parts == [] || (NoHash(parts[0] + ",", st) && Clear(parts[1..], End(parts[0] + ",", st)))
  }

  /** A comma is never found, and ends an escape. */
  lemma CommaBehind(s: string, st: Quote)
    ensures NoHash(s + ",", st) <==> NoHash(s, st)
    ensures End(s + ",", st) == End(s, st).(escaped := false)
  {
    NoHashAppend(s, ",", st);
    OneChar(',', End(s, st));
  }

  lemma {:induction false} RawClear(parts: seq<string>, st: Quote)
    requires parts != []
    ensures NoHash(Raw(parts), st) <==> Clear(parts, st)
    decreases |parts|
  {
    CommaBehind(parts[0], st);
    if |parts| > 1 {
      NoHashAppend(parts[0] + ",", Raw(parts[1..]), st);
      RawClear(parts[1..], End(parts[0] + ",", st));
    } else {
      assert parts[1..] == [];
    }
    hide NoHash, End;
  }

  lemma SpaceKeeps(c: char, st: Quote)
    requires IsSpace(c)
    ensures After(st, c) == st.(escaped := false) && NoHash([c], st)
  {
    OneChar(c, st);
  }

  /** Trimming a part changes nothing for the search behind its comma. */
  lemma {:induction false} TrimPart(p: string, st: Quote)
    requires !st.escaped
    ensures NoHash(p + ",", st) <==> NoHash(TrimSpace(p) + ",", st)
    ensures End(p + ",", st) == End(TrimSpace(p) + ",", st)
    decreases |p|
  {
    hide IsSpace;
    CommaBehind(p, st);
    if p != "" && IsSpace(p[0]) {
      TrimPart(p[1..], st);
      SpaceKeeps(p[0], st);
      assert p == [p[0]] + p[1..];
      NoHashAppend([p[0]], p[1..], st);
      OneChar(p[0], st);
      CommaBehind(p[1..], st);
    } else if p != "" && IsSpace(p[|p| - 1]) {
      var q, c := p[..|p| - 1], p[|p| - 1];
      TrimPart(q, st);
      assert p == q + [c];
      NoHashAppend(q, [c], st);
      SpaceKeeps(c, End(q, st));
      OneChar(c, End(q, st));
      CommaBehind(q, st);
    }
  }

  lemma EndComma(p: string, st: Quote)
    ensures !End(p + ",", st).escaped
  {
    CommaBehind(p, st);
  }

  lemma {:induction false} ItemsClear(parts: seq<string>, st: Quote)
    requires !st.escaped
    ensures Clear(Items(parts), st) <==> Clear(parts, st)
    decreases |parts|
  {
    if parts != [] {
      var t := TrimSpace(parts[0]);
      TrimPart(parts[0], st);
      EndComma(parts[0], st);
      ItemsClear(parts[1..], End(parts[0] + ",", st));
      if t == "" {
        CommaBehind("", st);
        assert "" + "," == ",";
        assert [] + Items(parts[1..]) == Items(parts[1..]);
      } else {
        assert ([t] + Items(parts[1..]))[1..] == Items(parts[1..]);
      }
    }
  }

  lemma {:induction false} JoinClear(items: seq<string>, st: Quote)
    ensures NoHash(Join(items), st) <==> Clear(items, st)
    decreases |items|
  {
    if |items| == 1 {
      CommaBehind(items[0], st);
      assert items[1..] == [];
    } else if items != [] {
      var st1, rest := End(items[0] + ",", st), Join(items[1..]);
      EndComma(items[0], st);
      JoinClear(items[1..], st1);
      assert items[0] + ", " + rest == items[0] + "," + (" " + rest);
      NoHashAppend(items[0] + ",", " " + rest, st);
      assert (" " + rest)[1..] == rest;
      SpaceKeeps(' ', st1);
      hide End, After;
    }
  }

  /** Formatting a list neither hides nor bares a comment. */
  lemma ListHash(v: string)
    ensures NoBareHash(FormatList(v)) <==> NoBareHash(v)
  {
    hide NoHash, Clear, Split, Items, Join, NoBareHash;
    var items := Items(Split(v));
    BareIs(v);
    BareIs(FormatList(v));
    RawOfSplit(v);
    RawClear(Split(v), Start);
    ItemsClear(Split(v), Start);
    JoinClear(items, Start);
    if |items| == 1 { SingleClear(items); }
  }

  lemma SingleClear(items: seq<string>)
    requires |items| == 1
    ensures NoHash(items[0] + ",", Start) <==> Clear(items, Start)
  {
    assert items[1..] == [];
  }

  /** Whether an item holds a line break, which trimming did not take away. */
  predicate BrokenItem(v: string) {
    exists i :: 0 <= i < |Items(Split(v))| && '\n' in Items(Split(v))[i]
  }

  lemma {:induction false} JoinBreaks(items: seq<string>)
    ensures '\n' in Join(items) <==> exists i :: 0 <= i < |items| && '\n' in items[i]
    decreases |items|
  {
    if |items| > 1 {
      var rest := Join(items[1..]);
      JoinBreaks(items[1..]);
      assert '\n' in items[0] + ", " + rest <==> '\n' in items[0] || '\n' in rest;
      assert forall i :: 1 <= i < |items| ==> items[1..][i - 1] == items[i];
      if i :| 0 <= i < |items| && '\n' in items[i] { assert i > 0 ==> items[1..][i - 1] == items[i]; }
    }
  }

  lemma ListBreaks(v: string)
    ensures '\n' in FormatList(v) <==> BrokenItem(v)
  {
    JoinBreaks(Items(Split(v)));
    hide Items, Split;
  }

  // ----- Quoted scalars -----

  lemma {:induction false} InDouble(v: string, st: Quote)
    requires '"' !in v && st.double && !st.single
    ensures NoHash(v, st)
  {
    if v != "" {
      assert v[0] in v && forall c <- v[1..] :: c in v;
      InDouble(v[1..], After(st, v[0]));
    }
  }

  lemma DoubleQuoted(v: string)
    requires '"' !in v
    ensures NoBareHash("\"" + v + "\"")
  {
    var w, st := "\"" + v + "\"", Quote(false, true, false);
    BareIs(w);
    NoHashAppend("\"" + v, "\"", Start);
    NoHashAppend("\"", v, Start);
    OneChar('"', Start);
    OneChar('"', End("\"" + v, Start));
    InDouble(v, st);
  }

  lemma SingleQuoted(v: string)
    ensures NoBareHash("'" + v + "'") <==> HashAt(v, 0, true, false) == |v|
  {
    var w := "'" + v + "'";
    BareIs(w);
    NoHashAppend("'" + v, "'", Start);
    NoHashAppend("'", v, Start);
    OneChar('\'', Start);
    OneChar('\'', End("'" + v, Start));
    HashAtIs(v, 0, true, false);
    assert v[0..] == v;
  }

  lemma QuotedBreaks(v: string, quote: string)
    requires quote in {"\"", "'"}
    ensures '\n' in quote + v + quote <==> '\n' in v
  {
  }

  // ----- The condition -----

  /** A scalar with a double quote that is not quoted itself, in which a `#` is bare when the text is
      read from inside single quotes, as it will be once it is written. */
  predicate Trap(v: string) {
    !IsQuoted(v) && ',' !in v && '"' in v && HashAt(v, 0, true, false) < |v|
  }

  /** What can be written and read back: a quoted value that has no line break and no bare `#`; a
      list whose items have no line break and which has no bare `#`; any other value that has no line
      break and is no trap. */
  lemma StorableExactly(v: string)
    ensures Storable(v) <==>
      if v == "" || IsQuoted(v) then '\n' !in v && NoBareHash(v)
      else if ',' in v then !BrokenItem(v) && NoBareHash(v)
      else '\n' !in v && !Trap(v)
  {
    hide NoBareHash, FormatList, Items, Split, TrimSpace, HashAt;
    if v == "" || IsQuoted(v) {
    } else if ',' in v {
      ListHash(v);
      ListBreaks(v);
    } else if !NeedsQuotes(v) {
      PlainStorable(v);
    } else if '"' !in v {
      DoubleQuoted(v);
      QuotedBreaks(v, "\"");
    } else {
      SingleQuoted(v);
      QuotedBreaks(v, "'");
    }
  }

  lemma PlainStorable(v: string)
    requires '#' !in v
    ensures NoBareHash(v)
  {
  }

  lemma {:induction false} SplitChars(v: string)
    ensures forall i :: 0 <= i < |Split(v)| ==> forall c <- Split(v)[i] :: c in v
  {
    if v != "" {
      SplitChars(v[1..]);
      assert v == [v[0]] + v[1..];
    }
  }

  lemma {:induction false} ItemChars(parts: seq<string>, v: string)
    requires forall i :: 0 <= i < |parts| ==> forall c <- parts[i] :: c in v
    ensures forall i :: 0 <= i < |Items(parts)| ==> forall c <- Items(parts)[i] :: c in v
    decreases |parts|
  {
    if parts != [] {
      ItemChars(parts[1..], v);
      TrimSpaceTrims(parts[0]);
    }
  }

  /** A value that came from a line of a file can be written and read back unless it is a trap. */
  lemma DeliveredStorable(v: string)
    requires '\n' !in v && NoBareHash(v)
    ensures Storable(v) <==> !Trap(v)
  {
    StorableExactly(v);
    SplitChars(v);
    ItemChars(Split(v), v);
    hide Storable, NoBareHash, Items, Split, HashAt;
  }

  // ----- Values whose line may look like a section header -----

  predicate EndsInBracket(w: string) {
    w != "" && w[|w| - 1] == ']'
  }

  /** A list of several items or a plain value that ends in a bracket: no quote or comma is written
      behind it. */
  predicate BracketEnd(v: string) {
    if v == "" || IsQuoted(v) then false
    else if ',' in v then
      var items := Items(Split(v));
      |items| >= 2 && EndsInBracket(items[|items| - 1])
    else !NeedsQuotes(v) && EndsInBracket(v)
  }

  lemma {:induction false} JoinEnd(items: seq<string>)
    requires GoodItems(items) && items != []
    ensures var j, last := Join(items), items[|items| - 1]; j != "" && j[|j| - 1] == last[|last| - 1]
    decreases |items|
  {
    if |items| > 1 { JoinEnd(items[1..]); }
  }

  /** These are exactly the values that are written with a bracket at the end. */
  lemma BracketEndExactly(v: string)
    ensures EndsInBracket(FormatValue(v)) <==> BracketEnd(v)
  {
    if v != "" && !IsQuoted(v) && ',' in v {
      SplitParts(v);
      ItemsGood(Split(v));
      var items := Items(Split(v));
      if items != [] { JoinEnd(items); }
      hide Items, Split;
    }
  }
}
