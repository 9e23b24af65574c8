/** Values of renewal configurations (`internal/storage/renewalconf/renewalconf.go`): how they are
    written, how a line is read back, and what a list-valued one means.
 */
module RenewalValues {
  import opened Text

  lemma {:induction false} TrimSpaceTrims(s: string)
    ensures Trimmed(TrimSpace(s)) && forall c <- TrimSpace(s) :: c in s
    decreases |s|
  {
    if s != "" && IsSpace(s[0]) { TrimSpaceTrims(s[1..]); }
    else if s != "" && IsSpace(s[|s| - 1]) { TrimSpaceTrims(s[..|s| - 1]); }
  }

  lemma TrimmedStays(s: string)
    requires Trimmed(s)
    ensures TrimSpace(s) == s
  {
  }

  lemma TrimLeading(c: char, s: string)
    requires IsSpace(c)
    ensures TrimSpace([c] + s) == TrimSpace(s)
  {
    assert ([c] + s)[1..] == s;
  }

  lemma {:induction false} TrimTrailing(s: string, c: char)
    requires IsSpace(c)
    ensures TrimSpace(s + [c]) == TrimSpace(s)
    decreases |s|
  {
    if s != "" && IsSpace(s[0]) {
      assert (s + [c])[1..] == s[1..] + [c];
      TrimTrailing(s[1..], c);
    } else if s != "" {
      assert (s + [c])[..|s|] == s;
    } else {
      assert ("" + [c])[1..] == "";
    }
  }

  // ----- Lists -----

  /** `strings.Split` at commas. */
  function Split(s: string): (parts: seq<string>)
    ensures parts != []
  {
    if s == "" then [""]
    else
      var rest := Split(s[1..]);
      if s[0] == ',' then [""] + rest else [[s[0]] + rest[0]] + rest[1..]
  }

  /** `strings.Join` with a comma and a blank. */
  function Join(items: seq<string>): string
    decreases |items|
  {
    if items == [] then "" else if |items| == 1 then items[0] else items[0] + ", " + Join(items[1..])
  }

  /** The trimmed parts that are not empty. */
  function Items(parts: seq<string>): seq<string>
    decreases |parts|
  {
    if parts == [] then []
    else (if TrimSpace(parts[0]) == "" then [] else [TrimSpace(parts[0])]) + Items(parts[1..])
  }

  predicate IsQuoted(v: string) {
    |v| >= 2 && ((v[0] == '"' && v[|v| - 1] == '"') || (v[0] == '\'' && v[|v| - 1] == '\''))
  }

  /** `unquote`. */
  function Unquote(v: string): string {
    var t := TrimSpace(v);
    if IsQuoted(t) then t[1..|t| - 1] else t
  }

  function ItemOf(part: string): seq<string> {
    var item := TrimSpace(Unquote(part));
    if item == "" then [] else [item]
  }

  function UnquotedItems(parts: seq<string>): seq<string>
    decreases |parts|
  {
    if parts == [] then [] else ItemOf(parts[0]) + UnquotedItems(parts[1..])
  }

  /** `List`, for the value of the key. */
  function ListOf(v: string): seq<string> {
    UnquotedItems(Split(v))
  }

  // ----- Writing a value -----

  function FormatList(v: string): string {
    var items := Items(Split(v));
    if |items| == 1 then items[0] + "," else Join(items)
  }

  predicate NeedsQuotes(v: string) {
    '"' in v || '#' in v || '\n' in v || v != TrimSpace(v)
  }

  /** `formatValue`. */
  function FormatValue(v: string): string {
    if v == "" || IsQuoted(v) then v
    else if ',' in v then FormatList(v)
    else if !NeedsQuotes(v) then v
    else if '"' !in v then "\"" + v + "\""
    else "'" + v + "'"
  }

  predicate NoComma(s: string) {
    ',' !in s
  }

  predicate GoodItems(items: seq<string>) {
    forall i :: 0 <= i < |items| ==> NoComma(items[i]) && Trimmed(items[i]) && items[i] != ""
  }

  lemma {:induction false} SplitParts(s: string)
    ensures forall i :: 0 <= i < |Split(s)| ==> NoComma(Split(s)[i])
    ensures ',' in s <==> |Split(s)| > 1
    ensures ',' !in s ==> Split(s) == [s]
  {
    if s != "" {
      SplitParts(s[1..]);
      assert s == [s[0]] + s[1..];
    }
  }

  lemma {:induction false} SplitAt(a: string, b: string)
    requires NoComma(a)
    ensures Split(a + "," + b) == [a] + Split(b)
  {
    if a == "" {
      assert ("" + "," + b)[1..] == b;
    } else {
      SplitAt(a[1..], b);
      assert (a + "," + b)[1..] == a[1..] + "," + b;
      assert a == [a[0]] + a[1..];
    }
  }

  lemma {:induction false} ItemsGood(parts: seq<string>)
    requires forall i :: 0 <= i < |parts| ==> NoComma(parts[i])
    ensures GoodItems(Items(parts))
    decreases |parts|
  {
    if parts != [] {
      ItemsGood(parts[1..]);
      TrimSpaceTrims(parts[0]);
    }
  }

  /** A blank in front of a value changes none of its items. */
  lemma SplitBlank(s: string)
    ensures Items(Split(" " + s)) == Items(Split(s)) && UnquotedItems(Split(" " + s)) == UnquotedItems(Split(s))
  {
    var parts := Split(s);
    assert (" " + s)[1..] == s;
    assert Split(" " + s) == [" " + parts[0]] + parts[1..];
    assert [' '] + parts[0] == " " + parts[0];
    TrimLeading(' ', parts[0]);
    assert ([" " + parts[0]] + parts[1..])[1..] == parts[1..];
  }

  lemma ItemsCons(a: string, rest: seq<string>)
    requires Trimmed(a) && a != ""
    ensures Items([a] + rest) == [a] + Items(rest)
  {
    TrimmedStays(a);
    assert ([a] + rest)[1..] == rest;
  }

  lemma ItemOnly(a: string)
    requires Trimmed(a) && a != ""
    ensures Items([a]) == [a]
  {
    TrimmedStays(a);
    assert [a][1..] == [];
  }

  lemma {:induction false} ItemsOfJoin(items: seq<string>)
    requires GoodItems(items)
    ensures Items(Split(Join(items))) == items
    decreases |items|
  {
    if items == [] {
      assert [""][1..] == [];
    } else if |items| == 1 {
      SplitParts(items[0]);
      ItemOnly(items[0]);
    } else {
      var rest := Join(items[1..]);
      ItemsOfJoin(items[1..]);
      hide Items, Split, UnquotedItems, TrimSpace;
      assert Join(items) == items[0] + "," + (" " + rest);
      SplitAt(items[0], " " + rest);
      SplitBlank(rest);
      ItemsCons(items[0], Split(" " + rest));
      assert items == [items[0]] + items[1..];
    }
  }

  lemma ItemsOfSingle(item: string)
    requires NoComma(item) && Trimmed(item) && item != ""
    ensures Items(Split(item + ",")) == [item]
  {
    assert item + "," + "" == item + ",";
    SplitAt(item, "");
    assert [""][1..] == [];
    ItemsCons(item, [""]);
  }

  /** Formatting a list keeps its items. */
  lemma FormatListItems(v: string)
    ensures Items(Split(FormatList(v))) == Items(Split(v)) && GoodItems(Items(Split(v)))
  {
    var items := Items(Split(v));
    SplitParts(v);
    ItemsGood(Split(v));
    if |items| == 1 { ItemsOfSingle(items[0]); } else { ItemsOfJoin(items); }
  }

  lemma {:induction false} JoinShape(items: seq<string>)
    requires GoodItems(items)
    ensures Trimmed(Join(items)) && (items != [] ==> Join(items) != "") && (|items| > 1 ==> ',' in Join(items))
    decreases |items|
  {
    if |items| > 1 {
      JoinShape(items[1..]);
      var j := Join(items);
      assert j[|items[0]|] == ',' && j[0] == items[0][0];
      assert j[|j| - 1] == Join(items[1..])[|Join(items[1..])| - 1];
    }
  }

  lemma FormatListShape(v: string)
    ensures Trimmed(FormatList(v)) && (FormatList(v) == "" || ',' in FormatList(v))
  {
    var items := Items(Split(v));
    SplitParts(v);
    ItemsGood(Split(v));
    JoinShape(items);
    if |items| == 1 { assert FormatList(v)[|items[0]|] == ','; }
  }

  /** A written value has no blanks at its ends, and writing it again changes nothing. */
  lemma FormatIdempotent(v: string)
    ensures Trimmed(FormatValue(v)) && FormatValue(FormatValue(v)) == FormatValue(v)
  {
    var w := FormatValue(v);
    if v == "" || IsQuoted(v) {
    } else if ',' in v {
      FormatListItems(v);
      FormatListShape(v);
      hide FormatList, Items, Split;
      assert w == FormatList(v);
      ListAgain(v);
    } else if !NeedsQuotes(v) {
      TrimSpaceTrims(v);
    } else if '"' !in v {
      assert w[0] == '"' && w[|w| - 1] == '"';
    } else {
      assert w[0] == '\'' && w[|w| - 1] == '\'';
    }
  }

  /** A scalar is written so that taking off the quotes gives it back, blanks and all. */
  lemma ScalarKept(v: string)
    requires ',' !in v && !IsQuoted(v)
    ensures Unquote(FormatValue(v)) == v
  {
    var quote := if '"' !in v then '"' else '\'';
    var w := [quote] + v + [quote];
    if v != "" && NeedsQuotes(v) {
      assert FormatValue(v) == w;
      assert w[0] == quote && w[|w| - 1] == quote && w[1..|w| - 1] == v;
      TrimmedStays(w);
    } else {
      TrimSpaceTrims(v);
      TrimmedStays(v);
    }
  }

  lemma ListAgain(v: string)
    ensures FormatList(FormatList(v)) == FormatList(v)
  {
    FormatListItems(v);
  }

  // ----- What a list means -----

  lemma ItemOfTrimmed(part: string)
    ensures ItemOf(TrimSpace(part)) == ItemOf(part)
    ensures TrimSpace(part) == "" ==> ItemOf(part) == []
  {
    TrimSpaceTrims(part);
    TrimmedStays(TrimSpace(part));
  }

  lemma {:induction false} UnquotedOfItems(parts: seq<string>)
    ensures UnquotedItems(Items(parts)) == UnquotedItems(parts)
    decreases |parts|
  {
    if parts != [] {
      var t := TrimSpace(parts[0]);
      UnquotedOfItems(parts[1..]);
      ItemOfTrimmed(parts[0]);
      hide ItemOf, TrimSpace;
      if t != "" {
        assert ([t] + Items(parts[1..]))[1..] == Items(parts[1..]);
      } else {
        assert [] + Items(parts[1..]) == Items(parts[1..]);
        assert [] + UnquotedItems(parts[1..]) == UnquotedItems(parts[1..]);
      }
    }
  }

  lemma ListOfList(v: string)
    ensures ListOf(FormatList(v)) == ListOf(v)
  {
    FormatListItems(v);
    UnquotedOfItems(Split(FormatList(v)));
    UnquotedOfItems(Split(v));
  }

  lemma ListOfScalar(v: string)
    requires ',' !in v
    ensures ListOf(v) == ItemOf(v)
  {
    SplitParts(v);
    assert [v][1..] == [] && UnquotedItems([]) == [];
    assert UnquotedItems([v]) == ItemOf(v) + UnquotedItems([]) == ItemOf(v);
  }

  lemma {:induction false} TrimSpaceSize(s: string)
    ensures |TrimSpace(s)| <= |s|
    decreases |s|
  {
    if s != "" && IsSpace(s[0]) { TrimSpaceSize(s[1..]); }
    else if s != "" && IsSpace(s[|s| - 1]) { TrimSpaceSize(s[..|s| - 1]); }
  }

  lemma ItemOfQuoted(v: string, quote: char)
    requires quote in {'"', '\''}
    ensures var t := TrimSpace(v); ItemOf([quote] + v + [quote]) == if t == "" then [] else [t]
  {
    var w := [quote] + v + [quote];
    assert w[0] == quote && w[|w| - 1] == quote && w[1..|w| - 1] == v;
    TrimmedStays(w);
  }

  lemma ItemOfScalar(v: string)
    ensures var t := TrimSpace(v); ItemOf(v) == (if t == "" then [] else [t]) <==> !IsQuoted(t)
  {
    var t := TrimSpace(v);
    TrimSpaceTrims(v);
    TrimmedStays(t);
    if IsQuoted(t) { TrimSpaceSize(t[1..|t| - 1]); }
  }

  /** Quoting a scalar keeps its list value unless a quoted scalar hides behind blanks. */
  lemma ListOfQuoted(v: string, quote: char)
    requires quote in {'"', '\''} && ',' !in v
    ensures ListOf([quote] + v + [quote]) == ListOf(v) <==> !IsQuoted(TrimSpace(v))
  {
    hide *;
    ListOfScalar(v);
    ListOfScalar([quote] + v + [quote]);
    ItemOfQuoted(v, quote);
    ItemOfScalar(v);
  }

  /** Writing and reading a value keeps its list meaning, exactly unless the value is a quoted
      scalar with blanks around the quotes. */
  lemma ListKept(v: string)
    ensures ListOf(FormatValue(v)) == ListOf(v) <==>
      !(',' !in v && v != TrimSpace(v) && IsQuoted(TrimSpace(v)))
  {
    if v == "" || IsQuoted(v) {
      TrimmedStays(v);
    } else if ',' in v {
      ListOfList(v);
    } else if !NeedsQuotes(v) {
      assert v == TrimSpace(v);
    } else {
      ListOfQuoted(v, if '"' !in v then '"' else '\'');
      hide Split, ListOf, TrimSpace;
      assert FormatValue(v) == (if '"' !in v then "\"" + v + "\"" else "'" + v + "'");
    }
  }

  lemma {:induction false} PlainItems(items: seq<string>)
    requires GoodItems(items) && forall i :: 0 <= i < |items| ==> !IsQuoted(items[i])
    ensures UnquotedItems(items) == items
    decreases |items|
  {
    if items != [] {
      PlainItems(items[1..]);
      TrimmedStays(items[0]);
      assert items == [items[0]] + items[1..];
    }
  }

  /** A list that is written with commas is read back item by item. */
  lemma ListReadBack(items: seq<string>)
    requires GoodItems(items) && forall i :: 0 <= i < |items| ==> !IsQuoted(items[i])
    ensures ListOf(Join(items)) == items
  {
    ItemsOfJoin(items);
    UnquotedOfItems(Split(Join(items)));
    PlainItems(items);
  }

  /** An item in quotes is what stands between them, without whitespace at its ends; what is only
      whitespace is no item. */
  lemma QuotedItem(a: string, quote: char, c: string, x: string, d: string, b: string)
    requires AllSpace(a) && AllSpace(b) && AllSpace(c) && AllSpace(d) && Trimmed(x) && quote in {'"', '\''}
    ensures ItemOf(a + ([quote] + (c + x + d) + [quote]) + b) == if x == "" then [] else [x]
  {
    var inner := c + x + d;
    var q := [quote] + inner + [quote];
    assert q[0] == quote && q[|q| - 1] == quote && q[1..|q| - 1] == inner;
    TrimExactly(a, q, b);
    TrimExactly(c, x, d);
  }

  // ----- Comments -----

  /** The position of the first `#` outside quotes, or the end. */
  function HashAt(v: string, i: nat, inSingle: bool, inDouble: bool): (h: nat)
    requires i <= |v|
    ensures i <= h <= |v|
    ensures h < |v| ==> v[h] == '#'
    decreases |v| - i
  {
    if i == |v| then |v|
    else if v[i] == '\\' && i + 1 < |v| then HashAt(v, i + 2, inSingle, inDouble)
    else if v[i] == '"' && !inSingle then HashAt(v, i + 1, inSingle, !inDouble)
    else if v[i] == '\'' && !inDouble then HashAt(v, i + 1, !inSingle, inDouble)
    else if v[i] == '#' && !inSingle && !inDouble then i
    else HashAt(v, i + 1, inSingle, inDouble)
  }

  /** `strings.TrimRight` of blanks and tabs. */
  function TrimRight(s: string): (r: string)
    ensures r <= s
  {
    if s != "" && s[|s| - 1] in {' ', '\t'} then TrimRight(s[..|s| - 1]) else s
  }

  function WithoutComment(v: string): string {
    var h := HashAt(v, 0, false, false);
    if h < |v| then TrimRight(v[..h]) else v
  }

  /** No `#` stands outside quotes. */
  predicate NoBareHash(v: string) {
    HashAt(v, 0, false, false) == |v|
  }

  /** `stripInlineComment`. */
  method StripInlineComment(v: string) returns (r: string)
    ensures r == WithoutComment(v)
  {
    var inSingle, inDouble := false, false;
    var i := 0;
    while i < |v|
      invariant i <= |v| && HashAt(v, i, inSingle, inDouble) == HashAt(v, 0, false, false)
    {
      var c := v[i];
      if c == '\\' && i + 1 < |v| {
        i := i + 2;
        continue;
      } else if c == '"' && !inSingle {
        inDouble := !inDouble;
      } else if c == '\'' && !inDouble {
        inSingle := !inSingle;
      } else if c == '#' && !inSingle && !inDouble {
        return TrimRight(v[..i]);
      }
      i := i + 1;
    }
    return v;
  }

  lemma {:induction false} HashInPrefix(v: string, n: nat, i: nat, inSingle: bool, inDouble: bool)
    requires i <= n <= |v| && n <= HashAt(v, i, inSingle, inDouble)
    ensures HashAt(v[..n], i, inSingle, inDouble) == n
    decreases n - i
  {
    var p := v[..n];
    if i < n {
      assert p[i] == v[i];
      if v[i] == '\\' && i + 1 < |v| {
        if i + 1 < n { HashInPrefix(v, n, i + 2, inSingle, inDouble); }
      } else if v[i] == '"' && !inSingle {
        HashInPrefix(v, n, i + 1, inSingle, !inDouble);
      } else if v[i] == '\'' && !inDouble {
        HashInPrefix(v, n, i + 1, !inSingle, inDouble);
      } else {
        HashInPrefix(v, n, i + 1, inSingle, inDouble);
      }
    }
  }

  /** What `stripInlineComment` returns has no comment, and a value without one is not changed. */
  lemma CommentGone(v: string)
    ensures NoBareHash(WithoutComment(v)) && (NoBareHash(v) <==> WithoutComment(v) == v)
  {
    var h := HashAt(v, 0, false, false);
    if h < |v| {
      var r := TrimRight(v[..h]);
      HashInPrefix(v, |r|, 0, false, false);
      assert r == v[..|r|];
    }
  }

  /** What can be written to a file and read back: on one line, and with every `#` in quotes. */
  predicate Storable(v: string) {
    '\n' !in FormatValue(v) && NoBareHash(FormatValue(v))
  }
}
