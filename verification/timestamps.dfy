/** The names of finalised checkpoints (`internal/checkpoint/checkpoint.go`): decimal time stamps
    whose string order has to be the order of creation, whatever the clock does.
 */
module Timestamps {
  import opened Common
  import opened Decimal

  // ----- String order -----

  /** The byte order of `sort.Strings`. */
  predicate Less(a: string, b: string) {
    b != "" && (a == "" || a[0] < b[0] || (a[0] == b[0] && Less(a[1..], b[1..])))
  }

  lemma {:induction false} LessTrans(a: string, b: string, c: string)
    requires Less(a, b) && Less(b, c)
    ensures Less(a, c)
  {
    if a != "" && a[0] == b[0] && b[0] == c[0] { LessTrans(a[1..], b[1..], c[1..]); }
  }

  lemma {:induction false} LessTotal(a: string, b: string)
    ensures a != b ==> Less(a, b) || Less(b, a)
    ensures !(Less(a, b) && Less(b, a)) && !Less(a, a)
  {
    if a != "" && b != "" {
      LessTotal(a[1..], b[1..]);
      LessTotal(a[1..], a[1..]);
      if a[0] == b[0] && a[1..] == b[1..] { assert a == [a[0]] + a[1..] && b == [b[0]] + b[1..]; }
    } else if a != "" { LessTotal(a[1..], a[1..]); }
  }

  lemma {:induction false} LessAfter(p: string, a: string, b: string)
    ensures Less(p + a, p + b) <==> Less(a, b)
  {
    if p == "" { assert p + a == a && p + b == b; }
    else {
      LessAfter(p[1..], a, b);
      assert (p + a)[1..] == p[1..] + a && (p + b)[1..] == p[1..] + b;
    }
  }

  predicate Ascending(names: seq<string>) {
    forall i, j :: 0 <= i < j < |names| ==> Less(names[i], names[j])
  }

  predicate Sorted(names: seq<string>) {
    forall i, j :: 0 <= i < j < |names| ==> !Less(names[j], names[i])
  }

  function Insert(x: string, names: seq<string>): (r: seq<string>)
    ensures multiset(r) == multiset([x]) + multiset(names)
  {
    if names == [] || !Less(names[0], x) then
      assert [x] + names == [x] + names;
      [x] + names
    else
      assert names == [names[0]] + names[1..];
      [names[0]] + Insert(x, names[1..])
  }

  /** `sort.Strings`. */
  function Sort(names: seq<string>): (r: seq<string>)
    ensures multiset(r) == multiset(names)
  {
    if names == [] then []
    else
      assert names == [names[0]] + names[1..];
      Insert(names[0], Sort(names[1..]))
  }

  lemma {:induction false} InsertSorted(x: string, names: seq<string>)
    requires Sorted(names)
    ensures Sorted(Insert(x, names))
  {
    var r := Insert(x, names);
    if names == [] {
    } else if !Less(names[0], x) {
      forall j | 0 < j < |r| ensures !Less(r[j], x) {
        if Less(r[j], x) {
          LessTotal(names[0], x);
          LessTotal(names[j - 1], names[0]);
          if names[0] == x { assert false; }
          LessTrans(names[j - 1], x, names[0]);
        }
      }
    } else {
      InsertSorted(x, names[1..]);
      var rest := Insert(x, names[1..]);
      forall j | 0 < j < |r| ensures !Less(r[j], r[0]) {
        assert rest[j - 1] in multiset(rest);
        if rest[j - 1] == x { LessTotal(names[0], x); }
        else { assert rest[j - 1] in multiset(names[1..]); assert rest[j - 1] in names[1..]; }
      }
    }
  }

  lemma {:induction false} SortSorts(names: seq<string>)
    ensures Sorted(Sort(names))
  {
    if names != [] {
      SortSorts(names[1..]);
      InsertSorted(names[0], Sort(names[1..]));
    }
  }

  /** Sorting names that ascend already changes nothing. */
  lemma {:induction false} SortAscending(names: seq<string>)
    requires Ascending(names)
    ensures Sort(names) == names
  {
    if names != [] {
      SortAscending(names[1..]);
      if |names| > 1 { LessTotal(names[0], names[1]); }
      assert names == [names[0]] + names[1..];
    }
  }

  // ----- Decimal names -----

  /** The leading digits. */
  function Whole(s: string): (w: string)
    ensures |w| <= |s| && s[..|w|] == w && AllDigits(w)
  {
    if s == "" || !IsDigit(s[0]) then "" else [s[0]] + Whole(s[1..])
  }

  /** What follows the point, if there is one. */
  function Fraction(s: string): string {
    var rest := s[|Whole(s)|..];
    if rest == "" then "" else rest[1..]
  }

  predicate IsDecimal(s: string) {
    var rest := s[|Whole(s)|..];
    Whole(s) != "" && (rest == "" || (rest[0] == '.' && AllDigits(rest[1..])))
  }

  function Trim(frac: string): (r: string)
    requires AllDigits(frac)
    ensures AllDigits(r)
  {
    if frac != "" && frac[|frac| - 1] == '0' then Trim(frac[..|frac| - 1]) else frac
  }

  /** `formatPyFloat`: no trailing zeros, but at least one digit after the point. */
  function FormatFloat(whole: nat, frac: string): string
    requires AllDigits(frac)
  {
    Itoa(whole) + "." + (if Trim(frac) == "" then "0" else Trim(frac))
  }

  function PadTo(s: string, n: nat): (r: string)
    ensures AllDigits(s) ==> AllDigits(r)
    ensures |r| >= n && |r| >= |s|
    ensures |s| <= n ==> |r| == n
    decreases n - |s|
  {
    if |s| >= n then s else PadTo("0" + s, n)
  }

  /** `formatPyTime`. */
  function FormatTime(unix: nat, micros: nat): string {
    Itoa(unix) + "." + PadTo(Itoa(micros), 6)
  }

  function PlusOne(s: string): string
    requires IsDecimal(s)
  {
    FormatFloat(Value(Whole(s)) + 1, Fraction(s))
  }

  lemma TwoValue(d: string)
    requires AllDigits(d) && |d| == 2
    ensures Value(d) == 10 * DigitValue(d[0]) + DigitValue(d[1]) < 100
  {
    var t := d[..1];
    assert t[..0] == "" && Value(t) == 10 * Value(t[..0]) + DigitValue(t[0]) && Value(t[..0]) == 0;
    assert Value(d) == 10 * Value(t) + DigitValue(d[1]);
  }

  function TwoDigits(n: nat): (r: string)
    requires n < 100
    ensures |r| == 2 && AllDigits(r) && Value(r) == n
  {
    var r := [DigitChar(n / 10), DigitChar(n % 10)];
    TwoValue(r);
    r
  }

  function AtLeastTwo(frac: string): (r: string)
    requires AllDigits(frac)
    ensures |r| >= 2 && AllDigits(r)
  {
    if frac == "" then "00" else if |frac| == 1 then frac + "0" else frac
  }

  function RaiseHundredth(whole: nat, f: string): string
    requires AllDigits(f) && |f| >= 2
  {
    var h := Value(f[..2]) + 1;
    if h >= 100 then FormatFloat(whole + 1, "00" + f[2..]) else FormatFloat(whole, TwoDigits(h) + f[2..])
  }

  function PlusHundredth(s: string): string
    requires IsDecimal(s)
  {
    RaiseHundredth(Value(Whole(s)), AtLeastTwo(Fraction(s)))
  }

  // ----- The additions, in numbers -----

  function FractionReal(frac: string): real
    requires AllDigits(frac)
  {
    if frac == "" then 0.0 else (DigitValue(frac[0]) as real + FractionReal(frac[1..])) / 10.0
  }

  function NameReal(s: string): real
    requires IsDecimal(s)
  {
    Value(Whole(s)) as real + FractionReal(Fraction(s))
  }

  lemma {:induction false} ZeroLast(frac: string)
    requires AllDigits(frac) && frac != "" && frac[|frac| - 1] == '0'
    ensures FractionReal(frac[..|frac| - 1]) == FractionReal(frac)
  {
    if |frac| == 1 { assert frac[1..] == "" && frac[..0] == ""; }
    else {
      ZeroLast(frac[1..]);
      assert frac[1..][..|frac| - 2] == frac[..|frac| - 1][1..];
    }
  }

  lemma {:induction false} TrimValue(frac: string)
    requires AllDigits(frac)
    ensures FractionReal(Trim(frac)) == FractionReal(frac)
    decreases |frac|
  {
    if frac != "" && frac[|frac| - 1] == '0' {
      ZeroLast(frac);
      TrimValue(frac[..|frac| - 1]);
    }
  }

  lemma {:induction false} WholeOf(w: string, rest: string)
    requires AllDigits(w) && (rest == "" || !IsDigit(rest[0]))
    ensures Whole(w + rest) == w
  {
    if w == "" { assert w + rest == rest; }
    else {
      WholeOf(w[1..], rest);
      assert w == [w[0]] + w[1..];
      assert w + rest == [w[0]] + (w[1..] + rest);
    }
  }

  /** A name with a point reads back as its two parts. */
  lemma PointName(w: string, frac: string)
    requires AllDigits(w) && w != "" && AllDigits(frac)
    ensures var s := w + "." + frac;
      IsDecimal(s) && Whole(s) == w && Fraction(s) == frac
  {
    var s := w + "." + frac;
    assert s == w + ("." + frac);
    WholeOf(w, "." + frac);
    assert s[|w|..] == "." + frac;
  }

  lemma FormatFloatValue(whole: nat, frac: string)
    requires AllDigits(frac)
    ensures var s := FormatFloat(whole, frac);
      IsDecimal(s) && Whole(s) == Itoa(whole) && NameReal(s) == whole as real + FractionReal(frac)
  {
    var shown := if Trim(frac) == "" then "0" else Trim(frac);
    ZeroReal();
    TrimValue(frac);
    hide Trim, FractionReal, Itoa, Value, Whole, Fraction, IsDecimal;
    PointName(Itoa(whole), shown);
    ValueOfItoa(whole);
  }

  lemma ZeroReal()
    ensures FractionReal("0") == 0.0 == FractionReal("")
  {
    assert "0"[1..] == "";
  }

  /** One in the last of `n` places. */
  function Place(n: nat): real {
    if n == 0 then 1.0 else Place(n - 1) / 10.0
  }

  lemma {:induction false} FractionLast(f: string, c: char)
    requires AllDigits(f) && IsDigit(c)
    ensures FractionReal(f + [c]) == FractionReal(f) + DigitValue(c) as real * Place(|f| + 1)
  {
    var all := f + [c];
    if f == "" {
      assert all[1..] == "" && all[0] == c;
      assert Place(1) == 0.1 by { assert Place(0) == 1.0; }
    } else {
      assert all[1..] == f[1..] + [c] && all[0] == f[0];
      FractionLast(f[1..], c);
      var p := Place(|f|);
      assert Place(|f| + 1) == p / 10.0;
      hide FractionReal, Place, DigitValue;
    }
  }

  /** Reading the digits behind the point as one number of units in the last place. */
  lemma {:induction false} FractionIsValue(f: string)
    requires AllDigits(f)
    ensures FractionReal(f) == Value(f) as real * Place(|f|)
    decreases |f|
  {
    hide *;
    if f == "" {
      NothingBehind();
    } else {
      var n := |f| - 1;
      FrontAndLast(f);
      LastDigit(f);
      FractionIsValue(f[..n]);
      FractionLast(f[..n], f[n]);
      NextPlace(n);
      ScaleUp(Value(f[..n]), DigitValue(f[n]), Place(n), Place(n + 1));
    }
  }

  lemma NothingBehind()
    ensures FractionReal("") == 0.0 && Value("") == 0
  {
  }

  lemma NextPlace(n: nat)
    ensures Place(n + 1) == Place(n) / 10.0
  {
  }

  lemma LastDigit(f: string)
    requires AllDigits(f) && f != ""
    ensures var n := |f| - 1;
      AllDigits(f[..n]) && IsDigit(f[n]) && Value(f) == 10 * Value(f[..n]) + DigitValue(f[n])
  {
  }

  lemma FrontAndLast(f: string)
    requires f != ""
    ensures f == f[..|f| - 1] + [f[|f| - 1]]
  {
  }

  lemma ScaleUp(v: nat, d: nat, p: real, q: real)
    requires q == p / 10.0
    ensures v as real * p + d as real * q == (10 * v + d) as real * q
  {
    assert v as real * p == (10 * v) as real * q;
  }

  lemma {:induction false} ZeroInFront(s: string)
    requires AllDigits(s)
    ensures Value("0" + s) == Value(s)
    decreases |s|
  {
    var z := "0" + s;
    if s == "" {
      assert z[..0] == "";
    } else {
      ZeroInFront(s[..|s| - 1]);
      assert z[..|z| - 1] == "0" + s[..|s| - 1];
    }
  }

  lemma {:induction false} PadValue(s: string, n: nat)
    requires AllDigits(s)
    ensures Value(PadTo(s, n)) == Value(s)
    decreases n - |s|
  {
    if |s| < n {
      ZeroInFront(s);
      PadValue("0" + s, n);
    }
  }

  lemma MicrosShort(n: nat)
    requires n < 1000000
    ensures |Itoa(n)| <= 6
  {
    var a, b, c, d, e := n / 10, n / 100, n / 1000, n / 10000, n / 100000;
    assert a / 10 == b && b / 10 == c && c / 10 == d && d / 10 == e && e < 10;
    assert |Itoa(e)| == 1;
    assert |Itoa(d)| <= 2;
    assert |Itoa(c)| <= 3;
    assert |Itoa(b)| <= 4;
    assert |Itoa(a)| <= 5;
  }

  /** The name of a moment is its number of seconds, with six places. */
  lemma FormatTimeValue(unix: nat, micros: nat)
    requires micros < 1000000
    ensures var s := FormatTime(unix, micros);
      IsDecimal(s) && |Fraction(s)| == 6 && NameReal(s) == unix as real + micros as real / 1000000.0
  {
    var frac := PadTo(Itoa(micros), 6);
    PointName(Itoa(unix), frac);
    MicrosShort(micros);
    PadValue(Itoa(micros), 6);
    ValueOfItoa(micros);
    ValueOfItoa(unix);
    FractionIsValue(frac);
    SixPlaces();
    hide FractionReal, Place, Value, Itoa, PadTo, Whole, Fraction, IsDecimal;
  }

  lemma SixPlaces()
    ensures Place(6) == 0.000001
  {
    assert Place(0) == 1.0 && Place(1) == 0.1 && Place(2) == 0.01 && Place(3) == 0.001 && Place(4) == 0.0001;
  }

  lemma PlusOneAdds(s: string)
    requires IsDecimal(s)
    ensures IsDecimal(PlusOne(s)) && NameReal(PlusOne(s)) == NameReal(s) + 1.0
  {
    FormatFloatValue(Value(Whole(s)) + 1, Fraction(s));
  }

  lemma TwoPlaces(f: string)
    requires AllDigits(f) && |f| >= 2
    ensures FractionReal(f) == (Value(f[..2]) as real + FractionReal(f[2..])) / 100.0
  {
    TwoValue(f[..2]);
    hide Value;
    assert f[1..][1..] == f[2..];
    assert FractionReal(f) == (DigitValue(f[0]) as real + FractionReal(f[1..])) / 10.0;
    assert FractionReal(f[1..]) == (DigitValue(f[1]) as real + FractionReal(f[2..])) / 10.0;
  }

  lemma AtLeastTwoValue(frac: string)
    requires AllDigits(frac)
    ensures FractionReal(AtLeastTwo(frac)) == FractionReal(frac)
  {
    var r := AtLeastTwo(frac);
    if |frac| < 2 {
      ZeroLast(r);
      if |frac| == 0 { assert r[..1] == "0"; ZeroLast("0"); assert "0"[..0] == frac; }
      else { assert r[..1] == frac; }
    }
  }

  lemma RaiseIs(w: nat, f: string)
    requires AllDigits(f) && |f| >= 2
    ensures AllDigits(f[..2]) && AllDigits(f[2..]) && AllDigits("00" + f[2..])
    ensures var h := Value(f[..2]) + 1;
      RaiseHundredth(w, f) ==
        if h >= 100 then FormatFloat(w + 1, "00" + f[2..]) else FormatFloat(w, TwoDigits(h) + f[2..])
  {
    hide Value, FormatFloat, TwoDigits;
  }

  lemma RaiseAdds(w: nat, f: string)
    requires AllDigits(f) && |f| >= 2
    ensures var r := RaiseHundredth(w, f);
      IsDecimal(r) && NameReal(r) == w as real + FractionReal(f) + 0.01
  {
    hide Value, FractionReal, FormatFloat, Whole, IsDecimal, NameReal, TwoDigits, Fraction, Itoa, DigitValue, RaiseHundredth;
    var h, tail := Value(f[..2]) + 1, f[2..];
    RaiseIs(w, f);
    TwoPlaces(f);
    TwoValue(f[..2]);
    if h >= 100 {
      ZeroZero();
      HeadReal(w + 1, "00", tail);
      Carried(FractionReal(tail));
    } else {
      HeadReal(w, TwoDigits(h), tail);
      Raised(h as real, FractionReal(tail));
    }
  }

  /** A name whose fraction starts with two given digits. */
  lemma HeadReal(w: nat, head: string, tail: string)
    requires AllDigits(head) && |head| == 2 && AllDigits(tail)
    ensures var r := FormatFloat(w, head + tail);
      IsDecimal(r) && NameReal(r) == w as real + (Value(head) as real + FractionReal(tail)) / 100.0
  {
    hide Value, FractionReal, FormatFloat, Whole, IsDecimal, NameReal;
    FormatFloatValue(w, head + tail);
    HeadValue(head, tail);
  }

  lemma ZeroZero()
    ensures AllDigits("00") && Value("00") == 0
  {
    TwoValue("00");
  }

  lemma Carried(t: real)
    ensures 1.0 + (0.0 + t) / 100.0 == (99.0 + t) / 100.0 + 0.01
  {
  }

  lemma Raised(h: real, t: real)
    ensures (h + t) / 100.0 == (h - 1.0 + t) / 100.0 + 0.01
  {
  }

  lemma PlusHundredthAdds(s: string)
    requires IsDecimal(s)
    ensures IsDecimal(PlusHundredth(s)) && NameReal(PlusHundredth(s)) == NameReal(s) + 0.01
  {
    assert AllDigits(Fraction(s));
    hide Value, FractionReal, Whole, IsDecimal, AtLeastTwo, Fraction, RaiseHundredth;
    AtLeastTwoValue(Fraction(s));
    RaiseAdds(Value(Whole(s)), AtLeastTwo(Fraction(s)));
  }

  lemma HeadValue(head: string, tail: string)
    requires AllDigits(head) && |head| == 2 && AllDigits(tail)
    ensures FractionReal(head + tail) == (Value(head) as real + FractionReal(tail)) / 100.0
  {
    var g := head + tail;
    assert g[..2] == head && g[2..] == tail;
    TwoPlaces(g);
  }

  // ----- Comparing numerals as strings -----

  predicate AllNines(d: string) {
    forall i :: 0 <= i < |d| ==> d[i] == '9'
  }

  lemma {:induction false} ItoaOfValue(d: string)
    requires AllDigits(d) && d != "" && d[0] != '0'
    ensures Itoa(Value(d)) == d && Value(d) > 0
  {
    var front, c := d[..|d| - 1], d[|d| - 1];
    assert d == front + [c];
    if front == "" {
      assert d == [c] && Value(d) == DigitValue(c);
    } else {
      ItoaOfValue(front);
      hide Value, Itoa, DigitValue, DigitChar;
      LastValue(d);
      ItoaLast(Value(front), c);
    }
  }

  lemma LastValue(d: string)
    requires AllDigits(d) && d != ""
    ensures Value(d) == 10 * Value(d[..|d| - 1]) + DigitValue(d[|d| - 1])
  {
  }

  lemma ItoaLast(n: nat, c: char)
    requires n > 0 && IsDigit(c)
    ensures Itoa(10 * n + DigitValue(c)) == Itoa(n) + [c]
  {
    var m := 10 * n + DigitValue(c);
    assert m / 10 == n && m % 10 == DigitValue(c);
  }

  lemma {:induction false} ItoaFirst(n: nat)
    requires n > 0
    ensures Itoa(n)[0] != '0'
  {
    if n >= 10 { ItoaFirst(n / 10); }
  }

  /** Adding one to a numeral keeps its length, unless it is all nines. */
  lemma {:induction false} NextNumeral(d: string)
    requires AllDigits(d) && d != "" && d[0] != '0'
    ensures var n := Itoa(Value(d) + 1);
      if AllNines(d) then n[0] == '1' && |n| == |d| + 1 else |n| == |d|
  {
    var front, last := d[..|d| - 1], DigitValue(d[|d| - 1]);
    assert Value(d) == 10 * Value(front) + last;
    if last < 9 {
      assert d[|d| - 1] != '9';
      if front == "" {
        assert Value(d) == last;
      } else {
        assert front[0] == d[0];
        ItoaOfValue(front);
        assert (Value(d) + 1) / 10 == Value(front) && (Value(d) + 1) % 10 == last + 1;
      }
    } else if front == "" {
      assert Value(d) + 1 == 10 && Itoa(1) == "1" && Itoa(10) == Itoa(1) + "0";
    } else {
      assert front[0] == d[0] && d[|d| - 1] == '9';
      NextNumeral(front);
      assert (Value(d) + 1) / 10 == Value(front) + 1 && (Value(d) + 1) % 10 == 0;
      assert Itoa(Value(d) + 1) == Itoa(Value(front) + 1) + "0";
      if AllNines(front) { assert AllNines(d); }
      else { var i :| 0 <= i < |front| && front[i] != '9'; assert d[i] != '9'; }
    }
  }

  /** For numerals of one length, string order is the order of the values, whatever follows. */
  lemma {:induction false} SameLengthOrder(a: string, b: string, x: string, y: string)
    requires AllDigits(a) && AllDigits(b) && |a| == |b| && Value(a) < Value(b)
    ensures Less(a + x, b + y)
    decreases |a|
  {
    var n := |a| - 1;
    var i, j := a[..n], b[..n];
    assert a == i + [a[n]] && b == j + [b[n]];
    assert a + x == i + ([a[n]] + x) && b + y == j + ([b[n]] + y);
    if Value(i) < Value(j) {
      SameLengthOrder(i, j, [a[n]] + x, [b[n]] + y);
    } else {
      assert Value(i) == Value(j) && DigitValue(a[n]) < DigitValue(b[n]);
      ValueInjective(i, j);
      LessAfter(i, [a[n]] + x, [b[n]] + y);
    }
  }

  lemma {:induction false} ValueInjective(a: string, b: string)
    requires AllDigits(a) && AllDigits(b) && |a| == |b| && Value(a) == Value(b)
    ensures a == b
    decreases |a|
  {
    if a != "" {
      var n := |a| - 1;
      ValueInjective(a[..n], b[..n]);
      assert a == a[..n] + [a[n]] && b == b[..n] + [b[n]];
    }
  }

  /** A numeral sorts below its successor, whatever follows either, exactly unless it is all nines. */
  lemma NextSortsAfter(d: string, x: string, y: string)
    requires AllDigits(d) && d != ""
    ensures var n := Itoa(Value(d) + 1); Less(d + x, n + y) <==> !AllNines(d)
  {
    var n := Itoa(Value(d) + 1);
    assert (d + x)[0] == d[0] && (n + y)[0] == n[0];
    ItoaFirst(Value(d) + 1);
    if d[0] != '0' {
      NextNumeral(d);
      ValueOfItoa(Value(d) + 1);
      if !AllNines(d) { SameLengthOrder(d, n, x, y); }
    }
  }

  // ----- The next name -----

  /** `ReadDir` entries that `nextTimestamp` and `List` look at. */
  predicate IsName(n: string) {
    n != "" && IsDigit(n[0])
  }

  function Eligible(entries: seq<string>): seq<string> {
    if entries == [] then []
    else (if IsName(entries[0]) then [entries[0]] else []) + Eligible(entries[1..])
  }

  predicate Decimals(names: seq<string>) {
    forall n <- names :: IsDecimal(n)
  }

  lemma StampIsDecimal(unix: nat, micros: nat)
    ensures var s := FormatTime(unix, micros);
      IsDecimal(s) && Whole(s) == Itoa(unix) && Fraction(s) == PadTo(Itoa(micros), 6)
  {
    PointName(Itoa(unix), PadTo(Itoa(micros), 6));
  }

  lemma {:induction false} EligibleAreNames(entries: seq<string>)
    ensures forall n <- Eligible(entries) :: IsName(n)
  {
    if entries != [] { EligibleAreNames(entries[1..]); }
  }

  lemma SortKeeps(names: seq<string>)
    ensures forall n :: n in Sort(names) <==> n in names
    ensures |Sort(names)| == |names|
  {
    forall n ensures n in Sort(names) <==> n in names {
      assert n in Sort(names) <==> n in multiset(Sort(names));
      assert n in names <==> n in multiset(names);
    }
    assert |Sort(names)| == |multiset(Sort(names))| == |multiset(names)| == |names|;
  }

  /** The clock's stamp and the checkpoint names, sorted. */
  function Others(stamp: string, entries: seq<string>): (others: seq<string>)
    requires IsDecimal(stamp) && Decimals(Eligible(entries))
    ensures others != [] && Decimals(others)
  {
    var all := [stamp] + Eligible(entries);
    SortKeeps(all);
    Sort(all)
  }

  function Last(s: seq<string>): string
    requires s != []
  {
    s[|s| - 1]
  }

  predicate TwiceLast(s: seq<string>)
    requires s != []
  {
    |s| >= 2 && s[|s| - 2] == s[|s| - 1]
  }

  /** `nextTimestamp`, for the stamp of the clock and the entries of the backups directory. */
  function NextName(stamp: string, entries: seq<string>): string
    requires IsDecimal(stamp) && Decimals(Eligible(entries))
  {
    var others := Others(stamp, entries);
    if Last(others) != stamp then PlusOne(Last(others))
    else if TwiceLast(others) then PlusHundredth(Last(others))
    else stamp
  }

  /** The addition runs into a new digit. */
  predicate Overflows(stamp: string, entries: seq<string>)
    requires IsDecimal(stamp) && Decimals(Eligible(entries))
  {
    var last := Last(Others(stamp, entries));
    if last != stamp then AllNines(Whole(last))
    else stamp in Eligible(entries) && AllNines(Whole(stamp)) && AtLeastTwo(Fraction(stamp))[..2] == "99"
  }

  lemma EligibleAt(entries: seq<string>, i: nat)
    requires i < |entries|
    ensures Eligible(entries[i..]) == (if IsName(entries[i]) then [entries[i]] else []) + Eligible(entries[i + 1..])
  {
    assert entries[i..][1..] == entries[i + 1..];
  }

  lemma EligibleEnd(entries: seq<string>)
    ensures Eligible(entries[|entries|..]) == []
  {
  }

  /** The scan and the choice as the source makes them. */
  method NextTimestamp(unix: nat, micros: nat, entries: seq<string>) returns (stamp: string)
    requires Decimals(Eligible(entries))
    ensures IsDecimal(FormatTime(unix, micros)) && stamp == NextName(FormatTime(unix, micros), entries)
  {
    stamp := FormatTime(unix, micros);
    StampIsDecimal(unix, micros);
    var others := [stamp];
    hide FormatTime, PlusOne, PlusHundredth, IsDecimal, Eligible, IsName, Sort, Less;
    assert entries[0..] == entries;
    for i := 0 to |entries|
      invariant others + Eligible(entries[i..]) == [stamp] + Eligible(entries)
    {
      EligibleAt(entries, i);
      if IsName(entries[i]) { others := others + [entries[i]]; }
    }
    EligibleEnd(entries);
    assert others + [] == others;
    others := Sort(others);
    assert others == Others(stamp, entries);
    var last := others[|others| - 1];
    if last != stamp { stamp := PlusOne(last); }
    else if |others| >= 2 && others[|others| - 2] == stamp { stamp := PlusHundredth(last); }
  }

  lemma SameElements(front: seq<string>, x: string, names: seq<string>)
    requires multiset(front + [x]) == multiset([x] + names)
    ensures x in front <==> x in names
  {
    assert multiset(front + [x])[x] == multiset(front)[x] + 1;
    assert multiset([x] + names)[x] == 1 + multiset(names)[x];
    assert x in front <==> x in multiset(front);
    assert x in names <==> x in multiset(names);
  }

  /** A largest element that occurs twice is also the second largest. */
  lemma LargestTwice(front: seq<string>, x: string)
    requires Sorted(front + [x])
    ensures x in front <==> TwiceLast(front + [x])
  {
    var all, n := front + [x], |front| - 1;
    if x in front {
      var i :| 0 <= i < |front| && front[i] == x;
      assert all[n] == front[n] && all[n + 1] == x && all[i] == x;
      LessTotal(front[n], x);
      assert !Less(x, front[n]);
      if i < n { assert !Less(all[n], all[i]); }
    }
    if n >= 0 { assert all[n] == front[n] && front[n] in front; }
  }

  /** The two largest are both the stamp exactly when an entry has its name. */
  lemma OthersSorted(stamp: string, entries: seq<string>)
    requires IsDecimal(stamp) && Decimals(Eligible(entries))
    ensures var others := Others(stamp, entries);
      others != [] && Sorted(others) && multiset(others) == multiset([stamp] + Eligible(entries))
  {
    SortSorts([stamp] + Eligible(entries));
    hide Sort, Sorted, Eligible;
  }

  lemma LastIs(names: seq<string>)
    requires names != []
    ensures Last(names) == names[|names| - 1]
  {
  }

  lemma Duplicate(stamp: string, entries: seq<string>)
    requires IsDecimal(stamp) && Decimals(Eligible(entries)) && Last(Others(stamp, entries)) == stamp
    ensures TwiceLast(Others(stamp, entries)) <==> stamp in Eligible(entries)
  {
    hide *;
    var others := Others(stamp, entries);
    var front := others[..|others| - 1];
    OthersSorted(stamp, entries);
    LastIs(others);
    assert others == front + [stamp];
    SameElements(front, stamp, Eligible(entries));
    LargestTwice(front, stamp);
  }

  /** Strings that differ first at `k`. */
  lemma {:induction false} FirstDifference(a: string, b: string, k: nat)
    requires k < |a| && k < |b| && a[..k] == b[..k] && a[k] < b[k]
    ensures Less(a, b)
    decreases k
  {
    if k > 0 {
      assert a[..k][0] == a[0] && b[..k][0] == b[0];
      assert a[1..][..k - 1] == a[..k][1..] && b[1..][..k - 1] == b[..k][1..];
      FirstDifference(a[1..], b[1..], k - 1);
    }
  }

  lemma {:induction false} TrimKeeps(g: string, k: nat)
    requires AllDigits(g) && k < |g| && g[k] != '0'
    ensures k < |Trim(g)| && Trim(g) <= g
    decreases |g|
  {
    if g[|g| - 1] == '0' { TrimKeeps(g[..|g| - 1], k); }
  }

  lemma TwoDigitsRaised(e: string, h: string)
    requires AllDigits(e) && AllDigits(h) && |e| == |h| == 2 && Value(h) == Value(e) + 1
    ensures e[0] < h[0] || (e[0] == h[0] && e[1] < h[1])
  {
    TwoValue(e);
    TwoValue(h);
    hide Value;
  }

  lemma RaisedHead(e: string, h: string, tail: string)
    requires AllDigits(e) && AllDigits(h) && AllDigits(tail) && |e| == |h| == 2
    requires e[0] < h[0] || (e[0] == h[0] && e[1] < h[1])
    ensures Trim(h + tail) != "" && Less(e + tail, Trim(h + tail))
  {
    hide Trim, Less;
    var f, g := e + tail, h + tail;
    if e[0] == h[0] {
      assert g[..1] == [h[0]] && f[..1] == [e[0]];
      RaisedAt(f, g, 1);
    } else {
      assert g[..0] == f[..0];
      RaisedAt(f, g, 0);
    }
  }

  /** Raising the first two places by one raises the string, trimmed or not. */
  lemma HundredthRaises(f: string)
    requires AllDigits(f) && |f| >= 2 && Value(f[..2]) + 1 < 100
    ensures var g := TwoDigits(Value(f[..2]) + 1) + f[2..]; Trim(g) != "" && Less(f, Trim(g))
  {
    hide Value, TwoDigits, Trim, Less;
    TwoDigitsRaised(f[..2], TwoDigits(Value(f[..2]) + 1));
    RaisedHead(f[..2], TwoDigits(Value(f[..2]) + 1), f[2..]);
    assert f[..2] + f[2..] == f;
  }

  lemma RaisedAt(f: string, g: string, k: nat)
    requires AllDigits(f) && AllDigits(g) && k < |f| && k < |g| && f[..k] == g[..k] && f[k] < g[k]
    ensures Trim(g) != "" && Less(f, Trim(g))
  {
    TrimKeeps(g, k);
    hide Trim, Less;
    var t := Trim(g);
    assert t[k] == g[k] && t[..k] == g[..k];
    FirstDifference(f, t, k);
  }

  lemma NinetyNine(f: string)
    requires AllDigits(f) && |f| >= 2
    ensures Value(f[..2]) + 1 >= 100 <==> f[..2] == "99"
  {
    var head := f[..2];
    TwoValue(head);
    if DigitValue(head[0]) == 9 && DigitValue(head[1]) == 9 { assert head == [head[0], head[1]]; }
  }

  lemma FormatShown(whole: nat, frac: string)
    requires AllDigits(frac)
    ensures FormatFloat(whole, frac) == Itoa(whole) + ("." + (if Trim(frac) == "" then "0" else Trim(frac)))
  {
    hide Itoa, Trim;
    Assoc(Itoa(whole), ".", if Trim(frac) == "" then "0" else Trim(frac));
  }

  /** With the whole part in canonical form, adding a hundredth raises the string unless it overflows. */
  lemma HundredthSorts(whole: nat, f: string)
    requires AllDigits(f) && |f| >= 2
    ensures Less(Itoa(whole) + "." + f, RaiseHundredth(whole, f)) <==> !(AllNines(Itoa(whole)) && f[..2] == "99")
  {
    var w := Itoa(whole);
    NinetyNine(f);
    ValueOfItoa(whole);
    hide Value, Less, AllNines, TwoDigits, Trim, Itoa, FormatFloat;
    Assoc(w, ".", f);
    if f[..2] == "99" {
      var g := "00" + f[2..];
      FormatShown(whole + 1, g);
      NextSortsAfter(w, "." + f, "." + (if Trim(g) == "" then "0" else Trim(g)));
    } else {
      HundredthRaises(f);
      var g := TwoDigits(Value(f[..2]) + 1) + f[2..];
      FormatShown(whole, g);
      Assoc(w, ".", Trim(g));
      LessAfter(w + ".", f, Trim(g));
    }
  }

  /** The chosen name sorts after every checkpoint, exactly when no addition overflows. */
  lemma NextIsGreatest(unix: nat, micros: nat, entries: seq<string>)
    requires Decimals(Eligible(entries))
    ensures var stamp := FormatTime(unix, micros);
      IsDecimal(stamp) &&
      ((forall n <- Eligible(entries) :: Less(n, NextName(stamp, entries))) <==> !Overflows(stamp, entries))
  {
    var stamp := FormatTime(unix, micros);
    StampIsDecimal(unix, micros);
    var names := Eligible(entries);
    OthersBound(stamp, entries);
    var last := Last(Others(stamp, entries));
    var next := NextName(stamp, entries);
    hide Others, Last, Less, Eligible, IsDecimal, PlusOne, PlusHundredth, FormatTime, Whole, Fraction, AllNines, TwiceLast, AtLeastTwo;
    if last != stamp {
      SuccessorSorts(last);
      UpperBound(names, last, next);
    } else {
      Duplicate(stamp, entries);
      if stamp in names {
        StampSorts(unix, micros);
        UpperBound(names, last, next);
      } else {
        forall n <- names ensures Less(n, stamp) { LessTotal(n, stamp); }
      }
    }
  }

  lemma OthersBound(stamp: string, entries: seq<string>)
    requires IsDecimal(stamp) && Decimals(Eligible(entries))
    ensures var last := Last(Others(stamp, entries));
      (last == stamp || last in Eligible(entries)) && forall n <- Eligible(entries) :: !Less(last, n)
  {
    var all := [stamp] + Eligible(entries);
    SortKeeps(all);
    SortSorts(all);
    hide Sort, Less, IsDecimal, Eligible, Sorted;
    LastIsLargest(Others(stamp, entries), all);
    assert forall n <- Eligible(entries) :: n in all;
  }

  lemma LastIsLargest(others: seq<string>, all: seq<string>)
    requires Sorted(others) && others != [] && forall n :: n in others <==> n in all
    ensures Last(others) in all && forall n <- all :: !Less(Last(others), n)
  {
    assert Last(others) in others;
    forall n <- all ensures !Less(Last(others), n) {
      var i :| 0 <= i < |others| && others[i] == n;
      LessTotal(n, n);
    }
  }

  lemma StampSorts(unix: nat, micros: nat)
    ensures var stamp := FormatTime(unix, micros);
      IsDecimal(stamp) && (Less(stamp, PlusHundredth(stamp)) <==>
        !(AllNines(Whole(stamp)) && AtLeastTwo(Fraction(stamp))[..2] == "99"))
  {
    StampIsDecimal(unix, micros);
    ValueOfItoa(unix);
    hide IsDecimal, Whole, Fraction, Value, Itoa, PadTo, Less, AllNines, RaiseHundredth;
    HundredthSorts(unix, PadTo(Itoa(micros), 6));
  }

  lemma SuccessorSorts(s: string)
    requires IsDecimal(s)
    ensures Less(s, PlusOne(s)) <==> !AllNines(Whole(s))
  {
    var w, f := Whole(s), Fraction(s);
    var rest := s[|w|..];
    assert s == w + rest && AllDigits(f);
    hide Value, Less, Trim, Itoa, FormatFloat, AllNines, Fraction, Whole;
    FormatShown(Value(w) + 1, f);
    NextSortsAfter(w, rest, "." + (if Trim(f) == "" then "0" else Trim(f)));
  }

  /** A name is above all the others when it is above the largest. */
  lemma UpperBound(names: seq<string>, last: string, next: string)
    requires last in names && forall n <- names :: !Less(last, n)
    ensures (forall n <- names :: Less(n, next)) <==> Less(last, next)
  {
    if Less(last, next) {
      forall n <- names ensures Less(n, next) {
        LessTotal(n, last);
        if n != last { LessTrans(n, last, next); }
      }
    }
  }

  // ----- Many checkpoints -----

  /** The names after checkpoints were finalised at these times, by whatever the clock said. */
  ghost function NamesAfter(names: seq<string>, clock: seq<(nat, nat)>): seq<string>
    requires Decimals(Eligible(names))
    decreases |clock|
  {
    if clock == [] then names
    else
      StampIsDecimal(clock[0].0, clock[0].1);
      var next := NextName(FormatTime(clock[0].0, clock[0].1), names);
      NextIsDecimal(clock[0].0, clock[0].1, names);
      NamesAfter(names + [next], clock[1..])
  }

  ghost predicate NeverOverflows(names: seq<string>, clock: seq<(nat, nat)>)
    requires Decimals(Eligible(names))
    decreases |clock|
  {
    clock == [] ||
    (StampIsDecimal(clock[0].0, clock[0].1);
     var stamp := FormatTime(clock[0].0, clock[0].1);
     NextIsDecimal(clock[0].0, clock[0].1, names);
     !Overflows(stamp, names) && NeverOverflows(names + [NextName(stamp, names)], clock[1..]))
  }

  lemma {:induction false} EligibleAppend(a: seq<string>, b: seq<string>)
    ensures Eligible(a + b) == Eligible(a) + Eligible(b)
  {
    if a == [] { assert a + b == b; }
    else {
      EligibleAppend(a[1..], b);
      assert (a + b)[1..] == a[1..] + b;
      var first := if IsName(a[0]) then [a[0]] else [];
      assert (a + b)[0] == a[0];
      hide IsName;
      Assoc(first, Eligible(a[1..]), Eligible(b));
    }
  }

  lemma NextIsDecimal(unix: nat, micros: nat, entries: seq<string>)
    requires Decimals(Eligible(entries))
    ensures var stamp := FormatTime(unix, micros);
      IsDecimal(stamp) && IsDecimal(NextName(stamp, entries)) &&
      Decimals(Eligible(entries + [NextName(stamp, entries)]))
  {
    var stamp := FormatTime(unix, micros);
    StampIsDecimal(unix, micros);
    hide FormatTime, IsDecimal, PlusOne, PlusHundredth, Others, Whole, Fraction;
    var last := Last(Others(stamp, entries));
    PlusOneAdds(last);
    PlusHundredthAdds(last);
    EligibleAppend(entries, [NextName(stamp, entries)]);
    assert Eligible([NextName(stamp, entries)]) <= [NextName(stamp, entries)];
  }

  lemma {:induction false} AllEligible(names: seq<string>)
    requires Decimals(names)
    ensures Eligible(names) == names
  {
    if names != [] {
      assert IsDecimal(names[0]);
      assert IsName(names[0]);
      assert forall n <- names[1..] :: n in names;
      AllEligible(names[1..]);
      assert names == [names[0]] + names[1..];
    }
  }

  /** Every finalised checkpoint adds one name behind the others. */
  lemma {:induction false} NamesGrow(names: seq<string>, clock: seq<(nat, nat)>)
    requires Decimals(Eligible(names))
    ensures var after := NamesAfter(names, clock); names <= after && |after| == |names| + |clock|
    decreases |clock|
  {
    if clock != [] {
      StampIsDecimal(clock[0].0, clock[0].1);
      NextIsDecimal(clock[0].0, clock[0].1, names);
      NamesGrow(names + [NextName(FormatTime(clock[0].0, clock[0].1), names)], clock[1..]);
    }
  }

  lemma AscendingAppend(names: seq<string>, next: string)
    requires Ascending(names)
    ensures Ascending(names + [next]) <==> forall n <- names :: Less(n, next)
  {
    var all := names + [next];
    hide Less;
    if Ascending(all) {
      forall n <- names ensures Less(n, next) {
        var i :| 0 <= i < |names| && names[i] == n;
        assert Less(all[i], all[|names|]);
      }
    } else {
      var i, j :| 0 <= i < j < |all| && !Less(all[i], all[j]);
      assert j == |names| && names[i] in names;
    }
  }

  /** The name that the next checkpoint gets. */
  ghost function NextAt(names: seq<string>, clock: seq<(nat, nat)>): string
    requires clock != [] && Decimals(Eligible(names))
  {
    StampIsDecimal(clock[0].0, clock[0].1);
    NextName(FormatTime(clock[0].0, clock[0].1), names)
  }

  /** One more checkpoint. */
  lemma OneMore(names: seq<string>, clock: seq<(nat, nat)>)
    requires clock != [] && Decimals(names) && Decimals(Eligible(names))
    ensures var next := NextAt(names, clock);
      Decimals(names + [next]) && Decimals(Eligible(names + [next])) &&
      NamesAfter(names, clock) == NamesAfter(names + [next], clock[1..]) && names + [next] <= NamesAfter(names, clock) &&
      (NeverOverflows(names, clock) <==>
        (forall n <- names :: Less(n, next)) && NeverOverflows(names + [next], clock[1..]))
  {
    var unix, micros := clock[0].0, clock[0].1;
    hide Less, FormatTime, NextName, Sort, Eligible, Overflows, IsDecimal, Ascending;
    AllEligible(names);
    StampIsDecimal(unix, micros);
    NextIsGreatest(unix, micros, names);
    NextIsDecimal(unix, micros, names);
    NamesGrow(names + [NextAt(names, clock)], clock[1..]);
  }

  /** However the clock behaves, the names ascend in the order in which they were created, so that
      `List` returns the checkpoints in that order, exactly when no addition overflows. */
  lemma {:induction false} ListIsCreationOrder(names: seq<string>, clock: seq<(nat, nat)>)
    requires Decimals(names) && Ascending(names) && Decimals(Eligible(names))
    ensures var after := NamesAfter(names, clock);
      (Ascending(after) <==> NeverOverflows(names, clock)) && (Ascending(after) ==> Sort(after) == after)
    decreases |clock|
  {
    hide *;
    if clock == [] {
      NoneLeft(names);
      SortAscending(names);
    } else {
      var next := NextAt(names, clock);
      OneMore(names, clock);
      AscendingAppend(names, next);
      if Ascending(names + [next]) {
        ListIsCreationOrder(names + [next], clock[1..]);
      } else if Ascending(NamesAfter(names, clock)) {
        PrefixAscending(names + [next], NamesAfter(names, clock));
      }
    }
  }

  lemma NoneLeft(names: seq<string>)
    requires Decimals(Eligible(names))
    ensures NamesAfter(names, []) == names && NeverOverflows(names, [])
  {
  }

  lemma PrefixAscending(a: seq<string>, b: seq<string>)
    requires a <= b && Ascending(b)
    ensures Ascending(a)
  {
  }

  lemma OneEntry(stamp: string, n: string)
    requires IsDecimal(stamp) && IsDecimal(n) && Less(stamp, n)
    ensures Eligible([n]) == [n] && NextName(stamp, [n]) == PlusOne(n)
  {
    hide Sort, Less, PlusOne, PlusHundredth, IsDecimal, Eligible, Whole, Fraction;
    AllEligible([n]);
    SortPair(stamp, n);
    LessTotal(stamp, n);
    assert [stamp] + [n] == [stamp, n];
    assert Others(stamp, [n]) == [stamp, n];
  }

  /** The digit overflow is real: the name chosen then sorts before the checkpoint it follows. */
  lemma RolloverBreaksOrder()
    ensures IsDecimal("10.000000") && IsDecimal("9.5") && Eligible(["9.5"]) == ["9.5"]
    ensures NextName("10.000000", ["9.5"]) == "10.5" && Less("10.5", "9.5")
  {
    PointName("10", "000000");
    assert "10" + "." + "000000" == "10.000000";
    assert Less("10.5", "9.5") && Less("10.000000", "9.5");
    hide Less, PlusOne, IsDecimal, Eligible, NextName, Whole, Fraction;
    ShownSuccessor();
    OneEntry("10.000000", "9.5");
  }

  lemma SortPair(a: string, b: string)
    requires Less(a, b)
    ensures Sort([a, b]) == [a, b]
  {
    assert Ascending([a, b]);
    SortAscending([a, b]);
  }

  lemma ShownSuccessor()
    ensures IsDecimal("9.5") && PlusOne("9.5") == "10.5"
  {
    PointName("9", "5");
    assert "9" + "." + "5" == "9.5";
    assert "9"[..0] == "" && Value("9") == 10 * Value("9"[..0]) + 9 == 9;
    assert Itoa(1) == "1" && Itoa(10) == Itoa(1) + "0" == "10";
    assert Trim("5") == "5";
    assert "10" + "." + "5" == "10.5";
  }
}
