/** Unix paths as `path/filepath` cleans and joins them, component by component. */
module Paths {

  /** The components between the slashes. */
  function Components(s: string): (parts: seq<string>)
    ensures parts != [] && forall p <- parts :: '/' !in p
  {
    if s == "" then [""]
    else
      var rest := Components(s[1..]);
      if s[0] == '/' then [""] + rest else [[s[0]] + rest[0]] + rest[1..]
  }

  predicate Rooted(s: string) {
    s != "" && s[0] == '/'
  }

  /** One component: blank ones and `.` are dropped; `..` takes back the component before it, is
      dropped at the root, and is kept at the start of a relative path. */
  function Push(stack: seq<string>, rooted: bool, c: string): seq<string> {
    if c == "" || c == "." then stack
    else if c != ".." then stack + [c]
    else if stack != [] && stack[|stack| - 1] != ".." then stack[..|stack| - 1]
    else if rooted then stack
    else stack + [c]
  }

  function PushAll(stack: seq<string>, rooted: bool, parts: seq<string>): seq<string>
    decreases |parts|
  {
    if parts == [] then stack else PushAll(Push(stack, rooted, parts[0]), rooted, parts[1..])
  }

  /** What is left of the components of a path. */
  function Stack(s: string): seq<string> {
    PushAll([], Rooted(s), Components(s))
  }

  function Slashed(parts: seq<string>): string
    decreases |parts|
  {
    if parts == [] then "" else if |parts| == 1 then parts[0] else parts[0] + "/" + Slashed(parts[1..])
  }

  function Spell(rooted: bool, parts: seq<string>): string {
    if rooted then "/" + Slashed(parts) else if parts == [] then "." else Slashed(parts)
  }

  /** `filepath.Clean`. */
  function Clean(s: string): string {
    Spell(Rooted(s), Stack(s))
  }

  /** `filepath.Join` of a directory and a file in it. */
  function Join(dir: string, name: string): string
    requires dir != ""
  {
    Clean(dir + "/" + name)
  }

  // ----- Two directories with one file -----

  /** A component that stays as it is. */
  predicate IsName(c: string) {
    c != "" && c != "." && c != ".." && '/' !in c
  }

  /** A component that may be left over. */
  predicate Left(c: string) {
    c != "" && c != "." && '/' !in c
  }

  lemma {:induction false} ComponentsCut(a: string, b: string)
    requires '/' !in a
    ensures Components(a + "/" + b) == [a] + Components(b)
  {
    var s := a + "/" + b;
    if a == "" {
      assert s[0] == '/' && s[1..] == b;
    } else {
      ComponentsCut(a[1..], b);
      assert s[0] == a[0] && s[1..] == a[1..] + "/" + b;
      assert [a[0]] + a[1..] == a;
    }
  }

  lemma {:induction false} ComponentsName(d: string, name: string)
    requires '/' !in name
    ensures Components(d + "/" + name) == Components(d) + [name]
  {
    var s := d + "/" + name;
    if d == "" {
      NameAlone(name);
      assert s[0] == '/' && s[1..] == name;
    } else {
      ComponentsName(d[1..], name);
      assert s[0] == d[0] && s[1..] == d[1..] + "/" + name;
    }
  }

  lemma {:induction false} NameAlone(name: string)
    requires '/' !in name
    ensures Components(name) == [name]
  {
    if name != "" {
      NameAlone(name[1..]);
      assert [name[0]] + name[1..] == name;
    }
  }

  lemma {:induction false} ComponentsSlashed(parts: seq<string>)
    requires parts != [] && forall p <- parts :: '/' !in p
    ensures Components(Slashed(parts)) == parts
    decreases |parts|
  {
    if |parts| == 1 {
      NameAlone(parts[0]);
    } else {
      assert forall p <- parts[1..] :: p in parts;
      ComponentsSlashed(parts[1..]);
      ComponentsCut(parts[0], Slashed(parts[1..]));
    }
  }

  lemma {:induction false} PushAllLeft(stack: seq<string>, rooted: bool, parts: seq<string>)
    requires (forall c <- stack :: Left(c)) && forall p <- parts :: '/' !in p
    ensures forall c <- PushAll(stack, rooted, parts) :: Left(c)
    decreases |parts|
  {
    if parts != [] {
      assert forall p <- parts[1..] :: p in parts;
      assert parts[0] in parts;
      assert forall c <- Push(stack, rooted, parts[0]) :: Left(c);
      PushAllLeft(Push(stack, rooted, parts[0]), rooted, parts[1..]);
    }
  }

  lemma {:induction false} PushName(stack: seq<string>, rooted: bool, parts: seq<string>, name: string)
    requires IsName(name)
    ensures PushAll(stack, rooted, parts + [name]) == PushAll(stack, rooted, parts) + [name]
    decreases |parts|
  {
    if parts == [] {
      assert [] + [name] == [name] && [name][1..] == [];
    } else {
      assert (parts + [name])[1..] == parts[1..] + [name];
      PushName(Push(stack, rooted, parts[0]), rooted, parts[1..], name);
    }
  }

  /** Different components are spelled differently. */
  lemma SpellInjective(r1: bool, a: seq<string>, r2: bool, b: seq<string>)
    requires (forall c <- a :: Left(c)) && (forall c <- b :: Left(c))
    ensures Spell(r1, a) == Spell(r2, b) <==> r1 == r2 && a == b
  {
    SpelledParts(r1, a);
    SpelledParts(r2, b);
    assert (a != [] ==> Left(a[0])) && (b != [] ==> Left(b[0]));
    hide Spell, Components;
    if Spell(r1, a) == Spell(r2, b) {
      assert r1 <==> Parts(r1, a)[0] == "";
      assert r2 <==> Parts(r2, b)[0] == "";
      assert r1 ==> Parts(r1, a)[1..] == (if a == [] then [""] else a);
      assert r2 ==> Parts(r2, b)[1..] == (if b == [] then [""] else b);
    }
  }

  /** The components of a spelled path. */
  function Parts(rooted: bool, a: seq<string>): seq<string> {
    if rooted then [""] + (if a == [] then [""] else a) else if a == [] then ["."] else a
  }

  lemma SpelledParts(rooted: bool, a: seq<string>)
    requires forall c <- a :: Left(c)
    ensures Components(Spell(rooted, a)) == Parts(rooted, a)
  {
    NameAlone("");
    NameAlone(".");
    if a != [] { ComponentsSlashed(a); }
    if rooted {
      ComponentsCut("", Slashed(a));
      assert "" + "/" + Slashed(a) == "/" + Slashed(a);
    }
  }

  /** A file has one path in two directories exactly when these clean to one path. */
  lemma SameFile(d: string, e: string, name: string)
    requires d != "" && e != "" && IsName(name)
    ensures Join(d, name) == Join(e, name) <==> Clean(d) == Clean(e)
  {
    JoinSpells(d, name);
    JoinSpells(e, name);
    PushAllLeft([], Rooted(d), Components(d));
    PushAllLeft([], Rooted(e), Components(e));
    hide Join, Spell, PushAll, Components, Rooted;
    SpellInjective(Rooted(d), Stack(d), Rooted(e), Stack(e));
    SpellInjective(Rooted(d), Stack(d) + [name], Rooted(e), Stack(e) + [name]);
    SameFront(Stack(d), Stack(e), name);
  }

  lemma SameFront(a: seq<string>, b: seq<string>, name: string)
    ensures a + [name] == b + [name] <==> a == b
  {
    if a + [name] == b + [name] {
      assert a == (a + [name])[..|a|] && b == (b + [name])[..|b|];
    }
  }

  lemma JoinSpells(d: string, name: string)
    requires d != "" && IsName(name)
    ensures Join(d, name) == Spell(Rooted(d), Stack(d) + [name])
  {
    ComponentsName(d, name);
    PushName([], Rooted(d), Components(d), name);
    assert (d + "/" + name)[0] == d[0];
  }

  // ----- Where a path leads -----

  /** From a directory, given by the names on the way from the root, one component on. */
  function Follow(at: seq<string>, c: string): seq<string> {
    if c == "" || c == "." then at
    else if c == ".." then if at == [] then [] else at[..|at| - 1]
    else at + [c]
  }

  function Walk(at: seq<string>, parts: seq<string>): seq<string>
    decreases |parts|
  {
    if parts == [] then at else Walk(Follow(at, parts[0]), parts[1..])
  }

  /** The directory that a path leads to from the working directory, without links. */
  function Place(cwd: seq<string>, s: string): seq<string> {
    Walk(if Rooted(s) then [] else cwd, Components(s))
  }

  lemma {:induction false} WalkLast(at: seq<string>, parts: seq<string>, c: string)
    ensures Walk(at, parts + [c]) == Follow(Walk(at, parts), c)
    decreases |parts|
  {
    if parts == [] {
      assert [] + [c] == [c] && [c][1..] == [];
    } else {
      assert (parts + [c])[1..] == parts[1..] + [c];
      WalkLast(Follow(at, parts[0]), parts[1..], c);
    }
  }

  /** What may be left of a path: names, behind steps up at the start of a relative one. */
  predicate Normal(stack: seq<string>, rooted: bool) {
    (forall c <- stack :: Left(c)) &&
    forall i :: 0 <= i < |stack| && stack[i] == ".." ==> !rooted && forall j :: 0 <= j < i ==> stack[j] == ".."
  }

  lemma PushWalks(at: seq<string>, stack: seq<string>, rooted: bool, c: string)
    requires Normal(stack, rooted) && (rooted ==> at == []) && '/' !in c
    ensures Normal(Push(stack, rooted, c), rooted) && Walk(at, Push(stack, rooted, c)) == Follow(Walk(at, stack), c)
  {
    hide Walk;
    if c == "" || c == "." {
    } else if c != ".." {
      WalkLast(at, stack, c);
    } else if stack != [] && stack[|stack| - 1] != ".." {
      var n := |stack| - 1;
      assert stack == stack[..n] + [stack[n]] && Left(stack[n]);
      WalkLast(at, stack[..n], stack[n]);
    } else if rooted {
      assert stack == [];
      NoStep(at);
    } else {
      WalkLast(at, stack, c);
    }
  }

  lemma NoStep(at: seq<string>)
    ensures Walk(at, []) == at
  {
  }

  lemma {:induction false} PushAllWalks(at: seq<string>, stack: seq<string>, rooted: bool, parts: seq<string>)
    requires Normal(stack, rooted) && (rooted ==> at == []) && forall p <- parts :: '/' !in p
    ensures Normal(PushAll(stack, rooted, parts), rooted)
    ensures Walk(at, PushAll(stack, rooted, parts)) == Walk(Walk(at, stack), parts)
    decreases |parts|
  {
    if parts != [] {
      assert parts[0] in parts && forall p <- parts[1..] :: p in parts;
      PushWalks(at, stack, rooted, parts[0]);
      hide Push, Normal;
      PushAllWalks(at, Push(stack, rooted, parts[0]), rooted, parts[1..]);
    }
  }

  lemma SpelledWalks(at: seq<string>, rooted: bool, a: seq<string>)
    ensures Walk(at, Parts(rooted, a)) == Walk(at, a)
  {
    var behind := if a == [] then [""] else a;
    assert ([""] + behind)[1..] == behind && [""][1..] == [] && ["."][1..] == [];
  }

  /** The cleaned path leads to the same directory, wherever one starts, and there is nothing in it
      that could be left out: no blank component, no `.` but the path that is only this, and no `..`
      behind a name or at the root. */
  lemma CleanExactly(cwd: seq<string>, s: string)
    ensures Place(cwd, Clean(s)) == Place(cwd, s)
    ensures Rooted(Clean(s)) == Rooted(s) && Components(Clean(s)) == Parts(Rooted(s), Stack(s)) && Normal(Stack(s), Rooted(s))
  {
    var rooted := Rooted(s);
    var at := if rooted then [] else cwd;
    PushAllWalks(at, [], rooted, Components(s));
    SpelledParts(rooted, Stack(s));
    SpelledWalks(at, rooted, Stack(s));
    NoStep(at);
    RootedSpell(rooted, Stack(s));
    hide Walk, Components, PushAll, Spell, Normal;
  }

  lemma RootedSpell(rooted: bool, a: seq<string>)
    requires Normal(a, rooted)
    ensures Rooted(Spell(rooted, a)) == rooted
  {
    if !rooted && a != [] {
      assert Left(a[0]) && a[0][0] in a[0];
      if |a| > 1 { assert Slashed(a)[0] == a[0][0]; }
    }
  }

  /** Cleaning twice is cleaning once. */
  lemma CleanAgain(s: string)
    ensures Clean(Clean(s)) == Clean(s)
  {
    CleanExactly([], s);
    hide *;
    CleanStack(s);
  }

  lemma CleanStack(s: string)
    requires Components(Clean(s)) == Parts(Rooted(s), Stack(s)) && Normal(Stack(s), Rooted(s)) && Rooted(Clean(s)) == Rooted(s)
    ensures Clean(Clean(s)) == Clean(s)
  {
    var r, a := Rooted(s), Stack(s);
    NormalStays(r, a);
    hide Components, PushAll, Normal;
  }

  lemma NormalStays(rooted: bool, a: seq<string>)
    requires Normal(a, rooted)
    ensures PushAll([], rooted, Parts(rooted, a)) == a
  {
    PushNormal([], rooted, a);
    var behind := if a == [] then [""] else a;
    assert ([""] + behind)[1..] == behind && [""][1..] == [] && ["."][1..] == [] && [] + a == a;
  }

  lemma {:induction false} PushNormal(stack: seq<string>, rooted: bool, a: seq<string>)
    requires Normal(stack + a, rooted)
    ensures PushAll(stack, rooted, a) == stack + a
    decreases |a|
  {
    var all := stack + a;
    if a == [] {
      assert all == stack;
    } else {
      assert all[|stack|] == a[0] && a[0] in all;
      assert a[0] == ".." && stack != [] ==> all[|stack| - 1] == "..";
      assert stack + [a[0]] + a[1..] == all;
      assert Push(stack, rooted, a[0]) == stack + [a[0]];
      hide Push, Normal;
      PushNormal(stack + [a[0]], rooted, a[1..]);
    }
  }
}
