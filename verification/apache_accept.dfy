/** What `internal/plugins/apache/parser/parser.go` accepts and what it reads from a line.

    The lines are told apart and taken to pieces by what stands where in their text; which files parse
    is decided by one pass over their logical lines with the stack of the open sections.
 */
module ApacheAccept {
  import opened Common
  import opened Text
  import opened ApacheScan
  import opened ApacheParser
  import opened ApacheLines
  import opened ApacheFixpoint
  import opened ApacheUndo
  import opened ApacheWords

  // ----- Names up to the case of their letters -----

  predicate SameName(a: string, b: string) {
    |a| == |b| && forall i :: 0 <= i < |a| ==> SameLetter(a[i], b[i])
  }

  lemma FoldsLetters(a: string, b: string)
    ensures EqualFold(a, b) <==> SameName(a, b)
  {
    if SameName(a, b) {
      assert ToLower(a) == ToLower(b);
    } else if |a| == |b| {
      var i :| 0 <= i < |a| && !SameLetter(a[i], b[i]);
      assert ToLower(a)[i] != ToLower(b)[i];
    }
  }

  // ----- Tags -----

  /** Nothing, or a comment. */
  predicate CommentText(s: string) {
    s == "" || s[0] == '#'
  }

  /** The text of a closing tag: whitespace around the name, and between the `>` and the comment
      anything without a `#`, which is whitespace alone when there is no comment. */
  predicate ClosingText(s: string, name: string, trailing: string, a: string, b: string, gap: string) {
    s == "</" + (a + name + b) + ">" + (gap + trailing) &&
    AllSpace(a) && name != "" && Trimmed(name) && AllSpace(b) && '>' !in name &&
    CommentText(trailing) && '#' !in gap && (trailing == "" ==> AllSpace(gap))
  }

  /** `parseCloseTag` reads exactly these texts, and this name and comment from them. */
  lemma CloseExactly(s: string, name: string, trailing: string)
    ensures ParseCloseTag(s) == Tag(name, trailing) <==>
      exists a: string, b: string, gap: string :: ClosingText(s, name, trailing, a, b, gap)
  {
    if ParseCloseTag(s) == Tag(name, trailing) {
      var a, b, gap := CloseParts(s);
    }
    forall a: string, b: string, gap: string | ClosingText(s, name, trailing, a, b, gap)
      ensures ParseCloseTag(s) == Tag(name, trailing)
    {
      CloseReads(s, name, trailing, a, b, gap);
    }
  }

  lemma SpacesTrim(s: string)
    ensures AllSpace(s) <==> TrimSpace(s) == ""
  {
    if AllSpace(s) {
      TrimExactly(s, "", "");
      assert s + "" + "" == s;
    } else {
      var a, b := TrimParts(s);
      assert a + "" + b == a + b;
    }
  }

  /** What a closing tag is read as, by the text behind its `>`. */
  function BehindTag(name: string, rest: string): CloseTag {
    var i := IndexOf(rest, '#');
    if i < |rest| then Tag(name, rest[i..]) else if TrimSpace(rest) != "" then BadTag else Tag(name, "")
  }

  lemma CloseStep(between: string, rest: string)
    requires '>' !in between
    ensures ParseCloseTag("</" + between + ">" + rest) ==
      var name := TrimSpace(between); if name == "" then BadTag else BehindTag(name, rest)
  {
    hide *;
    IndexFound("</" + between, '>', rest);
    CloseSlices(between, rest);
    CloseIs("</" + between + ">" + rest, |between| + 2);
  }

  lemma CloseSlices(between: string, rest: string)
    ensures var s := "</" + between + ">" + rest;
      HasPrefix(s, "</") && |s| > |between| + 2 && s[2..|between| + 2] == between && s[|between| + 3..] == rest
  {
    var s := "</" + between + ">" + rest;
    assert s[..2] == "</";
  }

  lemma CloseIs(s: string, end: nat)
    requires HasPrefix(s, "</") && 2 <= end < |s| && IndexOf(s, '>') == end
    ensures ParseCloseTag(s) == var name := TrimSpace(s[2..end]); if name == "" then BadTag else BehindTag(name, s[end + 1..])
  {
    hide TrimSpace, IndexOf, HasPrefix;
  }

  lemma CloseSplit(s: string) returns (between: string, rest: string)
    requires ParseCloseTag(s).Tag?
    ensures s == "</" + between + ">" + rest && '>' !in between
  {
    var end := IndexOf(s, '>');
    assert s[..2][1] == '/' && s[..2][0] == '<';
    between, rest := s[2..end], s[end + 1..];
    hide TrimSpace, IndexOf;
    assert s[..2] + s[2..end] + [s[end]] + s[end + 1..] == s;
    forall c <- between ensures c != '>' {
      var j :| 0 <= j < |between| && between[j] == c;
      assert s[2 + j] == c;
    }
  }

  lemma BehindReads(name: string, gap: string, trailing: string)
    requires CommentText(trailing) && '#' !in gap && (trailing == "" ==> AllSpace(gap))
    ensures BehindTag(name, gap + trailing) == Tag(name, trailing)
  {
    if trailing != "" {
      IndexFound(gap, '#', trailing[1..]);
      assert gap + trailing == gap + ['#'] + trailing[1..] && (gap + trailing)[|gap|..] == trailing;
    } else {
      assert gap + trailing == gap;
      SpacesTrim(gap);
      hide TrimSpace;
      assert IndexOf(gap, '#') == |gap|;
    }
  }

  lemma BehindParts(name: string, rest: string) returns (gap: string)
    requires BehindTag(name, rest).Tag?
    ensures var trailing := BehindTag(name, rest).trailing;
      rest == gap + trailing && CommentText(trailing) && '#' !in gap && (trailing == "" ==> AllSpace(gap))
    ensures BehindTag(name, rest).name == name
  {
    gap := rest[..IndexOf(rest, '#')];
    SpacesTrim(rest);
    hide TrimSpace, IndexOf, AllSpace;
    assert rest[..|rest|] == rest && rest + "" == rest;
  }

  lemma CloseReads(s: string, name: string, trailing: string, a: string, b: string, gap: string)
    requires ClosingText(s, name, trailing, a, b, gap)
    ensures ParseCloseTag(s) == Tag(name, trailing)
  {
    hide ParseCloseTag, TrimSpace, BehindTag, AllSpace, IsSpace;
    TrimExactly(a, name, b);
    SpacesNoAngle(a);
    SpacesNoAngle(b);
    CloseStep(a + name + b, gap + trailing);
    BehindReads(name, gap, trailing);
  }

  lemma SpacesNoAngle(s: string)
    requires AllSpace(s)
    ensures '>' !in s
  {
  }

  lemma CloseParts(s: string) returns (a: string, b: string, gap: string)
    requires ParseCloseTag(s).Tag?
    ensures ClosingText(s, ParseCloseTag(s).name, ParseCloseTag(s).trailing, a, b, gap)
  {
    var between, rest := CloseSplit(s);
    hide ParseCloseTag, TrimSpace, BehindTag, AllSpace, IsSpace, Trimmed, CommentText;
    CloseStep(between, rest);
    a, b := TrimParts(between);
    gap := BehindParts(TrimSpace(between), rest);
  }

  /** The text of an opening tag: up to a `>` outside quotes the name and the arguments, behind it
      whitespace and a comment. */
  predicate OpeningText(s: string, name: string, args: seq<string>, trailing: string, inner: string, gap: string) {
    s == "<" + inner + ">" + (gap + trailing) &&
    NoneBare(inner, '>') && Quotes(inner) % 2 == 0 && !OddBackslashes(inner) && Spells(inner, [name] + args) &&
    AllSpace(gap) && CommentText(trailing)
  }

  /** `parseSection` reads exactly these texts as an opening tag, and these fields from them. */
  lemma OpenExactly(s: string, name: string, args: seq<string>, trailing: string)
    requires s != "" && s[0] == '<'
    ensures ParseOpen(s) == Open(name, args, trailing) <==>
      exists inner: string, gap: string :: OpeningText(s, name, args, trailing, inner, gap)
  {
    hide *;
    if ParseOpen(s) == Open(name, args, trailing) {
      var inner, gap := OpenTextParts(s);
    }
    forall inner: string, gap: string | OpeningText(s, name, args, trailing, inner, gap)
      ensures ParseOpen(s) == Open(name, args, trailing)
    {
      OpenReads(s, name, args, trailing, inner, gap);
    }
  }

  /** What an opening tag is read as, by the text before and behind its `>`. */
  function BehindAngle(fields: seq<string>, rest: string): OpenTag {
    var i := IndexOf(rest, '#');
    if TrimSpace(rest[..i]) != "" || fields == [] then BadOpen else Open(fields[0], fields[1..], rest[i..])
  }

  lemma OpenStep(inner: string, rest: string)
    requires Scan(inner, '>', false, false) == Ended(false, false)
    ensures var s := "<" + inner + ">" + rest; s[0] == '<' && ParseOpen(s) == BehindAngle(SplitArgs(inner), rest)
  {
    PrintedFound(inner, rest);
    PrintedSlices(inner, rest);
    hide Scan, SplitArgs, IndexOf, TrimSpace;
  }

  lemma OpenReads(s: string, name: string, args: seq<string>, trailing: string, inner: string, gap: string)
    requires OpeningText(s, name, args, trailing, inner, gap)
    ensures s[0] == '<' && ParseOpen(s) == Open(name, args, trailing)
  {
    hide ParseOpen, Scan, SplitArgs, Spells, AllSpace, NoneBare, Quotes, OddBackslashes, TrimSpace;
    ScanExactly(inner, '>');
    SplitExactly(inner, [name] + args);
    OpenStep(inner, gap + trailing);
    SpacesTrim(gap);
    SpacesNoHash(gap);
    CommentFound(gap, trailing);
    assert ([name] + args)[1..] == args;
  }

  lemma SpacesNoHash(s: string)
    requires AllSpace(s)
    ensures '#' !in s
  {
  }

  lemma CommentFound(gap: string, trailing: string)
    requires '#' !in gap && CommentText(trailing)
    ensures var i := IndexOf(gap + trailing, '#'); i == |gap| && (gap + trailing)[..i] == gap && (gap + trailing)[i..] == trailing
  {
    if trailing != "" {
      IndexFound(gap, '#', trailing[1..]);
      assert gap + trailing == gap + ['#'] + trailing[1..];
    } else {
      assert gap + trailing == gap;
    }
  }

  lemma OpenTextParts(s: string) returns (inner: string, gap: string)
    requires s != "" && s[0] == '<' && ParseOpen(s).Open?
    ensures var tag := ParseOpen(s); OpeningText(s, tag.name, tag.args, tag.trailing, inner, gap)
  {
    hide *;
    OpenCut(s);
    OpenParts(s);
    var end := Scan(s, '>', false, false).at;
    inner := s[1..end];
    var rest := s[end + 1..];
    AngleSlices(s, end, |rest|);
    Assoc("<", inner, ">" + rest);
    Assoc("<" + inner, ">", rest);
    ScanExactly(inner, '>');
    OpenStep(inner, rest);
    SplitExactly(inner, SplitArgs(inner));
    gap := AngleParts(SplitArgs(inner), rest);
    OpeningIs(s, BehindAngle(SplitArgs(inner), rest), inner, gap);
  }

  lemma AngleParts(fields: seq<string>, rest: string) returns (gap: string)
    requires BehindAngle(fields, rest).Open?
    ensures var tag := BehindAngle(fields, rest);
      fields == [tag.name] + tag.args && rest == gap + tag.trailing && AllSpace(gap) && CommentText(tag.trailing)
  {
    gap := rest[..IndexOf(rest, '#')];
    SpacesTrim(gap);
    hide TrimSpace, AllSpace, IndexOf;
  }

  lemma OpeningIs(s: string, tag: OpenTag, inner: string, gap: string)
    requires tag.Open? && s == "<" + inner + ">" + (gap + tag.trailing)
    requires NoneBare(inner, '>') && Quotes(inner) % 2 == 0 && !OddBackslashes(inner) && Spells(inner, [tag.name] + tag.args)
    requires AllSpace(gap) && CommentText(tag.trailing)
    ensures OpeningText(s, tag.name, tag.args, tag.trailing, inner, gap)
  {
  }

  // ----- Directives -----

  /** The text of a directive: its fields and, from its first bare `#` on, a comment that takes the
      blanks before it along. */
  predicate DirectiveText(s: string, fields: seq<string>, trailing: string) {
    |trailing| <= |s| &&
    (var k := |s| - |trailing|;
     s[k..] == trailing && Spells(s[..k], fields) &&
     if trailing == "" then NoneBare(s, '#')
     else (k > 0 ==> !IsBlank(s[k - 1])) && exists h: nat :: k <= h <= |s| && FirstBare(s, h, '#') && AllBlanks(s[k..h]))
  }

  /** `parseDirective` cuts a line in this way and in no other. */
  lemma DirectiveExactly(indent: string, s: string, newline: string, d: Node)
    requires DirectiveStart(s)
    ensures ParseDirective(indent, s, newline) == d <==>
      d.Directive? && d.indent == indent && d.newline == newline && DirectiveText(s, [d.name] + d.args, d.trailing)
  {
    hide ParseDirective, DirectiveText, DirectiveStart, DirectiveBody, DirectiveTrailing, SplitArgs;
    DirectiveHasName(s);
    DirectiveIs(indent, s, newline);
    var fields := SplitArgs(DirectiveBody(s));
    assert [fields[0]] + fields[1..] == fields;
    DirectiveForward(s);
    if d.Directive? && DirectiveText(s, [d.name] + d.args, d.trailing) {
      DirectiveBackward(s, [d.name] + d.args, d.trailing);
      assert ([d.name] + d.args)[1..] == d.args;
    }
  }

  lemma DirectiveIs(indent: string, s: string, newline: string)
    requires DirectiveStart(s) && SplitArgs(DirectiveBody(s)) != []
    ensures var fields := SplitArgs(DirectiveBody(s));
      ParseDirective(indent, s, newline) == Directive(indent, fields[0], fields[1..], DirectiveTrailing(s), newline)
  {
  }

  lemma DirectiveForward(s: string)
    requires DirectiveStart(s)
    ensures DirectiveText(s, SplitArgs(DirectiveBody(s)), DirectiveTrailing(s))
  {
    hide *;
    if Scan(s, '#', false, false).Found? {
      DirectiveCut(s);
      CommentedText(s, DirectiveBody(s), BlanksOf(s), CommentOf(s));
    } else {
      Uncommented(s);
      PlainText(s);
    }
  }

  lemma Uncommented(s: string)
    requires Scan(s, '#', false, false).Ended?
    ensures DirectiveBody(s) == s && DirectiveTrailing(s) == ""
  {
  }

  lemma PlainText(s: string)
    requires Scan(s, '#', false, false).Ended?
    ensures DirectiveText(s, SplitArgs(s), "")
  {
    SplitExactly(s, SplitArgs(s));
    ScanExactly(s, '#');
    hide Scan, Spells, SplitArgs, NoneBare, FirstBare;
    assert s[..|s|] == s && s[|s|..] == "";
  }

  lemma CommentedText(s: string, body: string, blanks: string, comment: string)
    requires s == body + (blanks + comment) && body != "" && !IsBlank(body[|body| - 1]) && AllBlanks(blanks) && comment != ""
    requires Scan(s, '#', false, false) == Found(|body| + |blanks|)
    ensures DirectiveText(s, SplitArgs(body), blanks + comment)
  {
    hide Scan, Spells, SplitArgs, NoneBare, FirstBare, AllBlanks, IsBlank;
    SplitExactly(body, SplitArgs(body));
    ScanExactly(s, '#');
    CommentSlices(s, body, blanks, comment);
  }

  lemma CommentSlices(s: string, body: string, blanks: string, comment: string)
    requires s == body + (blanks + comment)
    ensures var k := |body|; s[k..] == blanks + comment && s[..k] == body && s[k..k + |blanks|] == blanks
  {
  }

  lemma DirectiveBackward(s: string, fields: seq<string>, trailing: string)
    requires DirectiveStart(s) && DirectiveText(s, fields, trailing)
    ensures fields == SplitArgs(DirectiveBody(s)) && trailing == DirectiveTrailing(s)
  {
    hide *;
    var h := TextParts(s, fields, trailing);
    SplitExactly(s[..|s| - |trailing|], fields);
    ScanExactly(s, '#');
    if trailing == "" {
      Uncommented(s);
      assert s[..|s|] == s;
    } else {
      CommentCut(s, |s| - |trailing|, h);
    }
  }

  lemma TextParts(s: string, fields: seq<string>, trailing: string) returns (h: nat)
    requires DirectiveText(s, fields, trailing)
    ensures |trailing| <= |s|
    ensures var k := |s| - |trailing|;
      s[k..] == trailing && Spells(s[..k], fields) &&
      if trailing == "" then NoneBare(s, '#')
      else (k > 0 ==> !IsBlank(s[k - 1])) && k <= h <= |s| && FirstBare(s, h, '#') && AllBlanks(s[k..h])
  {
    hide Spells, NoneBare, FirstBare, AllBlanks;
    h := 0;
    if trailing != "" {
      var k := |s| - |trailing|;
      h :| k <= h <= |s| && FirstBare(s, h, '#') && AllBlanks(s[k..h]);
    }
  }

  lemma CommentCut(s: string, k: nat, h: nat)
    requires k <= h < |s| && Scan(s, '#', false, false) == Found(h) && (k > 0 ==> !IsBlank(s[k - 1])) && AllBlanks(s[k..h])
    ensures DirectiveBody(s) == s[..k] && DirectiveTrailing(s) == s[k..]
  {
    hide Scan, TrimBlanks;
    forall i | k <= i < h ensures IsBlank(s[..h][i]) { assert s[k..h][i - k] in s[k..h]; }
    TrimBlanksTo(s[..h], k);
    assert s[..h][..k] == s[..k];
  }

  // ----- Files -----

  /** The lines close their sections in order; `open` has the names of the sections that are open,
      the innermost first. */
  predicate Nested(lines: seq<Line>, open: seq<string>) {
    if lines == [] then open == []
    else
      var raw := lines[0].raw;
      if IsComment(raw) || IsDirective(raw) then Nested(lines[1..], open)
      else if IsOpen(raw) then TagOf(raw).Open? && Nested(lines[1..], [TagOf(raw).name] + open)
      else
        var tag := ParseCloseTag(SkipBlanks(raw));
        tag.Tag? && open != [] && SameName(tag.name, open[0]) && Nested(lines[1..], open[1..])
  }

  /** The verdict on the lines, seen from the body of the innermost section. */
  predicate BodyNested(lines: seq<Line>, open: seq<string>)
    requires "" !in open
  {
    if open == [] then ParseBody(lines, "").Good?
    else
      assert open[0] in open;
      var b := ParseBody(lines, open[0]);
      b.Good? && Nested(b.rest[1..], open[1..])
  }

  /** A first line that is a node by itself. */
  lemma NestsBehind(lines: seq<Line>, open: seq<string>, n: Node)
    requires "" !in open && lines != [] && (IsComment(lines[0].raw) || IsDirective(lines[0].raw))
    requires var close := if open == [] then "" else open[0]; ParseBody(lines, close) == Prepend(n, ParseBody(lines[1..], close))
    ensures Nested(lines, open) == Nested(lines[1..], open) && BodyNested(lines, open) == BodyNested(lines[1..], open)
  {
    hide ParseBody, IsComment, IsDirective, IsOpen, TagOf, ParseCloseTag, SkipBlanks, SameName;
    if open != [] { assert open[0] in open; }
  }

  lemma NestsOpen(lines: seq<Line>, open: seq<string>)
    requires "" !in open && lines != [] && IsOpen(lines[0].raw)
    ensures var tag := TagOf(lines[0].raw);
      Nested(lines, open) == (tag.Open? && Nested(lines[1..], [tag.name] + open)) &&
      (tag.BadOpen? ==> !BodyNested(lines, open)) &&
      (tag.Open? ==>
        "" !in [tag.name] + open &&
        (ParseBody(lines[1..], tag.name).Bad? ==> !BodyNested(lines, open) && !BodyNested(lines[1..], [tag.name] + open)))
  {
    var tag := TagOf(lines[0].raw);
    TagStep(lines);
    BodySection(lines, if open == [] then "" else open[0]);
    OpenOnly(lines[0].raw);
    hide ParseBody, ParseSection, IsComment, IsDirective, IsOpen, TagOf, ParseCloseTag, SkipBlanks, SameName;
    if open != [] { assert open[0] in open; }
  }

  lemma OpenOnly(raw: string)
    requires IsOpen(raw)
    ensures !IsComment(raw) && !IsDirective(raw)
  {
  }

  /** The body of the section of the first line ends, and what follows is judged. */
  lemma NestsSection(lines: seq<Line>, open: seq<string>)
    requires "" !in open && lines != [] && IsOpen(lines[0].raw) && TagOf(lines[0].raw).Open?
    requires ParseBody(lines[1..], TagOf(lines[0].raw).name).Good?
    ensures var tag := TagOf(lines[0].raw); var b := ParseBody(lines[1..], tag.name);
      b.rest != [] && "" !in [tag.name] + open && |b.rest| < |lines| &&
      BodyNested(lines, open) == BodyNested(b.rest[1..], open) &&
      BodyNested(lines[1..], [tag.name] + open) == Nested(b.rest[1..], open)
  {
    hide ParseBody, ParseSection, IsComment, IsDirective, IsOpen, TagOf, ParseCloseTag, SkipBlanks, SameName, Nested;
    var tag := TagOf(lines[0].raw);
    var b := ParseBody(lines[1..], tag.name);
    var close := if open == [] then "" else open[0];
    if open != [] { assert open[0] in open; }
    TagStep(lines);
    BodySection(lines, close);
    StopCloses(lines[1..], tag.name);
    assert ([tag.name] + open)[1..] == open;
  }

  lemma StopCloses(lines: seq<Line>, close: string)
    requires ParseBody(lines, close).Good? && close != ""
    ensures var b := ParseBody(lines, close); b.rest != [] && ParseCloseTag(SkipBlanks(b.rest[0].raw)).Tag?
  {
    var b := ParseBody(lines, close);
    LinesRead(lines, close, b.nodes, b.rest);
    hide ParseBody;
  }

  lemma NestsClose(lines: seq<Line>, open: seq<string>)
    requires "" !in open && lines != [] && !IsComment(lines[0].raw) && !IsDirective(lines[0].raw) && !IsOpen(lines[0].raw)
    ensures Nested(lines, open) == BodyNested(lines, open)
  {
    var close := if open == [] then "" else open[0];
    if open != [] { assert open[0] in open; }
    BodyClose(lines, close);
    var tag := ParseCloseTag(SkipBlanks(lines[0].raw));
    if tag.Tag? { FoldsLetters(tag.name, close); }
    hide ParseBody, IsComment, IsDirective, IsOpen, TagOf, ParseCloseTag, SkipBlanks, SameName, EqualFold;
  }

  lemma {:induction false} BodiesNest(lines: seq<Line>, open: seq<string>)
    requires "" !in open
    ensures Nested(lines, open) <==> BodyNested(lines, open)
    decreases |lines|
  {
    hide *;
    var close := if open == [] then "" else open[0];
    if lines == [] {
      NothingNests(open);
    } else {
      var raw := lines[0].raw;
      if IsComment(raw) {
        BodyComment(lines, close);
        NestsBehind(lines, open, CommentLine(raw, lines[0].newline));
        BodiesNest(lines[1..], open);
      } else if IsDirective(raw) {
        BodyDirective(lines, close);
        NestsBehind(lines, open, ParseDirective(Indent(raw), SkipBlanks(raw), lines[0].newline));
        BodiesNest(lines[1..], open);
      } else if IsOpen(raw) {
        NestsOpen(lines, open);
        var tag := TagOf(raw);
        if tag.Open? {
          BodiesNest(lines[1..], [tag.name] + open);
          if ParseBody(lines[1..], tag.name).Good? {
            NestsSection(lines, open);
            BodiesNest(ParseBody(lines[1..], tag.name).rest[1..], open);
          }
        }
      } else {
        NestsClose(lines, open);
      }
    }
  }

  lemma NothingNests(open: seq<string>)
    requires "" !in open
    ensures Nested([], open) <==> BodyNested([], open)
  {
    if open != [] { assert open[0] in open; }
  }

  /** Exactly the files whose logical lines close their sections in order parse. */
  lemma ParsesExactly(src: string)
    ensures Parse(src).Config? <==> Nested(LogicalLines(src), [])
  {
    BodiesNest(LogicalLines(src), []);
    hide ParseBody, Nested;
  }

  /** A section is read, whatever follows, when the name in its closing tag is its own up to the case
      of the letters; it keeps the name of its opening tag. */
  lemma SectionReads(open: Line, lines: seq<Line>, body: seq<Node>, end: Line)
    requires IsOpen(open.raw) && TagOf(open.raw).Open? && ReadAs(lines, body)
    requires ParseCloseTag(SkipBlanks(end.raw)).Tag? && SameName(TagOf(open.raw).name, ParseCloseTag(SkipBlanks(end.raw)).name)
    ensures ReadAs([open] + lines + [end], [Tagged(open, body, end)])
    ensures Tagged(open, body, end).name == TagOf(open.raw).name
  {
    FoldsLetters(ParseCloseTag(SkipBlanks(end.raw)).name, TagOf(open.raw).name);
    CloseLineCloses(end.raw, TagOf(open.raw).name);
    hide ReadAs, IsOpen, TagOf, ParseCloseTag, SameName, EqualFold;
    ReadTagged(open, lines, body, end);
  }

  lemma CloseLineCloses(raw: string, name: string)
    requires ParseCloseTag(SkipBlanks(raw)).Tag? && EqualFold(ParseCloseTag(SkipBlanks(raw)).name, name)
    ensures Closes(raw, name)
  {
    var content := SkipBlanks(raw);
    CloseIsOpen(content);
    PrefixChar(content, '<');
    IndentAndContent(raw);
    IndentIsBlank(raw);
    AngleLine(Indent(raw), content);
    hide EqualFold;
  }
}
