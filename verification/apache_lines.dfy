/** Single lines of an Apache configuration, parsed, printed and parsed again. */
module ApacheLines {
  import opened Common
  import opened Text
  import opened ApacheScan
  import opened ApacheParser

  // ----- Characters that survive -----

  lemma {:induction false} InSqueeze(s: string, c: char)
    requires !IsBlank(c)
    ensures c in Squeeze(s) <==> c in s
  {
    if s != "" {
      InSqueeze(s[1..], c);
      assert s == [s[0]] + s[1..];
    }
  }

  lemma {:induction false} TrimsAway(s: string)
    ensures TrimSpace(s) == "" <==> forall c <- s :: IsSpace(c)
    decreases |s|
  {
    if s != "" && IsSpace(s[0]) {
      TrimsAway(s[1..]);
      assert s == [s[0]] + s[1..];
    } else if s != "" && IsSpace(s[|s| - 1]) {
      assert s[0] in s;
      TrimsAway(s[..|s| - 1]);
      assert s[..|s| - 1][0] == s[0];
    } else if s != "" {
      assert s[0] in s;
    }
  }

  /** Whether a line is blank does not depend on its blanks. */
  lemma SameBlankness(a: string, b: string)
    requires Squeeze(a) == Squeeze(b)
    ensures TrimSpace(a) == "" <==> TrimSpace(b) == ""
  {
    TrimsAway(a);
    TrimsAway(b);
    forall c: char | !IsSpace(c) ensures c in a <==> c in b {
      InSqueeze(a, c);
      InSqueeze(b, c);
    }
  }

  lemma NotBlankLine(s: string, i: nat)
    requires i < |s| && !IsSpace(s[i])
    ensures TrimSpace(s) != ""
  {
    TrimsAway(s);
    assert s[i] in s;
  }

  lemma {:induction false} IndentSkip(indent: string, content: string)
    requires (forall c <- indent :: IsBlank(c)) && content != "" && !IsBlank(content[0])
    ensures Indent(indent + content) == indent && SkipBlanks(indent + content) == content
  {
    if indent == "" {
      assert indent + content == content;
    } else {
      assert indent[0] in indent && forall c <- indent[1..] :: c in indent;
      IndentSkip(indent[1..], content);
      assert (indent + content)[1..] == indent[1..] + content;
    }
  }

  lemma {:induction false} IndentAndContent(raw: string)
    ensures raw == Indent(raw) + SkipBlanks(raw) && Squeeze(Indent(raw)) == ""
  {
    if raw != "" && IsBlank(raw[0]) {
      IndentAndContent(raw[1..]);
      assert raw == [raw[0]] + raw[1..];
      assert ([raw[0]] + Indent(raw[1..]))[1..] == Indent(raw[1..]);
      assert Squeeze(Indent(raw)) == "" + Squeeze(Indent(raw[1..]));
    }
  }

  /** Text that starts with a nonblank keeps its squeezed form behind an indent. */
  lemma SqueezeIndented(indent: string, content: string)
    requires Squeeze(indent) == ""
    ensures Squeeze(indent + content) == Squeeze(content)
  {
    SqueezeAppend(indent, content);
    assert "" + Squeeze(content) == Squeeze(content);
  }

  // ----- Directives -----

  function DirectiveLine(d: Node): string
    requires d.Directive?
  {
    d.indent + Join([d.name] + d.args) + d.trailing
  }

  predicate AllBlanks(s: string) {
    forall c <- s :: IsBlank(c)
  }

  lemma {:induction false} TrimBlanksCut(s: string)
    ensures var b := TrimBlanks(s); AllBlanks(s[|b|..]) && s == b + s[|b|..]
  {
    if s != "" && IsBlank(s[|s| - 1]) {
      var t := s[..|s| - 1];
      var b := TrimBlanks(t);
      TrimBlanksCut(t);
      assert s[|b|..] == t[|b|..] + [s[|s| - 1]];
    }
  }

  /** The comment of a directive starts at the same place behind the collapsed arguments. */
  lemma CommentAgain(body: string, fields: seq<string>, blanks: string, comment: string)
    requires body != "" && !IsBlank(body[|body| - 1]) && fields == SplitArgs(body) && AllBlanks(blanks)
    requires Scan(body + (blanks + comment), '#', false, false) == Found(|body| + |blanks|)
    ensures var content := Join(fields) + (blanks + comment);
      Scan(content, '#', false, false) == Found(|Join(fields)| + |blanks|)
  {
    var rest := blanks + comment;
    var j := Join(fields);
    ScanAppend(body, rest, '#', false, false);
    ScanAppend(j, rest, '#', false, false);
    hide Scan, SplitArgs, Join;
    assert Scan(body, '#', false, false).Ended?;
    SplitScan(body, '#', false);
  }

  lemma BodyAgain(fields: seq<string>, blanks: string, comment: string)
    requires AllBlanks(blanks) && Join(fields) != "" && !IsBlank(Join(fields)[|Join(fields)| - 1])
    requires Scan(Join(fields) + (blanks + comment), '#', false, false) == Found(|Join(fields)| + |blanks|)
    ensures var content := Join(fields) + (blanks + comment);
      DirectiveBody(content) == Join(fields) && DirectiveTrailing(content) == blanks + comment
  {
    var j := Join(fields);
    var content := j + (blanks + comment);
    var head := content[..|j| + |blanks|];
    hide Scan, Join;
    BodySlices(j, blanks, comment);
    TrimBlanksTo(head, |j|);
  }

  lemma BodySlices(j: string, blanks: string, comment: string)
    ensures var content := j + (blanks + comment); var head := content[..|j| + |blanks|];
      head == j + blanks && head[..|j|] == j && content[|j|..] == blanks + comment
  {
  }

  /** The blanks before the comment of a directive, and the comment. */
  function BlanksOf(content: string): string
    requires Scan(content, '#', false, false).Found?
  {
    var i := Scan(content, '#', false, false).at;
    content[|TrimBlanks(content[..i])|..i]
  }

  function CommentOf(content: string): string
    requires Scan(content, '#', false, false).Found?
  {
    content[Scan(content, '#', false, false).at..]
  }

  /** A directive with a comment, as the parser cuts it. */
  lemma DirectiveCut(content: string)
    requires DirectiveStart(content) && Scan(content, '#', false, false).Found?
    ensures var body := DirectiveBody(content);
      body != "" && !IsBlank(body[|body| - 1]) && DirectiveTrailing(content) == BlanksOf(content) + CommentOf(content) &&
      AllBlanks(BlanksOf(content)) && content == body + (BlanksOf(content) + CommentOf(content)) && CommentOf(content) != "" &&
      Scan(content, '#', false, false) == Found(|body| + |BlanksOf(content)|)
  {
    var i := Scan(content, '#', false, false).at;
    DirectiveHasName(content);
    var head := content[..i];
    var k := |TrimBlanks(head)|;
    TrimBlanksCut(head);
    assert TrimBlanks(head) == head[..k];
    hide Scan, TrimBlanks, SplitArgs;
    CutSlices(content, k, i);
  }

  lemma CutSlices(s: string, k: nat, i: nat)
    requires k <= i <= |s|
    ensures s[..i][..k] == s[..k] && s[..i][k..] == s[k..i] && s[k..] == s[k..i] + s[i..] && s == s[..k] + (s[k..i] + s[i..])
  {
  }

  lemma DirectiveUncut(content: string)
    requires DirectiveStart(content)
    ensures content == DirectiveBody(content) + DirectiveTrailing(content)
  {
    if Scan(content, '#', false, false).Found? { DirectiveCut(content); }
    else { assert content + "" == content; }
  }

  /** The printed content of a directive is cut into the collapsed arguments and the same comment. */
  lemma DirectiveContent(content: string)
    requires DirectiveStart(content)
    ensures var fields := SplitArgs(DirectiveBody(content)); var printed := Join(fields) + DirectiveTrailing(content);
      fields != [] && Join(fields) != "" && Join(fields)[0] == content[0] &&
      DirectiveBody(printed) == Join(fields) && DirectiveTrailing(printed) == DirectiveTrailing(content)
  {
    DirectiveHasName(content);
    SplitKeepsFirst(DirectiveBody(content));
    if Scan(content, '#', false, false).Found? { CommentedContent(content); } else { PlainContent(content); }
  }

  lemma CommentedContent(content: string)
    requires DirectiveStart(content) && Scan(content, '#', false, false).Found?
    ensures var j := Join(SplitArgs(DirectiveBody(content)));
      DirectiveBody(j + DirectiveTrailing(content)) == j && DirectiveTrailing(j + DirectiveTrailing(content)) == DirectiveTrailing(content)
  {
    hide Scan, SplitArgs, Join, DirectiveBody, DirectiveTrailing, BlanksOf, CommentOf;
    var body := DirectiveBody(content);
    DirectiveCut(content);
    SplitKeepsLast(body);
    CommentAgain(body, SplitArgs(body), BlanksOf(content), CommentOf(content));
    BodyAgain(SplitArgs(body), BlanksOf(content), CommentOf(content));
  }

  lemma PlainContent(content: string)
    requires Scan(content, '#', false, false).Ended?
    ensures var j := Join(SplitArgs(DirectiveBody(content)));
      DirectiveBody(j + DirectiveTrailing(content)) == j && DirectiveTrailing(j + DirectiveTrailing(content)) == DirectiveTrailing(content)
  {
    var j := Join(SplitArgs(content));
    SplitScan(content, '#', false);
    assert j + "" == j;
    hide Scan, SplitArgs, Join;
  }

  /** A directive line, printed, is a directive line that parses to the same directive. */
  lemma DirectiveAgain(raw: string, newline: string)
    requires IsDirective(raw)
    ensures DirectiveStart(SkipBlanks(raw))
    ensures var d := ParseDirective(Indent(raw), SkipBlanks(raw), newline); var line := DirectiveLine(d);
      IsDirective(line) && DirectiveStart(SkipBlanks(line)) && Squeeze(line) == Squeeze(raw) &&
      ParseDirective(Indent(line), SkipBlanks(line), newline) == d
  {
    DirectiveStarts(raw);
    var content := SkipBlanks(raw);
    var d := ParseDirective(Indent(raw), content, newline);
    var body := DirectiveBody(content);
    var fields := SplitArgs(body);
    DirectiveContent(content);
    assert [d.name] + d.args == fields;
    var printed := Join(fields) + d.trailing;
    SplitJoin(body);
    DirectiveSqueeze(raw);
    hide SplitArgs, Join, DirectiveBody, DirectiveTrailing, TrimSpace;
    Assoc(Indent(raw), Join(fields), d.trailing);
    assert DirectiveLine(d) == Indent(raw) + printed;
    assert printed[0] == content[0];
    IndentSkip(Indent(raw), printed);
    SameBlankness(raw, DirectiveLine(d));
    PrefixChar(content, '#');
    PrefixChar(content, '<');
    PrefixChar(printed, '#');
    PrefixChar(printed, '<');
  }

  /** Printing a directive changes nothing but blanks. */
  lemma DirectiveSqueeze(raw: string)
    requires DirectiveStart(SkipBlanks(raw))
    ensures var content := SkipBlanks(raw);
      Squeeze(Indent(raw) + (Join(SplitArgs(DirectiveBody(content))) + DirectiveTrailing(content))) == Squeeze(raw)
  {
    var content := SkipBlanks(raw);
    var body, trailing := DirectiveBody(content), DirectiveTrailing(content);
    var j := Join(SplitArgs(body));
    DirectiveUncut(content);
    IndentAndContent(raw);
    hide SplitArgs, Join, DirectiveBody, DirectiveTrailing, Scan, SkipBlanks, Indent, Squeeze;
    SqueezeIndented(Indent(raw), content);
    SqueezeIndented(Indent(raw), j + trailing);
    SqueezeAppend(body, trailing);
    SqueezeAppend(j, trailing);
    SplitKeepsText(body);
  }

  // ----- Opening tags -----

  /** The fields of an opening tag as the printer writes them. */
  function Fields(tag: OpenTag): seq<string>
    requires tag.Open?
  {
    [tag.name] + tag.args
  }

  function PrintedOpen(fields: seq<string>, trailing: string): string {
    "<" + Join(fields) + ">" + trailing
  }

  lemma ScanAngle(x: string)
    ensures Scan("<" + x, '>', false, false) == Later(Scan(x, '>', false, false), 1)
  {
    assert ("<" + x)[1..] == x;
  }

  lemma ScanHit(a: string, rest: string, e: bool)
    requires Scan(a, '>', false, false) == Ended(false, e)
    ensures Scan(a + (">" + rest), '>', false, false) ==
      if e then Later(Later(Scan(rest, '>', false, false), 1), |a|) else Found(|a|)
  {
    ScanAppend(a, ">" + rest, '>', false, false);
    assert (">" + rest)[1..] == rest;
  }

  lemma OpenParts(content: string)
    requires content != "" && content[0] == '<' && ParseOpen(content).Open?
    ensures var stop := Scan(content, '>', false, false);
      stop.Found? && stop.at >= 1 && content[stop.at] == '>' && Fields(ParseOpen(content)) == SplitArgs(content[1..stop.at]) &&
      (var rest := content[stop.at + 1..]; ParseOpen(content).trailing == rest[IndexOf(rest, '#')..])
  {
    ScanNotFirst(content);
  }

  /** What an opening tag was read from. */
  lemma OpenCut(content: string)
    requires content != "" && content[0] == '<' && ParseOpen(content).Open?
    ensures var stop := Scan(content, '>', false, false);
      stop.Found? && stop.at >= 1 && Fields(ParseOpen(content)) == SplitArgs(content[1..stop.at]) &&
      Scan(content[1..stop.at], '>', false, false) == Ended(false, false)
    ensures var t := ParseOpen(content).trailing; (t == "" || t[0] == '#') && HasSuffix(content, t)
  {
    hide *;
    OpenParts(content);
    var end := Scan(content, '>', false, false).at;
    var inner, rest := content[1..end], content[end + 1..];
    AngleSlices(content, end, IndexOf(rest, '#'));
    ScanAngle(inner + (">" + rest));
    LaterBack(Scan(inner + (">" + rest), '>', false, false), end);
    FoundBefore(inner, rest, end - 1);
  }

  lemma LaterBack(s: Stop, end: nat)
    ensures Later(s, 1) == Found(end) ==> s == Found(end - 1)
  {
  }

  lemma ScanNotFirst(content: string)
    requires content != "" && content[0] == '<' && Scan(content, '>', false, false).Found?
    ensures Scan(content, '>', false, false).at >= 1
  {
  }

  lemma AngleSlices(content: string, end: nat, i: nat)
    requires 1 <= end < |content| && content[0] == '<' && content[end] == '>' && i <= |content| - end - 1
    ensures var inner, rest := content[1..end], content[end + 1..];
      content == "<" + (inner + (">" + rest)) && HasSuffix(content, rest[i..])
  {
    var inner, rest := content[1..end], content[end + 1..];
    assert content[|content| - |rest[i..]|..] == rest[i..];
  }

  /** The search that stops at a `>` has passed everything before it, unquoted and unescaped. */
  lemma FoundBefore(inner: string, rest: string, at: nat)
    requires at == |inner| && Scan(inner + (">" + rest), '>', false, false) == Found(at)
    ensures Scan(inner, '>', false, false) == Ended(false, false)
  {
    ScanAppend(inner, ">" + rest, '>', false, false);
  }

  /** The state in which the search reaches the `>` of the printed tag. */
  lemma PrintedScan(inner: string)
    requires Scan(inner, '>', false, false) == Ended(false, false) && SplitArgs(inner) != []
    ensures var fields := SplitArgs(inner); var j := Join(fields);
      j != "" && j[0] == fields[0][0] && Scan(j, '>', false, false) == Ended(false, OddBackslashes(fields[|fields| - 1]))
  {
    var fields := SplitArgs(inner);
    SplitScan(inner, '>', false);
    EscapedIffOdd(Join(fields), '>', false);
    OddJoin(fields);
    hide Scan, SplitArgs, OddBackslashes;
    if |fields| > 1 { JoinMore(fields[0], fields[1..]); assert fields == [fields[0]] + fields[1..]; }
  }

  lemma OpenForward(inner: string, trailing: string)
    requires SplitArgs(inner) != [] && (trailing == "" || trailing[0] == '#')
    requires Scan(Join(SplitArgs(inner)), '>', false, false) == Ended(false, false)
    ensures var fields := SplitArgs(inner); ParseOpen(PrintedOpen(fields, trailing)) == Open(fields[0], fields[1..], trailing)
  {
    hide *;
    var fields := SplitArgs(inner);
    var j := Join(fields);
    SplitJoin(inner);
    PrintedFound(j, trailing);
    PrintedIs(fields, trailing);
    PrintedSlices(j, trailing);
    OpenFrom("<" + j + ">" + trailing, j, trailing);
  }

  lemma PrintedIs(fields: seq<string>, trailing: string)
    ensures PrintedOpen(fields, trailing) == "<" + Join(fields) + ">" + trailing
  {
  }

  lemma PrintedFound(j: string, trailing: string)
    requires Scan(j, '>', false, false) == Ended(false, false)
    ensures Scan("<" + j + ">" + trailing, '>', false, false) == Found(1 + |j|)
  {
    hide Scan;
    Assoc("<", j, ">");
    Assoc("<", j + ">", trailing);
    Assoc(j, ">", trailing);
    ScanAngle(j + (">" + trailing));
    ScanHit(j, trailing, false);
  }

  lemma PrintedSlices(j: string, trailing: string)
    ensures var s := "<" + j + ">" + trailing;
      s[0] == '<' && |s| == |j| + 2 + |trailing| && s[1..1 + |j|] == j && s[|j| + 2..] == trailing
  {
  }

  lemma OpenFrom(content: string, inner: string, trailing: string)
    requires content != "" && content[0] == '<' && Scan(content, '>', false, false) == Found(1 + |inner|)
    requires content[1..1 + |inner|] == inner && content[|inner| + 2..] == trailing
    requires SplitArgs(inner) != [] && (trailing == "" || trailing[0] == '#')
    ensures ParseOpen(content) == Open(SplitArgs(inner)[0], SplitArgs(inner)[1..], trailing)
  {
    IndexAtStart(trailing);
    hide Scan, SplitArgs, IndexOf;
    assert trailing[..0] == "" && trailing[0..] == trailing;
  }

  lemma OpenBackward(inner: string, trailing: string)
    requires SplitArgs(inner) != [] && Scan(Join(SplitArgs(inner)), '>', false, false) == Ended(false, true)
    ensures var fields := SplitArgs(inner); ParseOpen(PrintedOpen(fields, trailing)) != Open(fields[0], fields[1..], trailing)
  {
    var fields := SplitArgs(inner);
    var content := PrintedOpen(fields, trailing);
    PrintedIs(fields, trailing);
    hide Scan, Join, SplitArgs, PrintedOpen;
    PrintedMisses(Join(fields), trailing);
    var stop := Scan(content, '>', false, false);
    if stop.Found? {
      var n := stop.at - |Join(fields)| - 2;
      assert content[1..stop.at] == Join(fields) + (">" + trailing[..n]);
      LongerSplits(inner, trailing[..n]);
      assert [fields[0]] + fields[1..] == fields;
    }
  }

  /** The search of a tag whose `>` is escaped goes on behind it. */
  lemma PrintedMisses(j: string, trailing: string)
    requires Scan(j, '>', false, false) == Ended(false, true)
    ensures Scan("<" + j + ">" + trailing, '>', false, false) == Later(Scan(trailing, '>', false, false), |j| + 2)
  {
    hide Scan;
    Assoc("<", j, ">");
    Assoc("<", j + ">", trailing);
    Assoc(j, ">", trailing);
    ScanAngle(j + (">" + trailing));
    ScanHit(j, trailing, true);
  }

  lemma LongerSplits(inner: string, x: string)
    ensures SplitArgs(Join(SplitArgs(inner)) + (">" + x)) != SplitArgs(inner)
  {
    assert !IsBlank('>');
    hide *;
    var fields := SplitArgs(inner);
    var more := Join(fields) + (">" + x);
    SqueezeAppend(Join(fields), ">" + x);
    InSqueeze(">" + x, '>');
    SameSplit(fields, more);
  }

  /** Equal arguments come from texts that are equal up to blanks. */
  lemma SameSplit(fields: seq<string>, more: string)
    ensures SplitArgs(more) == fields ==> Squeeze(more) == Squeeze(Join(fields))
    ensures fields != [] ==> [fields[0]] + fields[1..] == fields
  {
    SplitKeepsText(more);
  }

  /** Printing an opening tag and parsing it gives the same tag exactly if its last field does not
      end in an odd number of backslashes. */
  lemma OpenAgainExactly(content: string)
    requires content != "" && content[0] == '<' && ParseOpen(content).Open?
    ensures var tag := ParseOpen(content); var fields := Fields(tag);
      tag.name != "" && Join(fields) != "" && Join(fields)[0] == tag.name[0] &&
      (ParseOpen(PrintedOpen(fields, tag.trailing)) == tag <==> !OddBackslashes(fields[|fields| - 1]))
  {
    var tag := ParseOpen(content);
    var inner := content[1..Scan(content, '>', false, false).at];
    OpenCut(content);
    PrintedScan(inner);
    hide Scan, ParseOpen, OddBackslashes, Join, SplitArgs;
    var fields := SplitArgs(inner);
    assert tag == Open(fields[0], fields[1..], tag.trailing);
    if OddBackslashes(fields[|fields| - 1]) { OpenBackward(inner, tag.trailing); } else { OpenForward(inner, tag.trailing); }
  }

  // ----- Closing tags -----

  lemma {:induction false} IndexFound(a: string, c: char, rest: string)
    requires c !in a
    ensures IndexOf(a + [c] + rest, c) == |a|
  {
    if a != "" {
      IndexFound(a[1..], c, rest);
      assert (a + [c] + rest)[1..] == a[1..] + [c] + rest;
    }
  }

  predicate NoSpaceAtEnds(s: string) {
    s != "" && !IsSpace(s[0]) && !IsSpace(s[|s| - 1])
  }

  lemma {:induction false} TrimmedEnds(s: string)
    requires TrimSpace(s) != ""
    ensures NoSpaceAtEnds(TrimSpace(s)) && forall c <- TrimSpace(s) :: c in s
    decreases |s|
  {
    if IsSpace(s[0]) { TrimmedEnds(s[1..]); }
    else if IsSpace(s[|s| - 1]) { TrimmedEnds(s[..|s| - 1]); }
  }

  /** A name that equals a closing tag up to case. */
  lemma FoldKeeps(a: string, b: string)
    requires EqualFold(a, b) && NoSpaceAtEnds(a) && '>' !in a
    ensures NoSpaceAtEnds(b) && '>' !in b
  {
    assert |ToLower(a)| == |ToLower(b)|;
    forall i | 0 <= i < |b| ensures b[i] != '>' && (IsSpace(b[i]) ==> IsSpace(a[i])) {
      assert ToLower(a)[i] == ToLower(b)[i];
      assert a[i] in a;
    }
  }

  /** Printing a closing tag with the name of the section, and parsing it. */
  lemma CloseAgain(content: string, name: string)
    requires ParseCloseTag(content).Tag? && EqualFold(ParseCloseTag(content).name, name)
    ensures var trailing := ParseCloseTag(content).trailing;
      name != "" && ParseCloseTag("</" + name + ">" + trailing) == Tag(name, trailing) && HasSuffix(content, trailing)
  {
    CloseCut(content);
    FoldKeeps(ParseCloseTag(content).name, name);
    CloseForward(name, ParseCloseTag(content).trailing);
  }

  lemma SuffixOf(s: string, m: nat, n: nat)
    requires m + n <= |s|
    ensures HasSuffix(s, s[m..][n..])
  {
    assert s[m..][n..] == s[|s| - |s[m..][n..]|..];
  }

  lemma CloseCut(content: string)
    requires ParseCloseTag(content).Tag?
    ensures var tag := ParseCloseTag(content);
      NoSpaceAtEnds(tag.name) && '>' !in tag.name && (tag.trailing == "" || tag.trailing[0] == '#') && HasSuffix(content, tag.trailing)
  {
    var end := IndexOf(content, '>');
    assert content[..2][1] == '/' && content[..2][0] == '<';
    TrimmedEnds(content[2..end]);
    var rest := content[end + 1..];
    var i := IndexOf(rest, '#');
    hide IndexOf, TrimSpace, NoSpaceAtEnds;
    SuffixOf(content, end + 1, i);
    assert content[|content|..] == "";
  }

  lemma CloseForward(name: string, trailing: string)
    requires NoSpaceAtEnds(name) && '>' !in name && (trailing == "" || trailing[0] == '#')
    ensures ParseCloseTag("</" + name + ">" + trailing) == Tag(name, trailing)
  {
    var s := "</" + name + ">" + trailing;
    IndexFound("</" + name, '>', trailing);
    assert s[..2] == "</" && s[2..2 + |name|] == name && s[|name| + 3..] == trailing;
    hide IndexOf;
    IndexAtStart(trailing);
    assert trailing[0..] == trailing;
  }

  lemma IndexAtStart(t: string)
    requires t == "" || t[0] == '#'
    ensures IndexOf(t, '#') == 0
  {
  }
}
