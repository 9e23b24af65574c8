/** What printing a parsed Apache configuration keeps of the text of its lines. */
module ApacheText {
  import opened Common
  import opened Text
  import opened ApacheScan
  import opened ApacheParser
  import opened ApacheLines
  import opened ApacheFixpoint
  import opened ApacheNormal

  /** The text without whitespace of any kind. */
  function Visible(s: string): string {
    if s == "" then "" else (if IsSpace(s[0]) then "" else [s[0]]) + Visible(s[1..])
  }

  lemma {:induction false} VisibleAppend(a: string, b: string)
    ensures Visible(a + b) == Visible(a) + Visible(b)
    decreases |a|
  {
    if a == "" {
      assert a + b == b;
    } else {
      VisibleAppend(a[1..], b);
      assert (a + b)[1..] == a[1..] + b && (a + b)[0] == a[0];
      Assoc(if IsSpace(a[0]) then "" else [a[0]], Visible(a[1..]), Visible(b));
    }
  }

  lemma {:induction false} VisibleNone(s: string)
    ensures Visible(s) == "" <==> forall c <- s :: IsSpace(c)
  {
    if s != "" {
      VisibleNone(s[1..]);
      assert s == [s[0]] + s[1..];
    }
  }

  lemma VisibleBlank(s: string)
    ensures Visible(s) == "" <==> TrimSpace(s) == ""
  {
    VisibleNone(s);
    TrimsAway(s);
  }

  lemma {:induction false} VisibleTrim(s: string)
    ensures Visible(TrimSpace(s)) == Visible(s)
    decreases |s|
  {
    if s != "" && IsSpace(s[0]) {
      VisibleTrim(s[1..]);
      assert "" + Visible(s[1..]) == Visible(s[1..]);
    } else if s != "" && IsSpace(s[|s| - 1]) {
      var t := s[..|s| - 1];
      VisibleTrim(t);
      assert s == t + [s[|s| - 1]];
      VisibleAppend(t, [s[|s| - 1]]);
      VisibleNone([s[|s| - 1]]);
    }
  }

  /** Blanks are whitespace, so equality up to blanks is enough. */
  lemma {:induction false} VisibleSqueeze(s: string)
    ensures Visible(Squeeze(s)) == Visible(s)
  {
    if s != "" {
      VisibleSqueeze(s[1..]);
      assert "" + Visible(s[1..]) == Visible(s[1..]) && "" + Squeeze(s[1..]) == Squeeze(s[1..]);
      if !IsBlank(s[0]) { assert ([s[0]] + Squeeze(s[1..]))[1..] == Squeeze(s[1..]); }
    }
  }

  lemma SameVisible(a: string, b: string)
    requires Squeeze(a) == Squeeze(b)
    ensures Visible(a) == Visible(b)
  {
    VisibleSqueeze(a);
    VisibleSqueeze(b);
  }

  /** Folding the case keeps whitespace where it is. */
  lemma {:induction false} FoldVisible(a: string, b: string)
    requires EqualFold(a, b)
    ensures |Visible(a)| == |Visible(b)| && (Visible(a) == Visible(b) ==> a == b)
  {
    assert |ToLower(a)| == |ToLower(b)|;
    if a != "" {
      assert ToLower(a)[0] == ToLower(b)[0] && (IsSpace(a[0]) <==> IsSpace(b[0]));
      assert IsSpace(a[0]) ==> a[0] == b[0];
      assert ToLower(a)[1..] == ToLower(a[1..]) && ToLower(b)[1..] == ToLower(b[1..]);
      FoldVisible(a[1..], b[1..]);
      hide ToLower;
      assert "" + Visible(a[1..]) == Visible(a[1..]) && "" + Visible(b[1..]) == Visible(b[1..]);
      if !IsSpace(a[0]) {
        assert Visible(a)[0] == a[0] && Visible(b)[0] == b[0];
        assert Visible(a)[1..] == Visible(a[1..]) && Visible(b)[1..] == Visible(b[1..]);
      }
      assert a == [a[0]] + a[1..] && b == [b[0]] + b[1..];
    }
  }

  // ----- Single lines -----

  /** What stands between the `>` of a closing tag and its comment. */
  function Dropped(content: string): string {
    var end := IndexOf(content, '>');
    if end == |content| then "" else content[end + 1..][..IndexOf(content[end + 1..], '#')]
  }

  /** The closing line names the section as it was opened, and has nothing but a comment behind. */
  predicate CleanClose(raw: string, name: string) {
    var content := SkipBlanks(raw);
    ParseCloseTag(content).Tag? && ParseCloseTag(content).name == name && TrimSpace(Dropped(content)) == ""
  }

  lemma CloseDef(content: string)
    requires ParseCloseTag(content).Tag?
    ensures var end := IndexOf(content, '>');
      2 <= end < |content| && content[end] == '>' && content[..2] == "</" &&
      ParseCloseTag(content).name == TrimSpace(content[2..end]) &&
      var rest := content[end + 1..]; var i := IndexOf(rest, '#');
      i <= |rest| && ParseCloseTag(content).trailing == rest[i..] && Dropped(content) == rest[..i]
  {
    assert content[..2][1] == '/' && content[..2][0] == '<';
    hide TrimSpace;
  }

  lemma CloseSlices(content: string)
    requires ParseCloseTag(content).Tag?
    ensures var tag := ParseCloseTag(content);
      exists inner :: tag.name == TrimSpace(inner) &&
        content == "</" + inner + ">" + Dropped(content) + tag.trailing
  {
    hide *;
    CloseDef(content);
    var end := IndexOf(content, '>');
    var inner, rest := content[2..end], content[end + 1..];
    var i := IndexOf(rest, '#');
    assert rest == rest[..i] + rest[i..];
    TagSlices(content, end);
    Assoc("</" + inner + ">", rest[..i], rest[i..]);
  }

  lemma TagSlices(content: string, end: nat)
    requires 2 <= end < |content| && content[end] == '>' && content[..2] == "</"
    ensures content == "</" + content[2..end] + ">" + content[end + 1..]
  {
    assert content == content[..2] + content[2..end] + content[end..end + 1] + content[end + 1..];
  }

  lemma VisibleFour(a: string, b: string, c: string, d: string, e: string)
    ensures Visible(a + b + c + d + e) == Visible(a) + Visible(b) + Visible(c) + Visible(d) + Visible(e)
  {
    VisibleAppend(a, b);
    VisibleAppend(a + b, c);
    VisibleAppend(a + b + c, d);
    VisibleAppend(a + b + c + d, e);
  }

  lemma VisibleIndent(raw: string)
    ensures Visible(raw) == Visible(SkipBlanks(raw))
  {
    SqueezeSkip(raw);
    SameVisible(raw, SkipBlanks(raw));
  }

  lemma VisibleIndented(indent: string, content: string)
    requires AllBlanks(indent)
    ensures Visible(indent + content) == Visible(content)
  {
    VisibleAppend(indent, content);
    VisibleNone(indent);
    assert "" + Visible(content) == Visible(content);
  }

  /** Equal texts around parts of equal length. */
  lemma Middle(x: string, a: string, b: string, d: string, z: string)
    requires |a| == |b|
    ensures x + a + ">" + d + z == x + b + ">" + "" + z <==> a == b && d == ""
  {
    var s, t := x + a + ">" + d + z, x + b + ">" + "" + z;
    if s == t {
      assert |d| == 0;
      assert s[|x|..|x| + |a|] == a && t[|x|..|x| + |a|] == b;
    }
  }

  /** A printed closing line keeps the text exactly when the line that was read is clean. */
  lemma CloseVisible(raw: string, name: string)
    requires ParseCloseTag(SkipBlanks(raw)).Tag? && EqualFold(ParseCloseTag(SkipBlanks(raw)).name, name)
    ensures var trailing := ParseCloseTag(SkipBlanks(raw)).trailing;
      Visible(CloseLine(Indent(raw), name, trailing)) == Visible(raw) <==> CleanClose(raw, name)
  {
    hide *;
    var content := SkipBlanks(raw);
    var tag := ParseCloseTag(content);
    CloseSlices(content);
    var inner :| tag.name == TrimSpace(inner) && content == "</" + inner + ">" + Dropped(content) + tag.trailing;
    IndentIsBlank(raw);
    CloseLineIs(Indent(raw), name, tag.trailing);
    VisibleIndented(Indent(raw), "</" + name + ">" + tag.trailing);
    VisibleIndent(raw);
    VisibleTrim(inner);
    VisibleFour("</", inner, ">", Dropped(content), tag.trailing);
    assert "</" + name + ">" + "" + tag.trailing == "</" + name + ">" + tag.trailing;
    VisibleFour("</", name, ">", "", tag.trailing);
    VisibleMark();
    FoldVisible(tag.name, name);
    VisibleBlank(Dropped(content));
    Middle(Visible("</"), Visible(tag.name), Visible(name), Visible(Dropped(content)), Visible(tag.trailing));
    CleanIs(raw, name);
  }

  lemma VisibleMark()
    ensures Visible(">") == ">" && Visible("") == ""
  {
    assert ">"[1..] == "";
  }

  lemma CleanIs(raw: string, name: string)
    ensures CleanClose(raw, name) <==> var content := SkipBlanks(raw);
      ParseCloseTag(content).Tag? && ParseCloseTag(content).name == name && TrimSpace(Dropped(content)) == ""
  {
  }

  /** A printed opening line keeps the text. */
  lemma OpenVisible(raw: string, fields: seq<string>, trailing: string)
    requires var content := SkipBlanks(raw);
      content != "" && content[0] == '<' && ParseOpen(content).Open? &&
      Fields(ParseOpen(content)) == fields && ParseOpen(content).trailing == trailing
    ensures Visible(OpenLine(Indent(raw), fields, trailing)) == Visible(raw)
  {
    hide *;
    var content := SkipBlanks(raw);
    var inner, pre := OpenSlices(content);
    IndentIsBlank(raw);
    OpenLineIs(Indent(raw), fields, trailing);
    PrintedIs(fields, trailing);
    VisibleIndented(Indent(raw), PrintedOpen(fields, trailing));
    VisibleIndent(raw);
    SplitKeepsText(inner);
    SameVisible(inner, Join(fields));
    VisibleFour("<", inner, ">", pre, trailing);
    VisibleFour("<", Join(fields), ">", "", trailing);
    VisibleBlank(pre);
    VisibleMark();
    assert "<" + Join(fields) + ">" + "" + trailing == "<" + Join(fields) + ">" + trailing;
  }

  lemma OpenSlices(content: string) returns (inner: string, pre: string)
    requires content != "" && content[0] == '<' && ParseOpen(content).Open?
    ensures Fields(ParseOpen(content)) == SplitArgs(inner) && TrimSpace(pre) == ""
    ensures content == "<" + inner + ">" + pre + ParseOpen(content).trailing
  {
    hide *;
    OpenParts(content);
    OpenRest(content);
    var end := Scan(content, '>', false, false).at;
    var rest := content[end + 1..];
    var i := IndexOf(rest, '#');
    inner, pre := content[1..end], rest[..i];
    AngleSlices(content, end, i);
    assert rest == pre + rest[i..];
    Assoc("<", inner, ">" + rest);
    Assoc("<" + inner, ">", rest);
    Assoc("<" + inner + ">", pre, rest[i..]);
  }

  lemma OpenRest(content: string)
    requires content != "" && content[0] == '<' && ParseOpen(content).Open?
    ensures var stop := Scan(content, '>', false, false);
      stop.Found? && stop.at < |content| &&
      var rest := content[stop.at + 1..]; IndexOf(rest, '#') <= |rest| && TrimSpace(rest[..IndexOf(rest, '#')]) == ""
  {
  }

  // ----- All lines -----

  /** The printed lines have the text of the lines they were read from. */
  predicate SameText(printed: seq<Line>, lines: seq<Line>) {
    |printed| <= |lines| && forall i :: 0 <= i < |printed| ==> Visible(printed[i].raw) == Visible(lines[i].raw)
  }

  /** Every line that closes a section is clean. */
  predicate ClosesClean(lines: seq<Line>, close: string)
    decreases |lines|
  {
    if lines == [] then true
    else if IsOpen(lines[0].raw) then
      match ParseSection(lines)
      case BadSection => true
      case GoodSection(s, rest) =>
        ClosesClean(lines[1..], s.name) && CleanClose(lines[|lines| - |rest| - 1].raw, s.name) &&
        ClosesClean(rest, close)
    else if !IsComment(lines[0].raw) && HasPrefix(SkipBlanks(lines[0].raw), "</") then true
    else ClosesClean(lines[1..], close)
  }

  lemma SameTextAppend(a: seq<Line>, b: seq<Line>, lines: seq<Line>)
    requires |a| + |b| <= |lines|
    ensures SameText(a + b, lines) <==> SameText(a, lines) && SameText(b, lines[|a|..])
  {
    hide Visible;
    var all, back := a + b, lines[|a|..];
    assert forall i :: 0 <= i < |a| ==> all[i] == a[i];
    assert forall i :: 0 <= i < |b| ==> all[|a| + i] == b[i] && back[i] == lines[|a| + i];
    if SameText(all, lines) {
      forall i | 0 <= i < |b| ensures Visible(b[i].raw) == Visible(back[i].raw) {
        assert all[|a| + i] == b[i];
      }
    }
    if SameText(a, lines) && SameText(b, back) {
      forall i | 0 <= i < |all| ensures Visible(all[i].raw) == Visible(lines[i].raw) {
        if i >= |a| { assert all[i] == b[i - |a|]; }
      }
    }
  }

  lemma SameTextOne(l: Line, lines: seq<Line>)
    requires lines != []
    ensures SameText([l], lines) <==> Visible(l.raw) == Visible(lines[0].raw)
  {
  }

  lemma SameTextNone(lines: seq<Line>)
    ensures SameText([], lines)
  {
  }

  lemma CleanAtEnd(lines: seq<Line>, close: string)
    requires Ends(lines, close)
    ensures ClosesClean(lines, close)
  {
    if lines != [] { CloseIsNoOpen(lines[0].raw); }
  }

  lemma CloseIsNoOpen(raw: string)
    requires HasPrefix(SkipBlanks(raw), "</")
    ensures !IsOpen(raw)
  {
  }

  lemma CleanOne(lines: seq<Line>, close: string, nodes: seq<Node>, rest: seq<Line>)
    requires lines != [] && nodes != [] && (FirstIsComment(lines, close, nodes, rest) || FirstIsDirective(lines, close, nodes, rest))
    ensures ClosesClean(lines, close) == ClosesClean(lines[1..], close)
    ensures |NodeLines(nodes[0])| == 1 && SameText(NodeLines(nodes[0]), lines)
  {
    var raw := lines[0].raw;
    if FirstIsDirective(lines, close, nodes, rest) {
      DirectiveStarts(raw);
      DirectiveAgain(raw, lines[0].newline);
      SameVisible(raw, DirectiveLine(nodes[0]));
    }
    hide SkipBlanks, TrimSpace, HasPrefix, Visible, DirectiveLine, ParseDirective, Indent;
  }

  lemma CleanSection(lines: seq<Line>, close: string, s: Node, stop: seq<Line>)
    requires lines != [] && IsOpen(lines[0].raw) && stop != [] && s.Section?
    requires ParseSection(lines) == GoodSection(s, stop[1..]) && Consumed(lines[1..], s.body, stop)
    ensures ClosesClean(lines, close) <==>
      ClosesClean(lines[1..], s.name) && CleanClose(stop[0].raw, s.name) && ClosesClean(stop[1..], close)
  {
    hide ParseSection, IsOpen, CleanClose, NodesLines;
    var k := |NodesLines(s.body)|;
    assert stop == lines[1..][k..] && stop[0] == lines[1 + k];
  }

  lemma SectionText(lines: seq<Line>, s: Node, stop: seq<Line>)
    requires lines != [] && s.Section? && SectionRead(lines, s, stop) && Consumed(lines[1..], s.body, stop)
    requires Closes(stop[0].raw, s.name)
    ensures |NodeLines(s)| == |NodesLines(s.body)| + 2 <= |lines|
    ensures SameText(NodeLines(s), lines) <==>
      SameText(NodesLines(s.body), lines[1..]) && CleanClose(stop[0].raw, s.name)
  {
    hide *;
    var body := NodesLines(s.body);
    var fields := [s.name] + s.args;
    var open := Line(OpenLine(s.indent, fields, s.trailing), s.newline);
    var end := Line(CloseLine(s.closeIndent, s.name, s.closeTrailing), s.closeNewline);
    SectionParts(lines, s, stop);
    SectionNodeLines(s);
    ConsumedTail(lines[1..], s.body, stop);
    ConsumedSize(lines[1..], s.body, stop);
    OpenVisible(lines[0].raw, fields, s.trailing);
    CloseVisible(stop[0].raw, s.name);
    SameTextOne(open, lines);
    SameTextOne(end, stop);
    assert lines[1..][|body|..] == lines[|[open] + body|..];
    SameTextAppend([open], body, lines);
    SameTextAppend([open] + body, [end], lines);
  }

  lemma ConsumedSize(lines: seq<Line>, nodes: seq<Node>, stop: seq<Line>)
    requires Consumed(lines, nodes, stop)
    ensures |NodesLines(nodes)| + |stop| == |lines|
  {
  }

  lemma SectionParts(lines: seq<Line>, s: Node, stop: seq<Line>)
    requires lines != [] && s.Section? && SectionRead(lines, s, stop) && Closes(stop[0].raw, s.name)
    ensures var content := SkipBlanks(lines[0].raw);
      content != "" && content[0] == '<' && ParseOpen(content).Open? && Fields(ParseOpen(content)) == [s.name] + s.args &&
      ParseOpen(content).trailing == s.trailing && s.indent == Indent(lines[0].raw) && stop != []
    ensures var tag := ParseCloseTag(SkipBlanks(stop[0].raw));
      tag.Tag? && EqualFold(tag.name, s.name) && s.closeTrailing == tag.trailing && s.closeIndent == Indent(stop[0].raw)
  {
    hide ParseOpen, ParseCloseTag, SkipBlanks, Indent, EqualFold, ParseBody, IsComment, HasPrefix;
  }

  /** The lines of what was parsed have the text of the lines that were read exactly when every
      closing line is clean. */
  lemma {:induction false} LinesText(lines: seq<Line>, close: string, nodes: seq<Node>, rest: seq<Line>)
    requires ParseBody(lines, close) == Good(nodes, rest)
    ensures SameText(NodesLines(nodes), lines) <==> ClosesClean(lines, close)
    decreases |lines|
  {
    hide *;
    ReadCases(lines, close, nodes, rest);
    LinesRead(lines, close, nodes, rest);
    ConsumedSize(lines, nodes, rest);
    if nodes == [] {
      KeptNone(lines);
      SameTextNone(lines);
      CleanAtEnd(lines, close);
    } else if FirstIsSection(lines, close, nodes, rest) {
      SectionIsFirst(lines, close, nodes, rest);
      var s := ParseSection(lines).section;
      var stop := SectionCase(lines);
      SectionBody(lines, s, stop);
      LinesRead(lines[1..], s.name, s.body, stop);
      StopIsShorter(lines[1..], s.body, stop);
      EndsCloses(stop, s.name);
      LinesText(lines[1..], s.name, s.body, stop);
      LinesText(stop[1..], close, nodes[1..], rest);
      CleanSection(lines, close, s, stop);
      SectionText(lines, s, stop);
      ConsumedTail(lines[1..], s.body, stop);
      var k := |NodesLines(s.body)|;
      assert stop[1..] == lines[k + 2..];
      StableCons(nodes);
      SameTextAppend(NodeLines(s), NodesLines(nodes[1..]), lines);
    } else {
      OneIsFirst(lines, close, nodes, rest);
      LinesText(lines[1..], close, nodes[1..], rest);
      CleanOne(lines, close, nodes, rest);
      StableCons(nodes);
      SameTextAppend(NodeLines(nodes[0]), NodesLines(nodes[1..]), lines);
    }
  }

  /** Printing a parsed configuration writes one line for each logical line, and keeps the visible
      text of all of them exactly when each closing line names its section as it was opened and has
      nothing but a comment behind. */
  lemma TextKept(src: string, nodes: seq<Node>)
    requires Parse(src) == Config(nodes)
    ensures |NodesLines(nodes)| == |LogicalLines(src)| && NodesText(nodes) == TextOf(NodesLines(nodes))
    ensures SameText(NodesLines(nodes), LogicalLines(src)) <==> ClosesClean(LogicalLines(src), "")
  {
    hide *;
    ParseIs(src, nodes);
    LinesRead(LogicalLines(src), "", nodes, []);
    ConsumedAll(LogicalLines(src), nodes);
    LinesText(LogicalLines(src), "", nodes, []);
    NodesTextIs(nodes);
  }
}
