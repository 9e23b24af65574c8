/** Parsing what was printed: when the text of a parsed Apache configuration is a fixed point. */
module ApacheNormal {
  import opened Common
  import opened Text
  import opened ApacheScan
  import opened ApacheParser
  import opened ApacheLines
  import opened ApacheFixpoint

  // ----- Lines and text -----

  function TextOf(lines: seq<Line>): string {
    if lines == [] then "" else lines[0].raw + lines[0].newline + TextOf(lines[1..])
  }

  lemma {:induction false} TextAppend(a: seq<Line>, b: seq<Line>)
    ensures TextOf(a + b) == TextOf(a) + TextOf(b)
    decreases |a|
  {
    if a == [] {
      assert a + b == b && "" + TextOf(b) == TextOf(b);
    } else {
      TextAppend(a[1..], b);
      assert (a + b)[1..] == a[1..] + b;
      Assoc(a[0].raw + a[0].newline, TextOf(a[1..]), TextOf(b));
    }
  }

  lemma TextOne(l: Line)
    ensures TextOf([l]) == l.raw + l.newline
  {
    assert [l][1..] == [] && l.raw + l.newline + "" == l.raw + l.newline;
  }

  lemma {:induction false} NodesTextIs(nodes: seq<Node>)
    ensures NodesText(nodes) == TextOf(NodesLines(nodes))
    decreases nodes, 0
  {
    if nodes != [] {
      NodeTextIs(nodes[0]);
      NodesTextIs(nodes[1..]);
      hide NodeText, NodeLines;
      TextAppend(NodeLines(nodes[0]), NodesLines(nodes[1..]));
    }
  }

  lemma {:induction false} NodeTextIs(n: Node)
    ensures NodeText(n) == TextOf(NodeLines(n))
    decreases n, 1
  {
    if n.Section? {
      var open := Line(OpenLine(n.indent, [n.name] + n.args, n.trailing), n.newline);
      var end := Line(CloseLine(n.closeIndent, n.name, n.closeTrailing), n.closeNewline);
      NodesTextIs(n.body);
      hide OpenLine, CloseLine, NodesLines, NodesText, Join;
      TextAppend([open] + NodesLines(n.body), [end]);
      TextAppend([open], NodesLines(n.body));
      TextOne(open);
      TextOne(end);
    } else if n.Directive? {
      TextOne(Line(DirectiveLine(n), n.newline));
    } else {
      TextOne(Line(n.verbatim, n.newline));
    }
  }

  predicate NoNewlines(lines: seq<Line>) {
    forall i :: 0 <= i < |lines| ==> '\n' !in lines[i].raw
  }

  /** Lines as they stand in a file: each but the last ends in a newline, and there is no empty line
      without one. */
  predicate Physical(lines: seq<Line>) {
    NoNewlines(lines) && forall i :: 0 <= i < |lines| ==>
      lines[i].newline == "\n" || (i == |lines| - 1 && lines[i].newline == "" && lines[i].raw != "")
  }

  predicate NoneContinued(lines: seq<Line>) {
    forall i :: 0 <= i < |lines| ==> !Continued(lines[i].raw)
  }

  /** Joining continuation lines. */
  function Merge(lines: seq<Line>, pending: string): seq<Line>
    decreases |lines|
  {
    if lines == [] then if pending != "" then [Line(pending, "")] else []
    else
      var raw := lines[0].raw;
      if Continued(raw) then Merge(lines[1..], pending + raw[..|raw| - 1] + " ")
      else [Line(pending + raw, lines[0].newline)] + Merge(lines[1..], "")
  }

  lemma {:induction false} FirstLineEnd(raw: string, rest: string)
    requires '\n' !in raw
    ensures LineEnd(raw + "\n" + rest) == |raw| && LineEnd(raw) == |raw|
  {
    if raw != "" {
      FirstLineEnd(raw[1..], rest);
      assert (raw + "\n" + rest)[1..] == raw[1..] + "\n" + rest;
    }
  }

  lemma LinesStep(raw: string, newline: string, rest: string, pending: string)
    requires '\n' !in raw && (newline == "\n" || (newline == "" && raw != "" && rest == ""))
    ensures LinesFrom(raw + newline + rest, pending) ==
      if Continued(raw) then LinesFrom(rest, pending + raw[..|raw| - 1] + " ")
      else [Line(pending + raw, newline)] + LinesFrom(rest, "")
  {
    var src := raw + newline + rest;
    FirstLineEnd(raw, rest);
    hide LineEnd;
    if newline == "" {
      assert src == raw && src[..|raw|] == raw;
    } else {
      assert src[..|raw|] == raw && src[|raw| + 1..] == rest;
    }
  }

  /** `logicalLines` of the text of physical lines. */
  lemma {:induction false} TextMerges(lines: seq<Line>, pending: string)
    requires Physical(lines)
    ensures LinesFrom(TextOf(lines), pending) == Merge(lines, pending)
    decreases |lines|
  {
    if lines != [] {
      var raw := lines[0].raw;
      if lines[0].newline == "" { assert lines[1..] == []; }
      LinesStep(raw, lines[0].newline, TextOf(lines[1..]), pending);
      TextMerges(lines[1..], if Continued(raw) then pending + raw[..|raw| - 1] + " " else "");
      hide LinesFrom;
    }
  }

  lemma {:induction false} MergeSame(lines: seq<Line>)
    requires NoneContinued(lines)
    ensures Merge(lines, "") == lines
    decreases |lines|
  {
    if lines != [] {
      MergeSame(lines[1..]);
      assert "" + lines[0].raw == lines[0].raw && lines == [lines[0]] + lines[1..];
    }
  }

  /** Joining lines leaves fewer of them. */
  lemma {:induction false} MergeCount(lines: seq<Line>, pending: string)
    ensures |Merge(lines, pending)| <= if lines == [] then 1 else |lines|
    decreases |lines|
  {
    if lines != [] {
      var raw := lines[0].raw;
      MergeCount(lines[1..], if Continued(raw) then pending + raw[..|raw| - 1] + " " else "");
    }
  }

  /** If none is lost, at most the last line is continued. */
  lemma {:induction false} MergeFull(lines: seq<Line>)
    requires lines != [] && |Merge(lines, "")| == |lines|
    ensures var n := |lines| - 1; var last := lines[n].raw;
      (forall i :: 0 <= i < n ==> !Continued(lines[i].raw)) &&
      (Continued(last) ==> Merge(lines, "")[n].raw == last[..|last| - 1] + " ")
    decreases |lines|
  {
    var raw := lines[0].raw;
    if Continued(raw) {
      var cut := "" + raw[..|raw| - 1] + " ";
      MergeCount(lines[1..], cut);
      assert |lines| == 1;
      assert lines[1..] == [] && Merge([], cut) == [Line(cut, "")];
      assert cut == raw[..|raw| - 1] + " ";
    } else if |lines| > 1 {
      assert Merge(lines, "") == [Line("" + raw, lines[0].newline)] + Merge(lines[1..], "");
      MergeFull(lines[1..]);
      assert lines[1..][|lines| - 2] == lines[|lines| - 1];
      assert forall i :: 1 <= i < |lines| ==> lines[1..][i - 1] == lines[i];
    }
  }

  /** What `logicalLines` delivers. */
  lemma {:induction false} LogicalIsPhysical(src: string, pending: string)
    requires '\n' !in pending && !Continued(pending)
    ensures Physical(LinesFrom(src, pending)) && NoneContinued(LinesFrom(src, pending))
    decreases |src|
  {
    if src != "" {
      var n := LineEnd(src);
      var line := src[..n];
      var rest := if n < |src| then src[n + 1..] else "";
      if Continued(line) {
        LogicalIsPhysical(rest, pending + line[..n - 1] + " ");
      } else {
        LogicalIsPhysical(rest, "");
        NotContinued(pending, line);
        hide Continued;
        assert LinesFrom(src, pending) == [Line(pending + line, if n < |src| then "\n" else "")] + LinesFrom(rest, "");
        if n == |src| { assert LinesFrom(rest, "") == []; }
      }
    }
  }

  lemma NotContinued(pending: string, line: string)
    requires !Continued(pending) && !Continued(line)
    ensures !Continued(pending + line)
  {
  }

  // ----- What printing keeps of the lines -----

  lemma SameSqueezeSameChars(a: string, b: string)
    requires Squeeze(a) == Squeeze(b)
    ensures forall c: char :: !IsBlank(c) ==> (c in a <==> c in b)
  {
    forall c: char | !IsBlank(c) ensures c in a <==> c in b {
      InSqueeze(a, c);
      InSqueeze(b, c);
    }
  }

  lemma SuffixChars(s: string, t: string)
    requires HasSuffix(s, t)
    ensures (forall c <- t :: c in s) && (t != "" ==> s != "" && s[|s| - 1] == t[|t| - 1])
  {
    assert forall i :: 0 <= i < |t| ==> t[i] == s[|s| - |t| + i];
  }

  lemma ContentSuffix(raw: string)
    ensures HasSuffix(raw, SkipBlanks(raw))
  {
    SkipKeepsEnd(raw);
  }

  /** A printed directive line has no newline, and is continued only if nothing follows a last field
      that ends in a backslash. */
  lemma DirectiveLineKept(raw: string, newline: string)
    requires IsDirective(raw)
    ensures DirectiveStart(SkipBlanks(raw))
    ensures var d := ParseDirective(Indent(raw), SkipBlanks(raw), newline); var l := DirectiveLine(d);
      l != "" && ('\n' !in raw ==> '\n' !in l) &&
      (!Continued(raw) ==> (Continued(l) <==> !StableDirective(d)))
  {
    DirectiveAgain(raw, newline);
    var d := ParseDirective(Indent(raw), SkipBlanks(raw), newline);
    var l := DirectiveLine(d);
    SameSqueezeSameChars(l, raw);
    DirectiveEnd(raw, newline);
    hide DirectiveLine, ParseDirective, IsDirective, Indent, SkipBlanks, Squeeze;
  }

  /** No directive without a comment ends in a backslash. */
  predicate StableDirective(d: Node)
    requires d.Directive?
  {
    d.trailing != "" || !Continued(LastField(d))
  }

  lemma DirectiveEnd(raw: string, newline: string)
    requires IsDirective(raw)
    ensures DirectiveStart(SkipBlanks(raw))
    ensures var d := ParseDirective(Indent(raw), SkipBlanks(raw), newline);
      DirectiveLine(d) != "" &&
      (if d.trailing == "" then Continued(DirectiveLine(d)) <==> Continued(LastField(d))
       else Continued(DirectiveLine(d)) <==> Continued(raw))
  {
    hide *;
    DirectiveStarts(raw);
    var content := SkipBlanks(raw);
    var d := ParseDirective(Indent(raw), content, newline);
    DirectiveFields(raw, newline);
    ContentSuffix(raw);
    SuffixChars(raw, content);
    SuffixChars(content, d.trailing);
    DirectiveLineEnd(d);
    ContinuedIs(raw);
    ContinuedIs(DirectiveLine(d));
    ContinuedIs(LastField(d));
  }

  lemma DirectiveFields(raw: string, newline: string)
    requires DirectiveStart(SkipBlanks(raw))
    ensures var d := ParseDirective(Indent(raw), SkipBlanks(raw), newline); var j := Join([d.name] + d.args); var f := LastField(d);
      d.Directive? && j != "" && f != "" && j[|j| - 1] == f[|f| - 1] && HasSuffix(SkipBlanks(raw), d.trailing)
  {
    var content := SkipBlanks(raw);
    var d := ParseDirective(Indent(raw), content, newline);
    var fields := SplitArgs(DirectiveBody(content));
    DirectiveHasName(content);
    OddJoin(fields);
    assert [d.name] + d.args == fields && LastField(d) == fields[|fields| - 1];
    DirectiveUncut(content);
    hide SplitArgs, Join, DirectiveBody, DirectiveTrailing, SkipBlanks, Indent, OddBackslashes;
    assert content[|content| - |d.trailing|..] == d.trailing;
  }

  lemma DirectiveLineEnd(d: Node)
    requires d.Directive? && Join([d.name] + d.args) != ""
    ensures var l, j := DirectiveLine(d), Join([d.name] + d.args);
      l != "" && l[|l| - 1] == if d.trailing == "" then j[|j| - 1] else d.trailing[|d.trailing| - 1]
  {
    hide Join;
  }

  /** The printed lines of a section have no newline and are never continued. */
  lemma OpenLineKept(lines: seq<Line>, s: Node, stop: seq<Line>)
    requires lines != [] && s.Section? && SectionRead(lines, s, stop)
    ensures var l := OpenLine(s.indent, [s.name] + s.args, s.trailing);
      l != "" && ('\n' !in lines[0].raw ==> '\n' !in l && '\n' !in s.name) && (!Continued(lines[0].raw) ==> !Continued(l))
  {
    hide *;
    var raw := lines[0].raw;
    var content := SkipBlanks(raw);
    var fields := [s.name] + s.args;
    OpenLineRead(lines, s, stop);
    OpenLineEnd(s.indent, fields, s.trailing);
    NameInFields(s.name, s.args);
    ContentSuffix(raw);
    SuffixChars(raw, content);
    SuffixChars(content, s.trailing);
    ContinuedIs(raw);
    ContinuedIs(OpenLine(s.indent, fields, s.trailing));
  }

  lemma ContinuedIs(line: string)
    ensures Continued(line) <==> line != "" && line[|line| - 1] == '\\'
  {
  }

  lemma OpenLineRead(lines: seq<Line>, s: Node, stop: seq<Line>)
    requires lines != [] && s.Section? && SectionRead(lines, s, stop)
    ensures var content := SkipBlanks(lines[0].raw);
      HasSuffix(content, s.trailing) && '\n' !in s.indent && ('\n' !in content ==> '\n' !in Join([s.name] + s.args))
  {
    var content := SkipBlanks(lines[0].raw);
    OpenCut(content);
    IndentIsBlank(lines[0].raw);
    var inner := content[1..Scan(content, '>', false, false).at];
    assert Fields(ParseOpen(content)) == [s.name] + s.args;
    SplitKeepsText(inner);
    SameSqueezeSameChars(Join([s.name] + s.args), inner);
    hide Scan, SplitArgs, Join, ParseOpen, ParseBody, ParseCloseTag, SkipBlanks, Indent, Squeeze;
    assert forall c <- inner :: c in content;
  }

  lemma OpenLineEnd(indent: string, fields: seq<string>, trailing: string)
    ensures var l := OpenLine(indent, fields, trailing);
      l != "" && l[|l| - 1] == (if trailing == "" then '>' else trailing[|trailing| - 1]) &&
      ('\n' !in indent && '\n' !in Join(fields) && '\n' !in trailing ==> '\n' !in l)
  {
    hide Join;
  }

  lemma CloseLineEnd(indent: string, name: string, trailing: string)
    ensures var l := CloseLine(indent, name, trailing);
      l != "" && l[|l| - 1] == (if trailing == "" then '>' else trailing[|trailing| - 1]) &&
      ('\n' !in indent && '\n' !in name && '\n' !in trailing ==> '\n' !in l)
  {
  }

  lemma NameInFields(name: string, args: seq<string>)
    ensures forall c <- name :: c in Join([name] + args)
  {
    if args == [] { JoinOne(name); } else { JoinMore(name, args); }
  }

  lemma CloseLineKept(s: Node, raw: string)
    requires s.Section? && ParseCloseTag(SkipBlanks(raw)).Tag? && s.closeIndent == Indent(raw)
    requires s.closeTrailing == ParseCloseTag(SkipBlanks(raw)).trailing
    ensures var l := CloseLine(s.closeIndent, s.name, s.closeTrailing);
      l != "" && ('\n' !in raw && '\n' !in s.name ==> '\n' !in l) && (!Continued(raw) ==> !Continued(l))
  {
    hide *;
    var content := SkipBlanks(raw);
    CloseCut(content);
    CloseLineEnd(s.closeIndent, s.name, s.closeTrailing);
    NoNewlineInIndent(raw);
    ContentSuffix(raw);
    SuffixChars(raw, content);
    SuffixChars(content, s.closeTrailing);
    ContinuedIs(raw);
    ContinuedIs(CloseLine(s.closeIndent, s.name, s.closeTrailing));
  }

  lemma NoNewlineInIndent(raw: string)
    ensures '\n' !in Indent(raw)
  {
    IndentIsBlank(raw);
  }

  predicate DirectivesStable(nodes: seq<Node>)
    decreases nodes
  {
    nodes == [] ||
    ((nodes[0].Directive? ==> StableDirective(nodes[0])) && (nodes[0].Section? ==> DirectivesStable(nodes[0].body)) &&
     DirectivesStable(nodes[1..]))
  }

  /** How the printed lines relate to the lines that were read. */
  predicate Kept(printed: seq<Line>, lines: seq<Line>, stable: bool) {
    |printed| <= |lines| && NoNewlines(printed) && (NoneContinued(printed) <==> stable) &&
    forall i :: 0 <= i < |printed| ==> printed[i].newline == lines[i].newline && (printed[i].raw != "" || printed[i].raw == lines[i].raw)
  }

  predicate Sane(lines: seq<Line>) {
    NoNewlines(lines) && NoneContinued(lines)
  }

  lemma SaneTail(lines: seq<Line>, k: nat)
    requires Sane(lines) && k <= |lines|
    ensures Sane(lines[k..])
  {
  }

  lemma NoneContinuedAppend(a: seq<Line>, b: seq<Line>)
    ensures NoneContinued(a + b) <==> NoneContinued(a) && NoneContinued(b)
  {
    var all := a + b;
    assert a == all[..|a|] && b == all[|a|..];
    hide Continued;
    if NoneContinued(a) && NoneContinued(b) {
      forall i | 0 <= i < |all| ensures !Continued(all[i].raw) { if i >= |a| { assert all[i] == b[i - |a|]; } }
    }
  }

  lemma NoNewlinesAppend(a: seq<Line>, b: seq<Line>)
    requires NoNewlines(a) && NoNewlines(b)
    ensures NoNewlines(a + b)
  {
    var all := a + b;
    forall i | 0 <= i < |all| ensures '\n' !in all[i].raw { if i >= |a| { assert all[i] == b[i - |a|]; } }
  }

  lemma KeptAppend(a: seq<Line>, b: seq<Line>, lines: seq<Line>, sa: bool, sb: bool)
    requires Kept(a, lines, sa) && |a| <= |lines| && Kept(b, lines[|a|..], sb)
    ensures Kept(a + b, lines, sa && sb)
  {
    NoneContinuedAppend(a, b);
    NoNewlinesAppend(a, b);
    hide NoneContinued, NoNewlines;
    var all := a + b;
    forall i | 0 <= i < |all|
      ensures all[i].newline == lines[i].newline && (all[i].raw != "" || all[i].raw == lines[i].raw)
    {
      if i >= |a| { assert all[i] == b[i - |a|] && lines[|a|..][i - |a|] == lines[i]; }
    }
  }

  lemma KeptOne(l: Line, lines: seq<Line>, stable: bool)
    requires lines != [] && '\n' !in l.raw && (Continued(l.raw) <==> !stable)
    requires l.newline == lines[0].newline && (l.raw != "" || l.raw == lines[0].raw)
    ensures Kept([l], lines, stable)
  {
    assert [l][0] == l;
  }

  lemma KeptNone(lines: seq<Line>)
    ensures Kept([], lines, true) && DirectivesStable([]) && NodesLines([]) == []
  {
  }

  lemma SaneFirst(lines: seq<Line>)
    requires Sane(lines) && lines != []
    ensures '\n' !in lines[0].raw && !Continued(lines[0].raw)
  {
  }

  lemma KeptComment(lines: seq<Line>, close: string, nodes: seq<Node>, rest: seq<Line>)
    requires lines != [] && nodes != [] && FirstIsComment(lines, close, nodes, rest) && Sane(lines)
    ensures Kept(NodeLines(nodes[0]), lines, true) && nodes[0].CommentLine? && |NodeLines(nodes[0])| == 1
  {
    SaneFirst(lines);
    KeptOne(Line(lines[0].raw, lines[0].newline), lines, true);
  }

  lemma KeptDirective(lines: seq<Line>, close: string, nodes: seq<Node>, rest: seq<Line>)
    requires lines != [] && nodes != [] && FirstIsDirective(lines, close, nodes, rest) && Sane(lines)
    ensures nodes[0].Directive? && Kept(NodeLines(nodes[0]), lines, StableDirective(nodes[0])) && |NodeLines(nodes[0])| == 1
  {
    var raw, newline := lines[0].raw, lines[0].newline;
    SaneFirst(lines);
    DirectiveLineKept(raw, newline);
    hide IsDirective, DirectiveLine, Indent, SkipBlanks, ParseBody, Sane, StableDirective;
    KeptOne(Line(DirectiveLine(nodes[0]), newline), lines, StableDirective(nodes[0]));
  }

  lemma OpenSame(lines: seq<Line>, s: Node, stop: seq<Line>)
    requires lines != [] && s.Section? && SectionRead(lines, s, stop)
    ensures s.newline == lines[0].newline && stop != [] && s.closeNewline == stop[0].newline
    ensures ParseCloseTag(SkipBlanks(stop[0].raw)).Tag? && s.closeIndent == Indent(stop[0].raw)
    ensures s.closeTrailing == ParseCloseTag(SkipBlanks(stop[0].raw)).trailing
  {
  }

  lemma KeptSection(lines: seq<Line>, s: Node, stop: seq<Line>)
    requires lines != [] && s.Section? && SectionRead(lines, s, stop) && Sane(lines)
    requires Consumed(lines[1..], s.body, stop) && Kept(NodesLines(s.body), lines[1..], DirectivesStable(s.body))
    ensures Kept(NodeLines(s), lines, DirectivesStable(s.body)) && |NodeLines(s)| == |NodesLines(s.body)| + 2
  {
    hide *;
    var body := NodesLines(s.body);
    var k := |body|;
    var open := Line(OpenLine(s.indent, [s.name] + s.args, s.trailing), s.newline);
    var end := Line(CloseLine(s.closeIndent, s.name, s.closeTrailing), s.closeNewline);
    OpenSame(lines, s, stop);
    SaneFirst(lines);
    SaneTail(lines, 1);
    ConsumedTail(lines[1..], s.body, stop);
    SaneTail(lines[1..], k);
    SaneFirst(stop);
    OpenLineKept(lines, s, stop);
    CloseLineKept(s, stop[0].raw);
    KeptOne(open, lines, true);
    KeptOne(end, stop, true);
    assert lines[1..][k..] == lines[|[open] + body|..];
    KeptAppend([open], body, lines, true, DirectivesStable(s.body));
    KeptAppend([open] + body, [end], lines, DirectivesStable(s.body), true);
    SectionNodeLines(s);
  }

  lemma ConsumedTail(lines: seq<Line>, nodes: seq<Node>, stop: seq<Line>)
    requires Consumed(lines, nodes, stop)
    ensures |NodesLines(nodes)| <= |lines| && lines[|NodesLines(nodes)|..] == stop
  {
  }

  lemma SectionNodeLines(s: Node)
    requires s.Section?
    ensures NodeLines(s) == [Line(OpenLine(s.indent, [s.name] + s.args, s.trailing), s.newline)] + NodesLines(s.body) +
      [Line(CloseLine(s.closeIndent, s.name, s.closeTrailing), s.closeNewline)]
  {
  }

  lemma StableCons(nodes: seq<Node>)
    requires nodes != []
    ensures NodesLines(nodes) == NodeLines(nodes[0]) + NodesLines(nodes[1..])
    ensures nodes[0].Directive? ==> (DirectivesStable(nodes) <==> StableDirective(nodes[0]) && DirectivesStable(nodes[1..]))
    ensures nodes[0].Section? ==> (DirectivesStable(nodes) <==> DirectivesStable(nodes[0].body) && DirectivesStable(nodes[1..]))
    ensures nodes[0].CommentLine? ==> (DirectivesStable(nodes) <==> true && DirectivesStable(nodes[1..]))
  {
  }

  /** The printed lines of what was parsed are sane but for the unstable directives. */
  lemma {:induction false} LinesKept(lines: seq<Line>, close: string, nodes: seq<Node>, rest: seq<Line>)
    requires ParseBody(lines, close) == Good(nodes, rest) && Sane(lines)
    ensures Kept(NodesLines(nodes), lines, DirectivesStable(nodes))
    decreases |lines|
  {
    hide *;
    ReadCases(lines, close, nodes, rest);
    if nodes == [] {
      KeptNone(lines);
    } else if FirstIsSection(lines, close, nodes, rest) {
      SectionIsFirst(lines, close, nodes, rest);
      var s := ParseSection(lines).section;
      var stop := SectionCase(lines);
      SectionBody(lines, s, stop);
      LinesRead(lines[1..], s.name, s.body, stop);
      StopIsShorter(lines[1..], s.body, stop);
      SaneTail(lines, 1);
      LinesKept(lines[1..], s.name, s.body, stop);
      KeptSection(lines, s, stop);
      var k := |NodesLines(s.body)|;
      ConsumedTail(lines[1..], s.body, stop);
      assert stop[1..] == lines[k + 2..];
      SaneTail(lines, k + 2);
      LinesKept(stop[1..], close, nodes[1..], rest);
      KeptAppend(NodeLines(s), NodesLines(nodes[1..]), lines, DirectivesStable(s.body), DirectivesStable(nodes[1..]));
      StableCons(nodes);
    } else {
      OneIsFirst(lines, close, nodes, rest);
      SaneTail(lines, 1);
      LinesKept(lines[1..], close, nodes[1..], rest);
      StableCons(nodes);
      if FirstIsComment(lines, close, nodes, rest) {
        KeptComment(lines, close, nodes, rest);
        KeptAppend(NodeLines(nodes[0]), NodesLines(nodes[1..]), lines, true, DirectivesStable(nodes[1..]));
      } else {
        KeptDirective(lines, close, nodes, rest);
        KeptAppend(NodeLines(nodes[0]), NodesLines(nodes[1..]), lines, StableDirective(nodes[0]), DirectivesStable(nodes[1..]));
      }
    }
  }

  // ----- The last line -----

  /** If the last printed line is continued, it is a directive without a comment. */
  lemma {:induction false} LastContinued(lines: seq<Line>, close: string, nodes: seq<Node>, rest: seq<Line>)
    requires ParseBody(lines, close) == Good(nodes, rest) && Sane(lines) && nodes != []
    requires var p := NodesLines(nodes); Continued(p[|p| - 1].raw)
    ensures var p := NodesLines(nodes); var d := nodes[|nodes| - 1];
      d.Directive? && d.trailing == "" && p[|p| - 1].raw == DirectiveLine(d)
    decreases |lines|
  {
    hide *;
    ReadCases(lines, close, nodes, rest);
    LastOfLines(nodes);
    if FirstIsSection(lines, close, nodes, rest) {
      SectionIsFirst(lines, close, nodes, rest);
      var s := ParseSection(lines).section;
      var stop := SectionCase(lines);
      SectionBody(lines, s, stop);
      LinesRead(lines[1..], s.name, s.body, stop);
      StopIsShorter(lines[1..], s.body, stop);
      ConsumedTail(lines[1..], s.body, stop);
      SaneTail(lines, 1);
      SaneTail(lines[1..], |NodesLines(s.body)|);
      if |nodes| > 1 {
        SaneTail(stop, 1);
        LastContinued(stop[1..], close, nodes[1..], rest);
      } else {
        OpenSame(lines, s, stop);
        SaneFirst(stop);
        CloseLineKept(s, stop[0].raw);
        SectionNodeLines(s);
      }
    } else {
      OneIsFirst(lines, close, nodes, rest);
      SaneTail(lines, 1);
      if |nodes| > 1 {
        LastContinued(lines[1..], close, nodes[1..], rest);
      } else if FirstIsComment(lines, close, nodes, rest) {
        CommentNode(lines, close, nodes, rest);
        SaneFirst(lines);
      } else {
        KeptDirective(lines, close, nodes, rest);
        DirectiveNode(lines, close, nodes, rest);
        UnstableLast(lines, nodes[0]);
      }
    }
  }

  lemma LastOfLines(nodes: seq<Node>)
    requires nodes != []
    ensures var p, tail := NodesLines(nodes), NodesLines(nodes[1..]);
      p != [] && (if |nodes| > 1 then tail != [] && p[|p| - 1] == tail[|tail| - 1] else p == NodeLines(nodes[0]))
    ensures |nodes| > 1 ==> nodes[1..] != [] && nodes[1..][|nodes| - 2] == nodes[|nodes| - 1]
  {
  }

  lemma CommentNode(lines: seq<Line>, close: string, nodes: seq<Node>, rest: seq<Line>)
    requires lines != [] && nodes != [] && FirstIsComment(lines, close, nodes, rest)
    ensures NodeLines(nodes[0]) == [Line(lines[0].raw, lines[0].newline)]
  {
  }

  lemma DirectiveNode(lines: seq<Line>, close: string, nodes: seq<Node>, rest: seq<Line>)
    requires lines != [] && nodes != [] && FirstIsDirective(lines, close, nodes, rest)
    ensures nodes[0].Directive? && NodeLines(nodes[0]) == [Line(DirectiveLine(nodes[0]), lines[0].newline)]
  {
  }

  lemma UnstableLast(lines: seq<Line>, d: Node)
    requires lines != [] && d.Directive? && Kept(NodeLines(d), lines, StableDirective(d)) && |NodeLines(d)| == 1
    requires Continued(NodeLines(d)[0].raw)
    ensures d.trailing == ""
  {
  }

  /** A directive that comes last was read from the last line. */
  lemma {:induction false} LastNode(lines: seq<Line>, nodes: seq<Node>)
    requires ParseBody(lines, "") == Good(nodes, []) && nodes != [] && nodes[|nodes| - 1].Directive?
    ensures lines != []
    ensures var raw := lines[|lines| - 1].raw;
      IsDirective(raw) && DirectiveStart(SkipBlanks(raw)) &&
      nodes[|nodes| - 1] == ParseDirective(Indent(raw), SkipBlanks(raw), lines[|lines| - 1].newline)
    decreases |lines|
  {
    hide *;
    ReadCases(lines, "", nodes, []);
    LastOfLines(nodes);
    if FirstIsSection(lines, "", nodes, []) {
      SectionIsFirst(lines, "", nodes, []);
      var s := ParseSection(lines).section;
      var stop := SectionCase(lines);
      SectionBody(lines, s, stop);
      LinesRead(lines[1..], s.name, s.body, stop);
      StopIsShorter(lines[1..], s.body, stop);
      ConsumedTail(lines[1..], s.body, stop);
      LastNode(stop[1..], nodes[1..]);
    } else {
      OneIsFirst(lines, "", nodes, []);
      if |nodes| > 1 {
        LastNode(lines[1..], nodes[1..]);
      } else {
        LinesRead(lines[1..], "", [], []);
        OnlyDirective(lines, nodes);
      }
    }
  }

  lemma OnlyDirective(lines: seq<Line>, nodes: seq<Node>)
    requires lines != [] && |nodes| == 1 && nodes[0].Directive? && Consumed(lines[1..], [], [])
    requires FirstIsComment(lines, "", nodes, []) || FirstIsDirective(lines, "", nodes, [])
    ensures |lines| == 1 && FirstIsDirective(lines, "", nodes, [])
    ensures var raw := lines[0].raw;
      IsDirective(raw) && DirectiveStart(SkipBlanks(raw)) && nodes[0] == ParseDirective(Indent(raw), SkipBlanks(raw), lines[0].newline)
  {
  }

  // ----- The fixed point -----

  lemma PhysicalKept(printed: seq<Line>, lines: seq<Line>, stable: bool)
    requires Kept(printed, lines, stable) && |printed| == |lines| && Physical(lines)
    ensures Physical(printed)
  {
    forall i | 0 <= i < |printed|
      ensures printed[i].newline == "\n" || (i == |printed| - 1 && printed[i].newline == "" && printed[i].raw != "")
    {
      assert printed[i].newline == lines[i].newline;
    }
  }

  lemma PhysicalIsSane(lines: seq<Line>)
    requires Physical(lines) && NoneContinued(lines)
    ensures Sane(lines)
  {
  }

  lemma ParseIs(src: string, nodes: seq<Node>)
    ensures Parse(src) == Config(nodes) <==> ParseBody(LogicalLines(src), "") == Good(nodes, [])
  {
  }

  lemma ConsumedAll(lines: seq<Line>, nodes: seq<Node>)
    requires Consumed(lines, nodes, [])
    ensures |NodesLines(nodes)| == |lines|
  {
  }

  /** What a parse tells about the printed lines. */
  lemma ParsedLines(src: string, nodes: seq<Node>)
    requires Parse(src) == Config(nodes)
    ensures var lines, p := LogicalLines(src), NodesLines(nodes);
      ParseBody(lines, "") == Good(nodes, []) && Sane(lines) && Physical(p) && (NoneContinued(p) <==> DirectivesStable(nodes))
    ensures LogicalLines(NodesText(nodes)) == Merge(NodesLines(nodes), "")
    ensures PrintableAll(nodes) <==> SectionsStable(nodes)
  {
    hide *;
    var lines := LogicalLines(src);
    ParseIs(src, nodes);
    LogicalSane(src);
    PhysicalIsSane(lines);
    LinesRead(lines, "", nodes, []);
    ConsumedAll(lines, nodes);
    LinesKept(lines, "", nodes, []);
    PhysicalKept(NodesLines(nodes), lines, DirectivesStable(nodes));
    KeptStable(NodesLines(nodes), lines, DirectivesStable(nodes));
    NodesTextIs(nodes);
    LogicalMerges(NodesLines(nodes));
    ParsedPrintable(lines, "", nodes, []);
  }

  lemma KeptStable(printed: seq<Line>, lines: seq<Line>, stable: bool)
    requires Kept(printed, lines, stable)
    ensures NoneContinued(printed) <==> stable
  {
  }

  lemma LogicalSane(src: string)
    ensures Physical(LogicalLines(src)) && NoneContinued(LogicalLines(src))
  {
    LogicalIsPhysical(src, "");
  }

  lemma LogicalMerges(lines: seq<Line>)
    requires Physical(lines)
    ensures LogicalLines(TextOf(lines)) == Merge(lines, "")
  {
    TextMerges(lines, "");
  }

  lemma NothingEnds()
    ensures Ends([], "")
  {
  }

  /** Stable configurations are fixed points. */
  lemma StableIsFixed(src: string, nodes: seq<Node>)
    requires Parse(src) == Config(nodes) && SectionsStable(nodes) && DirectivesStable(nodes)
    ensures Parse(NodesText(nodes)) == Config(nodes)
  {
    hide *;
    ParsedLines(src, nodes);
    MergeSame(NodesLines(nodes));
    NothingEnds();
    ReadsBack(nodes, "", []);
    assert NodesLines(nodes) + [] == NodesLines(nodes);
    ParseIs(NodesText(nodes), nodes);
  }

  /** Dropping the backslash at the end of a directive line changes the directive. */
  lemma CutDirective(d: Node, raw: string, newline: string)
    requires d.Directive? && d.trailing == "" && Continued(DirectiveLine(d)) && AllBlanks(d.indent)
    requires raw == DirectiveLine(d)[..|DirectiveLine(d)| - 1] + " " && IsDirective(raw) && DirectiveStart(SkipBlanks(raw))
    ensures d != ParseDirective(Indent(raw), SkipBlanks(raw), newline)
  {
    SqueezeCut(DirectiveLine(d));
    if d == ParseDirective(Indent(raw), SkipBlanks(raw), newline) {
      DirectiveAgain(raw, newline);
      hide DirectiveLine, ParseDirective, IsDirective, DirectiveStart, SkipBlanks, Indent, Squeeze;
    }
  }

  lemma SqueezeCut(l: string)
    requires Continued(l)
    ensures Squeeze(l) != Squeeze(l[..|l| - 1] + " ")
  {
    var cut := l[..|l| - 1];
    SqueezeAppend(cut, " ");
    SqueezeAppend(cut, "\\");
    assert l == cut + "\\";
    assert " "[1..] == "" && Squeeze(" ") == "" && "\\"[1..] == "" && Squeeze("\\") == "\\";
    assert |Squeeze(l)| == |Squeeze(cut)| + 1;
  }

  /** Fixed points are stable. */
  lemma FixedIsStable(src: string, nodes: seq<Node>)
    requires Parse(src) == Config(nodes) && Parse(NodesText(nodes)) == Config(nodes)
    ensures SectionsStable(nodes) && DirectivesStable(nodes)
  {
    hide *;
    var p := NodesLines(nodes);
    var again := LogicalLines(NodesText(nodes));
    ParsedLines(src, nodes);
    ParseIs(NodesText(nodes), nodes);
    LinesRead(again, "", nodes, []);
    ConsumedAll(again, nodes);
    if p == [] {
      MergeNone();
      NoLines(nodes);
    } else {
      MergeFull(p);
      NodesNotEmpty(nodes);
      if Continued(p[|p| - 1].raw) {
        LastContinued(LogicalLines(src), "", nodes, []);
        LastNode(LogicalLines(src), nodes);
        LastNode(again, nodes);
        var d := nodes[|nodes| - 1];
        DirectiveIndent(LogicalLines(src)[|LogicalLines(src)| - 1]);
        CutDirective(d, again[|again| - 1].raw, again[|again| - 1].newline);
        assert false;
      }
      AllButLast(p);
      MergeSame(p);
    }
    assert p + [] == p;
    ReadBackPrintable(nodes, "", []);
  }

  lemma MergeNone()
    ensures Merge([], "") == [] && NoneContinued([])
  {
  }

  lemma NoLines(nodes: seq<Node>)
    requires NodesLines(nodes) == []
    ensures nodes == []
  {
  }

  lemma NodesNotEmpty(nodes: seq<Node>)
    requires NodesLines(nodes) != []
    ensures nodes != []
  {
  }

  lemma AllButLast(p: seq<Line>)
    requires p != [] && (forall i :: 0 <= i < |p| - 1 ==> !Continued(p[i].raw)) && !Continued(p[|p| - 1].raw)
    ensures NoneContinued(p)
  {
  }

  lemma DirectiveIndent(line: Line)
    requires DirectiveStart(SkipBlanks(line.raw))
    ensures AllBlanks(ParseDirective(Indent(line.raw), SkipBlanks(line.raw), line.newline).indent)
  {
    IndentIsBlank(line.raw);
  }

  /** Parsing, printing and parsing again: the configuration is the same exactly if no section name
      starts with a slash, no opening tag ends in an escaping backslash, and no directive without a
      comment ends in a backslash. */
  lemma NormalisesExactly(src: string, nodes: seq<Node>)
    requires Parse(src) == Config(nodes)
    ensures Parse(NodesText(nodes)) == Config(nodes) <==> SectionsStable(nodes) && DirectivesStable(nodes)
  {
    hide *;
    if SectionsStable(nodes) && DirectivesStable(nodes) { StableIsFixed(src, nodes); }
    if Parse(NodesText(nodes)) == Config(nodes) { FixedIsStable(src, nodes); }
  }

  lemma OneLineFile(raw: string)
    requires IsDirective(raw) && '\n' !in raw && !Continued(raw)
    ensures DirectiveStart(SkipBlanks(raw)) && Parse(raw + "\n") == Config([ParseDirective(Indent(raw), SkipBlanks(raw), "\n")])
  {
    hide *;
    var lines := [Line(raw, "\n")];
    OneLogicalLine(raw);
    OneLine(lines[0], []);
    assert lines + [] == lines;
    BodyDirective(lines, "");
    BodyEnd("");
    var d := ParseDirective(Indent(raw), SkipBlanks(raw), "\n");
    PrependToNothing(d);
    ParseIs(raw + "\n", [d]);
  }

  lemma PrependToNothing(d: Node)
    ensures Prepend(d, Good([], [])) == Good([d], [])
  {
  }

  lemma OneLogicalLine(raw: string)
    requires '\n' !in raw && !Continued(raw)
    ensures LogicalLines(raw + "\n") == [Line(raw, "\n")]
  {
    LinesStep(raw, "\n", "", "");
    assert raw + "\n" + "" == raw + "\n" && "" + raw == raw && LinesFrom("", "") == [];
  }

  lemma ShownDirective()
    ensures var raw := "x\\ ";
      IsDirective(raw) && DirectiveStart(SkipBlanks(raw)) && '\n' !in raw && !Continued(raw) &&
      ParseDirective(Indent(raw), SkipBlanks(raw), "\n") == Directive("", "x\\", [], "", "\n")
  {
    var raw := "x\\ ";
    EscapedBlank();
    PrefixChar(raw, '#');
    PrefixChar(raw, '<');
    NotBlankLine(raw, 0);
    hide SplitArgs, Scan, TrimSpace, SkipBlanks, Indent, HasPrefix;
  }

  lemma ShownUnstable(d: Node)
    requires d == Directive("", "x\\", [], "", "\n")
    ensures !DirectivesStable([d])
  {
    assert LastField(d) == "x\\" && Continued("x\\");
    assert [d][1..] == [];
  }

  /** One file that is no fixed point: an escaped blank at the end of a line is dropped, and the
      backslash it leaves continues the line. */
  lemma BackslashBreaks()
    ensures var nodes := [Directive("", "x\\", [], "", "\n")];
      Parse("x\\ " + "\n") == Config(nodes) && Parse(NodesText(nodes)) != Config(nodes)
  {
    hide *;
    var nodes := [Directive("", "x\\", [], "", "\n")];
    ShownDirective();
    OneLineFile("x\\ ");
    NormalisesExactly("x\\ " + "\n", nodes);
    ShownUnstable(nodes[0]);
  }

  lemma EscapedBlank()
    ensures Scan("x\\ ", '#', false, false).Ended? && SplitArgs("x\\ ") == ["x\\"] && SkipBlanks("x\\ ") == "x\\ " && Indent("x\\ ") == ""
  {
    var raw := "x\\ ";
    assert raw[1..] == "\\ " && "\\ "[1..] == " " && " "[1..] == "";
    WordPrefix("x\\", " ");
    assert "x\\" + " " == raw;
    SplitNext("x\\", " ");
    SplitNone(" ");
  }
}
