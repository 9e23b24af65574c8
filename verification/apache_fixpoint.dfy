/** Normalisation of Apache configurations: what parsing and printing reach, and when it is a
    fixed point.
 */
module ApacheFixpoint {
  import opened Common
  import opened Text
  import opened ApacheScan
  import opened ApacheParser
  import opened ApacheLines

  // ----- Nodes as lines -----

  function NodeLines(n: Node): (lines: seq<Line>)
    ensures lines != []
    decreases n, 1
  {
    match n
    case Directive(_, _, _, _, newline) => [Line(DirectiveLine(n), newline)]
    case Section(indent, name, args, trailing, newline, body, closeIndent, closeTrailing, closeNewline) =>
      [Line(OpenLine(indent, [name] + args, trailing), newline)] + NodesLines(body) +
      [Line(CloseLine(closeIndent, name, closeTrailing), closeNewline)]
    case CommentLine(verbatim, newline) => [Line(verbatim, newline)]
  }

  function NodesLines(nodes: seq<Node>): (lines: seq<Line>)
    ensures |lines| >= |nodes|
    decreases nodes, 0
  {
    if nodes == [] then [] else NodeLines(nodes[0]) + NodesLines(nodes[1..])
  }

  /** A line that closes the section of this name. */
  predicate Closes(raw: string, name: string) {
    !IsComment(raw) && HasPrefix(SkipBlanks(raw), "</") && ParseCloseTag(SkipBlanks(raw)).Tag? &&
    EqualFold(ParseCloseTag(SkipBlanks(raw)).name, name)
  }

  /** Each line of the node parses to the node's own parts. */
  predicate Printable(n: Node)
    decreases n, 1
  {
    match n
    case Directive(_, _, _, _, newline) => DirectivePrintable(n)
    case Section(_, _, _, _, _, body, _, _, _) => OpenPrintable(n) && PrintableAll(body) && ClosePrintable(n)
    case CommentLine(verbatim, _) => IsComment(verbatim)
  }

  predicate PrintableAll(nodes: seq<Node>)
    decreases nodes, 0
  {
    nodes == [] || (Printable(nodes[0]) && PrintableAll(nodes[1..]))
  }

  predicate DirectivePrintable(n: Node)
    requires n.Directive?
  {
    var l := DirectiveLine(n);
    IsDirective(l) && DirectiveStart(SkipBlanks(l)) && ParseDirective(Indent(l), SkipBlanks(l), n.newline) == n
  }

  predicate OpenPrintable(n: Node)
    requires n.Section?
  {
    var l := OpenLine(n.indent, [n.name] + n.args, n.trailing);
    var content := SkipBlanks(l);
    IsOpen(l) && content != "" && content[0] == '<' && Indent(l) == n.indent && ParseOpen(content) == Open(n.name, n.args, n.trailing)
  }

  predicate ClosePrintable(n: Node)
    requires n.Section?
  {
    var l := CloseLine(n.closeIndent, n.name, n.closeTrailing);
    Closes(l, n.name) && Indent(l) == n.closeIndent && ParseCloseTag(SkipBlanks(l)).trailing == n.closeTrailing
  }

  // ----- Printable nodes read back -----

  /** What may follow a body: nothing, or the line that closes it. */
  predicate Ends(more: seq<Line>, close: string) {
    if close == "" then more == [] else more != [] && Closes(more[0].raw, close)
  }

  lemma EndsBody(more: seq<Line>, close: string)
    requires Ends(more, close)
    ensures ParseBody(more, close) == Good([], more)
  {
    if close == "" { BodyEnd(close); } else { BodyClose(more, close); }
  }

  lemma LinesFirst(nodes: seq<Node>, more: seq<Line>)
    requires nodes != []
    ensures NodesLines(nodes) + more == NodeLines(nodes[0]) + (NodesLines(nodes[1..]) + more)
  {
    Assoc(NodeLines(nodes[0]), NodesLines(nodes[1..]), more);
  }

  lemma OneLine(l: Line, tail: seq<Line>)
    ensures ([l] + tail)[0] == l && ([l] + tail)[1..] == tail
  {
  }

  lemma ReadComment(c: Node, tail: seq<Line>, close: string)
    requires c.CommentLine? && Printable(c)
    ensures ParseBody(NodeLines(c) + tail, close) == Prepend(c, ParseBody(tail, close))
  {
    hide ParseBody, IsComment;
    OneLine(Line(c.verbatim, c.newline), tail);
    BodyComment(NodeLines(c) + tail, close);
  }

  lemma ReadDirective(d: Node, tail: seq<Line>, close: string)
    requires d.Directive? && Printable(d)
    ensures ParseBody(NodeLines(d) + tail, close) == Prepend(d, ParseBody(tail, close))
  {
    hide ParseBody, IsDirective, ParseDirective, DirectiveLine;
    OneLine(Line(DirectiveLine(d), d.newline), tail);
    BodyDirective(NodeLines(d) + tail, close);
  }

  lemma SectionLines(s: Node, tail: seq<Line>)
    requires s.Section?
    ensures var open := Line(OpenLine(s.indent, [s.name] + s.args, s.trailing), s.newline);
      var close := Line(CloseLine(s.closeIndent, s.name, s.closeTrailing), s.closeNewline);
      NodeLines(s) + tail == [open] + (NodesLines(s.body) + ([close] + tail))
  {
    var open := Line(OpenLine(s.indent, [s.name] + s.args, s.trailing), s.newline);
    var close := Line(CloseLine(s.closeIndent, s.name, s.closeTrailing), s.closeNewline);
    hide OpenLine, CloseLine;
    Assoc([open] + NodesLines(s.body), [close], tail);
    Assoc([open], NodesLines(s.body), [close] + tail);
  }

  lemma ReadSection(s: Node, tail: seq<Line>, close: string)
    requires s.Section? && OpenPrintable(s) && ClosePrintable(s)
    requires var end := Line(CloseLine(s.closeIndent, s.name, s.closeTrailing), s.closeNewline);
      ParseBody(NodesLines(s.body) + ([end] + tail), s.name) == Good(s.body, [end] + tail)
    ensures ParseBody(NodeLines(s) + tail, close) == Prepend(s, ParseBody(tail, close))
  {
    var open := Line(OpenLine(s.indent, [s.name] + s.args, s.trailing), s.newline);
    var end := Line(CloseLine(s.closeIndent, s.name, s.closeTrailing), s.closeNewline);
    hide ParseBody, ParseSection, ParseOpen, ParseCloseTag, IsOpen, OpenLine, CloseLine, Indent, SkipBlanks, NodeLines, NodesLines;
    var lines := NodeLines(s) + tail;
    SectionLines(s, tail);
    OneLine(open, NodesLines(s.body) + ([end] + tail));
    OneLine(end, tail);
    BodySection(lines, close);
    OpenStarts(lines[0].raw);
    SectionStep(lines);
  }

  lemma OpenStarts(raw: string)
    requires IsOpen(raw)
    ensures HasPrefix(SkipBlanks(raw), "<")
  {
  }

  /** Printable nodes, followed by an end, read back as they are. */
  lemma {:induction false} ReadsBack(nodes: seq<Node>, close: string, more: seq<Line>)
    requires PrintableAll(nodes) && Ends(more, close)
    ensures ParseBody(NodesLines(nodes) + more, close) == Good(nodes, more)
    decreases nodes
  {
    hide ParseBody, Ends, NodeLines;
    if nodes == [] {
      assert [] + more == more;
      EndsBody(more, close);
    } else {
      var n, tail := nodes[0], NodesLines(nodes[1..]) + more;
      LinesFirst(nodes, more);
      ReadsBack(nodes[1..], close, more);
      if n.CommentLine? { ReadComment(n, tail, close); }
      else if n.Directive? { ReadDirective(n, tail, close); }
      else {
        SectionReadsBack(n, tail);
        ReadSection(n, tail, close);
      }
    }
  }

  lemma {:induction false} SectionReadsBack(s: Node, tail: seq<Line>)
    requires s.Section? && Printable(s)
    ensures var end := Line(CloseLine(s.closeIndent, s.name, s.closeTrailing), s.closeNewline);
      ParseBody(NodesLines(s.body) + ([end] + tail), s.name) == Good(s.body, [end] + tail)
    decreases s
  {
    var end := Line(CloseLine(s.closeIndent, s.name, s.closeTrailing), s.closeNewline);
    OneLine(end, tail);
    OpenHasName(s);
    hide ParseBody, NodesLines;
    ReadsBack(s.body, s.name, [end] + tail);
  }

  lemma OpenHasName(s: Node)
    requires s.Section? && OpenPrintable(s)
    ensures s.name != ""
  {
  }

  // ----- What a parse has read -----

  lemma PrependGood(n: Node, b: Body, nodes: seq<Node>, rest: seq<Line>)
    requires Prepend(n, b) == Good(nodes, rest)
    ensures nodes != [] && nodes[0] == n && b == Good(nodes[1..], rest)
  {
    assert ([n] + b.nodes)[1..] == b.nodes;
  }

  /** The three ways to read a first node. */
  predicate FirstIsComment(lines: seq<Line>, close: string, nodes: seq<Node>, rest: seq<Line>)
    requires lines != [] && nodes != []
  {
    IsComment(lines[0].raw) && nodes[0] == CommentLine(lines[0].raw, lines[0].newline) &&
    ParseBody(lines[1..], close) == Good(nodes[1..], rest)
  }

  predicate FirstIsDirective(lines: seq<Line>, close: string, nodes: seq<Node>, rest: seq<Line>)
    requires lines != [] && nodes != []
  {
    var raw := lines[0].raw;
    IsDirective(raw) && DirectiveStart(SkipBlanks(raw)) &&
    nodes[0] == ParseDirective(Indent(raw), SkipBlanks(raw), lines[0].newline) &&
    ParseBody(lines[1..], close) == Good(nodes[1..], rest)
  }

  predicate FirstIsSection(lines: seq<Line>, close: string, nodes: seq<Node>, rest: seq<Line>)
    requires lines != [] && nodes != []
  {
    IsOpen(lines[0].raw) && ParseSection(lines).GoodSection? && ParseSection(lines).section == nodes[0] &&
    ParseBody(ParseSection(lines).rest, close) == Good(nodes[1..], rest)
  }

  lemma ReadCases(lines: seq<Line>, close: string, nodes: seq<Node>, rest: seq<Line>)
    requires ParseBody(lines, close) == Good(nodes, rest)
    ensures nodes == [] ==> rest == lines && Ends(lines, close)
    ensures nodes != [] ==> lines != []
    ensures nodes != [] ==>
      FirstIsComment(lines, close, nodes, rest) || FirstIsDirective(lines, close, nodes, rest) || FirstIsSection(lines, close, nodes, rest)
  {
    hide ParseBody, ParseSection, ParseDirective, TrimSpace, HasPrefix, SkipBlanks, ParseCloseTag, EqualFold, Prepend;
    if lines == [] {
      BodyEnd(close);
    } else if IsComment(lines[0].raw) {
      BodyComment(lines, close);
      PrependGood(CommentLine(lines[0].raw, lines[0].newline), ParseBody(lines[1..], close), nodes, rest);
    } else if HasPrefix(SkipBlanks(lines[0].raw), "</") {
      BodyClose(lines, close);
    } else if HasPrefix(SkipBlanks(lines[0].raw), "<") {
      BodySection(lines, close);
      var p := ParseSection(lines);
      if p.GoodSection? { PrependGood(p.section, ParseBody(p.rest, close), nodes, rest); }
    } else {
      BodyDirective(lines, close);
      var raw := lines[0].raw;
      PrependGood(ParseDirective(Indent(raw), SkipBlanks(raw), lines[0].newline), ParseBody(lines[1..], close), nodes, rest);
    }
  }

  /** How a section was read: its opening line, its body, and the line at which the body stopped. */
  predicate SectionRead(lines: seq<Line>, s: Node, stop: seq<Line>)
    requires lines != [] && s.Section?
  {
    var content := SkipBlanks(lines[0].raw);
    content != "" && content[0] == '<' && ParseOpen(content) == Open(s.name, s.args, s.trailing) && s.indent == Indent(lines[0].raw) &&
    s.newline == lines[0].newline && ParseBody(lines[1..], s.name) == Good(s.body, stop) && stop != [] &&
    ParseCloseTag(SkipBlanks(stop[0].raw)).Tag? && s.closeIndent == Indent(stop[0].raw) &&
    s.closeTrailing == ParseCloseTag(SkipBlanks(stop[0].raw)).trailing && s.closeNewline == stop[0].newline
  }

  lemma SectionCase(lines: seq<Line>) returns (stop: seq<Line>)
    requires lines != [] && IsOpen(lines[0].raw) && ParseSection(lines).GoodSection?
    ensures var p := ParseSection(lines); SectionRead(lines, p.section, stop) && p.rest == stop[1..] && p.section.name != ""
  {
    OpenStarts(lines[0].raw);
    hide ParseBody, ParseSection, ParseOpen, ParseCloseTag, IsOpen, Indent, SkipBlanks;
    SectionStep(lines);
    var tag := ParseOpen(SkipBlanks(lines[0].raw));
    stop := ParseBody(lines[1..], tag.name).rest;
  }

  // ----- Counting lines -----

  /** The nodes have the lines before `rest`, one for one. */
  predicate Consumed(lines: seq<Line>, nodes: seq<Node>, rest: seq<Line>) {
    |NodesLines(nodes)| + |rest| == |lines| && rest == lines[|NodesLines(nodes)|..]
  }

  /** A parse reads one line for each line of its nodes, from the front. */
  lemma {:induction false} LinesRead(lines: seq<Line>, close: string, nodes: seq<Node>, rest: seq<Line>)
    requires ParseBody(lines, close) == Good(nodes, rest)
    ensures Consumed(lines, nodes, rest) && Ends(rest, close)
    decreases |lines|
  {
    hide *;
    ReadCases(lines, close, nodes, rest);
    if nodes == [] {
      ConsumedNone(lines);
    } else if FirstIsSection(lines, close, nodes, rest) {
      SectionIsFirst(lines, close, nodes, rest);
      var p := ParseSection(lines);
      var stop := SectionCase(lines);
      SectionBody(lines, p.section, stop);
      LinesRead(lines[1..], p.section.name, p.section.body, stop);
      LinesRead(stop[1..], close, nodes[1..], rest);
      ConsumedSection(lines, nodes, stop, rest);
    } else {
      OneIsFirst(lines, close, nodes, rest);
      LinesRead(lines[1..], close, nodes[1..], rest);
      ConsumedOne(lines, nodes, rest);
    }
  }

  lemma ConsumedNone(lines: seq<Line>)
    ensures Consumed(lines, [], lines)
  {
  }

  lemma ConsumedOne(lines: seq<Line>, nodes: seq<Node>, rest: seq<Line>)
    requires lines != [] && nodes != [] && !nodes[0].Section? && Consumed(lines[1..], nodes[1..], rest)
    ensures Consumed(lines, nodes, rest)
  {
    assert |NodeLines(nodes[0])| == 1;
    hide DirectiveLine;
  }

  lemma ConsumedSection(lines: seq<Line>, nodes: seq<Node>, stop: seq<Line>, rest: seq<Line>)
    requires lines != [] && nodes != [] && nodes[0].Section? && stop != []
    requires Consumed(lines[1..], nodes[0].body, stop) && Consumed(stop[1..], nodes[1..], rest)
    ensures Consumed(lines, nodes, rest)
  {
    var k, m := |NodesLines(nodes[0].body)|, |NodesLines(nodes[1..])|;
    assert |NodeLines(nodes[0])| == k + 2;
    assert |NodesLines(nodes)| == k + 2 + m;
    hide NodeLines, NodesLines, OpenLine, CloseLine;
    SuffixOfSuffix(lines, k, m);
  }

  lemma SuffixOfSuffix(lines: seq<Line>, k: nat, m: nat)
    requires k + 2 + m <= |lines|
    ensures lines[1..][k..][1..][m..] == lines[k + 2 + m..]
  {
  }

  lemma SectionIsFirst(lines: seq<Line>, close: string, nodes: seq<Node>, rest: seq<Line>)
    requires lines != [] && nodes != [] && FirstIsSection(lines, close, nodes, rest)
    ensures IsOpen(lines[0].raw) && ParseSection(lines).GoodSection? && ParseSection(lines).section == nodes[0] && nodes[0].Section?
    ensures ParseBody(ParseSection(lines).rest, close) == Good(nodes[1..], rest)
  {
  }

  lemma OneIsFirst(lines: seq<Line>, close: string, nodes: seq<Node>, rest: seq<Line>)
    requires lines != [] && nodes != [] && (FirstIsComment(lines, close, nodes, rest) || FirstIsDirective(lines, close, nodes, rest))
    ensures ParseBody(lines[1..], close) == Good(nodes[1..], rest) && !nodes[0].Section?
  {
  }

  lemma SectionBody(lines: seq<Line>, s: Node, stop: seq<Line>)
    requires lines != [] && s.Section? && SectionRead(lines, s, stop)
    ensures ParseBody(lines[1..], s.name) == Good(s.body, stop) && stop != []
  {
  }

  // ----- Parsed nodes are printable, unless a section is unstable -----

  function LastField(n: Node): string
    requires !n.CommentLine?
  {
    if n.args == [] then n.name else n.args[|n.args| - 1]
  }

  /** The opening tag survives printing: its name does not start with a slash, and its last field
      does not escape the `>`. */
  predicate StableSection(n: Node)
    requires n.Section?
  {
    !(n.name != "" && n.name[0] == '/') && !OddBackslashes(LastField(n))
  }

  predicate SectionsStable(nodes: seq<Node>)
    decreases nodes
  {
    nodes == [] ||
    ((nodes[0].Section? ==> StableSection(nodes[0]) && SectionsStable(nodes[0].body)) && SectionsStable(nodes[1..]))
  }

  lemma AngleLine(indent: string, content: string)
    requires AllBlanks(indent) && content != "" && content[0] == '<'
    ensures var l := indent + content;
      Indent(l) == indent && SkipBlanks(l) == content && !IsComment(l) && HasPrefix(content, "<") &&
      (HasPrefix(content, "</") <==> |content| > 1 && content[1] == '/')
  {
    var l := indent + content;
    IndentSkip(indent, content);
    NotBlankLine(l, |indent|);
    PrefixChar(content, '#');
    PrefixChar(content, '<');
    if |content| > 1 { assert content[..2] == [content[0], content[1]]; }
  }

  lemma LastOfFields(n: Node)
    requires n.Section?
    ensures var fields := [n.name] + n.args; fields[|fields| - 1] == LastField(n)
  {
  }

  lemma IndentIsBlank(raw: string)
    ensures AllBlanks(Indent(raw))
  {
  }

  lemma OpenLineIs(indent: string, fields: seq<string>, trailing: string)
    ensures OpenLine(indent, fields, trailing) == indent + PrintedOpen(fields, trailing)
    ensures var p := PrintedOpen(fields, trailing);
      p != "" && p[0] == '<' && (Join(fields) != "" ==> |p| > 1 && p[1] == Join(fields)[0])
  {
    Assoc(indent, "<", Join(fields));
    Assoc(indent, "<" + Join(fields), ">");
    Assoc(indent, "<" + Join(fields) + ">", trailing);
  }

  lemma CloseLineIs(indent: string, name: string, trailing: string)
    ensures var content := "</" + name + ">" + trailing;
      CloseLine(indent, name, trailing) == indent + content && content[0] == '<' && content[1] == '/'
  {
    Assoc(indent, "</", name);
    Assoc(indent, "</" + name, ">");
    Assoc(indent, "</" + name + ">", trailing);
  }

  lemma OpenPrintableExactly(lines: seq<Line>, s: Node, stop: seq<Line>)
    requires lines != [] && s.Section? && SectionRead(lines, s, stop)
    ensures OpenPrintable(s) <==> StableSection(s)
  {
    hide *;
    var fields := [s.name] + s.args;
    var printed := PrintedOpen(fields, s.trailing);
    OpenRead(lines, s, stop);
    OpenLineIs(s.indent, fields, s.trailing);
    AngleLine(s.indent, printed);
    OpenVerdict(s);
    LastOfFields(s);
    StableIs(s);
  }

  lemma OpenRead(lines: seq<Line>, s: Node, stop: seq<Line>)
    requires lines != [] && s.Section? && SectionRead(lines, s, stop)
    ensures var fields := [s.name] + s.args; var printed := PrintedOpen(fields, s.trailing);
      AllBlanks(s.indent) && s.name != "" && Join(fields) != "" && Join(fields)[0] == s.name[0] &&
      printed != "" && printed[0] == '<' &&
      (ParseOpen(printed) == Open(s.name, s.args, s.trailing) <==> !OddBackslashes(fields[|fields| - 1]))
  {
    var content := SkipBlanks(lines[0].raw);
    OpenAgainExactly(content);
    IndentIsBlank(lines[0].raw);
    OpenLineIs(s.indent, [s.name] + s.args, s.trailing);
    hide ParseOpen, Join, PrintedOpen, OpenLine, OddBackslashes, Indent, SkipBlanks, ParseBody, ParseCloseTag;
  }

  lemma StableIs(s: Node)
    requires s.Section? && s.name != ""
    ensures StableSection(s) <==> s.name[0] != '/' && !OddBackslashes(LastField(s))
  {
  }

  lemma OpenVerdict(s: Node)
    requires s.Section? && s.name != ""
    requires var printed := PrintedOpen([s.name] + s.args, s.trailing); var l := OpenLine(s.indent, [s.name] + s.args, s.trailing);
      |printed| > 1 && printed[0] == '<' && printed[1] == s.name[0] && Indent(l) == s.indent && SkipBlanks(l) == printed &&
      !IsComment(l) && HasPrefix(printed, "<") && (HasPrefix(printed, "</") <==> printed[1] == '/')
    ensures OpenPrintable(s) <==>
      s.name[0] != '/' && ParseOpen(PrintedOpen([s.name] + s.args, s.trailing)) == Open(s.name, s.args, s.trailing)
  {
    hide ParseOpen, Join, PrintedOpen, OpenLine, Indent, SkipBlanks, IsComment, HasPrefix;
  }

  lemma ClosePrintableToo(lines: seq<Line>, s: Node, stop: seq<Line>)
    requires lines != [] && s.Section? && SectionRead(lines, s, stop) && Closes(stop[0].raw, s.name)
    ensures ClosePrintable(s)
  {
    var content := SkipBlanks(stop[0].raw);
    var printed := "</" + s.name + ">" + s.closeTrailing;
    CloseAgain(content, s.name);
    IndentIsBlank(stop[0].raw);
    CloseLineIs(s.closeIndent, s.name, s.closeTrailing);
    AngleLine(s.closeIndent, printed);
    hide ParseOpen, ParseCloseTag, CloseLine, Indent, SkipBlanks, IsComment, HasPrefix, ParseBody;
  }

  lemma StableFirst(nodes: seq<Node>)
    requires nodes != []
    ensures SectionsStable(nodes) <==>
      (nodes[0].Section? ==> StableSection(nodes[0]) && SectionsStable(nodes[0].body)) && SectionsStable(nodes[1..])
    ensures PrintableAll(nodes) <==> Printable(nodes[0]) && PrintableAll(nodes[1..])
  {
  }

  lemma CommentFirst(lines: seq<Line>, close: string, nodes: seq<Node>, rest: seq<Line>)
    requires lines != [] && nodes != [] && FirstIsComment(lines, close, nodes, rest)
    ensures Printable(nodes[0]) && !nodes[0].Section?
  {
  }

  lemma DirectiveFirst(lines: seq<Line>, close: string, nodes: seq<Node>, rest: seq<Line>)
    requires lines != [] && nodes != [] && FirstIsDirective(lines, close, nodes, rest)
    ensures Printable(nodes[0]) && !nodes[0].Section?
  {
    DirectiveAgain(lines[0].raw, lines[0].newline);
  }

  lemma SectionPrintable(s: Node)
    requires s.Section?
    ensures Printable(s) <==> OpenPrintable(s) && PrintableAll(s.body) && ClosePrintable(s)
  {
  }

  lemma EndsCloses(stop: seq<Line>, name: string)
    requires Ends(stop, name) && name != ""
    ensures stop != [] && Closes(stop[0].raw, name)
  {
  }

  /** What a parse delivers is printable exactly when all its sections are stable. */
  lemma {:induction false} ParsedPrintable(lines: seq<Line>, close: string, nodes: seq<Node>, rest: seq<Line>)
    requires ParseBody(lines, close) == Good(nodes, rest)
    ensures PrintableAll(nodes) <==> SectionsStable(nodes)
    decreases |lines|
  {
    hide *;
    ReadCases(lines, close, nodes, rest);
    if nodes == [] {
      NothingPrintable();
    } else if FirstIsSection(lines, close, nodes, rest) {
      SectionIsFirst(lines, close, nodes, rest);
      var s := ParseSection(lines).section;
      var stop := SectionCase(lines);
      SectionBody(lines, s, stop);
      LinesRead(lines[1..], s.name, s.body, stop);
      EndsCloses(stop, s.name);
      ParsedPrintable(lines[1..], s.name, s.body, stop);
      StopIsShorter(lines[1..], s.body, stop);
      ParsedPrintable(stop[1..], close, nodes[1..], rest);
      OpenPrintableExactly(lines, s, stop);
      ClosePrintableToo(lines, s, stop);
      SectionPrintable(s);
      StableFirst(nodes);
    } else {
      if FirstIsComment(lines, close, nodes, rest) { CommentFirst(lines, close, nodes, rest); }
      else { DirectiveFirst(lines, close, nodes, rest); }
      OneIsFirst(lines, close, nodes, rest);
      ParsedPrintable(lines[1..], close, nodes[1..], rest);
      StableFirst(nodes);
    }
  }

  lemma NothingPrintable()
    ensures PrintableAll([]) && SectionsStable([])
  {
  }

  lemma StopIsShorter(lines: seq<Line>, nodes: seq<Node>, stop: seq<Line>)
    requires Consumed(lines, nodes, stop)
    ensures |stop| <= |lines|
  {
  }

  // ----- Nodes that read back are printable -----

  /** If the printed lines parse to the nodes they were printed from, the nodes are printable. */
  lemma {:induction false} ReadBackPrintable(nodes: seq<Node>, close: string, more: seq<Line>)
    requires ParseBody(NodesLines(nodes) + more, close) == Good(nodes, more)
    ensures PrintableAll(nodes)
    decreases nodes
  {
    hide *;
    var lines := NodesLines(nodes) + more;
    ReadCases(lines, close, nodes, more);
    if nodes == [] {
      NothingPrintable();
    } else {
      var tail := NodesLines(nodes[1..]) + more;
      LinesFirst(nodes, more);
      StableFirst(nodes);
      if FirstIsSection(lines, close, nodes, more) {
        SectionIsFirst(lines, close, nodes, more);
        SectionBackPrintable(nodes, close, more, lines);
      } else {
        OneIsFirst(lines, close, nodes, more);
        SingleLine(nodes[0], tail);
        ReadBackPrintable(nodes[1..], close, more);
        if FirstIsComment(lines, close, nodes, more) { CommentFirst(lines, close, nodes, more); }
        else { DirectiveFirst(lines, close, nodes, more); }
      }
    }
  }

  lemma SingleLine(n: Node, tail: seq<Line>)
    requires !n.Section?
    ensures (NodeLines(n) + tail)[1..] == tail
  {
  }

  lemma {:induction false} SectionBackPrintable(nodes: seq<Node>, close: string, more: seq<Line>, lines: seq<Line>)
    requires nodes != [] && nodes[0].Section? && lines == NodesLines(nodes) + more
    requires lines != [] && IsOpen(lines[0].raw) && ParseSection(lines).GoodSection? && ParseSection(lines).section == nodes[0]
    requires ParseBody(ParseSection(lines).rest, close) == Good(nodes[1..], more)
    ensures Printable(nodes[0]) && PrintableAll(nodes[1..])
    decreases nodes, 0
  {
    hide *;
    var s, tail := nodes[0], NodesLines(nodes[1..]) + more;
    var open := Line(OpenLine(s.indent, [s.name] + s.args, s.trailing), s.newline);
    var end := Line(CloseLine(s.closeIndent, s.name, s.closeTrailing), s.closeNewline);
    var inside := NodesLines(s.body) + ([end] + tail);
    LinesFirst(nodes, more);
    SectionLines(s, tail);
    OneLine(open, inside);
    OneLine(end, tail);
    var stop := SectionCase(lines);
    SectionBody(lines, s, stop);
    LinesRead(inside, s.name, s.body, stop);
    StopIs(NodesLines(s.body), [end] + tail, s.body, stop);
    EndsCloses(stop, s.name);
    ReadBackPrintable(s.body, s.name, stop);
    ReadBackPrintable(nodes[1..], close, more);
    OpenPrintableExactly(lines, s, stop);
    OpenBack(lines, s, stop);
    ClosePrintableToo(lines, s, stop);
    SectionPrintable(s);
  }

  lemma StopIs(front: seq<Line>, back: seq<Line>, nodes: seq<Node>, stop: seq<Line>)
    requires front == NodesLines(nodes) && Consumed(front + back, nodes, stop)
    ensures stop == back
  {
    hide NodesLines;
  }

  /** The line that was read is the printed line, so the printed line is good. */
  lemma OpenBack(lines: seq<Line>, s: Node, stop: seq<Line>)
    requires lines != [] && s.Section? && SectionRead(lines, s, stop) && IsOpen(lines[0].raw)
    requires lines[0].raw == OpenLine(s.indent, [s.name] + s.args, s.trailing)
    ensures OpenPrintable(s)
  {
  }
}
