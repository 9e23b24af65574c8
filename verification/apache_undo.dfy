/** The challenge edit of one Apache file through its text: what the edited text parses to, and what
    the cleanup makes of it. */
module ApacheUndo {
  import opened Common
  import opened Text
  import opened ApacheScan
  import opened ApacheParser
  import opened ApacheLines
  import opened ApacheFixpoint
  import opened ApacheNormal
  import opened ApacheChallenge

  // ----- Lines that are read as nodes -----

  /** Whatever follows, the lines are read as these nodes. */
  ghost predicate ReadAs(lines: seq<Line>, nodes: seq<Node>) {
    forall close: string, rest: seq<Line> :: ParseBody(lines + rest, close) == PrependAll(nodes, ParseBody(rest, close))
  }

  /** Whatever follows, the lines are an error. */
  ghost predicate Unreadable(lines: seq<Line>) {
    forall close: string, rest: seq<Line> :: ParseBody(lines + rest, close) == Bad
  }

  lemma ReadNone()
    ensures ReadAs([], [])
  {
    forall close: string, rest: seq<Line> ensures ParseBody([] + rest, close) == PrependAll([], ParseBody(rest, close)) {
      assert [] + rest == rest;
      PrependNone(ParseBody(rest, close));
    }
  }

  lemma ReadAppend(a: seq<Line>, m: seq<Node>, b: seq<Line>, n: seq<Node>)
    requires ReadAs(a, m) && ReadAs(b, n)
    ensures ReadAs(a + b, m + n)
  {
    hide ParseBody;
    forall close: string, rest: seq<Line> ensures ParseBody(a + b + rest, close) == PrependAll(m + n, ParseBody(rest, close)) {
      Assoc(a, b, rest);
      assert ParseBody(b + rest, close) == PrependAll(n, ParseBody(rest, close));
      PrependTwice(m, n, ParseBody(rest, close));
    }
  }

  lemma PrependTwice(m: seq<Node>, n: seq<Node>, b: Body)
    ensures PrependAll(m, PrependAll(n, b)) == PrependAll(m + n, b)
  {
    if b.Good? { Assoc(m, n, b.nodes); }
  }

  lemma UnreadableBehind(a: seq<Line>, m: seq<Node>, b: seq<Line>)
    requires ReadAs(a, m) && Unreadable(b)
    ensures Unreadable(a + b)
  {
    hide ParseBody;
    forall close: string, rest: seq<Line> ensures ParseBody(a + b + rest, close) == Bad {
      Assoc(a, b, rest);
      assert ParseBody(b + rest, close) == Bad;
    }
  }

  lemma UnreadableBefore(a: seq<Line>, b: seq<Line>)
    requires Unreadable(a)
    ensures Unreadable(a + b)
  {
    hide ParseBody;
    forall close: string, rest: seq<Line> ensures ParseBody(a + b + rest, close) == Bad { Assoc(a, b, rest); }
  }

  lemma PrependFirst(n: Node, b: Body)
    ensures Prepend(n, b) == PrependAll([n], b)
  {
  }

  lemma ReadCommentLine(l: Line)
    requires IsComment(l.raw)
    ensures ReadAs([l], [CommentLine(l.raw, l.newline)])
  {
    hide ParseBody, IsComment;
    forall close: string, rest: seq<Line>
      ensures ParseBody([l] + rest, close) == PrependAll([CommentLine(l.raw, l.newline)], ParseBody(rest, close))
    {
      OneLine(l, rest);
      BodyComment([l] + rest, close);
      PrependFirst(CommentLine(l.raw, l.newline), ParseBody(rest, close));
    }
  }

  lemma ReadDirectiveLine(l: Line)
    requires IsDirective(l.raw)
    ensures DirectiveStart(SkipBlanks(l.raw))
    ensures ReadAs([l], [ParseDirective(Indent(l.raw), SkipBlanks(l.raw), l.newline)])
  {
    DirectiveStarts(l.raw);
    hide ParseBody, IsDirective, ParseDirective, DirectiveStart;
    var d := ParseDirective(Indent(l.raw), SkipBlanks(l.raw), l.newline);
    forall close: string, rest: seq<Line> ensures ParseBody([l] + rest, close) == PrependAll([d], ParseBody(rest, close)) {
      OneLine(l, rest);
      BodyDirective([l] + rest, close);
      PrependFirst(d, ParseBody(rest, close));
    }
  }

  /** The tag that an opening line has. */
  function TagOf(raw: string): (tag: OpenTag)
    ensures tag.Open? ==> tag.name != ""
  {
    var content := SkipBlanks(raw);
    if content != "" && content[0] == '<' then ParseOpen(content) else BadOpen
  }

  function Tagged(open: Line, body: seq<Node>, end: Line): Node
    requires TagOf(open.raw).Open?
  {
    var tag, close := TagOf(open.raw), ParseCloseTag(SkipBlanks(end.raw));
    Section(Indent(open.raw), tag.name, tag.args, tag.trailing, open.newline, body,
            Indent(end.raw), if close.Tag? then close.trailing else "", end.newline)
  }

  lemma TagStep(lines: seq<Line>)
    requires lines != [] && IsOpen(lines[0].raw)
    ensures HasPrefix(SkipBlanks(lines[0].raw), "<")
    ensures var tag := TagOf(lines[0].raw);
      ParseSection(lines) == if tag == BadOpen then BadSection else Finish(lines[0], tag, ParseBody(lines[1..], tag.name))
  {
    OpenStarts(lines[0].raw);
    SectionStep(lines);
    hide ParseBody, ParseSection, ParseOpen, IsOpen, SkipBlanks;
  }

  lemma ReadTagged(open: Line, lines: seq<Line>, body: seq<Node>, end: Line)
    requires IsOpen(open.raw) && TagOf(open.raw).Open? && Closes(end.raw, TagOf(open.raw).name) && ReadAs(lines, body)
    ensures ReadAs([open] + lines + [end], [Tagged(open, body, end)])
  {
    var tag, s := TagOf(open.raw), Tagged(open, body, end);
    hide ParseBody, ParseSection, ParseCloseTag, TagOf, IsOpen, Indent, SkipBlanks;
    forall close: string, rest: seq<Line>
      ensures ParseBody([open] + lines + [end] + rest, close) == PrependAll([s], ParseBody(rest, close))
    {
      var all := [open] + (lines + ([end] + rest));
      Assoc([open], lines, [end]);
      Assoc([open], lines + [end], rest);
      Assoc(lines, [end], rest);
      OneLine(open, lines + ([end] + rest));
      OneLine(end, rest);
      TagStep(all);
      BodySection(all, close);
      BodyClose([end] + rest, tag.name);
      PrependEnd(body, [end] + rest);
      assert ParseBody(lines + ([end] + rest), tag.name) == PrependAll(body, ParseBody([end] + rest, tag.name));
      PrependFirst(s, ParseBody(rest, close));
    }
  }

  lemma BadTagged(open: Line)
    requires IsOpen(open.raw) && TagOf(open.raw) == BadOpen
    ensures Unreadable([open])
  {
    hide ParseBody, ParseSection, TagOf, IsOpen;
    forall close: string, rest: seq<Line> ensures ParseBody([open] + rest, close) == Bad {
      OneLine(open, rest);
      TagStep([open] + rest);
      BodySection([open] + rest, close);
    }
  }

  lemma BadInside(open: Line, lines: seq<Line>)
    requires IsOpen(open.raw) && Unreadable(lines)
    ensures Unreadable([open] + lines)
  {
    hide ParseBody, ParseSection, TagOf, IsOpen;
    forall close: string, rest: seq<Line> ensures ParseBody([open] + lines + rest, close) == Bad {
      Assoc([open], lines, rest);
      var all := [open] + (lines + rest);
      OneLine(open, lines + rest);
      TagStep(all);
      BodySection(all, close);
      if TagOf(open.raw).Open? { assert ParseBody(lines + rest, TagOf(open.raw).name) == Bad; }
    }
  }

  // ----- The edited configuration is read as the edited tree -----

  /** Some section is edited. */
  predicate Edits(nodes: seq<Node>, at: set<Path>, parent: Path, k: nat)
    decreases nodes, 0
  {
    nodes != [] && (EditsNode(nodes[0], at, parent + [k]) || Edits(nodes[1..], at, parent, k + 1))
  }

  predicate EditsNode(n: Node, at: set<Path>, here: Path)
    decreases n, 1
  {
    n.Section? && (here in at || Edits(n.body, at, here, 0))
  }

  /** What is appended, and as what it is read. */
  ghost predicate TailReads(tail: Tail, read: Tail) {
    forall indent: string :: AllBlanks(indent) ==> ReadAs(NodesLines(tail(indent)), read(indent))
  }

  ghost predicate TailBad(tail: Tail) {
    forall indent: string :: AllBlanks(indent) ==> Unreadable(NodesLines(tail(indent)))
  }

  lemma {:induction false} ChildIndentBlank(body: seq<Node>)
    requires PrintableAll(body)
    ensures AllBlanks(ChildIndent(body))
    decreases |body|
  {
    if body == [] {
    } else if body[0].CommentLine? {
      ChildIndentBlank(body[1..]);
    } else if body[0].Directive? {
      IndentIsBlank(DirectiveLine(body[0]));
    } else {
      IndentIsBlank(OpenLine(body[0].indent, [body[0].name] + body[0].args, body[0].trailing));
    }
  }

  lemma {:induction false} LinesAppend(a: seq<Node>, b: seq<Node>)
    ensures NodesLines(a + b) == NodesLines(a) + NodesLines(b)
    decreases |a|
  {
    hide NodeLines;
    if a == [] { assert a + b == b && [] + NodesLines(b) == NodesLines(b); }
    else {
      LinesAppend(a[1..], b);
      assert (a + b)[0] == a[0] && (a + b)[1..] == a[1..] + b;
      Assoc(NodeLines(a[0]), NodesLines(a[1..]), NodesLines(b));
    }
  }

  function OpenOf(s: Node): Line
    requires s.Section?
  {
    Line(OpenLine(s.indent, [s.name] + s.args, s.trailing), s.newline)
  }

  function EndOf(s: Node): Line
    requires s.Section?
  {
    Line(CloseLine(s.closeIndent, s.name, s.closeTrailing), s.closeNewline)
  }

  lemma BodyLines(s: Node, body: seq<Node>)
    requires s.Section?
    ensures NodeLines(WithBody(s, body)) == [OpenOf(s)] + NodesLines(body) + [EndOf(s)]
  {
    hide OpenLine, CloseLine;
  }

  lemma OwnLines(s: Node)
    requires s.Section?
    ensures NodeLines(s) == [OpenOf(s)] + NodesLines(s.body) + [EndOf(s)] && WithBody(s, s.body) == s
  {
    hide OpenLine, CloseLine;
  }

  /** The tags of a printable section are read as its own. */
  lemma TagsRead(s: Node, body: seq<Node>)
    requires s.Section? && OpenPrintable(s) && ClosePrintable(s)
    ensures IsOpen(OpenOf(s).raw) && TagOf(OpenOf(s).raw) == Open(s.name, s.args, s.trailing) && Closes(EndOf(s).raw, s.name)
    ensures Tagged(OpenOf(s), body, EndOf(s)) == WithBody(s, body)
  {
    hide IsOpen, ParseOpen, ParseCloseTag, OpenLine, CloseLine, Indent, SkipBlanks, IsComment, HasPrefix, EqualFold;
  }

  lemma InjectLines(nodes: seq<Node>, at: set<Path>, parent: Path, k: nat, tail: Tail)
    requires nodes != []
    ensures var r := InjectNodes(nodes, at, parent, k, tail);
      r == [InjectNode(nodes[0], at, parent + [k], tail)] + InjectNodes(nodes[1..], at, parent, k + 1, tail) &&
      NodesLines(r) == NodeLines(InjectNode(nodes[0], at, parent + [k], tail)) +
                       NodesLines(InjectNodes(nodes[1..], at, parent, k + 1, tail))
  {
    hide NodeLines, InjectNode;
  }

  /** The body of an edited section. */
  function Grown(n: Node, at: set<Path>, here: Path, tail: Tail): seq<Node>
    requires n.Section?
  {
    var body := InjectNodes(n.body, at, here, 0, tail);
    if here in at then body + tail(ChildIndent(n.body)) else body
  }

  lemma InjectIsGrown(n: Node, at: set<Path>, here: Path, tail: Tail)
    requires n.Section?
    ensures InjectNode(n, at, here, tail) == WithBody(n, Grown(n, at, here, tail))
  {
  }

  lemma {:induction false} InjectReads(nodes: seq<Node>, at: set<Path>, parent: Path, k: nat, tail: Tail, read: Tail)
    requires PrintableAll(nodes) && (Edits(nodes, at, parent, k) ==> TailReads(tail, read))
    ensures ReadAs(NodesLines(InjectNodes(nodes, at, parent, k, tail)), InjectNodes(nodes, at, parent, k, read))
    decreases nodes, 0
  {
    if nodes == [] {
      ReadNone();
    } else {
      hide ReadAs, TailReads, NodeLines, NodesLines, Printable, EditsNode, InjectNode, InjectNodes;
      InjectLines(nodes, at, parent, k, tail);
      InjectLines(nodes, at, parent, k, read);
      NodeReads(nodes[0], at, parent + [k], tail, read);
      InjectReads(nodes[1..], at, parent, k + 1, tail, read);
      ReadAppend(NodeLines(InjectNode(nodes[0], at, parent + [k], tail)), [InjectNode(nodes[0], at, parent + [k], read)],
                 NodesLines(InjectNodes(nodes[1..], at, parent, k + 1, tail)), InjectNodes(nodes[1..], at, parent, k + 1, read));
    }
  }

  lemma {:induction false} NodeReads(n: Node, at: set<Path>, here: Path, tail: Tail, read: Tail)
    requires Printable(n) && (EditsNode(n, at, here) ==> TailReads(tail, read))
    ensures ReadAs(NodeLines(InjectNode(n, at, here, tail)), [InjectNode(n, at, here, read)])
    decreases n, 1
  {
    if n.CommentLine? {
      ReadCommentLine(Line(n.verbatim, n.newline));
    } else if n.Directive? {
      ReadDirectiveLine(Line(DirectiveLine(n), n.newline));
    } else {
      SectionPrintable(n);
      GrownReads(n, at, here, tail, read);
      var body, body' := Grown(n, at, here, tail), Grown(n, at, here, read);
      InjectIsGrown(n, at, here, tail);
      InjectIsGrown(n, at, here, read);
      hide ReadAs, Grown, OpenPrintable, ClosePrintable, InjectNode, NodeLines, NodesLines;
      TagsRead(n, body');
      BodyLines(n, body);
      ReadTagged(OpenOf(n), NodesLines(body), body', EndOf(n));
    }
  }

  lemma {:induction false} GrownReads(n: Node, at: set<Path>, here: Path, tail: Tail, read: Tail)
    requires n.Section? && PrintableAll(n.body) && (EditsNode(n, at, here) ==> TailReads(tail, read))
    ensures ReadAs(NodesLines(Grown(n, at, here, tail)), Grown(n, at, here, read))
    decreases n, 0
  {
    InjectReads(n.body, at, here, 0, tail, read);
    if here in at {
      var indent := ChildIndent(n.body);
      ChildIndentBlank(n.body);
      assert ReadAs(NodesLines(tail(indent)), read(indent));
      hide ReadAs, NodesLines, InjectNodes, AllBlanks;
      LinesAppend(InjectNodes(n.body, at, here, 0, tail), tail(indent));
      ReadAppend(NodesLines(InjectNodes(n.body, at, here, 0, tail)), InjectNodes(n.body, at, here, 0, read),
                 NodesLines(tail(indent)), read(indent));
    }
  }

  /** An appended section that cannot be read spoils the file. */
  lemma {:induction false} InjectBad(nodes: seq<Node>, at: set<Path>, parent: Path, k: nat, tail: Tail)
    requires PrintableAll(nodes) && Edits(nodes, at, parent, k) && TailBad(tail)
    ensures Unreadable(NodesLines(InjectNodes(nodes, at, parent, k, tail)))
    decreases nodes, 0
  {
    hide ReadAs, Unreadable, TailBad, NodeLines, NodesLines, Printable, EditsNode, InjectNode, InjectNodes;
    InjectLines(nodes, at, parent, k, tail);
    var first, rest := NodeLines(InjectNode(nodes[0], at, parent + [k], tail)), InjectNodes(nodes[1..], at, parent, k + 1, tail);
    if EditsNode(nodes[0], at, parent + [k]) {
      NodeBad(nodes[0], at, parent + [k], tail);
      UnreadableBefore(first, NodesLines(rest));
    } else {
      NodeReads(nodes[0], at, parent + [k], tail, tail);
      InjectBad(nodes[1..], at, parent, k + 1, tail);
      UnreadableBehind(first, [InjectNode(nodes[0], at, parent + [k], tail)], NodesLines(rest));
    }
  }

  lemma {:induction false} NodeBad(n: Node, at: set<Path>, here: Path, tail: Tail)
    requires Printable(n) && EditsNode(n, at, here) && TailBad(tail)
    ensures Unreadable(NodeLines(InjectNode(n, at, here, tail)))
    decreases n, 1
  {
    SectionPrintable(n);
    GrownBad(n, at, here, tail);
    InjectIsGrown(n, at, here, tail);
    hide Unreadable, Grown, OpenPrintable, ClosePrintable, InjectNode, NodeLines, NodesLines;
    var lines := NodesLines(Grown(n, at, here, tail));
    TagsRead(n, n.body);
    BodyLines(n, Grown(n, at, here, tail));
    BadInside(OpenOf(n), lines);
    UnreadableBefore([OpenOf(n)] + lines, [EndOf(n)]);
  }

  lemma {:induction false} GrownBad(n: Node, at: set<Path>, here: Path, tail: Tail)
    requires n.Section? && PrintableAll(n.body) && EditsNode(n, at, here) && TailBad(tail)
    ensures Unreadable(NodesLines(Grown(n, at, here, tail)))
    decreases n, 0
  {
    var inner, indent := InjectNodes(n.body, at, here, 0, tail), ChildIndent(n.body);
    ChildIndentBlank(n.body);
    assert Unreadable(NodesLines(tail(indent)));
    LinesAppend(inner, tail(indent));
    if Edits(n.body, at, here, 0) {
      InjectBad(n.body, at, here, 0, tail);
      hide Unreadable, NodesLines, InjectNodes;
      UnreadableBefore(NodesLines(inner), NodesLines(tail(indent)));
    } else {
      InjectReads(n.body, at, here, 0, tail, tail);
      hide ReadAs, Unreadable, NodesLines, InjectNodes;
      UnreadableBehind(NodesLines(inner), inner, NodesLines(tail(indent)));
    }
  }

  // ----- The lines of edited and stripped configurations -----

  /** A line of its own. */
  predicate FitLine(l: Line) {
    l.newline == "\n" && '\n' !in l.raw && !Continued(l.raw)
  }

  /** Lines that were there before, or lines of their own. */
  predicate Mixed(a: seq<Line>, b: seq<Line>) {
    forall l <- a :: l in b || FitLine(l)
  }

  /** The same with the last line unchanged. */
  predicate Between(a: seq<Line>, b: seq<Line>) {
    if b == [] then a == [] else a != [] && a[|a| - 1] == b[|b| - 1] && Mixed(a[..|a| - 1], b[..|b| - 1])
  }

  lemma BetweenAppend(a1: seq<Line>, b1: seq<Line>, a2: seq<Line>, b2: seq<Line>)
    requires Between(a1, b1) && Between(a2, b2)
    ensures Between(a1 + a2, b1 + b2)
  {
    hide FitLine;
    var a, b := a1 + a2, b1 + b2;
    if b2 == [] {
      assert a == a1 && b == b1;
    } else if b1 == [] {
      assert a == a2 && b == b2;
    } else {
      assert a[..|a| - 1] == a1 + a2[..|a2| - 1] && b[..|b| - 1] == b1 + b2[..|b2| - 1];
      BetweenIsMixed(a1, b1);
    }
  }

  lemma BetweenIsMixed(a: seq<Line>, b: seq<Line>)
    requires Between(a, b)
    ensures Mixed(a, b)
  {
    hide FitLine;
    if b != [] {
      assert a == a[..|a| - 1] + [a[|a| - 1]] && b == b[..|b| - 1] + [b[|b| - 1]];
    }
  }

  lemma BetweenSame(a: seq<Line>)
    ensures Between(a, a)
  {
  }

  lemma BetweenTags(open: Line, x: seq<Line>, y: seq<Line>, end: Line)
    requires Mixed(x, y)
    ensures Between([open] + x + [end], [open] + y + [end])
  {
    hide FitLine;
    var a, b := [open] + x + [end], [open] + y + [end];
    assert a[..|a| - 1] == [open] + x && b[..|b| - 1] == [open] + y;
  }

  lemma BetweenPhysical(a: seq<Line>, b: seq<Line>)
    requires Between(a, b) && Physical(b)
    ensures Physical(a) && (NoneContinued(b) ==> NoneContinued(a))
  {
    hide Continued;
    if b != [] {
      var n, m := |a| - 1, |b| - 1;
      forall i | 0 <= i < n
        ensures a[i].newline == "\n" && '\n' !in a[i].raw && (NoneContinued(b) ==> !Continued(a[i].raw))
      {
        assert a[i] == a[..n][i] && a[i] in a[..n];
        if !FitLine(a[i]) {
          var j :| 0 <= j < m && b[..m][j] == a[i];
          assert b[j] == a[i];
        }
      }
    }
  }

  ghost predicate TailFits(tail: Tail) {
    forall indent: string :: AllBlanks(indent) ==> forall l <- NodesLines(tail(indent)) :: FitLine(l)
  }

  lemma {:induction false} InjectBetween(nodes: seq<Node>, at: set<Path>, parent: Path, k: nat, tail: Tail)
    requires PrintableAll(nodes) && TailFits(tail)
    ensures Between(NodesLines(InjectNodes(nodes, at, parent, k, tail)), NodesLines(nodes))
    decreases nodes, 0
  {
    if nodes != [] {
      hide TailFits, Between, NodeLines, Printable, InjectNode, InjectNodes;
      InjectLines(nodes, at, parent, k, tail);
      NodeBetween(nodes[0], at, parent + [k], tail);
      InjectBetween(nodes[1..], at, parent, k + 1, tail);
      BetweenAppend(NodeLines(InjectNode(nodes[0], at, parent + [k], tail)), NodeLines(nodes[0]),
                    NodesLines(InjectNodes(nodes[1..], at, parent, k + 1, tail)), NodesLines(nodes[1..]));
    }
  }

  lemma {:induction false} NodeBetween(n: Node, at: set<Path>, here: Path, tail: Tail)
    requires Printable(n) && TailFits(tail)
    ensures Between(NodeLines(InjectNode(n, at, here, tail)), NodeLines(n))
    decreases n, 1
  {
    if n.Section? {
      SectionPrintable(n);
      GrownMixed(n, at, here, tail);
      InjectIsGrown(n, at, here, tail);
      hide Between, Mixed, TailFits, Grown, InjectNode, NodeLines, NodesLines;
      BodyLines(n, Grown(n, at, here, tail));
      OwnLines(n);
      BetweenTags(OpenOf(n), NodesLines(Grown(n, at, here, tail)), NodesLines(n.body), EndOf(n));
    } else {
      BetweenSame(NodeLines(n));
    }
  }

  lemma {:induction false} GrownMixed(n: Node, at: set<Path>, here: Path, tail: Tail)
    requires n.Section? && PrintableAll(n.body) && TailFits(tail)
    ensures Mixed(NodesLines(Grown(n, at, here, tail)), NodesLines(n.body))
    decreases n, 0
  {
    var inner, indent := InjectNodes(n.body, at, here, 0, tail), ChildIndent(n.body);
    ChildIndentBlank(n.body);
    InjectBetween(n.body, at, here, 0, tail);
    hide Between, FitLine, NodesLines, InjectNodes;
    BetweenIsMixed(NodesLines(inner), NodesLines(n.body));
    LinesAppend(inner, tail(indent));
  }

  lemma {:induction false} FilterMixed(body: seq<Node>, skipping: nat)
    ensures Mixed(NodesLines(Filter(body, skipping)), NodesLines(body))
    decreases |body|
  {
    hide FitLine, NodeLines, IsMarker;
    if body != [] {
      if skipping > 0 { FilterMixed(body[1..], skipping - 1); }
      else if IsMarker(body[0]) { FilterMixed(body[1..], 2); }
      else {
        FilterMixed(body[1..], 0);
        assert ([body[0]] + Filter(body[1..], 0))[1..] == Filter(body[1..], 0);
      }
    }
  }

  lemma StripLines(nodes: seq<Node>)
    requires nodes != []
    ensures NodesLines(StripNodes(nodes)) == NodeLines(StripNode(nodes[0])) + NodesLines(StripNodes(nodes[1..]))
  {
    hide NodeLines, StripNode;
    assert StripNodes(nodes)[1..] == StripNodes(nodes[1..]);
  }

  lemma {:induction false} StripBetween(nodes: seq<Node>)
    ensures Between(NodesLines(StripNodes(nodes)), NodesLines(nodes))
    decreases SizeAll(nodes), 1
  {
    if nodes != [] {
      hide Between, NodeLines, StripNode, StripNodes;
      StripLines(nodes);
      StripNodeBetween(nodes[0]);
      StripBetween(nodes[1..]);
      BetweenAppend(NodeLines(StripNode(nodes[0])), NodeLines(nodes[0]), NodesLines(StripNodes(nodes[1..])), NodesLines(nodes[1..]));
    }
  }

  lemma {:induction false} StripNodeBetween(n: Node)
    ensures Between(NodeLines(StripNode(n)), NodeLines(n))
    decreases Size(n), 0
  {
    if n.Section? {
      var kept := Filter(n.body, 0);
      FilterShrinks(n.body, 0);
      StripBetween(kept);
      FilterMixed(n.body, 0);
      assert StripNode(n) == WithBody(n, StripNodes(kept));
      hide Between, FitLine, NodeLines, NodesLines, Filter, StripNodes, StripNode;
      BetweenIsMixed(NodesLines(StripNodes(kept)), NodesLines(kept));
      BodyLines(n, StripNodes(kept));
      OwnLines(n);
      BetweenTags(OpenOf(n), NodesLines(StripNodes(kept)), NodesLines(n.body), EndOf(n));
    } else {
      BetweenSame(NodeLines(n));
    }
  }

  /** Text has only one way to be cut into lines as they stand in a file. */
  lemma {:induction false} LinesOfText(a: seq<Line>, b: seq<Line>)
    requires Physical(a) && Physical(b) && TextOf(a) == TextOf(b)
    ensures a == b
    decreases |a|
  {
    if a == [] {
      if b != [] { FirstOfText(b); }
    } else if b == [] {
      FirstOfText(a);
    } else {
      FirstOfText(a);
      FirstOfText(b);
      hide TextOf;
      assert a[0] == b[0] && TextOf(a[1..]) == TextOf(b[1..]);
      LinesOfText(a[1..], b[1..]);
      assert a == [a[0]] + a[1..] && b == [b[0]] + b[1..];
    }
  }

  /** The first line and the rest can be told from the text. */
  lemma FirstOfText(lines: seq<Line>)
    requires Physical(lines) && lines != []
    ensures var t := TextOf(lines); var n := LineEnd(t);
      t != "" && lines[0] == Line(t[..n], if n < |t| then "\n" else "") && Physical(lines[1..]) &&
      TextOf(lines[1..]) == if n < |t| then t[n + 1..] else ""
  {
    var l, rest := lines[0], TextOf(lines[1..]);
    assert TextOf(lines) == l.raw + l.newline + rest && '\n' !in l.raw;
    PhysicalRest(lines);
    hide TextOf, Physical;
    if l.newline == "" {
      assert l.raw + "" + "" == l.raw;
      FirstLineEnd(l.raw, "");
      assert l.raw[..|l.raw|] == l.raw;
    } else {
      CutLine(l.raw, rest);
    }
  }

  lemma PhysicalRest(lines: seq<Line>)
    requires Physical(lines) && lines != []
    ensures Physical(lines[1..]) && (lines[0].newline == "\n" || (lines[0].newline == "" && lines[0].raw != "" && TextOf(lines[1..]) == ""))
  {
    if lines[0].newline == "" { assert lines[1..] == []; }
  }

  lemma CutLine(raw: string, rest: string)
    requires '\n' !in raw
    ensures var t := raw + "\n" + rest; LineEnd(t) == |raw| && t[..|raw|] == raw && t[|raw| + 1..] == rest
  {
    assert raw + "\n" + rest == raw + ("\n" + rest);
    FirstLineEnd(raw, rest);
  }

  // ----- The comments of a configuration -----

  predicate Honest(n: Node)
    decreases n, 1
  {
    match n
    case Directive(_, _, _, _, _) => IsDirective(DirectiveLine(n))
    case Section(indent, _, _, _, _, body, closeIndent, _, _) => AllBlanks(indent) && AllBlanks(closeIndent) && HonestAll(body)
    case CommentLine(verbatim, _) => IsComment(verbatim)
  }

  /** Comments are printed as comments, and nothing else is. */
  predicate HonestAll(nodes: seq<Node>)
    decreases nodes, 0
  {
    nodes == [] || (Honest(nodes[0]) && HonestAll(nodes[1..]))
  }

  lemma {:induction false} ParsedHonest(lines: seq<Line>, close: string, nodes: seq<Node>, rest: seq<Line>)
    requires ParseBody(lines, close) == Good(nodes, rest)
    ensures HonestAll(nodes)
    decreases |lines|
  {
    hide *;
    ReadCases(lines, close, nodes, rest);
    if nodes == [] {
      NothingHonest();
    } else if FirstIsSection(lines, close, nodes, rest) {
      SectionIsFirst(lines, close, nodes, rest);
      var s := ParseSection(lines).section;
      var stop := SectionCase(lines);
      SectionBody(lines, s, stop);
      LinesRead(lines[1..], s.name, s.body, stop);
      StopIsShorter(lines[1..], s.body, stop);
      ParsedHonest(lines[1..], s.name, s.body, stop);
      ParsedHonest(stop[1..], close, nodes[1..], rest);
      SectionIsHonest(lines, s, stop);
      HonestFirst(nodes);
    } else {
      OneIsFirst(lines, close, nodes, rest);
      ParsedHonest(lines[1..], close, nodes[1..], rest);
      OneIsHonest(lines, close, nodes, rest);
      HonestFirst(nodes);
    }
  }

  lemma NothingHonest()
    ensures HonestAll([])
  {
  }

  lemma HonestFirst(nodes: seq<Node>)
    requires nodes != []
    ensures HonestAll(nodes) <==> Honest(nodes[0]) && HonestAll(nodes[1..])
  {
  }

  lemma OneIsHonest(lines: seq<Line>, close: string, nodes: seq<Node>, rest: seq<Line>)
    requires lines != [] && nodes != []
    requires FirstIsComment(lines, close, nodes, rest) || FirstIsDirective(lines, close, nodes, rest)
    ensures Honest(nodes[0])
  {
    if FirstIsDirective(lines, close, nodes, rest) { DirectiveAgain(lines[0].raw, lines[0].newline); }
    hide IsDirective, IsComment, ParseDirective, DirectiveLine, ParseBody;
  }

  lemma SectionIsHonest(lines: seq<Line>, s: Node, stop: seq<Line>)
    requires lines != [] && s.Section? && SectionRead(lines, s, stop) && HonestAll(s.body)
    ensures Honest(s)
  {
    IndentIsBlank(lines[0].raw);
    IndentIsBlank(stop[0].raw);
    hide ParseBody, ParseOpen, ParseCloseTag, Indent, AllBlanks;
  }

  function CommentsOf(n: Node): nat
    decreases n, 1
  {
    match n
    case Directive(_, _, _, _, _) => 0
    case Section(_, _, _, _, _, body, _, _, _) => Comments(body)
    case CommentLine(_, _) => 1
  }

  function Comments(nodes: seq<Node>): nat
    decreases nodes, 0
  {
    if nodes == [] then 0 else CommentsOf(nodes[0]) + Comments(nodes[1..])
  }

  function CommentLines(lines: seq<Line>): nat {
    if lines == [] then 0 else (if IsComment(lines[0].raw) then 1 else 0) + CommentLines(lines[1..])
  }

  lemma {:induction false} CommentLinesAppend(a: seq<Line>, b: seq<Line>)
    ensures CommentLines(a + b) == CommentLines(a) + CommentLines(b)
  {
    hide IsComment;
    if a == [] { assert a + b == b; }
    else {
      CommentLinesAppend(a[1..], b);
      assert (a + b)[0] == a[0] && (a + b)[1..] == a[1..] + b;
    }
  }

  lemma OneCommentLine(l: Line)
    ensures CommentLines([l]) == if IsComment(l.raw) then 1 else 0
  {
    assert [l][1..] == [];
  }

  /** The comments can be counted in the lines. */
  lemma {:induction false} CommentsCounted(nodes: seq<Node>)
    requires HonestAll(nodes)
    ensures CommentLines(NodesLines(nodes)) == Comments(nodes)
    decreases nodes, 0
  {
    if nodes != [] {
      NodeCounted(nodes[0]);
      CommentsCounted(nodes[1..]);
      hide CommentLines, NodeLines, CommentsOf, Honest;
      CommentLinesAppend(NodeLines(nodes[0]), NodesLines(nodes[1..]));
    }
  }

  lemma {:induction false} NodeCounted(n: Node)
    requires Honest(n)
    ensures CommentLines(NodeLines(n)) == CommentsOf(n)
    decreases n, 1
  {
    if n.Section? {
      CommentsCounted(n.body);
      TagsAreNoComments(n);
      OwnLines(n);
      hide CommentLines, NodeLines, NodesLines, IsComment;
      OneCommentLine(OpenOf(n));
      OneCommentLine(EndOf(n));
      CommentLinesAppend([OpenOf(n)], NodesLines(n.body));
      CommentLinesAppend([OpenOf(n)] + NodesLines(n.body), [EndOf(n)]);
    } else if n.Directive? {
      OneCommentLine(Line(DirectiveLine(n), n.newline));
      hide IsComment, DirectiveLine;
    } else {
      OneCommentLine(Line(n.verbatim, n.newline));
    }
  }

  lemma TagsAreNoComments(s: Node)
    requires s.Section? && AllBlanks(s.indent) && AllBlanks(s.closeIndent)
    ensures !IsComment(OpenOf(s).raw) && !IsComment(EndOf(s).raw)
  {
    hide IsComment, OpenLine, CloseLine, AllBlanks, PrintedOpen;
    OpenLineIs(s.indent, [s.name] + s.args, s.trailing);
    AngleLine(s.indent, PrintedOpen([s.name] + s.args, s.trailing));
    CloseLineIs(s.closeIndent, s.name, s.closeTrailing);
    AngleLine(s.closeIndent, "</" + s.name + ">" + s.closeTrailing);
  }

  lemma {:induction false} StripHonest(nodes: seq<Node>)
    requires HonestAll(nodes)
    ensures HonestAll(StripNodes(nodes))
    decreases SizeAll(nodes), 1
  {
    if nodes != [] {
      var n := nodes[0];
      StripHonest(nodes[1..]);
      assert SizeAll(nodes) == Size(n) + SizeAll(nodes[1..]);
      if n.Section? {
        FilterShrinks(n.body, 0);
        FilterHonest(n.body, 0);
        StripHonest(Filter(n.body, 0));
      }
      hide IsDirective, IsComment, DirectiveLine, Filter;
      assert StripNodes(nodes)[1..] == StripNodes(nodes[1..]);
    }
  }

  lemma {:induction false} FilterHonest(body: seq<Node>, skipping: nat)
    requires HonestAll(body)
    ensures HonestAll(Filter(body, skipping))
    decreases |body|
  {
    hide Honest, IsMarker;
    if body != [] {
      if skipping > 0 { FilterHonest(body[1..], skipping - 1); }
      else if IsMarker(body[0]) { FilterHonest(body[1..], 2); }
      else {
        FilterHonest(body[1..], 0);
        assert ([body[0]] + Filter(body[1..], 0))[1..] == Filter(body[1..], 0);
      }
    }
  }

  // ----- What is stripped besides the edit shows -----

  /** The nodes behind the marker have no comments. */
  ghost predicate Silent(tail: Tail) {
    forall indent: string :: var s := tail(indent); |s| == 3 && IsMarker(s[0]) && QuietNode(s[1]) && QuietNode(s[2])
  }

  predicate QuietNode(n: Node) {
    CommentsOf(n) == 0 && CommentsOf(StripNode(n)) == 0
  }

  lemma SilentGone(s: seq<Node>, skipping: nat)
    requires |s| == 3 && IsMarker(s[0]) && QuietNode(s[1]) && QuietNode(s[2])
    ensures Comments(StripNodes(Filter(s, skipping))) == 0
  {
    hide IsMarker, StripNode, CommentsOf;
    var one, two := [s[2]], [s[1], s[2]];
    assert s[1..] == two && two[1..] == one && one[1..] == [];
    forall k: nat ensures Filter(one, k) == [] || Filter(one, k) == one {
      assert one[1..] == [] && (k > 0 ==> Filter(one, k) == Filter([], k - 1));
    }
    StripSilent([]);
    StripSilent(one);
    StripSilent(two);
    assert Filter(s, skipping) == if skipping > 0 then Filter(two, skipping - 1) else Filter(two, 2);
    var k: nat := if skipping > 0 then skipping - 1 else 2;
    assert Filter(two, k) ==
           if k > 0 then Filter(one, k - 1) else if IsMarker(s[1]) then Filter(one, 2) else [s[1]] + Filter(one, 0);
    assert [s[1]] + one == two && [s[1]] + [] == [s[1]];
    StripSilent([s[1]]);
  }

  lemma {:induction false} StripSilent(nodes: seq<Node>)
    requires forall n <- nodes :: QuietNode(n)
    ensures Comments(StripNodes(nodes)) == 0
    decreases |nodes|
  {
    if nodes != [] {
      assert QuietNode(nodes[0]) && forall n <- nodes[1..] :: n in nodes;
      StripSilent(nodes[1..]);
      assert StripNodes(nodes)[1..] == StripNodes(nodes[1..]);
      hide CommentsOf, StripNode;
    }
  }

  /** What is left of the injected children of a section, with what stands behind them, has no more
      comments than the children, and fewer if there were markers. */
  lemma {:induction false} FilteredLess(nodes: seq<Node>, at: set<Path>, parent: Path, k: nat, read: Tail, s: seq<Node>, skipping: nat)
    requires Silent(read) && (s == [] || exists indent: string :: s == read(indent))
    ensures var left := Comments(StripNodes(Filter(InjectNodes(nodes, at, parent, k, read) + s, skipping)));
      left <= Comments(nodes) && (!NoMarker(nodes) || !Unmarked(nodes) ==> left < Comments(nodes))
    decreases nodes, 0
  {
    if nodes == [] {
      assert [] + s == s;
      if s != [] { SilentGone(s, skipping); }
    } else {
      hide *;
      var n, m := nodes[0], InjectNode(nodes[0], at, parent + [k], read);
      var inner := InjectNodes(nodes[1..], at, parent, k + 1, read);
      NodeLess(n, at, parent + [k], read);
      FilteredLess(nodes[1..], at, parent, k + 1, read, s, if skipping > 0 then skipping - 1 else if IsMarker(n) then 2 else 0);
      MarkersFirst(nodes);
      SameMarker(n, at, parent + [k], read);
      InjectLines(nodes, at, parent, k, read);
      Assoc([m], inner, s);
      FilterCases(m, inner + s, skipping);
      StripCons(m, Filter(inner + s, 0));
    }
  }

  lemma FilterCases(m: Node, rest: seq<Node>, skipping: nat)
    ensures Filter([m] + rest, skipping) ==
      if skipping > 0 then Filter(rest, skipping - 1) else if IsMarker(m) then Filter(rest, 2) else [m] + Filter(rest, 0)
  {
    assert ([m] + rest)[1..] == rest;
    hide IsMarker;
  }

  lemma StripCons(m: Node, rest: seq<Node>)
    ensures Comments(StripNodes([m] + rest)) == CommentsOf(StripNode(m)) + Comments(StripNodes(rest))
  {
    assert ([m] + rest)[1..] == rest;
    assert StripNodes([m] + rest)[1..] == StripNodes(rest);
    hide CommentsOf, StripNode;
  }

  lemma MarkersFirst(nodes: seq<Node>)
    requires nodes != []
    ensures Comments(nodes) == CommentsOf(nodes[0]) + Comments(nodes[1..])
    ensures NoMarker(nodes) <==> !IsMarker(nodes[0]) && NoMarker(nodes[1..])
    ensures Unmarked(nodes) <==> (nodes[0].Section? ==> NoMarker(nodes[0].body) && Unmarked(nodes[0].body)) && Unmarked(nodes[1..])
  {
    hide IsMarker;
  }

  lemma SameMarker(n: Node, at: set<Path>, here: Path, read: Tail)
    ensures IsMarker(InjectNode(n, at, here, read)) <==> IsMarker(n)
  {
    hide Contains;
  }

  lemma {:induction false} NodeLess(n: Node, at: set<Path>, here: Path, read: Tail)
    requires Silent(read)
    ensures var left := CommentsOf(StripNode(InjectNode(n, at, here, read)));
      left <= CommentsOf(n) && (n.Section? && (!NoMarker(n.body) || !Unmarked(n.body)) ==> left < CommentsOf(n)) &&
      (IsMarker(n) ==> CommentsOf(n) == 1)
    decreases n, 1
  {
    if n.Section? {
      var s := if here in at then read(ChildIndent(n.body)) else [];
      FilteredLess(n.body, at, here, 0, read, s, 0);
      InjectIsGrown(n, at, here, read);
      hide Filter, StripNodes, Comments, IsMarker, Unmarked, NoMarker, Silent;
      assert InjectNodes(n.body, at, here, 0, read) + [] == InjectNodes(n.body, at, here, 0, read);
      StripNodeIs(InjectNode(n, at, here, read), Filter(Grown(n, at, here, read), 0));
    }
    hide Contains;
  }

  /** Stripping an edited configuration that has markers of its own leaves fewer comments. */
  lemma {:induction false} StrippedLess(nodes: seq<Node>, at: set<Path>, parent: Path, k: nat, read: Tail)
    requires Silent(read)
    ensures var left := Comments(StripNodes(InjectNodes(nodes, at, parent, k, read)));
      left <= Comments(nodes) && (!Unmarked(nodes) ==> left < Comments(nodes))
    decreases |nodes|
  {
    if nodes != [] {
      var m := InjectNode(nodes[0], at, parent + [k], read);
      NodeLess(nodes[0], at, parent + [k], read);
      StrippedLess(nodes[1..], at, parent, k + 1, read);
      MarkersFirst(nodes);
      assert InjectNodes(nodes, at, parent, k, read) == [m] + InjectNodes(nodes[1..], at, parent, k + 1, read);
      hide InjectNode, InjectNodes, StripNode, StripNodes, IsMarker, Unmarked, NoMarker, Silent, CommentsOf;
      StripCons(m, InjectNodes(nodes[1..], at, parent, k + 1, read));
    }
  }

  // ----- The appended lines -----

  /** No line break, and a target as `filepath.Join` and a separator make it. */
  predicate OnOneLine(webroot: string, target: string) {
    '\n' !in webroot && '\n' !in target && target != "" && target[|target| - 1] == '/'
  }

  function AliasContent(target: string): string {
    Join(["Alias", "/.well-known/acme-challenge/", target])
  }

  function RequireContent(): string {
    Join(["Require", "all", "granted"])
  }

  /** What stands behind the opening quote of the Directory tag. */
  function BehindQuote(webroot: string): string {
    webroot + "/.well-known/acme-challenge/" + "\">"
  }

  function DirectoryContent(webroot: string): string {
    "<Directory \"" + BehindQuote(webroot)
  }

  function ReadDirective(indent: string, content: string): Node {
    if DirectiveStart(content) then ParseDirective(indent, content, "\n") else Directive(indent, "", [], "", "\n")
  }

  /** What the parser reads in the place of the snippet: the target and the web root may be cut into
      several arguments. */
  function ReadSnippet(indent: string, webroot: string, target: string): seq<Node> {
    var tag := TagOf(DirectoryContent(webroot));
    [CommentLine(indent + MARKER_TEXT, "\n"),
     ReadDirective(indent, AliasContent(target)),
     Section(indent, "Directory", if tag.Open? then tag.args else [], if tag.Open? then tag.trailing else "", "\n",
             [ReadDirective(indent + "    ", RequireContent())], indent, "", "\n")]
  }

  function ReadSnippets(webroot: string, target: string): Tail {
    indent => ReadSnippet(indent, webroot, target)
  }

  lemma WordLine(indent: string, content: string)
    requires AllBlanks(indent) && content != "" && !IsSpace(content[0]) && content[0] != '#' && content[0] != '<'
    ensures var l := indent + content; IsDirective(l) && Indent(l) == indent && SkipBlanks(l) == content
  {
    IndentSkip(indent, content);
    NotBlankLine(indent + content, |indent|);
    PrefixChar(content, '#');
    PrefixChar(content, '<');
    hide TrimSpace, SkipBlanks, Indent, HasPrefix;
  }

  lemma BlanksHaveNoBreak(indent: string)
    requires AllBlanks(indent)
    ensures '\n' !in indent
  {
  }

  /** A line of words is a directive of its own. */
  lemma WordsRead(indent: string, content: string)
    requires AllBlanks(indent) && content != "" && !IsSpace(content[0]) && content[0] != '#' && content[0] != '<'
    requires '\n' !in content && content[|content| - 1] != '\\'
    ensures var l := Line(indent + content, "\n"); ReadAs([l], [ReadDirective(indent, content)]) && FitLine(l)
  {
    WordLine(indent, content);
    BlanksHaveNoBreak(indent);
    hide ReadAs, IsDirective, Indent, SkipBlanks, ParseDirective, DirectiveStart;
    ReadDirectiveLine(Line(indent + content, "\n"));
  }

  lemma JoinThree(a: string, b: string, c: string)
    ensures Join([a, b, c]) == a + (" " + b + " " + c)
  {
    JoinMore(a, [b, c]);
    JoinMore(b, [c]);
    JoinOne(c);
    assert [a] + [b, c] == [a, b, c] && [b] + [c] == [b, c];
    assert a + " " + (b + " " + c) == a + (" " + b + " " + c);
  }

  lemma AliasRead(indent: string, target: string)
    requires AllBlanks(indent) && '\n' !in target && target != "" && target[|target| - 1] == '/'
    ensures var l := Line(DirectiveLine(Alias(indent, target)), "\n");
      ReadAs([l], [ReadDirective(indent, AliasContent(target))]) && FitLine(l)
  {
    var content := AliasContent(target);
    JoinThree("Alias", "/.well-known/acme-challenge/", target);
    AliasText(target);
    AliasFields(indent, target);
    hide *;
    WordsRead(indent, content);
  }

  lemma AliasText(target: string)
    requires '\n' !in target && target != "" && target[|target| - 1] == '/'
    ensures var c := "Alias" + (" " + "/.well-known/acme-challenge/" + " " + target);
      c[0] == 'A' && '\n' !in c && c[|c| - 1] == '/' && !IsSpace('A')
  {
  }

  lemma AliasFields(indent: string, target: string)
    ensures DirectiveLine(Alias(indent, target)) == indent + AliasContent(target)
  {
    var a := Alias(indent, target);
    assert [a.name] + a.args == ["Alias", "/.well-known/acme-challenge/", target];
    hide Join;
    assert indent + AliasContent(target) + "" == indent + AliasContent(target);
  }

  lemma RequireRead(indent: string)
    requires AllBlanks(indent)
    ensures var l := Line(DirectiveLine(Require(indent)), "\n");
      ReadAs([l], [ReadDirective(indent + "    ", RequireContent())]) && FitLine(l)
  {
    JoinThree("Require", "all", "granted");
    RequireText();
    RequireFields(indent);
    assert AllBlanks(indent + "    ");
    hide *;
    WordsRead(indent + "    ", RequireContent());
  }

  lemma RequireText()
    ensures var c := "Require" + (" " + "all" + " " + "granted");
      c[0] == 'R' && '\n' !in c && c[|c| - 1] == 'd' && !IsSpace('R')
  {
  }

  lemma RequireFields(indent: string)
    ensures DirectiveLine(Require(indent)) == indent + "    " + RequireContent()
  {
    var r := Require(indent);
    assert [r.name] + r.args == ["Require", "all", "granted"];
    hide Join;
    assert indent + "    " + RequireContent() + "" == indent + "    " + RequireContent();
  }

  lemma MarkerRead(indent: string)
    requires AllBlanks(indent)
    ensures var l := Line(indent + MARKER_TEXT, "\n"); ReadAs([l], [CommentLine(l.raw, "\n")]) && FitLine(l)
  {
    MarkerText();
    BlanksHaveNoBreak(indent);
    hide ReadAs, MARKER_TEXT, IsBlank;
    IndentSkip(indent, MARKER_TEXT);
    PrefixChar(MARKER_TEXT, '#');
    ReadCommentLine(Line(indent + MARKER_TEXT, "\n"));
  }

  lemma MarkerText()
    ensures MARKER_TEXT != "" && MARKER_TEXT[0] == '#' && '\n' !in MARKER_TEXT && MARKER_TEXT[|MARKER_TEXT| - 1] == ')'
    ensures !IsBlank('#')
  {
  }

  lemma CloseRead(indent: string)
    requires AllBlanks(indent)
    ensures var l := CloseLine(indent, "Directory", "");
      Closes(l, "Directory") && Indent(l) == indent && ParseCloseTag(SkipBlanks(l)) == Tag("Directory", "") && FitLine(Line(l, "\n"))
  {
    DirectoryName();
    hide *;
    var l := CloseLine(indent, "Directory", "");
    CloseForward("Directory", "");
    CloseLineIs(indent, "Directory", "");
    AngleLine(indent, "</" + "Directory" + ">" + "");
    CloseLineEnd(indent, "Directory", "");
    ContinuedIs(l);
    BlanksHaveNoBreak(indent);
    ClosesIs(l);
    FitLineIs(Line(l, "\n"));
  }

  lemma DirectoryName()
    ensures '\n' !in "Directory" && NoSpaceAtEnds("Directory") && '>' !in "Directory" && ("</" + "Directory" + ">" + "")[1] == '/'
  {
  }

  lemma ClosesIs(l: string)
    requires !IsComment(l) && HasPrefix(SkipBlanks(l), "</") && ParseCloseTag(SkipBlanks(l)) == Tag("Directory", "")
    ensures Closes(l, "Directory")
  {
    hide ParseCloseTag, IsComment, SkipBlanks, HasPrefix;
  }

  lemma FitLineIs(l: Line)
    ensures FitLine(l) <==> l.newline == "\n" && '\n' !in l.raw && !Continued(l.raw)
  {
  }

  // ----- When the Directory tag closes -----

  /** The search for `>` from inside the quotes ends, with nothing behind it but a comment. */
  predicate TagCloses(webroot: string) {
    var w := BehindQuote(webroot);
    var s := Scan(w, '>', true, false);
    s.Found? && var r := w[s.at + 1..]; TrimSpace(r[..IndexOf(r, '#')]) == ""
  }

  lemma {:induction false} ScanHarmless(s: string, t: char, q: bool)
    requires forall c <- s :: c != '"' && c != '\\' && (c == t ==> q)
    ensures Scan(s, t, q, false) == Ended(q, false)
  {
    if s != "" {
      assert s[0] in s && forall c <- s[1..] :: c in s;
      ScanHarmless(s[1..], t, q);
    }
  }

  lemma QuoteOpens()
    ensures Scan("<Directory \"", '>', false, false) == Ended(true, false)
  {
    ScanHarmless("<Directory ", '>', false);
    assert "<Directory \"" == "<Directory " + "\"" && "\""[1..] == "";
    assert Scan("\"", '>', false, false) == Later(Scan("", '>', true, false), 1);
    ScanAppend("<Directory ", "\"", '>', false, false);
  }

  /** The first field of the tag is its name, whatever the web root is. */
  lemma NameFirst(x: string)
    ensures var f := SplitArgs("Directory \"" + x); f != [] && f[0] == "Directory"
  {
    var y := " \"" + x;
    assert "Directory \"" + x == "Directory" + y && IsBlank(y[0]);
    NameLength(y);
    hide SplitArgs, ArgLen;
    SplitNext("Directory", y);
  }

  lemma NameLength(y: string)
    requires y != "" && IsBlank(y[0])
    ensures ArgLen("Directory" + y) == |"Directory"|
  {
    WordPrefix("Directory", y);
    assert ("Directory" + y)[0] == 'D';
  }

  lemma DirectoryTag(webroot: string)
    ensures var tag := TagOf(DirectoryContent(webroot));
      (tag.Open? <==> TagCloses(webroot)) && (tag.Open? ==> tag.name == "Directory")
  {
    var head, w := "<Directory \"", BehindQuote(webroot);
    QuoteOpens();
    ScanAppend(head, w, '>', false, false);
    hide Scan, SplitArgs, BehindQuote, TrimSpace, IndexOf;
    var content := head + w;
    var s := Scan(w, '>', true, false);
    DirectoryStart(content, w);
    if s.Found? {
      var end := s.at + |head|;
      TagParts(content, w, s.at);
      NameFirst(w[..s.at]);
      assert Scan(content, '>', false, false) == Found(end);
    }
  }

  lemma DirectoryStart(content: string, w: string)
    requires content == "<Directory \"" + w
    ensures content != "" && content[0] == '<' && |content| > 1 && content[1] == 'D' && SkipBlanks(content) == content
  {
    SkipNothing(content);
  }

  lemma TagParts(content: string, w: string, i: nat)
    requires content == "<Directory \"" + w && i < |w|
    ensures var end := i + |"<Directory \""|;
      content[1..end] == "Directory \"" + w[..i] && content[end + 1..] == w[i + 1..]
  {
  }

  lemma {:induction false} ScanInQuotes(s: string, e: bool)
    requires '"' !in s
    ensures Scan(s, '>', true, e).Ended? && Scan(s, '>', true, e).inQuote
  {
    if s != "" { ScanInQuotes(s[1..], Escaping(s[0], e)); }
  }

  /** The search from behind the web root. */
  lemma ScanSuffix(q: bool, e: bool)
    ensures var s := Scan("/.well-known/acme-challenge/" + "\">", '>', q, e);
      if q then s == Found(|"/.well-known/acme-challenge/"| + 1) else s.Ended?
  {
    var b := ".well-known/acme-challenge/";
    PathText(b);
    ScanHarmless(b, '>', q);
    hide *;
    ScanPath(b, q, e);
  }

  lemma PathText(b: string)
    requires b == ".well-known/acme-challenge/"
    ensures "/.well-known/acme-challenge/" == ['/'] + b && forall c <- b :: c != '"' && c != '\\' && c != '>'
  {
  }

  lemma ScanPath(b: string, q: bool, e: bool)
    requires Scan(b, '>', q, false) == Ended(q, false)
    ensures var s := Scan(['/'] + b + "\">", '>', q, e); if q then s == Found(|b| + 2) else s.Ended?
  {
    assert ['/'] + b + "\">" == ['/'] + (b + "\">") && "\">" == ['"'] + ">" && ">" == ['>'] + "";
    hide Scan;
    ScanOne('/', b + "\">", q, e);
    ScanAppend(b, "\">", '>', q, false);
    ScanOne('"', ">", q, false);
    ScanOne('>', "", !q, false);
    ScanNothing(!q);
  }

  lemma ScanOne(c: char, x: string, q: bool, e: bool)
    ensures Scan([c] + x, '>', q, e) ==
      if Hit(c, '>', q, e) then Found(0) else Later(Scan(x, '>', Quoting(c, q, e), Escaping(c, e)), 1)
  {
    assert ([c] + x)[1..] == x;
  }

  lemma ScanNothing(q: bool)
    ensures Scan("", '>', q, false) == Ended(q, false)
  {
  }

  lemma {:induction false} ScanMisses(s: string, q: bool, e: bool)
    requires '>' !in s
    ensures Scan(s, '>', q, e).Ended?
  {
    if s != "" { ScanMisses(s[1..], Quoting(s[0], q, e), Escaping(s[0], e)); }
  }

  /** A web root without `>` closes the tag exactly when its double quotes, not counting escaped ones,
      come in pairs. */
  lemma QuotesInPairs(webroot: string)
    requires '>' !in webroot
    ensures var s := Scan(webroot, '>', true, false); s.Ended? && (TagCloses(webroot) <==> s.inQuote)
  {
    var suffix := "/.well-known/acme-challenge/" + "\">";
    var s := Scan(webroot, '>', true, false);
    ScanMisses(webroot, true, false);
    ScanAppend(webroot, suffix, '>', true, false);
    ScanSuffix(s.inQuote, s.escaped);
    hide Scan;
    assert BehindQuote(webroot) == webroot + suffix;
    if s.inQuote {
      var w := BehindQuote(webroot);
      assert w[|w|..] == "" && TrimSpace("") == "";
    }
  }

  /** In particular every web root without double quotes does. */
  lemma NoQuoteCloses(webroot: string)
    requires '"' !in webroot
    ensures TagCloses(webroot)
  {
    var suffix := "/.well-known/acme-challenge/" + "\">";
    var s := Scan(webroot, '>', true, false);
    ScanInQuotes(webroot, false);
    ScanAppend(webroot, suffix, '>', true, false);
    ScanSuffix(true, s.escaped);
    hide Scan;
    var w := BehindQuote(webroot);
    assert w == webroot + suffix;
    assert w[|w|..] == "" && TrimSpace("") == "";
  }

  // ----- The snippet as a whole -----

  lemma DirectoryOpen(indent: string, webroot: string)
    requires AllBlanks(indent)
    ensures var raw := OpenLine(indent, ["Directory", Quoted(webroot)], "");
      raw == indent + DirectoryContent(webroot) && IsOpen(raw) && Indent(raw) == indent && TagOf(raw) == TagOf(DirectoryContent(webroot)) &&
      ('\n' !in webroot ==> FitLine(Line(raw, "\n")))
  {
    var q, content := Quoted(webroot), DirectoryContent(webroot);
    JoinMore("Directory", [q]);
    JoinOne(q);
    assert ["Directory"] + [q] == ["Directory", q];
    OpenText(q, webroot);
    OpenLineIs(indent, ["Directory", q], "");
    DirectoryStart(content, BehindQuote(webroot));
    BlanksHaveNoBreak(indent);
    OpenBreaks(webroot);
    hide Quoted, DirectoryContent, Join, AllBlanks, OpenLine, IsComment, BehindQuote;
    AngleLine(indent, content);
  }

  lemma OpenText(q: string, webroot: string)
    requires q == Quoted(webroot)
    ensures "<" + ("Directory" + " " + q) + ">" + "" == DirectoryContent(webroot)
  {
  }

  lemma OpenBreaks(webroot: string)
    ensures var c := DirectoryContent(webroot); ('\n' !in webroot ==> '\n' !in c) && c != "" && c[|c| - 1] == '>'
  {
  }

  lemma DirectoryNodes(indent: string, webroot: string)
    ensures var s := DirectoryBlock(indent, webroot);
      s.Section? && OpenOf(s) == Line(OpenLine(indent, ["Directory", Quoted(webroot)], ""), "\n") &&
      EndOf(s) == Line(CloseLine(indent, "Directory", ""), "\n") &&
      NodesLines(s.body) == [Line(DirectiveLine(Require(indent)), "\n")] && s.body == [Require(indent)]
  {
    var s := DirectoryBlock(indent, webroot);
    assert [s.name] + s.args == ["Directory", Quoted(webroot)];
    hide Quoted, OpenLine, CloseLine, DirectiveLine;
    assert s.body[1..] == [];
  }

  lemma DirectoryReads(indent: string, webroot: string)
    requires AllBlanks(indent)
    ensures var lines := NodeLines(DirectoryBlock(indent, webroot));
      if TagCloses(webroot) then ReadAs(lines, [ReadSnippet(indent, webroot, "")[2]]) else Unreadable(lines)
  {
    var s := DirectoryBlock(indent, webroot);
    var open, end := OpenOf(s), EndOf(s);
    var body := [ReadDirective(indent + "    ", RequireContent())];
    DirectoryTag(webroot);
    DirectoryOpen(indent, webroot);
    DirectoryNodes(indent, webroot);
    OwnLines(s);
    RequireRead(indent);
    CloseRead(indent);
    hide ReadAs, Unreadable, TagCloses, IsOpen, Closes, TagOf, OpenLine, CloseLine, Indent, Quoted, DirectoryContent, Require,
      NodeLines, NodesLines, DirectoryBlock, ReadDirective, FitLine, ParseCloseTag, SkipBlanks;
    if TagCloses(webroot) {
      ReadTagged(open, NodesLines(s.body), body, end);
    } else {
      BadTagged(open);
      UnreadableBefore([open], NodesLines(s.body));
      UnreadableBefore([open] + NodesLines(s.body), [end]);
    }
  }

  lemma SnippetLines(indent: string, webroot: string, target: string)
    ensures NodesLines(Snippet(indent, webroot, target)) ==
      [Line(indent + MARKER_TEXT, "\n")] + ([Line(DirectiveLine(Alias(indent, target)), "\n")] + NodeLines(DirectoryBlock(indent, webroot)))
  {
    var m, a, d := CommentLine(indent + MARKER_TEXT, "\n"), Alias(indent, target), DirectoryBlock(indent, webroot);
    var s := Snippet(indent, webroot, target);
    assert s == [m] + ([a] + [d]);
    assert NodeLines(a) == [Line(DirectiveLine(a), "\n")] && NodeLines(m) == [Line(indent + MARKER_TEXT, "\n")];
    hide MARKER_TEXT, DirectiveLine, Snippet, Alias, DirectoryBlock, NodeLines;
    LinesAppend([m], [a] + [d]);
    LinesAppend([a], [d]);
    LinesOne(m);
    LinesOne(a);
    LinesOne(d);
  }

  lemma LinesOne(n: Node)
    ensures NodesLines([n]) == NodeLines(n)
  {
    assert [n][1..] == [] && NodeLines(n) + [] == NodeLines(n);
  }

  lemma SnippetReads(indent: string, webroot: string, target: string)
    requires AllBlanks(indent) && OnOneLine(webroot, target)
    ensures var lines := NodesLines(Snippet(indent, webroot, target));
      if TagCloses(webroot) then ReadAs(lines, ReadSnippet(indent, webroot, target)) else Unreadable(lines)
  {
    var marker, a := Line(indent + MARKER_TEXT, "\n"), Line(DirectiveLine(Alias(indent, target)), "\n");
    var lines := NodeLines(DirectoryBlock(indent, webroot));
    var read := ReadSnippet(indent, webroot, target);
    assert read == [read[0]] + ([read[1]] + [read[2]]) && read[2] == ReadSnippet(indent, webroot, "")[2];
    SnippetLines(indent, webroot, target);
    MarkerRead(indent);
    AliasRead(indent, target);
    DirectoryReads(indent, webroot);
    assert read[0] == CommentLine(marker.raw, "\n") && read[1] == ReadDirective(indent, AliasContent(target));
    hide *;
    if TagCloses(webroot) {
      ReadAppend([a], [read[1]], lines, [read[2]]);
      ReadAppend([marker], [read[0]], [a] + lines, [read[1]] + [read[2]]);
    } else {
      UnreadableBehind([a], [read[1]], lines);
      UnreadableBehind([marker], [read[0]], [a] + lines);
    }
  }

  lemma SnippetFits(indent: string, webroot: string, target: string)
    requires AllBlanks(indent) && OnOneLine(webroot, target)
    ensures forall l <- NodesLines(Snippet(indent, webroot, target)) :: FitLine(l)
  {
    var s := DirectoryBlock(indent, webroot);
    SnippetLines(indent, webroot, target);
    DirectoryNodes(indent, webroot);
    OwnLines(s);
    MarkerRead(indent);
    AliasRead(indent, target);
    RequireRead(indent);
    CloseRead(indent);
    DirectoryOpen(indent, webroot);
    hide *;
    FitFive(Line(indent + MARKER_TEXT, "\n"), Line(DirectiveLine(Alias(indent, target)), "\n"), OpenOf(s),
            Line(DirectiveLine(Require(indent)), "\n"), EndOf(s));
  }

  lemma FitFive(a: Line, b: Line, c: Line, d: Line, e: Line)
    requires FitLine(a) && FitLine(b) && FitLine(c) && FitLine(d) && FitLine(e)
    ensures forall l <- [a] + ([b] + ([c] + [d] + [e])) :: FitLine(l)
  {
    hide FitLine;
  }

  lemma ReadSnippetsSilent(webroot: string, target: string)
    ensures Marked(ReadSnippets(webroot, target)) && Silent(ReadSnippets(webroot, target))
  {
    forall indent: string
      ensures var s := ReadSnippet(indent, webroot, target); |s| == 3 && IsMarker(s[0]) && QuietNode(s[1]) && QuietNode(s[2])
    {
      MarkerIsMarker(indent);
      var s := ReadSnippet(indent, webroot, target);
      assert s[1].Directive? && s[2].Section?;
      SectionQuiet(s[2], indent + "    ");
      hide IsMarker, TagOf, ReadDirective;
    }
    hide IsMarker, QuietNode;
  }

  lemma SectionQuiet(s: Node, indent: string)
    requires s.Section? && s.body == [ReadDirective(indent, RequireContent())]
    ensures QuietNode(s)
  {
    var r := ReadDirective(indent, RequireContent());
    assert r.Directive?;
    OneDirective(r);
    hide ReadDirective, Filter, StripNodes, Comments;
    StripNodeIs(s, [r]);
  }

  lemma OneDirective(r: Node)
    requires r.Directive?
    ensures Filter([r], 0) == [r] && StripNodes([r]) == [r] && Comments([r]) == 0
  {
    assert [r][1..] == [] && [r] + [] == [r];
    assert Filter([], 0) == [] && StripNodes([]) == [] && Comments([]) == 0;
  }

  // ----- Through the text -----

  /** `removeChallengeAliases`: a file that does not parse is left as it is. */
  function CleanedText(text: string): string {
    match Parse(text)
    case Failed => text
    case Config(nodes) => NodesText(StripNodes(nodes))
  }

  lemma TextRead(lines: seq<Line>, nodes: seq<Node>, text: string)
    requires text == TextOf(lines) && Physical(lines) && NoneContinued(lines)
    ensures ReadAs(lines, nodes) ==> Parse(text) == Config(nodes)
    ensures Unreadable(lines) ==> Parse(text) == Failed
  {
    LogicalMerges(lines);
    MergeSame(lines);
    BodyEnd("");
    assert lines + [] == lines;
    ParseIs(text, nodes);
    PrependEnd(nodes, []);
    hide ParseBody, TextOf, Physical, NoneContinued, Merge, LogicalLines;
    if ReadAs(lines, nodes) {
      assert ParseBody(lines + [], "") == PrependAll(nodes, ParseBody([], ""));
    }
    if Unreadable(lines) {
      assert ParseBody(lines + [], "") == Bad;
      ParseFails(text);
    }
  }

  lemma ParseFails(text: string)
    requires ParseBody(LogicalLines(text), "") == Bad
    ensures Parse(text) == Failed
  {
  }

  /** What the edited text parses to: the edited configuration, unless a Directory tag does not close. */
  lemma EditedParses(src: string, nodes: seq<Node>, at: set<Path>, webroot: string, target: string)
    requires Parse(src) == Config(nodes) && SectionsStable(nodes) && DirectivesStable(nodes) && OnOneLine(webroot, target)
    ensures Parse(NodesText(InjectNodes(nodes, at, [], 0, Snippets(webroot, target)))) ==
      if Edits(nodes, at, [], 0) && !TagCloses(webroot) then Failed
      else Config(InjectNodes(nodes, at, [], 0, ReadSnippets(webroot, target)))
  {
    var tail, read := Snippets(webroot, target), ReadSnippets(webroot, target);
    var edited, again := InjectNodes(nodes, at, [], 0, tail), InjectNodes(nodes, at, [], 0, read);
    forall indent: string | AllBlanks(indent)
      ensures var lines := NodesLines(tail(indent));
        (forall l <- lines :: FitLine(l)) && if TagCloses(webroot) then ReadAs(lines, read(indent)) else Unreadable(lines)
    {
      SnippetReads(indent, webroot, target);
      SnippetFits(indent, webroot, target);
    }
    assert TailFits(tail) && (TagCloses(webroot) ==> TailReads(tail, read)) && (!TagCloses(webroot) ==> TailBad(tail));
    hide *;
    ParsedLines(src, nodes);
    InjectBetween(nodes, at, [], 0, tail);
    BetweenPhysical(NodesLines(edited), NodesLines(nodes));
    NodesTextIs(edited);
    TextRead(NodesLines(edited), again, NodesText(edited));
    if Edits(nodes, at, [], 0) && !TagCloses(webroot) { InjectBad(nodes, at, [], 0, tail); }
    else { InjectReads(nodes, at, [], 0, tail, read); }
  }

  /** Equal texts of configurations as they are parsed have equally many comments. */
  lemma SameComments(a: seq<Node>, b: seq<Node>)
    requires HonestAll(a) && HonestAll(b) && Physical(NodesLines(a)) && Physical(NodesLines(b)) && NodesText(a) == NodesText(b)
    ensures Comments(a) == Comments(b)
  {
    hide *;
    NodesTextIs(a);
    NodesTextIs(b);
    LinesOfText(NodesLines(a), NodesLines(b));
    CommentsCounted(a);
    CommentsCounted(b);
  }

  lemma ParsedText(src: string, nodes: seq<Node>)
    requires Parse(src) == Config(nodes)
    ensures HonestAll(nodes) && Physical(NodesLines(nodes))
  {
    hide *;
    ParseIs(src, nodes);
    ParsedLines(src, nodes);
    ParsedHonest(LogicalLines(src), "", nodes, []);
  }

  /** The challenge edit of a file and its cleanup, through the text: for every parsed configuration
      that is a fixed point, every choice of sections and every web root on one line, the cleanup
      writes the text of the configuration exactly when that has no markers of its own and, if a
      section was edited, the web root closes its tag. */
  lemma ChallengeUndoneExactly(src: string, nodes: seq<Node>, at: set<Path>, webroot: string, target: string)
    requires Parse(src) == Config(nodes) && SectionsStable(nodes) && DirectivesStable(nodes) && OnOneLine(webroot, target)
    ensures CleanedText(NodesText(InjectNodes(nodes, at, [], 0, Snippets(webroot, target)))) == NodesText(nodes) <==>
      Unmarked(nodes) && (Edits(nodes, at, [], 0) ==> TagCloses(webroot))
  {
    var text := NodesText(InjectNodes(nodes, at, [], 0, Snippets(webroot, target)));
    var again := InjectNodes(nodes, at, [], 0, ReadSnippets(webroot, target));
    var left := StripNodes(again);
    EditedParses(src, nodes, at, webroot, target);
    StableIsFixed(src, nodes);
    hide Parse, NodesText, InjectNodes, StripNodes, Unmarked, Edits, TagCloses, Marked, Silent, SectionsStable, DirectivesStable,
      NodesLines, Physical, HonestAll, Comments;
    if Parse(text) == Config(again) {
      ReadSnippetsSilent(webroot, target);
      StripUndoesExactly(nodes, at, ReadSnippets(webroot, target));
      if NodesText(left) == NodesText(nodes) && !Unmarked(nodes) {
        ParsedText(src, nodes);
        ParsedText(text, again);
        StripHonest(again);
        StripBetween(again);
        BetweenPhysical(NodesLines(left), NodesLines(again));
        StrippedLess(nodes, at, [], 0, ReadSnippets(webroot, target));
        SameComments(left, nodes);
        assert false;
      }
    }
  }
}
