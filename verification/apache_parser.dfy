/** The Apache configuration parser and printer of `internal/plugins/apache/parser/parser.go`. */
module ApacheParser {
  import opened Common
  import opened Text
  import opened ApacheScan

  /** A directive, a section or a comment (or blank) line, with all that is needed to print it. */
  datatype Node =
    | Directive(indent: string, name: string, args: seq<string>, trailing: string, newline: string)
    | Section(indent: string, name: string, args: seq<string>, trailing: string, newline: string, body: seq<Node>,
        closeIndent: string, closeTrailing: string, closeNewline: string)
    | CommentLine(verbatim: string, newline: string)

  // ----- Lines -----

  datatype Line = Line(raw: string, newline: string)

  predicate Continued(line: string) {
    line != "" && line[|line| - 1] == '\\'
  }

  /** The lines of the text, continuation lines joined to `pending`. */
  function LinesFrom(src: string, pending: string): seq<Line>
    decreases |src|
  {
    if src == "" then if pending != "" then [Line(pending, "")] else []
    else
      var n := LineEnd(src);
      var line := src[..n];
      var rest := if n < |src| then src[n + 1..] else "";
      if Continued(line) then LinesFrom(rest, pending + line[..n - 1] + " ")
      else [Line(pending + line, if n < |src| then "\n" else "")] + LinesFrom(rest, "")
  }

  /** `logicalLines`. */
  function LogicalLines(src: string): seq<Line> {
    LinesFrom(src, "")
  }

  // ----- Single lines -----

  /** The first position of the character, or the end. */
  function IndexOf(s: string, c: char): (n: nat)
    ensures n <= |s| && (n < |s| ==> s[n] == c) && forall i :: 0 <= i < n ==> s[i] != c
  {
    if s == "" || s[0] == c then 0 else 1 + IndexOf(s[1..], c)
  }

  datatype CloseTag = BadTag | Tag(name: string, trailing: string)

  /** `parseCloseTag`: what stands between the `>` and a comment is dropped. */
  function ParseCloseTag(s: string): CloseTag {
    if !HasPrefix(s, "</") then BadTag
    else
      var end := IndexOf(s, '>');
      if end == |s| then BadTag
      else
        assert s[..2][1] == '/' && s[..2][0] == '<';
        var tag := TrimSpace(s[2..end]);
        var rest := s[end + 1..];
        var i := IndexOf(rest, '#');
        if tag == "" then BadTag
        else if i < |rest| then Tag(tag, rest[i..])
        else if TrimSpace(rest) != "" then BadTag
        else Tag(tag, "")
  }

  /** `strings.EqualFold`, in ASCII. */
  predicate EqualFold(a: string, b: string) {
    ToLower(a) == ToLower(b)
  }

  /** The part of a directive before its comment. */
  function DirectiveBody(content: string): string {
    match Scan(content, '#', false, false)
    case Ended(_, _) => content
    case Found(i) => TrimBlanks(content[..i])
  }

  /** The comment behind a directive, with the blanks before it. */
  function DirectiveTrailing(content: string): string {
    match Scan(content, '#', false, false)
    case Ended(_, _) => ""
    case Found(i) => content[|TrimBlanks(content[..i])|..]
  }

  predicate DirectiveStart(content: string) {
    content != "" && !IsBlank(content[0]) && content[0] != '#'
  }

  /** A directive line has a name. */
  lemma DirectiveHasName(content: string)
    requires DirectiveStart(content)
    ensures DirectiveBody(content) != "" && DirectiveBody(content)[0] == content[0] && SplitArgs(DirectiveBody(content)) != []
  {
    var b := DirectiveBody(content);
    match Scan(content, '#', false, false) {
      case Ended(_, _) =>
      case Found(i) =>
        assert i > 0;
        FirstStays(content[..i]);
    }
    SplitKeepsFirst(b);
  }

  lemma {:induction false} FirstStays(s: string)
    requires s != "" && !IsBlank(s[0])
    ensures TrimBlanks(s) != "" && TrimBlanks(s)[0] == s[0]
    decreases |s|
  {
    if IsBlank(s[|s| - 1]) { FirstStays(s[..|s| - 1]); }
  }

  /** `parseDirective`. */
  function ParseDirective(indent: string, content: string, newline: string): Node
    requires DirectiveStart(content)
  {
    DirectiveHasName(content);
    var fields := SplitArgs(DirectiveBody(content));
    Directive(indent, fields[0], fields[1..], DirectiveTrailing(content), newline)
  }

  datatype OpenTag = BadOpen | Open(name: string, args: seq<string>, trailing: string)

  /** The opening line of `parseSection`. */
  function ParseOpen(content: string): (tag: OpenTag)
    requires content != "" && content[0] == '<'
    ensures tag.Open? ==> tag.name != ""
  {
    match Scan(content, '>', false, false)
    case Ended(_, _) => BadOpen
    case Found(end) =>
      var inner, rest := content[1..end], content[end + 1..];
      var i := IndexOf(rest, '#');
      var fields := SplitArgs(inner);
      if TrimSpace(rest[..i]) != "" || fields == [] then BadOpen else Open(fields[0], fields[1..], rest[i..])
  }

  // ----- Bodies -----

  datatype Body = Bad | Good(nodes: seq<Node>, rest: seq<Line>)
  datatype Parsed = BadSection | GoodSection(section: Node, rest: seq<Line>)

  function Prepend(n: Node, b: Body): Body {
    if b == Bad then Bad else Good([n] + b.nodes, b.rest)
  }

  /** `parseBody`: up to the line that closes `close`, which stays unread, or to the end of the
      file when `close` is empty. */
  function ParseBody(lines: seq<Line>, close: string): (b: Body)
    ensures b.Good? ==> |b.rest| <= |lines| && (close != "" ==> b.rest != []) && (close == "" ==> b.rest == [])
    decreases |lines|, 1
  {
    if lines == [] then if close == "" then Good([], []) else Bad
    else
      var raw, newline := lines[0].raw, lines[0].newline;
      var content := SkipBlanks(raw);
      if TrimSpace(raw) == "" || HasPrefix(content, "#") then
        Prepend(CommentLine(raw, newline), ParseBody(lines[1..], close))
      else if HasPrefix(content, "</") then
        match ParseCloseTag(content)
        case BadTag => Bad
        case Tag(tag, _) => if close == "" || !EqualFold(tag, close) then Bad else Good([], lines)
      else if HasPrefix(content, "<") then
        match ParseSection(lines)
        case BadSection => Bad
        case GoodSection(sec, rest) => Prepend(sec, ParseBody(rest, close))
      else
        NotBlank(raw);
        assert content[..1] == [content[0]];
        Prepend(ParseDirective(Indent(raw), content, newline), ParseBody(lines[1..], close))
  }

  /** `parseSection`, from the line of the opening tag. */
  function ParseSection(lines: seq<Line>): (p: Parsed)
    requires lines != [] && HasPrefix(SkipBlanks(lines[0].raw), "<")
    ensures p.GoodSection? ==> p.section.Section? && |p.rest| < |lines|
    decreases |lines|, 0
  {
    var content := SkipBlanks(lines[0].raw);
    assert content[..1][0] == '<';
    var tag := ParseOpen(content);
    if tag == BadOpen then BadSection else Finish(lines[0], tag, ParseBody(lines[1..], tag.name))
  }

  /** The section, from its first line, its body and the line that closes it. */
  function Finish(first: Line, tag: OpenTag, b: Body): (p: Parsed)
    requires tag.Open? && (b.Good? ==> b.rest != [])
    ensures p.GoodSection? ==> b.Good? && p.section.Section? && p.rest == b.rest[1..]
  {
    if b == Bad then BadSection
    else
      var raw := b.rest[0].raw;
      match ParseCloseTag(SkipBlanks(raw))
      case BadTag => BadSection
      case Tag(_, closeTrailing) =>
        GoodSection(Section(Indent(first.raw), tag.name, tag.args, tag.trailing, first.newline, b.nodes,
          Indent(raw), closeTrailing, b.rest[0].newline), b.rest[1..])
  }

  /** A line with anything but whitespace on it has some content. */
  lemma {:induction false} NotBlank(raw: string)
    requires TrimSpace(raw) != ""
    ensures SkipBlanks(raw) != ""
  {
    if raw != "" && IsBlank(raw[0]) { NotBlank(raw[1..]); }
  }

  datatype Result = Failed | Config(nodes: seq<Node>)

  /** `Parse`. */
  function Parse(src: string): Result {
    match ParseBody(LogicalLines(src), "")
    case Bad => Failed
    case Good(nodes, _) => Config(nodes)
  }

  // ----- Printing -----

  function OpenLine(indent: string, fields: seq<string>, trailing: string): string {
    indent + "<" + Join(fields) + ">" + trailing
  }

  function CloseLine(indent: string, name: string, trailing: string): string {
    indent + "</" + name + ">" + trailing
  }

  function NodeText(n: Node): string
    decreases n, 1
  {
    match n
    case Directive(indent, name, args, trailing, newline) => indent + Join([name] + args) + trailing + newline
    case Section(indent, name, args, trailing, newline, body, closeIndent, closeTrailing, closeNewline) =>
      OpenLine(indent, [name] + args, trailing) + newline + NodesText(body) + (CloseLine(closeIndent, name, closeTrailing) + closeNewline)
    case CommentLine(verbatim, newline) => verbatim + newline
  }

  /** `Config.String`. */
  function NodesText(nodes: seq<Node>): string
    decreases nodes, 0
  {
    if nodes == [] then "" else NodeText(nodes[0]) + NodesText(nodes[1..])
  }

  // ----- The loops of the scanners -----

  /** `leadingWhitespace`. */
  lemma IndentStep(s: string, i: nat)
    requires i < |s| && IsBlank(s[i])
    ensures s[..i + 1] + Indent(s[i + 1..]) == s[..i] + Indent(s[i..])
  {
    assert s[i..][1..] == s[i + 1..];
    hide Indent;
    assert s[..i + 1] == s[..i] + [s[i]];
    Assoc(s[..i], [s[i]], Indent(s[i + 1..]));
  }

  lemma IndentEnd(s: string)
    requires s != "" ==> !IsBlank(s[0])
    ensures Indent(s) == ""
  {
  }

  method LeadingWhitespace(s: string) returns (r: string)
    ensures r == Indent(s)
  {
    var i := 0;
    while i < |s| && IsBlank(s[i])
      invariant i <= |s| && s[..i] + Indent(s[i..]) == Indent(s)
    {
      IndentStep(s, i);
      i := i + 1;
    }
    IndentEnd(s[i..]);
    r := s[..i];
    assert r + "" == r;
  }

  /** The two searches find the same, or both nothing. */
  predicate SameFind(a: Stop, b: Stop) {
    if a.Found? then a == b else b.Ended?
  }

  /** `findUnquotedGT` and `findUnquotedHash`: the position, or -1. */
  method FindUnquoted(s: string, target: char) returns (at: int)
    requires Target(target)
    ensures if at >= 0 then Scan(s, target, false, false) == Found(at) else at == -1 && Scan(s, target, false, false).Ended?
  {
    var inQuote := false;
    var i := 0;
    FindStart(s, target);
    hide Scan, SameFind, Later;
    while i < |s|
      invariant i <= |s| && SameFind(Scan(s, target, false, false), Later(Scan(s[i..], target, inQuote, false), i))
    {
      var c := s[i];
      FindNext(Scan(s, target, false, false), s, i, target, inQuote);
      if c == '\\' {
        if i + 1 < |s| { i := i + 1; }
      } else if c == '"' {
        inQuote := !inQuote;
      } else if c == target {
        if !inQuote { return i; }
      }
      i := i + 1;
    }
    FindNothing(s, target, inQuote);
    return -1;
  }

  lemma FindStart(s: string, t: char)
    ensures SameFind(Scan(s, t, false, false), Later(Scan(s[0..], t, false, false), 0))
  {
    assert s[0..] == s;
  }

  lemma FindNothing(s: string, t: char, q: bool)
    requires SameFind(Scan(s, t, false, false), Later(Scan(s[|s|..], t, q, false), |s|))
    ensures Scan(s, t, false, false).Ended?
  {
    assert s[|s|..] == "";
  }

  /** One round of the loop. */
  lemma FindNext(all: Stop, s: string, i: nat, t: char, q: bool)
    requires Target(t) && i < |s| && SameFind(all, Later(Scan(s[i..], t, q, false), i))
    ensures s[i] == '\\' && i + 1 < |s| ==> SameFind(all, Later(Scan(s[i + 2..], t, q, false), i + 2))
    ensures s[i] == '\\' && i + 1 == |s| ==> SameFind(all, Later(Scan(s[i + 1..], t, q, false), i + 1))
    ensures s[i] == '"' ==> SameFind(all, Later(Scan(s[i + 1..], t, !q, false), i + 1))
    ensures s[i] == t && !q ==> all == Found(i)
    ensures s[i] != '\\' && s[i] != '"' && !(s[i] == t && !q) ==> SameFind(all, Later(Scan(s[i + 1..], t, q, false), i + 1))
  {
    ScanStep(s, i, t, q);
    hide Scan;
  }

  lemma ScanStep(s: string, i: nat, t: char, q: bool)
    requires Target(t) && i < |s|
    ensures var now := Scan(s[i..], t, q, false);
      if s[i] == '\\' then
        if i + 1 < |s| then now == Later(Scan(s[i + 2..], t, q, false), 2) else now.Ended? && Scan(s[i + 1..], t, q, false).Ended?
      else if s[i] == '"' then now == Later(Scan(s[i + 1..], t, !q, false), 1)
      else if s[i] == t && !q then now == Found(0)
      else now == Later(Scan(s[i + 1..], t, q, false), 1)
  {
    assert s[i..][1..] == s[i + 1..];
    if i + 1 < |s| { assert s[i + 1..][1..] == s[i + 2..]; }
  }

  /** The inner loop of `splitArgs` for a quoted argument that starts at `start`. */
  method QuotedEnd(s: string, start: nat) returns (i: nat)
    requires start < |s| && s[start] == '"'
    ensures i == start + ArgLen(s[start..])
  {
    i := start + 1;
    assert s[start..][1..] == s[i..];
    while i < |s|
      invariant start < i <= |s| && i + QuotedLen(s[i..]) == start + 1 + QuotedLen(s[start + 1..])
    {
      if s[i] == '\\' && i + 1 < |s| {
        assert s[i..][2..] == s[i + 2..];
        i := i + 2;
        continue;
      }
      assert s[i..][1..] == s[i + 1..];
      if s[i] == '"' {
        i := i + 1;
        return;
      }
      i := i + 1;
    }
  }

  method WordEnd(s: string, start: nat) returns (i: nat)
    requires start < |s|
    ensures i == start + WordLen(s[start..])
  {
    i := start;
    while i < |s| && !IsBlank(s[i])
      invariant start <= i <= |s| && i + WordLen(s[i..]) == start + WordLen(s[start..])
    {
      assert s[i..][1..] == s[i + 1..];
      i := i + 1;
    }
  }

  method SkipFrom(s: string, start: nat) returns (i: nat)
    requires start <= |s|
    ensures start <= i <= |s| && SkipBlanks(s[start..]) == s[i..]
  {
    i := start;
    while i < |s| && IsBlank(s[i])
      invariant start <= i <= |s| && SkipBlanks(s[i..]) == SkipBlanks(s[start..])
    {
      assert s[i..][1..] == s[i + 1..];
      i := i + 1;
    }
    SkipNothing(s[i..]);
  }

  /** The inner loops of `splitArgs`. */
  method ArgEnd(s: string, start: nat) returns (i: nat)
    requires start < |s| && !IsBlank(s[start])
    ensures i == start + ArgLen(s[start..])
  {
    if s[start] == '"' { i := QuotedEnd(s, start); } else { i := WordEnd(s, start); }
  }

  lemma SplitRound(s: string, from: nat, start: nat)
    requires from <= start < |s| && SkipBlanks(s[from..]) == s[start..]
    ensures var i := start + ArgLen(s[start..]); i <= |s| && SplitArgs(s[from..]) == [s[start..i]] + SplitArgs(s[i..])
  {
    hide SplitArgs, SkipBlanks, ArgLen;
    SplitFirst(s[from..]);
    SliceSlice(s, start, ArgLen(s[start..]));
  }

  /** `splitArgs`. */
  method Split(s: string) returns (out: seq<string>)
    ensures out == SplitArgs(s)
  {
    out := [];
    var i := 0;
    assert s[0..] == s;
    hide SplitArgs, SkipBlanks, ArgLen, QuotedLen, WordLen, IsBlank;
    while i < |s|
      invariant i <= |s| && out + SplitArgs(s[i..]) == SplitArgs(s)
    {
      ghost var from := i;
      i := SkipFrom(s, i);
      if i >= |s| { SplitNone(s[from..]); return; }
      var start := i;
      SplitRound(s, from, start);
      i := ArgEnd(s, start);
      Assoc(out, [s[start..i]], SplitArgs(s[i..]));
      out := out + [s[start..i]];
    }
    SplitNothing(s);
    assert out + [] == out;
  }

  lemma SplitNothing(s: string)
    ensures SplitArgs(s[|s|..]) == []
  {
    assert s[|s|..] == "";
  }

  lemma SliceSlice(s: string, start: nat, n: nat)
    requires start + n <= |s|
    ensures s[start..][n..] == s[start + n..] && s[start..][..n] == s[start..start + n]
  {
  }

  /** `logicalLines`. */
  method SplitLines(src: string) returns (out: seq<Line>)
    ensures out == LogicalLines(src)
  {
    var rest, pending := src, "";
    out := [];
    while |rest| > 0
      invariant out + LinesFrom(rest, pending) == LogicalLines(src)
      decreases |rest|
    {
      var n := LineEnd(rest);
      var line := rest[..n];
      var newline := if n < |rest| then "\n" else "";
      var after := if n < |rest| then rest[n + 1..] else "";
      if Continued(line) {
        pending := pending + line[..n - 1] + " ";
        rest := after;
        continue;
      }
      Assoc(out, [Line(pending + line, newline)], LinesFrom(after, ""));
      out := out + [Line(pending + line, newline)];
      pending := "";
      rest := after;
    }
    if pending != "" { out := out + [Line(pending, "")]; }
    else { assert out + [] == out; }
  }

  // ----- The cases of a body -----

  predicate IsComment(raw: string) {
    TrimSpace(raw) == "" || HasPrefix(SkipBlanks(raw), "#")
  }

  lemma BodyEnd(close: string)
    ensures ParseBody([], close) == if close == "" then Good([], []) else Bad
  {
  }

  lemma BodyComment(lines: seq<Line>, close: string)
    requires lines != [] && IsComment(lines[0].raw)
    ensures ParseBody(lines, close) == Prepend(CommentLine(lines[0].raw, lines[0].newline), ParseBody(lines[1..], close))
  {
  }

  lemma BodyClose(lines: seq<Line>, close: string)
    requires lines != [] && !IsComment(lines[0].raw) && HasPrefix(SkipBlanks(lines[0].raw), "</")
    ensures var tag := ParseCloseTag(SkipBlanks(lines[0].raw));
      ParseBody(lines, close) == if tag == BadTag || close == "" || !EqualFold(tag.name, close) then Bad else Good([], lines)
  {
  }

  predicate IsOpen(raw: string) {
    !IsComment(raw) && !HasPrefix(SkipBlanks(raw), "</") && HasPrefix(SkipBlanks(raw), "<")
  }

  function AfterSection(p: Parsed, close: string): Body {
    if p.BadSection? then Bad else Prepend(p.section, ParseBody(p.rest, close))
  }

  lemma BodySection(lines: seq<Line>, close: string)
    requires lines != [] && IsOpen(lines[0].raw)
    ensures ParseBody(lines, close) == AfterSection(ParseSection(lines), close)
  {
  }

  predicate IsDirective(raw: string) {
    !IsComment(raw) && !HasPrefix(SkipBlanks(raw), "<")
  }

  lemma PrefixChar(s: string, c: char)
    ensures HasPrefix(s, [c]) <==> s != "" && s[0] == c
  {
    if s != "" { assert s[..1] == [s[0]]; }
  }

  lemma DirectiveStarts(raw: string)
    requires IsDirective(raw)
    ensures DirectiveStart(SkipBlanks(raw)) && !HasPrefix(SkipBlanks(raw), "</")
  {
    NotBlank(raw);
    PrefixChar(SkipBlanks(raw), '#');
    PrefixChar(SkipBlanks(raw), '<');
    CloseIsOpen(SkipBlanks(raw));
  }

  lemma CloseIsOpen(s: string)
    ensures HasPrefix(s, "</") ==> HasPrefix(s, "<")
  {
    if |s| >= 2 { assert s[..2][..1] == s[..1] && "</"[..1] == "<"; }
  }

  lemma BodyDirective(lines: seq<Line>, close: string)
    requires lines != [] && IsDirective(lines[0].raw)
    ensures var raw := lines[0].raw;
      DirectiveStart(SkipBlanks(raw)) &&
      ParseBody(lines, close) == Prepend(ParseDirective(Indent(raw), SkipBlanks(raw), lines[0].newline), ParseBody(lines[1..], close))
  {
    DirectiveStarts(lines[0].raw);
  }

  // ----- The parser over its lines -----

  lemma {:induction false} TrimBlanksTo(s: string, j: nat)
    requires j <= |s| && (forall k :: j <= k < |s| ==> IsBlank(s[k])) && (j > 0 ==> !IsBlank(s[j - 1]))
    ensures TrimBlanks(s) == s[..j]
    decreases |s|
  {
    if j < |s| {
      TrimBlanksTo(s[..|s| - 1], j);
      assert s[..|s| - 1][..j] == s[..j];
    } else {
      assert s[..j] == s;
    }
  }

  /** `parseDirective`: the comment takes the blanks before it along. */
  method TakeDirective(indent: string, content: string, newline: string) returns (d: Node)
    requires DirectiveStart(content)
    ensures d == ParseDirective(indent, content, newline)
  {
    var body, trailing := content, "";
    var i := FindUnquoted(content, '#');
    if i >= 0 {
      body := TrimBlanks(content[..i]);
      trailing := content[i..];
      if i > 0 && IsBlank(content[i - 1]) {
        var j := i - 1;
        while j > 0 && IsBlank(content[j - 1])
          invariant 0 <= j < i && forall k :: j <= k < i ==> IsBlank(content[k])
        {
          j := j - 1;
        }
        trailing := content[j..];
        body := TrimBlanks(content[..j]);
        TrimBlanksTo(content[..i], j);
        TrimBlanksTo(content[..j], j);
        assert content[..i][..j] == content[..j] && content[..j][..j] == content[..j];
      } else {
        TrimBlanksTo(content[..i], i);
        assert content[..i][..i] == content[..i];
      }
    }
    DirectiveHasName(content);
    var fields := Split(body);
    d := Directive(indent, fields[0], fields[1..], trailing, newline);
  }

  class ParserState {
    const lines: seq<Line>
    var pos: nat

    constructor (lines: seq<Line>)
      ensures this.lines == lines && pos == 0
    {
      this.lines, pos := lines, 0;
    }

    ghost predicate Valid()
      reads this
    {
      pos <= |lines|
    }

    ghost function Unread(): seq<Line>
      requires Valid()
      reads this
    {
      lines[pos..]
    }

    /** `parseBody`. */
    method TakeBody(close: string) returns (ok: bool, nodes: seq<Node>)
      requires Valid()
      modifies this`pos
      ensures Valid() && pos >= old(pos)
      ensures ok == ParseBody(old(Unread()), close).Good?
      ensures ok ==> ParseBody(old(Unread()), close) == Good(nodes, Unread())
      decreases |lines| - pos, 2
    {
      nodes := [];
      ghost var all := ParseBody(Unread(), close);
      PrependNone(all);
      hide ParseBody, PrependAll, Prepend;
      while pos < |lines|
        invariant Valid() && pos >= old(pos) && PrependAll(nodes, ParseBody(Unread(), close)) == all
        decreases |lines| - pos
      {
        ghost var here := ParseBody(Unread(), close);
        var ok, more, node := TakeItem(close);
        PrependBad(nodes);
        PrependEnd(nodes, Unread());
        if !ok { return false, []; }
        if !more { return true, nodes; }
        PrependOne(nodes, node, ParseBody(Unread(), close));
        nodes := nodes + [node];
      }
      assert Unread() == [];
      BodyEnd(close);
      PrependBad(nodes);
      PrependEnd(nodes, []);
      if close != "" { return false, []; }
      return true, nodes;
    }

    /** One round of the loop of `parseBody`: a node, the closing line (`more` is false), or an error. */
    method TakeItem(close: string) returns (ok: bool, more: bool, node: Node)
      requires Valid() && pos < |lines|
      modifies this`pos
      ensures Valid() && pos >= old(pos)
      ensures !ok ==> ParseBody(old(Unread()), close) == Bad
      ensures ok && !more ==> ParseBody(old(Unread()), close) == Good([], Unread())
      ensures ok && more ==> pos > old(pos) && ParseBody(old(Unread()), close) == Prepend(node, ParseBody(Unread(), close))
      decreases |lines| - pos, 1
    {
      hide ParseBody, ParseSection, Prepend, TrimSpace, HasPrefix, SkipBlanks, Indent, ParseCloseTag, EqualFold, ParseDirective;
      var ll := lines[pos];
      ghost var here := Unread();
      assert here[0] == ll && here[1..] == lines[pos + 1..];
      var content := SkipBlanks(ll.raw);
      var indent := LeadingWhitespace(ll.raw);
      ok, more, node := true, true, CommentLine(ll.raw, ll.newline);
      if TrimSpace(ll.raw) == "" || HasPrefix(content, "#") {
        BodyComment(here, close);
        pos := pos + 1;
        return;
      }
      if HasPrefix(content, "</") {
        BodyClose(here, close);
        var tag := ParseCloseTag(content);
        ok, more := tag != BadTag && close != "" && EqualFold(tag.name, close), false;
        return;
      }
      if HasPrefix(content, "<") {
        BodySection(here, close);
        ok, node := TakeSection();
        return;
      }
      BodyDirective(here, close);
      node := TakeDirective(indent, content, ll.newline);
      pos := pos + 1;
    }

    /** `parseSection`. */
    method TakeSection() returns (ok: bool, section: Node)
      requires Valid() && pos < |lines| && HasPrefix(SkipBlanks(lines[pos].raw), "<")
      modifies this`pos
      ensures Valid() && pos >= old(pos) && (ok ==> pos > old(pos))
      ensures ok == ParseSection(old(Unread())).GoodSection?
      ensures ok ==> ParseSection(old(Unread())) == GoodSection(section, Unread())
      decreases |lines| - pos, 0
    {
      section := CommentLine("", "");
      var ll := lines[pos];
      ghost var here := Unread();
      assert here[0] == ll && here[1..] == lines[pos + 1..];
      var content := SkipBlanks(ll.raw);
      PrefixChar(content, '<');
      SectionStep(here);
      hide ParseBody, ParseSection, ParseOpen, TrimSpace, HasPrefix, SkipBlanks, Indent, ParseCloseTag;
      var indent := LeadingWhitespace(ll.raw);
      var tag := TakeOpen(content);
      if tag == BadOpen { return false, section; }
      pos := pos + 1;
      var good, body := TakeBody(tag.name);
      if !good { return false, section; }
      assert Unread()[0] == lines[pos] && Unread()[1..] == lines[pos + 1..];
      var closeLine := lines[pos];
      var end := ParseCloseTag(SkipBlanks(closeLine.raw));
      if end == BadTag { return false, section; }
      var closeIndent := LeadingWhitespace(closeLine.raw);
      section := Section(indent, tag.name, tag.args, tag.trailing, ll.newline, body, closeIndent, end.trailing, closeLine.newline);
      pos := pos + 1;
      return true, section;
    }
  }

  lemma SectionStep(lines: seq<Line>)
    requires lines != [] && HasPrefix(SkipBlanks(lines[0].raw), "<")
    ensures var content := SkipBlanks(lines[0].raw);
      content != "" && content[0] == '<' &&
      (var tag := ParseOpen(content);
       ParseSection(lines) == if tag == BadOpen then BadSection else Finish(lines[0], tag, ParseBody(lines[1..], tag.name)))
  {
    PrefixChar(SkipBlanks(lines[0].raw), '<');
  }

  /** The opening tag of a section. */
  method TakeOpen(content: string) returns (tag: OpenTag)
    requires content != "" && content[0] == '<'
    ensures tag == ParseOpen(content)
  {
    var end := FindUnquoted(content, '>');
    if end < 0 { return BadOpen; }
    var inner, rest := content[1..end], content[end + 1..];
    var i := IndexOf(rest, '#');
    if TrimSpace(rest[..i]) != "" { return BadOpen; }
    var fields := Split(inner);
    if |fields| == 0 { return BadOpen; }
    return Open(fields[0], fields[1..], rest[i..]);
  }

  lemma PrependBad(nodes: seq<Node>)
    ensures PrependAll(nodes, Bad) == Bad
  {
  }

  /** The nodes read so far in front of what the rest gives. */
  function PrependAll(nodes: seq<Node>, b: Body): Body {
    if b == Bad then Bad else Good(nodes + b.nodes, b.rest)
  }

  lemma PrependNone(b: Body)
    ensures PrependAll([], b) == b
  {
    if b.Good? { assert [] + b.nodes == b.nodes; }
  }

  lemma PrependOne(nodes: seq<Node>, n: Node, b: Body)
    ensures PrependAll(nodes + [n], b) == PrependAll(nodes, Prepend(n, b))
  {
    if b.Good? { Assoc(nodes, [n], b.nodes); }
  }

  lemma PrependEnd(nodes: seq<Node>, rest: seq<Line>)
    ensures PrependAll(nodes, Good([], rest)) == Good(nodes, rest)
  {
    assert nodes + [] == nodes;
  }

  method ParseText(src: string) returns (ok: bool, nodes: seq<Node>)
    ensures match Parse(src) { case Failed => !ok case Config(ns) => ok && nodes == ns }
  {
    var lines := SplitLines(src);
    var p := new ParserState(lines);
    assert p.Unread() == lines;
    ok, nodes := p.TakeBody("");
  }

  // ----- The printers -----

  class Builder {
    var text: string

    constructor ()
      ensures text == ""
    {
      text := "";
    }

    method WriteString(s: string)
      modifies this
      ensures text == old(text) + s
    {
      text := text + s;
    }

    /** The name and the arguments, with one blank in between. */
    method EmitFields(name: string, args: seq<string>)
      modifies this
      ensures text == old(text) + Join([name] + args)
    {
      WriteString(name);
      JoinedUpTo(name, args, 0);
      for i := 0 to |args|
        invariant text == old(text) + Join([name] + args[..i])
      {
        WriteString(" ");
        WriteString(args[i]);
        JoinedUpTo(name, args, i + 1);
        Assoc(old(text), Join([name] + args[..i]), " ");
        Assoc(old(text), Join([name] + args[..i]) + " ", args[i]);
      }
      assert args[..|args|] == args;
    }

    method EmitDirective(d: Node)
      requires d.Directive?
      modifies this
      ensures text == old(text) + NodeText(d)
    {
      WriteString(d.indent);
      EmitFields(d.name, d.args);
      if d.trailing != "" { WriteString(d.trailing); }
      WriteString(d.newline);
    }

    /** The line of an opening tag. */
    method EmitOpen(s: Node)
      requires s.Section?
      modifies this
      ensures text == old(text) + OpenLine(s.indent, [s.name] + s.args, s.trailing)
    {
      hide Join;
      ghost var start, fields := text, Join([s.name] + s.args);
      WriteString(s.indent);
      WriteString("<");
      EmitFields(s.name, s.args);
      WriteString(">");
      if s.trailing != "" { WriteString(s.trailing); } else { assert text + "" == text; }
      Assoc(start, s.indent, "<");
      Assoc(start, s.indent + "<", fields);
      Assoc(start, s.indent + "<" + fields, ">");
      Assoc(start, s.indent + "<" + fields + ">", s.trailing);
    }

    method EmitClose(s: Node)
      requires s.Section?
      modifies this
      ensures text == old(text) + CloseLine(s.closeIndent, s.name, s.closeTrailing)
    {
      ghost var start := text;
      WriteString(s.closeIndent);
      WriteString("</");
      WriteString(s.name);
      WriteString(">");
      if s.closeTrailing != "" { WriteString(s.closeTrailing); } else { assert text + "" == text; }
      Assoc(start, s.closeIndent, "</");
      Assoc(start, s.closeIndent + "</", s.name);
      Assoc(start, s.closeIndent + "</" + s.name, ">");
      Assoc(start, s.closeIndent + "</" + s.name + ">", s.closeTrailing);
    }

    method EmitSection(s: Node)
      requires s.Section?
      modifies this
      ensures text == old(text) + NodeText(s)
      decreases s, 0
    {
      hide Join, OpenLine, CloseLine;
      ghost var start := text;
      ghost var open, close := OpenLine(s.indent, [s.name] + s.args, s.trailing), CloseLine(s.closeIndent, s.name, s.closeTrailing);
      EmitOpen(s);
      WriteString(s.newline);
      EmitNodes(s.body);
      EmitClose(s);
      WriteString(s.closeNewline);
      Assoc(start, open, s.newline);
      Assoc(start, open + s.newline, NodesText(s.body));
      Assoc(start, open + s.newline + NodesText(s.body), close);
      Assoc(start, open + s.newline + NodesText(s.body) + close, s.closeNewline);
      Assoc(open + s.newline + NodesText(s.body), close, s.closeNewline);
    }

    method EmitNodes(nodes: seq<Node>)
      modifies this
      ensures text == old(text) + NodesText(nodes)
      decreases nodes
    {
      hide NodeText;
      for i := 0 to |nodes|
        invariant text + NodesText(nodes[i..]) == old(text) + NodesText(nodes)
      {
        var n := nodes[i];
        assert nodes[i..][0] == n && nodes[i..][1..] == nodes[i + 1..];
        Assoc(text, NodeText(n), NodesText(nodes[i + 1..]));
        match n {
          case Directive(_, _, _, _, _) => EmitDirective(n);
          case Section(_, _, _, _, _, _, _, _, _) => EmitSection(n);
          case CommentLine(verbatim, newline) =>
            EmitComment(n);
        }
      }
      assert nodes[|nodes|..] == [] && text + "" == text;
    }

    method EmitComment(c: Node)
      requires c.CommentLine?
      modifies this
      ensures text == old(text) + NodeText(c)
    {
      WriteString(c.verbatim);
      WriteString(c.newline);
    }
  }

  lemma {:induction false} JoinedUpTo(name: string, args: seq<string>, i: nat)
    requires i <= |args|
    ensures Join([name] + args[..i]) == if i == 0 then name else Join([name] + args[..i - 1]) + " " + args[i - 1]
    decreases i
  {
    if i == 0 {
      assert [name] + args[..0] == [name];
    } else {
      var fields := [name] + args[..i - 1];
      assert [name] + args[..i] == fields + [args[i - 1]];
      JoinSnoc(fields, args[i - 1]);
    }
  }

  lemma {:induction false} JoinSnoc(fields: seq<string>, a: string)
    requires fields != []
    ensures Join(fields + [a]) == Join(fields) + " " + a
    decreases |fields|
  {
    var all := fields + [a];
    if |fields| == 1 {
      assert all[1..] == [a];
    } else {
      JoinSnoc(fields[1..], a);
      assert all[1..] == fields[1..] + [a] && all[0] == fields[0];
      Assoc(fields[0] + " ", Join(fields[1..]), " ");
      Assoc(fields[0] + " ", Join(fields[1..]) + " ", a);
    }
  }
}
