/** The tree of `internal/plugins/nginx/parser/ast.go` and its printers.

    Nodes are values here; the in-place edits the configurator makes to a tree are functions on
    nodes. The printers are methods that append to a shared `Builder`, as in the original, and are
    proved against the text functions.
 */
module NginxAst {
  import opened Common
  import opened NginxLexer

  /** A comment between the arguments of a directive; `after` is -1 before the first argument. */
  datatype InternalComment = InternalComment(after: int, ws: string, value: string)

  datatype Node =
    | Directive(ws: string, name: string, args: seq<string>, argWs: seq<string>, semicolon: bool,
                trailing: string, comments: seq<InternalComment>)
    | Block(ws: string, name: string, args: seq<string>, body: seq<Node>, beforeClose: string)
    | Comment(ws: string, value: string)

  datatype Config = Config(nodes: seq<Node>, trailing: string)

  // ----- What is printed -----

  /** The separator before argument `i`: a missing or empty one means a single space. */
  function Sep(argWs: seq<string>, i: nat): string {
    if i < |argWs| && argWs[i] != "" then argWs[i] else " "
  }

  function Seps(args: seq<string>, argWs: seq<string>): seq<string> {
    seq(|args|, i requires 0 <= i < |args| => Sep(argWs, i))
  }

  /** The internal comments recorded after argument `after`. */
  function TextAt(comments: seq<InternalComment>, after: int): string {
    if comments == [] then ""
    else (if comments[0].after == after then comments[0].ws + comments[0].value else "") +
         TextAt(comments[1..], after)
  }

  /** Arguments `n`, `n + 1`, ... of a directive, each with the comments behind it. */
  function TextArgs(args: seq<string>, seps: seq<string>, comments: seq<InternalComment>, n: int): string
    requires |args| == |seps|
  {
    if args == [] then ""
    else seps[0] + args[0] + TextAt(comments, n) + TextArgs(args[1..], seps[1..], comments, n + 1)
  }

  function TextWords(args: seq<string>): string {
    if args == [] then "" else " " + args[0] + TextWords(args[1..])
  }

  function NodeText(n: Node): string {
    match n
    case Directive(ws, name, args, argWs, semicolon, trailing, comments) =>
      ws + name + TextAt(comments, -1) + TextArgs(args, Seps(args, argWs), comments, 0) +
      (if semicolon then ";" else "") + trailing
    case Block(ws, name, args, body, beforeClose) =>
      ws + name + TextWords(args) + " {" + NodesText(body) + beforeClose + "}"
    case Comment(ws, value) => ws + value
  }

  function NodesText(nodes: seq<Node>): string {
    if nodes == [] then "" else NodeText(nodes[0]) + NodesText(nodes[1..])
  }

  /** `Config.String`. */
  function Print(c: Config): string {
    NodesText(c.nodes) + c.trailing
  }

  // ----- The printers -----

  class Builder {
    var text: string

    constructor ()
      ensures text == ""
    {
      text := "";
    }

    method WriteString(s: string)
      modifies this
      ensures text == old(text) + s
    {
      text := text + s;
    }

    method EmitInternal(comments: seq<InternalComment>, after: int)
      modifies this
      ensures text == old(text) + TextAt(comments, after)
    {
      for i := 0 to |comments|
        invariant text + TextAt(comments[i..], after) == old(text) + TextAt(comments, after)
      {
        var ic := comments[i];
        assert comments[i..][1..] == comments[i + 1..];
        ghost var before := text;
        if ic.after == after {
          WriteString(ic.ws);
          WriteString(ic.value);
        }
        assert text + TextAt(comments[i + 1..], after) == before + TextAt(comments[i..], after);
      }
      assert comments[|comments|..] == [];
    }

    method EmitArgs(args: seq<string>, argWs: seq<string>, comments: seq<InternalComment>)
      modifies this
      ensures text == old(text) + TextArgs(args, Seps(args, argWs), comments, 0)
    {
      ghost var seps := Seps(args, argWs);
      for i := 0 to |args|
        invariant text + TextArgs(args[i..], seps[i..], comments, i) == old(text) + TextArgs(args, seps, comments, 0)
      {
        var sep := " ";
        if i < |argWs| && argWs[i] != "" { sep := argWs[i]; }
        ghost var before := text;
        WriteString(sep);
        WriteString(args[i]);
        EmitInternal(comments, i);
        assert args[i..][1..] == args[i + 1..] && seps[i..][1..] == seps[i + 1..];
        ghost var rest := TextArgs(args[i + 1..], seps[i + 1..], comments, i + 1);
        assert TextArgs(args[i..], seps[i..], comments, i) == sep + args[i] + TextAt(comments, i) + rest;
        Assoc(before, sep, args[i]);
        Assoc(before, sep + args[i], TextAt(comments, i));
        Assoc(before, sep + args[i] + TextAt(comments, i), rest);
      }
    }

    method EmitWords(args: seq<string>)
      modifies this
      ensures text == old(text) + TextWords(args)
    {
      for i := 0 to |args|
        invariant text + TextWords(args[i..]) == old(text) + TextWords(args)
      {
        ghost var before := text;
        WriteString(" ");
        WriteString(args[i]);
        assert args[i..][1..] == args[i + 1..];
        assert text + TextWords(args[i + 1..]) == before + TextWords(args[i..]);
      }
    }

    method EmitDirective(d: Node)
      requires d.Directive?
      modifies this
      ensures text == old(text) + NodeText(d)
    {
      ghost var start := text;
      WriteString(d.ws);
      WriteString(d.name);
      Assoc(start, d.ws, d.name);
      EmitInternal(d.comments, -1);
      ghost var t := d.ws + d.name;
      Assoc(start, t, TextAt(d.comments, -1));
      t := t + TextAt(d.comments, -1);
      EmitArgs(d.args, d.argWs, d.comments);
      Assoc(start, t, TextArgs(d.args, Seps(d.args, d.argWs), d.comments, 0));
      t := t + TextArgs(d.args, Seps(d.args, d.argWs), d.comments, 0);
      Assoc(start, t, if d.semicolon then ";" else "");
      if d.semicolon { WriteString(";"); }
      t := t + if d.semicolon then ";" else "";
      assert text == start + t;
      Assoc(start, t, d.trailing);
      if d.trailing != "" { WriteString(d.trailing); }
    }

    method EmitNode(n: Node)
      modifies this
      ensures text == old(text) + NodeText(n)
      decreases n, 0
    {
      match n
      case Directive(_, _, _, _, _, _, _) => EmitDirective(n);
      case Block(ws, name, args, body, beforeClose) =>
        ghost var start := text;
        WriteString(ws);
        WriteString(name);
        Assoc(start, ws, name);
        EmitWords(args);
        Assoc(start, ws + name, TextWords(args));
        WriteString(" {");
        Assoc(start, ws + name + TextWords(args), " {");
        EmitNodes(body);
        Assoc(start, ws + name + TextWords(args) + " {", NodesText(body));
        WriteString(beforeClose);
        Assoc(start, ws + name + TextWords(args) + " {" + NodesText(body), beforeClose);
        WriteString("}");
        Assoc(start, ws + name + TextWords(args) + " {" + NodesText(body) + beforeClose, "}");
      case Comment(ws, value) =>
        WriteString(ws);
        WriteString(value);
    }

    method EmitNodes(nodes: seq<Node>)
      modifies this
      ensures text == old(text) + NodesText(nodes)
      decreases nodes, 1
    {
      for i := 0 to |nodes|
        invariant text + NodesText(nodes[i..]) == old(text) + NodesText(nodes)
      {
        ghost var before := text;
        EmitNode(nodes[i]);
        assert nodes[i..][1..] == nodes[i + 1..];
        assert text + NodesText(nodes[i + 1..]) == before + NodesText(nodes[i..]);
      }
      assert nodes[|nodes|..] == [];
    }
  }

  method ConfigString(c: Config) returns (s: string)
    ensures s == Print(c)
  {
    var sb := new Builder();
    sb.EmitNodes(c.nodes);
    sb.WriteString(c.trailing);
    s := sb.text;
  }

  // ----- The same as a stream of tokens -----

  function ArgKind(v: string): Kind {
    if v != "" && IsQuote(v[0]) then Quoted else Word
  }

  function ArgToken(v: string, ws: string): Token {
    Token(ArgKind(v), v, ws)
  }

  /** The tokens of the comments after argument `after`, in front of `k`. */
  function FlatAt(comments: seq<InternalComment>, after: int, k: Tokens): Tokens {
    if comments == [] then k
    else
      var rest := FlatAt(comments[1..], after, k);
      if comments[0].after == after then Cons(Token(Hash, comments[0].value, comments[0].ws), rest) else rest
  }

  function FlatArgs(args: seq<string>, seps: seq<string>, comments: seq<InternalComment>, n: int,
                    k: Tokens): Tokens
    requires |args| == |seps|
  {
    if args == [] then k
    else Cons(ArgToken(args[0], seps[0]),
              FlatAt(comments, n, FlatArgs(args[1..], seps[1..], comments, n + 1, k)))
  }

  function Spaces(n: nat): seq<string> {
    seq(n, _ => " ")
  }

  /** The comment behind a semicolon; its whitespace is what the scanner would take for it. */
  function FlatTrailing(trailing: string, k: Tokens): Tokens {
    if trailing == "" then k
    else var n := SpaceLen(trailing); Cons(Token(Hash, trailing[n..], trailing[..n]), k)
  }

  function FlatNode(n: Node, k: Tokens): Tokens
    decreases n, 0
  {
    match n
    case Directive(ws, name, args, argWs, semicolon, trailing, comments) =>
      Cons(ArgToken(name, ws),
           FlatAt(comments, -1, FlatArgs(args, Seps(args, argWs), comments, 0,
                                         Cons(Token(Semicolon, ";", ""), FlatTrailing(trailing, k)))))
    case Block(ws, name, args, body, beforeClose) =>
      Cons(ArgToken(name, ws),
           FlatArgs(args, Spaces(|args|), [], 0,
                    Cons(Token(OpenBrace, "{", " "),
                         FlatNodes(body, Cons(Token(CloseBrace, "}", beforeClose), k)))))
    case Comment(ws, value) => Cons(Token(Hash, value, ws), k)
  }

  function FlatNodes(nodes: seq<Node>, k: Tokens): Tokens
    decreases nodes, 1
  {
    if nodes == [] then k else FlatNode(nodes[0], FlatNodes(nodes[1..], k))
  }

  function EndToken(ws: string): Tokens {
    Cons(Token(EndOfFile, "", ws), Nil)
  }

  function FlatConfig(c: Config): Tokens {
    FlatNodes(c.nodes, EndToken(c.trailing))
  }

  /** Every directive in the tree ends in a semicolon, as parsed and inserted ones do. */
  predicate Terminated(nodes: seq<Node>) {
    nodes == [] || (TerminatedNode(nodes[0]) && Terminated(nodes[1..]))
  }

  predicate TerminatedNode(n: Node) {
    match n
    case Directive(_, _, _, _, semicolon, _, _) => semicolon
    case Block(_, _, _, body, _) => Terminated(body)
    case Comment(_, _) => true
  }

  lemma {:induction false} RenderAt(comments: seq<InternalComment>, after: int, k: Tokens)
    ensures Render(FlatAt(comments, after, k)) == TextAt(comments, after) + Render(k)
  {
    if comments != [] {
      RenderAt(comments[1..], after, k);
      Assoc(if comments[0].after == after then comments[0].ws + comments[0].value else "",
            TextAt(comments[1..], after), Render(k));
    }
  }

  lemma {:induction false} RenderArgs(args: seq<string>, seps: seq<string>, comments: seq<InternalComment>,
                                      n: int, k: Tokens)
    requires |args| == |seps|
    ensures Render(FlatArgs(args, seps, comments, n, k)) == TextArgs(args, seps, comments, n) + Render(k)
  {
    if args != [] {
      var rest := FlatArgs(args[1..], seps[1..], comments, n + 1, k);
      RenderArgs(args[1..], seps[1..], comments, n + 1, k);
      RenderAt(comments, n, rest);
      Assoc(seps[0] + args[0], TextAt(comments, n), Render(rest));
      Assoc(seps[0] + args[0] + TextAt(comments, n), TextArgs(args[1..], seps[1..], comments, n + 1), Render(k));
    }
  }

  lemma {:induction false} WordsAreArgs(args: seq<string>, n: int)
    ensures TextWords(args) == TextArgs(args, Spaces(|args|), [], n)
  {
    if args != [] {
      WordsAreArgs(args[1..], n + 1);
      assert Spaces(|args|)[1..] == Spaces(|args| - 1);
    }
  }

  lemma RenderDirective(d: Node, k: Tokens)
    requires d.Directive? && d.semicolon
    ensures Render(FlatNode(d, k)) == NodeText(d) + Render(k)
  {
    var k1 := FlatTrailing(d.trailing, k);
    assert Render(k1) == d.trailing + Render(k);
    var k2 := Cons(Token(Semicolon, ";", ""), k1);
    assert Render(k2) == ";" + Render(k1);
    var seps := Seps(d.args, d.argWs);
    var k3 := FlatArgs(d.args, seps, d.comments, 0, k2);
    hide FlatTrailing, FlatArgs, FlatAt, TextArgs, TextAt, Seps;
    RenderArgs(d.args, seps, d.comments, 0, k2);
    RenderAt(d.comments, -1, k3);
    DirectiveParts(d.ws + d.name, TextAt(d.comments, -1), TextArgs(d.args, seps, d.comments, 0), d.trailing, Render(k));
  }

  lemma DirectiveParts(head: string, comments: string, args: string, trailing: string, rest: string)
    ensures head + (comments + (args + (";" + (trailing + rest)))) == head + comments + args + ";" + trailing + rest
  {
    Assoc(head, comments, args + (";" + (trailing + rest)));
    Assoc(head + comments, args, ";" + (trailing + rest));
    Assoc(head + comments + args, ";", trailing + rest);
    Assoc(head + comments + args + ";", trailing, rest);
  }

  lemma {:induction false} RenderBlock(b: Node, k: Tokens)
    requires b.Block? && Terminated(b.body)
    ensures Render(FlatNode(b, k)) == NodeText(b) + Render(k)
    decreases b, 0
  {
    var k1 := Cons(Token(CloseBrace, "}", b.beforeClose), k);
    RenderNodes(b.body, k1);
    var k2 := Cons(Token(OpenBrace, "{", " "), FlatNodes(b.body, k1));
    RenderArgs(b.args, Spaces(|b.args|), [], 0, k2);
    WordsAreArgs(b.args, 0);
    var t0, t1 := TextWords(b.args), NodesText(b.body);
    var t := b.ws + b.name + t0;
    Assoc(b.ws + b.name, t0, Render(k2));
    assert Render(k2) == " {" + (t1 + Render(k1));
    Assoc(t, " {", t1 + Render(k1));
    Assoc(t + " {", t1, Render(k1));
    assert Render(k1) == b.beforeClose + "}" + Render(k);
    Assoc(b.beforeClose, "}", Render(k));
    Assoc(t + " {" + t1, b.beforeClose, "}" + Render(k));
    Assoc(t + " {" + t1 + b.beforeClose, "}", Render(k));
  }

  /** The printed text is the text of the token stream. */
  lemma {:induction false} RenderNodes(nodes: seq<Node>, k: Tokens)
    requires Terminated(nodes)
    ensures Render(FlatNodes(nodes, k)) == NodesText(nodes) + Render(k)
    decreases nodes, 1
  {
    if nodes != [] {
      var rest := FlatNodes(nodes[1..], k);
      RenderNodes(nodes[1..], k);
      match nodes[0] {
        case Directive(_, _, _, _, _, _, _) => RenderDirective(nodes[0], rest);
        case Block(_, _, _, _, _) => RenderBlock(nodes[0], rest);
        case Comment(_, _) =>
      }
      Assoc(NodeText(nodes[0]), NodesText(nodes[1..]), Render(k));
    }
  }
}
