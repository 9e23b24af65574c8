/** The parser of `internal/plugins/nginx/parser/parse.go`.

    Its meaning is given by functions over the token stream; the class `ParserState` is the parser
    itself, with one token of lookahead, proved to compute those functions.
 */
module NginxParser {
  import opened Common
  import opened NginxLexer
  import opened NginxAst

  datatype ParseError =
    | UnterminatedQuote
    | UnexpectedEnd                  // end of text inside a block
    | UnexpectedClose                // '}' at top level
    | ExpectedName(kind: Kind, value: string)
    | ExpectedEnd(name: string, kind: Kind) // neither ';' nor '{' behind a directive

  datatype Result<T> = Success(value: T) | Failure(error: ParseError)

  /** The arguments of a directive up to a token that is no argument. */
  datatype Args = Args(args: seq<string>, argWs: seq<string>, comments: seq<InternalComment>, rest: Tokens)

  /** The nodes of a body, what follows them, and the whitespace before the end of the text. */
  datatype Body = Body(nodes: seq<Node>, rest: Tokens, lastWs: string)

  function Size(ts: Tokens): nat {
    if ts.Nil? then 0 else 1 + Size(ts.tail)
  }

  /** `n` is the number of arguments read so far. */
  function ParseArgs(ts: Tokens, n: nat): (a: Args)
    ensures Size(a.rest) <= Size(ts) && |a.args| == |a.argWs|
    ensures a.rest.Cons? ==> a.rest.head.kind !in {Word, Quoted, Hash}
  {
    if ts.Cons? && ts.head.kind in {Word, Quoted} then
      var a := ParseArgs(ts.tail, n + 1);
      a.(args := [ts.head.value] + a.args, argWs := [ts.head.ws] + a.argWs)
    else if ts.Cons? && ts.head.kind == Hash then
      var a := ParseArgs(ts.tail, n);
      a.(comments := [InternalComment(n - 1, ts.head.ws, ts.head.value)] + a.comments)
    else
      Args([], [], [], ts)
  }

  /** A comment on the line of the semicolon belongs to the directive. A scanner error here is
      dropped by the original, and reading goes on at the end of the text. */
  function TakeTrailing(ts: Tokens): (res: (string, Tokens))
    ensures Size(res.1) <= Size(ts)
  {
    if ts.Cons? && ts.head.kind == Hash && !ContainsNewline(ts.head.ws) then (ts.head.ws + ts.head.value, ts.tail)
    else if ts.Cons? && ts.head.kind == Unterminated then ("", ts.tail)
    else ("", ts)
  }

  function Prepend(nodes: seq<Node>, r: Result<Body>): Result<Body> {
    if r.Failure? then r else Success(r.value.(nodes := nodes + r.value.nodes))
  }

  function ParseBody(ts: Tokens, topLevel: bool): (r: Result<Body>)
    ensures r.Success? ==> Size(r.value.rest) <= Size(ts)
    ensures r.Success? && !topLevel ==> r.value.rest.Cons? && r.value.rest.head.kind == CloseBrace
    decreases Size(ts)
  {
    if ts.Nil? then Failure(UnexpectedEnd)
    else match ts.head.kind
      case Unterminated => Failure(UnterminatedQuote)
      case EndOfFile => if topLevel then Success(Body([], ts.tail, ts.head.ws)) else Failure(UnexpectedEnd)
      case CloseBrace => if topLevel then Failure(UnexpectedClose) else Success(Body([], ts, ""))
      case Hash => Prepend([Comment(ts.head.ws, ts.head.value)], ParseBody(ts.tail, topLevel))
      case Word =>
        var a := ParseArgs(ts.tail, 0);
        if a.rest.Nil? || a.rest.head.kind == Unterminated then Failure(UnterminatedQuote)
        else if a.rest.head.kind == Semicolon then
          var (trailing, rest) := TakeTrailing(a.rest.tail);
          Prepend([Directive(ts.head.ws, ts.head.value, a.args, a.argWs, true, trailing, a.comments)],
                  ParseBody(rest, topLevel))
        else if a.rest.head.kind == OpenBrace then
          var inner := ParseBody(a.rest.tail, false);
          if inner.Failure? then inner
          else
            var closer := inner.value.rest.head;
            Prepend([Block(ts.head.ws, ts.head.value, a.args, inner.value.nodes, closer.ws)],
                    ParseBody(inner.value.rest.tail, topLevel))
        else Failure(ExpectedEnd(ts.head.value, a.rest.head.kind))
      case _ => Failure(ExpectedName(ts.head.kind, ts.head.value))
  }

  /** `Parse`. */
  function Parse(src: string): Result<Config> {
    match ParseBody(Lex(src), true)
    case Failure(e) => Failure(e)
    case Success(b) => Success(Config(b.nodes, b.lastWs))
  }

  // ----- The parser -----

  lemma PrependPrepend(a: seq<Node>, b: seq<Node>, r: Result<Body>)
    ensures Prepend(a, Prepend(b, r)) == Prepend(a + b, r)
  {
    if r.Success? { Assoc(a, b, r.value.nodes); }
  }

  lemma PrependNothing(r: Result<Body>)
    ensures Prepend([], r) == r
  {
    if r.Success? { assert [] + r.value.nodes == r.value.nodes; }
  }

  /** Arguments read so far in front of those still to be read. */
  function WithArgs(args: seq<string>, argWs: seq<string>, comments: seq<InternalComment>, a: Args): Args {
    Args(args + a.args, argWs + a.argWs, comments + a.comments, a.rest)
  }

  lemma WithOneArg(args: seq<string>, argWs: seq<string>, comments: seq<InternalComment>, ts: Tokens)
    requires ts.Cons? && ts.head.kind in {Word, Quoted}
    ensures WithArgs(args, argWs, comments, ParseArgs(ts, |args|)) ==
            WithArgs(args + [ts.head.value], argWs + [ts.head.ws], comments, ParseArgs(ts.tail, |args| + 1))
  {
    var a := ParseArgs(ts.tail, |args| + 1);
    assert ParseArgs(ts, |args|) == Args([ts.head.value] + a.args, [ts.head.ws] + a.argWs, a.comments, a.rest);
    Assoc(args, [ts.head.value], a.args);
    Assoc(argWs, [ts.head.ws], a.argWs);
  }

  lemma WithOneComment(args: seq<string>, argWs: seq<string>, comments: seq<InternalComment>, ts: Tokens)
    requires ts.Cons? && ts.head.kind == Hash
    ensures WithArgs(args, argWs, comments, ParseArgs(ts, |args|)) ==
            WithArgs(args, argWs, comments + [InternalComment(|args| - 1, ts.head.ws, ts.head.value)],
                     ParseArgs(ts.tail, |args|))
  {
    var a, ic := ParseArgs(ts.tail, |args|), InternalComment(|args| - 1, ts.head.ws, ts.head.value);
    assert ParseArgs(ts, |args|) == a.(comments := [ic] + a.comments);
    hide ParseArgs;
    Assoc(comments, [ic], a.comments);
  }

  class ParserState {
    const lex: Lexer
    var pending: Option<Token>
    var lastWhitespace: string

    constructor (src: string)
      ensures fresh(lex) && Valid() && Stream() == Lex(src)
    {
      lex := new Lexer(src);
      pending, lastWhitespace := None, "";
      new;
      assert src[0..] == src;
    }

    ghost predicate Valid()
      reads this, lex
    {
      lex.Valid() &&
      (pending.Some? ==> pending.value.kind != Unterminated &&
                         (pending.value.kind == EndOfFile ==> lex.Unread() == ""))
    }

    /** What is still to be parsed. */
    ghost function Stream(): Tokens
      requires Valid()
      reads this, lex
    {
      if pending.None? then Lex(lex.Unread())
      else Cons(pending.value, if pending.value.kind == EndOfFile then Nil else Lex(lex.Unread()))
    }

    /** Looking at a scanner error consumes it: nothing is pending and the text is used up. */
    method Peek() returns (t: Token)
      requires Valid() && Stream().Cons?
      modifies this`pending, lex
      ensures Valid() && t == old(Stream()).head
      ensures Stream() == if t.kind == Unterminated then old(Stream()).tail else old(Stream())
      ensures t.kind != Unterminated ==> pending == Some(t)
      ensures Stream().Cons?
    {
      if pending.Some? { return pending.value; }
      t := lex.Next();
      if t.kind != Unterminated { pending := Some(t); }
    }

    method Take() returns (t: Token)
      requires Valid() && Stream().Cons?
      modifies this`pending, lex
      ensures Valid() && t == old(Stream()).head
      ensures t.kind != EndOfFile ==> Stream() == old(Stream()).tail && Stream().Cons?
    {
      if pending.Some? {
        t := pending.value;
        pending := None;
        return;
      }
      t := lex.Next();
    }

    /** The argument loop of `parseBody`; it fails on an error of the scanner. */
    method TakeArgs() returns (ok: bool, args: seq<string>, argWs: seq<string>, comments: seq<InternalComment>)
      requires Valid() && Stream().Cons?
      modifies this`pending, lex
      ensures Valid()
      ensures var spec := ParseArgs(old(Stream()), 0);
        ok == (spec.rest.Cons? && spec.rest.head.kind != Unterminated) &&
        (ok ==> spec == Args(args, argWs, comments, Stream()) && Stream().Cons?)
    {
      hide Lex;
      ghost var spec := ParseArgs(Stream(), 0);
      args, argWs, comments := [], [], [];
      assert WithArgs([], [], [], spec) == spec;
      while true
        invariant Valid() && Stream().Cons?
        invariant |argWs| == |args| && WithArgs(args, argWs, comments, ParseArgs(Stream(), |args|)) == spec
        decreases Size(Stream())
      {
        ghost var ts := Stream();
        var t := Peek();
        if t.kind == Unterminated { return false, args, argWs, comments; }
        if t.kind == Word || t.kind == Quoted {
          var _ := Take();
          WithOneArg(args, argWs, comments, ts);
          args, argWs := args + [t.value], argWs + [t.ws];
          continue;
        }
        if t.kind == Hash {
          var _ := Take();
          WithOneComment(args, argWs, comments, ts);
          comments := comments + [InternalComment(|args| - 1, t.ws, t.value)];
          continue;
        }
        assert WithArgs(args, argWs, comments, Args([], [], [], Stream())) == Args(args, argWs, comments, Stream());
        return true, args, argWs, comments;
      }
    }

    /** The peek behind a semicolon, whose error the original ignores. */
    method TakeTrailingComment() returns (trailing: string)
      requires Valid() && Stream().Cons?
      modifies this`pending, lex
      ensures Valid() && Stream().Cons? && (trailing, Stream()) == TakeTrailing(old(Stream()))
    {
      trailing := "";
      var t := Peek();
      if t.kind == Hash && !ContainsNewline(t.ws) {
        var _ := Take();
        trailing := t.ws + t.value;
      }
    }

    method ParseNodes(topLevel: bool) returns (r: Result<seq<Node>>)
      requires Valid() && Stream().Cons?
      modifies this, lex
      ensures Valid()
      ensures match ParseBody(old(Stream()), topLevel)
        case Failure(e) => r == Failure(e)
        case Success(b) =>
          r == Success(b.nodes) && (topLevel ==> lastWhitespace == b.lastWs) && (!topLevel ==> Stream() == b.rest)
      decreases Size(Stream()), 1
    {
      hide Lex, ParseArgs, TakeTrailing;
      var nodes := [];
      ghost var spec := ParseBody(Stream(), topLevel);
      PrependNothing(spec);
      while true
        invariant Valid() && Stream().Cons? && Size(Stream()) <= old(Size(Stream()))
        invariant Prepend(nodes, ParseBody(Stream(), topLevel)) == spec
        decreases Size(Stream())
      {
        ghost var ts := Stream();
        var t := Peek();
        if t.kind == Unterminated { return Failure(UnterminatedQuote); }
        if t.kind == EndOfFile {
          if !topLevel { return Failure(UnexpectedEnd); }
          var _ := Take();
          lastWhitespace := t.ws;
          assert nodes + [] == nodes;
          return Success(nodes);
        }
        if t.kind == CloseBrace {
          assert nodes + [] == nodes;
          return if topLevel then Failure(UnexpectedClose) else Success(nodes);
        }
        if t.kind == Hash {
          var _ := Take();
          PrependPrepend(nodes, [Comment(t.ws, t.value)], ParseBody(Stream(), topLevel));
          nodes := nodes + [Comment(t.ws, t.value)];
          continue;
        }
        var nameTok := Take();
        if nameTok.kind != Word { return Failure(ExpectedName(nameTok.kind, nameTok.value)); }
        var ok, args, argWs, comments := TakeArgs();
        if !ok { return Failure(UnterminatedQuote); }
        var closer := Take();
        if closer.kind == Semicolon {
          var trailing := TakeTrailingComment();
          var d := Directive(nameTok.ws, nameTok.value, args, argWs, true, trailing, comments);
          PrependPrepend(nodes, [d], ParseBody(Stream(), topLevel));
          nodes := nodes + [d];
        } else if closer.kind == OpenBrace {
          var body := ParseNodes(false);
          if body.Failure? { return body; }
          var closeTok := Take();
          var b := Block(nameTok.ws, nameTok.value, args, body.value, closeTok.ws);
          PrependPrepend(nodes, [b], ParseBody(Stream(), topLevel));
          nodes := nodes + [b];
        } else {
          return Failure(ExpectedEnd(nameTok.value, closer.kind));
        }
      }
    }
  }

  method ParseText(src: string) returns (r: Result<Config>)
    ensures r == Parse(src)
  {
    var p := new ParserState(src);
    var nodes := p.ParseNodes(true);
    if nodes.Failure? { return Failure(nodes.error); }
    r := Success(Config(nodes.value, p.lastWhitespace));
  }
}
