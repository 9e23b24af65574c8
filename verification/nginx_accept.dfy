/** Which texts the parser of `internal/plugins/nginx/parser/parse.go` accepts.

    One pass over the tokens decides it, with the number of open braces and what was read last as its
    only memory. The pass builds no tree, and it names the error of every text that is refused.
 */
module NginxAccept {
  import opened Common
  import opened NginxLexer
  import opened NginxAst
  import opened NginxParser

  /** What the next token is read as: a node, a node directly behind a semicolon, or a part of the
      directive or block that `name` began. */
  datatype Place = AtNode | BehindSemicolon | InHeader(name: string)

  function Next(place: Place, t: Token): (next: Place) {
    if place.InHeader? then
      match t.kind
      case Semicolon => BehindSemicolon
      case OpenBrace => AtNode
      case _ => place
    else if t.kind == Word then InHeader(t.value)
    else AtNode
  }

  /** The error of a token at its place, inside `depth` braces. An unclosed quote directly behind a
      semicolon is no error. */
  function TokenFault(t: Token, place: Place, depth: nat): Option<ParseError> {
    match t.kind
    case Word | Hash => None
    case Unterminated => if place.BehindSemicolon? then None else Some(UnterminatedQuote)
    case Semicolon | OpenBrace => if place.InHeader? then None else Some(ExpectedName(t.kind, t.value))
    case Quoted => if place.InHeader? then None else Some(ExpectedName(t.kind, t.value))
    case CloseBrace =>
      if place.InHeader? then Some(ExpectedEnd(place.name, t.kind)) else if depth == 0 then Some(UnexpectedClose) else None
    case EndOfFile =>
      if place.InHeader? then Some(ExpectedEnd(place.name, t.kind)) else if depth > 0 then Some(UnexpectedEnd) else None
  }

  function DepthBehind(t: Token, depth: nat): nat {
    if t.kind == OpenBrace then depth + 1 else if t.kind == CloseBrace && depth > 0 then depth - 1 else depth
  }

  /** The first error of a stream of tokens. */
  function Fault(ts: Tokens, place: Place, depth: nat): Option<ParseError> {
    if ts.Nil? then Some(if place.InHeader? then UnterminatedQuote else UnexpectedEnd)
    else
      var fault := TokenFault(ts.head, place, depth);
      if fault.Some? || ts.head.kind == EndOfFile then fault
      else
        Fault(ts.tail, Next(place, ts.head), DepthBehind(ts.head, depth))
  }

  /** The arguments are what stands before the first token that is neither a word, a quoted text nor a comment. */
  lemma {:induction false} HeaderFault(ts: Tokens, n: nat, name: string, depth: nat)
    ensures Fault(ts, InHeader(name), depth) == Fault(ParseArgs(ts, n).rest, InHeader(name), depth)
  {
    if ts.Cons? && ts.head.kind in {Word, Quoted} { HeaderFault(ts.tail, n + 1, name, depth); }
    else if ts.Cons? && ts.head.kind == Hash { HeaderFault(ts.tail, n, name, depth); }
  }

  lemma TrailingFault(ts: Tokens, depth: nat)
    ensures Fault(ts, BehindSemicolon, depth) == Fault(TakeTrailing(ts).1, AtNode, depth)
  {
  }

  /** The error of the stream, seen from a body of it: the first one in the body or, when there is
      none, the first one behind its closing brace. */
  function BodyFault(ts: Tokens, depth: nat): Option<ParseError> {
    match ParseBody(ts, depth == 0)
    case Failure(e) => Some(e)
    case Success(b) => if depth == 0 then None else Fault(b.rest.tail, AtNode, depth - 1)
  }

  lemma {:induction false} BodyFaults(ts: Tokens, depth: nat)
    ensures Fault(ts, AtNode, depth) == BodyFault(ts, depth)
    decreases Size(ts)
  {
    hide ParseArgs, TakeTrailing;
    if ts.Cons? {
      if ts.head.kind == Hash { BodyFaults(ts.tail, depth); }
      if ts.head.kind == Word {
        var a := ParseArgs(ts.tail, 0);
        HeaderFault(ts.tail, 0, ts.head.value, depth);
        if a.rest.Cons? && a.rest.head.kind == Semicolon {
          TrailingFault(a.rest.tail, depth);
          BodyFaults(TakeTrailing(a.rest.tail).1, depth);
        }
        if a.rest.Cons? && a.rest.head.kind == OpenBrace {
          BodyFaults(a.rest.tail, depth + 1);
          var inner := ParseBody(a.rest.tail, false);
          if inner.Success? { BodyFaults(inner.value.rest.tail, depth); }
        }
      }
    }
  }

  /** Exactly the texts without a fault parse, and a text with one is refused with that error. */
  lemma ParsesExactly(src: string)
    ensures Parse(src).Success? <==> Fault(Lex(src), AtNode, 0).None?
    ensures Parse(src).Failure? ==> Fault(Lex(src), AtNode, 0) == Some(Parse(src).error)
  {
    hide ParseBody, Fault, Lex;
    BodyFaults(Lex(src), 0);
  }

  // ----- Comments in the header of a block -----

  /** Words, quoted texts and comments up to an opening brace. */
  predicate UpToBrace(ts: Tokens) {
    ts.Cons? && (ts.head.kind == OpenBrace || (ts.head.kind in {Word, Quoted, Hash} && UpToBrace(ts.tail)))
  }

  /** Token `k` is a comment between the name of a block and its brace. */
  predicate HeaderComment(ts: Tokens, k: nat, place: Place) {
    ts.Cons? &&
    if k == 0 then place.InHeader? && ts.head.kind == Hash && UpToBrace(ts.tail)
    else HeaderComment(ts.tail, k - 1, Next(place, ts.head))
  }

  function Without(ts: Tokens, k: nat): Tokens {
    if ts.Nil? then Nil else if k == 0 then ts.tail else Cons(ts.head, Without(ts.tail, k - 1))
  }

  /** Leaving out token `k` leaves the arguments as they are; it stands in the header that is read, or
      it is token `j` of what is behind it. */
  predicate ArgsAlike(a: Args, b: Args, name: string, j: nat) {
    b.args == a.args && b.argWs == a.argWs &&
    ((a.rest.Cons? && a.rest.head.kind == OpenBrace && b.rest == a.rest) ||
     (b.comments == a.comments && HeaderComment(a.rest, j, InHeader(name)) && b.rest == Without(a.rest, j)))
  }

  lemma {:induction false} UpToBraceArgs(ts: Tokens, n: nat)
    requires UpToBrace(ts)
    ensures var a := ParseArgs(ts, n); a.rest.Cons? && a.rest.head.kind == OpenBrace
  {
    if ts.head.kind in {Word, Quoted} { UpToBraceArgs(ts.tail, n + 1); }
    else if ts.head.kind == Hash { UpToBraceArgs(ts.tail, n); }
  }

  lemma {:induction false} ArgsIgnore(ts: Tokens, k: nat, n: nat, name: string) returns (j: nat)
    requires HeaderComment(ts, k, InHeader(name))
    ensures ArgsAlike(ParseArgs(ts, n), ParseArgs(Without(ts, k), n), name, j)
  {
    if k == 0 {
      UpToBraceArgs(ts.tail, n);
      j := 0;
    } else if ts.head.kind in {Word, Quoted} {
      j := ArgsIgnore(ts.tail, k - 1, n + 1, name);
    } else if ts.head.kind == Hash {
      j := ArgsIgnore(ts.tail, k - 1, n, name);
    } else {
      j := k;
    }
  }

  lemma TrailingIgnores(ts: Tokens, k: nat) returns (j: nat)
    requires HeaderComment(ts, k, BehindSemicolon)
    ensures var (trailing, rest) := TakeTrailing(ts);
      HeaderComment(rest, j, AtNode) && TakeTrailing(Without(ts, k)) == (trailing, Without(rest, j))
  {
    j := if TakeTrailing(ts).1 == ts then k else k - 1;
  }

  /** The same nodes or the same error; where the rests differ, token `j` of the first one is left out. */
  predicate Alike(r: Result<Body>, s: Result<Body>, j: nat) {
    s == r ||
    (r.Success? && s.Success? && s.value == r.value.(rest := s.value.rest) &&
     HeaderComment(r.value.rest, j, AtNode) && s.value.rest == Without(r.value.rest, j))
  }

  lemma {:induction false} BodyIgnores(ts: Tokens, k: nat, topLevel: bool) returns (j: nat)
    requires HeaderComment(ts, k, AtNode)
    ensures Alike(ParseBody(ts, topLevel), ParseBody(Without(ts, k), topLevel), j)
    decreases Size(ts), 1
  {
    j := k;
    if ts.head.kind == Hash {
      j := BodyIgnores(ts.tail, k - 1, topLevel);
    } else if ts.head.kind == EndOfFile {
      j := k - 1;
    } else if ts.head.kind == Word {
      var i := ArgsIgnore(ts.tail, k - 1, 0, ts.head.value);
      var a, b := ParseArgs(ts.tail, 0), ParseArgs(Without(ts, k).tail, 0);
      hide HeaderComment, ParseArgs, TakeTrailing, Alike;
      if b.rest == a.rest {
        SameRest(ts, Without(ts, k), topLevel);
      } else if a.rest.head.kind == Semicolon {
        j := DirectiveIgnores(ts, Without(ts, k), i, topLevel);
      } else if a.rest.head.kind == OpenBrace {
        j := BlockIgnores(ts, Without(ts, k), i, topLevel);
      } else {
        NoBodyIgnores(ts, Without(ts, k), i, topLevel);
      }
    }
  }

  /** The headers of two streams that begin with the same name. */
  predicate HeadersAlike(ts: Tokens, us: Tokens, i: nat) {
    ts.Cons? && us.Cons? && us.head == ts.head && ts.head.kind == Word &&
    ArgsAlike(ParseArgs(ts.tail, 0), ParseArgs(us.tail, 0), ts.head.value, i)
  }

  lemma SameRest(ts: Tokens, us: Tokens, topLevel: bool)
    requires ts.Cons? && us.Cons? && us.head == ts.head && ts.head.kind == Word
    requires var a, b := ParseArgs(ts.tail, 0), ParseArgs(us.tail, 0);
      b.rest == a.rest && b.args == a.args && b.argWs == a.argWs &&
      ((a.rest.Cons? && a.rest.head.kind == OpenBrace) || b.comments == a.comments)
    ensures ParseBody(us, topLevel) == ParseBody(ts, topLevel)
    ensures forall j: nat :: Alike(ParseBody(ts, topLevel), ParseBody(us, topLevel), j)
  {
    hide ParseArgs, TakeTrailing;
  }

  lemma NoBodyIgnores(ts: Tokens, us: Tokens, i: nat, topLevel: bool)
    requires HeadersAlike(ts, us, i)
    requires var a, b := ParseArgs(ts.tail, 0), ParseArgs(us.tail, 0);
      b.rest != a.rest && a.rest.Cons? && a.rest.head.kind !in {Semicolon, OpenBrace}
    ensures forall j: nat :: Alike(ParseBody(ts, topLevel), ParseBody(us, topLevel), j)
  {
    RestHead(ParseArgs(ts.tail, 0).rest, i, ts.head.value);
    hide ParseArgs, TakeTrailing, HeaderComment, Without;
  }

  /** Behind the arguments stands no comment, so what is left out comes later. */
  lemma RestHead(rest: Tokens, i: nat, name: string)
    requires HeaderComment(rest, i, InHeader(name)) && rest.Cons? && rest.head.kind !in {Word, Quoted, Hash}
    ensures i > 0 && Without(rest, i) == Cons(rest.head, Without(rest.tail, i - 1))
    ensures HeaderComment(rest.tail, i - 1, Next(InHeader(name), rest.head))
  {
  }

  lemma {:induction false} DirectiveIgnores(ts: Tokens, us: Tokens, i: nat, topLevel: bool) returns (j: nat)
    requires HeadersAlike(ts, us, i)
    requires var a, b := ParseArgs(ts.tail, 0), ParseArgs(us.tail, 0);
      b.rest != a.rest && a.rest.Cons? && a.rest.head.kind == Semicolon
    ensures Alike(ParseBody(ts, topLevel), ParseBody(us, topLevel), j)
    decreases Size(ts), 0
  {
    var rest := ParseArgs(ts.tail, 0).rest;
    RestHead(rest, i, ts.head.value);
    var h := TrailingIgnores(rest.tail, i - 1);
    j := BodyIgnores(TakeTrailing(rest.tail).1, h, topLevel);
    hide ParseArgs, TakeTrailing, HeaderComment, Without;
  }

  lemma {:induction false} BlockIgnores(ts: Tokens, us: Tokens, i: nat, topLevel: bool) returns (j: nat)
    requires HeadersAlike(ts, us, i)
    requires var a, b := ParseArgs(ts.tail, 0), ParseArgs(us.tail, 0);
      b.rest != a.rest && a.rest.Cons? && a.rest.head.kind == OpenBrace
    ensures Alike(ParseBody(ts, topLevel), ParseBody(us, topLevel), j)
    decreases Size(ts), 0
  {
    hide ParseArgs, ParseBody, HeaderComment, Without;
    var a, b := ParseArgs(ts.tail, 0), ParseArgs(us.tail, 0);
    RestHead(a.rest, i, ts.head.value);
    BlockStep(ts, topLevel);
    BlockStep(us, topLevel);
    var h := BodyIgnores(a.rest.tail, i - 1, false);
    var r, s := ParseBody(a.rest.tail, false), ParseBody(b.rest.tail, false);
    j := 0;
    if r != s {
      ClosingHead(r.value.rest, h);
      j := BodyIgnores(r.value.rest.tail, h - 1, topLevel);
    }
  }

  function AfterBlock(t: Token, a: Args, inner: Result<Body>, topLevel: bool): Result<Body>
    requires inner.Success? ==> inner.value.rest.Cons?
  {
    if inner.Failure? then inner
    else
      var closer := inner.value.rest;
      Prepend([Block(t.ws, t.value, a.args, inner.value.nodes, closer.head.ws)], ParseBody(closer.tail, topLevel))
  }

  lemma BlockStep(ts: Tokens, topLevel: bool)
    requires ts.Cons? && ts.head.kind == Word
    requires var a := ParseArgs(ts.tail, 0); a.rest.Cons? && a.rest.head.kind == OpenBrace
    ensures var a := ParseArgs(ts.tail, 0); var inner := ParseBody(a.rest.tail, false);
      Size(a.rest) < Size(ts) &&
      (inner.Success? ==>
        inner.value.rest.Cons? && inner.value.rest.head.kind == CloseBrace && Size(inner.value.rest) < Size(ts)) &&
      ParseBody(ts, topLevel) == AfterBlock(ts.head, a, inner, topLevel)
  {
  }

  lemma ClosingHead(rest: Tokens, h: nat)
    requires HeaderComment(rest, h, AtNode) && rest.Cons? && rest.head.kind == CloseBrace
    ensures h > 0 && Without(rest, h) == Cons(rest.head, Without(rest.tail, h - 1)) && HeaderComment(rest.tail, h - 1, AtNode)
  {
  }

  /** Two texts whose tokens differ in one comment between the name of a block and its brace parse to
      the same nodes or fail with the same error. */
  lemma HeaderCommentIgnored(src: string, other: string, k: nat)
    requires HeaderComment(Lex(src), k, AtNode) && Lex(other) == Without(Lex(src), k)
    ensures Parse(other) == Parse(src)
  {
    hide ParseBody, Lex, HeaderComment, Without;
    var j := BodyIgnores(Lex(src), k, true);
  }

  lemma {:induction false} WithoutLexable(ts: Tokens, k: nat, place: Place)
    requires Lexable(ts) && HeaderComment(ts, k, place)
    ensures Lexable(Without(ts, k))
    ensures k == 0 ==> ts.tail.head.ws != "" && ts.tail.head.ws[0] == '\n'
  {
    if k > 0 { WithoutLexable(ts.tail, k - 1, Next(place, ts.head)); }
  }

  /** Such a comment can be cut out of every text whose quotes are closed. */
  lemma HeaderCommentRemoved(src: string, k: nat)
    requires Closed(Lex(src)) && HeaderComment(Lex(src), k, AtNode)
    ensures var cut := Render(Without(Lex(src), k)); Lex(cut) == Without(Lex(src), k) && Parse(cut) == Parse(src)
  {
    LexIsLexable(src);
    WithoutLexable(Lex(src), k, AtNode);
    LexReadsBack(Without(Lex(src), k));
    HeaderCommentIgnored(src, Render(Without(Lex(src), k)), k);
  }
}
