/** The scanner of `internal/plugins/nginx/parser/lex.go`.

    Text is a sequence of runes. The first half is the meaning of the scanner, as functions from
    the unread text to the next token; the class `Lexer` is the scanner itself, whose methods
    advance `pos` in loops and are proved against those functions.
 */
module NginxLexer {
  import opened Text

  datatype Kind = EndOfFile | Word | Quoted | OpenBrace | CloseBrace | Semicolon | Hash | Unterminated

  /** `ws` is the run of whitespace before the token. `Unterminated` stands for the error of
      `consumeQuoted`; a caller that ignores the error goes on behind the end of the text. */
  datatype Token = Token(kind: Kind, value: string, ws: string)

  /** What the lexer yields from some position on, one call of `next` after the other. */
  datatype Tokens = Nil | Cons(head: Token, tail: Tokens)

  // ----- Characters -----

  predicate IsSpecial(c: char) {
    c == ';' || c == '{' || c == '}' || c == '#'
  }

  predicate IsQuote(c: char) {
    c == '"' || c == '\''
  }

  predicate ContainsNewline(s: string) {
    '\n' in s
  }

  // ----- Lengths of the pieces at the front of the unread text -----

  function SpaceLen(s: string): (n: nat)
    ensures n <= |s| && AllSpace(s[..n]) && (n < |s| ==> !IsSpace(s[n]))
  {
    if s != "" && IsSpace(s[0]) then
      var n := SpaceLen(s[1..]);
      assert s[..n + 1] == [s[0]] + s[1..][..n];
      1 + n
    else 0
  }

  predicate StopsWord(c: char) {
    IsSpecial(c) || IsSpace(c)
  }

  function WordLen(s: string): (n: nat)
    ensures n <= |s| && (forall i :: 0 <= i < n ==> !StopsWord(s[i])) && (n < |s| ==> StopsWord(s[n]))
  {
    if s != "" && !StopsWord(s[0]) then 1 + WordLen(s[1..]) else 0
  }

  function LineLen(s: string): (n: nat)
    ensures n <= |s| && '\n' !in s[..n] && (n < |s| ==> s[n] == '\n')
  {
    if s != "" && s[0] != '\n' then 1 + LineLen(s[1..]) else 0
  }

  /** Length up to and including the closing quote, in text behind the opening one; -1 if none. */
  function QuoteLen(s: string, quote: char): (n: int)
    ensures -1 <= n <= |s| && n != 0
  {
    if s == "" then -1
    else
      var skip := if s[0] == '\\' && |s| > 1 then 2 else 1;
      if skip == 1 && s[0] == quote then 1
      else
        var n := QuoteLen(s[skip..], quote);
        if n < 0 then -1 else skip + n
  }

  /** A quoted text ends with the first closing quote that no backslash escapes. */
  lemma {:induction false} QuoteExactly(s: string, quote: char)
    requires quote != '\\'
    ensures var n := QuoteLen(s, quote);
      if n < 0 then forall i :: 0 <= i < |s| ==> !Unescaped(s, i, quote)
      else n > 0 && Unescaped(s, n - 1, quote) && forall i :: 0 <= i < n - 1 ==> !Unescaped(s, i, quote)
    decreases |s|
  {
    hide Unescaped, OddBackslashes;
    if s != "" {
      var skip := if s[0] == '\\' && |s| > 1 then 2 else 1;
      UnescapedFirst(s, quote);
      if skip == 2 || s[0] != quote {
        QuoteExactly(s[skip..], quote);
        if skip == 2 || s[0] != '\\' {
          forall i | skip <= i < |s| ensures Unescaped(s, i, quote) == Unescaped(s[skip..], i - skip, quote) {
            UnescapedSkip(s, skip, i, quote);
          }
        }
        if skip == 2 { EscapedSecond(s, quote); }
      }
    }
  }

  lemma UnescapedFirst(s: string, c: char)
    requires s != ""
    ensures Unescaped(s, 0, c) == (s[0] == c)
  {
  }

  lemma EscapedSecond(s: string, c: char)
    requires |s| > 1 && s[0] == '\\'
    ensures !Unescaped(s, 1, c)
  {
    var p := s[..1];
    assert p[..0] == "" && p[0] == '\\' && OddBackslashes(p);
  }

  // ----- The next token and the token stream -----

  /** The token at the front of text that does not start with whitespace, and its length. */
  function TokenAt(r: string, ws: string): (res: (Token, nat))
    requires r != "" ==> !IsSpace(r[0])
    ensures res.1 <= |r| && (r != "" ==> res.1 > 0) && (res.0.kind == EndOfFile <==> r == "")
    ensures res.0.kind != Unterminated ==> res.0.ws == ws && res.0.value == r[..res.1]
  {
    if r == "" then (Token(EndOfFile, "", ws), 0)
    else if r[0] == '{' then (Token(OpenBrace, "{", ws), 1)
    else if r[0] == '}' then (Token(CloseBrace, "}", ws), 1)
    else if r[0] == ';' then (Token(Semicolon, ";", ws), 1)
    else if r[0] == '#' then (Token(Hash, r[..LineLen(r)], ws), LineLen(r))
    else if IsQuote(r[0]) then
      var n := QuoteLen(r[1..], r[0]);
      if n < 0 then (Token(Unterminated, "", ""), |r|) else (Token(Quoted, r[..n + 1], ws), n + 1)
    else (Token(Word, r[..WordLen(r)], ws), WordLen(r))
  }

  /** `lexer.next`: the next token and the text left unread. */
  function NextToken(s: string): (res: (Token, string))
    ensures |res.1| <= |s| && (res.0.kind != EndOfFile ==> |res.1| < |s|)
    ensures res.0.kind != Unterminated ==> s == res.0.ws + res.0.value + res.1
    ensures res.0.kind == Unterminated || res.0.kind == EndOfFile ==> res.1 == ""
  {
    var n := SpaceLen(s);
    var (t, m) := TokenAt(s[n..], s[..n]);
    (t, s[n..][m..])
  }

  function Lex(s: string): (ts: Tokens)
    ensures ts.Cons?
    decreases |s|
  {
    var (t, rest) := NextToken(s);
    Cons(t, if t.kind == EndOfFile then Nil else Lex(rest))
  }

  /** Whitespace and text of every token, in order. */
  function Render(ts: Tokens): string {
    if ts.Nil? then "" else ts.head.ws + ts.head.value + Render(ts.tail)
  }

  predicate Closed(ts: Tokens) {
    ts.Cons? ==> ts.head.kind != Unterminated && Closed(ts.tail)
  }

  /** The lexer loses nothing: when every quote is closed, the tokens spell the text. */
  lemma {:induction false} LexIsLossless(s: string)
    requires Closed(Lex(s))
    ensures Render(Lex(s)) == s
    decreases |s|
  {
    var (t, rest) := NextToken(s);
    if t.kind != EndOfFile { LexIsLossless(rest); }
  }

  // ----- Token streams that can be spelled -----

  predicate GoodWord(v: string) {
    v != "" && !IsQuote(v[0]) && forall i :: 0 <= i < |v| ==> !StopsWord(v[i])
  }

  predicate GoodQuoted(v: string) {
    v != "" && IsQuote(v[0]) && QuoteLen(v[1..], v[0]) == |v| - 1
  }

  predicate GoodComment(v: string) {
    v != "" && v[0] == '#' && '\n' !in v
  }

  predicate GoodToken(t: Token) {
    AllSpace(t.ws) &&
    match t.kind
    case EndOfFile => t.value == ""
    case Word => GoodWord(t.value)
    case Quoted => GoodQuoted(t.value)
    case OpenBrace => t.value == "{"
    case CloseBrace => t.value == "}"
    case Semicolon => t.value == ";"
    case Hash => GoodComment(t.value)
    case Unterminated => false
  }

  /** Token `u` may stand directly behind `t`: a word needs an end, a comment a newline. */
  predicate Follows(t: Token, u: Token) {
    match t.kind
    case Word => u.ws != "" || (u.kind != Word && u.kind != Quoted)
    case Hash => if u.ws == "" then u.kind == EndOfFile else u.ws[0] == '\n'
    case _ => true
  }

  /** A comment directly before a semicolon, which its text would swallow. */
  predicate Swallows(t: Token, u: Token) {
    t.kind == Hash && u == Token(Semicolon, ";", "")
  }

  /** The stream can be spelled; when not `strict`, except for semicolons swallowed by a comment. */
  predicate Spelled(ts: Tokens, strict: bool) {
    ts.Cons? && GoodToken(ts.head) &&
    if ts.head.kind == EndOfFile then ts.tail.Nil?
    else
      ts.tail.Cons? && (Follows(ts.head, ts.tail.head) || (!strict && Swallows(ts.head, ts.tail.head))) &&
      Spelled(ts.tail, strict)
  }

  predicate Lexable(ts: Tokens) {
    Spelled(ts, true)
  }

  lemma {:induction false} SpaceLenAppend(ws: string, r: string)
    requires AllSpace(ws) && (r != "" ==> !IsSpace(r[0]))
    ensures SpaceLen(ws + r) == |ws|
  {
    if ws == "" { assert ws + r == r; }
    else {
      SpaceLenAppend(ws[1..], r);
      assert (ws + r)[1..] == ws[1..] + r;
    }
  }

  lemma {:induction false} WordLenAppend(v: string, r: string)
    requires forall i :: 0 <= i < |v| ==> !StopsWord(v[i])
    requires r != "" ==> StopsWord(r[0])
    ensures WordLen(v + r) == |v|
  {
    if v == "" { assert v + r == r; }
    else {
      WordLenAppend(v[1..], r);
      assert (v + r)[1..] == v[1..] + r;
    }
  }

  lemma {:induction false} LineLenAppend(v: string, r: string)
    requires '\n' !in v && (r != "" ==> r[0] == '\n')
    ensures LineLen(v + r) == |v|
  {
    if v == "" { assert v + r == r; }
    else {
      LineLenAppend(v[1..], r);
      assert (v + r)[1..] == v[1..] + r;
    }
  }

  lemma {:induction false} QuoteLenAppend(v: string, quote: char, r: string)
    requires QuoteLen(v, quote) == |v| && quote != '\\'
    ensures QuoteLen(v + r, quote) == |v|
  {
    var skip := if v[0] == '\\' && |v| > 1 then 2 else 1;
    assert |v| > 0;
    if !(skip == 1 && v[0] == quote) {
      assert QuoteLen(v[skip..], quote) == |v| - skip;
      QuoteLenAppend(v[skip..], quote, r);
      assert (v + r)[skip..] == v[skip..] + r;
    }
  }

  lemma TokenAtAppend(t: Token, r: string)
    requires GoodToken(t) && t.kind != EndOfFile
    requires t.kind == Word && r != "" ==> StopsWord(r[0])
    requires t.kind == Hash && r != "" ==> r[0] == '\n'
    ensures TokenAt(t.value + r, t.ws) == (t, |t.value|)
  {
    var s := t.value + r;
    assert s[0] == t.value[0] && s[..|t.value|] == t.value;
    match t.kind
    case Word => WordLenAppend(t.value, r);
    case Hash => LineLenAppend(t.value, r);
    case Quoted =>
      QuoteLenAppend(t.value[1..], t.value[0], r);
      assert s[1..] == t.value[1..] + r;
    case _ =>
  }

  /** A good token in front of text it may precede is read back as that token. */
  lemma TokenReadBack(t: Token, r: string)
    requires GoodToken(t)
    requires t.kind == EndOfFile ==> r == ""
    requires t.kind == Word && r != "" ==> StopsWord(r[0])
    requires t.kind == Hash && r != "" ==> r[0] == '\n'
    ensures NextToken(t.ws + t.value + r) == (t, r)
  {
    var s := t.value + r;
    var all := t.ws + t.value + r;
    assert all == t.ws + s;
    if t.kind != EndOfFile {
      TokenAtAppend(t, r);
      assert s[0] == t.value[0];
    }
    SpaceLenAppend(t.ws, s);
    assert all[|t.ws|..] == s && all[..|t.ws|] == t.ws && s[|t.value|..] == r;
  }

  /** How the text of a token and what is behind it starts. */
  lemma TextStart(u: Token, r: string)
    requires GoodToken(u)
    ensures var s := u.ws + u.value + r;
      (u.ws != "" ==> s[0] == u.ws[0]) && (u.ws == "" && u.value != "" ==> s[0] == u.value[0])
  {
  }

  /** The text of a spellable token stream is read back as that stream. */
  lemma {:induction false} LexReadsBack(ts: Tokens)
    requires Lexable(ts)
    ensures Lex(Render(ts)) == ts
  {
    var t, r := ts.head, Render(ts.tail);
    if t.kind != EndOfFile {
      LexReadsBack(ts.tail);
      TextStart(ts.tail.head, Render(ts.tail.tail));
    }
    TokenReadBack(t, r);
  }

  /** What the lexer yields on any text: spellable tokens, up to an unclosed quote if there is one. */
  predicate Sound(ts: Tokens) {
    ts.Cons? &&
    if ts.head.kind == Unterminated then ts.tail == Cons(Token(EndOfFile, "", ""), Nil)
    else
      GoodToken(ts.head) &&
      if ts.head.kind == EndOfFile then ts.tail.Nil?
      else
        Sound(ts.tail) && (ts.tail.head.kind == Unterminated || Follows(ts.head, ts.tail.head))
  }

  lemma {:induction false} SoundClosedIsLexable(ts: Tokens)
    ensures Sound(ts) && Closed(ts) <==> Lexable(ts)
  {
    if ts.Cons? { SoundClosedIsLexable(ts.tail); }
  }

  lemma {:induction false} LexIsSound(s: string)
    ensures Sound(Lex(s))
    decreases |s|
  {
    var (t, rest) := NextToken(s);
    if t.kind == Unterminated {
      assert NextToken(rest) == (Token(EndOfFile, "", ""), "");
    } else {
      NextTokenGood(s);
      if t.kind != EndOfFile {
        LexIsSound(rest);
        HeadStart(rest);
      }
    }
  }

  /** Conversely to `LexReadsBack`, what the lexer yields can be spelled when every quote is closed. */
  lemma LexIsLexable(s: string)
    requires Closed(Lex(s))
    ensures Lexable(Lex(s))
  {
    LexIsSound(s);
    SoundClosedIsLexable(Lex(s));
  }

  /** How the next token starts, by the first character of the text. */
  lemma HeadStart(s: string)
    ensures var u := NextToken(s).0; u.kind != Unterminated ==>
      (u.ws == "" <==> s == "" || !IsSpace(s[0])) && (u.ws != "" ==> u.ws[0] == s[0]) &&
      (s == "" ==> u.kind == EndOfFile) && (s != "" && IsSpecial(s[0]) ==> u.kind != Word && u.kind != Quoted)
  {
  }

  lemma {:induction false} QuoteLenPrefix(s: string, quote: char)
    requires QuoteLen(s, quote) > 0
    ensures QuoteLen(s[..QuoteLen(s, quote)], quote) == QuoteLen(s, quote)
  {
    var n := QuoteLen(s, quote);
    var skip := if s[0] == '\\' && |s| > 1 then 2 else 1;
    if !(skip == 1 && s[0] == quote) {
      QuoteLenPrefix(s[skip..], quote);
      assert s[..n][skip..] == s[skip..][..n - skip];
    }
  }

  lemma NextTokenGood(s: string)
    requires NextToken(s).0.kind != Unterminated
    ensures var (t, rest) := NextToken(s);
      GoodToken(t) && (t.kind == Word && rest != "" ==> StopsWord(rest[0])) &&
      (t.kind == Hash && rest != "" ==> rest[0] == '\n')
  {
    var r := s[SpaceLen(s)..];
    var t := NextToken(s).0;
    if t.kind == Quoted {
      QuoteLenPrefix(r[1..], r[0]);
      assert t.value[1..] == r[1..][..QuoteLen(r[1..], r[0])];
    }
  }

  // ----- The scanner -----

  /** The closing quote is as far away from `pos` as it is `n` characters behind `start`. */
  predicate QuoteAhead(src: string, quote: char, start: nat, n: int, pos: nat)
    requires pos <= |src|
  {
    var m := QuoteLen(src[pos..], quote);
    if m < 0 then n < 0 else n >= 0 && start + n == pos + m
  }

  lemma QuoteStart(src: string, quote: char, start: nat)
    requires start <= |src|
    ensures QuoteAhead(src, quote, start, QuoteLen(src[start..], quote), start)
  {
  }

  /** One step of the search for the closing quote, over a character or over an escaped pair. */
  lemma QuoteStep(src: string, quote: char, start: nat, n: int, pos: nat)
    requires pos < |src| && QuoteAhead(src, quote, start, n, pos)
    ensures src[pos] == '\\' && pos + 1 < |src| ==> QuoteAhead(src, quote, start, n, pos + 2)
    ensures !(src[pos] == '\\' && pos + 1 < |src|) ==>
      if src[pos] == quote then n >= 0 && start + n == pos + 1 else QuoteAhead(src, quote, start, n, pos + 1)
  {
    assert src[pos..][1..] == src[pos + 1..];
    if pos + 1 < |src| { assert src[pos..][2..] == src[pos + 2..]; }
  }

  lemma QuoteMissing(src: string, quote: char, start: nat, n: int)
    requires QuoteAhead(src, quote, start, n, |src|)
    ensures n < 0
  {
    assert src[|src|..] == "";
  }

  lemma SliceOf(s: string, start: nat, n: nat)
    requires start + n <= |s|
    ensures s[start..][..n] == s[start..start + n]
  {
  }

  class Lexer {
    const src: string
    var pos: nat

    constructor (text: string)
      ensures src == text && pos == 0
    {
      src, pos := text, 0;
    }

    ghost predicate Valid()
      reads this
    {
      pos <= |src|
    }

    ghost function Unread(): string
      requires Valid()
      reads this
    {
      src[pos..]
    }

    method ConsumeWhitespace() returns (ws: string)
      requires Valid()
      modifies this`pos
      ensures Valid() && pos == old(pos) + SpaceLen(old(Unread()))
      ensures ws == src[old(pos)..pos]
    {
      var start := pos;
      while pos < |src|
        invariant start <= pos <= |src|
        invariant pos + SpaceLen(src[pos..]) == start + SpaceLen(src[start..])
      {
        if !IsSpace(src[pos]) { break; }
        assert src[pos..][1..] == src[pos + 1..];
        pos := pos + 1;
      }
      ws := src[start..pos];
    }

    method ConsumeUntilNewline() returns (text: string)
      requires Valid()
      modifies this`pos
      ensures Valid() && pos == old(pos) + LineLen(old(Unread()))
      ensures text == src[old(pos)..pos]
    {
      var start := pos;
      while pos < |src| && src[pos] != '\n'
        invariant start <= pos <= |src|
        invariant pos + LineLen(src[pos..]) == start + LineLen(src[start..])
      {
        assert src[pos..][1..] == src[pos + 1..];
        pos := pos + 1;
      }
      text := src[start..pos];
    }

    /** Ends behind the closing quote, or at the end of the text when there is none. */
    method ConsumeQuoted(quote: char) returns (ok: bool, text: string)
      requires Valid() && pos < |src|
      modifies this`pos
      ensures Valid()
      ensures ok <==> QuoteLen(src[old(pos) + 1..], quote) >= 0
      ensures pos == if ok then old(pos) + 1 + QuoteLen(src[old(pos) + 1..], quote) else |src|
      ensures ok ==> text == src[old(pos)..pos]
    {
      hide QuoteLen, QuoteAhead, SpaceLen, WordLen, LineLen, OddBackslashes, Unescaped;
      var start := pos;
      pos := pos + 1;
      ghost var n := QuoteLen(src[pos..], quote);
      QuoteStart(src, quote, pos);
      while pos < |src|
        invariant start < pos <= |src| && QuoteAhead(src, quote, start + 1, n, pos)
        decreases |src| - pos
      {
        var c := src[pos];
        QuoteStep(src, quote, start + 1, n, pos);
        if c == '\\' && pos + 1 < |src| {
          pos := pos + 2;
          continue;
        }
        pos := pos + 1;
        if c == quote {
          ok, text := true, src[start..pos];
          return;
        }
      }
      QuoteMissing(src, quote, start + 1, n);
      ok, text := false, "";
    }

    /** The caller has looked at the first character, so the word is not empty. */
    method ConsumeWord() returns (word: string)
      requires Valid() && WordLen(Unread()) > 0
      modifies this`pos
      ensures Valid() && pos == old(pos) + WordLen(old(Unread()))
      ensures word == src[old(pos)..pos]
    {
      var start := pos;
      while pos < |src|
        invariant start <= pos <= |src|
        invariant pos + WordLen(src[pos..]) == start + WordLen(src[start..])
      {
        var c := src[pos];
        if c == ';' || c == '{' || c == '}' || c == '#' { break; }
        if IsSpace(c) { break; }
        assert src[pos..][1..] == src[pos + 1..];
        pos := pos + 1;
      }
      // The word has no whitespace at its ends, so the trim changes nothing.
      word := TrimSpace(src[start..pos]);
    }

    /** The `switch` of `next`, for text that does not start with whitespace. */
    method TakeToken(ws: string) returns (t: Token)
      requires Valid() && pos < |src| && !IsSpace(src[pos])
      modifies this`pos
      ensures Valid() && pos >= old(pos) && (t, pos - old(pos)) == TokenAt(old(Unread()), ws)
    {
      hide SpaceLen, LineLen, QuoteLen, WordLen, IsSpace;
      var start := pos;
      var c := src[pos];
      if c == '{' {
        pos := pos + 1;
        t := Token(OpenBrace, "{", ws);
      } else if c == '}' {
        pos := pos + 1;
        t := Token(CloseBrace, "}", ws);
      } else if c == ';' {
        pos := pos + 1;
        t := Token(Semicolon, ";", ws);
      } else if c == '#' {
        var text := ConsumeUntilNewline();
        t := Token(Hash, text, ws);
      } else if c == '"' || c == '\'' {
        assert src[start..][1..] == src[start + 1..];
        var ok, text := ConsumeQuoted(c);
        t := if ok then Token(Quoted, text, ws) else Token(Unterminated, "", "");
      } else {
        var word := ConsumeWord();
        t := Token(Word, word, ws);
      }
      SliceOf(src, start, pos - start);
    }

    /** `next`; for the kind `Unterminated` the original returns an error and no token. */
    method Next() returns (t: Token)
      requires Valid()
      modifies this`pos
      ensures Valid() && (t, Unread()) == NextToken(old(Unread()))
    {
      var start := pos;
      var ws := ConsumeWhitespace();
      var from := pos;
      assert src[start..][from - start..] == src[from..] && src[start..][..from - start] == ws;
      if pos >= |src| { return Token(EndOfFile, "", ws); }
      t := TakeToken(ws);
      assert src[from..][pos - from..] == src[pos..];
    }
  }
}
