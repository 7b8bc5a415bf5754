/** Tokens of an event-structure line, as the tokenizer `NextToken` reads
    them. This module is the reference definition: `Lex` reads one token
    from the text that remains of the line. The imperative tokenizer in
    module EsParser is proved to agree with it. */
module EsLexer {
  import opened Numbers
  import opened Exceptions

  /** The token types, in declaration order. */
  datatype TokenType = LPAREN | RPAREN | OPERATOR | IDENTIFIER | STRING | INTEGER

  /** The `tokenName` table used in error messages. */
  function TokenName(t: TokenType): string {
    match t
    case LPAREN => "LPAREN"
    case RPAREN => "RPAREN"
    case OPERATOR => "OPERATOR"
    case IDENTIFIER => "IDENTIFIER"
    case STRING => "STRING"
    case INTEGER => "INTEGER"
  }

  datatype Token = Token(kind: TokenType, value: string)

  /** Where the process-wide `lineNum` and `colNum` counters stand while one
      line is read: `line` is the line number, and `end` is the value the
      column counter would reach once every character of the line has been
      consumed. With `rest` left unread, the column counter is
      `end - |rest|`. The column counter is never reset between lines. */
  datatype Loc = Loc(line: nat, end: nat)

  function Column(loc: Loc, rest: string): nat {
    if |rest| <= loc.end then loc.end - |rest| else 0
  }

  /** The ` at line L column C` suffix of the messages. */
  function At(line: nat, column: nat): string {
    " at line " + NatToString(line) + " column " + NatToString(column)
  }

  /** Reading past the end: the failed `get` has already bumped the column. */
  function EndOfLineError(loc: Loc): SeddEcException {
    WithMessage(INVALID_INPUT_FORMAT, "Unexpected end-of-line" + At(loc.line, loc.end + 1))
  }

  /** A string literal without its closing quote: `peek` does not bump the column. */
  function UnmatchedQuoteError(loc: Loc): SeddEcException {
    WithMessage(INVALID_INPUT_FORMAT, "Unmatched \"" + At(loc.line, loc.end))
  }

  predicate IsOpen(c: char) { c == '(' || c == '{' || c == '[' }
  predicate IsClose(c: char) { c == ')' || c == '}' || c == ']' }
  predicate IsOperator(c: char) { c == '=' || c == ',' }

  /** The characters at which an identifier stops (end of input aside). */
  predicate EndsIdentifier(c: char) {
    c == ' ' || IsOpen(c) || IsClose(c) || IsOperator(c) || c == '"'
  }

  /** The characters that begin an identifier: every character the first
      switch of the tokenizer does not handle otherwise. */
  predicate StartsIdentifier(c: char) {
    !EndsIdentifier(c) && !IsDigit(c)
  }

  predicate AllSpaces(s: string) {
    forall i :: 0 <= i < |s| ==> s[i] == ' '
  }

  predicate SuffixOf(t: string, s: string) {
    |t| <= |s| && s[|s| - |t|..] == t
  }

  /** The length of the longest prefix of `s` with no identifier stop character. */
  function IdentifierRun(s: string): (n: nat)
    ensures n <= |s|
    ensures forall i :: 0 <= i < n ==> !EndsIdentifier(s[i])
    ensures n < |s| ==> EndsIdentifier(s[n])
  {
    if s == [] || EndsIdentifier(s[0]) then 0 else 1 + IdentifierRun(s[1..])
  }

  /** The index of the first double quote in `s`, if there is one. */
  function QuoteIndex(s: string): (r: Option<nat>)
    ensures r.Some? ==> r.value < |s| && s[r.value] == '"'
    ensures forall i :: 0 <= i < |s| && (r.None? || i < r.value) ==> s[i] != '"'
  {
    if s == [] then None
    else if s[0] == '"' then Some(0)
    else match QuoteIndex(s[1..])
      case None => None
      case Some(k) => Some(k + 1)
  }

  /** One token read from `rest`, with the text that remains after it. */
  function Lex(rest: string, loc: Loc): (r: Result<(Token, string)>)
    ensures r.Ok? ==> SuffixOf(r.value.1, rest) && |r.value.1| < |rest|
    ensures r.Ok? && r.value.0.kind == INTEGER ==> r.value.0.value != [] && AllDigits(r.value.0.value)
    ensures r.Err? ==> r.error.reason == INVALID_INPUT_FORMAT
    decreases |rest|
  {
    if rest == [] then Err(EndOfLineError(loc))
    else
      var c := rest[0];
      if c == ' ' then
        Lex(rest[1..], loc)
      else if IsOpen(c) then Ok((Token(LPAREN, [c]), rest[1..]))
      else if IsClose(c) then Ok((Token(RPAREN, [c]), rest[1..]))
      else if IsOperator(c) then Ok((Token(OPERATOR, [c]), rest[1..]))
      else if c == '"' then
        match QuoteIndex(rest[1..])
        case None => Err(UnmatchedQuoteError(loc))
        case Some(k) => Ok((Token(STRING, rest[1..k + 1]), rest[k + 2..]))
      else if IsDigit(c) then
        var n := 1 + DigitRun(rest[1..]);
        assert rest[..n] == [c] + rest[1..][..n - 1];
        Ok((Token(INTEGER, rest[..n]), rest[n..]))
      else
        var n := 1 + IdentifierRun(rest[1..]);
        Ok((Token(IDENTIFIER, rest[..n]), rest[n..]))
  }

  /** Spaces before a token are skipped without changing the token read. */
  lemma {:induction false} LexSkipsSpaces(n: nat, rest: string, loc: Loc)
    ensures Lex(Spaces(n) + rest, loc) == Lex(rest, loc)
  {
    if n > 0 {
      var s := Spaces(n) + rest;
      assert s == [' '] + (Spaces(n - 1) + rest);
      assert s[0] == ' ' && s[1..] == Spaces(n - 1) + rest;
      assert Lex(s, loc) == Lex(s[1..], loc);
      LexSkipsSpaces(n - 1, rest, loc);
    } else {
      assert Spaces(n) + rest == rest;
    }
  }

  /** The same for any run of spaces. */
  lemma {:induction false} LexAfterSpaces(spaces: string, rest: string, loc: Loc)
    requires AllSpaces(spaces)
    ensures Lex(spaces + rest, loc) == Lex(rest, loc)
    decreases |spaces|
  {
    if spaces == [] {
      assert spaces + rest == rest;
    } else {
      var s := spaces + rest;
      assert s[0] == ' ' && s[1..] == spaces[1..] + rest;
      LexAfterSpaces(spaces[1..], rest, loc);
    }
  }

  /** The token read when the first character `c` is not a space, in terms of
      the text after `c`. */
  lemma LexNonSpace(c: char, rest: string, loc: Loc)
    requires c != ' '
    ensures IsOpen(c) ==> Lex([c] + rest, loc) == Ok((Token(LPAREN, [c]), rest))
    ensures IsClose(c) ==> Lex([c] + rest, loc) == Ok((Token(RPAREN, [c]), rest))
    ensures IsOperator(c) ==> Lex([c] + rest, loc) == Ok((Token(OPERATOR, [c]), rest))
    ensures c == '"' ==> (Lex([c] + rest, loc) ==
      match QuoteIndex(rest)
      case None => Err(UnmatchedQuoteError(loc))
      case Some(k) => Ok((Token(STRING, rest[..k]), rest[k + 1..])))
    ensures IsDigit(c) ==> (Lex([c] + rest, loc) ==
      Ok((Token(INTEGER, [c] + rest[..DigitRun(rest)]), rest[DigitRun(rest)..])))
    ensures StartsIdentifier(c) ==> (Lex([c] + rest, loc) ==
      Ok((Token(IDENTIFIER, [c] + rest[..IdentifierRun(rest)]), rest[IdentifierRun(rest)..])))
  {
    if c == '"' {
      LexQuoted(rest, loc);
    } else if IsDigit(c) {
      LexDigits(c, rest, loc);
    } else if StartsIdentifier(c) {
      LexIdentifierStart(c, rest, loc);
    } else {
      assert ([c] + rest)[0] == c && ([c] + rest)[1..] == rest;
    }
  }

  lemma LexQuoted(rest: string, loc: Loc)
    ensures Lex(['"'] + rest, loc) ==
      match QuoteIndex(rest)
      case None => Err(UnmatchedQuoteError(loc))
      case Some(k) => Ok((Token(STRING, rest[..k]), rest[k + 1..]))
  {
    var s := ['"'] + rest;
    assert s[0] == '"' && s[1..] == rest;
    match QuoteIndex(rest)
    case None =>
    case Some(k) =>
      assert s[1..k + 1] == rest[..k] && s[k + 2..] == rest[k + 1..];
  }

  lemma LexDigits(c: char, rest: string, loc: Loc)
    requires IsDigit(c)
    ensures Lex([c] + rest, loc) == Ok((Token(INTEGER, [c] + rest[..DigitRun(rest)]), rest[DigitRun(rest)..]))
  {
    var s := [c] + rest;
    assert s[0] == c && s[1..] == rest;
    var n := DigitRun(rest);
    assert s[..n + 1] == [c] + rest[..n] && s[n + 1..] == rest[n..];
  }

  lemma LexIdentifierStart(c: char, rest: string, loc: Loc)
    requires StartsIdentifier(c)
    ensures Lex([c] + rest, loc) == Ok((Token(IDENTIFIER, [c] + rest[..IdentifierRun(rest)]), rest[IdentifierRun(rest)..]))
  {
    var s := [c] + rest;
    assert s[0] == c && s[1..] == rest;
    var n := IdentifierRun(rest);
    assert s[..n + 1] == [c] + rest[..n] && s[n + 1..] == rest[n..];
  }

  /** A bracket, `=` or `,` is a one-character token: `( { [` are LPAREN,
      `) } ]` are RPAREN, `= ,` are OPERATOR. */
  lemma LexPunctuation(n: nat, c: char, tail: string, loc: Loc)
    requires IsOpen(c) || IsClose(c) || IsOperator(c)
    ensures Lex(Spaces(n) + [c] + tail, loc)
         == Ok((Token(if IsOpen(c) then LPAREN else if IsClose(c) then RPAREN else OPERATOR, [c]), tail))
  {
    LexSkipsSpaces(n, [c] + tail, loc);
    assert Spaces(n) + [c] + tail == Spaces(n) + ([c] + tail);
    assert ([c] + tail)[0] == c && ([c] + tail)[1..] == tail;
  }

  /** A token starting with a digit is the maximal run of digits. */
  lemma LexInteger(digits: string, tail: string, loc: Loc)
    requires digits != [] && AllDigits(digits)
    requires tail != [] ==> !IsDigit(tail[0])
    ensures Lex(digits + tail, loc) == Ok((Token(INTEGER, digits), tail))
  {
    var s := digits + tail;
    DigitRunOf(digits[1..], tail);
    assert s[1..] == digits[1..] + tail;
    assert s[..|digits|] == digits;
  }

  /** Any other first character begins an identifier that runs until end of
      input or a stop character, which is left unread. */
  lemma LexIdentifier(c: char, body: string, tail: string, loc: Loc)
    requires StartsIdentifier(c)
    requires forall i :: 0 <= i < |body| ==> !EndsIdentifier(body[i])
    requires tail != [] ==> EndsIdentifier(tail[0])
    ensures Lex([c] + body + tail, loc) == Ok((Token(IDENTIFIER, [c] + body), tail))
  {
    var s := [c] + body + tail;
    IdentifierRunOf(body, tail);
    assert s[1..] == body + tail;
    assert s[..1 + |body|] == [c] + body;
  }

  lemma {:induction false} IdentifierRunOf(body: string, tail: string)
    requires forall i :: 0 <= i < |body| ==> !EndsIdentifier(body[i])
    requires tail != [] ==> EndsIdentifier(tail[0])
    ensures IdentifierRun(body + tail) == |body|
  {
    if body != [] {
      assert (body + tail)[1..] == body[1..] + tail;
      IdentifierRunOf(body[1..], tail);
    }
  }

  lemma {:induction false} QuoteIndexOf(body: string, tail: string)
    requires forall i :: 0 <= i < |body| ==> body[i] != '"'
    ensures tail != [] && tail[0] == '"' ==> QuoteIndex(body + tail) == Some(|body|)
    ensures tail == [] ==> QuoteIndex(body + tail) == None
  {
    if body != [] {
      assert (body + tail)[1..] == body[1..] + tail;
      QuoteIndexOf(body[1..], tail);
    } else {
      assert body + tail == tail;
    }
  }

  /** The first quote of `text` closes the literal `body`. */
  lemma ClosingQuote(text: string, body: string, tail: string)
    requires forall i :: 0 <= i < |body| ==> body[i] != '"'
    requires text == body + ['"'] + tail
    ensures QuoteIndex(text) == Some(|body|)
    ensures text[..|body|] == body && text[|body| + 1..] == tail
  {
    QuoteIndexOf(body, ['"'] + tail);
    assert text == body + (['"'] + tail);
  }

  /** A string literal runs to the next double quote, with no escapes; the
      token holds the text between the quotes. */
  lemma LexString(body: string, tail: string, loc: Loc)
    requires forall i :: 0 <= i < |body| ==> body[i] != '"'
    ensures Lex(['"'] + body + ['"'] + tail, loc) == Ok((Token(STRING, body), tail))
  {
    var s := ['"'] + body + ['"'] + tail;
    assert s[1..][|body|] == '"';
    assert s[1..|body| + 1] == body;
    assert s[|body| + 2..] == tail;
  }

  /** A string literal that the line ends inside is an error. */
  lemma LexUnmatchedQuote(body: string, loc: Loc)
    requires forall i :: 0 <= i < |body| ==> body[i] != '"'
    ensures Lex(['"'] + body, loc) == Err(UnmatchedQuoteError(loc))
  {
    assert (['"'] + body)[1..] == body;
  }

  /** Asking for a token when only spaces remain is always an error. */
  lemma {:induction false} LexAtEnd(rest: string, loc: Loc)
    requires AllSpaces(rest)
    ensures Lex(rest, loc) == Err(EndOfLineError(loc))
    decreases |rest|
  {
    if rest != [] {
      LexAtEnd(rest[1..], loc);
    }
  }
}
