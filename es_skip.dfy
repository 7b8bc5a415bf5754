/** What skipping a value does, for every value text: the values a field the
    parser does not know may hold are tokens and bracket groups nested to
    any depth, printed here from a tree. Skipping reads exactly one such
    value and leaves whatever follows it; a group left open fails at the end
    of the line. Bracket kinds are not matched against each other: any
    opening bracket is closed by any closing one. */
module EsSkip {
  import opened Numbers
  import opened Exceptions
  import opened EsLexer
  import opened EsGrammar

  /** A value: an identifier (first character `c`), a run of digits, a
      quoted string, a single `=` or `,`, or a bracket group of values. */
  datatype Expr =
    | Word(c: char, body: string)
    | Number(digits: string)
    | Text(text: string)
    | Op(op: char)
    | Group(open: char, items: Exprs, close: char)

  /** The values inside a group. */
  datatype Exprs = Nil | Cons(head: Expr, rest: Exprs)

  /** Every token of the value reads back as itself. */
  predicate WellFormed(e: Expr)
    decreases e
  {
    match e
    case Word(c, body) => StartsIdentifier(c) && forall i :: 0 <= i < |body| ==> !EndsIdentifier(body[i])
    case Number(digits) => digits != [] && AllDigits(digits)
    case Text(text) => forall i :: 0 <= i < |text| ==> text[i] != '"'
    case Op(op) => IsOperator(op)
    case Group(open, items, close) => IsOpen(open) && IsClose(close) && AllWellFormed(items)
  }

  predicate AllWellFormed(es: Exprs)
    decreases es
  {
    match es
    case Nil => true
    case Cons(h, r) => WellFormed(h) && AllWellFormed(r)
  }

  /** The text of `e` followed by `tail`; a group holds its values each
      followed by one space. */
  function ShowThen(e: Expr, tail: string): string
    decreases e
  {
    match e
    case Word(c, body) => [c] + body + tail
    case Number(digits) => digits + tail
    case Text(text) => ['"'] + text + ['"'] + tail
    case Op(op) => [op] + tail
    case Group(open, items, close) => [open] + ShowItemsThen(items, [close] + tail)
  }

  function ShowItemsThen(es: Exprs, tail: string): string
    decreases es
  {
    match es
    case Nil => tail
    case Cons(h, r) => ShowThen(h, " " + ShowItemsThen(r, tail))
  }

  /** Text after which an identifier or a number has ended. */
  predicate Delimited(tail: string) {
    tail == [] || EndsIdentifier(tail[0])
  }

  /** A value that is not a group is one token that is not a bracket. */
  lemma LexAtom(e: Expr, tail: string, loc: Loc)
    requires WellFormed(e) && !e.Group?
    requires e.Word? || e.Number? ==> Delimited(tail)
    ensures Lex(ShowThen(e, tail), loc).Ok?
    ensures Lex(ShowThen(e, tail), loc).value.1 == tail
    ensures Lex(ShowThen(e, tail), loc).value.0.kind !in {LPAREN, RPAREN}
  {
    match e
    case Word(c, body) =>
      LexIdentifier(c, body, tail, loc);
    case Number(digits) =>
      LexInteger(digits, tail, loc);
    case Text(text) =>
      LexString(text, tail, loc);
    case Op(op) =>
      LexNonSpace(op, tail, loc);
  }

  /** A space before the rest of a level changes nothing. */
  lemma IgnoreLevelSpace(text: string, loc: Loc)
    ensures IgnoreLevel(" " + text, loc) == IgnoreLevel(text, loc)
  {
    var s := " " + text;
    assert s[0] == ' ' && s[1..] == text;
    assert Lex(s, loc) == Lex(text, loc);
  }

  /** Skipping the rest of a level reads its values, nested groups included,
      up to the closing bracket and leaves what follows it. */
  lemma {:induction false} SkipItems(es: Exprs, close: char, tail: string, loc: Loc)
    requires AllWellFormed(es) && IsClose(close)
    ensures IgnoreLevel(ShowItemsThen(es, [close] + tail), loc) == Ok(tail)
    decreases es
  {
    match es
    case Nil =>
      LexNonSpace(close, tail, loc);
    case Cons(h, r) =>
      var after := " " + ShowItemsThen(r, [close] + tail);
      SkipItems(r, close, tail, loc);
      IgnoreLevelSpace(ShowItemsThen(r, [close] + tail), loc);
      SkipOne(h, after, loc);
  }

  /** The level loop's step over one value `h` followed by `after`. */
  lemma {:induction false} SkipOne(h: Expr, after: string, loc: Loc)
    requires WellFormed(h) && after != [] && after[0] == ' '
    ensures IgnoreLevel(ShowThen(h, after), loc) == IgnoreLevel(after, loc)
    decreases h, 0
  {
    if h.Group? {
      SkipItems(h.items, h.close, after, loc);
      LexNonSpace(h.open, ShowItemsThen(h.items, [h.close] + after), loc);
    } else {
      LexAtom(h, after, loc);
    }
  }

  /** The rest of a level that the line ends inside fails at the end of the
      line. */
  lemma {:induction false} UnclosedItems(es: Exprs, loc: Loc)
    requires AllWellFormed(es)
    ensures IgnoreLevel(ShowItemsThen(es, ""), loc) == Err(EndOfLineError(loc))
    decreases es
  {
    match es
    case Nil =>
      assert Lex("", loc) == Err(EndOfLineError(loc));
    case Cons(h, r) =>
      UnclosedItems(r, loc);
      IgnoreLevelSpace(ShowItemsThen(r, ""), loc);
      SkipOne(h, " " + ShowItemsThen(r, ""), loc);
  }

  /** `IgnoreExpression` skips exactly one value, whatever follows it. */
  lemma SkipExpression(e: Expr, tail: string, loc: Loc)
    requires WellFormed(e)
    requires e.Word? || e.Number? ==> Delimited(tail)
    ensures IgnoreExpression(ShowThen(e, tail), loc) == Ok(tail)
  {
    if e.Group? {
      SkipItems(e.items, e.close, tail, loc);
      LexNonSpace(e.open, ShowItemsThen(e.items, [e.close] + tail), loc);
    } else {
      LexAtom(e, tail, loc);
    }
  }

  /** A group the line ends inside is an error at the end of the line. */
  lemma UnclosedGroup(open: char, es: Exprs, loc: Loc)
    requires IsOpen(open) && AllWellFormed(es)
    ensures IgnoreExpression([open] + ShowItemsThen(es, ""), loc) == Err(EndOfLineError(loc))
  {
    UnclosedItems(es, loc);
    LexNonSpace(open, ShowItemsThen(es, ""), loc);
  }

  /** A closing bracket where a value is expected is skipped as a token of
      its own. */
  lemma StrayCloser(close: char, tail: string, loc: Loc)
    requires IsClose(close)
    ensures IgnoreExpression([close] + tail, loc) == Ok(tail)
  {
    LexNonSpace(close, tail, loc);
  }
}
