/** The recursive-descent grammar of an event-structure line, as the
    reference definition of the parser: every function reads from the text
    that remains of the line and returns what it recognised together with
    the text left after it. The imperative parser in module EsParser is
    proved to agree with these functions. */
module EsGrammar {
  import opened Numbers
  import opened Exceptions
  import opened EsLexer

  /** The record a line describes. */
  datatype Event = Event(id: nat, predecessors: seq<nat>, conflicts: seq<nat>)

  function UnexpectedKind(tok: Token, kind: TokenType, column: nat, line: nat): SeddEcException {
    WithMessage(INVALID_INPUT_FORMAT,
      "Unexpected token: " + tok.value + " (" + TokenName(tok.kind) + ")" + At(line, column)
      + " Expected (" + TokenName(kind) + ")")
  }

  function UnexpectedValue(tok: Token, kind: TokenType, value: string, column: nat, line: nat): SeddEcException {
    WithMessage(INVALID_INPUT_FORMAT,
      "Unexpected token: " + tok.value + At(line, column)
      + " Expected " + value + " (" + TokenName(kind) + ")")
  }

  /** The first `Expect` overload: the token must have the given type.
      `line` and `column` are where the counters stand. */
  function ExpectKind(tok: Token, kind: TokenType, line: nat, column: nat): (r: Result<()>)
    ensures r.Ok? <==> tok.kind == kind
    ensures r.Err? ==> r.error == UnexpectedKind(tok, kind, column, line)
  {
    if tok.kind != kind then Err(UnexpectedKind(tok, kind, column, line)) else Ok(())
  }

  /** The second `Expect` overload: the token must have the given type and text. */
  function ExpectValue(tok: Token, kind: TokenType, value: string, line: nat, column: nat): (r: Result<()>)
    ensures r.Ok? <==> tok == Token(kind, value)
    ensures r.Err? ==> r.error == UnexpectedValue(tok, kind, value, column, line)
  {
    if tok.kind != kind || tok.value != value then Err(UnexpectedValue(tok, kind, value, column, line))
    else Ok(())
  }

  /** Skips tokens up to and including the RPAREN that closes the current
      level; an LPAREN opens a nested level that is skipped first. Any
      closing bracket closes any opening one. */
  function IgnoreLevel(rest: string, loc: Loc): (r: Result<string>)
    ensures r.Ok? ==> |r.value| < |rest|
    ensures r.Err? ==> r.error.reason == INVALID_INPUT_FORMAT
    decreases |rest|
  {
    var p :- Lex(rest, loc);
    if p.0.kind == LPAREN then
      var inner :- IgnoreLevel(p.1, loc);
      IgnoreLevel(inner, loc)
    else if p.0.kind == RPAREN then Ok(p.1)
    else IgnoreLevel(p.1, loc)
  }

  /** Skips one value: a single token, or a bracket group. */
  function IgnoreExpression(rest: string, loc: Loc): (r: Result<string>)
    ensures r.Ok? ==> |r.value| < |rest|
    ensures r.Err? ==> r.error.reason == INVALID_INPUT_FORMAT
  {
    var p :- Lex(rest, loc);
    if p.0.kind == LPAREN then IgnoreLevel(p.1, loc) else Ok(p.1)
  }

  /** Reads the separating `,` and the token after it. */
  function NextAfterComma(p: (Token, string), loc: Loc): (r: Result<(Token, string)>)
    ensures r.Ok? ==> |r.value.1| < |p.1|
    ensures r.Err? ==> r.error.reason == INVALID_INPUT_FORMAT
  {
    var ok :- ExpectValue(p.0, OPERATOR, ",", loc.line, Column(loc, p.1));
    Lex(p.1, loc)
  }

  /** The elements of an id list after its opening bracket; `acc` holds the
      integers read so far and `first` says that none has been read. */
  function IdListItems(rest: string, loc: Loc, first: bool, acc: seq<nat>): (r: Result<(seq<nat>, string)>)
    ensures r.Ok? ==> |r.value.1| < |rest|
    ensures r.Err? ==> r.error.reason == INVALID_INPUT_FORMAT
    decreases |rest|
  {
    var p :- Lex(rest, loc);
    if p.0.kind == RPAREN then Ok((acc, p.1))
    else
      var q :- if first then Ok(p) else NextAfterComma(p, loc);
      var ok :- ExpectKind(q.0, INTEGER, loc.line, Column(loc, q.1));
      IdListItems(q.1, loc, false, acc + [DecimalValue(q.0.value)])
  }

  /** `ParseIdList`: an opening bracket, integers separated by `,`, a closing bracket. */
  function IdList(rest: string, loc: Loc): (r: Result<(seq<nat>, string)>)
    ensures r.Ok? ==> |r.value.1| < |rest|
    ensures r.Err? ==> r.error.reason == INVALID_INPUT_FORMAT
  {
    var p :- Lex(rest, loc);
    var ok :- ExpectKind(p.0, LPAREN, loc.line, Column(loc, p.1));
    IdListItems(p.1, loc, true, [])
  }

  /** The value of the field `name`, after its `=`: `pred` and `icnf` take
      an id list that replaces the event's list; any other field's value is
      skipped. */
  function FieldValue(name: string, rest: string, loc: Loc, ev: Event): (r: Result<(Event, string)>)
    ensures r.Ok? ==> |r.value.1| < |rest| && r.value.0.id == ev.id
    ensures r.Err? ==> r.error.reason == INVALID_INPUT_FORMAT
  {
    if name == "pred" then
      var ids :- IdList(rest, loc);
      Ok((ev.(predecessors := ids.0), ids.1))
    else if name == "icnf" then
      var ids :- IdList(rest, loc);
      Ok((ev.(conflicts := ids.0), ids.1))
    else
      var after :- IgnoreExpression(rest, loc);
      Ok((ev, after))
  }

  /** One `field=value` entry of `Event(...)`, whose first token `p` (the
      separating `,` unless `first`) has been read. */
  function Field(p: (Token, string), loc: Loc, first: bool, ev: Event): (r: Result<(Event, string)>)
    ensures r.Ok? ==> |r.value.1| < |p.1| && r.value.0.id == ev.id
    ensures r.Err? ==> r.error.reason == INVALID_INPUT_FORMAT
  {
    var q :- if first then Ok(p) else NextAfterComma(p, loc);
    var ok :- ExpectKind(q.0, IDENTIFIER, loc.line, Column(loc, q.1));
    var eq :- Lex(q.1, loc);
    var ok' :- ExpectValue(eq.0, OPERATOR, "=", loc.line, Column(loc, eq.1));
    FieldValue(q.0.value, eq.1, loc, ev)
  }

  /** The `field=value` entries of `Event(...)` after its opening bracket,
      applied in order to `ev`; a later `pred` or `icnf` overrides an earlier one. */
  function Fields(rest: string, loc: Loc, first: bool, ev: Event): (r: Result<(Event, string)>)
    ensures r.Ok? ==> |r.value.1| < |rest| && r.value.0.id == ev.id
    ensures r.Err? ==> r.error.reason == INVALID_INPUT_FORMAT
    decreases |rest|
  {
    var p :- Lex(rest, loc);
    if p.0.kind == RPAREN then Ok((ev, p.1))
    else
      var f :- Field(p, loc, first, ev);
      Fields(f.1, loc, false, f.0)
  }

  /** The start of an event, `( INT`: the event's id. */
  function EventId(rest: string, loc: Loc): (r: Result<(nat, string)>)
    ensures r.Ok? ==> |r.value.1| < |rest|
    ensures r.Err? ==> r.error.reason == INVALID_INPUT_FORMAT
  {
    var p1 :- Lex(rest, loc);
    var ok1 :- ExpectKind(p1.0, LPAREN, loc.line, Column(loc, p1.1));
    var p2 :- Lex(p1.1, loc);
    var ok2 :- ExpectKind(p2.0, INTEGER, loc.line, Column(loc, p2.1));
    Ok((DecimalValue(p2.0.value), p2.1))
  }

  /** `, Event (` after the id. */
  function EventOpen(rest: string, loc: Loc): (r: Result<string>)
    ensures r.Ok? ==> |r.value| < |rest|
    ensures r.Err? ==> r.error.reason == INVALID_INPUT_FORMAT
  {
    var p3 :- Lex(rest, loc);
    var ok3 :- ExpectValue(p3.0, OPERATOR, ",", loc.line, Column(loc, p3.1));
    var p4 :- Lex(p3.1, loc);
    var ok4 :- ExpectValue(p4.0, IDENTIFIER, "Event", loc.line, Column(loc, p4.1));
    var p5 :- Lex(p4.1, loc);
    var ok5 :- ExpectKind(p5.0, LPAREN, loc.line, Column(loc, p5.1));
    Ok(p5.1)
  }

  /** `ParseEvent`: `( INT , Event ( fields ) )`; the text after the final
      bracket is returned unread. */
  function EventAt(rest: string, loc: Loc): (r: Result<(Event, string)>)
    ensures r.Ok? ==> |r.value.1| < |rest|
    ensures r.Err? ==> r.error.reason == INVALID_INPUT_FORMAT
  {
    var id :- EventId(rest, loc);
    var open :- EventOpen(id.1, loc);
    var f :- Fields(open, loc, true, Event(id.0, [], []));
    var p6 :- Lex(f.1, loc);
    var ok6 :- ExpectKind(p6.0, RPAREN, loc.line, Column(loc, p6.1));
    Ok((f.0, p6.1))
  }

  /** `ParseEventStructure`: one event per line, in order. `lineNum` and
      `colNum` are the values of the process-wide counters before the first
      line; each line bumps the line counter before it is read. */
  function Events(lines: seq<string>, lineNum: nat, colNum: nat): (r: Result<seq<Event>>)
    ensures r.Ok? ==> |r.value| == |lines|
    ensures r.Err? ==> r.error.reason == INVALID_INPUT_FORMAT
    decreases |lines|, 1
  {
    if lines == [] then Ok([]) else LineEvents(lines[0], lines[1..], lineNum, colNum)
  }

  /** The event of the line `text`, then the events of the lines `more`
      after it. */
  function LineEvents(text: string, more: seq<string>, lineNum: nat, colNum: nat): (r: Result<seq<Event>>)
    ensures r.Ok? ==> |r.value| == |more| + 1
    ensures r.Err? ==> r.error.reason == INVALID_INPUT_FORMAT
    decreases |more| + 1, 0
  {
    var loc := Loc(lineNum + 1, colNum + |text|);
    var p :- EventAt(text, loc);
    var later :- Events(more, lineNum + 1, Column(loc, p.1));
    Ok([p.0] + later)
  }

  /** The whole file, with both counters starting at zero. */
  function EventStructure(lines: seq<string>): Result<seq<Event>> {
    Events(lines, 0, 0)
  }
}
