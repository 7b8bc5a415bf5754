/** The imperative event-structure parser: a scanner over one line at a time
    that keeps the process-wide line and column counters. Every method is
    proved to agree with the reference definitions of modules EsLexer and
    EsGrammar. */
module EsParser {
  import opened Numbers
  import opened Exceptions
  import opened EsLexer
  import opened EsGrammar

  /** A reference definition that only skips text, with an empty value. */
  function Skipped(spec: Result<string>): Result<((), string)> {
    match spec
    case Ok(rest) => Ok(((), rest))
    case Err(e) => Err(e)
  }

  /** The reader of `ESParser.cpp`: the line being read and the two
      process-wide counters. */
  class Scanner {
    /** The line being read (the `stringstream`). */
    var line: string
    /** How much of `line` has been consumed. */
    var pos: nat
    /** The process-wide counters. */
    var lineNum: nat
    var colNum: nat

    ghost predicate Valid()
      reads this
    {
      pos <= |line| && pos <= colNum
    }

    /** The text of the line not yet consumed. */
    ghost function Rest(): string
      reads this
      requires Valid()
    {
      line[pos..]
    }

    /** The location the reference definitions use for the current line. */
    ghost function Here(): Loc
      reads this
      requires Valid()
    {
      Loc(lineNum, colNum - pos + |line|)
    }

    /** The outcome `spec` of a reference definition, as the scanner shows it
        after the corresponding method: on success the scanner stands at the
        remaining text of the same line and the method returns the value
        read; on failure it fails with the same exception. */
    ghost predicate Follows<T>(r: Result<T>, spec: Result<(T, string)>, loc: Loc)
      reads this
    {
      Valid() &&
      match spec
      case Ok(p) => r == Ok(p.0) && Rest() == p.1 && Here() == loc
      case Err(e) => r == Err(e)
    }

    constructor ()
      ensures Valid() && line == [] && pos == 0 && lineNum == 0 && colNum == 0
    {
      line, pos, lineNum, colNum := [], 0, 0, 0;
    }

    /** `NextToken`: skips spaces, then reads one token. */
    method NextToken() returns (r: Result<Token>)
      requires Valid()
      modifies this`pos, this`colNum
      ensures Follows(r, Lex(old(Rest()), old(Here())), old(Here()))
    {
      ghost var loc := Here();
      var c := GetFirst();
      if c.None? {
        r := Err(WithMessage(INVALID_INPUT_FORMAT, "Unexpected end-of-line" + At(lineNum, colNum)));
        return;
      }
      r := ScanToken(c.value);
    }

    /** The `GET_FIRST` loop: consumes spaces and then the first other
        character, bumping the column for every `get`, the failed one at the
        end of the line included. */
    method GetFirst() returns (c: Option<char>)
      requires Valid()
      modifies this`pos, this`colNum
      ensures Valid()
      ensures c.None? ==> lineNum == old(Here()).line && colNum == old(Here()).end + 1
      ensures c.None? ==> Lex(old(Rest()), old(Here())) == Err(EndOfLineError(old(Here())))
      ensures c.Some? ==> c.value != ' ' && Here() == old(Here())
      ensures c.Some? ==> Lex(old(Rest()), old(Here())) == Lex([c.value] + Rest(), old(Here()))
    {
      ghost var loc := Here();
      ghost var start := pos;
      while true
        invariant Valid() && Here() == loc && start <= pos
        invariant AllSpaces(line[start..pos])
        decreases |line| - pos
      {
        colNum := colNum + 1;
        if pos == |line| {
          assert line[start..] == line[start..pos];
          LexAtEnd(line[start..], loc);
          return None;
        }
        var next := line[pos];
        pos := pos + 1;
        if next != ' ' {
          assert line[start..] == line[start..pos - 1] + ([next] + Rest());
          LexAfterSpaces(line[start..pos - 1], [next] + Rest(), loc);
          return Some(next);
        }
        assert line[start..pos] == line[start..pos - 1] + [' '];
      }
    }

    /** The switch on the first character `c` that is not a space, already
        consumed. */
    method ScanToken(c: char) returns (r: Result<Token>)
      requires Valid() && c != ' '
      modifies this`pos, this`colNum
      ensures Follows(r, Lex([c] + old(Rest()), old(Here())), old(Here()))
    {
      LexNonSpace(c, Rest(), Here());
      if IsOpen(c) {
        r := Ok(Token(LPAREN, [c]));
      } else if IsClose(c) {
        r := Ok(Token(RPAREN, [c]));
      } else if IsOperator(c) {
        r := Ok(Token(OPERATOR, [c]));
      } else if c == '"' {
        r := ScanString();
      } else if IsDigit(c) {
        r := ScanInteger(c);
      } else {
        r := ScanIdentifier(c);
      }
    }

    /** The body of a string literal, after its opening quote. */
    method ScanString() returns (r: Result<Token>)
      requires Valid()
      modifies this`pos, this`colNum
      ensures Valid() && Here() == old(Here())
      ensures match QuoteIndex(old(Rest()))
        case None => r == Err(UnmatchedQuoteError(old(Here())))
        case Some(k) => r == Ok(Token(STRING, old(Rest())[..k])) && Rest() == old(Rest())[k + 1..]
    {
      ghost var start := pos;
      var value: string := [];
      while true
        invariant Valid() && Here() == old(Here()) && start <= pos
        invariant value == line[start..pos]
        invariant forall i :: 0 <= i < |value| ==> value[i] != '"'
        decreases |line| - pos
      {
        if pos == |line| {
          assert line[start..] == value + [];
          QuoteIndexOf(value, []);
          r := Err(WithMessage(INVALID_INPUT_FORMAT, "Unmatched \"" + At(lineNum, colNum)));
          return;
        }
        var c := line[pos];
        colNum := colNum + 1;
        pos := pos + 1;
        if c == '"' {
          assert line[start..] == value + ['"'] + line[pos..];
          ClosingQuote(line[start..], value, line[pos..]);
          r := Ok(Token(STRING, value));
          return;
        }
        value := value + [c];
      }
    }

    /** The remaining digits of an integer whose first digit is `first`. */
    method ScanInteger(first: char) returns (r: Result<Token>)
      requires Valid()
      modifies this`pos, this`colNum
      ensures Valid() && Here() == old(Here())
      ensures r == Ok(Token(INTEGER, [first] + old(Rest())[..DigitRun(old(Rest()))]))
      ensures Rest() == old(Rest())[DigitRun(old(Rest()))..]
    {
      ghost var start := pos;
      var value: string := [first];
      while pos < |line| && IsDigit(line[pos])
        invariant Valid() && Here() == old(Here()) && start <= pos
        invariant value == [first] + line[start..pos]
        invariant forall i :: start <= i < pos ==> IsDigit(line[i])
        decreases |line| - pos
      {
        colNum := colNum + 1;
        value := value + [line[pos]];
        pos := pos + 1;
      }
      assert AllDigits(line[start..pos]);
      assert old(Rest()) == line[start..pos] + Rest();
      DigitRunOf(line[start..pos], Rest());
      r := Ok(Token(INTEGER, value));
    }

    /** The rest of an identifier whose first character is `first`. */
    method ScanIdentifier(first: char) returns (r: Result<Token>)
      requires Valid()
      modifies this`pos, this`colNum
      ensures Valid() && Here() == old(Here())
      ensures r == Ok(Token(IDENTIFIER, [first] + old(Rest())[..IdentifierRun(old(Rest()))]))
      ensures Rest() == old(Rest())[IdentifierRun(old(Rest()))..]
    {
      ghost var start := pos;
      var value: string := [first];
      while pos < |line| && !EndsIdentifier(line[pos])
        invariant Valid() && Here() == old(Here()) && start <= pos
        invariant value == [first] + line[start..pos]
        invariant forall i :: start <= i < pos ==> !EndsIdentifier(line[i])
        decreases |line| - pos
      {
        colNum := colNum + 1;
        value := value + [line[pos]];
        pos := pos + 1;
      }
      assert old(Rest()) == line[start..pos] + Rest();
      IdentifierRunOf(line[start..pos], Rest());
      r := Ok(Token(IDENTIFIER, value));
    }

    /** The column counter is the column the reference definitions compute. */
    lemma ColumnHere()
      requires Valid()
      ensures Column(Here(), Rest()) == colNum
    {
    }

    /** `IgnoreLevel`: skips tokens up to the RPAREN that closes the current
        level, skipping nested levels first. */
    method IgnoreLevel() returns (r: Result<()>)
      requires Valid()
      modifies this`pos, this`colNum
      ensures Follows(r, Skipped(EsGrammar.IgnoreLevel(old(Rest()), old(Here()))), old(Here()))
      decreases |line| - pos
    {
      ghost var loc := Here();
      ghost var goal := EsGrammar.IgnoreLevel(Rest(), loc);
      while true
        invariant Valid() && Here() == loc && old(pos) <= pos
        invariant EsGrammar.IgnoreLevel(Rest(), loc) == goal
        decreases |line| - pos
      {
        var token :- NextToken();
        if token.kind == LPAREN {
          var nested :- IgnoreLevel();
        } else if token.kind == RPAREN {
          return Ok(());
        }
      }
    }

    /** `IgnoreExpression`: skips one token, or a whole bracket group. */
    method IgnoreExpression() returns (r: Result<()>)
      requires Valid()
      modifies this`pos, this`colNum
      ensures Follows(r, Skipped(EsGrammar.IgnoreExpression(old(Rest()), old(Here()))), old(Here()))
    {
      var token :- NextToken();
      if token.kind == LPAREN {
        r := IgnoreLevel();
      } else {
        r := Ok(());
      }
    }

    /** `ParseIdList`: `( INT , ... , INT )`, possibly empty. */
    method ParseIdList() returns (r: Result<seq<nat>>)
      requires Valid()
      modifies this`pos, this`colNum
      ensures Follows(r, IdList(old(Rest()), old(Here())), old(Here()))
    {
      ghost var loc := Here();
      var token :- NextToken();
      ColumnHere();
      var ok :- ExpectKind(token, LPAREN, lineNum, colNum);
      ghost var goal := IdListItems(Rest(), loc, true, []);
      var idList: seq<nat> := [];
      var first := true;
      while true
        invariant Valid() && Here() == loc
        invariant IdListItems(Rest(), loc, first, idList) == goal
        decreases |line| - pos
      {
        token :- NextToken();
        if token.kind == RPAREN {
          return Ok(idList);
        }
        if !first {
          ColumnHere();
          ok :- ExpectValue(token, OPERATOR, ",", lineNum, colNum);
          token :- NextToken();
        }
        ColumnHere();
        ok :- ExpectKind(token, INTEGER, lineNum, colNum);
        idList := idList + [DecimalValue(token.value)];
        first := false;
      }
    }

    /** `ParseEvent`: `( INT , Event ( field=value , ... ) )`; `pred` and
        `icnf` set the lists, any other field's value is skipped. The text
        after the final bracket is left unread. */
    method ParseEvent() returns (r: Result<Event>)
      requires Valid()
      modifies this`pos, this`colNum
      ensures Follows(r, EventAt(old(Rest()), old(Here())), old(Here()))
    {
      var id :- ParseEventId();
      var ok :- ParseEventOpen();
      var event :- ParseFields(Event(id, [], []));
      var token :- NextToken();
      ColumnHere();
      ok :- ExpectKind(token, RPAREN, lineNum, colNum);
      return Ok(event);
    }

    /** The first part of `ParseEvent`: `( INT`, the event's id. */
    method ParseEventId() returns (r: Result<nat>)
      requires Valid()
      modifies this`pos, this`colNum
      ensures Follows(r, EventId(old(Rest()), old(Here())), old(Here()))
    {
      var token :- NextToken();
      ColumnHere();
      var ok :- ExpectKind(token, LPAREN, lineNum, colNum);
      var idToken :- NextToken();
      ColumnHere();
      ok :- ExpectKind(idToken, INTEGER, lineNum, colNum);
      return Ok(DecimalValue(idToken.value));
    }

    /** The second part of `ParseEvent`: `, Event (`. */
    method ParseEventOpen() returns (r: Result<()>)
      requires Valid()
      modifies this`pos, this`colNum
      ensures Follows(r, Skipped(EventOpen(old(Rest()), old(Here()))), old(Here()))
    {
      var token :- NextToken();
      ColumnHere();
      var ok :- ExpectValue(token, OPERATOR, ",", lineNum, colNum);
      token :- NextToken();
      ColumnHere();
      ok :- ExpectValue(token, IDENTIFIER, "Event", lineNum, colNum);
      token :- NextToken();
      ColumnHere();
      ok :- ExpectKind(token, LPAREN, lineNum, colNum);
      return Ok(());
    }

    /** The loop of `ParseEvent` over the fields, applied to `event`. */
    method ParseFields(event: Event) returns (r: Result<Event>)
      requires Valid()
      modifies this`pos, this`colNum
      ensures Follows(r, Fields(old(Rest()), old(Here()), true, event), old(Here()))
    {
      ghost var loc := Here();
      ghost var goal := Fields(Rest(), loc, true, event);
      var current := event;
      var first := true;
      while true
        invariant Valid() && Here() == loc
        invariant Fields(Rest(), loc, first, current) == goal
        decreases |line| - pos
      {
        var token :- NextToken();
        if token.kind == RPAREN {
          return Ok(current);
        }
        current :- ParseField(token, first, current);
        first := false;
      }
    }

    /** One pass of the field loop, after its first token `token` has been
        read: the `,` and the next token unless `first`, the field name, `=`
        and the value. */
    method ParseField(token: Token, first: bool, event: Event) returns (r: Result<Event>)
      requires Valid()
      modifies this`pos, this`colNum
      ensures Follows(r, Field((token, old(Rest())), old(Here()), first, event), old(Here()))
    {
      var name := token;
      if !first {
        ColumnHere();
        var ok :- ExpectValue(name, OPERATOR, ",", lineNum, colNum);
        name :- NextToken();
      }
      ColumnHere();
      var ok :- ExpectKind(name, IDENTIFIER, lineNum, colNum);
      var eq :- NextToken();
      ColumnHere();
      ok :- ExpectValue(eq, OPERATOR, "=", lineNum, colNum);
      r := ParseFieldValue(name.value, event);
    }

    /** The value of the field `name`, after its `=`. */
    method ParseFieldValue(name: string, event: Event) returns (r: Result<Event>)
      requires Valid()
      modifies this`pos, this`colNum
      ensures Follows(r, FieldValue(name, old(Rest()), old(Here()), event), old(Here()))
    {
      if name == "pred" {
        var ids :- ParseIdList();
        r := Ok(event.(predecessors := ids));
      } else if name == "icnf" {
        var ids :- ParseIdList();
        r := Ok(event.(conflicts := ids));
      } else {
        var ok :- IgnoreExpression();
        r := Ok(event);
      }
    }

    /** `ParseEventStructure`: one event per line of `file`, in order;
        `remaining` holds the lines `getline` has not yet returned. */
    method ParseEventStructure(file: seq<string>) returns (r: Result<seq<Event>>)
      modifies this
      ensures r == Events(file, old(lineNum), old(colNum))
    {
      ghost var goal := Events(file, lineNum, colNum);
      var events: seq<Event> := [];
      var remaining := file;
      PrependNothing(goal);
      while remaining != []
        invariant goal == Prepend(events, Events(remaining, lineNum, colNum))
        decreases |remaining|
      {
        var text := remaining[0];
        remaining := remaining[1..];
        ghost var lines, columns := lineNum, colNum;
        var event :- ParseNextLine(text, remaining, lines, columns, events, goal);
        events := events + [event];
      }
      assert events + [] == events;
      return Ok(events);
    }

    /** One pass of the loop over the lines: the line counter goes up and
        the event is read from a fresh stream over the line `text`, which
        comes before the lines `more`. `goal` is what the whole file reads
        as, given the `events` read before. */
    method ParseNextLine(text: string, ghost more: seq<string>, ghost lines: nat, ghost columns: nat,
                         ghost events: seq<Event>, ghost goal: Result<seq<Event>>)
      returns (r: Result<Event>)
      requires lineNum == lines && colNum == columns
      requires goal == Prepend(events, LineEvents(text, more, lines, columns))
      modifies this
      ensures r.Err? ==> goal == Err(r.error)
      ensures r.Ok? ==> goal == Prepend(events + [r.value], Events(more, lineNum, colNum))
    {
      ghost var head := EventAt(text, Loc(lines + 1, columns + |text|));
      EventsAdvance(goal, events, text, more, lines, columns, head);
      r := ParseLine(text, lines, columns, head);
    }

    /** The event on the line `text`, which reads as `head`; `lines` and
        `columns` are the counters before the line is read. */
    method ParseLine(text: string, ghost lines: nat, ghost columns: nat, ghost head: Result<(Event, string)>)
      returns (r: Result<Event>)
      requires lineNum == lines && colNum == columns
      requires head == EventAt(text, Loc(lines + 1, columns + |text|))
      modifies this
      ensures lineNum == lines + 1
      ensures head.Err? ==> r == Err(head.error)
      ensures head.Ok? ==> (r == Ok(head.value.0)
        && colNum == Column(Loc(lines + 1, columns + |text|), head.value.1))
    {
      lineNum := lineNum + 1;
      line := text;
      pos := 0;
      assert Rest() == text && Here() == Loc(lines + 1, columns + |text|);
      r := ParseEvent();
      if r.Ok? {
        ColumnHere();
      }
    }
  }

  /** `events` followed by the events of `more`, or the failure of `more`. */
  function Prepend(events: seq<Event>, more: Result<seq<Event>>): Result<seq<Event>> {
    match more
    case Ok(later) => Ok(events + later)
    case Err(e) => Err(e)
  }

  /** The line `text`, which reads as `head`, followed by the lines `more`. */
  lemma LineEventsUnfold(text: string, more: seq<string>, lineNum: nat, colNum: nat, head: Result<(Event, string)>)
    requires head == EventAt(text, Loc(lineNum + 1, colNum + |text|))
    ensures LineEvents(text, more, lineNum, colNum) ==
      if head.Err? then Err(head.error)
      else Prepend([head.value.0], Events(more, lineNum + 1, Column(Loc(lineNum + 1, colNum + |text|), head.value.1)))
  {
  }

  lemma PrependNothing(more: Result<seq<Event>>)
    ensures Prepend([], more) == more
  {
    if more.Ok? {
      assert [] + more.value == more.value;
    }
  }

  /** Reading the line `text` either fails the whole file or moves its
      event to the ones already read. */
  lemma EventsAdvance(goal: Result<seq<Event>>, events: seq<Event>, text: string, more: seq<string>,
                      lineNum: nat, colNum: nat, head: Result<(Event, string)>)
    requires goal == Prepend(events, LineEvents(text, more, lineNum, colNum))
    requires head == EventAt(text, Loc(lineNum + 1, colNum + |text|))
    ensures head.Err? ==> goal == Err(head.error)
    ensures head.Ok? ==> goal == Prepend(events + [head.value.0],
      Events(more, lineNum + 1, Column(Loc(lineNum + 1, colNum + |text|), head.value.1)))
  {
    LineEventsUnfold(text, more, lineNum, colNum, head);
    if head.Ok? {
      PrependAssociates(events, head.value.0,
        Events(more, lineNum + 1, Column(Loc(lineNum + 1, colNum + |text|), head.value.1)));
    }
  }

  lemma PrependAssociates(events: seq<Event>, event: Event, more: Result<seq<Event>>)
    ensures Prepend(events, Prepend([event], more)) == Prepend(events + [event], more)
  {
    if more.Ok? {
      assert events + ([event] + more.value) == events + [event] + more.value;
    }
  }

  /** The whole file, read with a fresh scanner: both counters start at zero. */
  method ReadEventStructure(lines: seq<string>) returns (r: Result<seq<Event>>)
    ensures r == EventStructure(lines)
  {
    var scanner := new Scanner();
    r := scanner.ParseEventStructure(lines);
  }
}
