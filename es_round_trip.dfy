/** Properties of the event-structure grammar: a printer for events whose
    output the parser reads back unchanged, the worked examples, and the
    error cases. */
module EsRoundTrip {
  import opened Numbers
  import opened Exceptions
  import opened EsLexer
  import opened EsGrammar

  /** `,b,c)` for the elements `b, c`, followed by `tail`: every element
      preceded by a comma, then the closing bracket. */
  function MoreIdsThen(ids: seq<nat>, tail: string): string {
    if ids == [] then ")" + tail else "," + (NatToString(ids[0]) + MoreIdsThen(ids[1..], tail))
  }

  /** `(a,b,c)`, or `()` for no ids, followed by `tail`. */
  function ShowIdsThen(ids: seq<nat>, tail: string): string {
    if ids == [] then "(" + (")" + tail) else "(" + (NatToString(ids[0]) + MoreIdsThen(ids[1..], tail))
  }

  /** An event in the form the tool reads, `(1, Event(pred=(), icnf=()))`,
      followed by `tail`. */
  function ShowEventThen(e: Event, tail: string): string {
    "(" + (NatToString(e.id) + (", Event(pred=" + ShowIdsThen(e.predecessors,
      ", icnf=" + ShowIdsThen(e.conflicts, ")" + (")" + tail)))))
  }

  /** An event on a line of its own. */
  function ShowEvent(e: Event): string {
    ShowEventThen(e, "")
  }

  lemma LexNumber(n: nat, tail: string, loc: Loc)
    requires tail != [] ==> !IsDigit(tail[0])
    ensures Lex(NatToString(n) + tail, loc) == Ok((Token(INTEGER, NatToString(n)), tail))
    ensures DecimalValue(NatToString(n)) == n
  {
    LexInteger(NatToString(n), tail, loc);
    DecimalRoundTrip(n);
  }

  lemma LexChar(c: char, tail: string, loc: Loc)
    requires IsOpen(c) || IsClose(c) || IsOperator(c)
    ensures Lex([c] + tail, loc)
         == Ok((Token(if IsOpen(c) then LPAREN else if IsClose(c) then RPAREN else OPERATOR, [c]), tail))
  {
    LexPunctuation(0, c, tail, loc);
    assert Spaces(0) + [c] + tail == [c] + tail;
  }

  // Single steps of the grammar, over abstract text.

  lemma IdListOpens(rest: string, c: string, r1: string, loc: Loc)
    requires Lex(rest, loc) == Ok((Token(LPAREN, c), r1))
    ensures IdList(rest, loc) == IdListItems(r1, loc, true, [])
  {
  }

  lemma ItemsClose(rest: string, c: string, r1: string, first: bool, acc: seq<nat>, loc: Loc)
    requires Lex(rest, loc) == Ok((Token(RPAREN, c), r1))
    ensures IdListItems(rest, loc, first, acc) == Ok((acc, r1))
  {
  }

  lemma FirstItem(rest: string, d: string, r1: string, acc: seq<nat>, loc: Loc)
    requires Lex(rest, loc) == Ok((Token(INTEGER, d), r1))
    ensures AllDigits(d)
    ensures IdListItems(rest, loc, true, acc) == IdListItems(r1, loc, false, acc + [DecimalValue(d)])
  {
  }

  lemma ItemsAfterComma(rest: string, r0: string, acc: seq<nat>, loc: Loc)
    requires Lex(rest, loc) == Ok((Token(OPERATOR, ","), r0))
    requires Lex(r0, loc).Ok? && Lex(r0, loc).value.0.kind != RPAREN
    ensures IdListItems(rest, loc, false, acc) == IdListItems(r0, loc, true, acc)
  {
  }

  lemma FieldsClose(rest: string, c: string, r1: string, first: bool, ev: Event, loc: Loc)
    requires Lex(rest, loc) == Ok((Token(RPAREN, c), r1))
    ensures Fields(rest, loc, first, ev) == Ok((ev, r1))
  {
  }

  lemma FieldsAfterComma(rest: string, r0: string, ev: Event, loc: Loc)
    requires Lex(rest, loc) == Ok((Token(OPERATOR, ","), r0))
    requires Lex(r0, loc).Ok? && Lex(r0, loc).value.0.kind != RPAREN
    ensures Fields(rest, loc, false, ev) == Fields(r0, loc, true, ev)
  {
  }

  lemma PredField(rest: string, r1: string, r2: string, ids: seq<nat>, r3: string, ev: Event, loc: Loc)
    requires Lex(rest, loc) == Ok((Token(IDENTIFIER, "pred"), r1))
    requires Lex(r1, loc) == Ok((Token(OPERATOR, "="), r2))
    requires IdList(r2, loc) == Ok((ids, r3))
    ensures Fields(rest, loc, true, ev) == Fields(r3, loc, false, ev.(predecessors := ids))
  {
  }

  lemma IcnfField(rest: string, r1: string, r2: string, ids: seq<nat>, r3: string, ev: Event, loc: Loc)
    requires Lex(rest, loc) == Ok((Token(IDENTIFIER, "icnf"), r1))
    requires Lex(r1, loc) == Ok((Token(OPERATOR, "="), r2))
    requires IdList(r2, loc) == Ok((ids, r3))
    ensures Fields(rest, loc, true, ev) == Fields(r3, loc, false, ev.(conflicts := ids))
  {
  }

  lemma OtherField(rest: string, name: string, r1: string, r2: string, r3: string, ev: Event, loc: Loc)
    requires name != "pred" && name != "icnf"
    requires Lex(rest, loc) == Ok((Token(IDENTIFIER, name), r1))
    requires Lex(r1, loc) == Ok((Token(OPERATOR, "="), r2))
    requires IgnoreExpression(r2, loc) == Ok(r3)
    ensures Fields(rest, loc, true, ev) == Fields(r3, loc, false, ev)
  {
  }

  lemma EventIdSteps(rest: string, c1: string, r1: string, d: string, r2: string, loc: Loc)
    requires Lex(rest, loc) == Ok((Token(LPAREN, c1), r1))
    requires Lex(r1, loc) == Ok((Token(INTEGER, d), r2))
    ensures AllDigits(d) && EventId(rest, loc) == Ok((DecimalValue(d), r2))
  {
  }

  lemma EventOpenSteps(rest: string, r3: string, r4: string, c5: string, r5: string, loc: Loc)
    requires Lex(rest, loc) == Ok((Token(OPERATOR, ","), r3))
    requires Lex(r3, loc) == Ok((Token(IDENTIFIER, "Event"), r4))
    requires Lex(r4, loc) == Ok((Token(LPAREN, c5), r5))
    ensures EventOpen(rest, loc) == Ok(r5)
  {
  }

  lemma EventSteps(rest: string, id: nat, r2: string, r5: string, ev: Event, r6: string, c7: string, r7: string, loc: Loc)
    requires EventId(rest, loc) == Ok((id, r2))
    requires EventOpen(r2, loc) == Ok(r5)
    requires Fields(r5, loc, true, Event(id, [], [])) == Ok((ev, r6))
    requires Lex(r6, loc) == Ok((Token(RPAREN, c7), r7))
    ensures EventAt(rest, loc) == Ok((ev, r7))
  {
  }

  // Reading back what the printer writes.

  lemma CommaNumber(x: nat, after: string, acc: seq<nat>, loc: Loc)
    requires after != [] && !IsDigit(after[0])
    ensures IdListItems("," + (NatToString(x) + after), loc, false, acc) == IdListItems(after, loc, false, acc + [x])
  {
    var n := NatToString(x);
    LexChar(',', n + after, loc);
    LexNumber(x, after, loc);
    ItemsAfterComma("," + (n + after), n + after, acc, loc);
    FirstItem(n + after, n, after, acc, loc);
  }

  /** What follows an element: a comma or the closing bracket. */
  lemma MoreIdsStart(ids: seq<nat>, tail: string)
    ensures var t := MoreIdsThen(ids, tail); t != [] && (t[0] == ',' || t[0] == ')')
  {
  }

  lemma Recombine(ids: seq<nat>)
    requires ids != []
    ensures [ids[0]] + ids[1..] == ids
  {
  }

  lemma MovedFirst(acc: seq<nat>, ids: seq<nat>)
    requires ids != []
    ensures acc + [ids[0]] + ids[1..] == acc + ids
  {
    Recombine(ids);
  }

  lemma MoreIdsNone(acc: seq<nat>, tail: string, loc: Loc)
    ensures IdListItems(MoreIdsThen([], tail), loc, false, acc) == Ok((acc + [], tail))
  {
    LexChar(')', tail, loc);
    ItemsClose(")" + tail, ")", tail, false, acc, loc);
    assert acc + [] == acc;
  }

  lemma MoreIdsStep(ids: seq<nat>, acc: seq<nat>, tail: string, loc: Loc)
    requires ids != []
    ensures IdListItems(MoreIdsThen(ids, tail), loc, false, acc)
         == IdListItems(MoreIdsThen(ids[1..], tail), loc, false, acc + [ids[0]])
  {
    MoreIdsStart(ids[1..], tail);
    CommaNumber(ids[0], MoreIdsThen(ids[1..], tail), acc, loc);
  }

  /** The elements after the first one are read back in order, and the
      reader stops right after the closing bracket. */
  lemma {:induction false} MoreIdsRoundTrip(ids: seq<nat>, acc: seq<nat>, tail: string, loc: Loc)
    ensures IdListItems(MoreIdsThen(ids, tail), loc, false, acc) == Ok((acc + ids, tail))
    decreases |ids|
  {
    if ids == [] {
      MoreIdsNone(acc, tail, loc);
    } else {
      MoreIdsStep(ids, acc, tail, loc);
      MoreIdsRoundTrip(ids[1..], acc + [ids[0]], tail, loc);
      MovedFirst(acc, ids);
    }
  }

  /** `(x` followed by text that does not continue the number. */
  lemma IdListFirst(x: nat, after: string, loc: Loc)
    requires after != [] && !IsDigit(after[0])
    ensures IdList("(" + (NatToString(x) + after), loc) == IdListItems(after, loc, false, [x])
  {
    var n := NatToString(x);
    LexChar('(', n + after, loc);
    IdListOpens("(" + (n + after), "(", n + after, loc);
    LexNumber(x, after, loc);
    FirstItem(n + after, n, after, [], loc);
    assert [] + [x] == [x];
  }

  lemma EmptyIdListRoundTrip(tail: string, loc: Loc)
    ensures IdList("(" + (")" + tail), loc) == Ok(([], tail))
  {
    LexChar('(', ")" + tail, loc);
    IdListOpens("(" + (")" + tail), "(", ")" + tail, loc);
    LexChar(')', tail, loc);
    ItemsClose(")" + tail, ")", tail, true, [], loc);
  }

  lemma NonEmptyIdListRoundTrip(ids: seq<nat>, tail: string, loc: Loc)
    requires ids != []
    ensures IdList(ShowIdsThen(ids, tail), loc) == Ok((ids, tail))
  {
    MoreIdsStart(ids[1..], tail);
    IdListFirst(ids[0], MoreIdsThen(ids[1..], tail), loc);
    MoreIdsRoundTrip(ids[1..], [ids[0]], tail, loc);
    Recombine(ids);
  }

  /** Id lists round-trip: `ParseIdList` reads back what `ShowIdsThen`
      prints, and leaves `tail` unread. */
  lemma IdListRoundTrip(ids: seq<nat>, tail: string, loc: Loc)
    ensures IdList(ShowIdsThen(ids, tail), loc) == Ok((ids, tail))
  {
    if ids == [] {
      EmptyIdListRoundTrip(tail, loc);
    } else {
      NonEmptyIdListRoundTrip(ids, tail, loc);
    }
  }

  lemma LexWord(w: string, tail: string, loc: Loc)
    requires w != [] && StartsIdentifier(w[0])
    requires forall i :: 0 < i < |w| ==> !EndsIdentifier(w[i])
    requires tail != [] && EndsIdentifier(tail[0])
    ensures Lex(w + tail, loc) == Ok((Token(IDENTIFIER, w), tail))
  {
    LexIdentifier(w[0], w[1..], tail, loc);
    assert [w[0]] + w[1..] == w;
  }

  lemma LexSpaceWord(w: string, tail: string, loc: Loc)
    requires w != [] && StartsIdentifier(w[0])
    requires forall i :: 0 < i < |w| ==> !EndsIdentifier(w[i])
    requires tail != [] && EndsIdentifier(tail[0])
    ensures Lex(" " + (w + tail), loc) == Ok((Token(IDENTIFIER, w), tail))
  {
    LexSkipsSpaces(1, w + tail, loc);
    assert Spaces(1) == " ";
    LexWord(w, tail, loc);
  }

  /** `, icnf` after the first field: the separator, then the field's name. */
  lemma IcnfSeparator(t4: string, ev: Event, loc: Loc)
    ensures Fields(", icnf=" + t4, loc, false, ev) == Fields(" " + ("icnf" + ("=" + t4)), loc, true, ev)
  {
    var t3 := "icnf" + ("=" + t4);
    assert ", icnf=" + t4 == "," + (" " + t3);
    LexChar(',', " " + t3, loc);
    LexSpaceWord("icnf", "=" + t4, loc);
    FieldsAfterComma("," + (" " + t3), " " + t3, ev, loc);
  }

  /** ` icnf=` followed by an id list that reads as `cnfs`. */
  lemma IcnfValue(t4: string, cnfs: seq<nat>, after: string, ev: Event, loc: Loc)
    requires IdList(t4, loc) == Ok((cnfs, after))
    ensures Fields(" " + ("icnf" + ("=" + t4)), loc, true, ev) == Fields(after, loc, false, ev.(conflicts := cnfs))
  {
    LexSpaceWord("icnf", "=" + t4, loc);
    LexChar('=', t4, loc);
    IcnfField(" " + ("icnf" + ("=" + t4)), "=" + t4, t4, cnfs, after, ev, loc);
  }

  /** `, icnf=(...))` after the first field. */
  lemma IcnfRoundTrip(cnfs: seq<nat>, ev: Event, tail: string, loc: Loc)
    ensures Fields(", icnf=" + ShowIdsThen(cnfs, ")" + tail), loc, false, ev) == Ok((ev.(conflicts := cnfs), tail))
  {
    var t4 := ShowIdsThen(cnfs, ")" + tail);
    IcnfSeparator(t4, ev, loc);
    IdListRoundTrip(cnfs, ")" + tail, loc);
    IcnfValue(t4, cnfs, ")" + tail, ev, loc);
    LexChar(')', tail, loc);
    FieldsClose(")" + tail, ")", tail, false, ev.(conflicts := cnfs), loc);
  }

  /** `pred=` followed by an id list that reads as `preds`. */
  lemma PredValue(t1: string, preds: seq<nat>, t2: string, ev: Event, loc: Loc)
    requires IdList(t1, loc) == Ok((preds, t2))
    ensures Fields("pred=" + t1, loc, true, ev) == Fields(t2, loc, false, ev.(predecessors := preds))
  {
    assert "pred=" + t1 == "pred" + ("=" + t1);
    LexWord("pred", "=" + t1, loc);
    LexChar('=', t1, loc);
    PredField("pred" + ("=" + t1), "=" + t1, t1, preds, t2, ev, loc);
  }

  /** `pred=(...), icnf=(...))` is read into the two lists. */
  lemma FieldsRoundTrip(e: Event, tail: string, loc: Loc)
    ensures Fields("pred=" + ShowIdsThen(e.predecessors, ", icnf=" + ShowIdsThen(e.conflicts, ")" + tail)),
                   loc, true, Event(e.id, [], []))
         == Ok((e, tail))
  {
    var t2 := ", icnf=" + ShowIdsThen(e.conflicts, ")" + tail);
    var e0 := Event(e.id, [], []);
    IdListRoundTrip(e.predecessors, t2, loc);
    PredValue(ShowIdsThen(e.predecessors, t2), e.predecessors, t2, e0, loc);
    IcnfRoundTrip(e.conflicts, e0.(predecessors := e.predecessors), tail, loc);
  }

  /** `(x` and text that does not continue the number: the event's id. */
  lemma EventIdRead(x: nat, r2: string, loc: Loc)
    requires r2 != [] && !IsDigit(r2[0])
    ensures EventId("(" + (NatToString(x) + r2), loc) == Ok((x, r2))
  {
    var r1 := NatToString(x) + r2;
    LexChar('(', r1, loc);
    LexNumber(x, r2, loc);
    EventIdSteps("(" + r1, "(", r1, NatToString(x), r2, loc);
  }

  /** `, Event(` before the fields `f`. */
  lemma EventOpenRead(f: string, loc: Loc)
    ensures EventOpen("," + (" " + ("Event" + ("(" + f))), loc) == Ok(f)
  {
    var r4 := "(" + f;
    var r3 := " " + ("Event" + r4);
    LexChar(',', r3, loc);
    LexSpaceWord("Event", r4, loc);
    LexChar('(', f, loc);
    EventOpenSteps("," + r3, r3, r4, "(", f, loc);
  }

  /** Events round-trip: `ParseEvent` reads back what `ShowEventThen`
      prints, and leaves whatever follows the final bracket unread. */
  lemma EventRoundTrip(e: Event, tail: string, loc: Loc)
    ensures EventAt(ShowEventThen(e, tail), loc) == Ok((e, tail))
  {
    var f := "pred=" + ShowIdsThen(e.predecessors, ", icnf=" + ShowIdsThen(e.conflicts, ")" + (")" + tail)));
    var r2 := "," + (" " + ("Event" + ("(" + f)));
    assert ", Event(pred=" + ShowIdsThen(e.predecessors, ", icnf=" + ShowIdsThen(e.conflicts, ")" + (")" + tail))) == r2;
    EventIdRead(e.id, r2, loc);
    EventOpenRead(f, loc);
    FieldsRoundTrip(e, ")" + tail, loc);
    LexChar(')', tail, loc);
    EventSteps("(" + (NatToString(e.id) + r2), e.id, r2, f, e, ")" + tail, ")", tail, loc);
  }

  /** The worked example: `(1, Event(pred=(), icnf=()))` is event 1 with no
      predecessors and no conflicts. */
  lemma ExampleEmptyEvent(loc: Loc)
    ensures EventAt("(1, Event(pred=(), icnf=()))", loc) == Ok((Event(1, [], []), ""))
  {
    var e := Event(1, [], []);
    ShowEmptyEvent();
    EventRoundTrip(e, "", loc);
  }

  lemma ShowEmptyEvent()
    ensures ShowEvent(Event(1, [], [])) == "(1, Event(pred=(), icnf=()))"
  {
    ShowOne();
    EmptyIds("))");
    EmptyIds(", icnf=()))");
    EmptyEventText();
  }

  lemma ShowOne()
    ensures NatToString(1) == "1"
  {
  }

  lemma EmptyEventText()
    ensures "(" + ("1" + (", Event(pred=" + ("()" + (", icnf=" + ("()" + "))"))))) == "(1, Event(pred=(), icnf=()))"
  {
  }

  lemma EmptyIds(tail: string)
    ensures ShowIdsThen([], tail) == "()" + tail
  {
  }

  /** A non-empty list of lines is its first line followed by the others. */
  lemma EventsSplit(lines: seq<string>, lineNum: nat, colNum: nat)
    requires lines != []
    ensures Events(lines, lineNum, colNum) == LineEvents(lines[0], lines[1..], lineNum, colNum)
  {
  }

  lemma LineEventsCons(text: string, more: seq<string>, lineNum: nat, colNum: nat, ev: Event, r: string)
    requires EventAt(text, Loc(lineNum + 1, colNum + |text|)) == Ok((ev, r))
    ensures var later := Events(more, lineNum + 1, Column(Loc(lineNum + 1, colNum + |text|), r));
            LineEvents(text, more, lineNum, colNum) == if later.Ok? then Ok([ev] + later.value) else Err(later.error)
  {
  }

  lemma LineEventsHeadFails(text: string, more: seq<string>, lineNum: nat, colNum: nat)
    requires EventAt(text, Loc(lineNum + 1, colNum + |text|)).Err?
    ensures LineEvents(text, more, lineNum, colNum).Err?
  {
  }

  lemma EventAtNeedsToken(rest: string, loc: Loc)
    requires Lex(rest, loc).Err?
    ensures EventAt(rest, loc).Err?
  {
    assert EventId(rest, loc).Err?;
  }

  function Shown(events: seq<Event>): (lines: seq<string>)
    ensures |lines| == |events|
    ensures forall i :: 0 <= i < |events| ==> lines[i] == ShowEvent(events[i])
  {
    if events == [] then [] else [ShowEvent(events[0])] + Shown(events[1..])
  }

  lemma RecombineEvents(events: seq<Event>)
    requires events != []
    ensures [events[0]] + events[1..] == events
  {
  }

  /** Printing events one per line and reading the lines back gives the
      same events in the same order, whatever the counters stand at. */
  lemma {:induction false} EventsRoundTrip(events: seq<Event>, lineNum: nat, colNum: nat)
    ensures Events(Shown(events), lineNum, colNum) == Ok(events)
    decreases |events|
  {
    if events != [] {
      var lines := Shown(events);
      var text := ShowEvent(events[0]);
      var loc := Loc(lineNum + 1, colNum + |text|);
      assert lines[0] == text && lines[1..] == Shown(events[1..]);
      EventsSplit(lines, lineNum, colNum);
      EventRoundTrip(events[0], "", loc);
      EventsRoundTrip(events[1..], lineNum + 1, Column(loc, ""));
      LineEventsCons(text, Shown(events[1..]), lineNum, colNum, events[0], "");
      RecombineEvents(events);
    }
  }

  lemma BlankFirstLine(lines: seq<string>, lineNum: nat, colNum: nat)
    requires lines != [] && AllSpaces(lines[0])
    ensures Events(lines, lineNum, colNum).Err?
  {
    var text := lines[0];
    var loc := Loc(lineNum + 1, colNum + |text|);
    LexAtEnd(text, loc);
    EventAtNeedsToken(text, loc);
    LineEventsHeadFails(text, lines[1..], lineNum, colNum);
    EventsSplit(lines, lineNum, colNum);
  }

  lemma LaterLineFails(lines: seq<string>, lineNum: nat, colNum: nat)
    requires lines != []
    requires forall c: nat {:trigger Events(lines[1..], lineNum + 1, c)} :: Events(lines[1..], lineNum + 1, c).Err?
    ensures Events(lines, lineNum, colNum).Err?
  {
    var text := lines[0];
    var loc := Loc(lineNum + 1, colNum + |text|);
    var p := EventAt(text, loc);
    if p.Ok? {
      LineEventsCons(text, lines[1..], lineNum, colNum, p.value.0, p.value.1);
      assert Events(lines[1..], lineNum + 1, Column(loc, p.value.1)).Err?;
    } else {
      LineEventsHeadFails(text, lines[1..], lineNum, colNum);
    }
    EventsSplit(lines, lineNum, colNum);
  }

  /** A line with nothing but spaces on it makes the whole file fail with
      an input-format error. */
  lemma {:induction false} BlankLineRejected(lines: seq<string>, k: nat, lineNum: nat, colNum: nat)
    requires k < |lines| && AllSpaces(lines[k])
    ensures Events(lines, lineNum, colNum).Err?
    ensures Events(lines, lineNum, colNum).error.reason == INVALID_INPUT_FORMAT
    decreases k
  {
    if k == 0 {
      BlankFirstLine(lines, lineNum, colNum);
    } else {
      forall c: nat {:trigger Events(lines[1..], lineNum + 1, c)} ensures Events(lines[1..], lineNum + 1, c).Err? {
        BlankLineRejected(lines[1..], k - 1, lineNum + 1, c);
      }
      LaterLineFails(lines, lineNum, colNum);
    }
  }
}
