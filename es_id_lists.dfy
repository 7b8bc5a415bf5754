/** The id lists `ParseIdList` refuses: a comma with no integer before or
    after it, an element that is not an integer, and two elements with no
    comma between them. Each is stated for every list and every text that
    follows it. */
module EsIdLists {
  import opened Numbers
  import opened Exceptions
  import opened EsLexer
  import opened EsGrammar
  import opened EsRoundTrip

  /** `,b,c` for the elements `b, c`, followed by `tail`: the elements after
      the first one, each preceded by its comma, with no closing bracket. */
  function CommasThen(ids: seq<nat>, tail: string): (s: string)
    ensures ids == [] ==> s == tail
    ensures ids != [] ==> s != [] && s[0] == ','
  {
    if ids == [] then tail else "," + (NatToString(ids[0]) + CommasThen(ids[1..], tail))
  }

  /** The elements after the first one are read in order, up to whatever
      follows them. */
  lemma {:induction false} CommasRead(ids: seq<nat>, acc: seq<nat>, rest: string, loc: Loc)
    requires rest != [] && !IsDigit(rest[0])
    ensures IdListItems(CommasThen(ids, rest), loc, false, acc) == IdListItems(rest, loc, false, acc + ids)
    decreases |ids|
  {
    if ids == [] {
      assert acc + ids == acc;
    } else {
      var after := CommasThen(ids[1..], rest);
      CommaNumber(ids[0], after, acc, loc);
      CommasRead(ids[1..], acc + [ids[0]], rest, loc);
      MovedFirst(acc, ids);
    }
  }

  /** `(x,b,c` followed by `rest`: the list read up to `rest`. */
  lemma ListPrefix(x: nat, ids: seq<nat>, rest: string, loc: Loc)
    requires rest != [] && !IsDigit(rest[0])
    ensures IdList("(" + (NatToString(x) + CommasThen(ids, rest)), loc) == IdListItems(rest, loc, false, [x] + ids)
  {
    IdListFirst(x, CommasThen(ids, rest), loc);
    CommasRead(ids, [x], rest, loc);
  }

  /** A comma right after the opening bracket is refused where the first
      integer is expected. */
  lemma LeadingComma(tail: string, loc: Loc)
    ensures IdList("(," + tail, loc) == Err(UnexpectedKind(Token(OPERATOR, ","), INTEGER, Column(loc, tail), loc.line))
  {
    assert "(," + tail == "(" + ("," + tail);
    LexChar('(', "," + tail, loc);
    LexChar(',', tail, loc);
  }

  /** A first element that is not an integer (and not the closing bracket
      of an empty list) is refused. */
  lemma FirstNotInteger(rest: string, loc: Loc)
    requires Lex(rest, loc).Ok? ==> Lex(rest, loc).value.0.kind !in {INTEGER, RPAREN}
    ensures IdList("(" + rest, loc).Err?
  {
    LexChar('(', rest, loc);
  }

  /** After a comma anything but an integer is refused, the closing bracket
      included: a trailing comma, an identifier, a string, a bracket. */
  lemma AfterCommaNotInteger(x: nat, ids: seq<nat>, rest: string, loc: Loc)
    requires Lex(rest, loc).Ok? ==> Lex(rest, loc).value.0.kind != INTEGER
    ensures IdList("(" + (NatToString(x) + CommasThen(ids, "," + rest)), loc).Err?
  {
    ListPrefix(x, ids, "," + rest, loc);
    LexChar(',', rest, loc);
  }

  /** In particular a comma before the closing bracket is refused, for
      every non-empty list and whatever follows it. */
  lemma TrailingComma(x: nat, ids: seq<nat>, tail: string, loc: Loc)
    ensures IdList("(" + (NatToString(x) + CommasThen(ids, ",)" + tail)), loc).Err?
  {
    LexChar(')', tail, loc);
    assert ",)" + tail == "," + (")" + tail);
    AfterCommaNotInteger(x, ids, ")" + tail, loc);
  }

  /** After an element, anything but a comma or the closing bracket is
      refused. */
  lemma MissingComma(x: nat, ids: seq<nat>, rest: string, loc: Loc)
    requires rest != [] && !IsDigit(rest[0])
    requires Lex(rest, loc).Ok? ==> Lex(rest, loc).value.0.kind != RPAREN && Lex(rest, loc).value.0 != Token(OPERATOR, ",")
    ensures IdList("(" + (NatToString(x) + CommasThen(ids, rest)), loc).Err?
  {
    ListPrefix(x, ids, rest, loc);
  }

  /** In particular two integers separated only by a space are refused. */
  lemma TwoIntegers(x: nat, ids: seq<nat>, y: nat, tail: string, loc: Loc)
    requires tail != [] ==> !IsDigit(tail[0])
    ensures IdList("(" + (NatToString(x) + CommasThen(ids, " " + (NatToString(y) + tail))), loc).Err?
  {
    var rest := " " + (NatToString(y) + tail);
    LexNumber(y, tail, loc);
    LexSkipsSpaces(1, NatToString(y) + tail, loc);
    assert Spaces(1) == " ";
    MissingComma(x, ids, rest, loc);
  }
}
