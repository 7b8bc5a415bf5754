/** The cograph of a set of event variables: one node per variable and an
    edge between two nodes when the two variables can be true together. It
    is built by asking a solver about every pair (`SolveCograph`), or read
    back from a text file (`ParseCograph`). The solver is not part of this
    model; it is the oracle `pairSat`, which answers whether the first
    variable, added to the encoding, is satisfiable under the assumption of
    the second. */
module Cograph {
  import opened Numbers
  import opened Exceptions
  import opened Graphs

  /** Whether nodes `k` and `i` end up neighbours: the oracle is asked about
      each unordered pair once, with the later variable added to the solver
      and the earlier one assumed. */
  predicate Linked<V>(vars: seq<V>, pairSat: (V, V) -> bool, k: int, i: int) {
    && 0 <= k < |vars| && 0 <= i < |vars|
    && ((i < k && pairSat(vars[k], vars[i])) || (k < i && pairSat(vars[i], vars[k])))
  }

  /** The graph the pairwise questions describe. */
  function PairGraph<V>(vars: seq<V>, pairSat: (V, V) -> bool): Adjacency {
    seq(|vars|, k => set i: nat | i < |vars| && Linked(vars, pairSat, k, i))
  }

  /** The cograph is symmetric, has no self-loops, and links two nodes
      exactly when the oracle said yes for them. */
  lemma PairGraphMeaning<V>(vars: seq<V>, pairSat: (V, V) -> bool)
    ensures Symmetric(PairGraph(vars, pairSat))
    ensures forall k :: !HasEdge(PairGraph(vars, pairSat), k, k)
    ensures forall k, i :: HasEdge(PairGraph(vars, pairSat), k, i) <==> Linked(vars, pairSat, k, i)
  {
    var adj := PairGraph(vars, pairSat);
    forall k, i | HasEdge(adj, k, i)
      ensures HasEdge(adj, i, k)
    {
      assert Linked(vars, pairSat, i, k);
    }
  }

  /** Whether the pair `k`, `i` has been asked once the outer loop is at node
      `c` and its inner loop at node `t`: pairs whose later node is above
      `c` are done, and so are `c`'s pairs with nodes below `t`. */
  predicate Asked(k: int, i: int, c: int, t: int) {
    var hi := if k < i then i else k;
    var lo := if k < i then k else i;
    hi > c || (hi == c && lo < t)
  }

  /** The graph after the pairs `Asked` at (`c`, `t`). */
  function Stage<V>(vars: seq<V>, pairSat: (V, V) -> bool, c: int, t: int): Adjacency {
    seq(|vars|, k => set i: nat | i < |vars| && Linked(vars, pairSat, k, i) && Asked(k, i, c, t))
  }

  lemma StageFirst<V>(vars: seq<V>, pairSat: (V, V) -> bool)
    ensures Stage(vars, pairSat, |vars|, |vars|) == NoEdges(|vars|)
  {
    var adj := Stage(vars, pairSat, |vars|, |vars|);
    forall k | 0 <= k < |vars|
      ensures adj[k] == {}
    {
    }
  }

  lemma StageOuter<V>(vars: seq<V>, pairSat: (V, V) -> bool, c: nat)
    requires c < |vars|
    ensures Stage(vars, pairSat, c + 1, c + 1) == Stage(vars, pairSat, c, 0)
  {
    var before, after := Stage(vars, pairSat, c + 1, c + 1), Stage(vars, pairSat, c, 0);
    forall k | 0 <= k < |vars|
      ensures before[k] == after[k]
    {
      forall i: nat | i < |vars| && Linked(vars, pairSat, k, i)
        ensures Asked(k, i, c + 1, c + 1) <==> Asked(k, i, c, 0)
      {
      }
    }
  }

  lemma StageInner<V>(vars: seq<V>, pairSat: (V, V) -> bool, c: nat, t: nat)
    requires t < c < |vars|
    ensures Stage(vars, pairSat, c, t + 1) ==
      if pairSat(vars[c], vars[t]) then WithEdge(Stage(vars, pairSat, c, t), c, t) else Stage(vars, pairSat, c, t)
  {
    var before, after := Stage(vars, pairSat, c, t), Stage(vars, pairSat, c, t + 1);
    var expected := if pairSat(vars[c], vars[t]) then WithEdge(before, c, t) else before;
    forall k | 0 <= k < |vars|
      ensures after[k] == expected[k]
    {
      forall i: nat | i < |vars|
        ensures i in after[k] <==> i in expected[k]
      {
        if (k == c && i == t) || (k == t && i == c) {
          assert Linked(vars, pairSat, k, i) <==> pairSat(vars[c], vars[t]);
        } else {
          assert Asked(k, i, c, t + 1) <==> Asked(k, i, c, t);
        }
      }
    }
  }

  lemma StageLast<V>(vars: seq<V>, pairSat: (V, V) -> bool)
    ensures Stage(vars, pairSat, 0, 0) == PairGraph(vars, pairSat)
  {
    var adj, all := Stage(vars, pairSat, 0, 0), PairGraph(vars, pairSat);
    forall k | 0 <= k < |vars|
      ensures adj[k] == all[k]
    {
      forall i: nat | i < |vars| && Linked(vars, pairSat, k, i)
        ensures Asked(k, i, 0, 0)
      {
      }
    }
  }

  /** `SolveCograph`: pop the last variable, ask about it with every variable
      still in the vector, and link the pairs the oracle accepts. */
  method SolveCograph<V>(vars: seq<V>, pairSat: (V, V) -> bool) returns (g: Graph)
    ensures fresh(g) && fresh(g.edges) && g.Valid() && g.n == |vars|
    ensures g.edges[..] == PairGraph(vars, pairSat)
  {
    g := new Graph(|vars|);
    StageFirst(vars, pairSat);
    var remaining := vars;
    while remaining != []
      invariant fresh(g) && fresh(g.edges) && g.Valid() && g.n == |vars|
      invariant |remaining| <= |vars| && remaining == vars[..|remaining|]
      invariant g.edges[..] == Stage(vars, pairSat, |remaining|, |remaining|)
    {
      var outer := remaining[|remaining| - 1];
      remaining := remaining[..|remaining| - 1];
      var current := |remaining|;
      StageOuter(vars, pairSat, current);
      for i := 0 to current
        invariant g.edges[..] == Stage(vars, pairSat, current, i)
      {
        StageInner(vars, pairSat, current, i);
        if pairSat(outer, remaining[i]) {
          g.AddEdge(current, i);
        }
      }
    }
    StageLast(vars, pairSat);
  }

  /** The characters `istream >> int` skips before a number: space, tab,
      newline, vertical tab, form feed and carriage return. */
  predicate IsSpace(c: char) {
    c == ' ' || '\t' <= c <= '\r'
  }

  function SkipSpaces(s: string): (r: string)
    ensures |r| <= |s|
  {
    if s != [] && IsSpace(s[0]) then SkipSpaces(s[1..]) else s
  }

  /** A non-empty run of decimal digits and what follows it. */
  function ReadDigits(s: string): (r: Option<(nat, string)>)
    ensures r.Some? ==> |r.value.1| < |s|
  {
    var k := DigitRun(s);
    if k == 0 then None else Some((DecimalValue(s[..k]), s[k..]))
  }

  /** `stream >> n` on an `int`: skip spaces, then an optional sign and a
      non-empty run of decimal digits; anything else makes the read fail.
      The result is the number and what is left of the line. */
  function ReadInt(s: string): (r: Option<(int, string)>)
    ensures r.Some? ==> |r.value.1| < |s|
  {
    ReadSigned(SkipSpaces(s))
  }

  /** An optional sign and a run of digits. */
  function ReadSigned(t: string): (r: Option<(int, string)>)
    ensures r.Some? ==> |r.value.1| < |t|
  {
    if t != [] && (t[0] == '+' || t[0] == '-') then
      match ReadDigits(t[1..])
      case None => None
      case Some((magnitude, rest)) => Some((if t[0] == '-' then -(magnitude as int) else magnitude, rest))
    else
      match ReadDigits(t)
      case None => None
      case Some((magnitude, rest)) => Some((magnitude as int, rest))
  }

  lemma ReadDigitsOf(n: nat, tail: string)
    requires tail != [] ==> !IsDigit(tail[0])
    ensures ReadDigits(NatToString(n) + tail) == Some((n, tail))
  {
    var digits := NatToString(n);
    var body := digits + tail;
    DigitRunOf(digits, tail);
    assert body[..|digits|] == digits;
    assert body[|digits|..] == tail;
    DecimalRoundTrip(n);
  }

  /** A number written in decimal after some spaces, with or without a minus
      sign, reads back as itself, and the read stops right after its last
      digit. */
  lemma ReadIntOfSpelling(spaces: nat, negative: bool, n: nat, tail: string)
    requires tail != [] ==> !IsDigit(tail[0])
    ensures ReadInt(Spaces(spaces) + (if negative then "-" else "") + NatToString(n) + tail)
      == Some((if negative then -(n as int) else n, tail))
  {
    var digits := NatToString(n);
    var sign: string := if negative then "-" else "";
    var t := sign + digits + tail;
    assert Spaces(spaces) + sign + digits + tail == Spaces(spaces) + t;
    assert t[0] == '-' || IsDigit(t[0]);
    SkipSpacesOf(spaces, t);
    ReadSignedOf(negative, n, tail);
  }

  lemma ReadSignedOf(negative: bool, n: nat, tail: string)
    requires tail != [] ==> !IsDigit(tail[0])
    ensures ReadSigned((if negative then "-" else "") + NatToString(n) + tail)
      == Some((if negative then -(n as int) else n, tail))
  {
    if negative {
      ReadNegative(n, tail);
    } else {
      ReadUnsigned(n, tail);
      assert "" + NatToString(n) + tail == NatToString(n) + tail;
    }
  }

  lemma ReadNegative(n: nat, tail: string)
    requires tail != [] ==> !IsDigit(tail[0])
    ensures ReadSigned("-" + NatToString(n) + tail) == Some((-(n as int), tail))
  {
    var body := NatToString(n) + tail;
    var t := "-" + NatToString(n) + tail;
    ReadDigitsOf(n, tail);
    assert t == ['-'] + body;
    assert t[1..] == body;
    assert ReadDigits(t[1..]) == Some((n, tail));
  }

  lemma ReadUnsigned(n: nat, tail: string)
    requires tail != [] ==> !IsDigit(tail[0])
    ensures ReadSigned(NatToString(n) + tail) == Some((n as int, tail))
  {
    var t := NatToString(n) + tail;
    ReadDigitsOf(n, tail);
    assert IsDigit(t[0]);
  }

  lemma {:induction false} SkipSpacesOf(n: nat, rest: string)
    requires rest != [] ==> !IsSpace(rest[0])
    ensures SkipSpaces(Spaces(n) + rest) == rest
  {
    if n > 0 {
      var s := Spaces(n) + rest;
      assert s[0] == ' ';
      assert s[1..] == Spaces(n - 1) + rest;
      SkipSpacesOf(n - 1, rest);
    }
  }

  /** Nothing but spaces (an empty line among them) holds no number. */
  lemma ReadIntOfSpaces(n: nat)
    ensures ReadInt(Spaces(n)) == None
  {
    SkipSpacesOf(n, []);
    assert Spaces(n) + [] == Spaces(n);
  }

  /** The numbers `while (stream >> n)` reads from a line: every number up to
      the first read that fails. */
  function IdsOf(s: string): seq<int>
    decreases |s|
  {
    match ReadInt(s)
    case None => []
    case Some((id, rest)) => [id] + IdsOf(rest)
  }

  lemma IdsOfStep(s: string)
    requires ReadInt(s).Some?
    ensures IdsOf(s) == [ReadInt(s).value.0] + IdsOf(ReadInt(s).value.1)
  {
  }

  /** `events.emplace(id, n++)` over `ids`: each id is mapped to the index of
      its first occurrence, since a later `emplace` of the same id leaves the
      map as it is. */
  function FirstIndex(ids: seq<int>): (index: map<int, nat>)
    ensures forall id :: id in index ==> index[id] < |ids|
  {
    if ids == [] then map[]
    else
      var earlier := FirstIndex(ids[..|ids| - 1]);
      var last := ids[|ids| - 1];
      if last in earlier then earlier else earlier[last := |ids| - 1]
  }

  /** An id read again keeps its index; a new one gets the next index. */
  lemma FirstIndexStep(ids: seq<int>, x: int)
    ensures FirstIndex(ids + [x]) == if x in FirstIndex(ids) then FirstIndex(ids) else FirstIndex(ids)[x := |ids|]
  {
    assert (ids + [x])[..|ids|] == ids;
  }

  /** The index maps exactly the ids read, each to the position of its
      first occurrence. */
  lemma {:induction false} FirstIndexMeaning(ids: seq<int>)
    ensures forall id :: id in FirstIndex(ids) <==> id in ids
    ensures forall id :: id in FirstIndex(ids) ==> FirstIndex(ids)[id] < |ids| && ids[FirstIndex(ids)[id]] == id
    ensures forall id, j :: id in FirstIndex(ids) && 0 <= j < FirstIndex(ids)[id] ==> ids[j] != id
    decreases |ids|
  {
    if ids != [] {
      var prefix, last := ids[..|ids| - 1], ids[|ids| - 1];
      FirstIndexMeaning(prefix);
      assert ids == prefix + [last];
      FirstIndexStep(prefix, last);
      assert forall j :: 0 <= j < |prefix| ==> ids[j] == prefix[j];
    }
  }

  /** The two numbers an edge line must begin with. */
  function ReadPair(line: string): Option<(int, int)> {
    match ReadInt(line)
    case None => None
    case Some((left, rest)) =>
      match ReadInt(rest)
      case None => None
      case Some((right, _)) => Some((left, right))
  }

  /** Why reading the graph fails: a line that does not begin with two
      numbers, or an id the first line does not list (`std::out_of_range`
      from `unordered_map::at`). */
  datatype CographError = Format(error: SeddEcException) | OutOfRange

  datatype Parse<T> = Parsed(value: T) | Failed(error: CographError)

  /** What was read from an edge line: its two numbers, or nothing. */
  type EdgeRead = Option<(int, int)>

  /** An edge line the reader accepts: two numbers, both listed ids. */
  predicate Good(index: map<int, nat>, p: EdgeRead) {
    p.Some? && p.value.0 in index && p.value.1 in index
  }

  /** The error of an edge line that is not accepted. */
  function LineError(p: EdgeRead): CographError {
    if p.None? then Format(FromReason(INVALID_INPUT_FORMAT)) else OutOfRange
  }

  /** The graph after the edge lines read as `ps`, or the error of the first
      line that is not accepted. */
  function EdgeLines(n: nat, index: map<int, nat>, ps: seq<EdgeRead>): (r: Parse<Adjacency>)
    requires forall id :: id in index ==> index[id] < n
    ensures r.Parsed? ==> |r.value| == n
  {
    if ps == [] then Parsed(NoEdges(n))
    else
      match EdgeLines(n, index, ps[..|ps| - 1])
      case Failed(e) => Failed(e)
      case Parsed(adj) =>
        var p := ps[|ps| - 1];
        if !Good(index, p) then Failed(LineError(p))
        else Parsed(WithEdge(adj, index[p.value.0], index[p.value.1]))
  }

  function FirstLine(lines: seq<string>): string {
    if lines == [] then "" else lines[0]
  }

  /** What each line after the first reads as. */
  function EdgeReads(lines: seq<string>): (ps: seq<EdgeRead>)
    ensures |ps| == if lines == [] then 0 else |lines| - 1
    ensures forall k :: 0 <= k < |ps| ==> ps[k] == ReadPair(lines[k + 1])
  {
    if |lines| <= 1 then [] else seq(|lines| - 1, k requires 0 <= k < |lines| - 1 => ReadPair(lines[k + 1]))
  }

  /** The graph a cograph file describes: the first line lists the node ids,
      every later line an edge. */
  function CographOf(lines: seq<string>): Parse<Adjacency> {
    var ids := IdsOf(FirstLine(lines));
    EdgeLines(|ids|, FirstIndex(ids), EdgeReads(lines))
  }

  /** The edge line read as `p` joins nodes `a` and `b`. */
  predicate Joins(index: map<int, nat>, p: EdgeRead, a: int, b: int) {
    && Good(index, p)
    && var left, right := index[p.value.0], index[p.value.1];
       (left == a && right == b) || (left == b && right == a)
  }

  /** The edge lines are accepted exactly when each of them is, and
      otherwise the error is that of the first line not accepted. */
  lemma {:induction false} EdgeLinesOutcome(n: nat, index: map<int, nat>, ps: seq<EdgeRead>)
    requires forall id :: id in index ==> index[id] < n
    ensures EdgeLines(n, index, ps).Parsed? <==> forall k :: 0 <= k < |ps| ==> Good(index, ps[k])
    ensures EdgeLines(n, index, ps).Failed? ==>
      exists k :: 0 <= k < |ps| && !Good(index, ps[k]) && (forall j :: 0 <= j < k ==> Good(index, ps[j]))
        && EdgeLines(n, index, ps).error == LineError(ps[k])
    decreases |ps|
  {
    if ps != [] {
      var prefix := ps[..|ps| - 1];
      EdgeLinesOutcome(n, index, prefix);
      assert forall k :: 0 <= k < |prefix| ==> prefix[k] == ps[k];
    }
  }

  /** A graph read from edge lines is symmetric and joins two nodes exactly
      when one of the lines names them. */
  lemma {:induction false} EdgeLinesGraph(n: nat, index: map<int, nat>, ps: seq<EdgeRead>)
    requires forall id :: id in index ==> index[id] < n
    requires EdgeLines(n, index, ps).Parsed?
    ensures Symmetric(EdgeLines(n, index, ps).value)
    ensures forall a, b :: HasEdge(EdgeLines(n, index, ps).value, a, b) <==>
      exists k :: 0 <= k < |ps| && Joins(index, ps[k], a, b)
    decreases |ps|
  {
    if ps == [] {
      assert forall a, b :: !HasEdge(NoEdges(n), a, b);
    } else {
      var prefix, p := ps[..|ps| - 1], ps[|ps| - 1];
      EdgeLinesGraph(n, index, prefix);
      var before := EdgeLines(n, index, prefix).value;
      var left, right := index[p.value.0], index[p.value.1];
      var after := WithEdge(before, left, right);
      assert EdgeLines(n, index, ps).value == after;
      WithEdgeSymmetric(before, left, right);
      forall a, b | HasEdge(after, a, b)
        ensures exists k :: 0 <= k < |ps| && Joins(index, ps[k], a, b)
      {
        if HasEdge(before, a, b) {
          var k :| 0 <= k < |prefix| && Joins(index, prefix[k], a, b);
          assert ps[k] == prefix[k];
        } else {
          assert after[a] == before[a] + (if a == left then {right} else {}) + (if a == right then {left} else {});
          assert Joins(index, ps[|ps| - 1], a, b);
        }
      }
      forall a, b, k | 0 <= k < |ps| && Joins(index, ps[k], a, b)
        ensures HasEdge(after, a, b)
      {
        if k < |prefix| {
          assert Joins(index, prefix[k], a, b);
          assert HasEdge(before, a, b);
          assert before[a] <= after[a];
        } else {
          assert ps[k] == p;
          assert (a == left && b == right) || (a == right && b == left);
          assert HasEdge(after, left, right) && HasEdge(after, right, left);
        }
      }
    }
  }

  /** An accepted line adds its edge to the graph of the lines before it. */
  lemma EdgeLinesGood(n: nat, index: map<int, nat>, ps: seq<EdgeRead>, k: nat)
    requires forall id :: id in index ==> index[id] < n
    requires k < |ps| && Good(index, ps[k])
    requires EdgeLines(n, index, ps[..k]).Parsed?
    ensures EdgeLines(n, index, ps[..k + 1]) ==
      Parsed(WithEdge(EdgeLines(n, index, ps[..k]).value, index[ps[k].value.0], index[ps[k].value.1]))
  {
    assert ps[..k + 1][..k] == ps[..k];
  }

  /** Once every line before `k` is accepted and line `k` is not, reading
      stops with line `k`'s error, whatever follows. */
  lemma {:induction false} FirstBadLine(n: nat, index: map<int, nat>, ps: seq<EdgeRead>, k: nat)
    requires forall id :: id in index ==> index[id] < n
    requires k < |ps| && !Good(index, ps[k])
    requires EdgeLines(n, index, ps[..k]).Parsed?
    ensures EdgeLines(n, index, ps) == Failed(LineError(ps[k]))
    decreases |ps|
  {
    if k < |ps| - 1 {
      var prefix := ps[..|ps| - 1];
      assert prefix[..k] == ps[..k];
      FirstBadLine(n, index, prefix, k);
    } else {
      assert ps[..|ps| - 1] == ps[..k];
    }
  }

  /** What a cograph file describes: its first line holds the node ids, and
      the reading succeeds exactly when every later line begins with two of
      them (`EdgeReads` holds what each later line reads as); the graph has
      one node per id read, duplicates included, is symmetric, and joins two
      nodes exactly when a later line names them. */
  lemma CographOfMeaning(lines: seq<string>)
    ensures var index, ps := FirstIndex(IdsOf(FirstLine(lines))), EdgeReads(lines);
      CographOf(lines).Parsed? <==> forall k :: 0 <= k < |ps| ==> Good(index, ps[k])
    ensures var ids, ps := IdsOf(FirstLine(lines)), EdgeReads(lines);
      CographOf(lines).Parsed? ==>
        && |CographOf(lines).value| == |ids|
        && Symmetric(CographOf(lines).value)
        && forall a, b :: HasEdge(CographOf(lines).value, a, b) <==>
             exists k :: 0 <= k < |ps| && Joins(FirstIndex(ids), ps[k], a, b)
  {
    var ids := IdsOf(FirstLine(lines));
    EdgeLinesOutcome(|ids|, FirstIndex(ids), EdgeReads(lines));
    if CographOf(lines).Parsed? {
      EdgeLinesGraph(|ids|, FirstIndex(ids), EdgeReads(lines));
    }
  }

  /** Between two reads of the first line: the ids `read` so far and the
      ids still in `rest` make up the line's ids, and `events` numbers the
      ids read. */
  ghost predicate ReadSoFar(line: string, read: seq<int>, rest: string, events: map<int, nat>) {
    IdsOf(line) == read + IdsOf(rest) && events == FirstIndex(read)
  }

  lemma ReadOneId(line: string, read: seq<int>, rest: string, events: map<int, nat>)
    requires ReadSoFar(line, read, rest, events) && ReadInt(rest).Some?
    ensures var (id, after) := ReadInt(rest).value;
      ReadSoFar(line, read + [id], after, if id in events then events else events[id := |read|])
  {
    var (id, after) := ReadInt(rest).value;
    IdsOfStep(rest);
    assert read + [id] + IdsOf(after) == read + ([id] + IdsOf(after));
    FirstIndexStep(read, id);
  }

  /** The loop over the first line: `events` maps each id read to the index
      of its first occurrence and `n` counts the ids read. */
  method ReadIds(line: string) returns (events: map<int, nat>, n: nat)
    ensures events == FirstIndex(IdsOf(line)) && n == |IdsOf(line)|
  {
    events, n := map[], 0;
    ghost var read: seq<int> := [];
    var rest := line;
    var next := ReadInt(rest);
    while next.Some?
      invariant ReadSoFar(line, read, rest, events) && n == |read| && next == ReadInt(rest)
      decreases |rest|
    {
      ReadOneId(line, read, rest, events);
      var id := next.value.0;
      rest := next.value.1;
      if id !in events {
        events := events[id := n];
      }
      read := read + [id];
      n := n + 1;
      next := ReadInt(rest);
    }
    assert read + [] == read;
  }

  /** The loop over the edge lines: each later line of `lines` must begin
      with two ids of `events`, whose nodes `graph` then joins. */
  method AddEdgeLines(graph: Graph, events: map<int, nat>, lines: seq<string>) returns (error: Option<CographError>)
    requires graph.Valid() && forall id :: id in events ==> events[id] < graph.n
    requires graph.edges[..] == NoEdges(graph.n)
    modifies graph.edges
    ensures error.None? ==> EdgeLines(graph.n, events, EdgeReads(lines)) == Parsed(graph.edges[..])
    ensures error.Some? ==> EdgeLines(graph.n, events, EdgeReads(lines)) == Failed(error.value)
  {
    ghost var ps := EdgeReads(lines);
    for k := 1 to if lines == [] then 1 else |lines|
      invariant EdgeLines(graph.n, events, ps[..k - 1]) == Parsed(graph.edges[..])
    {
      var pair := ReadPair(lines[k]);
      assert pair == ps[k - 1];
      if pair.None? {
        FirstBadLine(graph.n, events, ps, k - 1);
        return Some(Format(FromReason(INVALID_INPUT_FORMAT)));
      }
      var (left, right) := pair.value;
      if left !in events || right !in events {
        FirstBadLine(graph.n, events, ps, k - 1);
        return Some(OutOfRange);
      }
      EdgeLinesGood(graph.n, events, ps, k - 1);
      graph.AddEdge(events[left], events[right]);
    }
    assert ps[..|ps|] == ps;
    return None;
  }

  /** `ParseCograph`: read the ids of the first line, numbering them as they
      come, then add one edge per later line. */
  method ParseCograph(lines: seq<string>) returns (r: Parse<Graph>)
    ensures r.Parsed? <==> CographOf(lines).Parsed?
    ensures r.Parsed? ==>
      && fresh(r.value) && fresh(r.value.edges) && r.value.Valid()
      && r.value.edges[..] == CographOf(lines).value
    ensures r.Failed? ==> CographOf(lines) == Failed(r.error)
  {
    var events, n := ReadIds(FirstLine(lines));
    FirstIndexMeaning(IdsOf(FirstLine(lines)));
    var graph := new Graph(n);
    var error := AddEdgeLines(graph, events, lines);
    if error.Some? {
      return Failed(error.value);
    }
    return Parsed(graph);
  }
}
