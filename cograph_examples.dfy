/** Cograph files written out from numbers, and what reading them gives. */
module CographExamples {
  import opened Numbers
  import opened Exceptions
  import opened Graphs
  import opened Cograph

  /** The numbers `ns` in decimal, separated by single spaces. */
  function Words(ns: seq<nat>): string {
    if ns == [] then ""
    else if |ns| == 1 then NatToString(ns[0])
    else NatToString(ns[0]) + " " + Words(ns[1..])
  }

  lemma SkipOneSpace(s: string)
    ensures ReadInt(" " + s) == ReadInt(s)
  {
    assert (" " + s)[1..] == s;
  }

  lemma {:induction false} IdsAfterSpace(s: string)
    ensures IdsOf(" " + s) == IdsOf(s)
  {
    SkipOneSpace(s);
  }

  /** A number at the start of the text, with no spaces before it. */
  lemma ReadsNumber(n: nat, tail: string)
    requires tail != [] ==> !IsDigit(tail[0])
    ensures ReadInt(NatToString(n) + tail) == Some((n as int, tail))
  {
    var t := NatToString(n) + tail;
    assert IsDigit(t[0]) && !IsSpace(t[0]);
    assert SkipSpaces(t) == t;
    ReadUnsigned(n, tail);
  }

  lemma ReadsFirst(ns: seq<nat>)
    requires |ns| >= 2
    ensures ReadInt(Words(ns)) == Some((ns[0] as int, " " + Words(ns[1..])))
  {
    WordsFirst(ns);
    ReadsNumber(ns[0], " " + Words(ns[1..]));
  }

  lemma WordsFirst(ns: seq<nat>)
    requires |ns| >= 2
    ensures Words(ns) == NatToString(ns[0]) + (" " + Words(ns[1..]))
  {
  }

  lemma ReadsLast(n: nat)
    ensures ReadInt(NatToString(n)) == Some((n as int, ""))
  {
    ReadsNumber(n, "");
    assert NatToString(n) + "" == NatToString(n);
  }

  /** The ids written on a line read back as themselves. */
  lemma {:induction false} IdsOfWords(ns: seq<nat>)
    ensures IdsOf(Words(ns)) == ns
    decreases |ns|
  {
    if ns == [] {
      ReadIntOfSpaces(0);
    } else if |ns| == 1 {
      ReadsLast(ns[0]);
      ReadIntOfSpaces(0);
      IdsOfStep(NatToString(ns[0]));
    } else {
      ReadsFirst(ns);
      IdsOfStep(Words(ns));
      IdsAfterSpace(Words(ns[1..]));
      IdsOfWords(ns[1..]);
      assert ns == [ns[0]] + ns[1..];
    }
  }

  /** An edge line written from two ids reads as those ids. */
  lemma ReadPairWords(a: nat, b: nat)
    ensures ReadPair(Words([a, b])) == Some((a as int, b as int))
  {
    ReadsFirst([a, b]);
    assert [a, b][1..] == [b];
    SkipOneSpace(NatToString(b));
    ReadsLast(b);
  }

  lemma FirstIndexOfThree(a: int, b: int, c: int)
    requires a != b && b != c && a != c
    ensures FirstIndex([a, b, c]) == map[a := 0, b := 1, c := 2]
  {
    FirstIndexStep([], a);
    assert [] + [a] == [a] && [a] + [b] == [a, b] && [a, b] + [c] == [a, b, c];
    FirstIndexStep([a], b);
    FirstIndexStep([a, b], c);
  }

  lemma PathEdges(a: int, b: int, c: int)
    requires a != b && b != c && a != c
    ensures EdgeLines(3, map[a := 0, b := 1, c := 2], [Some((a, b)), Some((b, c))]) == Parsed([{1}, {0, 2}, {1}])
  {
    var index := map[a := 0, b := 1, c := 2];
    var ps := [Some((a, b)), Some((b, c))];
    assert ps[..1] == [Some((a, b))] && ps[..1][..0] == [];
    assert EdgeLines(3, index, ps[..1]) == Parsed(WithEdge(NoEdges(3), 0, 1));
    var first := WithEdge(NoEdges(3), 0, 1);
    assert NoEdges(3) == [{}, {}, {}];
    assert first[0] == {1} && first[1] == {0} && first[2] == {};
    assert first == [{1}, {0}, {}];
    var second := WithEdge(first, 1, 2);
    assert second[0] == {1} && second[1] == {0, 2} && second[2] == {1};
    assert second == [{1}, {0, 2}, {1}];
  }

  /** What the lines of the three-node file read as. */
  lemma ThreeNodeIds(a: nat, b: nat, c: nat)
    ensures IdsOf(FirstLine([Words([a, b, c]), Words([a, b]), Words([b, c])])) == [a as int, b as int, c as int]
  {
    IdsOfWords([a, b, c]);
  }

  lemma ThreeNodeEdges(a: nat, b: nat, c: nat)
    ensures EdgeReads([Words([a, b, c]), Words([a, b]), Words([b, c])])
      == [Some((a as int, b as int)), Some((b as int, c as int))]
  {
    var lines := [Words([a, b, c]), Words([a, b]), Words([b, c])];
    ReadPairWords(a, b);
    ReadPairWords(b, c);
    var ps := EdgeReads(lines);
    assert ps[0] == Some((a as int, b as int)) && ps[1] == Some((b as int, c as int));
  }

  /** Three distinct ids become nodes 0, 1 and 2, and the lines joining the
      first two and the last two give the path 0 - 1 - 2 (with ids 10, 20
      and 30, the file `10 20 30`, `10 20`, `20 30`). */
  lemma ThreeNodeExample(a: nat, b: nat, c: nat)
    requires a != b && b != c && a != c
    ensures CographOf([Words([a, b, c]), Words([a, b]), Words([b, c])]) == Parsed([{1}, {0, 2}, {1}])
  {
    ThreeNodeIds(a, b, c);
    ThreeNodeEdges(a, b, c);
    FirstIndexOfThree(a, b, c);
    PathEdges(a, b, c);
  }

  /** A file with a single edge line. */
  lemma OneEdgeLine(n: nat, index: map<int, nat>, p: Cograph.EdgeRead)
    requires forall id :: id in index ==> index[id] < n
    ensures EdgeLines(n, index, [p]) ==
      if Good(index, p) then Parsed(WithEdge(NoEdges(n), index[p.value.0], index[p.value.1])) else Failed(LineError(p))
  {
    assert [p][..0] == [];
  }

  /** An empty edge line does not begin with two numbers. */
  lemma EmptyEdgeLine(ids: seq<nat>)
    ensures CographOf([Words(ids), ""]) == Failed(Format(FromReason(INVALID_INPUT_FORMAT)))
  {
    var lines := [Words(ids), ""];
    var first := IdsOf(FirstLine(lines));
    ReadIntOfSpaces(0);
    assert ReadPair("") == None;
    var ps := EdgeReads(lines);
    assert ps == [None];
    OneEdgeLine(|first|, FirstIndex(first), None);
  }

  /** An edge to an id the first line does not list fails at the lookup. */
  lemma UnknownIdExample(a: nat, b: nat)
    requires a != b
    ensures CographOf([Words([a]), Words([a, b])]) == Failed(OutOfRange)
  {
    var lines := [Words([a]), Words([a, b])];
    IdsOfWords([a]);
    assert IdsOf(FirstLine(lines)) == [a as int];
    assert [a as int][..0] == [];
    assert FirstIndex([a as int]) == map[a as int := 0];
    ReadPairWords(a, b);
    var ps := EdgeReads(lines);
    assert ps == [Some((a as int, b as int))];
    OneEdgeLine(1, map[a as int := 0], Some((a as int, b as int)));
  }

  lemma FirstIndexOfRepeat(a: int, b: int)
    requires a != b
    ensures FirstIndex([a, a, b]) == map[a := 0, b := 2]
  {
    FirstIndexStep([], a);
    assert [] + [a] == [a] && [a] + [a] == [a, a] && [a, a] + [b] == [a, a, b];
    FirstIndexStep([a], a);
    FirstIndexStep([a, a], b);
  }

  lemma DuplicateIdsReads(a: nat, b: nat)
    ensures IdsOf(FirstLine([Words([a, a, b]), Words([a, b])])) == [a as int, a as int, b as int]
    ensures EdgeReads([Words([a, a, b]), Words([a, b])]) == [Some((a as int, b as int))]
  {
    IdsOfWords([a, a, b]);
    ReadPairWords(a, b);
  }

  /** A repeated id still counts as a node, but keeps the index of its first
      occurrence: the second node is left without edges. */
  lemma DuplicateIdsExample(a: nat, b: nat)
    requires a != b
    ensures CographOf([Words([a, a, b]), Words([a, b])]) == Parsed([{2}, {}, {0}])
  {
    DuplicateIdsReads(a, b);
    FirstIndexOfRepeat(a, b);
    OneEdgeLine(3, map[a as int := 0, b as int := 2], Some((a as int, b as int)));
    OuterEdge();
  }

  lemma OuterEdge()
    ensures WithEdge(NoEdges(3), 0, 2) == [{2}, {}, {0}]
  {
    var g := WithEdge(NoEdges(3), 0, 2);
    assert g[0] == {2} && g[1] == {} && g[2] == {0};
  }
}
