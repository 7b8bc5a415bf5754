/** The elements of a sequence, as a set. */
module Sets {
  /** The elements of `s`, as a set. */
  function Members<V>(s: seq<V>): set<V>
    decreases |s|
  {
    if s == [] then {} else Members(s[..|s| - 1]) + {s[|s| - 1]}
  }

  lemma {:induction false} MembersOf<V>(s: seq<V>, v: V)
    ensures v in Members(s) <==> v in s
    decreases |s|
  {
    if s != [] {
      MembersOf(s[..|s| - 1], v);
      assert s == s[..|s| - 1] + [s[|s| - 1]];
    }
  }

  lemma MembersAppend<V>(s: seq<V>, x: V)
    ensures Members(s + [x]) == Members(s) + {x}
  {
    assert (s + [x])[..|s|] == s;
  }
}
