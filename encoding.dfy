/** The propositional encoding of an event structure: one Boolean variable
    per event, named `el<id>` for a leaf (an event that is nobody's
    predecessor) and `e<id>` otherwise, and a conjunction saying that an
    event needs all its predecessors and none of its conflicts. */
module Encoding {
  import opened Numbers
  import opened Exceptions
  import opened Sets
  import opened EsGrammar

  /** The Boolean terms the encoding is built from. */
  datatype Formula =
    | True
    | False
    | Var(name: string)
    | Not(f: Formula)
    | And(l: Formula, r: Formula)
    | Or(l: Formula, r: Formula)
    | Implies(l: Formula, r: Formula)

  /** The value of `f` when exactly the variables in `trueVars` are true. */
  function Eval(f: Formula, trueVars: set<string>): bool {
    match f
    case True => true
    case False => false
    case Var(name) => name in trueVars
    case Not(g) => !Eval(g, trueVars)
    case And(l, r) => Eval(l, trueVars) && Eval(r, trueVars)
    case Or(l, r) => Eval(l, trueVars) || Eval(r, trueVars)
    case Implies(l, r) => Eval(l, trueVars) ==> Eval(r, trueVars)
  }

  /** The ids of `events`. */
  function Ids(events: seq<Event>): set<nat>
    decreases |events|
  {
    if events == [] then {} else Ids(events[..|events| - 1]) + {events[|events| - 1].id}
  }

  /** Every id that occurs in some predecessor list of `events`. */
  function PredecessorIds(events: seq<Event>): set<nat>
    decreases |events|
  {
    if events == [] then {}
    else PredecessorIds(events[..|events| - 1]) + Members(events[|events| - 1].predecessors)
  }

  /** The leaves: ids of events that are no event's predecessor. */
  function LeafIds(events: seq<Event>): set<nat> {
    Ids(events) - PredecessorIds(events)
  }

  lemma {:induction false} IdsMembers(events: seq<Event>, id: nat)
    ensures id in Ids(events) <==> exists i :: 0 <= i < |events| && events[i].id == id
    decreases |events|
  {
    if events != [] {
      var prefix := events[..|events| - 1];
      IdsMembers(prefix, id);
      if id in Ids(prefix) {
        var i :| 0 <= i < |prefix| && prefix[i].id == id;
        assert events[i].id == id;
      }
      if exists i :: 0 <= i < |events| && events[i].id == id {
        var i :| 0 <= i < |events| && events[i].id == id;
        if i < |prefix| {
          assert prefix[i].id == id;
        }
      }
    }
  }

  lemma {:induction false} PredecessorIdsMembers(events: seq<Event>, id: nat)
    ensures id in PredecessorIds(events) <==> exists i :: 0 <= i < |events| && id in events[i].predecessors
    decreases |events|
  {
    if events != [] {
      var prefix := events[..|events| - 1];
      PredecessorIdsMembers(prefix, id);
      MembersOf(events[|events| - 1].predecessors, id);
      if id in PredecessorIds(prefix) {
        var i :| 0 <= i < |prefix| && id in prefix[i].predecessors;
        assert id in events[i].predecessors;
      }
      if exists i :: 0 <= i < |events| && id in events[i].predecessors {
        var i :| 0 <= i < |events| && id in events[i].predecessors;
        if i < |prefix| {
          assert id in prefix[i].predecessors;
        }
      }
    }
  }

  /** An id is a leaf exactly when some event has it and no event lists it
      as a predecessor. */
  lemma LeafIdsMembers(events: seq<Event>, id: nat)
    ensures id in LeafIds(events) <==>
      (exists i :: 0 <= i < |events| && events[i].id == id) &&
      !(exists i :: 0 <= i < |events| && id in events[i].predecessors)
  {
    IdsMembers(events, id);
    PredecessorIdsMembers(events, id);
  }

  /** The variable of event `id`: `el<id>` for a leaf, `e<id>` otherwise. */
  function VarName(leaves: set<nat>, id: nat): string {
    (if id in leaves then "el" else "e") + NatToString(id)
  }

  /** The second character of a variable tells leaves from other events:
      it is `l` only for a leaf, since a numeral starts with a digit. */
  lemma VarNameMark(leaves: set<nat>, id: nat)
    ensures |VarName(leaves, id)| >= 2
    ensures VarName(leaves, id)[1] == 'l' <==> id in leaves
  {
    var s := NatToString(id);
    assert IsDigit(s[0]);
    if id !in leaves {
      assert VarName(leaves, id)[1] == s[0];
    }
  }

  /** The same id always gives the same variable, and different ids give
      different variables. */
  lemma VarNameInjective(leaves: set<nat>, a: nat, b: nat)
    ensures VarName(leaves, a) == VarName(leaves, b) <==> a == b
  {
    VarNameMark(leaves, a);
    VarNameMark(leaves, b);
    if VarName(leaves, a) == VarName(leaves, b) {
      var sa, sb := NatToString(a), NatToString(b);
      if a in leaves {
        assert sa == VarName(leaves, a)[2..] && sb == VarName(leaves, b)[2..];
      } else {
        assert sa == VarName(leaves, a)[1..] && sb == VarName(leaves, b)[1..];
      }
      NatToStringInjective(a, b);
    }
  }

  /** A variable name starts with `el` exactly when its id is a leaf. */
  lemma VarNameMarksLeaves(leaves: set<nat>, id: nat)
    ensures IsPrefix("el", VarName(leaves, id)) <==> id in leaves
  {
    VarNameMark(leaves, id);
  }

  /** `false || v(c1) || v(c2) ...` for the conflicts `cs`, built from the left. */
  function Disjunction(leaves: set<nat>, cs: seq<nat>): Formula
    decreases |cs|
  {
    if cs == [] then False
    else Or(Disjunction(leaves, cs[..|cs| - 1]), Var(VarName(leaves, cs[|cs| - 1])))
  }

  /** `acc && (v => v(p1)) && (v => v(p2)) ...` for the predecessors `ps`. */
  function PredClauses(acc: Formula, v: Formula, leaves: set<nat>, ps: seq<nat>): Formula
    decreases |ps|
  {
    if ps == [] then acc
    else And(PredClauses(acc, v, leaves, ps[..|ps| - 1]), Implies(v, Var(VarName(leaves, ps[|ps| - 1]))))
  }

  /** The clauses of one event, appended to `acc`. */
  function EventClauses(acc: Formula, leaves: set<nat>, e: Event): Formula {
    var v := Var(VarName(leaves, e.id));
    And(PredClauses(And(acc, Or(v, Not(v))), v, leaves, e.predecessors),
        Implies(v, Not(Disjunction(leaves, e.conflicts))))
  }

  /** The clauses of all `events`, in order, after `true`. */
  function Clauses(leaves: set<nat>, events: seq<Event>): Formula
    decreases |events|
  {
    if events == [] then True
    else EventClauses(Clauses(leaves, events[..|events| - 1]), leaves, events[|events| - 1])
  }

  /** The formula `EncodeEvents` builds. */
  function EncodingOf(events: seq<Event>): Formula {
    Clauses(LeafIds(events), events)
  }

  /** What the clauses of event `e` demand of an assignment: if the event's
      variable is true, so are its predecessors' and none of its conflicts'. */
  predicate Respected(leaves: set<nat>, e: Event, trueVars: set<string>) {
    VarName(leaves, e.id) in trueVars ==>
      AllTrue(leaves, e.predecessors, trueVars) && !SomeTrue(leaves, e.conflicts, trueVars)
  }

  predicate AllTrue(leaves: set<nat>, ids: seq<nat>, trueVars: set<string>) {
    forall i :: 0 <= i < |ids| ==> VarName(leaves, ids[i]) in trueVars
  }

  predicate SomeTrue(leaves: set<nat>, ids: seq<nat>, trueVars: set<string>) {
    exists i :: 0 <= i < |ids| && VarName(leaves, ids[i]) in trueVars
  }

  /** The conflict disjunction is true exactly when some conflict is. */
  lemma {:induction false} DisjunctionMeaning(leaves: set<nat>, cs: seq<nat>, trueVars: set<string>)
    ensures Eval(Disjunction(leaves, cs), trueVars) <==> SomeTrue(leaves, cs, trueVars)
    decreases |cs|
  {
    if cs != [] {
      var prefix := cs[..|cs| - 1];
      DisjunctionMeaning(leaves, prefix, trueVars);
      assert forall i :: 0 <= i < |prefix| ==> prefix[i] == cs[i];
      assert Eval(Var(VarName(leaves, cs[|cs| - 1])), trueVars) == (VarName(leaves, cs[|cs| - 1]) in trueVars);
    }
  }

  lemma {:induction false} PredClausesMeaning(acc: Formula, v: Formula, leaves: set<nat>, ps: seq<nat>, trueVars: set<string>)
    ensures Eval(PredClauses(acc, v, leaves, ps), trueVars) <==>
      Eval(acc, trueVars) && (Eval(v, trueVars) ==> AllTrue(leaves, ps, trueVars))
    decreases |ps|
  {
    if ps != [] {
      var prefix := ps[..|ps| - 1];
      var last := VarName(leaves, ps[|ps| - 1]);
      var earlier := PredClauses(acc, v, leaves, prefix);
      PredClausesMeaning(acc, v, leaves, prefix, trueVars);
      assert PredClauses(acc, v, leaves, ps) == And(earlier, Implies(v, Var(last)));
      assert Eval(Implies(v, Var(last)), trueVars) == (Eval(v, trueVars) ==> last in trueVars);
      assert AllTrue(leaves, ps, trueVars) == (AllTrue(leaves, prefix, trueVars) && last in trueVars) by {
        assert forall i :: 0 <= i < |prefix| ==> prefix[i] == ps[i];
      }
    }
  }

  lemma EventClausesMeaning(acc: Formula, leaves: set<nat>, e: Event, trueVars: set<string>)
    ensures Eval(EventClauses(acc, leaves, e), trueVars) <==> Eval(acc, trueVars) && Respected(leaves, e, trueVars)
  {
    var v := Var(VarName(leaves, e.id));
    var guarded := And(acc, Or(v, Not(v)));
    var conflicts := Disjunction(leaves, e.conflicts);
    PredClausesMeaning(guarded, v, leaves, e.predecessors, trueVars);
    DisjunctionMeaning(leaves, e.conflicts, trueVars);
    assert EventClauses(acc, leaves, e) == And(PredClauses(guarded, v, leaves, e.predecessors), Implies(v, Not(conflicts)));
    assert Eval(v, trueVars) == (VarName(leaves, e.id) in trueVars);
    assert Eval(Not(v), trueVars) == !Eval(v, trueVars);
    assert Eval(Or(v, Not(v)), trueVars);
    assert Eval(guarded, trueVars) == Eval(acc, trueVars);
    assert Eval(Implies(v, Not(conflicts)), trueVars) == (Eval(v, trueVars) ==> !Eval(conflicts, trueVars));
  }

  lemma {:induction false} ClausesMeaning(leaves: set<nat>, events: seq<Event>, trueVars: set<string>)
    ensures Eval(Clauses(leaves, events), trueVars) <==>
      forall i :: 0 <= i < |events| ==> Respected(leaves, events[i], trueVars)
    decreases |events|
  {
    if events != [] {
      var prefix := events[..|events| - 1];
      ClausesMeaning(leaves, prefix, trueVars);
      EventClausesMeaning(Clauses(leaves, prefix), leaves, events[|events| - 1], trueVars);
      assert forall i :: 0 <= i < |prefix| ==> prefix[i] == events[i];
    }
  }

  /** The meaning of the encoding: an assignment satisfies it exactly when
      every event whose variable is true has all its predecessors' variables
      true and none of its conflicts' variables true. */
  lemma EncodingMeaning(events: seq<Event>, trueVars: set<string>)
    ensures Eval(EncodingOf(events), trueVars) <==>
      forall i :: 0 <= i < |events| ==> Respected(LeafIds(events), events[i], trueVars)
  {
    ClausesMeaning(LeafIds(events), events, trueVars);
  }

  /** `leafEvents`: the ids of `events`, then every predecessor id erased. */
  method LeafEvents(events: seq<Event>) returns (leaves: set<nat>)
    ensures leaves == LeafIds(events)
  {
    leaves := {};
    for i := 0 to |events|
      invariant leaves == Ids(events[..i])
    {
      assert events[..i + 1][..i] == events[..i];
      leaves := leaves + {events[i].id};
    }
    assert events[..|events|] == events;
    ghost var ids := leaves;
    for i := 0 to |events|
      invariant leaves == ids - PredecessorIds(events[..i])
    {
      var preds := events[i].predecessors;
      ghost var before := leaves;
      for j := 0 to |preds|
        invariant leaves == before - Members(preds[..j])
      {
        assert preds[..j + 1] == preds[..j] + [preds[j]];
        MembersAppend(preds[..j], preds[j]);
        leaves := leaves - {preds[j]};
      }
      assert preds[..|preds|] == preds;
      assert events[..i + 1][..i] == events[..i];
    }
  }

  /** `EncodeEvents`: the conjunction, built clause by clause in the order
      of the events, their predecessors and their conflicts. */
  method EncodeEvents(events: seq<Event>) returns (encoding: Formula)
    ensures encoding == EncodingOf(events)
  {
    var leaves := LeafEvents(events);
    encoding := True;
    for i := 0 to |events|
      invariant encoding == Clauses(leaves, events[..i])
    {
      assert events[..i + 1][..i] == events[..i];
      encoding := EncodeEvent(encoding, leaves, events[i]);
    }
    assert events[..|events|] == events;
  }

  /** The body of `EncodeEvents`' loop: the clauses of one event. */
  method EncodeEvent(acc: Formula, leaves: set<nat>, event: Event) returns (encoding: Formula)
    ensures encoding == EventClauses(acc, leaves, event)
  {
    var v := Var(VarName(leaves, event.id));
    encoding := And(acc, Or(v, Not(v)));
    encoding := AddPredClauses(encoding, v, leaves, event.predecessors);
    var conflictSet := ConflictDisjunction(leaves, event.conflicts);
    encoding := And(encoding, Implies(v, Not(conflictSet)));
  }

  /** The loop over the predecessors: one implication each. */
  method AddPredClauses(base: Formula, v: Formula, leaves: set<nat>, predecessors: seq<nat>) returns (encoding: Formula)
    ensures encoding == PredClauses(base, v, leaves, predecessors)
  {
    encoding := base;
    for j := 0 to |predecessors|
      invariant encoding == PredClauses(base, v, leaves, predecessors[..j])
    {
      assert predecessors[..j + 1][..j] == predecessors[..j];
      encoding := And(encoding, Implies(v, Var(VarName(leaves, predecessors[j]))));
    }
    assert predecessors[..|predecessors|] == predecessors;
  }

  /** The loop over the conflicts: their disjunction, starting from `false`. */
  method ConflictDisjunction(leaves: set<nat>, conflicts: seq<nat>) returns (conflictSet: Formula)
    ensures conflictSet == Disjunction(leaves, conflicts)
  {
    conflictSet := False;
    for j := 0 to |conflicts|
      invariant conflictSet == Disjunction(leaves, conflicts[..j])
    {
      assert conflicts[..j + 1][..j] == conflicts[..j];
      conflictSet := Or(conflictSet, Var(VarName(leaves, conflicts[j])));
    }
    assert conflicts[..|conflicts|] == conflicts;
  }
}
