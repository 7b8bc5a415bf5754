/** The search for the leaf-event variables of a solver term: a breadth-first
    walk over its subterms that collects every constant whose name starts
    with `el`, and gives up on a node that is neither an application nor a
    quantifier. */
module EventVars {
  import opened Exceptions

  /** The name of a declaration: a string or an integer symbol. */
  datatype Symbol = StringSymbol(s: string) | IntSymbol(n: int)

  /** A solver term. A constant is an application with no arguments; a
      bound variable is the kind of node the search does not support. */
  datatype Term =
    | App(decl: Symbol, args: seq<Term>)
    | Quantifier(body: Term)
    | BoundVar(index: nat)

  /** The nodes the search pushes after visiting `t`. */
  function Children(t: Term): seq<Term> {
    match t
    case App(_, args) => args
    case Quantifier(body) => [body]
    case BoundVar(_) => []
  }

  /** `t` and everything below it. */
  function Subterms(t: Term): set<Term>
    decreases t, 1
  {
    {t} + SubtermsOf(t, Children(t))
  }

  /** The subterms of the children `ts` of `parent`. */
  function SubtermsOf(parent: Term, ts: seq<Term>): set<Term>
    requires forall i :: 0 <= i < |ts| ==> ts[i] < parent
    decreases parent, 0, |ts|
  {
    if ts == [] then {} else Subterms(ts[0]) + SubtermsOf(parent, ts[1..])
  }

  predicate IsEventVar(t: Term) {
    t.App? && t.args == [] && t.decl.StringSymbol? && IsPrefix("el", t.decl.s)
  }

  /** The leaf-event variables of `t`. */
  function EventVarsOf(t: Term): set<Term> {
    set s | s in Subterms(t) && IsEventVar(s)
  }

  /** No subterm of `t` is a node the search refuses. */
  predicate Supported(t: Term) {
    forall s :: s in Subterms(t) ==> !s.BoundVar?
  }

  /** The outcome of `GetEventVars`: the variables, or the node that made
      the program stop. */
  datatype Search = Found(vars: set<Term>) | Unsupported(node: Term)

  /** Every child of a node of `seen` is in `seen`. */
  predicate Closed(seen: set<Term>) {
    forall s :: s in seen ==> forall i :: 0 <= i < |Children(s)| ==> Children(s)[i] in seen
  }

  lemma {:induction false} SubtermsOfMembers(parent: Term, ts: seq<Term>, i: nat)
    requires forall j :: 0 <= j < |ts| ==> ts[j] < parent
    requires i < |ts|
    ensures Subterms(ts[i]) <= SubtermsOf(parent, ts)
    decreases |ts|
  {
    if i > 0 {
      SubtermsOfMembers(parent, ts[1..], i - 1);
    }
  }

  /** The children of a subterm are subterms. */
  lemma {:induction false} ChildrenAreSubterms(t: Term, s: Term, i: nat)
    requires s in Subterms(t)
    requires i < |Children(s)|
    ensures Children(s)[i] in Subterms(t)
    decreases t, 1
  {
    if s == t {
      SubtermsOfMembers(t, Children(t), i);
    } else {
      var j := InChild(t, Children(t), s);
      ChildrenAreSubterms(Children(t)[j], s, i);
      SubtermsOfMembers(t, Children(t), j);
    }
  }

  /** A proper subterm lies below one of the children. */
  lemma {:induction false} InChild(parent: Term, ts: seq<Term>, s: Term) returns (j: nat)
    requires forall k :: 0 <= k < |ts| ==> ts[k] < parent
    requires s in SubtermsOf(parent, ts)
    ensures j < |ts| && s in Subterms(ts[j])
    decreases |ts|
  {
    if s in Subterms(ts[0]) {
      j := 0;
    } else {
      j := InChild(parent, ts[1..], s);
      j := j + 1;
    }
  }

  /** A set that holds `t` and is closed under children holds every
      subterm of `t`. */
  lemma {:induction false} ClosedHoldsSubterms(t: Term, seen: set<Term>)
    requires t in seen && Closed(seen)
    ensures Subterms(t) <= seen
    decreases t, 1
  {
    ClosedHoldsSubtermsOf(t, Children(t), seen);
  }

  lemma {:induction false} ClosedHoldsSubtermsOf(parent: Term, ts: seq<Term>, seen: set<Term>)
    requires forall k :: 0 <= k < |ts| ==> ts[k] < parent && ts[k] in seen
    requires Closed(seen)
    ensures SubtermsOf(parent, ts) <= seen
    decreases parent, 0, |ts|
  {
    if ts != [] {
      ClosedHoldsSubterms(ts[0], seen);
      ClosedHoldsSubtermsOf(parent, ts[1..], seen);
    }
  }

  /** What the search keeps true between two nodes: it has visited only
      subterms of `term`, none of them refused, and every child of a visited
      node is visited or waiting; `term` itself is one or the other. */
  ghost predicate Frontier(term: Term, seen: set<Term>, work: seq<Term>) {
    && seen <= Subterms(term)
    && (forall k :: 0 <= k < |work| ==> work[k] in Subterms(term))
    && (term in seen || term in work)
    && (forall s :: s in seen ==> !s.BoundVar?)
    && (forall s :: s in seen ==>
          forall i :: 0 <= i < |Children(s)| ==> Children(s)[i] in seen || Children(s)[i] in work)
  }

  /** The event variables among the nodes `seen`. */
  function EventVarsIn(seen: set<Term>): set<Term> {
    set s | s in seen && IsEventVar(s)
  }

  lemma SkipSeen(term: Term, seen: set<Term>, work: seq<Term>)
    requires Frontier(term, seen, work) && work != [] && work[0] in seen
    ensures Frontier(term, seen, work[1..])
  {
    forall s | s in seen
      ensures forall i :: 0 <= i < |Children(s)| ==> Children(s)[i] in seen || Children(s)[i] in work[1..]
    {
      forall i | 0 <= i < |Children(s)|
        ensures Children(s)[i] in seen || Children(s)[i] in work[1..]
      {
        var c := Children(s)[i];
        if c !in seen {
          var k :| 0 <= k < |work| && work[k] == c;
          assert work[1..][k - 1] == c;
        }
      }
    }
    if term !in seen {
      var k :| 0 <= k < |work| && work[k] == term;
      assert work[1..][k - 1] == term;
    }
  }

  /** Visiting the node at the head of the queue keeps the search's
      invariant, shrinks what is left to visit, and adds the node to the
      variables found exactly when it is an event variable. */
  lemma Visit(term: Term, seen: set<Term>, work: seq<Term>)
    requires Frontier(term, seen, work) && work != [] && work[0] !in seen && !work[0].BoundVar?
    ensures Frontier(term, seen + {work[0]}, work[1..] + Children(work[0]))
    ensures |Subterms(term) - (seen + {work[0]})| < |Subterms(term) - seen|
    ensures EventVarsIn(seen + {work[0]}) == EventVarsIn(seen) + (if IsEventVar(work[0]) then {work[0]} else {})
  {
    var current, later := work[0], work[1..] + Children(work[0]);
    VisitQueue(term, work);
    VisitClosure(seen, work);
    VisitCounts(term, seen, current);
    if term !in seen + {current} {
      var k :| 0 <= k < |work| && work[k] == term;
      assert later[k - 1] == term;
    }
  }

  lemma VisitCounts(term: Term, seen: set<Term>, current: Term)
    requires seen <= Subterms(term) && current in Subterms(term) && current !in seen
    ensures |Subterms(term) - (seen + {current})| < |Subterms(term) - seen|
    ensures EventVarsIn(seen + {current}) == EventVarsIn(seen) + (if IsEventVar(current) then {current} else {})
  {
    assert Subterms(term) - (seen + {current}) < Subterms(term) - seen;
  }

  /** The queue after a visit holds only subterms. */
  lemma VisitQueue(term: Term, work: seq<Term>)
    requires work != [] && forall k :: 0 <= k < |work| ==> work[k] in Subterms(term)
    ensures forall k :: 0 <= k < |work| - 1 + |Children(work[0])| ==>
      (work[1..] + Children(work[0]))[k] in Subterms(term)
  {
    var current, later := work[0], work[1..] + Children(work[0]);
    forall k | 0 <= k < |later|
      ensures later[k] in Subterms(term)
    {
      if k >= |work| - 1 {
        ChildrenAreSubterms(term, current, k - (|work| - 1));
      } else {
        assert later[k] == work[k + 1];
      }
    }
  }

  /** After a visit, every child of a visited node is still visited or waiting. */
  lemma VisitClosure(seen: set<Term>, work: seq<Term>)
    requires work != []
    requires forall s :: s in seen ==>
      forall i :: 0 <= i < |Children(s)| ==> Children(s)[i] in seen || Children(s)[i] in work
    ensures forall s :: s in seen + {work[0]} ==>
      forall i :: 0 <= i < |Children(s)| ==>
        Children(s)[i] in seen + {work[0]} || Children(s)[i] in work[1..] + Children(work[0])
  {
    var current, later := work[0], work[1..] + Children(work[0]);
    forall s, i | s in seen + {current} && 0 <= i < |Children(s)|
      ensures Children(s)[i] in seen + {current} || Children(s)[i] in later
    {
      var c := Children(s)[i];
      if s == current {
        assert later[|work| - 1 + i] == c;
      } else if c !in seen + {current} {
        var k :| 0 <= k < |work| && work[k] == c;
        assert later[k - 1] == c;
      }
    }
  }

  /** When the queue runs out, the search has visited every subterm. */
  lemma Finished(term: Term, seen: set<Term>)
    requires Frontier(term, seen, [])
    ensures Supported(term)
    ensures EventVarsIn(seen) == EventVarsOf(term)
  {
    ClosedHoldsSubterms(term, seen);
  }

  /** A refused node that the search reaches is a subterm. */
  lemma Refused(term: Term, seen: set<Term>, work: seq<Term>)
    requires Frontier(term, seen, work) && work != [] && work[0].BoundVar?
    ensures work[0] in Subterms(term) && !Supported(term)
  {
  }

  /** `GetEventVars`: a queue of nodes to visit and the set of nodes visited. */
  method GetEventVars(term: Term) returns (r: Search)
    ensures r.Found? <==> Supported(term)
    ensures r.Found? ==> r.vars == EventVarsOf(term)
    ensures r.Unsupported? ==> r.node in Subterms(term) && r.node.BoundVar?
  {
    var vars: set<Term> := {};
    var seen: set<Term> := {};
    var work: seq<Term> := [term];
    while work != []
      invariant Frontier(term, seen, work)
      invariant vars == EventVarsIn(seen)
      decreases |Subterms(term) - seen|, |work|
    {
      var current := work[0];
      ghost var before, queued := seen, work;
      work := work[1..];
      if current in seen {
        SkipSeen(term, seen, queued);
        continue;
      }
      seen := seen + {current};
      ghost var next := work + Children(current);
      if !current.BoundVar? {
        Visit(term, before, queued);
      }

      if current.App? && current.args == [] {
        if current.decl.StringSymbol? && IsPrefix("el", current.decl.s) {
          vars := vars + {current};
        }
      } else if current.App? {
        work := work + current.args;
      } else if current.Quantifier? {
        work := work + [current.body];
      } else {
        Refused(term, before, queued);
        return Unsupported(current);
      }
      assert work == next;
    }
    Finished(term, seen);
    return Found(vars);
  }
}
