/** How the encoding and the variable search fit together: the encoding
    becomes a solver term, and the search over that term finds exactly the
    variables of the leaf events. */
module Pipeline {
  import opened Exceptions
  import opened EsGrammar
  import opened Encoding
  import opened EventVars

  function Constant(name: string): Term {
    App(StringSymbol(name), [])
  }

  /** The solver term of a formula: constants for `true`, `false` and the
      variables, and one application per connective. */
  function ToTerm(f: Formula): Term {
    match f
    case True => Constant("true")
    case False => Constant("false")
    case Var(name) => Constant(name)
    case Not(g) => App(StringSymbol("not"), [ToTerm(g)])
    case And(l, r) => App(StringSymbol("and"), [ToTerm(l), ToTerm(r)])
    case Or(l, r) => App(StringSymbol("or"), [ToTerm(l), ToTerm(r)])
    case Implies(l, r) => App(StringSymbol("=>"), [ToTerm(l), ToTerm(r)])
  }

  /** The variables a formula mentions. */
  function Vars(f: Formula): set<string> {
    match f
    case True => {}
    case False => {}
    case Var(name) => {name}
    case Not(g) => Vars(g)
    case And(l, r) => Vars(l) + Vars(r)
    case Or(l, r) => Vars(l) + Vars(r)
    case Implies(l, r) => Vars(l) + Vars(r)
  }

  /** A node of the term of `f` is an application, and a constant among them
      is `true`, `false` or a variable of `f`. */
  predicate Translated(f: Formula, s: Term) {
    s.App? && (s.args == [] ==> s.decl.StringSymbol? && (s.decl.s in Vars(f) || s.decl.s in ["true", "false"]))
  }

  lemma UnaryNodes(op: string, a: Term)
    ensures Subterms(App(StringSymbol(op), [a])) == {App(StringSymbol(op), [a])} + Subterms(a)
  {
    var t := App(StringSymbol(op), [a]);
    assert [a][1..] == [];
    assert SubtermsOf(t, [a]) == Subterms(a) + SubtermsOf(t, []);
  }

  lemma BinaryNodes(op: string, a: Term, b: Term)
    ensures Subterms(App(StringSymbol(op), [a, b])) == {App(StringSymbol(op), [a, b])} + Subterms(a) + Subterms(b)
  {
    var t := App(StringSymbol(op), [a, b]);
    assert [a, b][1..] == [b] && [b][1..] == [];
    assert SubtermsOf(t, [b]) == Subterms(b) + SubtermsOf(t, []);
    assert SubtermsOf(t, [a, b]) == Subterms(a) + SubtermsOf(t, [b]);
  }

  /** Every node of the term of `f` is an application, its constants come
      from `f`, and every variable of `f` is a constant of the term. */
  lemma {:induction false} TermNodes(f: Formula)
    ensures forall s :: s in Subterms(ToTerm(f)) ==> Translated(f, s)
    ensures forall n :: n in Vars(f) ==> Constant(n) in Subterms(ToTerm(f))
  {
    match f
    case True =>
    case False =>
    case Var(name) =>
    case Not(g) =>
      TermNodes(g);
      UnaryNodes("not", ToTerm(g));
    case And(l, r) =>
      TermNodes(l);
      TermNodes(r);
      BinaryNodes("and", ToTerm(l), ToTerm(r));
    case Or(l, r) =>
      TermNodes(l);
      TermNodes(r);
      BinaryNodes("or", ToTerm(l), ToTerm(r));
    case Implies(l, r) =>
      TermNodes(l);
      TermNodes(r);
      BinaryNodes("=>", ToTerm(l), ToTerm(r));
  }

  /** The event variables of a translated formula are its variables whose
      names start with `el`; the search never meets a refused node. */
  lemma TermEventVars(f: Formula)
    ensures Supported(ToTerm(f))
    ensures EventVarsOf(ToTerm(f)) == set n | n in Vars(f) && IsPrefix("el", n) :: Constant(n)
  {
    TermNodes(f);
    assert "true"[..2] != "el" by { assert "true"[..2][0] == 't'; }
    assert "false"[..2] != "el" by { assert "false"[..2][0] == 'f'; }
  }

  /** Every variable of the disjunction names a conflict. */
  lemma {:induction false} DisjunctionVars(leaves: set<nat>, cs: seq<nat>)
    ensures forall n :: n in Vars(Disjunction(leaves, cs)) ==> exists id :: n == VarName(leaves, id)
    decreases |cs|
  {
    if cs != [] {
      var last := VarName(leaves, cs[|cs| - 1]);
      DisjunctionVars(leaves, cs[..|cs| - 1]);
      assert Vars(Disjunction(leaves, cs)) == Vars(Disjunction(leaves, cs[..|cs| - 1])) + {last};
    }
  }

  lemma {:induction false} PredClausesVars(acc: Formula, v: Formula, leaves: set<nat>, ps: seq<nat>)
    ensures Vars(acc) <= Vars(PredClauses(acc, v, leaves, ps))
    ensures forall n :: n in Vars(PredClauses(acc, v, leaves, ps)) ==>
      n in Vars(acc) || n in Vars(v) || exists id :: n == VarName(leaves, id)
    decreases |ps|
  {
    if ps != [] {
      var last := VarName(leaves, ps[|ps| - 1]);
      var earlier := PredClauses(acc, v, leaves, ps[..|ps| - 1]);
      PredClausesVars(acc, v, leaves, ps[..|ps| - 1]);
      assert Vars(PredClauses(acc, v, leaves, ps)) == Vars(earlier) + Vars(Implies(v, Var(last)));
      assert Vars(Implies(v, Var(last))) == Vars(v) + {last};
    }
  }

  /** The clauses of one event mention its variable, and otherwise only
      what `acc` mentions and variables of ids. */
  lemma EventClausesVars(acc: Formula, leaves: set<nat>, e: Event)
    ensures Vars(acc) + {VarName(leaves, e.id)} <= Vars(EventClauses(acc, leaves, e))
    ensures forall n :: n in Vars(EventClauses(acc, leaves, e)) ==>
      n in Vars(acc) || exists id :: n == VarName(leaves, id)
  {
    var name := VarName(leaves, e.id);
    var v := Var(name);
    var guarded := And(acc, Or(v, Not(v)));
    var conflicts := Disjunction(leaves, e.conflicts);
    PredClausesVars(guarded, v, leaves, e.predecessors);
    DisjunctionVars(leaves, e.conflicts);
    assert Vars(v) == {name};
    assert Vars(Not(v)) == {name};
    assert Vars(Or(v, Not(v))) == {name};
    assert Vars(guarded) == Vars(acc) + {name};
    assert Vars(Not(conflicts)) == Vars(conflicts);
    assert Vars(Implies(v, Not(conflicts))) == {name} + Vars(conflicts);
    assert Vars(EventClauses(acc, leaves, e)) ==
      Vars(PredClauses(guarded, v, leaves, e.predecessors)) + Vars(Implies(v, Not(conflicts)));
  }

  /** Every event of `events` has its variable in the clauses, and every
      variable of the clauses is the variable of some id. */
  lemma {:induction false} ClausesVars(leaves: set<nat>, events: seq<Event>)
    ensures forall i :: 0 <= i < |events| ==> VarName(leaves, events[i].id) in Vars(Clauses(leaves, events))
    ensures forall n :: n in Vars(Clauses(leaves, events)) ==> exists id :: n == VarName(leaves, id)
    decreases |events|
  {
    if events != [] {
      var prefix := events[..|events| - 1];
      ClausesVars(leaves, prefix);
      EventClausesVars(Clauses(leaves, prefix), leaves, events[|events| - 1]);
      assert forall i :: 0 <= i < |prefix| ==> events[i] == prefix[i];
    }
  }

  /** The variables the search finds in the encoding of `events` are
      exactly the `el` variables of the leaf events, and the search succeeds. */
  lemma EncodedEventVars(events: seq<Event>)
    ensures Supported(ToTerm(EncodingOf(events)))
    ensures EventVarsOf(ToTerm(EncodingOf(events))) ==
      set id | id in LeafIds(events) :: Constant(VarName(LeafIds(events), id))
  {
    var leaves := LeafIds(events);
    var f := EncodingOf(events);
    TermEventVars(f);
    ClausesVars(leaves, events);
    var found := set n | n in Vars(f) && IsPrefix("el", n) :: Constant(n);
    var expected := set id | id in leaves :: Constant(VarName(leaves, id));
    forall s | s in found
      ensures s in expected
    {
      var n :| n in Vars(f) && IsPrefix("el", n) && s == Constant(n);
      var id :| n == VarName(leaves, id);
      VarNameMarksLeaves(leaves, id);
    }
    forall s | s in expected
      ensures s in found
    {
      var id :| id in leaves && s == Constant(VarName(leaves, id));
      IdsMembers(events, id);
      var i :| 0 <= i < |events| && events[i].id == id;
      VarNameMarksLeaves(leaves, id);
    }
  }
}
