/** The test generator: while some leaf-event variable is still uncovered,
    ask the optimizing solver for a model that makes the first uncovered
    variable true and as many of the others as it can, and keep the true
    variables of each model as one test. The solver is a parameter: it
    sees the uncovered variables and the timeout, and answers with an
    outcome. */
module Optimizer {
  import opened Exceptions
  import opened Sets

  /** The largest `unsigned`, the timeout the search starts with. */
  const MaxUnsigned: nat := 0xFFFF_FFFF

  /** What the solver's `check` gives: a model (the set of variables it
      makes true), `unsat`, `unknown` with a model, or an exception with its
      message and, when one can be read, a model. */
  datatype Outcome<V> =
    | Sat(model: set<V>)
    | Unsat
    | Unknown(model: set<V>)
    | Thrown(msg: string, partial: Option<set<V>>)

  /** How `Optimize` ends. `Uncoverable` and `Failed` stop the program in
      the original; `OutOfRounds` is the model's round bound running out. */
  datatype Optimized<V> =
    | Tests(tests: seq<seq<V>>)
    | Uncoverable
    | Failed(msg: string)
    | OutOfRounds(tests: seq<seq<V>>)

  /** The timeout update as written, `optTimeout * 3 / 2` on 32-bit unsigned
      integers: the product wraps around before the division. */
  function NextTimeout(t: nat): (r: nat)
    requires t <= MaxUnsigned
    ensures r <= MaxUnsigned
  {
    ((t * 3) % 0x1_0000_0000) / 2
  }

  /** The first increase of the initial timeout shrinks it to about half. */
  lemma NextTimeoutShrinks()
    ensures NextTimeout(MaxUnsigned) == 2147483646 < MaxUnsigned
    ensures NextTimeout(NextTimeout(MaxUnsigned)) == 1073741821
  {
  }

  /** The intended update: half as much again, capped at the largest value. */
  function GrownTimeout(t: nat): (r: nat)
    requires t <= MaxUnsigned
    ensures t <= r <= MaxUnsigned
    ensures 2 <= t < MaxUnsigned ==> t < r
    ensures t * 3 / 2 <= MaxUnsigned ==> r == t * 3 / 2
  {
    if t * 3 / 2 > MaxUnsigned then MaxUnsigned else t * 3 / 2
  }

  /** The variables of `vars` that `model` makes true, in the order of `vars`. */
  function TrueVars<V>(vars: seq<V>, model: set<V>): (r: seq<V>)
    ensures Members(r) == Members(vars) * model
    decreases |vars|
  {
    if vars == [] then []
    else
      var prefix, last := vars[..|vars| - 1], vars[|vars| - 1];
      var earlier := TrueVars(prefix, model);
      MembersAppend(prefix, last);
      assert vars == prefix + [last];
      MembersAppend(earlier, last);
      assert earlier + [] == earlier;
      earlier + (if last in model then [last] else [])
  }

  /** The first loop of `addTest`: the event variables the model makes
      true, in iteration order. */
  method CollectTrue<V(==)>(eventVars: seq<V>, model: set<V>) returns (test: seq<V>)
    ensures test == TrueVars(eventVars, model)
  {
    test := [];
    for i := 0 to |eventVars|
      invariant test == TrueVars(eventVars[..i], model)
    {
      assert eventVars[..i + 1][..i] == eventVars[..i];
      if eventVars[i] in model {
        test := test + [eventVars[i]];
      }
    }
    assert eventVars[..|eventVars|] == eventVars;
  }

  /** The second loop of `addTest`: erases the test's variables from the
      uncovered ones and counts those it erases. */
  method EraseCovered<V(==)>(test: seq<V>, toCover: set<V>) returns (remaining: set<V>, covered: nat)
    ensures remaining == toCover - Members(test)
    ensures covered == |toCover| - |remaining|
  {
    covered := 0;
    remaining := toCover;
    for j := 0 to |test|
      invariant remaining == toCover - Members(test[..j])
      invariant remaining <= toCover && covered + |remaining| == |toCover|
    {
      EraseStep(test, j, toCover);
      if test[j] in remaining {
        covered := covered + 1;
      }
      remaining := remaining - {test[j]};
    }
    assert test[..|test|] == test;
  }

  lemma EraseStep<V>(test: seq<V>, j: nat, toCover: set<V>)
    requires j < |test|
    ensures toCover - Members(test[..j + 1]) == (toCover - Members(test[..j])) - {test[j]}
  {
    assert test[..j + 1] == test[..j] + [test[j]];
    MembersAppend(test[..j], test[j]);
  }

  /** `addTest`: the model's true event variables become a test when they
      cover some uncovered variable, and are erased from the uncovered ones. */
  method AddTest<V(==)>(eventVars: seq<V>, model: set<V>, toCover: set<V>, tests: seq<seq<V>>)
    returns (remaining: set<V>, extended: seq<seq<V>>, added: bool)
    ensures remaining == toCover - Members(TrueVars(eventVars, model))
    ensures added <==> remaining != toCover
    ensures extended == if added then tests + [TrueVars(eventVars, model)] else tests
  {
    var test := CollectTrue(eventVars, model);
    var covered;
    remaining, covered := EraseCovered(test, toCover);
    if remaining != toCover {
      ProperSubsetSize(remaining, toCover);
    }
    added := covered != 0;
    extended := if added then tests + [test] else tests;
  }

  /** Every variable some test makes true. */
  function Covered<V>(tests: seq<seq<V>>): set<V>
    decreases |tests|
  {
    if tests == [] then {} else Covered(tests[..|tests| - 1]) + Members(tests[|tests| - 1])
  }

  /** A variable is covered exactly when some test contains it. */
  lemma {:induction false} CoveredMembers<V>(tests: seq<seq<V>>, v: V)
    ensures v in Covered(tests) <==> exists i :: 0 <= i < |tests| && v in tests[i]
    decreases |tests|
  {
    if tests != [] {
      var prefix := tests[..|tests| - 1];
      CoveredMembers(prefix, v);
      MembersOf(tests[|tests| - 1], v);
      if v in Covered(prefix) {
        var i :| 0 <= i < |prefix| && v in prefix[i];
        assert v in tests[i];
      }
      if exists i :: 0 <= i < |tests| && v in tests[i] {
        var i :| 0 <= i < |tests| && v in tests[i];
        if i < |prefix| {
          assert v in prefix[i];
        }
      }
    }
  }

  /** What holds between two rounds: the uncovered variables and the
      variables of the tests split the event variables between them, no
      test is empty, and there are no more tests than variables covered. */
  ghost predicate Progress<V>(eventVars: seq<V>, toCover: set<V>, tests: seq<seq<V>>) {
    && Members(eventVars) == toCover + Covered(tests)
    && toCover !! Covered(tests)
    && (forall i :: 0 <= i < |tests| ==> tests[i] != [])
    && |tests| + |toCover| <= |Members(eventVars)|
  }

  /** Moving the variables `found` from the uncovered ones to the covered
      ones keeps the split of `all`. */
  lemma MoveCovered<V>(all: set<V>, toCover: set<V>, covered: set<V>, found: set<V>)
    requires all == toCover + covered && toCover !! covered && found <= all
    ensures all == (toCover - found) + (covered + found)
    ensures (toCover - found) !! (covered + found)
  {
  }

  lemma ProperSubsetSize<V>(s: set<V>, t: set<V>)
    requires s < t
    ensures |s| < |t|
  {
    assert t == s + (t - s);
  }

  /** A new test keeps the split. */
  lemma AddTestProgress<V>(eventVars: seq<V>, model: set<V>, toCover: set<V>, tests: seq<seq<V>>,
                        remaining: set<V>, extended: seq<seq<V>>, added: bool)
    requires Progress(eventVars, toCover, tests)
    requires remaining == toCover - Members(TrueVars(eventVars, model))
    requires added <==> remaining != toCover
    requires extended == if added then tests + [TrueVars(eventVars, model)] else tests
    ensures Progress(eventVars, remaining, extended)
  {
    if added {
      var test := TrueVars(eventVars, model);
      var found := Members(test);
      assert extended[..|extended| - 1] == tests && extended[|tests|] == test;
      assert Covered(extended) == Covered(tests) + found;
      MoveCovered(Members(eventVars), toCover, Covered(tests), found);
      ProperSubsetSize(remaining, toCover);
      assert forall i :: 0 <= i < |tests| ==> extended[i] == tests[i];
    }
  }

  /** A model that makes an uncovered variable true leaves fewer uncovered. */
  lemma ModelCovers<V>(eventVars: seq<V>, toCover: set<V>, model: set<V>)
    requires toCover <= Members(eventVars) && toCover * model != {}
    ensures |toCover - Members(TrueVars(eventVars, model))| < |toCover|
  {
    var v :| v in toCover * model;
    assert toCover - Members(TrueVars(eventVars, model)) < toCover by {
      assert v in Members(TrueVars(eventVars, model));
    }
  }

  /** The solver always finds a model that makes some uncovered variable
      true (the one it was told it must). */
  ghost predicate Decisive<V(!new)>(oracle: (set<V>, nat) -> Outcome<V>) {
    forall toCover: set<V>, timeout: nat :: toCover != {} ==>
      oracle(toCover, timeout).Sat? && toCover * oracle(toCover, timeout).model != {}
  }

  lemma DecisiveAnswer<V(!new)>(oracle: (set<V>, nat) -> Outcome<V>, toCover: set<V>, timeout: nat)
    requires Decisive(oracle) && toCover != {}
    ensures oracle(toCover, timeout).Sat? && toCover * oracle(toCover, timeout).model != {}
  {
  }

  /** The answers `Optimize` reads a model from: `sat`, `unknown`, and a
      `canceled` check whose model can still be read. */
  predicate HasModel<V>(o: Outcome<V>) {
    o.Sat? || o.Unknown? || (o.Thrown? && o.msg == "canceled" && o.partial.Some?)
  }

  function ModelOf<V>(o: Outcome<V>): set<V>
    requires HasModel(o)
  {
    if o.Thrown? then o.partial.value else o.model
  }

  /** One answer of the solver, handled as `Optimize`'s `try` block and its
      `catch` do: `unsat` and exceptions other than `canceled` stop the
      search, a model becomes a test, and the timeout is updated as written
      (`NextTimeout`) after `unknown` and after a `canceled` check that
      brought no new test. */
  method HandleOutcome<V(==)>(eventVars: seq<V>, outcome: Outcome<V>, toCover: set<V>, tests: seq<seq<V>>, optTimeout: nat)
    returns (stop: Option<Optimized<V>>, remaining: set<V>, extended: seq<seq<V>>, timeout: nat)
    requires Progress(eventVars, toCover, tests) && optTimeout <= MaxUnsigned
    ensures stop.None? ==> Progress(eventVars, remaining, extended) && |remaining| <= |toCover|
    ensures stop.Some? ==> stop.value == Uncoverable || stop.value.Failed?
    ensures outcome.Sat? && toCover * outcome.model != {} ==> stop.None? && |remaining| < |toCover|
    ensures outcome.Sat? || outcome.Unsat? || (outcome.Thrown? && outcome.msg != "canceled") ==> timeout == optTimeout
    ensures outcome.Unknown? ==> timeout == NextTimeout(optTimeout)
    ensures outcome.Thrown? && outcome.msg == "canceled" && outcome.partial.None? ==> timeout == NextTimeout(optTimeout)
    ensures outcome.Thrown? && outcome.msg == "canceled" && outcome.partial.Some? ==>
      timeout == if remaining != toCover then optTimeout else NextTimeout(optTimeout)
    ensures timeout <= MaxUnsigned
    ensures HasModel(outcome) ==>
      && stop.None?
      && remaining == toCover - Members(TrueVars(eventVars, ModelOf(outcome)))
      && extended == if remaining != toCover then tests + [TrueVars(eventVars, ModelOf(outcome))] else tests
    ensures outcome.Thrown? && outcome.msg == "canceled" && outcome.partial.None? ==>
      stop.None? && remaining == toCover && extended == tests
    ensures stop.None? ==> remaining <= toCover
    ensures outcome.Unsat? ==> stop == Some(Uncoverable)
    ensures outcome.Thrown? && outcome.msg != "canceled" ==> stop == Some(Failed(outcome.msg))
  {
    var added := false;
    stop, remaining, extended, timeout := None, toCover, tests, optTimeout;
    match outcome
    case Unsat =>
      stop := Some(Uncoverable);
    case Sat(model) =>
      remaining, extended, added := AddTest(eventVars, model, toCover, tests);
      AddTestProgress(eventVars, model, toCover, tests, remaining, extended, added);
      if toCover * model != {} {
        ModelCovers(eventVars, toCover, model);
      }
    case Unknown(model) =>
      timeout := NextTimeout(optTimeout);
      remaining, extended, added := AddTest(eventVars, model, toCover, tests);
      AddTestProgress(eventVars, model, toCover, tests, remaining, extended, added);
    case Thrown(msg, partial) =>
      if msg != "canceled" {
        stop := Some(Failed(msg));
      } else {
        match partial
        case Some(model) =>
          remaining, extended, added := AddTest(eventVars, model, toCover, tests);
          AddTestProgress(eventVars, model, toCover, tests, remaining, extended, added);
          if !added {
            timeout := NextTimeout(optTimeout);
          }
        case None =>
          timeout := NextTimeout(optTimeout);
      }
  }

  /** Test `i` is the true event variables of a model the solver gave when
      asked `asked[i]` (the uncovered variables and the timeout), and those
      uncovered variables are the ones no earlier test covers. */
  ghost predicate Recorded<V>(eventVars: seq<V>, oracle: (set<V>, nat) -> Outcome<V>, tests: seq<seq<V>>,
                              asked: seq<(set<V>, nat)>, models: seq<set<V>>)
  {
    |asked| == |models| == |tests| && forall i :: 0 <= i < |tests| ==> RecordedAt(eventVars, oracle, tests, asked, models, i)
  }

  ghost predicate RecordedAt<V>(eventVars: seq<V>, oracle: (set<V>, nat) -> Outcome<V>, tests: seq<seq<V>>,
                                asked: seq<(set<V>, nat)>, models: seq<set<V>>, i: nat)
    requires i < |tests| && i < |asked| && i < |models|
  {
    && HasModel(oracle(asked[i].0, asked[i].1))
    && models[i] == ModelOf(oracle(asked[i].0, asked[i].1))
    && tests[i] == TrueVars(eventVars, models[i])
    && asked[i].0 == Members(eventVars) - Covered(tests[..i])
  }

  /** The uncovered variables of later questions are among those of earlier
      ones, and the current ones among all of them. */
  ghost predicate Shrinking<V>(asked: seq<(set<V>, nat)>, toCover: set<V>) {
    && (forall i, j :: 0 <= i <= j < |asked| ==> asked[j].0 <= asked[i].0)
    && (forall i :: 0 <= i < |asked| ==> toCover <= asked[i].0)
  }

  lemma ShrinkStep<V>(asked: seq<(set<V>, nat)>, toCover: set<V>, question: (set<V>, nat), remaining: set<V>)
    requires Shrinking(asked, toCover) && question.0 == toCover && remaining <= toCover
    ensures Shrinking(asked + [question], remaining)
  {
  }

  /** `Optimize`: at most `rounds` calls of the solver. Each call must make
      one uncovered variable true and prefers the others. */
  method Optimize<V(==,!new)>(eventVars: seq<V>, oracle: (set<V>, nat) -> Outcome<V>, rounds: nat)
    returns (r: Optimized<V>, ghost asked: seq<(set<V>, nat)>, ghost models: seq<set<V>>)
    ensures r.Tests? ==> Covered(r.tests) == Members(eventVars)
    ensures r.Tests? || r.OutOfRounds? ==>
      Covered(r.tests) <= Members(eventVars)
      && (forall i :: 0 <= i < |r.tests| ==> r.tests[i] != [])
      && |r.tests| <= |Members(eventVars)|
    ensures r.Tests? || r.OutOfRounds? ==> Recorded(eventVars, oracle, r.tests, asked, models)
    ensures r.Tests? || r.OutOfRounds? ==> Shrinking(asked, {})
    ensures Decisive(oracle) && |Members(eventVars)| <= rounds ==> r.Tests?
  {
    var tests: seq<seq<V>> := [];
    var toCover := Members(eventVars);
    var optTimeout: nat := MaxUnsigned;
    var round := 0;
    asked, models := [], [];
    ghost var enough := Decisive(oracle) && |Members(eventVars)| <= rounds;
    while toCover != {}
      invariant Progress(eventVars, toCover, tests)
      invariant Recorded(eventVars, oracle, tests, asked, models)
      invariant Shrinking(asked, toCover)
      invariant round <= rounds && optTimeout <= MaxUnsigned
      invariant enough ==> |toCover| <= rounds - round
      decreases rounds - round
    {
      if round == rounds {
        return OutOfRounds(tests), asked, models;
      }
      round := round + 1;
      var outcome := oracle(toCover, optTimeout);
      if enough {
        DecisiveAnswer(oracle, toCover, optTimeout);
      }
      var stop, remaining, extended, timeout := HandleOutcome(eventVars, outcome, toCover, tests, optTimeout);
      if stop.Some? {
        return stop.value, asked, models;
      }
      if remaining != toCover {
        RecordTest(eventVars, oracle, toCover, tests, asked, models, (toCover, optTimeout), extended);
        ShrinkStep(asked, toCover, (toCover, optTimeout), remaining);
        asked, models := asked + [(toCover, optTimeout)], models + [ModelOf(outcome)];
      }
      toCover, tests, optTimeout := remaining, extended, timeout;
    }
    return Tests(tests), asked, models;
  }

  /** A new test made of the solver's answer to `question` extends the record. */
  lemma RecordTest<V>(eventVars: seq<V>, oracle: (set<V>, nat) -> Outcome<V>, toCover: set<V>, tests: seq<seq<V>>,
                      asked: seq<(set<V>, nat)>, models: seq<set<V>>, question: (set<V>, nat), extended: seq<seq<V>>)
    requires Progress(eventVars, toCover, tests) && Recorded(eventVars, oracle, tests, asked, models)
    requires question.0 == toCover && HasModel(oracle(question.0, question.1))
    requires extended == tests + [TrueVars(eventVars, ModelOf(oracle(question.0, question.1)))]
    ensures Recorded(eventVars, oracle, extended, asked + [question], models + [ModelOf(oracle(question.0, question.1))])
  {
    var asked', models' := asked + [question], models + [ModelOf(oracle(question.0, question.1))];
    forall i | 0 <= i < |extended|
      ensures RecordedAt(eventVars, oracle, extended, asked', models', i)
    {
      if i < |tests| {
        assert RecordedAt(eventVars, oracle, tests, asked, models, i);
        assert extended[..i] == tests[..i];
      } else {
        assert extended[..i] == tests;
      }
    }
  }
}
