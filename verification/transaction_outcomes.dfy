/** What Transaction of gorm/finisher_api.go returns, and all or nothing: user code that passes on
    every error leaves all its writes behind or none. */
module TransactionOutcomes {
  import opened Options
  import opened Transactions

  // ---------------------------------------------------------------- one call

  /** A nested call whose savepoint is refused returns an error and runs nothing; any other returns
      what its function returned, whether or not it was rolled back. */
  lemma NestedReturns(n: Step, failed: bool, cfg: Config)
    requires n.Nested?
    ensures var e := NestedEffect(n, failed, cfg);
            if !cfg.disableNestedTransaction && (failed || !n.begins) then
              e.outcome == Err && e.writes == [] && e.saves == []
            else
              e.outcome == BlockEffect(n.body, true, failed, cfg).outcome
    ensures NestedEffect(n, failed, cfg).outcome.Nil? <==>
            && (cfg.disableNestedTransaction || (!failed && n.begins))
            && BlockEffect(n.body, true, failed, cfg).outcome.Nil?
  {
  }

  /** A top-level call returns its function's error or panic, or an error if it could not begin or
      commit or a nested call of it was refused. */
  lemma RootReturns(n: Step, cfg: Config)
    requires n.Nested?
    ensures var e := BlockEffect(n.body, true, false, cfg);
            RootEffect(n, cfg).outcome ==
            if n.begins && !e.outcome.Nil? then e.outcome
            else if n.begins && n.commits && !e.failed then Nil
            else Err
    ensures RootEffect(n, cfg).saves == []
    ensures forall failed :: TransactionEffect(n, false, failed, cfg) == RootEffect(n, cfg)
    ensures forall failed :: TransactionEffect(n, true, failed, cfg) == NestedEffect(n, failed, cfg)
  {
  }

  /** User code ends with what it returns in the end, unless one of its nested calls made it stop
      before: then it is the last one made, and its error or panic is passed on. */
  lemma {:induction false} EndsOrStops(steps: seq<Step>, end: Outcome, failed: bool, cfg: Config)
    ensures var made := Made(steps, failed, cfg); var outcome := StepsEffect(steps, end, true, failed, cfg).outcome;
            || (made == steps && outcome == end)
            || (made != [] && made[|made| - 1].Nested? && Stops(made[|made| - 1], outcome))
  {
    if steps != [] {
      var first, rest := steps[0], steps[1..];
      if first.Operation? {
        EndsOrStops(rest, end, failed, cfg);
        assert [first] + rest == steps;
      } else {
        var e := NestedEffect(first, failed, cfg);
        if !Stops(first, e.outcome) {
          EndsOrStops(rest, end, e.failed, cfg);
          assert [first] + rest == steps;
        }
      }
    }
  }

  /** Its caller stops exactly for an error it returns and a panic it does not recover from. */
  lemma StopsIff(n: Step, outcome: Outcome)
    requires n.Nested?
    ensures Stops(n, outcome) <==>
            match outcome case Nil => false case Err => n.returnsError case Panicked => !n.recovers
  {
  }

  // ---------------------------------------------------------------- one operation

  /** An operation leaves its write behind exactly if it succeeded on a DB without an error, and,
      outside a transaction, its own was begun and committed or is switched off. */
  lemma OperationLasts(op: Step, inTx: bool, failed: bool, cfg: Config)
    requires op.Operation?
    ensures OperationWrites(op, inTx, failed, cfg) == [op.w] <==>
            !failed && op.succeeds && (inTx || cfg.skipDefaultTransaction || (op.begins && op.commits))
    ensures OperationWrites(op, inTx, failed, cfg) == [op.w] || OperationWrites(op, inTx, failed, cfg) == []
  {
  }

  // ---------------------------------------------------------------- all or nothing

  /** User code that returns every error of a nested call and recovers from no panic. */
  predicate Careful(steps: seq<Step>) {
    steps == [] ||
    ((steps[0].Nested? ==> steps[0].returnsError && !steps[0].recovers && Careful(steps[0].body.steps)) &&
     Careful(steps[1..]))
  }

  /** All functions below return nil, and all savepoints they need are granted. */
  predicate AllWell(steps: seq<Step>, cfg: Config) {
    steps == [] ||
    ((steps[0].Nested? ==>
        && (steps[0].begins || cfg.disableNestedTransaction)
        && steps[0].body.end.Nil? && AllWell(steps[0].body.steps, cfg)) &&
     AllWell(steps[1..], cfg))
  }

  /** The writes of all operations below that succeed, in order. */
  function AllWrites(steps: seq<Step>): seq<Write> {
    if steps == [] then []
    else
      match steps[0]
      case Operation(w, _, succeeds, _) => (if succeeds then [w] else []) + AllWrites(steps[1..])
      case Nested(body, _, _, _, _, _, _) => AllWrites(body.steps) + AllWrites(steps[1..])
  }

  lemma {:induction false} CarefulSteps(steps: seq<Step>, end: Outcome, cfg: Config)
    requires Careful(steps)
    ensures var e := StepsEffect(steps, end, true, false, cfg);
            && (e.outcome.Nil? <==> end.Nil? && AllWell(steps, cfg))
            && (AllWell(steps, cfg) ==> e.writes == AllWrites(steps) && !e.failed)
    decreases steps, 0
  {
    if steps != [] {
      CarefulSteps(steps[1..], end, cfg);
      if steps[0].Nested? {
        CarefulNested(steps[0], cfg);
      }
    }
  }

  lemma {:induction false} CarefulNested(n: Step, cfg: Config)
    requires n.Nested? && Careful(n.body.steps)
    ensures var e := NestedEffect(n, false, cfg);
            var well := (n.begins || cfg.disableNestedTransaction) && n.body.end.Nil? && AllWell(n.body.steps, cfg);
            && (e.outcome.Nil? <==> well)
            && (well ==> e.writes == AllWrites(n.body.steps) && !e.failed)
    decreases n, 1
  {
    hide StepsEffect, AllWell, Careful, AllWrites;
    CarefulSteps(n.body.steps, n.body.end, cfg);
  }

  /** All or nothing: a top-level call with careful user code returns nil exactly if it began and
      committed, all functions in its tree returned nil and all savepoints were granted; then the
      writes of all operations in the tree that succeeded are committed, in order, and else none. */
  lemma AllOrNothing(n: Step, cfg: Config)
    requires n.Nested? && Careful(n.body.steps)
    ensures var e := RootEffect(n, cfg);
            && (e.outcome.Nil? <==> n.begins && n.commits && n.body.end.Nil? && AllWell(n.body.steps, cfg))
            && e.writes == if e.outcome.Nil? then AllWrites(n.body.steps) else []
  {
    CarefulSteps(n.body.steps, n.body.end, cfg);
  }

  /** In particular one function that fails anywhere below makes the whole call fail. */
  lemma OneFailureFailsAll(n: Step, inner: Step, cfg: Config)
    requires n.Nested? && Careful(n.body.steps) && inner.Nested? && inner in n.body.steps && !inner.body.end.Nil?
    ensures !RootEffect(n, cfg).outcome.Nil? && RootEffect(n, cfg).writes == []
  {
    AllOrNothing(n, cfg);
    NotAllWell(n.body.steps, inner, cfg);
  }

  lemma {:induction false} NotAllWell(steps: seq<Step>, inner: Step, cfg: Config)
    requires inner in steps && inner.Nested? && !inner.body.end.Nil?
    ensures !AllWell(steps, cfg)
  {
    if steps[0] != inner {
      NotAllWell(steps[1..], inner, cfg);
    }
  }
}
