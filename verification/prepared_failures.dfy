/** What comes of failed preparations, of Close and of hits in the store of prepared statements:
    gorm/prepare_stmt.go and gorm/internal/stmt_store/stmt_store.go. */
module PreparedFailures {
  import opened Options
  import opened PreparedStmt

  ghost predicate Stored(st: State, s: nat)
    requires s < |st.stmts|
  {
    st.stmts[s].key in st.store && st.store[st.stmts[s].key].stmt == s
  }

  /** The statement's key was deleted if its preparation failed: it is complete, or its owner is
      about to close its channel. */
  ghost predicate Settled(st: State, s: nat)
    requires s < |st.stmts|
  {
    var x := st.stmts[s];
    x.prepared || (x.owner < |st.threads| && st.threads[x.owner].pc == Closing(s))
  }

  ghost predicate FailedGone(st: State) {
    forall s :: 0 <= s < |st.stmts| && st.stmts[s].outcome.Failed? && Settled(st, s) ==> !Stored(st, s)
  }

  /** A call that returned an error has a failed preparation of its query to blame; one that
      returned no statement, its own. */
  ghost predicate Blames(st: State, t: nat)
    requires t < |st.threads|
  {
    var th := st.threads[t];
    th.pc.Done? && th.pc.err && th.job.Prepare? ==>
      exists s :: 0 <= s < |st.stmts| && FailedFor(st.stmts[s], th.job.query) &&
                  (th.pc.stmt.None? ==> st.stmts[s].owner == t)
  }

  ghost predicate FailedFor(x: Stmt, query: string) { x.outcome.Failed? && x.key == query }

  ghost predicate AllBlame(st: State) { forall t :: 0 <= t < |st.threads| ==> Blames(st, t) }

  // ---------------------------------------------------------------- every step

  lemma FailedGoneKept(st: State, a: Action)
    requires Inv(st) && Enabled(st, a) && FailedGone(st)
    ensures FailedGone(After(st, a))
  {
    NextInv(st, a);
    if a.Run? {
      FailedGoneRan(st, a.t, a.answer);
    } else {
      hide Inv;
    }
  }

  lemma FailedGoneRan(st: State, t: nat, answer: bool)
    requires Inv(st) && CanRun(st, t) && Sane(st, t) && FailedGone(st)
    ensures FailedGone(Ran(st, t, answer))
  {
    assert ThreadOk(st, t) && Accounted(st);
    hide Inv, Ran, CanRun, Sane, Settled, Stored, ThreadOk, Accounted;
    var st' := Ran(st, t, answer);
    forall s | 0 <= s < |st'.stmts| && st'.stmts[s].outcome.Failed? && Settled(st', s)
      ensures !Stored(st', s)
    {
      if st.threads[t].pc == Deleting(s) {
        DeletedIsGone(st, t, answer, s);
      } else {
        WasSettled(st, t, answer, s);
        if Stored(st', s) {
          WasStored(st, t, answer, s);
        }
      }
    }
  }

  lemma DeletedIsGone(st: State, t: nat, answer: bool, s: nat)
    requires CanRun(st, t) && Sane(st, t) && ThreadOk(st, t) && st.threads[t].pc == Deleting(s)
    ensures s < |Ran(st, t, answer).stmts| && !Stored(Ran(st, t, answer), s)
  {
    hide NoReader, NoWriter, Cleared;
  }

  lemma WasSettled(st: State, t: nat, answer: bool, s: nat)
    requires CanRun(st, t) && Sane(st, t) && ThreadOk(st, t) && st.threads[t].pc != Deleting(s)
    requires s < |Ran(st, t, answer).stmts| && Ran(st, t, answer).stmts[s].outcome.Failed?
    requires Settled(Ran(st, t, answer), s)
    ensures s < |st.stmts| && st.stmts[s].outcome.Failed? && Settled(st, s)
    ensures Ran(st, t, answer).stmts[s].key == st.stmts[s].key
  {
    hide NoReader, NoWriter, Cleared;
    ClearedKeeps(st);
  }

  lemma WasStored(st: State, t: nat, answer: bool, s: nat)
    requires CanRun(st, t) && Sane(st, t) && Accounted(st) && s < |st.stmts|
    requires s < |Ran(st, t, answer).stmts| && Stored(Ran(st, t, answer), s)
    requires Ran(st, t, answer).stmts[s].key == st.stmts[s].key
    ensures Stored(st, s)
  {
    hide NoReader, NoWriter;
  }

  lemma AllBlameKept(st: State, a: Action)
    requires Inv(st) && Enabled(st, a) && AllBlame(st)
    ensures AllBlame(After(st, a))
  {
    NextInv(st, a);
    if a.Run? {
      AllBlameRan(st, a.t, a.answer);
    } else {
      hide Inv;
      var st' := After(st, a);
      forall t | 0 <= t < |st'.threads| ensures Blames(st', t) {
        assert Blames(st, t);
      }
    }
  }

  lemma AllBlameRan(st: State, t: nat, answer: bool)
    requires Inv(st) && CanRun(st, t) && Sane(st, t) && AllBlame(st)
    ensures AllBlame(Ran(st, t, answer))
  {
    assert ThreadOk(st, t);
    hide Exclusive, StmtOk, Inv, NoReader, NoWriter, Accounted;
    var st' := Ran(st, t, answer);
    FailuresStay(st, t, answer);
    forall i | 0 <= i < |st'.threads| ensures Blames(st', i) {
      assert Blames(st, i);
    }
  }

  /** A failed statement stays what it is. */
  lemma FailuresStay(st: State, t: nat, answer: bool)
    requires CanRun(st, t) && Sane(st, t) && ThreadOk(st, t)
    ensures var st' := Ran(st, t, answer);
            |st.stmts| <= |st'.stmts| &&
            forall s :: 0 <= s < |st.stmts| && st.stmts[s].outcome.Failed? ==>
              && st'.stmts[s].outcome.Failed?
              && st'.stmts[s].key == st.stmts[s].key && st'.stmts[s].owner == st.stmts[s].owner
  {
    hide NoReader, NoWriter, Cleared;
    ClearedKeeps(st);
  }

  lemma {:induction false} InEveryRun(st: State, run: seq<Action>)
    requires Inv(st) && Possible(st, run) && FailedGone(st) && AllBlame(st)
    ensures FailedGone(RunTo(st, run)) && AllBlame(RunTo(st, run))
    decreases |run|
  {
    if run != [] {
      FailedGoneKept(st, run[0]);
      AllBlameKept(st, run[0]);
      InEveryRun(After(st, run[0]), run[1..]);
    }
  }

  // ---------------------------------------------------------------- main results

  /** In every interleaving a statement whose preparation failed and is over is not stored, so no
      later caller finds the old error. */
  lemma FailedIsNotStored(jobs: seq<Job>, run: seq<Action>, key: string)
    requires Runnable(jobs, run) && key in RunFrom(jobs, run).store
    ensures var st := RunFrom(jobs, run); var s := st.store[key].stmt;
            s < |st.stmts| && st.stmts[s].key == key && (st.stmts[s].prepared ==> st.stmts[s].outcome.Ready?)
  {
    InEveryRun(Start(jobs), run);
    var st := RunFrom(jobs, run);
    assert Accounted(st);
    assert StmtOk(st, st.store[key].stmt);
  }

  /** In every interleaving a call of prepare returns an error only if a preparation of its query
      failed, its own if it returned no statement. */
  lemma ErrorsComeFromFailures(jobs: seq<Job>, run: seq<Action>, t: nat)
    requires Runnable(jobs, run)
    requires var st := RunFrom(jobs, run);
             t < |st.threads| && st.threads[t].pc.Done? && st.threads[t].pc.err && st.threads[t].job.Prepare?
    ensures var st := RunFrom(jobs, run); var th := st.threads[t];
            exists s :: 0 <= s < |st.stmts| && FailedFor(st.stmts[s], th.job.query) &&
              if th.pc.stmt.Some? then th.pc.stmt.value == s else st.stmts[s].owner == t
  {
    InEveryRun(Start(jobs), run);
    var st := RunFrom(jobs, run);
    assert Blames(st, t) && ThreadOk(st, t);
    var th := st.threads[t];
    if th.pc.stmt.Some? {
      assert FailedFor(st.stmts[th.pc.stmt.value], th.job.query);
    }
  }

  /** In every interleaving: when all preparations of a query failed and no thread is under way,
      the query has no entry, and the next caller prepares it anew and gets its own statement. */
  lemma PreparedAnewAfterFailure(jobs: seq<Job>, run: seq<Action>, t: nat) returns (longer: seq<Action>)
    requires Runnable(jobs, run)
    requires var st := RunFrom(jobs, run);
             && Idle(st) && t < |st.threads| && st.threads[t].pc.RWait? && st.threads[t].job.Prepare?
             && forall s :: 0 <= s < |st.stmts| && st.stmts[s].key == st.threads[t].job.query ==>
                  st.stmts[s].outcome.Failed?
    ensures var st := RunFrom(jobs, run); st.threads[t].job.query !in st.store
    ensures Runnable(jobs, longer)
    ensures var st := RunFrom(jobs, run); var end := RunFrom(jobs, longer);
            && t < |end.threads| && end.threads[t].pc == Done(Some(|st.stmts|), false)
            && |end.stmts| == |st.stmts| + 1
            && end.stmts[|st.stmts|] == Stmt(st.threads[t].job.query, st.threads[t].job.isTransaction, t, Ready, true)
  {
    var st := RunFrom(jobs, run);
    var key := st.threads[t].job.query;
    if key in st.store {
      FailedIsNotStored(jobs, run, key);
      IdleIsPrepared(st, st.store[key].stmt);
    }
    longer := NextCallerLoses(jobs, run, t);
  }

  /** The database's answer decides whether the preparation succeeded. */
  lemma AnswerDecides(jobs: seq<Job>, run: seq<Action>, t: nat, answer: bool)
    requires Runnable(jobs, run)
    requires var st := RunFrom(jobs, run); t < |st.threads| && st.threads[t].pc.Preparing?
    ensures var st := RunFrom(jobs, run); var s := st.threads[t].pc.s;
            CanRun(st, t) && s < |After(st, Run(t, answer)).stmts| &&
            After(st, Run(t, answer)).stmts[s].outcome == (if answer then Ready else Failed)
  {
    hide Inv, NoReader, NoWriter;
    NextInv(RunFrom(jobs, run), Run(t, answer));
  }

  /** Such a failure: in every interleaving, when no thread is under way, a caller that may not
      use the entry of its query, if there is one, and whose preparation fails, gets an error and
      no statement, and leaves no entry behind. */
  lemma FailingCall(jobs: seq<Job>, run: seq<Action>, t: nat) returns (longer: seq<Action>)
    requires Runnable(jobs, run)
    requires var st := RunFrom(jobs, run);
             && Idle(st) && t < |st.threads| && st.threads[t].pc.RWait? && st.threads[t].job.Prepare?
             && var job := st.threads[t].job;
                job.query in st.store ==> Surplus(st, job, st.store[job.query])
    ensures Runnable(jobs, longer)
    ensures var st := RunFrom(jobs, run); var end := RunFrom(jobs, longer);
            && t < |end.threads| && end.threads[t].pc == Done(None, true)
            && |end.stmts| == |st.stmts| + 1 && end.stmts[|st.stmts|].outcome.Failed?
            && st.threads[t].job.query !in end.store && |st.stmts| in end.evicted
  {
    var st := RunFrom(jobs, run);
    var key := st.threads[t].job.query;
    assert key in st.store ==> st.store[key].stmt < |st.stmts|;
    hide Inv, Runnable, RunFrom, Idle, Surplus, CanRun, Ran, Sane;
    longer := ToTheLock(jobs, run, t);
    longer := ToNew(jobs, longer, t);
    longer := FailInNew(jobs, longer, t);
  }

  lemma FailInNew(jobs: seq<Job>, run: seq<Action>, t: nat) returns (longer: seq<Action>)
    requires Runnable(jobs, run)
    requires var st := RunFrom(jobs, run); t < |st.threads| && st.threads[t].pc.WNew? && st.threads[t].job.Prepare?
    ensures Runnable(jobs, longer)
    ensures var st := RunFrom(jobs, run); var end := RunFrom(jobs, longer);
            && t < |end.threads| && end.threads[t].pc == Done(None, true)
            && |end.stmts| == |st.stmts| + 1 && end.stmts[|st.stmts|].outcome.Failed?
            && st.threads[t].job.query !in end.store && |st.stmts| in end.evicted
  {
    hide Inv, Runnable, RunFrom;
    longer := Go(jobs, run, t);
    longer := Go(jobs, longer, t);
    longer := Act(jobs, longer, Run(t, false));
    longer := Go(jobs, longer, t);
    longer := Go(jobs, longer, t);
  }

  /** In every interleaving Close leaves no entry that a caller would find, and hands all those
      there were to the eviction callback. */
  lemma CloseLeavesNone(jobs: seq<Job>, run: seq<Action>, t: nat, answer: bool)
    requires Runnable(jobs, run)
    requires var st := RunFrom(jobs, run); CanRun(st, t) && st.threads[t].pc.Clearing?
    ensures var st := RunFrom(jobs, run); var st' := After(st, Run(t, answer));
            && (forall k :: !Hit(st', k))
            && (forall k :: Hit(st, k) ==> st.store[k].stmt in st'.evicted)
            && (forall k :: k in st.store && st.store[k].expired ==> k in st'.store && st'.store[k] == st.store[k])
            && st'.threads[t].pc == Done(None, false)
  {
    hide Inv, NoReader, NoWriter;
    NextInv(RunFrom(jobs, run), Run(t, answer));
  }

  lemma IdleIsPrepared(st: State, s: nat)
    requires Inv(st) && Idle(st) && s < |st.stmts|
    ensures IsPrepared(st, s)
  {
    assert StmtOk(st, s);
  }

  lemma NoneWriting(st: State)
    requires Idle(st)
    ensures NoWriter(st)
  {
  }

  /** In every interleaving, when no thread is under way, a caller who may use the entry of its
      query gets its statement in three steps, without the write lock and without making one. */
  lemma HitUnderReadLock(jobs: seq<Job>, run: seq<Action>, t: nat) returns (longer: seq<Action>)
    requires Runnable(jobs, run)
    requires var st := RunFrom(jobs, run);
             && Idle(st) && t < |st.threads| && st.threads[t].pc.RWait? && st.threads[t].job.Prepare?
             && var job := st.threads[t].job;
                && job.query in st.store && !st.store[job.query].expired && st.store[job.query].stmt < |st.stmts|
                && (st.stmts[st.store[job.query].stmt].transaction ==> job.isTransaction)
    ensures longer == run + [Run(t, true), Run(t, true), Run(t, true)] && Runnable(jobs, longer)
    ensures var st := RunFrom(jobs, run); var s := st.store[st.threads[t].job.query].stmt;
            RunFrom(jobs, longer) == Moved(st, t, Done(Some(s), false))
  {
    var st := RunFrom(jobs, run);
    var s := st.store[st.threads[t].job.query].stmt;
    FailedIsNotStored(jobs, run, st.threads[t].job.query);
    IdleIsPrepared(st, s);
    hide Inv, Runnable, RunFrom, Idle, NoReader;
    NoneWriting(st);
    longer := Go(jobs, run, t);
    longer := Go(jobs, longer, t);
    longer := Go(jobs, longer, t);
    assert RunFrom(jobs, longer).threads == Moved(st, t, Done(Some(s), false)).threads;
  }
}
