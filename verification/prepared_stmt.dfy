/** The prepared-statement store of gorm/prepare_stmt.go and
    gorm/internal/stmt_store/stmt_store.go as a state machine: any number of threads run
    `prepare` (or Close) over one store, one read-write lock and one channel a statement,
    while entries expire and are evicted at any time. Every access to the lock, the store
    or a channel is a step of its own. */
module PreparedStmt {
  import opened Options

  /** What the database answered to PrepareContext. */
  datatype Outcome = Pending | Ready | Failed

  /** A Stmt: the query it is for, how it was prepared, the thread preparing it, and
      whether its channel `prepared` is closed. */
  datatype Stmt = Stmt(key: string, transaction: bool, owner: nat, outcome: Outcome, prepared: bool)

  /** An entry of the cache; an expired one is still there but no longer found. */
  datatype Slot = Slot(stmt: nat, expired: bool)

  datatype Job = Prepare(query: string, isTransaction: bool) | CloseAll

  /** Where a thread stands. The R states are the first lookup, under the read lock from
      RGet on; the W states the second, announcing the write lock at WAnnounced and holding
      it from WGet to WUnlock; the last ones belong to `New` after it unlocked. */
  datatype Pc =
    | RWait | RGet | RBlock(s: nat)
    | WWait | WAnnounced | WGet | WBlock(s: nat) | WNew | WUnlock(s: nat) | Clearing
    | Preparing(s: nat) | Deleting(s: nat) | Closing(s: nat)
    | Done(stmt: Option<nat>, err: bool)

  datatype Thread = Thread(job: Job, pc: Pc)

  /** `evicted` were handed to the eviction callback, `closed` are those whose Close has
      returned, `replaced` were overwritten in the cache. `disturbed` are the keys for which
      an entry expired, was evicted or failed to prepare. */
  datatype State = State(
    threads: seq<Thread>, stmts: seq<Stmt>, store: map<string, Slot>,
    evicted: set<nat>, closed: set<nat>, replaced: set<nat>, disturbed: set<string>)

  datatype Action =
    | Run(t: nat, answer: bool)
    | Expire(key: string)
    | Evict(key: string)
    | CloseStmt(s: nat)

  predicate Reading(th: Thread) { th.pc.RGet? || th.pc.RBlock? }

  predicate Writing(th: Thread) {
    th.pc.WAnnounced? || Holding(th)
  }

  predicate Holding(th: Thread) {
    th.pc.WGet? || th.pc.WBlock? || th.pc.WNew? || th.pc.WUnlock? || th.pc.Clearing?
  }

  predicate NoWriter(st: State) { forall i :: 0 <= i < |st.threads| ==> !Writing(st.threads[i]) }

  predicate NoReader(st: State) { forall i :: 0 <= i < |st.threads| ==> !Reading(st.threads[i]) }

  predicate Hit(st: State, key: string) { key in st.store && !st.store[key].expired }

  /** A channel receive: possible once the channel is closed. */
  predicate IsPrepared(st: State, s: nat) { s < |st.stmts| && st.stmts[s].prepared }

  predicate CanRun(st: State, t: nat) {
    t < |st.threads| &&
    match st.threads[t].pc
    case RWait => NoWriter(st)
    case WWait => NoWriter(st)
    case WAnnounced => NoReader(st)
    case RBlock(s) => IsPrepared(st, s)
    case WBlock(s) => IsPrepared(st, s)
    case Done(_, _) => false
    case _ => true
  }

  predicate Enabled(st: State, a: Action) {
    match a
    case Run(t, _) => CanRun(st, t)
    case Expire(k) => k in st.store
    case Evict(k) => k in st.store
    case CloseStmt(s) => s in st.evicted && s !in st.closed && IsPrepared(st, s)
  }

  /** The test both lookups apply to a statement they found. */
  predicate Usable(stmt: Stmt, job: Job) {
    job.Prepare? && (!stmt.transaction || job.isTransaction)
  }

  function Moved(st: State, t: nat, pc: Pc): State
    requires t < |st.threads|
  {
    st.(threads := st.threads[t := st.threads[t].(pc := pc)])
  }

  /** Removing a key from the cache hands its statement to the callback. */
  function Removed(st: State, key: string): State {
    if key in st.store then
      st.(store := st.store - {key}, evicted := st.evicted + {st.store[key].stmt}, disturbed := st.disturbed + {key})
    else st
  }

  /** Keys lists the unexpired entries, and each is deleted. */
  function Cleared(st: State): State {
    var gone := set k | k in st.store && !st.store[k].expired;
    st.(store := st.store - gone, evicted := st.evicted + (set k | k in gone :: st.store[k].stmt),
        disturbed := st.disturbed + gone)
  }

  /** Set, on the way adding a fresh statement: what was under the key is replaced. */
  function Published(st: State, key: string, transaction: bool, owner: nat): State {
    st.(stmts := st.stmts + [Stmt(key, transaction, owner, Pending, false)],
        store := st.store[key := Slot(|st.stmts|, false)],
        replaced := if key in st.store then st.replaced + {st.store[key].stmt} else st.replaced)
  }

  /** After a lookup under either lock that did not settle the call. */
  function Lookup(st: State, t: nat, found: nat -> Pc, missed: Pc): State
    requires t < |st.threads| && st.threads[t].job.Prepare?
  {
    var key := st.threads[t].job.query;
    Moved(st, t, if Hit(st, key) then found(st.store[key].stmt) else missed)
  }

  function Received(st: State, t: nat, s: nat, otherwise: Pc): State
    requires t < |st.threads| && s < |st.stmts|
  {
    Moved(st, t,
          if Usable(st.stmts[s], st.threads[t].job) then Done(Some(s), st.stmts[s].outcome.Failed?) else otherwise)
  }

  /** One step of thread `t`; `answer` is what the database says if it is asked. */
  function Ran(st: State, t: nat, answer: bool): State
    requires CanRun(st, t) && Sane(st, t)
  {
    var th := st.threads[t];
    match th.pc
    case RWait => Moved(st, t, RGet)
    case RGet => Lookup(st, t, (s: nat) => RBlock(s), WWait)
    case RBlock(s) => Received(st, t, s, WWait)
    case WWait => Moved(st, t, WAnnounced)
    case WAnnounced => Moved(st, t, if th.job.Prepare? then WGet else Clearing)
    case WGet => Lookup(st, t, (s: nat) => WBlock(s), WNew)
    case WBlock(s) => Received(st, t, s, WNew)
    case WNew => Moved(Published(st, th.job.query, th.job.isTransaction, t), t, WUnlock(|st.stmts|))
    case WUnlock(s) => Moved(st, t, Preparing(s))
    case Clearing => Moved(Cleared(st), t, Done(None, false))
    case Preparing(s) =>
      if answer then Moved(st.(stmts := st.stmts[s := st.stmts[s].(outcome := Ready)]), t, Closing(s))
      else Moved(st.(stmts := st.stmts[s := st.stmts[s].(outcome := Failed)]), t, Deleting(s))
    case Deleting(s) => Moved(Removed(st, th.job.query), t, Closing(s))
    case Closing(s) =>
      var ok := st.stmts[s].outcome.Ready?;
      Moved(st.(stmts := st.stmts[s := st.stmts[s].(prepared := true)]), t, Done(if ok then Some(s) else None, !ok))
  }

  /** The states a thread can name: those of `prepare` belong to a Prepare job and refer to
      statements that exist. */
  predicate Sane(st: State, t: nat) {
    t < |st.threads| &&
    var th := st.threads[t];
    match th.pc
    case WWait => true
    case WAnnounced => true
    case Clearing => th.job.CloseAll?
    case Done(_, _) => true
    case RWait => th.job.Prepare?
    case RGet => th.job.Prepare?
    case WGet => th.job.Prepare?
    case WNew => th.job.Prepare?
    case RBlock(s) => th.job.Prepare? && s < |st.stmts|
    case WBlock(s) => th.job.Prepare? && s < |st.stmts|
    case WUnlock(s) => th.job.Prepare? && s < |st.stmts|
    case Preparing(s) => th.job.Prepare? && s < |st.stmts|
    case Deleting(s) => th.job.Prepare? && s < |st.stmts|
    case Closing(s) => th.job.Prepare? && s < |st.stmts|
  }

  function Next(st: State, a: Action): State
    requires Enabled(st, a) && (a.Run? ==> Sane(st, a.t))
  {
    match a
    case Run(t, answer) => Ran(st, t, answer)
    case Expire(k) => st.(store := st.store[k := st.store[k].(expired := true)], disturbed := st.disturbed + {k})
    case Evict(k) => Removed(st, k)
    case CloseStmt(s) => st.(closed := st.closed + {s})
  }

  function Start(jobs: seq<Job>): State {
    State(seq(|jobs|, i requires 0 <= i < |jobs| => Thread(jobs[i], if jobs[i].Prepare? then RWait else WWait)),
          [], map[], {}, {}, {}, {})
  }

  // ---------------------------------------------------------------- the invariant

  /** The statement a thread is bringing up. */
  ghost predicate Owns(pc: Pc, s: nat) {
    Owning(pc) && pc.s == s
  }

  ghost predicate Owning(pc: Pc) { pc.WUnlock? || pc.Preparing? || pc.Deleting? || pc.Closing? }

  ghost predicate Exclusive(st: State) {
    && (forall i, j :: 0 <= i < |st.threads| && 0 <= j < |st.threads| && i != j ==>
         !(Writing(st.threads[i]) && Writing(st.threads[j])))
    && (forall i, j :: 0 <= i < |st.threads| && 0 <= j < |st.threads| ==>
         !(Holding(st.threads[i]) && Reading(st.threads[j])))
  }

  ghost predicate ThreadOk(st: State, t: nat)
    requires t < |st.threads|
  {
    var th := st.threads[t];
    && Sane(st, t)
    && (th.pc.RBlock? ==> st.stmts[th.pc.s].key == th.job.query)
    && (th.pc.WBlock? ==>
         && st.stmts[th.pc.s].key == th.job.query
         && (th.job.query in st.store ==> st.store[th.job.query].stmt == th.pc.s))
    && (th.pc.WNew? ==> Overwritable(st, th.job))
    && (Owning(th.pc) ==> OwnedOk(st, t, th.pc.s))
    && (th.pc.Done? && th.pc.stmt.None? && th.job.Prepare? ==> th.pc.err)
    && (th.pc.Done? && th.pc.stmt.Some? ==> ResultOk(st, th.job, th.pc.stmt.value, th.pc.err))
  }

  /** What New may overwrite: nothing, an expired entry, or a statement that was prepared
      inside a transaction and found by a caller outside one. */
  ghost predicate Overwritable(st: State, job: Job) {
    job.Prepare? && Hit(st, job.query) ==>
      var s := st.store[job.query].stmt;
      IsPrepared(st, s) && st.stmts[s].transaction && !job.isTransaction
  }

  ghost predicate OwnedOk(st: State, t: nat, s: nat)
    requires t < |st.threads|
  {
    var th := st.threads[t];
    && s < |st.stmts| && th.job.Prepare?
    && st.stmts[s].owner == t && !st.stmts[s].prepared
    && st.stmts[s].key == th.job.query && st.stmts[s].transaction == th.job.isTransaction
    && (th.pc.WUnlock? || th.pc.Preparing? <==> st.stmts[s].outcome.Pending?)
    && (th.pc.Deleting? ==> st.stmts[s].outcome.Failed?)
  }

  /** A returned statement is completely prepared, for the right query, and a caller outside
      a transaction never gets one prepared inside a transaction; without an error its
      preparation succeeded. It may have been evicted, and closed, in the meantime. */
  ghost predicate ResultOk(st: State, job: Job, s: nat, err: bool) {
    && s < |st.stmts| && job.Prepare?
    && st.stmts[s].prepared && st.stmts[s].key == job.query
    && (st.stmts[s].transaction ==> job.isTransaction)
    && (st.stmts[s].outcome.Ready? || st.stmts[s].outcome.Failed?)
    && (err <==> st.stmts[s].outcome.Failed?)
  }

  /** A statement is finished, or some thread is bringing it up. */
  ghost predicate StmtOk(st: State, s: nat)
    requires s < |st.stmts|
  {
    var x := st.stmts[s];
    if x.prepared then !x.outcome.Pending?
    else x.owner < |st.threads| && Owns(st.threads[x.owner].pc, s)
  }

  /** Each statement is stored, evicted or replaced, and in one of the three only; only
      evicted ones are closed, and those only after their preparation. */
  ghost predicate Accounted(st: State) {
    && (forall k :: k in st.store ==> st.store[k].stmt < |st.stmts| && st.stmts[st.store[k].stmt].key == k)
    && (forall k :: k in st.store ==> st.store[k].stmt !in st.evicted && st.store[k].stmt !in st.replaced)
    && (forall s :: 0 <= s < |st.stmts| ==>
         || s in st.evicted || s in st.replaced
         || (st.stmts[s].key in st.store && st.store[st.stmts[s].key].stmt == s))
    && st.evicted !! st.replaced
    && (forall s :: s in st.evicted || s in st.replaced ==> s < |st.stmts|)
    && (forall s :: s in st.evicted ==> st.stmts[s].key in st.disturbed)
    && (forall s :: s in st.closed ==> s in st.evicted && IsPrepared(st, s))
  }

  ghost predicate Inv(st: State) {
    && Exclusive(st)
    && (forall t :: 0 <= t < |st.threads| ==> ThreadOk(st, t))
    && (forall s :: 0 <= s < |st.stmts| ==> StmtOk(st, s))
    && Accounted(st)
  }

  lemma StartInv(jobs: seq<Job>)
    ensures Inv(Start(jobs))
  {
  }

  // ---------------------------------------------------------------- a step keeps it

  /** Threads other than `t` keep their invariant when the store changes this little:
      statements keep what they are, and a key that another thread waits on under the lock
      is not given a new statement. */
  ghost predicate Gentle(st: State, st': State, t: nat) {
    && |st'.threads| == |st.threads|
    && (forall i :: 0 <= i < |st.threads| && i != t ==> st'.threads[i] == st.threads[i])
    && |st.stmts| <= |st'.stmts|
    && (forall s :: 0 <= s < |st.stmts| ==> StmtKept(st, st', t, s))
    && (NoOtherHolder(st, t) || forall k :: k in st'.store ==>
         k in st.store && st'.store[k].stmt == st.store[k].stmt && (st.store[k].expired ==> st'.store[k].expired))
  }

  ghost predicate NoOtherHolder(st: State, t: nat) {
    forall i :: 0 <= i < |st.threads| && i != t ==> !Holding(st.threads[i])
  }

  ghost predicate StmtKept(st: State, st': State, t: nat, s: nat)
    requires s < |st.stmts| && s < |st'.stmts|
  {
    var x, y := st.stmts[s], st'.stmts[s];
    && y.key == x.key && y.transaction == x.transaction && y.owner == x.owner
    && (x.owner != t || x.prepared ==> y == x)
    && (x.prepared ==> y.prepared)
  }

  lemma OtherThreadOk(st: State, st': State, t: nat, i: nat)
    requires Inv(st) && Gentle(st, st', t) && i < |st.threads| && i != t
    ensures ThreadOk(st', i)
  {
    var th := st.threads[i];
    assert ThreadOk(st, i);
    if th.pc.WNew? && Hit(st', th.job.query) {
      assert Holding(th);
      assert StmtKept(st, st', t, st.store[th.job.query].stmt);
    }
    if th.pc.RBlock? || th.pc.WBlock? || Owning(th.pc) {
      assert StmtKept(st, st', t, th.pc.s);
    }
    if th.pc.Done? && th.pc.stmt.Some? {
      assert StmtKept(st, st', t, th.pc.stmt.value);
    }
  }

  /** The statements `t` does not bring up are in order after such a step. */
  lemma OtherStmtOk(st: State, st': State, t: nat, s: nat)
    requires Inv(st) && Gentle(st, st', t) && s < |st.stmts|
    requires st.stmts[s].prepared || st.stmts[s].owner != t
    ensures StmtOk(st', s)
  {
    assert StmtOk(st, s) && StmtKept(st, st', t, s);
  }

  // ---------------------------------------------------------------- the locks

  /** The locks stay exclusive when only thread `t` moved and its new place is allowed. */
  lemma StillExclusive(st: State, st': State, t: nat)
    requires Exclusive(st) && t < |st.threads| == |st'.threads|
    requires forall i :: 0 <= i < |st.threads| && i != t ==> st'.threads[i] == st.threads[i]
    requires Writing(st'.threads[t]) ==> Writing(st.threads[t]) || NoWriter(st)
    requires Reading(st'.threads[t]) ==> Reading(st.threads[t]) || NoWriter(st)
    requires Holding(st'.threads[t]) ==> Holding(st.threads[t]) || (Writing(st.threads[t]) && NoReader(st))
    ensures Exclusive(st')
  {
  }

  lemma RunExclusive(st: State, t: nat, answer: bool)
    requires Inv(st) && CanRun(st, t)
    ensures Sane(st, t) && Exclusive(Ran(st, t, answer))
  {
    assert ThreadOk(st, t);
    StillExclusive(st, Ran(st, t, answer), t);
  }

  lemma HolderAlone(st: State, t: nat)
    requires Exclusive(st) && t < |st.threads| && Holding(st.threads[t])
    ensures NoOtherHolder(st, t)
  {
  }

  // ---------------------------------------------------------------- the steps of a thread

  lemma RunGentle(st: State, t: nat, answer: bool)
    requires Inv(st) && CanRun(st, t)
    ensures Sane(st, t) && Gentle(st, Ran(st, t, answer), t)
  {
    assert ThreadOk(st, t);
    if Holding(st.threads[t]) {
      HolderAlone(st, t);
    }
  }

  /** After its step the thread itself is where it should be: a lookup ... */
  lemma LookupThreadOk(st: State, t: nat, answer: bool)
    requires Inv(st) && CanRun(st, t)
    requires st.threads[t].pc.RGet? || st.threads[t].pc.WGet?
    ensures Sane(st, t) && ThreadOk(Ran(st, t, answer), t)
  {
    hide Exclusive, StmtOk, NoWriter, NoReader;
    assert ThreadOk(st, t);
  }

  /** ... a receive from a channel ... */
  lemma ReceiveThreadOk(st: State, t: nat, answer: bool)
    requires Inv(st) && CanRun(st, t)
    requires st.threads[t].pc.RBlock? || st.threads[t].pc.WBlock?
    ensures Sane(st, t) && ThreadOk(Ran(st, t, answer), t)
  {
    hide Exclusive, NoWriter, NoReader;
    assert ThreadOk(st, t);
    assert StmtOk(st, st.threads[t].pc.s);
  }

  /** ... a step of New ... */
  lemma NewThreadOk(st: State, t: nat, answer: bool)
    requires Inv(st) && CanRun(st, t)
    requires st.threads[t].pc.WNew? || Owning(st.threads[t].pc)
    ensures Sane(st, t) && ThreadOk(Ran(st, t, answer), t)
  {
    hide Exclusive, StmtOk, NoWriter, NoReader, Accounted;
    assert ThreadOk(st, t);
  }

  /** ... or any other. */
  lemma RunThreadOk(st: State, t: nat, answer: bool)
    requires Inv(st) && CanRun(st, t)
    ensures Sane(st, t) && ThreadOk(Ran(st, t, answer), t)
  {
    hide Exclusive, StmtOk, NoWriter, NoReader, Accounted;
    assert ThreadOk(st, t);
    var pc := st.threads[t].pc;
    if pc.RGet? || pc.WGet? {
      LookupThreadOk(st, t, answer);
    } else if pc.RBlock? || pc.WBlock? {
      ReceiveThreadOk(st, t, answer);
    } else if pc.WNew? || Owning(pc) {
      NewThreadOk(st, t, answer);
    }
  }

  lemma RunStmtOk(st: State, t: nat, answer: bool, s: nat)
    requires Inv(st) && CanRun(st, t)
    requires Sane(st, t) && s < |Ran(st, t, answer).stmts|
    ensures StmtOk(Ran(st, t, answer), s)
  {
    assert ThreadOk(st, t);
    RunGentle(st, t, answer);
    if s < |st.stmts| {
      assert StmtOk(st, s);
      if st.stmts[s].prepared || st.stmts[s].owner != t {
        OtherStmtOk(st, Ran(st, t, answer), t, s);
      }
    }
  }

  lemma PublishedAccounted(st: State, key: string, transaction: bool, owner: nat)
    requires Accounted(st)
    ensures Accounted(Published(st, key, transaction, owner))
  {
  }

  lemma RemovedAccounted(st: State, key: string)
    requires Accounted(st)
    ensures Accounted(Removed(st, key))
  {
  }

  lemma ClearedAccounted(st: State)
    requires Accounted(st)
    ensures Accounted(Cleared(st))
  {
    var gone := set k | k in st.store && !st.store[k].expired;
    var st' := Cleared(st);
    forall k | k in st'.store
      ensures st'.store[k].stmt !in st'.evicted
    {
    }
    forall s | 0 <= s < |st.stmts|
      ensures || s in st'.evicted || s in st'.replaced
              || (st.stmts[s].key in st'.store && st'.store[st.stmts[s].key].stmt == s)
    {
      var k := st.stmts[s].key;
      if k in gone && st.store[k].stmt == s {
        assert s in st'.evicted;
      }
    }
  }

  lemma SameAccounted(st: State, st': State)
    requires Accounted(st)
    requires st'.store == st.store && st'.evicted == st.evicted && st'.closed == st.closed
    requires st'.replaced == st.replaced && st.disturbed <= st'.disturbed
    requires |st'.stmts| == |st.stmts|
    requires forall s :: 0 <= s < |st.stmts| ==>
               st'.stmts[s].key == st.stmts[s].key && (st.stmts[s].prepared ==> st'.stmts[s].prepared)
    ensures Accounted(st')
  {
  }

  lemma RunAccounted(st: State, t: nat, answer: bool)
    requires Inv(st) && CanRun(st, t)
    ensures Sane(st, t) && Accounted(Ran(st, t, answer))
  {
    hide Accounted, Exclusive, StmtOk, NoWriter, NoReader;
    assert ThreadOk(st, t);
    var th := st.threads[t];
    var st' := Ran(st, t, answer);
    match th.pc
    case WNew =>
      PublishedAccounted(st, th.job.query, th.job.isTransaction, t);
      SameAccounted(Published(st, th.job.query, th.job.isTransaction, t), st');
    case Deleting(_) =>
      RemovedAccounted(st, th.job.query);
      SameAccounted(Removed(st, th.job.query), st');
    case Clearing =>
      ClearedAccounted(st);
      SameAccounted(Cleared(st), st');
    case _ => SameAccounted(st, st');
  }

  // ---------------------------------------------------------------- the environment

  /** Expiry, eviction and asynchronous Close disturb no thread. */
  lemma EnvironmentOk(st: State, a: Action)
    requires Inv(st) && Enabled(st, a) && !a.Run?
    ensures Inv(Next(st, a))
  {
    hide ThreadOk, StmtOk, Accounted, Enabled, Next;
    assert Next(st, a).threads == st.threads && Exclusive(Next(st, a)) by { EnvironmentMoves(st, a); }
    EnvironmentAccounted(st, a);
    var st' := Next(st, a);
    forall t | 0 <= t < |st'.threads| ensures ThreadOk(st', t) {
      EnvironmentThreadOk(st, a, t);
    }
    forall s | 0 <= s < |st'.stmts| ensures StmtOk(st', s) {
      EnvironmentMoves(st, a);
      assert StmtOk(st, s);
      SameStmtOk(st, st', s);
    }
  }

  lemma EnvironmentMoves(st: State, a: Action)
    requires Enabled(st, a) && !a.Run?
    ensures Next(st, a).threads == st.threads && Next(st, a).stmts == st.stmts
    ensures Exclusive(st) ==> Exclusive(Next(st, a))
  {
  }

  lemma SameStmtOk(st: State, st': State, s: nat)
    requires st'.threads == st.threads && st'.stmts == st.stmts && s < |st.stmts| && StmtOk(st, s)
    ensures StmtOk(st', s)
  {
  }

  lemma EnvironmentAccounted(st: State, a: Action)
    requires Accounted(st) && Enabled(st, a) && !a.Run?
    ensures Accounted(Next(st, a))
  {
    if a.Evict? {
      RemovedAccounted(st, a.key);
    }
  }

  lemma EnvironmentThreadOk(st: State, a: Action, t: nat)
    requires Inv(st) && Enabled(st, a) && !a.Run? && t < |st.threads|
    ensures t < |Next(st, a).threads| && ThreadOk(Next(st, a), t)
  {
    hide Exclusive, StmtOk, Accounted;
    assert ThreadOk(st, t);
  }

  /** Every step, of any thread or of the environment, keeps the invariant. */
  lemma NextInv(st: State, a: Action)
    requires Inv(st) && Enabled(st, a)
    ensures (a.Run? ==> Sane(st, a.t)) && Inv(Next(st, a))
  {
    if a.Run? {
      RunSteps(st, a.t, a.answer);
    } else {
      EnvironmentOk(st, a);
    }
  }

  lemma RunSteps(st: State, t: nat, answer: bool)
    requires Inv(st) && CanRun(st, t)
    ensures Sane(st, t) && Inv(Ran(st, t, answer))
  {
    hide ThreadOk, StmtOk, Accounted, Exclusive, Gentle;
    RunThreadOk(st, t, answer);
    var st' := Ran(st, t, answer);
    RunGentle(st, t, answer);
    RunExclusive(st, t, answer);
    RunAccounted(st, t, answer);
    forall i | 0 <= i < |st'.threads|
      ensures ThreadOk(st', i)
    {
      if i != t {
        OtherThreadOk(st, st', t, i);
      }
    }
    forall s | 0 <= s < |st'.stmts|
      ensures StmtOk(st', s)
    {
      RunStmtOk(st, t, answer, s);
    }
  }

  // ---------------------------------------------------------------- every run

  ghost predicate Possible(st: State, run: seq<Action>)
    requires Inv(st)
    decreases |run|
  {
    run == [] || (Enabled(st, run[0]) && Possible(After(st, run[0]), run[1..]))
  }

  ghost function After(st: State, a: Action): (r: State)
    requires Inv(st) && Enabled(st, a)
    ensures Inv(r)
  {
    NextInv(st, a);
    Next(st, a)
  }

  ghost function RunTo(st: State, run: seq<Action>): (r: State)
    requires Inv(st) && Possible(st, run)
    ensures Inv(r)
    decreases |run|
  {
    if run == [] then st else RunTo(After(st, run[0]), run[1..])
  }

  ghost function RunFrom(jobs: seq<Job>, run: seq<Action>): (r: State)
    requires Runnable(jobs, run)
    ensures Inv(r)
  {
    StartInv(jobs);
    RunTo(Start(jobs), run)
  }

  ghost predicate Runnable(jobs: seq<Job>, run: seq<Action>) {
    StartInv(jobs);
    Possible(Start(jobs), run)
  }

  // ---------------------------------------------------------------- safety

  /** In every interleaving a call of prepare that has returned without error returned a
      statement whose preparation succeeded and is over, for its query, and outside a
      transaction only one that was prepared outside a transaction. A call that returned no
      statement returned an error. */
  lemma ReturnedStatements(jobs: seq<Job>, run: seq<Action>, t: nat)
    requires Runnable(jobs, run)
    requires var st := RunFrom(jobs, run); t < |st.threads| && st.threads[t].pc.Done? && st.threads[t].job.Prepare?
    ensures var st := RunFrom(jobs, run); var th := st.threads[t];
            && (th.pc.stmt.None? ==> th.pc.err)
            && (!th.pc.err ==>
                 && th.pc.stmt.value < |st.stmts|
                 && var x := st.stmts[th.pc.stmt.value];
                    && x.prepared && x.outcome.Ready? && x.key == th.job.query
                    && (x.transaction ==> th.job.isTransaction))
  {
    assert ThreadOk(RunFrom(jobs, run), t);
  }

  /** In every interleaving New overwrites an entry only when its ttl has passed or its
      preparation is over and the caller may not use it, and the thread overwriting it holds
      the lock alone. */
  lemma OverwritesOnlyFinished(jobs: seq<Job>, run: seq<Action>, t: nat)
    requires Runnable(jobs, run)
    requires var st := RunFrom(jobs, run); CanRun(st, t) && st.threads[t].pc.WNew?
    ensures var st := RunFrom(jobs, run); var job := st.threads[t].job;
            && job.Prepare?
            && (job.query in st.store ==> Surplus(st, job, st.store[job.query]))
            && NoReader(st) && NoOtherHolder(st, t)
  {
    var st := RunFrom(jobs, run);
    assert ThreadOk(st, t);
    HolderAlone(st, t);
  }

  /** In every interleaving each statement ever made is stored, handed to the eviction
      callback, or replaced by a later one of its query, and only one of the three; only
      those evicted are ever closed, never a stored one or one still being prepared. */
  lemma StatementsAccounted(jobs: seq<Job>, run: seq<Action>, s: nat)
    requires Runnable(jobs, run) && s < |RunFrom(jobs, run).stmts|
    ensures var st := RunFrom(jobs, run); var key := st.stmts[s].key;
            var stored := key in st.store && st.store[key].stmt == s;
            && (stored || s in st.evicted || s in st.replaced)
            && !(stored && (s in st.evicted || s in st.replaced)) && !(s in st.evicted && s in st.replaced)
            && (s in st.closed ==> s in st.evicted && !stored && st.stmts[s].prepared)
  {
    assert Accounted(RunFrom(jobs, run));
  }

  // ---------------------------------------------------------------- statements lost

  /** An entry that is expired, or complete but made inside a transaction while the caller
      is outside one. */
  ghost predicate Surplus(st: State, job: Job, slot: Slot) {
    slot.expired
    || (job.Prepare? && IsPrepared(st, slot.stmt) && st.stmts[slot.stmt].transaction && !job.isTransaction)
  }

  /** Thread `t` is about to make a statement for a query that has an entry. */
  ghost predicate Overwrites(st: State, t: nat) {
    && t < |st.threads| && st.threads[t].pc.WNew? && st.threads[t].job.Prepare?
    && st.threads[t].job.query in st.store
  }

  /** In every interleaving a step loses a statement if and only if it is the step of New
      that finds an entry of its query; it loses just that one, and the entry was expired or
      of a transaction with the caller outside one. */
  lemma LosesIffOverwrites(jobs: seq<Job>, run: seq<Action>, a: Action)
    requires Runnable(jobs, run) && Enabled(RunFrom(jobs, run), a)
    ensures var st := RunFrom(jobs, run);
            var st' := After(st, a);
            if a.Run? && Overwrites(st, a.t) then
              var job := st.threads[a.t].job;
              && Surplus(st, job, st.store[job.query])
              && st.store[job.query].stmt !in st.replaced
              && st'.replaced == st.replaced + {st.store[job.query].stmt}
            else
              st'.replaced == st.replaced
  {
    hide Possible, RunTo, NoReader, NoWriter, Exclusive, StmtOk;
    var st := RunFrom(jobs, run);
    NextInv(st, a);
    if a.Run? {
      assert ThreadOk(st, a.t);
    }
  }

  /** A lost statement stays lost: whatever happens afterwards it is never handed to the
      eviction callback and never closed. */
  lemma {:induction false} LostForGood(st: State, run: seq<Action>, s: nat)
    requires Inv(st) && Possible(st, run) && s in st.replaced
    ensures var end := RunTo(st, run); s in end.replaced && s !in end.evicted && s !in end.closed
    decreases |run|
  {
    if run != [] {
      KeepsReplaced(st, run[0]);
      LostForGood(After(st, run[0]), run[1..], s);
    } else {
      assert Accounted(st);
    }
  }

  lemma KeepsReplaced(st: State, a: Action)
    requires Inv(st) && Enabled(st, a)
    ensures st.replaced <= After(st, a).replaced
  {
    hide Inv, NoReader, NoWriter;
    NextInv(st, a);
  }

  /** No thread is under way. */
  ghost predicate Idle(st: State) {
    forall i :: 0 <= i < |st.threads| ==> st.threads[i].pc.RWait? || st.threads[i].pc.Done?
  }

  lemma {:induction false} Prolonged(st: State, run: seq<Action>, a: Action)
    requires Inv(st) && Possible(st, run) && Enabled(RunTo(st, run), a)
    ensures Possible(st, run + [a]) && RunTo(st, run + [a]) == After(RunTo(st, run), a)
    decreases |run|
  {
    var all := run + [a];
    if run == [] {
      assert all[1..] == [];
    } else {
      assert all[1..] == run[1..] + [a];
      Prolonged(After(st, run[0]), run[1..], a);
    }
  }

  /** One more step. */
  lemma Act(jobs: seq<Job>, run: seq<Action>, a: Action) returns (longer: seq<Action>)
    requires Runnable(jobs, run) && Enabled(RunFrom(jobs, run), a)
    ensures a.Run? ==> Sane(RunFrom(jobs, run), a.t)
    ensures longer == run + [a] && Runnable(jobs, longer) && RunFrom(jobs, longer) == Next(RunFrom(jobs, run), a)
  {
    StartInv(jobs);
    NextInv(RunFrom(jobs, run), a);
    longer := run + [a];
    Prolonged(Start(jobs), run, a);
  }

  /** One more step of thread `t`. */
  lemma Go(jobs: seq<Job>, run: seq<Action>, t: nat) returns (longer: seq<Action>)
    requires Runnable(jobs, run) && CanRun(RunFrom(jobs, run), t)
    ensures Sane(RunFrom(jobs, run), t)
    ensures longer == run + [Run(t, true)] && Runnable(jobs, longer)
    ensures RunFrom(jobs, longer) == Ran(RunFrom(jobs, run), t, true)
  {
    longer := Act(jobs, run, Run(t, true));
  }

  /** Past the first lookup, up to the lock. */
  lemma ToTheLock(jobs: seq<Job>, run: seq<Action>, t: nat) returns (longer: seq<Action>)
    requires Runnable(jobs, run)
    requires var st := RunFrom(jobs, run);
             && Idle(st) && t < |st.threads| && st.threads[t].pc.RWait? && st.threads[t].job.Prepare?
             && var job := st.threads[t].job;
                job.query in st.store ==> st.store[job.query].stmt < |st.stmts| && Surplus(st, job, st.store[job.query])
    ensures Runnable(jobs, longer) && RunFrom(jobs, longer) == Moved(RunFrom(jobs, run), t, WGet)
  {
    hide Inv, Runnable, RunFrom;
    var st := RunFrom(jobs, run);
    longer := Go(jobs, run, t);
    longer := Go(jobs, longer, t);
    if Hit(st, st.threads[t].job.query) {
      longer := Go(jobs, longer, t);
    }
    longer := Go(jobs, longer, t);
    longer := Go(jobs, longer, t);
    assert RunFrom(jobs, longer).threads == Moved(st, t, WGet).threads;
  }

  /** Under the lock, up to New. */
  lemma ToNew(jobs: seq<Job>, run: seq<Action>, t: nat) returns (longer: seq<Action>)
    requires Runnable(jobs, run)
    requires var st := RunFrom(jobs, run);
             && t < |st.threads| && st.threads[t].pc.WGet? && st.threads[t].job.Prepare?
             && var job := st.threads[t].job;
                job.query in st.store ==> st.store[job.query].stmt < |st.stmts| && Surplus(st, job, st.store[job.query])
    ensures Runnable(jobs, longer) && RunFrom(jobs, longer) == Moved(RunFrom(jobs, run), t, WNew)
  {
    hide Inv, Runnable, RunFrom;
    var st := RunFrom(jobs, run);
    longer := Go(jobs, run, t);
    if Hit(st, st.threads[t].job.query) {
      longer := Go(jobs, longer, t);
    }
    assert RunFrom(jobs, longer).threads == Moved(st, t, WNew).threads;
  }

  /** New makes and publishes a statement and comes back with it. */
  lemma ThroughNew(jobs: seq<Job>, run: seq<Action>, t: nat) returns (longer: seq<Action>)
    requires Runnable(jobs, run)
    requires var st := RunFrom(jobs, run); t < |st.threads| && st.threads[t].pc.WNew? && st.threads[t].job.Prepare?
    ensures Runnable(jobs, longer)
    ensures var st := RunFrom(jobs, run); var job := st.threads[t].job;
            RunFrom(jobs, longer) == Moved(Finished(st, t, job), t, Done(Some(|st.stmts|), false))
  {
    hide Inv, Runnable, RunFrom;
    var st := RunFrom(jobs, run);
    longer := Go(jobs, run, t);
    longer := Go(jobs, longer, t);
    longer := Go(jobs, longer, t);
    longer := Go(jobs, longer, t);
    var end := Moved(Finished(st, t, st.threads[t].job), t, Done(Some(|st.stmts|), false));
    assert RunFrom(jobs, longer).threads == end.threads;
    assert RunFrom(jobs, longer).stmts == end.stmts;
  }

  ghost function Finished(st: State, t: nat, job: Job): State
    requires job.Prepare?
  {
    var made := Published(st, job.query, job.isTransaction, t);
    made.(stmts := st.stmts + [Stmt(job.query, job.isTransaction, t, Ready, true)])
  }

  /** In every interleaving, whenever no thread is under way, a caller that may not use the
      entry of its query, if there is one, ends up with a statement of its own by its own
      steps alone, and what was stored is lost. */
  lemma NextCallerLoses(jobs: seq<Job>, run: seq<Action>, t: nat) returns (longer: seq<Action>)
    requires Runnable(jobs, run)
    requires var st := RunFrom(jobs, run);
             && Idle(st) && t < |st.threads| && st.threads[t].pc.RWait? && st.threads[t].job.Prepare?
             && var job := st.threads[t].job;
                job.query in st.store ==> Surplus(st, job, st.store[job.query])
    ensures Runnable(jobs, longer)
    ensures var st := RunFrom(jobs, run); var job := st.threads[t].job;
            RunFrom(jobs, longer) == Moved(Finished(st, t, job), t, Done(Some(|st.stmts|), false))
  {
    var key := RunFrom(jobs, run).threads[t].job.query;
    assert key in RunFrom(jobs, run).store ==> RunFrom(jobs, run).store[key].stmt < |RunFrom(jobs, run).stmts|;
    hide Inv, Accounted, Runnable, RunFrom, Idle, Surplus, CanRun;
    longer := ToTheLock(jobs, run, t);
    longer := ToNew(jobs, longer, t);
    longer := ThroughNew(jobs, longer, t);
    var st := RunFrom(jobs, run);
    var end := Moved(Finished(st, t, st.threads[t].job), t, Done(Some(|st.stmts|), false));
    assert RunFrom(jobs, longer).threads == end.threads;
  }

  /** Such a run: a query prepared inside a transaction and then outside one leaves the
      first statement neither stored nor closed, now and for good. */
  lemma PreparedTwiceLosesOne(query: string) returns (jobs: seq<Job>, run: seq<Action>)
    ensures jobs == [Prepare(query, true), Prepare(query, false)] && Runnable(jobs, run)
    ensures var st := RunFrom(jobs, run);
            && (forall t :: 0 <= t < |st.threads| ==> st.threads[t].pc.Done?)
            && st.store == map[query := Slot(1, false)] && 0 in st.replaced
            && forall more :: Possible(st, more) ==> 0 !in RunTo(st, more).closed
  {
    jobs, run := [Prepare(query, true), Prepare(query, false)], [];
    run := NextCallerLoses(jobs, run, 0);
    run := NextCallerLoses(jobs, run, 1);
    var st := RunFrom(jobs, run);
    forall more | Possible(st, more)
      ensures 0 !in RunTo(st, more).closed
    {
      LostForGood(st, more, 0);
    }
  }

  // ---------------------------------------------------------------- statements closed too early

  /** In every interleaving a returned statement is closed only if it was evicted, so never
      while its query is undisturbed. */
  lemma ReturnedClosedOnlyIfEvicted(jobs: seq<Job>, run: seq<Action>, t: nat)
    requires Runnable(jobs, run)
    requires var st := RunFrom(jobs, run); t < |st.threads| && st.threads[t].pc.Done? && st.threads[t].pc.stmt.Some?
    ensures var st := RunFrom(jobs, run); var th := st.threads[t];
            th.pc.stmt.value in st.closed ==>
              th.pc.stmt.value in st.evicted && th.job.Prepare? && th.job.query in st.disturbed
  {
    var st := RunFrom(jobs, run);
    assert ThreadOk(st, t) && Accounted(st);
  }

  /** In every interleaving a thread that waits for a statement it may use, which was evicted
      meanwhile and is prepared, can receive it after it was closed, and without an error if
      the preparation succeeded. */
  lemma WaiterMayReceiveClosed(jobs: seq<Job>, run: seq<Action>, t: nat, s: nat) returns (longer: seq<Action>)
    requires Runnable(jobs, run)
    requires var st := RunFrom(jobs, run);
             && t < |st.threads| && (st.threads[t].pc == RBlock(s) || st.threads[t].pc == WBlock(s))
             && IsPrepared(st, s) && Usable(st.stmts[s], st.threads[t].job) && s in st.evicted
    ensures Runnable(jobs, longer)
    ensures var st := RunFrom(jobs, longer); var was := RunFrom(jobs, run);
            && s in st.closed && st.stmts == was.stmts
            && st.threads == was.threads[t := was.threads[t].(pc := Done(Some(s), was.stmts[s].outcome.Failed?))]
  {
    hide Inv, Runnable, RunFrom, NoReader, NoWriter;
    longer := run;
    if s !in RunFrom(jobs, run).closed {
      longer := Act(jobs, run, CloseStmt(s));
    }
    longer := Act(jobs, longer, Run(t, true));
  }

  /** Such a run: two callers ask for a query, its entry is evicted while the first prepares
      it, and the second gets it when it is closed already. */
  lemma ReturnsAClosedOne(query: string) returns (run: seq<Action>)
    ensures var jobs := [Prepare(query, false), Prepare(query, false)];
            Runnable(jobs, run) &&
            var st := RunFrom(jobs, run);
            |st.threads| == 2 && st.threads[1].pc == Done(Some(0), false) && 0 in st.closed
  {
    var jobs := [Prepare(query, false), Prepare(query, false)];
    run := SecondWaits(query);
    hide Inv, Runnable, RunFrom;
    run := Act(jobs, run, Evict(query));
    run := Act(jobs, run, Run(0, true));
    run := Act(jobs, run, Run(0, true));
    run := WaiterMayReceiveClosed(jobs, run, 1, 0);
  }

  lemma FirstAtNew(query: string) returns (run: seq<Action>)
    ensures var jobs := [Prepare(query, false), Prepare(query, false)];
            Runnable(jobs, run) &&
            RunFrom(jobs, run) ==
            State([Thread(jobs[0], WNew), Thread(jobs[1], RWait)], [], map[], {}, {}, {}, {})
  {
    var jobs := [Prepare(query, false), Prepare(query, false)];
    run := [];
    var st := Start(jobs);
    assert Runnable(jobs, run) && RunFrom(jobs, run) == st;
    hide Inv, Runnable, RunFrom, Ran, Sane, CanRun;
    assert st.threads == [Thread(jobs[0], RWait), Thread(jobs[1], RWait)];
    run := ToTheLock(jobs, run, 0);
    run := ToNew(jobs, run, 0);
    assert RunFrom(jobs, run).threads == [Thread(jobs[0], WNew), Thread(jobs[1], RWait)];
  }

  lemma FirstPrepares(query: string) returns (run: seq<Action>)
    ensures var jobs := [Prepare(query, false), Prepare(query, false)];
            Runnable(jobs, run) &&
            RunFrom(jobs, run) ==
            State([Thread(jobs[0], Preparing(0)), Thread(jobs[1], RWait)], [Stmt(query, false, 0, Pending, false)],
                  map[query := Slot(0, false)], {}, {}, {}, {})
  {
    var jobs := [Prepare(query, false), Prepare(query, false)];
    run := FirstAtNew(query);
    hide Inv, Runnable, RunFrom;
    run := Act(jobs, run, Run(0, true));
    run := Act(jobs, run, Run(0, true));
    assert RunFrom(jobs, run).threads == [Thread(jobs[0], Preparing(0)), Thread(jobs[1], RWait)];
  }

  lemma SecondWaits(query: string) returns (run: seq<Action>)
    ensures var jobs := [Prepare(query, false), Prepare(query, false)];
            Runnable(jobs, run) &&
            RunFrom(jobs, run) ==
            State([Thread(jobs[0], Preparing(0)), Thread(jobs[1], RBlock(0))], [Stmt(query, false, 0, Pending, false)],
                  map[query := Slot(0, false)], {}, {}, {}, {})
  {
    var jobs := [Prepare(query, false), Prepare(query, false)];
    run := FirstPrepares(query);
    hide Inv, Runnable, RunFrom;
    run := Act(jobs, run, Run(1, true));
    run := Act(jobs, run, Run(1, true));
    assert RunFrom(jobs, run).threads == [Thread(jobs[0], Preparing(0)), Thread(jobs[1], RBlock(0))];
  }

  // ---------------------------------------------------------------- liveness

  function Rank(pc: Pc): nat {
    match pc
    case RWait => 12
    case RGet => 11
    case RBlock(_) => 10
    case WWait => 9
    case WAnnounced => 8
    case WGet => 7
    case WBlock(_) => 6
    case WNew => 5
    case WUnlock(_) => 4
    case Clearing => 4
    case Preparing(_) => 3
    case Deleting(_) => 2
    case Closing(_) => 1
    case Done(_, _) => 0
  }

  function Ahead(threads: seq<Thread>): nat {
    if threads == [] then 0 else Rank(threads[0].pc) + Ahead(threads[1..])
  }

  lemma {:induction false} AheadUpdate(threads: seq<Thread>, t: nat, th: Thread)
    requires t < |threads|
    ensures Ahead(threads[t := th]) == Ahead(threads) - Rank(threads[t].pc) + Rank(th.pc)
  {
    var changed := threads[t := th];
    if t == 0 {
      assert changed[1..] == threads[1..];
    } else {
      assert changed[1..] == threads[1..][t - 1 := th];
      AheadUpdate(threads[1..], t - 1, th);
    }
  }

  lemma RankDrops(st: State, t: nat, answer: bool)
    requires CanRun(st, t) && Sane(st, t)
    ensures var th := Ran(st, t, answer).threads[t];
            Rank(th.pc) < Rank(st.threads[t].pc) && Ran(st, t, answer).threads == st.threads[t := th]
  {
  }

  /** A thread's step brings all threads together closer to their end, and nothing else
      moves them. */
  lemma StepsComeToAnEnd(st: State, a: Action)
    requires Inv(st) && Enabled(st, a)
    ensures a.Run? ==> Ahead(After(st, a).threads) < Ahead(st.threads)
    ensures !a.Run? ==> After(st, a).threads == st.threads
  {
    hide Inv, Ran, CanRun, Sane;
    NextInv(st, a);
    if a.Run? {
      RankDrops(st, a.t, a.answer);
      AheadUpdate(st.threads, a.t, Next(st, a).threads[a.t]);
    }
  }

  function Steps(run: seq<Action>): nat {
    if run == [] then 0 else (if run[0].Run? then 1 else 0) + Steps(run[1..])
  }

  lemma {:induction false} AheadBounded(threads: seq<Thread>)
    ensures Ahead(threads) <= 12 * |threads|
  {
    if threads != [] {
      AheadBounded(threads[1..]);
    }
  }

  lemma {:induction false} StepsBounded(st: State, run: seq<Action>)
    requires Inv(st) && Possible(st, run)
    ensures Steps(run) + Ahead(RunTo(st, run).threads) <= Ahead(st.threads)
    decreases |run|
  {
    if run != [] {
      StepsComeToAnEnd(st, run[0]);
      StepsBounded(After(st, run[0]), run[1..]);
    }
  }

  /** If some thread has not returned, some thread can take a step: threads waiting for a
      channel wait for one that is being brought up, and those waiting for the lock wait for
      a thread that is not stuck itself. */
  lemma SomeThreadCanRun(st: State, t: nat) returns (r: nat)
    requires Inv(st) && t < |st.threads| && !st.threads[t].pc.Done?
    ensures CanRun(st, r)
  {
    if i :| 0 <= i < |st.threads| && (Reading(st.threads[i]) || Holding(st.threads[i])) {
      r := LockHolderRuns(st, i);
    } else if i :| 0 <= i < |st.threads| && st.threads[i].pc.WAnnounced? {
      r := i;
    } else {
      assert NoWriter(st) && NoReader(st);
      r := t;
    }
  }

  /** Whoever holds the lock can go on, or the thread preparing the statement it waits for
      can. */
  lemma LockHolderRuns(st: State, i: nat) returns (r: nat)
    requires Inv(st) && i < |st.threads| && (Reading(st.threads[i]) || Holding(st.threads[i]))
    ensures CanRun(st, r)
  {
    assert ThreadOk(st, i);
    var pc := st.threads[i].pc;
    r := i;
    if (pc.RBlock? || pc.WBlock?) && !st.stmts[pc.s].prepared {
      assert StmtOk(st, pc.s);
      r := st.stmts[pc.s].owner;
    }
  }

  /** No thread waits forever: however the steps interleave there are at most 12 for every
      thread, and as long as a thread has not returned one is possible, so scheduling any
      possible step until none is left makes every call return. */
  lemma NoThreadWaitsForever(jobs: seq<Job>, run: seq<Action>)
    requires Runnable(jobs, run)
    ensures Steps(run) <= 12 * |jobs|
    ensures var st := RunFrom(jobs, run);
            (forall t :: !CanRun(st, t)) ==> forall t :: 0 <= t < |st.threads| ==> st.threads[t].pc.Done?
  {
    StartInv(jobs);
    StepsBounded(Start(jobs), run);
    AheadBounded(Start(jobs).threads);
    var st := RunFrom(jobs, run);
    if t :| 0 <= t < |st.threads| && !st.threads[t].pc.Done? {
      var r := SomeThreadCanRun(st, t);
      assert exists q :: CanRun(st, q);
    }
  }

  // ---------------------------------------------------------------- single flight

  /** As long as no entry of a key expired, was evicted or failed, at most two statements
      were made for it: one prepared inside a transaction and one that replaced it, or just
      one. A thread about to make one is a caller outside a transaction who found only the
      transaction's, or the first to ask. */
  ghost predicate Flights(st: State, key: string) {
    key !in st.disturbed ==>
      && (key in st.store ==> !st.store[key].expired)
      && (forall s :: 0 <= s < |st.stmts| && st.stmts[s].key == key ==>
           && key in st.store
           && (s == st.store[key].stmt || Superseded(st, s, st.store[key].stmt)))
      && (forall r, s ::
           (0 <= r < |st.stmts| && 0 <= s < |st.stmts| && st.stmts[r].key == key && st.stmts[s].key == key
            && key in st.store && r != st.store[key].stmt && s != st.store[key].stmt) ==> r == s)
      && (forall i :: 0 <= i < |st.threads| && Making(st.threads[i], key) && key in st.store ==>
           OutsideOnly(st, st.threads[i].job, st.store[key].stmt))
  }

  ghost predicate Making(th: Thread, key: string) {
    th.pc.WNew? && th.job.Prepare? && th.job.query == key
  }

  ghost predicate OutsideOnly(st: State, job: Job, s: nat) {
    s < |st.stmts| && st.stmts[s].transaction && job.Prepare? && !job.isTransaction
  }

  ghost predicate Superseded(st: State, earlier: nat, s: nat) {
    earlier < s < |st.stmts| && st.stmts[earlier].transaction && !st.stmts[s].transaction
  }

  /** A step that makes no statement and leaves the entry of the key alone, or disturbs it. */
  lemma FlightsSame(st: State, st': State, key: string, t: nat)
    requires Flights(st, key) && |st'.threads| == |st.threads|
    requires st.disturbed <= st'.disturbed
    requires key !in st'.disturbed ==>
               && (key in st'.store <==> key in st.store)
               && (key in st.store ==> st'.store[key] == st.store[key])
    requires |st'.stmts| == |st.stmts|
    requires forall s :: 0 <= s < |st.stmts| ==>
               st'.stmts[s].key == st.stmts[s].key && st'.stmts[s].transaction == st.stmts[s].transaction
    requires forall i :: 0 <= i < |st.threads| && i != t ==> st'.threads[i] == st.threads[i]
    requires t < |st.threads| && Making(st'.threads[t], key) && key !in st'.disturbed && key in st.store ==>
               OutsideOnly(st, st'.threads[t].job, st.store[key].stmt)
    ensures Flights(st', key)
  {
  }

  lemma FlightsKept(st: State, a: Action, key: string)
    requires Inv(st) && Enabled(st, a) && Flights(st, key)
    ensures Flights(After(st, a), key)
  {
    NextInv(st, a);
    if !a.Run? {
      EnvironmentFlight(st, a, key);
    } else {
      assert ThreadOk(st, a.t);
      if st.threads[a.t].pc.WNew? {
        NewFlight(st, a.t, a.answer, key);
      } else {
        OtherFlight(st, a.t, a.answer, key);
      }
    }
  }

  lemma EnvironmentFlight(st: State, a: Action, key: string)
    requires Enabled(st, a) && !a.Run? && Flights(st, key)
    ensures Flights(Next(st, a), key)
  {
    FlightsSame(st, Next(st, a), key, |st.threads|);
  }

  /** Coming to WNew a thread found nothing, or a statement of a transaction it may not use. */
  lemma ComingToMake(st: State, t: nat, answer: bool, key: string)
    requires Inv(st) && CanRun(st, t) && !st.threads[t].pc.WNew? && Sane(st, t) && Flights(st, key)
    requires Making(Ran(st, t, answer).threads[t], key) && key !in st.disturbed && key in st.store
    ensures OutsideOnly(st, st.threads[t].job, st.store[key].stmt)
  {
    assert ThreadOk(st, t);
    hide Exclusive, StmtOk, Accounted, NoReader, NoWriter;
    var pc := st.threads[t].pc;
    if pc.WBlock? {
      assert st.stmts[pc.s].key == key && st.store[key].stmt == pc.s;
    }
  }

  /** A step that makes no statement keeps all of them, and the entry of every key it does
      not disturb. */
  lemma MakesNone(st: State, t: nat, answer: bool)
    requires CanRun(st, t) && !st.threads[t].pc.WNew? && Sane(st, t)
    ensures var st' := Ran(st, t, answer);
            && t < |st'.threads| == |st.threads| && |st'.stmts| == |st.stmts| && st.disturbed <= st'.disturbed
            && (forall s :: 0 <= s < |st.stmts| ==>
                 st'.stmts[s].key == st.stmts[s].key && st'.stmts[s].transaction == st.stmts[s].transaction)
            && (forall i :: 0 <= i < |st.threads| && i != t ==> st'.threads[i] == st.threads[i])
            && st'.threads[t].job == st.threads[t].job
  {
    hide NoReader, NoWriter, Cleared;
    ClearedKeeps(st);
  }

  lemma ClearedKeeps(st: State)
    ensures Cleared(st).threads == st.threads && Cleared(st).stmts == st.stmts && st.disturbed <= Cleared(st).disturbed
    ensures forall k :: k !in Cleared(st).disturbed ==>
              && (k in Cleared(st).store <==> k in st.store)
              && (k in st.store ==> Cleared(st).store[k] == st.store[k])
  {
  }

  lemma LeavesUndisturbed(st: State, t: nat, answer: bool)
    requires CanRun(st, t) && !st.threads[t].pc.WNew? && Sane(st, t)
    ensures var st' := Ran(st, t, answer);
            forall k :: k !in st'.disturbed ==>
              && (k in st'.store <==> k in st.store)
              && (k in st.store ==> st'.store[k] == st.store[k])
  {
    hide NoReader, NoWriter, Cleared;
    ClearedKeeps(st);
  }

  lemma OtherFlight(st: State, t: nat, answer: bool, key: string)
    requires Inv(st) && CanRun(st, t) && !st.threads[t].pc.WNew? && Sane(st, t) && Flights(st, key)
    ensures Flights(Ran(st, t, answer), key)
  {
    hide Inv, Flights, Ran, CanRun, Sane, OutsideOnly;
    MakesNone(st, t, answer);
    LeavesUndisturbed(st, t, answer);
    var st' := Ran(st, t, answer);
    if Making(st'.threads[t], key) && key !in st'.disturbed && key in st.store {
      ComingToMake(st, t, answer, key);
    }
    FlightsSame(st, st', key, t);
  }

  lemma NewFlight(st: State, t: nat, answer: bool, key: string)
    requires Inv(st) && CanRun(st, t) && st.threads[t].pc.WNew? && Sane(st, t) && Flights(st, key)
    ensures Flights(Ran(st, t, answer), key)
  {
    HolderAlone(st, t);
    var st' := Ran(st, t, answer);
    if key !in st.disturbed && st.threads[t].job.query == key {
      assert Making(st.threads[t], key);
      forall i | 0 <= i < |st'.threads|
        ensures !Making(st'.threads[i], key)
      {
      }
    }
  }

  lemma {:induction false} FlightsInRun(st: State, run: seq<Action>, key: string)
    requires Inv(st) && Possible(st, run) && Flights(st, key)
    ensures Flights(RunTo(st, run), key)
    decreases |run|
  {
    if run != [] {
      FlightsKept(st, run[0], key);
      FlightsInRun(After(st, run[0]), run[1..], key);
    }
  }

  /** Single flight: of two statements ever made for a key that was never disturbed, the
      earlier was prepared inside a transaction and the later was not. So however many calls
      ask for the query at once, the database prepares it at most once for each mode. */
  lemma PreparedOncePerMode(jobs: seq<Job>, run: seq<Action>, key: string, r: nat, s: nat)
    requires Runnable(jobs, run)
    requires var st := RunFrom(jobs, run);
             && key !in st.disturbed && r < s < |st.stmts| && st.stmts[r].key == key && st.stmts[s].key == key
    ensures var st := RunFrom(jobs, run);
            && st.stmts[r].transaction && !st.stmts[s].transaction
            && forall q :: 0 <= q < |st.stmts| && st.stmts[q].key == key ==> q == r || q == s
  {
    FlightsInRun(Start(jobs), run, key);
    var st := RunFrom(jobs, run);
    var current := st.store[key].stmt;
  }
}
