/** Transaction, Begin, Commit, Rollback, SavePoint and RollbackTo of gorm/finisher_api.go
    and the implicit transaction of gorm/callbacks/transaction.go, over a database with
    savepoints. User code is a tree of blocks; every answer of the database that the code
    looks at is part of the tree. An error stays on the *gorm.DB it was added to: whatever
    is called on that DB afterwards fails without reaching the database. */
module Transactions {
  import opened Options

  type Write = int

  // ---------------------------------------------------------------- the database

  datatype Save = Save(name: string, snapshot: seq<Write>)

  /** An open transaction: its writes so far and its savepoints, the oldest first. */
  datatype Tx = Tx(writes: seq<Write>, saves: seq<Save>)

  /** The youngest savepoint of that name. */
  function LastSave(saves: seq<Save>, name: string): (i: nat)
    ensures i <= |saves|
    ensures i < |saves| ==> saves[i].name == name
    ensures forall j :: i < j < |saves| ==> saves[j].name != name
    ensures i == |saves| ==> forall j :: 0 <= j < |saves| ==> saves[j].name != name
  {
    if saves == [] then 0
    else if saves[|saves| - 1].name == name then |saves| - 1
    else
      var i := LastSave(saves[..|saves| - 1], name);
      if i == |saves| - 1 then |saves| else i
  }

  class Database {
    var committed: seq<Write>
    var tx: Option<Tx>

    constructor ()
      ensures committed == [] && tx == None
    {
      committed, tx := [], None;
    }

    method BeginTx()
      requires tx.None?
      modifies this
      ensures committed == old(committed) && tx == Some(Tx([], []))
    {
      tx := Some(Tx([], []));
    }

    method Commit(ok: bool)
      requires tx.Some?
      modifies this
      ensures tx == None && committed == old(committed) + if ok then old(tx).value.writes else []
    {
      if ok {
        committed := committed + tx.value.writes;
      }
      tx := None;
    }

    /** Rolling back a transaction that is over already does nothing. */
    method Rollback()
      modifies this
      ensures tx == None && committed == old(committed)
    {
      tx := None;
    }

    method Exec(w: Write)
      modifies this
      ensures old(tx).Some? ==>
                committed == old(committed) && tx == Some(old(tx).value.(writes := old(tx).value.writes + [w]))
      ensures old(tx).None? ==> committed == old(committed) + [w] && tx == None
    {
      if tx.Some? {
        tx := Some(tx.value.(writes := tx.value.writes + [w]));
      } else {
        committed := committed + [w];
      }
    }

    method SavePoint(name: string)
      requires tx.Some?
      modifies this
      ensures committed == old(committed)
      ensures tx == Some(Tx(old(tx).value.writes, old(tx).value.saves + [Save(name, old(tx).value.writes)]))
    {
      tx := Some(tx.value.(saves := tx.value.saves + [Save(name, tx.value.writes)]));
    }

    /** Back to the youngest savepoint of that name, which stays; an unknown name is refused. */
    method RollbackTo(name: string)
      requires tx.Some?
      modifies this
      ensures committed == old(committed) && tx.Some?
      ensures var i := LastSave(old(tx).value.saves, name);
              tx == if i < |old(tx).value.saves|
                    then Some(Tx(old(tx).value.saves[i].snapshot, old(tx).value.saves[..i + 1])) else old(tx)
    {
      var i := LastSave(tx.value.saves, name);
      if i < |tx.value.saves| {
        tx := Some(Tx(tx.value.saves[i].snapshot, tx.value.saves[..i + 1]));
      }
    }
  }

  // ---------------------------------------------------------------- user code

  /** How the function passed to Transaction ends. */
  datatype Outcome = Nil | Err | Panicked

  /** A block is what one function passed to Transaction does. */
  datatype Block = Block(steps: seq<Step>, end: Outcome)

  /** One operation through the callbacks, with the answers of the database to its own
      implicit transaction and to the operation; or a nested call of Transaction, with the
      name of its savepoint, the answers to its beginning, to its rollback to the savepoint
      and to Commit, and what the caller does with an error (return it or go on) and with a
      panic (recover or not). */
  datatype Step =
    | Operation(w: Write, begins: bool, succeeds: bool, commits: bool)
    | Nested(body: Block, name: string, begins: bool, undoes: bool, commits: bool, returnsError: bool, recovers: bool)

  datatype Config = Config(disableNestedTransaction: bool, skipDefaultTransaction: bool)

  // ---------------------------------------------------------------- what it achieves

  /** What a piece of user code achieves: how it ends, the writes and savepoints it adds to the
      open transaction, counted from where it began, and whether the DB it ran on has an error. */
  datatype Effect = Effect(outcome: Outcome, writes: seq<Write>, saves: seq<Save>, failed: bool)

  function Shifted(saves: seq<Save>, base: seq<Write>): seq<Save> {
    seq(|saves|, i requires 0 <= i < |saves| => saves[i].(snapshot := base + saves[i].snapshot))
  }

  /** First the writes and savepoints of `e`, then `rest`. */
  function Then(e: Effect, rest: Effect): Effect {
    Effect(rest.outcome, e.writes + rest.writes, e.saves + Shifted(rest.saves, e.writes), rest.failed)
  }

  function OperationWrites(op: Step, inTx: bool, failed: bool, cfg: Config): seq<Write>
    requires op.Operation?
  {
    if !failed && op.succeeds && (inTx || cfg.skipDefaultTransaction || (op.begins && op.commits)) then [op.w] else []
  }

  /** A top-level transaction: what its block wrote is committed or gone, and an error on its
      DB, though it keeps nothing from being committed, is what Commit answers. */
  function RootEffect(n: Step, cfg: Config): Effect
    requires n.Nested?
    decreases n, 2
  {
    if !n.begins then Effect(Err, [], [], false)
    else
      var e := BlockEffect(n.body, true, false, cfg);
      if !e.outcome.Nil? then Effect(e.outcome, [], [], false)
      else if !n.commits then Effect(Err, [], [], false)
      else Effect(if e.failed then Err else Nil, e.writes, [], false)
  }

  /** A nested one: with a savepoint it is undone when it did not return nil, as far back as the
      youngest savepoint of its name; without, it is just its block. */
  function NestedEffect(n: Step, failed: bool, cfg: Config): Effect
    requires n.Nested?
    decreases n, 2
  {
    if cfg.disableNestedTransaction then BlockEffect(n.body, true, failed, cfg).(failed := failed)
    else if failed || !n.begins then Effect(Err, [], [], true)
    else
      var e := BlockEffect(n.body, true, false, cfg);
      var saves := [Save(n.name, [])] + e.saves;
      if !e.outcome.Nil? && n.undoes then
        var i := LastSave(saves, n.name);
        assert saves[0].name == n.name;
        Effect(e.outcome, saves[i].snapshot, saves[..i + 1], false)
      else Effect(e.outcome, e.writes, saves, !e.outcome.Nil?)
  }

  function TransactionEffect(n: Step, inTx: bool, failed: bool, cfg: Config): Effect
    requires n.Nested?
    decreases n, 3
  {
    if inTx then NestedEffect(n, failed, cfg) else RootEffect(n, cfg)
  }

  /** Whether the caller of a nested block stops. */
  predicate Stops(n: Step, outcome: Outcome)
    requires n.Nested?
  {
    (outcome.Err? && n.returnsError) || (outcome.Panicked? && !n.recovers)
  }

  function StepsEffect(steps: seq<Step>, end: Outcome, inTx: bool, failed: bool, cfg: Config): Effect
    decreases steps, 1
  {
    if steps == [] then Effect(end, [], [], failed)
    else
      match steps[0]
      case Operation(_, _, _, _) =>
        Then(Effect(Nil, OperationWrites(steps[0], inTx, failed, cfg), [], failed),
             StepsEffect(steps[1..], end, inTx, failed, cfg))
      case Nested(_, _, _, _, _, _, _) =>
        var e := TransactionEffect(steps[0], inTx, failed, cfg);
        if Stops(steps[0], e.outcome) then e else Then(e, StepsEffect(steps[1..], end, inTx, e.failed, cfg))
  }

  function BlockEffect(b: Block, inTx: bool, failed: bool, cfg: Config): Effect
    decreases b, 4
  {
    StepsEffect(b.steps, b.end, inTx, failed, cfg)
  }

  // ---------------------------------------------------------------- sessions

  /** A *gorm.DB: the pool its statement runs on is a transaction or not, and whether it has
      started an implicit transaction or has an error. */
  class Session {
    const db: Database
    const config: Config
    var inTx: bool
    var started: bool
    var failed: bool

    /** A DB made from another takes over its error. */
    constructor (db: Database, config: Config, inTx: bool, failed: bool)
      ensures this.db == db && this.config == config && this.inTx == inTx && !started && this.failed == failed
    {
      this.db, this.config, this.inTx, this.started, this.failed := db, config, inTx, false, failed;
    }
  }

  /** The change a piece of user code makes to the database: inside a transaction its writes and
      savepoints join the open one; outside its writes are committed and none stays open. */
  ghost predicate Applied(committed: seq<Write>, tx: Option<Tx>, committed': seq<Write>, tx': Option<Tx>,
                          inTx: bool, e: Effect)
  {
    if inTx then
      && tx.Some? && committed' == committed
      && tx' == Some(Tx(tx.value.writes + e.writes, tx.value.saves + Shifted(e.saves, tx.value.writes)))
    else
      tx.None? && tx'.None? && committed' == committed + e.writes && e.saves == []
  }

  // ---------------------------------------------------------------- implicit transactions

  method BeginTransaction(s: Session, begins: bool)
    requires s.inTx == s.db.tx.Some?
    modifies s, s.db
    ensures s.inTx == s.db.tx.Some? && s.db.committed == old(s.db.committed)
    ensures old(s.inTx) || s.config.skipDefaultTransaction || old(s.failed) ==>
              && s.db.tx == old(s.db.tx) && s.started == old(s.started)
              && s.failed == old(s.failed) && s.inTx == old(s.inTx)
    ensures !old(s.inTx) && !s.config.skipDefaultTransaction && !old(s.failed) ==>
              && s.db.tx == (if begins then Some(Tx([], [])) else None)
              && s.started == (begins || old(s.started)) && s.failed == !begins
  {
    if !s.config.skipDefaultTransaction && !s.failed {
      if s.inTx {
        // Begin on a transaction answers ErrInvalidTransaction, which is dropped
      } else if begins {
        s.db.BeginTx();
        s.inTx := true;
        s.started := true;
      } else {
        s.failed := true;
      }
    }
  }

  method CommitOrRollbackTransaction(s: Session, commits: bool)
    requires s.inTx == s.db.tx.Some? && (s.started ==> s.inTx)
    modifies s, s.db
    ensures s.config.skipDefaultTransaction || !old(s.started) ==>
              s.db.tx == old(s.db.tx) && s.db.committed == old(s.db.committed)
    ensures !s.config.skipDefaultTransaction && old(s.started) ==>
              && s.db.tx == None
              && s.db.committed ==
                 old(s.db.committed) + if !old(s.failed) && commits then old(s.db.tx).value.writes else []
    ensures s.started == old(s.started) && s.failed == old(s.failed) && s.inTx == s.db.tx.Some?
  {
    if !s.config.skipDefaultTransaction {
      if s.started {
        if s.failed {
          s.db.Rollback();
        } else {
          s.db.Commit(commits);
        }
        s.inTx := false;
      }
    }
  }

  /** One operation between its two callbacks, on a DB made from `s`. Inside a transaction it
      never ends it. */
  method Operate(s: Session, op: Step)
    requires op.Operation? && s.inTx == s.db.tx.Some?
    modifies s.db
    ensures Applied(old(s.db.committed), old(s.db.tx), s.db.committed, s.db.tx, s.inTx,
                    Effect(Nil, OperationWrites(op, s.inTx, s.failed, s.config), [], s.failed))
  {
    hide Shifted;
    if s.inTx {
      NothingDone(s.db.tx.value);
    }
    ghost var before := s.db.tx;
    var o := new Session(s.db, s.config, s.inTx, s.failed);
    BeginTransaction(o, op.begins);
    if !o.failed {
      if op.succeeds {
        o.db.Exec(op.w);
      } else {
        o.failed := true;
      }
    }
    CommitOrRollbackTransaction(o, op.commits);
    if s.inTx {
      ShiftNone(before.value.writes);
      assert before.value.saves + [] == before.value.saves;
    }
  }

  // ---------------------------------------------------------------- Transaction

  /** DB.SavePoint: refused by the database, by a dialect without savepoints, or because the DB
      has an error already; a refusal stays on the DB. */
  method SavePoint(s: Session, name: string, granted: bool)
    requires s.db.tx.Some?
    modifies s`failed, s.db
    ensures s.db.committed == old(s.db.committed) && s.failed == (old(s.failed) || !granted)
    ensures s.db.tx == if s.failed then old(s.db.tx)
                       else Some(Tx(old(s.db.tx).value.writes,
                                    old(s.db.tx).value.saves + [Save(name, old(s.db.tx).value.writes)]))
  {
    if !s.failed && granted {
      s.db.SavePoint(name);
    } else {
      s.failed := true;
    }
  }

  /** DB.RollbackTo, refused like SavePoint. */
  method RollbackTo(s: Session, name: string, granted: bool)
    requires s.db.tx.Some?
    modifies s`failed, s.db
    ensures s.db.committed == old(s.db.committed) && s.failed == (old(s.failed) || !granted)
    ensures var saves := old(s.db.tx).value.saves; var i := LastSave(saves, name);
            s.db.tx == if s.failed || i == |saves| then old(s.db.tx) else Some(Tx(saves[i].snapshot, saves[..i + 1]))
  {
    if !s.failed && granted {
      s.db.RollbackTo(name);
    } else {
      s.failed := true;
    }
  }

  /** DB.Transaction, with its deferred rollback written where the function is left. */
  method Transaction(s: Session, n: Step) returns (outcome: Outcome)
    requires n.Nested? && s.inTx == s.db.tx.Some? && (s.inTx || !s.failed)
    modifies s`failed, s.db
    ensures var e := TransactionEffect(n, s.inTx, old(s.failed), s.config);
            && outcome == e.outcome && s.failed == e.failed
            && Applied(old(s.db.committed), old(s.db.tx), s.db.committed, s.db.tx, s.inTx, e)
    decreases n, 2
  {
    if s.inTx {
      outcome := NestedTransaction(s, n);
    } else {
      outcome := RootTransaction(s, n);
    }
  }

  method RootTransaction(s: Session, n: Step) returns (outcome: Outcome)
    requires n.Nested? && !s.inTx && s.db.tx.None? && !s.failed
    modifies s.db
    ensures var e := RootEffect(n, s.config);
            outcome == e.outcome && s.db.tx.None? && s.db.committed == old(s.db.committed) + e.writes
    decreases n, 1
  {
    if !n.begins {
      return Err;
    }
    s.db.BeginTx();
    var tx := new Session(s.db, s.config, true, s.failed);
    var panicked := true;
    outcome := RunBlock(tx, n.body);
    if outcome.Nil? {
      panicked := false;
      s.db.Commit(n.commits);
      if !n.commits {
        tx.failed := true;
      }
      outcome := if tx.failed then Err else Nil;
    } else if outcome.Err? {
      panicked := false;
    }
    // deferred
    if panicked || outcome.Err? {
      s.db.Rollback();
    }
  }

  method NestedTransaction(s: Session, n: Step) returns (outcome: Outcome)
    requires n.Nested? && s.inTx && s.db.tx.Some?
    modifies s`failed, s.db
    ensures var e := NestedEffect(n, old(s.failed), s.config);
            && outcome == e.outcome && s.failed == e.failed
            && Applied(old(s.db.committed), old(s.db.tx), s.db.committed, s.db.tx, true, e)
    decreases n, 1
  {
    hide Shifted, LastSave, BlockEffect;
    var panicked := true;
    var savepoint := !s.config.disableNestedTransaction;
    ghost var start := s.db.tx.value;
    if savepoint {
      SavePoint(s, n.name, n.begins);
      if s.failed {
        NothingDone(start);
        return Err;
      }
    }
    var inner := new Session(s.db, s.config, true, s.failed);
    outcome := RunBlock(inner, n.body);
    if !outcome.Panicked? {
      panicked := false;
    }
    ghost var e := BlockEffect(n.body, true, s.failed, s.config);
    ghost var saves := [Save(n.name, [])] + e.saves;
    ghost var i := LastSave(saves, n.name);
    if savepoint {
      OwnThenInner(start, n.name, e.saves);
      OwnSavepoint(start, n.name, e.saves);
      CutBack(start, saves, i);
      assert s.db.tx == Some(Tx(start.writes + e.writes, start.saves + Shifted(saves, start.writes)));
    }
    // deferred
    if savepoint && (panicked || outcome.Err?) {
      RollbackTo(s, n.name, n.undoes);
      assert n.undoes ==>
          s.db.tx == Some(Tx(start.writes + saves[i].snapshot, start.saves + Shifted(saves[..i + 1], start.writes)));
    }
  }

  lemma NothingDone(start: Tx)
    ensures Tx(start.writes + [], start.saves + Shifted([], start.writes)) == start
  {
  }

  /** The youngest savepoint of a block's name is its own or a younger one, never an older: what
      the block finds before it is out of its reach. */
  lemma OwnSavepoint(start: Tx, name: string, inner: seq<Save>)
    ensures var saves := [Save(name, [])] + inner; var i := LastSave(saves, name);
            && i < |saves| == |Shifted(saves, start.writes)|
            && LastSave(start.saves + Shifted(saves, start.writes), name) == |start.saves| + i
  {
    var saves := [Save(name, [])] + inner;
    var i := LastSave(saves, name);
    assert saves[0].name == name;
    var all := start.saves + Shifted(saves, start.writes);
    forall j | |start.saves| + i < j < |all| ensures all[j].name != name {
      assert all[j].name == saves[j - |start.saves|].name;
    }
    assert all[|start.saves| + i].name == saves[i].name;
  }

  lemma OwnThenInner(start: Tx, name: string, inner: seq<Save>)
    ensures start.saves + [Save(name, start.writes)] + Shifted(inner, start.writes)
         == start.saves + Shifted([Save(name, [])] + inner, start.writes)
  {
    assert start.writes + [] == start.writes;
    assert Shifted([Save(name, [])] + inner, start.writes) == [Save(name, start.writes)] + Shifted(inner, start.writes);
  }

  lemma CutBack(start: Tx, saves: seq<Save>, i: nat)
    requires i < |saves|
    ensures var all := start.saves + Shifted(saves, start.writes);
            && all[|start.saves| + i].snapshot == start.writes + saves[i].snapshot
            && all[..|start.saves| + i + 1] == start.saves + Shifted(saves[..i + 1], start.writes)
  {
  }

  lemma ShiftTwice(saves: seq<Save>, a: seq<Write>, b: seq<Write>)
    ensures Shifted(Shifted(saves, b), a) == Shifted(saves, a + b)
  {
    forall i | 0 <= i < |saves| ensures a + (b + saves[i].snapshot) == a + b + saves[i].snapshot {
    }
  }

  lemma ShiftBoth(first: seq<Save>, second: seq<Save>, base: seq<Write>)
    ensures Shifted(first + second, base) == Shifted(first, base) + Shifted(second, base)
  {
  }

  lemma Compose(c: seq<Write>, tx: Option<Tx>, c': seq<Write>, tx': Option<Tx>, c'': seq<Write>, tx'': Option<Tx>,
                inTx: bool, e: Effect, rest: Effect)
    requires Applied(c, tx, c', tx', inTx, e) && Applied(c', tx', c'', tx'', inTx, rest)
    ensures Applied(c, tx, c'', tx'', inTx, Then(e, rest))
  {
    hide Shifted;
    if inTx {
      var w := tx.value.writes;
      assert w + (e.writes + rest.writes) == w + e.writes + rest.writes;
      ShiftTwice(rest.saves, w, e.writes);
      ShiftBoth(e.saves, Shifted(rest.saves, e.writes), w);
      assert tx.value.saves + (Shifted(e.saves, w) + Shifted(rest.saves, w + e.writes))
          == tx.value.saves + Shifted(e.saves, w) + Shifted(rest.saves, w + e.writes);
    } else {
      assert c + (e.writes + rest.writes) == c + e.writes + rest.writes;
      assert Shifted(rest.saves, e.writes) == [] by { ShiftNone(e.writes); }
    }
  }

  lemma ShiftNone(base: seq<Write>)
    ensures Shifted([], base) == []
  {
  }

  method RunBlock(s: Session, b: Block) returns (outcome: Outcome)
    requires s.inTx == s.db.tx.Some? && (s.inTx || !s.failed)
    modifies s`failed, s.db
    ensures var e := BlockEffect(b, s.inTx, old(s.failed), s.config);
            && outcome == e.outcome && s.failed == e.failed
            && Applied(old(s.db.committed), old(s.db.tx), s.db.committed, s.db.tx, s.inTx, e)
    decreases b, 4
  {
    outcome := RunSteps(s, b.steps, b.end);
  }

  /** The user's code: its steps in order, left early by an error it returns or a panic it
      does not recover from. */
  method RunSteps(s: Session, steps: seq<Step>, end: Outcome) returns (outcome: Outcome)
    requires s.inTx == s.db.tx.Some? && (s.inTx || !s.failed)
    modifies s`failed, s.db
    ensures var e := StepsEffect(steps, end, s.inTx, old(s.failed), s.config);
            && outcome == e.outcome && s.failed == e.failed
            && Applied(old(s.db.committed), old(s.db.tx), s.db.committed, s.db.tx, s.inTx, e)
    decreases steps, 1
  {
    if steps == [] {
      if s.inTx {
        NothingDone(s.db.tx.value);
      }
      return end;
    }
    ghost var committed, tx, failed := s.db.committed, s.db.tx, s.failed;
    ghost var e: Effect;
    if steps[0].Operation? {
      Operate(s, steps[0]);
      e := Effect(Nil, OperationWrites(steps[0], s.inTx, s.failed, s.config), [], s.failed);
    } else {
      outcome := Transaction(s, steps[0]);
      e := TransactionEffect(steps[0], s.inTx, failed, s.config);
      if Stops(steps[0], outcome) {
        return;
      }
    }
    ghost var committed', tx', failed' := s.db.committed, s.db.tx, s.failed;
    outcome := RunSteps(s, steps[1..], end);
    Compose(committed, tx, committed', tx', s.db.committed, s.db.tx, s.inTx, e,
            StepsEffect(steps[1..], end, s.inTx, failed', s.config));
  }

  // ---------------------------------------------------------------- the error of a session

  /** A nested call that leaves an error on the DB it was called on: its savepoint or, when its
      block did not return nil, its rollback is refused. */
  predicate Refused(n: Step, cfg: Config) {
    && n.Nested? && !cfg.disableNestedTransaction
    && (!n.begins || (!BlockEffect(n.body, true, false, cfg).outcome.Nil? && !n.undoes))
  }

  /** The steps that a function gets to. */
  function Made(steps: seq<Step>, failed: bool, cfg: Config): seq<Step> {
    if steps == [] then []
    else if steps[0].Operation? then [steps[0]] + Made(steps[1..], failed, cfg)
    else
      var e := NestedEffect(steps[0], failed, cfg);
      [steps[0]] + if Stops(steps[0], e.outcome) then [] else Made(steps[1..], e.failed, cfg)
  }

  /** A function leaves an error on its DB exactly when a nested call it made was refused. */
  lemma {:induction false} FailsIffRefused(steps: seq<Step>, end: Outcome, failed: bool, cfg: Config)
    ensures StepsEffect(steps, end, true, failed, cfg).failed <==>
            failed || exists n :: n in Made(steps, failed, cfg) && Refused(n, cfg)
  {
    if steps != [] {
      var first, rest := steps[0], steps[1..];
      if first.Operation? {
        FailsIffRefused(rest, end, failed, cfg);
        FirstOrLater(first, Made(rest, failed, cfg), cfg);
      } else {
        var e := NestedEffect(first, failed, cfg);
        assert e.failed <==> failed || Refused(first, cfg);
        FailsIffRefused(rest, end, e.failed, cfg);
        FirstOrLater(first, if Stops(first, e.outcome) then [] else Made(rest, e.failed, cfg), cfg);
      }
    }
  }

  lemma FirstOrLater(first: Step, later: seq<Step>, cfg: Config)
    ensures (exists n :: n in [first] + later && Refused(n, cfg)) <==>
            Refused(first, cfg) || exists n :: n in later && Refused(n, cfg)
  {
    hide Refused;
    if n :| n in later && Refused(n, cfg) {
      assert n in [first] + later;
    }
    assert first in [first] + later;
  }

  /** After a refusal nothing more is written through that DB. */
  lemma {:induction false} NothingAfterRefusal(steps: seq<Step>, end: Outcome, cfg: Config)
    requires !cfg.disableNestedTransaction
    ensures var e := StepsEffect(steps, end, true, true, cfg); e.writes == [] && e.saves == [] && e.failed
  {
    if steps != [] {
      NothingAfterRefusal(steps[1..], end, cfg);
      ShiftNone([]);
      var rest := StepsEffect(steps[1..], end, true, true, cfg);
      if steps[0].Nested? {
        assert NestedEffect(steps[0], true, cfg) == Effect(Err, [], [], true);
        assert Then(Effect(Err, [], [], true), rest) == Effect(rest.outcome, [], [], true);
      } else {
        assert Then(Effect(Nil, [], [], true), rest) == Effect(rest.outcome, [], [], true);
      }
    }
  }

  // ---------------------------------------------------------------- names

  /** The savepoint names used anywhere below. */
  function Names(steps: seq<Step>): set<string>
    decreases steps, 0
  {
    if steps == [] then {}
    else (if steps[0].Nested? then {steps[0].name} + Names(steps[0].body.steps) else {}) + Names(steps[1..])
  }

  /** No block uses the name of a block it is nested in. */
  predicate WellNamed(steps: seq<Step>)
    decreases steps, 0
  {
    steps == [] ||
    (&& (steps[0].Nested? ==> steps[0].name !in Names(steps[0].body.steps) && WellNamed(steps[0].body.steps))
     && WellNamed(steps[1..]))
  }

  /** The savepoints bear names used below, and each was set with what the one before it saw
      and no more than was written in the end. */
  ghost predicate Layered(e: Effect, names: set<string>) {
    && (forall i :: 0 <= i < |e.saves| ==> e.saves[i].name in names && e.saves[i].snapshot <= e.writes)
    && (forall i, j :: 0 <= i < j < |e.saves| ==> e.saves[i].snapshot <= e.saves[j].snapshot)
  }

  lemma ThenLayered(e: Effect, rest: Effect, names: set<string>, more: set<string>)
    requires Layered(e, names) && Layered(rest, more)
    ensures Layered(Then(e, rest), names + more)
  {
    var r := Then(e, rest);
    forall i | 0 <= i < |r.saves| ensures r.saves[i].name in names + more && r.saves[i].snapshot <= r.writes {
      if i >= |e.saves| {
        assert r.saves[i].snapshot == e.writes + rest.saves[i - |e.saves|].snapshot;
      }
    }
    forall i, j | 0 <= i < j < |r.saves| ensures r.saves[i].snapshot <= r.saves[j].snapshot {
      if i >= |e.saves| {
        assert rest.saves[i - |e.saves|].snapshot <= rest.saves[j - |e.saves|].snapshot;
      } else if j >= |e.saves| {
        assert e.saves[i].snapshot <= e.writes <= r.saves[j].snapshot;
      }
    }
  }

  lemma {:induction false} StepsLayered(steps: seq<Step>, end: Outcome, failed: bool, cfg: Config)
    ensures Layered(StepsEffect(steps, end, true, failed, cfg), Names(steps))
    decreases steps, 1
  {
    hide Layered;
    if steps == [] {
      NoneLayered(end, failed, {});
    } else if steps[0].Operation? {
      var e := Effect(Nil, OperationWrites(steps[0], true, failed, cfg), [], failed);
      OneLayered(e);
      StepsLayered(steps[1..], end, failed, cfg);
      ThenLayered(e, StepsEffect(steps[1..], end, true, failed, cfg), {}, Names(steps[1..]));
    } else {
      var e := NestedEffect(steps[0], failed, cfg);
      var names := {steps[0].name} + Names(steps[0].body.steps);
      NestedLayered(steps[0], failed, cfg);
      MoreNames(e, names, Names(steps));
      StepsLayered(steps[1..], end, e.failed, cfg);
      ThenLayered(e, StepsEffect(steps[1..], end, true, e.failed, cfg), names, Names(steps[1..]));
    }
  }

  lemma NoneLayered(end: Outcome, failed: bool, names: set<string>)
    ensures Layered(Effect(end, [], [], failed), names)
  {
  }

  lemma OneLayered(e: Effect)
    requires e.saves == []
    ensures Layered(e, {})
  {
  }

  lemma MoreNames(e: Effect, names: set<string>, more: set<string>)
    requires Layered(e, names) && names <= more
    ensures Layered(e, more)
  {
  }

  lemma {:induction false} NestedLayered(n: Step, failed: bool, cfg: Config)
    requires n.Nested?
    ensures Layered(NestedEffect(n, failed, cfg), {n.name} + Names(n.body.steps))
    decreases n, 2
  {
    hide StepsEffect, Layered, LastSave;
    var names := {n.name} + Names(n.body.steps);
    var inner := BlockEffect(n.body, true, failed && cfg.disableNestedTransaction, cfg);
    StepsLayered(n.body.steps, n.body.end, failed && cfg.disableNestedTransaction, cfg);
    MoreNames(inner, Names(n.body.steps), names);
    SameLayered(inner, failed, names);
    NoneLayered(Err, true, names);
    OwnLayered(inner, n.name, names, !inner.outcome.Nil?);
    var saves := [Save(n.name, [])] + inner.saves;
    assert saves[0].name == n.name;
    CutLayered(Effect(inner.outcome, inner.writes, saves, !inner.outcome.Nil?), LastSave(saves, n.name), names);
  }

  lemma SameLayered(e: Effect, failed: bool, names: set<string>)
    requires Layered(e, names)
    ensures Layered(e.(failed := failed), names)
  {
  }

  lemma OwnLayered(e: Effect, name: string, names: set<string>, failed: bool)
    requires Layered(e, names) && name in names
    ensures Layered(Effect(e.outcome, e.writes, [Save(name, [])] + e.saves, failed), names)
  {
  }

  lemma CutLayered(e: Effect, i: nat, names: set<string>)
    requires Layered(e, names) && i < |e.saves|
    ensures Layered(Effect(e.outcome, e.saves[i].snapshot, e.saves[..i + 1], false), names)
  {
  }

  /** What the rollback of a failed block leaves of its writes. */
  predicate RolledBack(n: Step, cfg: Config) {
    && n.Nested? && !cfg.disableNestedTransaction && n.begins && n.undoes
    && !BlockEffect(n.body, true, false, cfg).outcome.Nil?
  }

  /** The rollback of a block undoes all of it exactly when every savepoint of its own name that
      was set below it and is still there was set before anything lasting was written. */
  lemma RollbackExactIff(n: Step, cfg: Config)
    requires RolledBack(n, cfg)
    ensures var inner := BlockEffect(n.body, true, false, cfg);
            NestedEffect(n, false, cfg).writes == [] <==>
            forall i :: 0 <= i < |inner.saves| && inner.saves[i].name == n.name ==> inner.saves[i].snapshot == []
  {
    hide StepsEffect, Layered, LastSave;
    StepsLayered(n.body.steps, n.body.end, false, cfg);
    YoungestEmptyIff(BlockEffect(n.body, true, false, cfg), n.name, Names(n.body.steps));
  }

  lemma YoungestEmptyIff(inner: Effect, name: string, names: set<string>)
    requires Layered(inner, names)
    ensures var saves := [Save(name, [])] + inner.saves; var last := LastSave(saves, name);
            && last < |saves|
            && (saves[last].snapshot == [] <==>
                forall i :: 0 <= i < |inner.saves| && inner.saves[i].name == name ==> inner.saves[i].snapshot == [])
  {
    var saves := [Save(name, [])] + inner.saves;
    var last := LastSave(saves, name);
    assert saves[0].name == name;
    if last > 0 {
      assert saves[last] == inner.saves[last - 1];
    }
    if saves[last].snapshot == [] {
      forall i | 0 <= i < |inner.saves| && inner.saves[i].name == name ensures inner.saves[i].snapshot == [] {
        assert saves[i + 1] == inner.saves[i];
        if i + 1 < last {
          assert inner.saves[i].snapshot <= inner.saves[last - 1].snapshot;
        }
      }
    }
  }

  /** So it does when no block below reuses the name. */
  lemma WellNamedRollback(n: Step, cfg: Config)
    requires RolledBack(n, cfg) && n.name !in Names(n.body.steps)
    ensures NestedEffect(n, false, cfg).writes == []
  {
    hide StepsEffect, Names;
    RollbackExactIff(n, cfg);
    StepsLayered(n.body.steps, n.body.end, false, cfg);
  }

  /** And it does not when a nested block reuses the name after a write: the failed block around
      it goes back only to the savepoint of the nested one, and the enclosing transaction
      commits the write. */
  lemma ReusedNameKeepsWrites(name: string, a: Write, b: Write, cfg: Config)
    requires !cfg.disableNestedTransaction
    ensures var inner := Nested(Block([Operation(b, true, true, true)], Nil), name, true, true, true, true, true);
            var opA := Operation(a, true, true, true);
            var outer := Nested(Block([opA, inner], Err), name, true, true, true, false, true);
            var root := Nested(Block([outer], Nil), name, true, true, true, true, true);
            && RolledBack(outer, cfg)
            && NestedEffect(outer, false, cfg).writes == [a]
            && RootEffect(root, cfg) == Effect(Nil, [a], [], false)
  {
    hide StepsEffect, LastSave;
    var opA, opB := Operation(a, true, true, true), Operation(b, true, true, true);
    var inner := Nested(Block([opB], Nil), name, true, true, true, true, true);
    var outer := Nested(Block([opA, inner], Err), name, true, true, true, false, true);
    var own := Save(name, []);
    ShiftNone([b]);
    OneOperation(opB, [], Nil, cfg);
    NoSteps(Nil, cfg);
    assert [opB] + [] == [opB] && [b] + [] == [b];
    assert BlockEffect(inner.body, true, false, cfg) == Effect(Nil, [b], [], false);
    assert NestedEffect(inner, false, cfg) == Effect(Nil, [b], [own], false);
    OneNested(inner, [], Err, cfg);
    NoSteps(Err, cfg);
    assert [b] + [] == [b] && [own] + Shifted([], [b]) == [own];
    assert StepsEffect([inner], Err, true, false, cfg) == Effect(Err, [b], [own], false);
    OneOperation(opA, [inner], Err, cfg);
    assert [opA] + [inner] == [opA, inner];
    assert [a] + [] == [a];
    assert Shifted([own], [a]) == [Save(name, [a])];
    assert BlockEffect(outer.body, true, false, cfg) == Effect(Err, [a] + [b], [Save(name, [a])], false);
    var saves := [own, Save(name, [a])];
    assert LastSave(saves, name) == 1 by { TwoSaves(name, [], [a]); }
    assert [own] + [Save(name, [a])] == saves && saves[..2] == saves;
    assert NestedEffect(outer, false, cfg) == Effect(Err, [a], saves, false);
    OneNested(outer, [], Nil, cfg);
    ShiftNone([a]);
    assert saves + [] == saves;
    assert StepsEffect([outer], Nil, true, false, cfg) == Effect(Nil, [a], saves, false);
  }

  lemma TwoSaves(name: string, first: seq<Write>, second: seq<Write>)
    ensures LastSave([Save(name, first), Save(name, second)], name) == 1
  {
  }

  lemma NoSteps(end: Outcome, cfg: Config)
    ensures StepsEffect([], end, true, false, cfg) == Effect(end, [], [], false)
  {
  }

  lemma OneOperation(op: Step, rest: seq<Step>, end: Outcome, cfg: Config)
    requires op.Operation? && op.succeeds
    ensures var r := StepsEffect(rest, end, true, false, cfg);
            StepsEffect([op] + rest, end, true, false, cfg) ==
            Effect(r.outcome, [op.w] + r.writes, Shifted(r.saves, [op.w]), r.failed)
  {
    assert ([op] + rest)[1..] == rest;
    assert [] + Shifted(StepsEffect(rest, end, true, false, cfg).saves, [op.w])
        == Shifted(StepsEffect(rest, end, true, false, cfg).saves, [op.w]);
  }

  lemma OneNested(n: Step, rest: seq<Step>, end: Outcome, cfg: Config)
    requires n.Nested?
    ensures var e := NestedEffect(n, false, cfg);
            StepsEffect([n] + rest, end, true, false, cfg) ==
            if Stops(n, e.outcome) then e else Then(e, StepsEffect(rest, end, true, e.failed, cfg))
    ensures [n] + [] == [n]
  {
    assert ([n] + rest)[1..] == rest;
  }

  // ---------------------------------------------------------------- what lasts

  /** A write that reached the database, and whether it was undone because a nested block
      around it did not return nil and was rolled back. */
  datatype Performed = Performed(w: Write, undone: bool)

  function Undone(ps: seq<Performed>): seq<Performed> {
    seq(|ps|, i requires 0 <= i < |ps| => ps[i].(undone := true))
  }

  /** Everything user code in an open transaction writes, in order. */
  function Trace(steps: seq<Step>, failed: bool, cfg: Config): seq<Performed>
    decreases steps, 0
  {
    if steps == [] then []
    else
      match steps[0]
      case Operation(w, _, succeeds, _) =>
        (if succeeds && !failed then [Performed(w, false)] else []) + Trace(steps[1..], failed, cfg)
      case Nested(_, _, _, _, _, _, _) =>
        var e := NestedEffect(steps[0], failed, cfg);
        NestedTrace(steps[0], failed, cfg) + if Stops(steps[0], e.outcome) then [] else Trace(steps[1..], e.failed, cfg)
  }

  function NestedTrace(n: Step, failed: bool, cfg: Config): seq<Performed>
    requires n.Nested?
    decreases n, 1
  {
    if cfg.disableNestedTransaction then Trace(n.body.steps, failed, cfg)
    else if failed || !n.begins then []
    else
      var inner := Trace(n.body.steps, false, cfg);
      if RolledBack(n, cfg) then Undone(inner) else inner
  }

  function Lasting(ps: seq<Performed>): seq<Write> {
    if ps == [] then [] else (if ps[0].undone then [] else [ps[0].w]) + Lasting(ps[1..])
  }

  lemma {:induction false} LastingConcat(a: seq<Performed>, b: seq<Performed>)
    ensures Lasting(a + b) == Lasting(a) + Lasting(b)
  {
    if a == [] {
      assert a + b == b;
    } else {
      assert (a + b)[1..] == a[1..] + b;
      LastingConcat(a[1..], b);
    }
  }

  lemma {:induction false} NothingLasts(ps: seq<Performed>)
    ensures Lasting(Undone(ps)) == []
  {
    if ps != [] {
      NothingLasts(ps[1..]);
      assert Undone(ps)[1..] == Undone(ps[1..]);
    }
  }

  /** With names that differ along every nesting, what a block in a transaction leaves behind is
      exactly what it wrote outside nested blocks that failed and were rolled back, in order. */
  lemma {:induction false} LastingWrites(steps: seq<Step>, end: Outcome, failed: bool, cfg: Config)
    requires WellNamed(steps)
    ensures StepsEffect(steps, end, true, failed, cfg).writes == Lasting(Trace(steps, failed, cfg))
    decreases steps, 0
  {
    hide RolledBack;
    if steps != [] {
      match steps[0]
      case Operation(w, _, succeeds, _) =>
        var rest := Trace(steps[1..], failed, cfg);
        LastingWrites(steps[1..], end, failed, cfg);
        var first := if succeeds && !failed then [Performed(w, false)] else [];
        LastingConcat(first, rest);
        assert Lasting(first) == OperationWrites(steps[0], true, failed, cfg) by { OneLasts(w); }
      case Nested(_, _, _, _, _, _, _) =>
        var e := NestedEffect(steps[0], failed, cfg);
        LastingWrites(steps[1..], end, e.failed, cfg);
        NestedLasting(steps[0], failed, cfg);
        var rest := if Stops(steps[0], e.outcome) then [] else Trace(steps[1..], e.failed, cfg);
        LastingConcat(NestedTrace(steps[0], failed, cfg), rest);
    }
  }

  lemma OneLasts(w: Write)
    ensures Lasting([Performed(w, false)]) == [w] && Lasting([]) == []
  {
    assert [Performed(w, false)][1..] == [];
  }

  lemma {:induction false} NestedLasting(n: Step, failed: bool, cfg: Config)
    requires n.Nested? && n.name !in Names(n.body.steps) && WellNamed(n.body.steps)
    ensures NestedEffect(n, failed, cfg).writes == Lasting(NestedTrace(n, failed, cfg))
    decreases n, 1
  {
    hide StepsEffect, Names, LastSave;
    LastingWrites(n.body.steps, n.body.end, failed && cfg.disableNestedTransaction, cfg);
    NothingLasts(Trace(n.body.steps, false, cfg));
    if !failed && RolledBack(n, cfg) {
      WellNamedRollback(n, cfg);
    }
  }

  /** A top-level transaction returns nil exactly if it began, its function returned nil, no
      nested call the function made was refused, and Commit succeeded. Whatever the error, it
      commits all that lasts when its function returned nil and Commit succeeded, else nothing. */
  lemma CommitsIff(n: Step, cfg: Config)
    requires n.Nested? && WellNamed([n])
    ensures var e := RootEffect(n, cfg);
            var returnsNil := BlockEffect(n.body, true, false, cfg).outcome.Nil?;
            var refused := exists m :: m in Made(n.body.steps, false, cfg) && Refused(m, cfg);
            && (e.outcome.Nil? <==> n.begins && returnsNil && n.commits && !refused)
            && e.writes ==
               if n.begins && returnsNil && n.commits then Lasting(Trace(n.body.steps, false, cfg)) else []
  {
    hide StepsEffect, Refused, Made, Trace;
    assert WellNamed(n.body.steps);
    LastingWrites(n.body.steps, n.body.end, false, cfg);
    FailsIffRefused(n.body.steps, n.body.end, false, cfg);
  }

  /** An error commits nothing, unless the function swallowed the refusal of a nested call's
      savepoint or rollback, returned nil, and Commit succeeded with lasting writes. */
  lemma ErrorCommitsNothingIff(n: Step, cfg: Config)
    requires n.Nested? && WellNamed([n]) && !RootEffect(n, cfg).outcome.Nil?
    ensures RootEffect(n, cfg).writes == [] <==>
            !(&& n.begins && BlockEffect(n.body, true, false, cfg).outcome.Nil? && n.commits
              && (exists m :: m in Made(n.body.steps, false, cfg) && Refused(m, cfg))
              && Lasting(Trace(n.body.steps, false, cfg)) != [])
  {
    hide StepsEffect, Refused, Made, Trace, Lasting, WellNamed;
    CommitsIff(n, cfg);
  }

  /** Such a function: it writes, asks for a nested block, and goes on when its savepoint is
      refused. Transaction returns an error and the write is committed. */
  lemma SwallowedRefusalCommits(w: Write, name: string, body: Block, undoes: bool, commits: bool, recovers: bool,
                                cfg: Config)
    requires !cfg.disableNestedTransaction
    ensures var refused := Nested(body, name, false, undoes, commits, false, recovers);
            var op := Operation(w, true, true, true);
            var root := Nested(Block([op, refused], Nil), name, true, true, true, true, true);
            RootEffect(root, cfg) == Effect(Err, [w], [], false)
  {
    hide StepsEffect;
    var op, refused := Operation(w, true, true, true), Nested(body, name, false, undoes, commits, false, recovers);
    assert NestedEffect(refused, false, cfg) == Effect(Err, [], [], true);
    OneNested(refused, [], Nil, cfg);
    assert StepsEffect([], Nil, true, true, cfg) == Effect(Nil, [], [], true) by { NoStepsFailed(cfg); }
    ShiftNone([]);
    assert StepsEffect([refused], Nil, true, false, cfg) == Effect(Nil, [], [], true);
    OneOperation(op, [refused], Nil, cfg);
    assert [op] + [refused] == [op, refused] && [w] + [] == [w];
  }

  lemma NoStepsFailed(cfg: Config)
    ensures StepsEffect([], Nil, true, true, cfg) == Effect(Nil, [], [], true)
  {
  }

  /** Without nested transactions a failed nested block is not undone on its own. */
  lemma {:induction false} DisabledNestingUndoesNothing(steps: seq<Step>, failed: bool, cfg: Config)
    requires cfg.disableNestedTransaction
    ensures forall i :: 0 <= i < |Trace(steps, failed, cfg)| ==> !Trace(steps, failed, cfg)[i].undone
    decreases steps
  {
    hide StepsEffect;
    if steps != [] {
      match steps[0]
      case Operation(_, _, _, _) =>
        DisabledNestingUndoesNothing(steps[1..], failed, cfg);
      case Nested(body, _, _, _, _, _, _) =>
        DisabledNestingUndoesNothing(body.steps, failed, cfg);
        DisabledNestingUndoesNothing(steps[1..], NestedEffect(steps[0], failed, cfg).failed, cfg);
        var inner := Trace(body.steps, failed, cfg);
        var rest := Trace(steps[1..], NestedEffect(steps[0], failed, cfg).failed, cfg);
        assert Trace(steps, failed, cfg) == inner + [] || Trace(steps, failed, cfg) == inner + rest;
    }
  }
}
