/** What callers of the cache of gorm/internal/lru/lru.go can count on, in the terms of the
    parameters they gave: the size, the ttl, and which entries each operation keeps. */
module LruRuns {
  import opened Options
  import opened LruModel

  // ---------------------------------------------------------------- the size asked for

  /** The size asked for last, at the start or by Resize. */
  ghost function Asked<K, V>(size: int, run: seq<Timed<K, V>>): int
    decreases |run|
  {
    if run == [] then size
    else Asked(if run[0].op.OpResize? then run[0].op.size else size, run[1..])
  }

  lemma {:induction false} NeverResized<K, V>(size: int, run: seq<Timed<K, V>>)
    requires forall i :: 0 <= i < |run| ==> !run[i].op.OpResize?
    ensures Asked(size, run) == size
    decreases |run|
  {
    if run != [] {
      NeverResized(size, run[1..]);
    }
  }

  lemma {:induction false} SizeIsAsked<K(!new), V(!new)>(s: System<K, V>, size: int, run: seq<Timed<K, V>>)
    requires Inv(s) && Possible(s, run) && s.cache.size == (if size <= 0 then 0 else size)
    ensures var n := Asked(size, run); Run(s, run).cache.size == if n <= 0 then 0 else n
    decreases |run|
  {
    if run != [] {
      var op := run[0].op;
      StepInv(s, op, run[0].at);
      OnlyResizeChangesSize(s, op, run[0].at);
      SizeIsAsked(Step(s, op, run[0].at), if op.OpResize? then op.size else size, run[1..]);
    }
  }

  lemma OnlyResizeChangesSize<K, V>(s: System<K, V>, op: Op<K, V>, now: int)
    requires WellShaped(s.cache) && Enabled(s, op, now)
    ensures Next(s, op, now).size ==
            if op.OpResize? then (if op.size <= 0 then 0 else op.size) else s.cache.size
    ensures Next(s, op, now).ttl == s.cache.ttl
  {
  }

  /** After every run the cache holds no more entries than it was asked to, if the size asked for
      last, by the constructor or by Resize, is positive. */
  lemma WithinSizeAsked<K(!new), V(!new)>(size: int, ttl: int, run: seq<Timed<K, V>>)
    requires Possible(Start(size, ttl), run) && Asked(size, run) > 0
    ensures |Run(Start(size, ttl), run).cache.items| <= Asked(size, run)
  {
    StartInv<K, V>(size, ttl);
    RunInv(Start(size, ttl), run);
    SizeIsAsked(Start(size, ttl), size, run);
  }

  /** So without Resize never more than the constructor was given. */
  lemma WithinSize<K(!new), V(!new)>(size: int, ttl: int, run: seq<Timed<K, V>>)
    requires Possible(Start(size, ttl), run) && size > 0
    requires forall i :: 0 <= i < |run| ==> !run[i].op.OpResize?
    ensures |Run(Start(size, ttl), run).cache.items| <= size
  {
    NeverResized(size, run);
    WithinSizeAsked(size, ttl, run);
  }

  // ---------------------------------------------------------------- what a step keeps

  /** How many entries were used after this one. */
  ghost function UsedAfter<K, V>(s: System<K, V>, it: Item<K, V>): nat {
    |Newer(s.cache.items, it)|
  }

  ghost function Newer<K, V>(items: seq<Item<K, V>>, it: Item<K, V>): seq<Item<K, V>> {
    if items == [] || items[0] == it then [] else [items[0]] + Newer(items[1..], it)
  }

  /** Whether an operation at this time keeps an entry as it is: by its key, its bucket, and how
      many entries are younger, nothing else. */
  ghost predicate Keeps<K, V>(s: System<K, V>, op: Op<K, V>, it: Item<K, V>)
    requires s.cleaner.Some? || !op.CleanEnd?
  {
    match op
    case OpAdd(k, _) => it.key != k && (Holds(s.cache, k) || s.cache.size <= 0 || UsedAfter(s, it) + 1 < s.cache.size)
    case OpGet(_) => true
    case OpRemove(k) => it.key != k
    case OpRemoveOldest => UsedAfter(s, it) + 1 < |s.cache.items|
    case OpResize(n) => n <= 0 || UsedAfter(s, it) < n
    case OpPurge => false
    case CleanBegin => true
    case CleanEnd => it.bucket != s.cleaner.value.bucket
  }

  lemma {:induction false} NewerAt<K, V>(items: seq<Item<K, V>>, i: nat)
    requires DistinctKeys(items) && i < |items|
    ensures |Newer(items, items[i])| == i
  {
    if i > 0 {
      assert items[0].key != items[i].key && items[1..][i - 1] == items[i];
      NewerAt(items[1..], i - 1);
    }
  }

  /** The entries used after one are those touched later. */
  lemma UsedAfterIsTouchedLater<K, V>(s: System<K, V>, i: nat, j: nat)
    requires Inv(s) && i < |s.cache.items| && j < |s.cache.items|
    ensures UsedAfter(s, s.cache.items[i]) == i
    ensures s.cache.items[i].key in s.touched && s.cache.items[j].key in s.touched
    ensures s.touched[s.cache.items[i].key] > s.touched[s.cache.items[j].key] <==> i < j
  {
    NewerAt(s.cache.items, i);
    assert Faithful(s, s.cache.items[i]) && Faithful(s, s.cache.items[j]);
  }

  lemma {:induction false} PositionIs<K, V>(items: seq<Item<K, V>>, i: nat)
    requires DistinctKeys(items) && i < |items|
    ensures Position(items, items[i].key) == i
  {
    if i > 0 {
      assert items[1..][i - 1] == items[i];
      PositionIs(items[1..], i - 1);
    }
  }

  lemma InDropped<K, V>(items: seq<Item<K, V>>, p: nat, i: nat)
    requires DistinctKeys(items) && p < |items| && i < |items|
    ensures items[i] in Dropped(items, p) <==> i != p
  {
    var rest := Dropped(items, p);
    if i < p {
      assert rest[i] == items[i];
    } else if i > p {
      assert rest[i - 1] == items[i];
    } else {
      forall j | 0 <= j < |rest| ensures rest[j] != items[p] {
        assert rest[j] == items[if j < p then j else j + 1];
      }
    }
  }

  lemma InPrefix<K, V>(items: seq<Item<K, V>>, n: nat, i: nat)
    requires DistinctKeys(items) && n <= |items| && i < |items|
    ensures items[i] in items[..n] <==> i < n
  {
    if i < n {
      assert items[..n][i] == items[i];
    }
  }

  lemma KeptByAdd<K, V>(s: System<K, V>, k: K, v: V, now: int, i: nat)
    requires Inv(s) && s.clock <= now && i < |s.cache.items| && UsedAfter(s, s.cache.items[i]) == i
    ensures var it := s.cache.items[i];
            it in Next(s, OpAdd(k, v), now).items <==>
            Keeps(s, OpAdd(k, v), it) || it == Item(k, v, now + s.cache.ttl, FillBucket(s.cache.next))
  {
    hide ByRecency, Contents, Faithful, UsedAfter;
    var items := s.cache.items;
    var written := Item(k, v, now + s.cache.ttl, FillBucket(s.cache.next));
    PositionIs(items, i);
    if Holds(s.cache, k) {
      InDropped(items, Position(items, k), i);
    } else if Evicts(s.cache, k) {
      InPrefix(items, |items| - 1, i);
      assert ([written] + items)[..|items|] == [written] + items[..|items| - 1];
    }
  }

  lemma KeptByOthers<K, V>(s: System<K, V>, op: Op<K, V>, now: int, i: nat)
    requires Inv(s) && Enabled(s, op, now) && i < |s.cache.items| && UsedAfter(s, s.cache.items[i]) == i
    requires !op.OpAdd?
    ensures s.cache.items[i] in Next(s, op, now).items <==> Keeps(s, op, s.cache.items[i])
  {
    hide ByRecency, Contents, Faithful, UsedAfter;
    var items := s.cache.items;
    PositionIs(items, i);
    match op
    case OpGet(k) =>
      if Holds(s.cache, k) {
        InDropped(items, Position(items, k), i);
      }
    case OpRemove(k) =>
      if Holds(s.cache, k) {
        InDropped(items, Position(items, k), i);
      }
    case OpRemoveOldest => InPrefix(items, |items| - 1, i);
    case OpResize(n) =>
      if n > 0 {
        InPrefix(items, if |items| > n then n else |items|, i);
      }
    case OpPurge =>
    case CleanBegin =>
    case CleanEnd => NotInBucketHas(items, s.cleaner.value.bucket, items[i]);
  }

  lemma NothingElse<K, V>(s: System<K, V>, op: Op<K, V>, now: int, it: Item<K, V>)
    requires Inv(s) && Enabled(s, op, now) && it !in s.cache.items
    ensures it in Next(s, op, now).items <==>
            op.OpAdd? && it == Item(op.k, op.v, now + s.cache.ttl, FillBucket(s.cache.next))
  {
    hide ByRecency, Contents, Faithful, Thinned;
    if op.OpAdd? {
      AddInFront(s.cache, op.k, op.v, now);
    }
    if it in Next(s, op, now).items && !(op.OpAdd? && op.k == it.key) {
      EntryWasThere(s, op, now, it);
    }
  }

  /** In every reachable state each operation keeps exactly these entries, and besides there is
      only the one an Add writes. */
  lemma KeepsExactly<K, V>(s: System<K, V>, op: Op<K, V>, now: int, it: Item<K, V>)
    requires Inv(s) && Enabled(s, op, now)
    ensures it in Next(s, op, now).items <==>
            || (it in s.cache.items && Keeps(s, op, it))
            || (op.OpAdd? && it == Item(op.k, op.v, now + s.cache.ttl, FillBucket(s.cache.next)))
  {
    hide ByRecency, Contents, Faithful, Keeps, Next;
    var items := s.cache.items;
    if i :| 0 <= i < |items| && items[i] == it {
      NewerAt(items, i);
      if op.OpAdd? {
        KeptByAdd(s, op.k, op.v, now, i);
      } else {
        KeptByOthers(s, op, now, i);
      }
    } else {
      NothingElse(s, op, now, it);
    }
  }

  // ---------------------------------------------------------------- what is reported

  lemma {:induction false} CountOf<K, V>(items: seq<Item<K, V>>, k: K, v: V)
    requires DistinctKeys(items)
    ensures Contents(items)[(k, v)] == if exists it :: it in items && it.key == k && it.value == v then 1 else 0
  {
    if items == [] {
      assert Pairs(items) == [];
    } else {
      var first, rest := items[0], items[1..];
      assert items == [first] + rest;
      ContentsSplit([first], rest);
      ContentsOne(first);
      CountOf(rest, k, v);
      if first.key == k {
        assert !exists it :: it in rest && it.key == k;
      }
    }
  }

  /** In every reachable state an operation reports to the callback exactly the entries that were
      stored and whose keys are gone, each once; an entry that is overwritten is not reported. */
  lemma ReportsTheGone<K(!new), V(!new)>(s: System<K, V>, op: Op<K, V>, now: int, k: K, v: V)
    requires Inv(s) && Enabled(s, op, now)
    ensures Reported(s, op, now)[(k, v)] ==
            if (exists it :: it in s.cache.items && it.key == k && it.value == v) && !Holds(Next(s, op, now), k)
            then 1 else 0
  {
    hide Contents, Next, Reported, ByRecency, Faithful, Keeps;
    StepInv(s, op, now);
    StepConserves(s, op, now);
    var items, kept := s.cache.items, Next(s, op, now).items;
    CountOf(items, k, v);
    CountOf(kept, k, v);
    HoldsIff(items, k);
    HoldsIff(kept, k);
    Overwritten(s, op, k, v);
    KeyKept(s, op, now, k);
    var added := if op.OpAdd? then multiset{(op.k, op.v)} else multiset{};
    assert (Contents(items) + added)[(k, v)] == (Contents(kept) + Reported(s, op, now) + Replaced(s, op))[(k, v)];
  }

  lemma HoldsIff<K, V>(items: seq<Item<K, V>>, k: K)
    ensures Position(items, k) < |items| <==> exists it :: it in items && it.key == k
  {
    if it :| it in items && it.key == k {
      var i :| 0 <= i < |items| && items[i] == it;
    }
  }

  /** Only an Add of a key that is there overwrites, and what it overwrites is that entry. */
  lemma Overwritten<K, V>(s: System<K, V>, op: Op<K, V>, k: K, v: V)
    requires Inv(s)
    ensures Replaced(s, op)[(k, v)] ==
            if op.OpAdd? && op.k == k && (exists it :: it in s.cache.items && it.key == k && it.value == v)
            then 1 else 0
  {
    var items := s.cache.items;
    if op.OpAdd? && Holds(s.cache, op.k) {
      var i := Position(items, op.k);
      ContentsOne(items[i]);
      forall it | it in items && it.key == op.k ensures it == items[i] {
        var j :| 0 <= j < |items| && items[j] == it;
      }
    } else if op.OpAdd? {
      HoldsIff(items, op.k);
    }
  }

  /** A key is held afterwards as it was before, or as an Add wrote it. */
  lemma KeyKept<K, V>(s: System<K, V>, op: Op<K, V>, now: int, k: K)
    requires Inv(s) && Enabled(s, op, now)
    ensures op.OpAdd? && op.k == k ==>
              forall it :: it in Next(s, op, now).items && it.key == k ==> it.value == op.v
    ensures op.OpAdd? && op.k == k ==> exists it :: it in Next(s, op, now).items && it.key == k
    ensures !(op.OpAdd? && op.k == k) ==>
              forall it :: it in Next(s, op, now).items && it.key == k ==> it in s.cache.items
  {
    hide Contents, Next, ByRecency, Faithful, Keeps;
    forall it | it in Next(s, op, now).items && it.key == k
      ensures if op.OpAdd? && op.k == k then it.value == op.v else it in s.cache.items
    {
      KeepsExactly(s, op, now, it);
      if op.OpAdd? && op.k == k {
        NotKept(s, op, it);
      }
    }
    if op.OpAdd? && op.k == k {
      KeepsExactly(s, op, now, Item(op.k, op.v, now + s.cache.ttl, FillBucket(s.cache.next)));
    }
  }

  lemma NotKept<K, V>(s: System<K, V>, op: Op<K, V>, it: Item<K, V>)
    requires op.OpAdd? && op.k == it.key
    ensures !Keeps(s, op, it)
  {
  }

  /** The bucket that is filled is the one the cleaner takes last. */
  lemma FillIsLast(next: uint8)
    requires next < NUM_BUCKETS
    ensures Distance(FillBucket(next), next) == 99
    ensures NextBucket(next) as int == if next == 99 then 0 else next as int + 1
  {
  }

  // ---------------------------------------------------------------- the ttl asked for

  /** An entry just added is found until its ttl is over and not later; without a ttl that is ten
      years, in nanoseconds. */
  lemma FoundForTheTtl<K(!new), V(!new)>(size: int, ttl: int, run: seq<Timed<K, V>>, k: K, v: V, at: int, now: int)
    requires Possible(Start(size, ttl), run) && Run(Start(size, ttl), run).clock <= at
    ensures var s := Run(Start(size, ttl), run);
            WellShaped(s.cache) &&
            Lookup(Step(s, OpAdd(k, v), at).cache, k, now) ==
            if now <= at + (if ttl > 0 then ttl else 315_360_000_000_000_000) then Some(v) else None
  {
    StartInv<K, V>(size, ttl);
    RunInv(Start(size, ttl), run);
    TtlStays(Start(size, ttl), run);
    var s := Run(Start(size, ttl), run);
    AddInFront(s.cache, k, v, at);
  }

  lemma {:induction false} TtlStays<K(!new), V(!new)>(s: System<K, V>, run: seq<Timed<K, V>>)
    requires Inv(s) && Possible(s, run)
    ensures Run(s, run).cache.ttl == s.cache.ttl
    decreases |run|
  {
    if run != [] {
      StepInv(s, run[0].op, run[0].at);
      OnlyResizeChangesSize(s, run[0].op, run[0].at);
      TtlStays(Step(s, run[0].op, run[0].at), run[1..]);
    }
  }

  /** Operations that do not ask for the entry's key to go. */
  ghost predicate Spares<K, V>(op: Op<K, V>, k: K) {
    match op
    case OpAdd(q, _) => q != k
    case OpRemove(q) => q != k
    case OpGet(_) => true
    case OpRemoveOldest => false
    case OpResize(n) => n <= 0
    case OpPurge => false
    case CleanBegin => true
    case CleanEnd => true
  }

  /** In a cache without a size an entry stays as it is until it is expired, whatever is done to
      other keys and however often the cleaner runs. */
  lemma {:induction false} StaysUntilExpired<K(!new), V(!new)>(s: System<K, V>, run: seq<Timed<K, V>>, it: Item<K, V>)
    requires Inv(s) && Possible(s, run) && s.cache.size == 0 && it in s.cache.items
    requires forall i :: 0 <= i < |run| ==> Spares(run[i].op, it.key)
    ensures it in Run(s, run).cache.items || it.expiresAt <= Run(s, run).clock
    decreases |run|
  {
    hide Next, ByRecency, Contents, Faithful, Keeps;
    if run != [] {
      var op, at := run[0].op, run[0].at;
      StepInv(s, op, at);
      OnlyResizeChangesSize(s, op, at);
      assert Spares(op, it.key);
      KeepsExactly(s, op, at, it);
      if it in Next(s, op, at).items {
        StaysUntilExpired(Step(s, op, at), run[1..], it);
      } else {
        GoesExpired(s, op, at, it);
        ClockAdvances(Step(s, op, at), run[1..]);
      }
    }
  }

  lemma GoesExpired<K, V>(s: System<K, V>, op: Op<K, V>, at: int, it: Item<K, V>)
    requires Inv(s) && Enabled(s, op, at) && s.cache.size == 0 && it in s.cache.items && Spares(op, it.key)
    requires it !in Next(s, op, at).items
    ensures it.expiresAt <= at
  {
    hide Next, ByRecency, Contents, Faithful;
    KeepsExactly(s, op, at, it);
    assert op.CleanEnd?;
    CleanRemovesOnlyExpired(s, at, it);
  }

  lemma {:induction false} ClockAdvances<K, V>(s: System<K, V>, run: seq<Timed<K, V>>)
    requires Possible(s, run)
    ensures s.clock <= Run(s, run).clock
    decreases |run|
  {
    if run != [] {
      ClockAdvances(Step(s, run[0].op, run[0].at), run[1..]);
    }
  }
}
