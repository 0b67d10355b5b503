/** The expiring cache of gorm/internal/lru/lru.go on values: a recency-ordered sequence
    of entries with expiry buckets, every operation as a function, and what holds over
    every run of operations interleaved with the cleaner. */
module LruModel {
  import opened Options

  newtype uint8 = x: int | 0 <= x < 256

  const NUM_BUCKETS: uint8 := 100

  /** Ten years in nanoseconds: the ttl of a cache asked for without one. */
  const NO_EVICTION_TTL: int := 1_000_000_000 * 3600 * 24 * 365 * 10

  datatype Item<K, V> = Item(key: K, value: V, expiresAt: int, bucket: uint8)

  /** Entries from the most to the least recently used; per bucket the newest expiry ever
      put in it; the bucket the cleaner takes next. A size of 0 means unlimited. */
  datatype Cache<K, V> = Cache(items: seq<Item<K, V>>, newest: seq<int>, next: uint8, size: int, ttl: int)

  function Position<K(==), V>(items: seq<Item<K, V>>, k: K): (i: nat)
    ensures i <= |items|
    ensures i < |items| ==> items[i].key == k
    ensures forall j :: 0 <= j < i ==> items[j].key != k
  {
    if items == [] || items[0].key == k then 0 else 1 + Position(items[1..], k)
  }

  predicate Holds<K(==), V>(c: Cache<K, V>, k: K) { Position(c.items, k) < |c.items| }

  function Dropped<T>(s: seq<T>, i: nat): seq<T>
    requires i < |s|
  {
    s[..i] + s[i + 1..]
  }

  /** The bucket filled now: the one the cleaner takes last. */
  function FillBucket(next: uint8): (b: uint8)
    requires next < NUM_BUCKETS
    ensures b < NUM_BUCKETS && b != next
  {
    (NUM_BUCKETS + next - 1) % NUM_BUCKETS
  }

  function NextBucket(next: uint8): (b: uint8)
    requires next < NUM_BUCKETS
    ensures b < NUM_BUCKETS
  {
    (next + 1) % NUM_BUCKETS
  }

  predicate WellShaped<K, V>(c: Cache<K, V>) {
    && |c.newest| == NUM_BUCKETS as int && c.next < NUM_BUCKETS && c.size >= 0
    && (forall i :: 0 <= i < |c.items| ==> c.items[i].bucket < NUM_BUCKETS)
  }

  function Max(a: int, b: int): int { if a < b then b else a }

  /** An entry (re)written now goes to the front and into the bucket being filled. */
  function Written<K, V>(c: Cache<K, V>, k: K, v: V, rest: seq<Item<K, V>>, now: int): Cache<K, V>
    requires WellShaped(c)
  {
    var b := FillBucket(c.next);
    c.(items := [Item(k, v, now + c.ttl, b)] + rest,
       newest := c.newest[b as int := Max(c.newest[b as int], now + c.ttl)])
  }

  function Add<K(==), V>(c: Cache<K, V>, k: K, v: V, now: int): Cache<K, V>
    requires WellShaped(c)
  {
    var i := Position(c.items, k);
    if i < |c.items| then Written(c, k, v, Dropped(c.items, i), now)
    else
      var added := Written(c, k, v, c.items, now);
      if c.size > 0 && |added.items| > c.size then Shortened(added, |c.items|) else added
  }

  predicate Evicts<K(==), V>(c: Cache<K, V>, k: K) {
    !Holds(c, k) && c.size > 0 && |c.items| + 1 > c.size
  }

  /** Only the `n` most recent entries are kept. */
  function Shortened<K, V>(c: Cache<K, V>, n: nat): Cache<K, V>
    requires n <= |c.items|
  {
    c.(items := c.items[..n])
  }

  predicate Live<K, V>(it: Item<K, V>, now: int) { now <= it.expiresAt }

  function Get<K(==), V>(c: Cache<K, V>, k: K, now: int): Cache<K, V> {
    var i := Position(c.items, k);
    if i < |c.items| && Live(c.items[i], now) then c.(items := [c.items[i]] + Dropped(c.items, i)) else c
  }

  function Lookup<K(==), V>(c: Cache<K, V>, k: K, now: int): Option<V> {
    var i := Position(c.items, k);
    if i < |c.items| && Live(c.items[i], now) then Some(c.items[i].value) else None
  }

  function Remove<K(==), V>(c: Cache<K, V>, k: K): Cache<K, V> {
    var i := Position(c.items, k);
    if i < |c.items| then c.(items := Dropped(c.items, i)) else c
  }

  function RemoveOldest<K, V>(c: Cache<K, V>): Cache<K, V> {
    if c.items == [] then c else Shortened(c, |c.items| - 1)
  }

  function Resize<K, V>(c: Cache<K, V>, size: int): Cache<K, V> {
    if size <= 0 then c.(size := 0)
    else Shortened(c, if |c.items| > size then size else |c.items|).(size := size)
  }

  function Purge<K, V>(c: Cache<K, V>): Cache<K, V> { c.(items := []) }

  function NotInBucket<K, V>(items: seq<Item<K, V>>, b: uint8): seq<Item<K, V>> {
    if items == [] then []
    else (if items[0].bucket == b then [] else [items[0]]) + NotInBucket(items[1..], b)
  }

  function InBucket<K, V>(items: seq<Item<K, V>>, b: uint8): seq<Item<K, V>> {
    if items == [] then []
    else (if items[0].bucket == b then [items[0]] else []) + InBucket(items[1..], b)
  }

  /** The second half of deleteExpired, once the sleep is over. */
  function Clean<K, V>(c: Cache<K, V>, b: uint8): Cache<K, V>
    requires c.next < NUM_BUCKETS
  {
    c.(items := NotInBucket(c.items, b), next := NextBucket(c.next))
  }

  /** The keys of the unexpired entries, oldest first. */
  function Keys<K, V>(items: seq<Item<K, V>>, now: int): seq<K> {
    if items == [] then []
    else Keys(items[1..], now) + (if Live(items[0], now) then [items[0].key] else [])
  }

  /** Values with their keys, as the callback and the caller see them. */
  ghost function Contents<K, V>(items: seq<Item<K, V>>): multiset<(K, V)> {
    multiset(Pairs(items))
  }

  function Pairs<K, V>(items: seq<Item<K, V>>): (r: seq<(K, V)>)
    ensures |r| == |items|
  {
    seq(|items|, i requires 0 <= i < |items| => (items[i].key, items[i].value))
  }

  datatype Op<K, V> =
    | OpAdd(k: K, v: V) | OpGet(k: K) | OpRemove(k: K) | OpRemoveOldest | OpResize(size: int) | OpPurge
    | CleanBegin | CleanEnd

  /** What one operation reports to the eviction callback; CleanEnd cleans bucket `b`. */
  ghost function ReportedBy<K, V>(c: Cache<K, V>, op: Op<K, V>, b: uint8, now: int): multiset<(K, V)>
    requires WellShaped(c)
  {
    match op
    case OpAdd(k, v) =>
      if Evicts(c, k) then Contents(Written(c, k, v, c.items, now).items[|c.items|..]) else multiset{}
    case OpGet(_) => multiset{}
    case OpRemove(k) => if Holds(c, k) then Contents([c.items[Position(c.items, k)]]) else multiset{}
    case OpRemoveOldest => if c.items == [] then multiset{} else Contents(c.items[|c.items| - 1..])
    case OpResize(n) => if 0 < n < |c.items| then Contents(c.items[n..]) else multiset{}
    case OpPurge => Contents(c.items)
    case CleanBegin => multiset{}
    case CleanEnd => Contents(InBucket(c.items, b))
  }

  // ---------------------------------------------------------------- runs

  /** A sleeping cleaner: its bucket, and when it wakes. */
  datatype Cleaner = Cleaner(bucket: uint8, wake: int)

  /** The last Add of a key: its value and time. */
  datatype Write<V> = Write(value: V, at: int)

  /** The cache in use: the clock, the one cleaner, everything added, reported to the
      callback or overwritten so far, the last Add of every key, and in which step every
      key was last added or hit. */
  datatype System<K(==), V(==)> = System(
    cache: Cache<K, V>, clock: int, cleaner: Option<Cleaner>,
    added: multiset<(K, V)>, reported: multiset<(K, V)>, replaced: multiset<(K, V)>,
    latest: map<K, Write<V>>, touched: map<K, nat>, ticks: nat)

  ghost function Start<K, V>(size: int, ttl: int): System<K, V> {
    System(Cache([], seq(NUM_BUCKETS as int, _ => 0), 0, if size < 0 then 0 else size,
                 if ttl <= 0 then NO_EVICTION_TTL else ttl),
           0, None, multiset{}, multiset{}, multiset{}, map[], map[], 0)
  }

  /** One cleaner: it begins when none is asleep, and ends once the clock has reached the
      newest expiry it saw. */
  ghost predicate Enabled<K, V>(s: System<K, V>, op: Op<K, V>, now: int) {
    && s.clock <= now
    && (op.CleanBegin? ==> s.cleaner.None?)
    && (op.CleanEnd? ==> s.cleaner.Some? && s.cleaner.value.wake <= now)
  }

  ghost function Next<K, V>(s: System<K, V>, op: Op<K, V>, now: int): Cache<K, V>
    requires WellShaped(s.cache) && Enabled(s, op, now)
  {
    var c := s.cache;
    match op
    case OpAdd(k, v) => Add(c, k, v, now)
    case OpGet(k) => Get(c, k, now)
    case OpRemove(k) => Remove(c, k)
    case OpRemoveOldest => RemoveOldest(c)
    case OpResize(n) => Resize(c, n)
    case OpPurge => Purge(c)
    case CleanBegin => c
    case CleanEnd => Clean(c, s.cleaner.value.bucket)
  }

  ghost function Reported<K, V>(s: System<K, V>, op: Op<K, V>, now: int): multiset<(K, V)>
    requires WellShaped(s.cache) && Enabled(s, op, now)
  {
    ReportedBy(s.cache, op, if s.cleaner.Some? then s.cleaner.value.bucket else 0, now)
  }

  /** What one operation overwrites. */
  ghost function Replaced<K, V>(s: System<K, V>, op: Op<K, V>): multiset<(K, V)> {
    if op.OpAdd? && Holds(s.cache, op.k) then Contents([s.cache.items[Position(s.cache.items, op.k)]]) else multiset{}
  }

  ghost predicate Touches<K, V>(s: System<K, V>, op: Op<K, V>, now: int) {
    op.OpAdd? || (op.OpGet? && Lookup(s.cache, op.k, now).Some?)
  }

  ghost function Step<K, V>(s: System<K, V>, op: Op<K, V>, now: int): System<K, V>
    requires WellShaped(s.cache) && Enabled(s, op, now)
  {
    System(
      Next(s, op, now), now,
      match op
      case CleanBegin => Some(Cleaner(s.cache.next, s.cache.newest[s.cache.next as int]))
      case CleanEnd => None
      case _ => s.cleaner,
      if op.OpAdd? then s.added + multiset{(op.k, op.v)} else s.added,
      s.reported + Reported(s, op, now),
      s.replaced + Replaced(s, op),
      if op.OpAdd? then s.latest[op.k := Write(op.v, now)] else s.latest,
      if Touches(s, op, now) then s.touched[op.k := s.ticks] else s.touched,
      s.ticks + 1)
  }

  // ---------------------------------------------------------------- the invariant

  ghost predicate DistinctKeys<K, V>(items: seq<Item<K, V>>) {
    forall i, j :: 0 <= i < j < |items| ==> items[i].key != items[j].key
  }

  /** An entry holds the last value added under its key, expires a ttl after that Add, and
      never after the newest expiry noted for its bucket. */
  ghost predicate Faithful<K, V>(s: System<K, V>, it: Item<K, V>) {
    && it.key in s.latest && it.key in s.touched && s.touched[it.key] < s.ticks
    && it.value == s.latest[it.key].value
    && it.expiresAt == s.latest[it.key].at + s.cache.ttl
    && it.bucket < NUM_BUCKETS && |s.cache.newest| == NUM_BUCKETS as int
    && it.expiresAt <= s.cache.newest[it.bucket as int]
  }

  /** Entries are in order of their last Add or hit, the most recent first. */
  ghost predicate ByRecency<K, V>(items: seq<Item<K, V>>, touched: map<K, nat>) {
    forall i, j :: 0 <= i < j < |items| && items[i].key in touched && items[j].key in touched ==>
      touched[items[i].key] > touched[items[j].key]
  }

  ghost predicate Inv<K, V>(s: System<K, V>) {
    && WellShaped(s.cache)
    && DistinctKeys(s.cache.items)
    && (s.cache.size > 0 ==> |s.cache.items| <= s.cache.size)
    && (forall i :: 0 <= i < |s.cache.items| ==> Faithful(s, s.cache.items[i]))
    && ByRecency(s.cache.items, s.touched)
    && (s.cleaner.Some? ==>
         && s.cleaner.value.bucket == s.cache.next
         && s.cache.newest[s.cache.next as int] == s.cleaner.value.wake)
    && s.added == Contents(s.cache.items) + s.reported + s.replaced
  }

  lemma StartInv<K, V>(size: int, ttl: int)
    ensures Inv(Start<K, V>(size, ttl))
  {
  }

  // ---------------------------------------------------------------- thinning a sequence

  /** `a` is `b` with some entries left out; `f` says where each entry of `a` comes from. */
  ghost predicate Embeds<T>(f: seq<nat>, a: seq<T>, b: seq<T>) {
    && |f| == |a|
    && (forall i :: 0 <= i < |f| ==> f[i] < |b| && a[i] == b[f[i]])
    && (forall i, j :: 0 <= i < j < |f| ==> f[i] < f[j])
  }

  ghost predicate Thinned<T>(a: seq<T>, b: seq<T>) { exists f :: Embeds(f, a, b) }

  lemma PrefixThinned<T>(s: seq<T>, n: nat)
    requires n <= |s|
    ensures Thinned(s[..n], s)
  {
    assert Embeds(seq(n, i => i), s[..n], s);
  }

  lemma DroppedThinned<T>(s: seq<T>, n: nat)
    requires n < |s|
    ensures Thinned(Dropped(s, n), s)
  {
    assert Embeds(seq(|s| - 1, i => if i < n then i else i + 1), Dropped(s, n), s);
  }

  lemma ThinnedLater<T>(a: seq<T>, x: T, b: seq<T>)
    requires Thinned(a, b)
    ensures Thinned(a, [x] + b) && Thinned([x] + a, [x] + b)
  {
    var f :| Embeds(f, a, b);
    var g := seq(|f|, i requires 0 <= i < |f| => f[i] + 1);
    assert Embeds(g, a, [x] + b);
    assert Embeds([0] + g, [x] + a, [x] + b);
  }

  lemma {:induction false} NotInBucketThinned<K, V>(items: seq<Item<K, V>>, b: uint8)
    ensures Thinned(NotInBucket(items, b), items)
  {
    if items == [] {
      assert Embeds([], NotInBucket(items, b), items);
    } else {
      NotInBucketThinned(items[1..], b);
      ThinnedLater(NotInBucket(items[1..], b), items[0], items[1..]);
      assert items == [items[0]] + items[1..];
      assert [] + NotInBucket(items[1..], b) == NotInBucket(items[1..], b);
    }
  }

  lemma ThinnedKeeps<K, V>(a: seq<Item<K, V>>, s: System<K, V>)
    requires Inv(s) && Thinned(a, s.cache.items)
    ensures |a| <= |s.cache.items|
    ensures DistinctKeys(a) && ByRecency(a, s.touched)
    ensures forall i :: 0 <= i < |a| ==> Faithful(s, a[i])
  {
    var f :| Embeds(f, a, s.cache.items);
    EmbeddingFits(f, |s.cache.items|);
  }

  lemma {:induction false} EmbeddingFits(f: seq<nat>, n: nat)
    requires forall i :: 0 <= i < |f| ==> f[i] < n
    requires forall i, j :: 0 <= i < j < |f| ==> f[i] < f[j]
    ensures |f| <= n
  {
    if f != [] {
      EmbeddingFits(f[..|f| - 1], f[|f| - 1]);
    }
  }

  // ---------------------------------------------------------------- contents

  lemma ContentsSplit<K, V>(a: seq<Item<K, V>>, b: seq<Item<K, V>>)
    ensures Contents(a + b) == Contents(a) + Contents(b)
  {
    assert Pairs(a + b) == Pairs(a) + Pairs(b);
  }

  lemma ContentsCut<K, V>(s: seq<Item<K, V>>, n: nat)
    requires n <= |s|
    ensures Contents(s) == Contents(s[..n]) + Contents(s[n..])
  {
    assert s == s[..n] + s[n..];
    ContentsSplit(s[..n], s[n..]);
  }

  lemma ContentsOne<K, V>(it: Item<K, V>)
    ensures Contents([it]) == multiset{(it.key, it.value)}
  {
    assert Pairs([it]) == [(it.key, it.value)];
  }

  lemma ContentsDropped<K, V>(s: seq<Item<K, V>>, n: nat)
    requires n < |s|
    ensures Contents(s) == Contents(Dropped(s, n)) + Contents([s[n]])
  {
    hide Contents;
    ContentsCut(s, n);
    ContentsSplit(s[..n], s[n + 1..]);
    assert s[n..] == [s[n]] + s[n + 1..];
    ContentsSplit([s[n]], s[n + 1..]);
  }

  lemma {:induction false} ContentsByBucket<K, V>(items: seq<Item<K, V>>, b: uint8)
    ensures Contents(items) == Contents(NotInBucket(items, b)) + Contents(InBucket(items, b))
  {
    if items != [] {
      ContentsByBucket(items[1..], b);
      ContentsSplit(if items[0].bucket == b then [] else [items[0]], NotInBucket(items[1..], b));
      ContentsSplit(if items[0].bucket == b then [items[0]] else [], InBucket(items[1..], b));
      assert items == [items[0]] + items[1..];
      ContentsSplit([items[0]], items[1..]);
    }
  }

  // ---------------------------------------------------------------- one step

  lemma AddConserves<K, V>(s: System<K, V>, k: K, v: V, now: int)
    requires WellShaped(s.cache) && s.clock <= now
    ensures var op := OpAdd(k, v);
            Contents(s.cache.items) + multiset{(k, v)}
              == Contents(Next(s, op, now).items) + Reported(s, op, now) + Replaced(s, op)
  {
    hide Contents;
    var items := s.cache.items;
    var i := Position(items, k);
    var rest := if i < |items| then Dropped(items, i) else items;
    var all := Written(s.cache, k, v, rest, now).items;
    ContentsSplit([all[0]], rest);
    ContentsOne(all[0]);
    if i < |items| {
      ContentsDropped(items, i);
    } else if Evicts(s.cache, k) {
      ContentsCut(all, |items|);
    }
  }

  /** Conservation across one step: what was stored or is added now is stored, reported
      or overwritten. */
  lemma StepConserves<K, V>(s: System<K, V>, op: Op<K, V>, now: int)
    requires WellShaped(s.cache) && Enabled(s, op, now)
    ensures Contents(s.cache.items) + (if op.OpAdd? then multiset{(op.k, op.v)} else multiset{})
         == Contents(Next(s, op, now).items) + Reported(s, op, now) + Replaced(s, op)
  {
    hide Contents;
    var items := s.cache.items;
    match op
    case OpAdd(k, v) => AddConserves(s, k, v, now);
    case OpGet(k) =>
      var i := Position(items, k);
      if i < |items| {
        ContentsDropped(items, i);
        ContentsSplit([items[i]], Dropped(items, i));
      }
    case OpRemove(k) =>
      var i := Position(items, k);
      if i < |items| {
        ContentsDropped(items, i);
      }
    case OpRemoveOldest =>
      if items != [] {
        ContentsCut(items, |items| - 1);
      }
    case OpResize(n) =>
      if 0 < n < |items| {
        ContentsCut(items, n);
      } else {
        assert items[..|items|] == items;
      }
    case OpPurge => ContentsNone<K, V>();
    case CleanBegin =>
    case CleanEnd => ContentsByBucket(items, s.cleaner.value.bucket);
  }

  lemma ContentsNone<K, V>()
    ensures Contents<K, V>([]) == multiset{}
  {
  }

  lemma AllThinned<T>(s: seq<T>)
    ensures Thinned(s, s)
  {
    PrefixThinned(s, |s|);
    assert s[..|s|] == s;
  }

  /** The entries that survive an operation which writes none. */
  lemma Survivors<K, V>(s: System<K, V>, op: Op<K, V>, now: int)
    requires WellShaped(s.cache) && Enabled(s, op, now)
    requires !Touches(s, op, now)
    ensures Thinned(Next(s, op, now).items, s.cache.items)
  {
    hide Thinned;
    var items := s.cache.items;
    match op
    case OpGet(_) => AllThinned(items);
    case OpRemove(k) =>
      if Holds(s.cache, k) {
        DroppedThinned(items, Position(items, k));
      } else {
        AllThinned(items);
      }
    case OpRemoveOldest =>
      if items != [] {
        PrefixThinned(items, |items| - 1);
      } else {
        AllThinned(items);
      }
    case OpResize(n) =>
      if n > 0 {
        PrefixThinned(items, if |items| > n then n else |items|);
      } else {
        AllThinned(items);
      }
    case OpPurge =>
      PrefixThinned(items, 0);
      assert items[..0] == [];
    case CleanBegin => AllThinned(items);
    case CleanEnd => NotInBucketThinned(items, s.cleaner.value.bucket);
  }

  /** An Add or a hit puts its key in front of entries that were there and have other keys. */
  ghost predicate InFront<K, V>(items: seq<Item<K, V>>, k: K, earlier: seq<Item<K, V>>) {
    && items != [] && items[0].key == k
    && Thinned(items[1..], earlier)
    && (forall i :: 0 < i < |items| ==> items[i].key != k)
  }

  lemma ConsInFront<K, V>(it: Item<K, V>, rest: seq<Item<K, V>>, earlier: seq<Item<K, V>>)
    requires Thinned(rest, earlier)
    requires forall i :: 0 <= i < |rest| ==> rest[i].key != it.key
    ensures InFront([it] + rest, it.key, earlier)
  {
    assert ([it] + rest)[1..] == rest;
  }

  lemma DroppedInFront<K, V>(it: Item<K, V>, i: nat, earlier: seq<Item<K, V>>)
    requires DistinctKeys(earlier) && i < |earlier| && it.key == earlier[i].key
    ensures InFront([it] + Dropped(earlier, i), it.key, earlier)
  {
    DroppedThinned(earlier, i);
    ConsInFront(it, Dropped(earlier, i), earlier);
  }

  lemma AddInFront<K, V>(c: Cache<K, V>, k: K, v: V, now: int)
    requires WellShaped(c) && DistinctKeys(c.items)
    ensures InFront(Add(c, k, v, now).items, k, c.items)
    ensures Add(c, k, v, now).items[0] == Item(k, v, now + c.ttl, FillBucket(c.next))
  {
    hide Thinned, InFront;
    var i := Position(c.items, k);
    var it := Item(k, v, now + c.ttl, FillBucket(c.next));
    if i < |c.items| {
      DroppedInFront(it, i, c.items);
    } else if c.size > 0 && |c.items| + 1 > c.size {
      PrefixThinned(c.items, |c.items| - 1);
      ConsInFront(it, c.items[..|c.items| - 1], c.items);
      assert ([it] + c.items)[..|c.items|] == [it] + c.items[..|c.items| - 1];
    } else {
      AllThinned(c.items);
      ConsInFront(it, c.items, c.items);
    }
  }

  lemma TouchedInFront<K, V>(s: System<K, V>, op: Op<K, V>, now: int)
    requires Inv(s) && Enabled(s, op, now) && Touches(s, op, now)
    ensures InFront(Next(s, op, now).items, op.k, s.cache.items)
    ensures op.OpAdd? ==> Next(s, op, now).items[0] == Item(op.k, op.v, now + s.cache.ttl, FillBucket(s.cache.next))
    ensures op.OpGet? ==> Next(s, op, now).items[0] in s.cache.items
  {
    hide InFront;
    if op.OpAdd? {
      AddInFront(s.cache, op.k, op.v, now);
    } else {
      var i := Position(s.cache.items, op.k);
      DroppedInFront(s.cache.items[i], i, s.cache.items);
    }
  }

  lemma ShapeKept<K, V>(s: System<K, V>, op: Op<K, V>, now: int)
    requires WellShaped(s.cache) && Enabled(s, op, now)
    requires s.cache.size > 0 ==> |s.cache.items| <= s.cache.size
    ensures var c := Next(s, op, now);
            && |c.newest| == NUM_BUCKETS as int && c.next < NUM_BUCKETS && c.size >= 0 && c.ttl == s.cache.ttl
            && (forall b :: 0 <= b < |c.newest| ==> s.cache.newest[b] <= c.newest[b])
            && (op.OpAdd? ==> now + c.ttl <= c.newest[FillBucket(s.cache.next) as int])
            && (c.size > 0 ==> |c.items| <= c.size)
            && (!op.CleanEnd? ==> c.next == s.cache.next && c.newest[c.next as int] == s.cache.newest[c.next as int])
  {
    if op.CleanEnd? {
      NotInBucketThinned(s.cache.items, s.cleaner.value.bucket);
      var f :| Embeds(f, NotInBucket(s.cache.items, s.cleaner.value.bucket), s.cache.items);
      EmbeddingFits(f, |s.cache.items|);
    }
  }

  /** What is known of one entry survives a step that does not touch its key. */
  lemma FaithfulKept<K, V>(s: System<K, V>, op: Op<K, V>, now: int, it: Item<K, V>)
    requires Inv(s) && Enabled(s, op, now) && Faithful(s, it)
    requires Touches(s, op, now) ==> it.key != op.k || op.OpGet?
    ensures Faithful(Step(s, op, now), it)
  {
    ShapeKept(s, op, now);
  }

  lemma ItemsKept<K, V>(s: System<K, V>, op: Op<K, V>, now: int)
    requires Inv(s) && Enabled(s, op, now)
    ensures var t := Step(s, op, now); var items := t.cache.items;
            && DistinctKeys(items) && ByRecency(items, t.touched)
            && forall i :: 0 <= i < |items| ==> Faithful(t, items[i])
  {
    hide Next, Thinned, Contents;
    var t := Step(s, op, now);
    var items := t.cache.items;
    var rest := items;
    if Touches(s, op, now) {
      TouchedInFront(s, op, now);
      rest := items[1..];
    } else {
      Survivors(s, op, now);
    }
    ThinnedKeeps(rest, s);
    forall i | 0 <= i < |rest|
      ensures Faithful(t, rest[i])
    {
      FaithfulKept(s, op, now, rest[i]);
    }
    if Touches(s, op, now) {
      FrontFaithful(s, op, now);
    }
  }

  lemma FrontFaithful<K, V>(s: System<K, V>, op: Op<K, V>, now: int)
    requires Inv(s) && Enabled(s, op, now) && Touches(s, op, now)
    requires Next(s, op, now).items != []
    ensures Faithful(Step(s, op, now), Next(s, op, now).items[0])
  {
    TouchedInFront(s, op, now);
    ShapeKept(s, op, now);
    var it := Next(s, op, now).items[0];
    if op.OpGet? {
      FaithfulKept(s, op, now, it);
    }
  }

  /** Every operation, the cleaner's halves included, keeps the invariant. */
  lemma StepInv<K(!new), V(!new)>(s: System<K, V>, op: Op<K, V>, now: int)
    requires Inv(s) && Enabled(s, op, now)
    ensures Inv(Step(s, op, now))
  {
    hide ByRecency, DistinctKeys, Contents, Next;
    ShapeKept(s, op, now);
    ItemsKept(s, op, now);
    StepConserves(s, op, now);
    var written := if op.OpAdd? then multiset{(op.k, op.v)} else multiset{};
    Balance(Contents(s.cache.items), s.reported, s.replaced, written,
            Contents(Next(s, op, now).items), Reported(s, op, now), Replaced(s, op));
    assert Step(s, op, now).added == s.added + written;
  }

  lemma Balance<T(!new)>(stored: multiset<T>, reported: multiset<T>, replaced: multiset<T>, written: multiset<T>,
                   stored': multiset<T>, reporting: multiset<T>, replacing: multiset<T>)
    requires stored + written == stored' + reporting + replacing
    ensures (stored + reported + replaced) + written == stored' + (reported + reporting) + (replaced + replacing)
  {
    var before := (stored + reported + replaced) + written;
    var after := stored' + (reported + reporting) + (replaced + replacing);
    forall x ensures before[x] == after[x] {
      assert (stored + written)[x] == (stored' + reporting + replacing)[x];
    }
  }

  // ---------------------------------------------------------------- every run

  datatype Timed<K, V> = Timed(op: Op<K, V>, at: int)

  ghost predicate Possible<K, V>(s: System<K, V>, run: seq<Timed<K, V>>)
    decreases |run|
  {
    run == [] ||
    (WellShaped(s.cache) && Enabled(s, run[0].op, run[0].at) && Possible(Step(s, run[0].op, run[0].at), run[1..]))
  }

  ghost function Run<K, V>(s: System<K, V>, run: seq<Timed<K, V>>): System<K, V>
    requires Possible(s, run)
    decreases |run|
  {
    if run == [] then s else Run(Step(s, run[0].op, run[0].at), run[1..])
  }

  lemma {:induction false} RunInv<K(!new), V(!new)>(s: System<K, V>, run: seq<Timed<K, V>>)
    requires Inv(s) && Possible(s, run)
    ensures Inv(Run(s, run))
    decreases |run|
  {
    if run != [] {
      StepInv(s, run[0].op, run[0].at);
      RunInv(Step(s, run[0].op, run[0].at), run[1..]);
    }
  }

  /** Conservation: however a cache of any size and ttl is used, each value ever added is
      still stored, was reported to the callback, or was replaced by a later Add of its
      key, and is in one of the three only once for each time it was added. The cache
      never holds more entries than a positive size, and no key twice. */
  lemma EveryRun<K(!new), V(!new)>(size: int, ttl: int, run: seq<Timed<K, V>>)
    requires Possible(Start(size, ttl), run)
    ensures var s := Run(Start(size, ttl), run);
            && s.added == Contents(s.cache.items) + s.reported + s.replaced
            && (s.cache.size > 0 ==> |s.cache.items| <= s.cache.size)
            && DistinctKeys(s.cache.items)
  {
    StartInv<K, V>(size, ttl);
    RunInv(Start(size, ttl), run);
  }

  /** A hit returns the value of the last Add of its key, within a ttl of that Add. */
  lemma HitIsFresh<K, V>(s: System<K, V>, k: K, now: int)
    requires Inv(s) && Lookup(s.cache, k, now).Some?
    ensures k in s.latest && Lookup(s.cache, k, now).value == s.latest[k].value
    ensures now <= s.latest[k].at + s.cache.ttl
  {
    assert Faithful(s, s.cache.items[Position(s.cache.items, k)]);
  }

  lemma {:induction false} NotInBucketHas<K, V>(items: seq<Item<K, V>>, b: uint8, it: Item<K, V>)
    ensures it in NotInBucket(items, b) <==> it in items && it.bucket != b
  {
    if items != [] {
      NotInBucketHas(items[1..], b, it);
      assert items == [items[0]] + items[1..];
    }
  }

  /** The cleaner removes exactly its bucket, and only entries that have expired, although
      it gave up the lock to sleep and entries were added, hit and removed meanwhile. */
  lemma CleanRemovesOnlyExpired<K, V>(s: System<K, V>, now: int, it: Item<K, V>)
    requires Inv(s) && Enabled(s, CleanEnd, now) && it in s.cache.items
    ensures it !in Step(s, CleanEnd, now).cache.items <==> it.bucket == s.cleaner.value.bucket
    ensures it !in Step(s, CleanEnd, now).cache.items ==> it.expiresAt <= now
  {
    NotInBucketHas(s.cache.items, s.cleaner.value.bucket, it);
    assert Faithful(s, it);
  }

  /** How many completed cleanings are still ahead of the one that takes bucket `b`. */
  function Distance(b: uint8, next: uint8): nat
    requires b < NUM_BUCKETS && next < NUM_BUCKETS
  {
    (b as int + NUM_BUCKETS as int - next as int) % NUM_BUCKETS as int
  }

  ghost function Cleanings<K, V>(run: seq<Timed<K, V>>): nat {
    if run == [] then 0 else (if run[0].op.CleanEnd? then 1 else 0) + Cleanings(run[1..])
  }

  ghost predicate NeverAdded<K, V>(run: seq<Timed<K, V>>, k: K) {
    forall i :: 0 <= i < |run| ==> !(run[i].op.OpAdd? && run[i].op.k == k)
  }

  lemma EntryWasThere<K, V>(s: System<K, V>, op: Op<K, V>, now: int, it: Item<K, V>)
    requires Inv(s) && Enabled(s, op, now)
    requires it in Next(s, op, now).items && !(op.OpAdd? && op.k == it.key)
    ensures it in s.cache.items
  {
    var items := Next(s, op, now).items;
    if Touches(s, op, now) {
      TouchedInFront(s, op, now);
      if it != items[0] {
        ThinnedHas(items[1..], s.cache.items, it);
      }
    } else {
      Survivors(s, op, now);
      ThinnedHas(items, s.cache.items, it);
    }
  }

  lemma ThinnedHas<T>(a: seq<T>, b: seq<T>, x: T)
    requires Thinned(a, b) && x in a
    ensures x in b
  {
    var f :| Embeds(f, a, b);
    var i :| 0 <= i < |a| && a[i] == x;
    assert a[i] == b[f[i]];
  }

  lemma StaleStep<K, V>(s: System<K, V>, op: Op<K, V>, now: int, it: Item<K, V>)
    requires Inv(s) && Enabled(s, op, now)
    requires it in Next(s, op, now).items && !(op.OpAdd? && op.k == it.key)
    ensures it in s.cache.items && it.bucket < NUM_BUCKETS && Next(s, op, now).next < NUM_BUCKETS
    ensures Distance(it.bucket, s.cache.next)
         == Distance(it.bucket, Next(s, op, now).next) + if op.CleanEnd? then 1 else 0
  {
    hide Thinned, ByRecency, DistinctKeys, Contents;
    EntryWasThere(s, op, now, it);
    ShapeKept(s, op, now);
    assert Faithful(s, it);
    if op.CleanEnd? {
      NotInBucketHas(s.cache.items, s.cleaner.value.bucket, it);
      OneCloser(it.bucket, s.cache.next);
    }
  }

  lemma OneCloser(b: uint8, next: uint8)
    requires b < NUM_BUCKETS && next < NUM_BUCKETS && b != next
    ensures Distance(b, next) == Distance(b, NextBucket(next)) + 1
  {
  }

  /** Bounded staleness: an entry whose key is not added again is one cleaning closer to
      its removal with every completed cleaning, so it is gone after at most 100. */
  lemma {:induction false} StaleRun<K(!new), V(!new)>(s: System<K, V>, run: seq<Timed<K, V>>, it: Item<K, V>)
    requires Inv(s) && Possible(s, run) && NeverAdded(run, it.key)
    requires it in Run(s, run).cache.items
    ensures it in s.cache.items && it.bucket < NUM_BUCKETS && Run(s, run).cache.next < NUM_BUCKETS
    ensures Distance(it.bucket, s.cache.next) == Distance(it.bucket, Run(s, run).cache.next) + Cleanings(run)
    decreases |run|
  {
    if run == [] {
      assert Faithful(s, it);
    } else {
      var t := Step(s, run[0].op, run[0].at);
      StepInv(s, run[0].op, run[0].at);
      assert NeverAdded(run[1..], it.key);
      StaleRun(t, run[1..], it);
      StaleStep(s, run[0].op, run[0].at, it);
    }
  }

  lemma GoneAfter100Cleanings<K(!new), V(!new)>(s: System<K, V>, run: seq<Timed<K, V>>, k: K)
    requires Inv(s) && Possible(s, run) && NeverAdded(run, k)
    requires Cleanings(run) >= 100
    ensures !Holds(Run(s, run).cache, k)
  {
    var items := Run(s, run).cache.items;
    if Position(items, k) < |items| {
      StaleRun(s, run, items[Position(items, k)]);
    }
  }

  /** Overflow, RemoveOldest and Resize drop the least recently used: whatever they keep
      was added or hit after whatever they drop. */
  lemma LeastRecentGoesFirst<K, V>(s: System<K, V>, op: Op<K, V>, now: int, kept: Item<K, V>, gone: Item<K, V>)
    requires Inv(s) && Enabled(s, op, now)
    requires (op.OpAdd? && Evicts(s.cache, op.k)) || op.OpRemoveOldest? || op.OpResize?
    requires kept in s.cache.items && gone in s.cache.items
    requires kept in Next(s, op, now).items && gone !in Next(s, op, now).items
    ensures kept.key in s.touched && gone.key in s.touched && s.touched[kept.key] > s.touched[gone.key]
  {
    var items := s.cache.items;
    var n := KeptLength(s, op, now);
    var i :| 0 <= i < |items| && items[i] == kept;
    var j :| 0 <= j < |items| && items[j] == gone;
    var at :| 0 <= at < n && items[..n][at] == kept;
    assert Faithful(s, items[at]) && Faithful(s, items[j]);
  }

  /** Those operations keep a prefix of the recency order. */
  lemma KeptLength<K, V>(s: System<K, V>, op: Op<K, V>, now: int) returns (n: nat)
    requires Inv(s) && Enabled(s, op, now)
    requires (op.OpAdd? && Evicts(s.cache, op.k)) || op.OpRemoveOldest? || op.OpResize?
    ensures n <= |s.cache.items|
    ensures forall it :: it in s.cache.items ==> (it in Next(s, op, now).items <==> it in s.cache.items[..n])
  {
    var items, kept := s.cache.items, Next(s, op, now).items;
    match op
    case OpAdd(k, v) =>
      n := |kept| - 1;
      assert kept == [kept[0]] + items[..n];
    case OpRemoveOldest =>
      n := |kept|;
      assert kept == items[..n];
    case OpResize(_) =>
      n := |kept|;
      assert kept == items[..n];
  }

  /** Keys lists exactly the unexpired keys ... */
  lemma {:induction false} KeysAreLive<K, V>(items: seq<Item<K, V>>, now: int, k: K)
    ensures k in Keys(items, now) <==> exists it :: it in items && it.key == k && Live(it, now)
  {
    if items != [] {
      KeysAreLive(items[1..], now, k);
      assert items == [items[0]] + items[1..];
    }
  }

  /** ... the least recently used first. */
  lemma {:induction false} KeysByRecency<K, V>(items: seq<Item<K, V>>, touched: map<K, nat>, now: int)
    requires ByRecency(items, touched) && forall i :: 0 <= i < |items| ==> items[i].key in touched
    ensures forall i :: 0 <= i < |Keys(items, now)| ==> Keys(items, now)[i] in touched
    ensures forall i, j :: 0 <= i < j < |Keys(items, now)| ==>
              touched[Keys(items, now)[i]] < touched[Keys(items, now)[j]]
  {
    if items != [] {
      var rest := items[1..];
      var older := Keys(rest, now);
      KeysByRecency(rest, touched, now);
      forall i | 0 <= i < |older|
        ensures touched[older[i]] < touched[items[0].key]
      {
        KeysAreLive(rest, now, older[i]);
        var it :| it in rest && it.key == older[i] && Live(it, now);
        var p :| 0 <= p < |rest| && rest[p] == it;
        assert items[p + 1] == it;
      }
    }
  }
}
