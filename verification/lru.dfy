/** The expiring LRU cache of gorm/internal/lru/lru.go on the heap: the linked list, the
    key index and the expiry buckets stay consistent, and every method does to them what
    LruModel says of the recency-ordered sequence. Times are parameters; the lock is the
    boundary of each method, and deleteExpired gives it up between its two halves. */
module Lru {
  import opened Options
  import opened LruModel
  import opened LruRing

  datatype Bucket<K(0), V(0)> = Bucket(entries: map<K, Entry<K, V>>, newestEntry: int)

  /** `items` is a bijection between the keys and the nodes. */
  ghost predicate Indexed<K(0), V(0)>(nodes: seq<Entry<K, V>>, items: map<K, Entry<K, V>>)
    reads nodes
  {
    && (forall k :: k in items ==> items[k] in nodes && items[k].key == k)
    && (forall n :: n in nodes ==> n.key in items && items[n.key] == n)
  }

  /** Every entry is in exactly one bucket, the one its expireBucket names. */
  ghost predicate Bucketed<K(0), V(0)>(nodes: seq<Entry<K, V>>, items: map<K, Entry<K, V>>, bs: seq<Bucket<K, V>>)
    reads nodes
  {
    && |bs| == NUM_BUCKETS as int
    && (forall k :: k in items ==>
         && items[k] in nodes
         && items[k].expireBucket < NUM_BUCKETS && k in bs[items[k].expireBucket as int].entries)
    && (forall b, k :: 0 <= b < |bs| && k in bs[b].entries ==>
         k in items && bs[b].entries[k] == items[k] && items[k].expireBucket as int == b)
  }

  ghost function ItemOf<K(0), V(0)>(n: Entry<K, V>): Item<K, V>
    reads n
  {
    Item(n.key, n.value, n.expiresAt, n.expireBucket)
  }

  ghost function ItemsOf<K(0), V(0)>(nodes: seq<Entry<K, V>>): (r: seq<Item<K, V>>)
    reads nodes
    ensures |r| == |nodes|
    ensures forall i :: 0 <= i < |nodes| ==> r[i] == ItemOf(nodes[i])
  {
    if nodes == [] then [] else [ItemOf(nodes[0])] + ItemsOf(nodes[1..])
  }

  twostate lemma ItemsOfKept<K(0), V(0)>(nodes: seq<Entry<K, V>>)
    requires forall n :: n in nodes ==> n.SamePayload()
    ensures ItemsOf(nodes) == old(ItemsOf(nodes))
  {
    assert forall i :: 0 <= i < |nodes| ==> nodes[i] in nodes;
  }

  lemma {:induction false} ItemsOfDropped<K(0), V(0)>(nodes: seq<Entry<K, V>>, i: nat)
    requires i < |nodes|
    ensures ItemsOf(Dropped(nodes, i)) == Dropped(ItemsOf(nodes), i)
  {
    var its := ItemsOf(nodes);
    if i == 0 {
      assert Dropped(nodes, 0) == nodes[1..] && Dropped(its, 0) == its[1..];
    } else {
      ItemsOfDropped(nodes[1..], i - 1);
      DroppedTail(nodes, i);
      DroppedTail(its, i);
    }
  }

  lemma DroppedTail<T>(s: seq<T>, i: nat)
    requires 0 < i < |s|
    ensures Dropped(s, i) == [s[0]] + Dropped(s[1..], i - 1)
  {
  }

  ghost function NewestOf<K(0), V(0)>(bs: seq<Bucket<K, V>>): (r: seq<int>)
    ensures |r| == |bs|
  {
    seq(|bs|, i requires 0 <= i < |bs| => bs[i].newestEntry)
  }

  /** The buckets without one key of bucket `b`. */
  ghost function Emptied<K(0), V(0)>(bs: seq<Bucket<K, V>>, b: int, k: K): seq<Bucket<K, V>>
    requires 0 <= b < |bs|
  {
    bs[b := Bucket(bs[b].entries - {k}, bs[b].newestEntry)]
  }

  lemma EmptiedNewest<K(0), V(0)>(bs: seq<Bucket<K, V>>, b: int, k: K)
    requires 0 <= b < |bs|
    ensures NewestOf(Emptied(bs, b, k)) == NewestOf(bs)
  {
  }

  /** Taking one node out of all three structures keeps them in step. */
  lemma TablesDropped<K(0), V(0)>(nodes: seq<Entry<K, V>>, items: map<K, Entry<K, V>>, bs: seq<Bucket<K, V>>, i: nat)
    requires Indexed(nodes, items) && Bucketed(nodes, items, bs)
    requires i < |nodes| && nodes[i] !in Dropped(nodes, i)
    ensures var e := nodes[i]; var b := e.expireBucket as int;
            && b < |bs|
            && Indexed(Dropped(nodes, i), items - {e.key})
            && Bucketed(Dropped(nodes, i), items - {e.key}, Emptied(bs, b, e.key))
            && NewestOf(Emptied(bs, b, e.key)) == NewestOf(bs)
  {
    EmptiedNewest(bs, nodes[i].expireBucket as int, nodes[i].key);
    hide Dropped, NewestOf;
    DroppedFrom(nodes, i);
    assert nodes[i] in nodes;
  }

  /** The buckets with one entry more in bucket `b`, and its newest expiry raised to it. */
  ghost function Filled<K(0), V(0)>(bs: seq<Bucket<K, V>>, b: int, e: Entry<K, V>): seq<Bucket<K, V>>
    requires 0 <= b < |bs|
    reads e
  {
    bs[b := Bucket(bs[b].entries[e.key := e], Max(bs[b].newestEntry, e.expiresAt))]
  }

  /** Putting one node in front in all three structures keeps them in step. */
  lemma TablesAdded<K(0), V(0)>(rest: seq<Entry<K, V>>, items: map<K, Entry<K, V>>, bs: seq<Bucket<K, V>>,
                                e: Entry<K, V>)
    requires Indexed(rest, items) && Bucketed(rest, items, bs)
    requires e !in rest && e.key !in items && e.expireBucket < NUM_BUCKETS
    ensures var b := e.expireBucket as int;
            && b < |bs|
            && Indexed([e] + rest, items[e.key := e])
            && Bucketed([e] + rest, items[e.key := e], Filled(bs, b, e))
            && NewestOf(Filled(bs, b, e)) == NewestOf(bs)[b := Max(NewestOf(bs)[b], e.expiresAt)]
  {
    assert forall n :: n in [e] + rest <==> n == e || n in rest;
  }

  class LRU<K(0, ==), V(0)> {
    var size: int
    const evictList: LruList<K, V>
    var items: map<K, Entry<K, V>>
    const ttl: int
    const buckets: array<Bucket<K, V>>
    var nextCleanupBucket: uint8

    /** Every call of the eviction callback so far. */
    ghost var reported: multiset<(K, V)>

    /** The value this cache stands for. */
    ghost var model: Cache<K, V>

    ghost predicate Valid()
      reads this, evictList, evictList.root, evictList.nodes, buckets
    {
      && evictList.Valid()
      && Tables()
      && WellShaped(model)
      && model.next == nextCleanupBucket && model.size == size && model.ttl == ttl
      && model.items == ItemsOf(evictList.nodes)
      && model.newest == NewestOf(buckets[..])
    }

    ghost predicate Tables()
      reads this, evictList, evictList.nodes, buckets
    {
      && Indexed(evictList.nodes, items)
      && Bucketed(evictList.nodes, items, buckets[..])
    }

    constructor (size: int, ttl: int)
      ensures Valid() && fresh(evictList) && fresh(evictList.root) && fresh(buckets) && evictList.nodes == []
      ensures model == Start<K, V>(size, ttl).cache && reported == multiset{}
      ensures model.items == [] && this.size == (if size < 0 then 0 else size)
      ensures this.ttl == if ttl <= 0 then 315_360_000_000_000_000 else ttl
    {
      this.size := if size < 0 then 0 else size;
      this.ttl := if ttl <= 0 then NO_EVICTION_TTL else ttl;
      evictList := new LruList<K, V>();
      items := map[];
      buckets := new Bucket<K, V>[NUM_BUCKETS as int](_ => Bucket(map[], 0));
      nextCleanupBucket := 0;
      reported := multiset{};
      model := Start<K, V>(size, ttl).cache;
    }

    /** Relinking nodes disturbs neither the index nor the buckets. */
    twostate lemma TablesKept(nodes: seq<Entry<K, V>>)
      requires forall n :: n in nodes ==> n.SamePayload()
      requires items == old(items) && buckets[..] == old(buckets[..])
      ensures old(Indexed(nodes, items)) ==> Indexed(nodes, items)
      ensures old(Bucketed(nodes, items, buckets[..])) ==> Bucketed(nodes, items, buckets[..])
    {
    }

    /** Records what the structures now stand for. */
    ghost method Commit(c: Cache<K, V>)
      requires evictList.Valid() && Tables() && WellShaped(c)
      requires c.next == nextCleanupBucket && c.size == size && c.ttl == ttl
      requires c.items == ItemsOf(evictList.nodes) && c.newest == NewestOf(buckets[..])
      modifies this`model
      ensures Valid() && model == c
    {
      model := c;
    }

    /** removeElement: out of the list, the index and its bucket, then to the callback. */
    method RemoveElement(e: Entry<K, V>, ghost i: nat)
      requires Valid() && i < |evictList.nodes| && evictList.nodes[i] == e
      modifies this, evictList, evictList.root, evictList.nodes, buckets
      ensures Valid() && evictList.nodes == Dropped(old(evictList.nodes), i)
      ensures model == old(model).(items := Dropped(old(model).items, i))
      ensures reported == old(reported) + Contents([old(model).items[i]])
    {
      hide LruList.Valid, Dropped, Indexed, Bucketed, Emptied, ItemsOf, NewestOf, Contents;
      ghost var nodes := evictList.nodes;
      evictList.Remove(e, i);
      TablesKept(nodes);
      ItemsOfKept(nodes);
      ItemsOfDropped(nodes, i);
      ContentsOne(ItemOf(e));
      TablesDropped(nodes, items, buckets[..], i);
      Forget(e);
      DroppedShape(model, i);
      Commit(model.(items := Dropped(model.items, i)));
    }

    /** The rest of removeElement, for an entry that has left the list. */
    method Forget(e: Entry<K, V>)
      requires e.expireBucket as int < buckets.Length
      requires Indexed(evictList.nodes, items - {e.key})
      requires Bucketed(evictList.nodes, items - {e.key}, Emptied(buckets[..], e.expireBucket as int, e.key))
      modifies this`items, this`reported, buckets
      ensures Tables() && reported == old(reported) + multiset{(e.key, e.value)}
      ensures buckets[..] == Emptied(old(buckets[..]), e.expireBucket as int, e.key)
    {
      hide Indexed, Bucketed, Emptied;
      items := items - {e.key};
      RemoveFromBucket(e);
      reported := reported + multiset{(e.key, e.value)};
    }

    method RemoveFromBucket(e: Entry<K, V>)
      requires e.expireBucket as int < buckets.Length
      modifies buckets
      ensures buckets[..] == Emptied(old(buckets[..]), e.expireBucket as int, e.key)
    {
      var b := e.expireBucket as int;
      buckets[b] := Bucket(buckets[b].entries - {e.key}, buckets[b].newestEntry);
    }

    /** addToBucket: `rest` are the nodes behind `e`, `others` their index. */
    method AddToBucket(e: Entry<K, V>, ghost rest: seq<Entry<K, V>>, ghost others: map<K, Entry<K, V>>)
      requires nextCleanupBucket < NUM_BUCKETS && buckets.Length == NUM_BUCKETS as int
      requires Indexed(rest, others) && Bucketed(rest, others, buckets[..]) && e !in rest && e.key !in others
      modifies e`expireBucket, buckets
      ensures e.expireBucket == FillBucket(nextCleanupBucket)
      ensures Indexed([e] + rest, others[e.key := e]) && Bucketed([e] + rest, others[e.key := e], buckets[..])
      ensures var b := FillBucket(nextCleanupBucket) as int;
              NewestOf(buckets[..]) == old(NewestOf(buckets[..]))[b := Max(old(NewestOf(buckets[..]))[b], e.expiresAt)]
    {
      hide Indexed, Bucketed;
      var bucketID := (NUM_BUCKETS + nextCleanupBucket - 1) % NUM_BUCKETS;
      e.expireBucket := bucketID;
      ghost var bs := buckets[..];
      TablesAdded(rest, others, bs, e);
      var bucket := buckets[bucketID];
      var newest := bucket.newestEntry;
      if newest < e.expiresAt {
        newest := e.expiresAt;
      }
      buckets[bucketID] := Bucket(bucket.entries[e.key := e], newest);
      assert buckets[..] == Filled(bs, bucketID as int, e);
    }

    /** The key index finds the position of a key in the recency order. */
    lemma IndexFinds(k: K)
      requires Valid()
      ensures WellShaped(model) && model.size == size && model.ttl == ttl && model.next == nextCleanupBucket
      ensures |model.items| == |evictList.nodes| == evictList.len
      ensures Holds(model, k) <==> k in items
      ensures k in items ==>
                var i := Position(model.items, k); evictList.nodes[i] == items[k] && model.items[i] == ItemOf(items[k])
    {
      var its := model.items;
      var i := Position(its, k);
      if i < |its| {
        assert evictList.nodes[i] in evictList.nodes;
      }
      if k in items {
        var j :| 0 <= j < |evictList.nodes| && evictList.nodes[j] == items[k];
        assert its[j] == ItemOf(items[k]);
      }
    }

    method Get(key: K, now: int) returns (value: Option<V>)
      requires Valid()
      modifies this, evictList, evictList.root, evictList.nodes
      ensures Valid() && model == LruModel.Get(old(model), key, now)
      ensures value == Lookup(old(model), key, now) && reported == old(reported)
    {
      hide Valid, Dropped;
      IndexFinds(key);
      if key in items {
        var ent := items[key];
        if now > ent.expiresAt {
          return None;
        }
        value := Some(ent.value);
        Touch(ent, Position(model.items, key));
        return;
      }
      return None;
    }

    /** MoveToFront with everything else as it was. */
    method Touch(e: Entry<K, V>, ghost i: nat)
      requires Valid() && i < |evictList.nodes| && evictList.nodes[i] == e
      modifies this`model, evictList, evictList.root, evictList.nodes
      ensures Valid() && evictList.nodes == [e] + Dropped(old(evictList.nodes), i)
      ensures model == old(model).(items := [old(model).items[i]] + Dropped(old(model).items, i))
    {
      hide LruList.Valid, Dropped, Indexed, Bucketed, NewestOf, ItemsOf;
      ghost var nodes := evictList.nodes;
      evictList.MoveToFront(e, i);
      TablesKept(nodes);
      TablesReordered(nodes, i, items, buckets[..]);
      ItemsOfKept(nodes);
      ItemsOfDropped(nodes, i);
      ItemsOfCons(e, Dropped(nodes, i));
      DroppedShape(model, i);
      Commit(model.(items := [model.items[i]] + Dropped(model.items, i)));
    }

    method Add(key: K, value: V, now: int) returns (evicted: bool)
      requires Valid()
      modifies this, evictList, evictList.root, evictList.nodes, buckets
      ensures Valid() && model == LruModel.Add(old(model), key, value, now)
      ensures evicted == Evicts(old(model), key)
      ensures evicted <==> !Holds(old(model), key) && |model.items| == |old(model).items|
      ensures reported == old(reported) + ReportedBy(old(model), OpAdd(key, value), 0, now)
    {
      hide Valid, Dropped, Contents;
      IndexFinds(key);
      if key in items {
        Rewrite(items[key], value, now, Position(model.items, key));
        return false;
      }
      ghost var c := model;
      InsertNew(key, value, now);
      IndexFinds(key);
      evicted := size > 0 && evictList.len > size;
      if evicted {
        DropOldest();
        LastReported(Written(c, key, value, c.items, now).items, |c.items|);
      }
    }

    /** Add for a key that is there. */
    method Rewrite(ent: Entry<K, V>, value: V, now: int, ghost i: nat)
      requires Valid() && i < |evictList.nodes| && evictList.nodes[i] == ent
      modifies this`model, evictList, evictList.root, evictList.nodes, buckets
      ensures Valid()
      ensures model == Written(old(model), old(model).items[i].key, value, Dropped(old(model).items, i), now)
    {
      hide LruList.Valid, Dropped, Indexed, Bucketed, NewestOf, ItemsOf, Emptied, Written, WellShaped;
      evictList.NodeOnce(i);
      WrittenShape(model, ent.key, value, i, now);
      ghost var nodes, rest := evictList.nodes, Dropped(evictList.nodes, i);
      evictList.MoveToFront(ent, i);
      TablesKept(nodes);
      ItemsOfKept(nodes);
      ItemsOfDropped(nodes, i);
      TablesDropped(nodes, items, buckets[..], i);
      label linked:
      ghost var others, kept := items - {ent.key}, ItemsOf(rest);
      Refresh(ent, value, now + ttl, rest, others);
      assert ItemsOf(rest) == kept;
      assert items == others[ent.key := ent];
      evictList.ValidKept@linked();
      ItemsOfCons(ent, rest);
      ghost var w := Written(model, ent.key, value, Dropped(model.items, i), now);
      assert w.items == ItemsOf(evictList.nodes);
      assert w.newest == NewestOf(buckets[..]);
      Commit(w);
    }

    /** Renews an entry and moves it to the bucket being filled. */
    method Refresh(ent: Entry<K, V>, value: V, expiresAt: int, ghost rest: seq<Entry<K, V>>,
                   ghost others: map<K, Entry<K, V>>)
      requires nextCleanupBucket < NUM_BUCKETS && buckets.Length == NUM_BUCKETS as int
      requires ent !in rest && ent.key !in others && ent.expireBucket < NUM_BUCKETS
      requires Indexed(rest, others)
      requires Bucketed(rest, others, Emptied(buckets[..], ent.expireBucket as int, ent.key))
      modifies ent`value, ent`expiresAt, ent`expireBucket, buckets
      ensures ItemOf(ent) == Item(ent.key, value, expiresAt, FillBucket(nextCleanupBucket))
      ensures Indexed([ent] + rest, others[ent.key := ent])
      ensures Bucketed([ent] + rest, others[ent.key := ent], buckets[..])
      ensures var b := FillBucket(nextCleanupBucket) as int;
              NewestOf(buckets[..]) == old(NewestOf(buckets[..]))[b := Max(old(NewestOf(buckets[..]))[b], expiresAt)]
    {
      hide Indexed, Bucketed, NewestOf, Emptied;
      EmptiedNewest(buckets[..], ent.expireBucket as int, ent.key);
      RemoveFromBucket(ent);
      assert Indexed(rest, others) && Bucketed(rest, others, buckets[..]);
      ent.value := value;
      ent.expiresAt := expiresAt;
      assert Indexed(rest, others) && Bucketed(rest, others, buckets[..]);
      AddToBucket(ent, rest, others);
    }

    /** The first half of Add for a new key. */
    method InsertNew(key: K, value: V, now: int)
      requires Valid() && key !in items
      modifies this`model, this`items, evictList, evictList.root, evictList.nodes, buckets
      ensures Valid()
      ensures evictList.nodes != [] && fresh(evictList.nodes[0]) && evictList.nodes[1..] == old(evictList.nodes)
      ensures model == Written(old(model), key, value, old(model).items, now)
    {
      hide LruList.Valid, Indexed, Bucketed, NewestOf, ItemsOf, Written, WellShaped;
      WrittenShape(model, key, value, |model.items|, now);
      ghost var nodes := evictList.nodes;
      var ent := evictList.PushFrontExpirable(key, value, now + ttl);
      TablesKept(nodes);
      ItemsOfKept(nodes);
      ghost var others, kept := items, ItemsOf(nodes);
      label linked:
      items := items[key := ent];
      AddToBucket(ent, nodes, others);
      assert ItemsOf(nodes) == kept;
      evictList.ValidKept@linked();
      ItemsOfCons(ent, nodes);
      Commit(Written(model, key, value, model.items, now));
    }

    method Contains(key: K) returns (ok: bool)
      requires Valid()
      ensures ok == Holds(model, key)
    {
      IndexFinds(key);
      ok := key in items;
    }

    method Peek(key: K, now: int) returns (value: Option<V>)
      requires Valid()
      ensures value == Lookup(model, key, now)
    {
      IndexFinds(key);
      if key in items && now <= items[key].expiresAt {
        return Some(items[key].value);
      }
      return None;
    }

    method Remove(key: K) returns (removed: bool)
      requires Valid()
      modifies this, evictList, evictList.root, evictList.nodes, buckets
      ensures Valid() && model == LruModel.Remove(old(model), key) && removed == Holds(old(model), key)
      ensures reported == old(reported) + ReportedBy(old(model), OpRemove(key), 0, 0)
    {
      hide Valid, Dropped, Contents;
      IndexFinds(key);
      removed := key in items;
      if removed {
        RemoveElement(items[key], Position(model.items, key));
      }
    }

    method DropOldest()
      requires Valid()
      modifies this, evictList, evictList.root, evictList.nodes, buckets
      ensures Valid() && model == LruModel.RemoveOldest(old(model))
      ensures reported == old(reported) + ReportedBy(old(model), OpRemoveOldest, 0, 0)
      ensures evictList.nodes <= old(evictList.nodes)
    {
      hide Valid, Contents, Dropped;
      var ent := Back();
      if ent != null {
        DroppedLast(evictList.nodes, |model.items| - 1);
        LastReported(model.items, |model.items| - 1);
        RemoveElement(ent, |model.items| - 1);
      }
    }

    method Back() returns (ent: Entry?<K, V>)
      requires Valid()
      ensures |model.items| == |evictList.nodes| == evictList.len
      ensures ent == null <==> model.items == []
      ensures ent != null ==> ent == evictList.nodes[|model.items| - 1] && ItemOf(ent) == model.items[|model.items| - 1]
    {
      ent := evictList.Back();
    }

    method RemoveOldest() returns (oldest: Option<(K, V)>)
      requires Valid()
      modifies this, evictList, evictList.root, evictList.nodes, buckets
      ensures Valid() && model == LruModel.RemoveOldest(old(model))
      ensures reported == old(reported) + ReportedBy(old(model), OpRemoveOldest, 0, 0)
      ensures oldest == Oldest(old(model))
      ensures oldest.None? <==> old(model).items == []
      ensures oldest.Some? ==> var it := old(model).items[|old(model).items| - 1]; oldest.value == (it.key, it.value)
    {
      hide Valid, Contents;
      oldest := GetOldest();
      DropOldest();
    }

    method GetOldest() returns (oldest: Option<(K, V)>)
      requires Valid()
      ensures oldest == Oldest(model)
      ensures oldest.None? <==> model.items == []
      ensures oldest.Some? ==> var it := model.items[|model.items| - 1]; oldest.value == (it.key, it.value)
    {
      var ent := Back();
      if ent != null {
        return Some((ent.key, ent.value));
      }
      return None;
    }

    /** Purge reports everything, in no particular order, and empties all three structures. */
    method Purge()
      requires Valid()
      modifies this, evictList, evictList.root, buckets
      ensures Valid() && model == LruModel.Purge(old(model))
      ensures reported == old(reported) + ReportedBy(old(model), OpPurge, 0, 0)
    {
      hide Contents, LruList.Valid, ItemsOf, Within;
      KeysCovered();
      evictList.RootAlone();
      ReportAll(model.items);
      ClearBuckets();
      evictList.Init();
      ItemsOfNone<K, V>();
      assert Tables() && model.newest == NewestOf(buckets[..]);
      Commit(model.(items := []));
    }

    lemma KeysCovered()
      requires Valid()
      ensures Covers(model.items, items)
    {
      evictList.NodesDistinct();
      var its, nodes := model.items, evictList.nodes;
      forall i | 0 <= i < |its|
        ensures its[i].key in items && items[its[i].key].value == its[i].value && items[its[i].key] == nodes[i]
      {
        assert nodes[i] in nodes;
      }
      forall k | k in items
        ensures exists i :: 0 <= i < |its| && its[i].key == k
      {
        var i :| 0 <= i < |nodes| && nodes[i] == items[k];
        assert its[i] == ItemOf(nodes[i]);
      }
    }

    /** The first loop of Purge: the index, in an order the runtime chooses. */
    method ReportAll(ghost its: seq<Item<K, V>>)
      requires Covers(its, items)
      modifies this`items, this`reported
      ensures items == map[] && reported == old(reported) + Contents(its)
    {
      ghost var all := items;
      hide Contents, Within, Covers;
      CoveredWithin(its, all);
      while items != map[]
        invariant items.Keys <= all.Keys && forall k :: k in items ==> items[k] == all[k]
        invariant reported + Contents(Within(its, items.Keys)) == old(reported) + Contents(its)
        decreases |items|
      {
        var k :| k in items;
        var v := items[k];
        WithinOne(its, all, items.Keys, k);
        reported := reported + multiset{(k, v.value)};
        items := items - {k};
      }
      NoneWithin(its);
    }

    /** The clearing loop of Purge; the newest expiry of a bucket stays. */
    method ClearBuckets()
      modifies buckets
      ensures forall b :: 0 <= b < buckets.Length ==> buckets[b] == Bucket(map[], old(buckets[b].newestEntry))
    {
      for b := 0 to buckets.Length
        invariant forall j :: 0 <= j < b ==> buckets[j] == Bucket(map[], old(buckets[j].newestEntry))
        invariant forall j :: b <= j < buckets.Length ==> buckets[j] == old(buckets[j])
      {
        buckets[b] := Bucket(map[], buckets[b].newestEntry);
      }
    }

    /** deleteExpired up to its sleep: the bucket to clean and when to go on. */
    method BeginCleanup() returns (bucketIdx: uint8, wake: int)
      requires Valid()
      ensures bucketIdx == model.next && bucketIdx < NUM_BUCKETS && wake == model.newest[bucketIdx as int]
    {
      bucketIdx := nextCleanupBucket;
      wake := buckets[bucketIdx].newestEntry;
    }

    /** deleteExpired after its sleep. */
    method FinishCleanup(bucketIdx: uint8)
      requires Valid() && bucketIdx < NUM_BUCKETS
      modifies this, evictList, evictList.root, evictList.nodes, buckets
      ensures Valid() && model == Clean(old(model), bucketIdx)
      ensures reported == old(reported) + Contents(InBucket(old(model).items, bucketIdx))
    {
      hide Valid, Contents, Dropped, NotInBucket, InBucket;
      ghost var c := model;
      var ent, i := SomeEntry(bucketIdx);
      while ent != null
        invariant Valid() && model == c.(items := model.items)
        invariant forall j :: 0 <= j < |evictList.nodes| ==> evictList.nodes[j] in old(evictList.nodes)
        invariant NotInBucket(model.items, bucketIdx) == NotInBucket(c.items, bucketIdx)
        invariant reported + Contents(InBucket(model.items, bucketIdx)) ==
                  old(reported) + Contents(InBucket(c.items, bucketIdx))
        invariant ent == null ==> InBucket(model.items, bucketIdx) == []
        invariant ent != null ==>
                    && 0 <= i < |evictList.nodes| == |model.items|
                    && evictList.nodes[i] == ent && model.items[i].bucket == bucketIdx
        decreases |model.items|
      {
        CleanedOne(model.items, i, bucketIdx);
        DroppedIndices(evictList.nodes, i);
        DroppedIndices(model.items, i);
        RemoveElement(ent, i);
        ent, i := SomeEntry(bucketIdx);
      }
      AllCleaned(model.items, bucketIdx);
      ContentsNone<K, V>();
      Advance();
    }

    /** Some entry of bucket `b`, in an order the runtime chooses, or null when none is left. */
    method SomeEntry(b: uint8) returns (ent: Entry?<K, V>, ghost i: nat)
      requires Valid() && b < NUM_BUCKETS
      ensures ent == null ==> InBucket(model.items, b) == []
      ensures ent != null ==>
                && i < |evictList.nodes| == |model.items|
                && evictList.nodes[i] == ent && model.items[i].bucket == b
    {
      hide LruList.Valid;
      ent, i := null, 0;
      var entries := buckets[b].entries;
      assert entries == buckets[..][b as int].entries;
      if entries != map[] {
        var k :| k in entries;
        ent := entries[k];
        assert k in items && ent == items[k];
        i :| 0 <= i < |evictList.nodes| && evictList.nodes[i] == ent;
      } else {
        forall j | 0 <= j < |model.items|
          ensures model.items[j].bucket != b
        {
          var n := evictList.nodes[j];
          assert n in evictList.nodes && n.key in items;
        }
        NoneInBucket(model.items, b);
      }
    }

    method Advance()
      requires Valid()
      modifies this`nextCleanupBucket, this`model
      ensures Valid() && model == old(model).(next := NextBucket(old(model).next))
    {
      hide LruList.Valid, Indexed, Bucketed, ItemsOf, NewestOf;
      nextCleanupBucket := (nextCleanupBucket + 1) % NUM_BUCKETS;
      Commit(model.(next := nextCleanupBucket));
    }

    /** The keys of the unexpired entries, from the oldest to the newest. */
    method Keys(now: int) returns (keys: seq<K>)
      requires Valid()
      ensures keys == LruModel.Keys(model.items, now)
    {
      hide Valid, Live;
      keys := [];
      ghost var i := |model.items|;
      var ent := Back();
      while ent != null
        invariant 0 <= i <= |model.items| == |evictList.nodes|
        invariant ent == if i == 0 then null else evictList.nodes[i - 1]
        invariant keys == LruModel.Keys(model.items[i..], now)
        decreases i
      {
        i := i - 1;
        NodeItem(i);
        assert model.items[i..] == [model.items[i]] + model.items[i + 1..];
        if !(now > ent.expiresAt) {
          keys := keys + [ent.key];
        }
        assert Live(model.items[i], now) <==> now <= ent.expiresAt by { LiveMeans(model.items[i], now); }
        ent := PrevOf(ent, i);
      }
      assert model.items[0..] == model.items;
    }

    lemma NodeItem(i: nat)
      requires Valid() && i < |model.items|
      ensures |evictList.nodes| == |model.items| && model.items[i] == ItemOf(evictList.nodes[i])
    {
    }

    method PrevOf(e: Entry<K, V>, ghost i: nat) returns (p: Entry?<K, V>)
      requires Valid() && i < |evictList.nodes| && evictList.nodes[i] == e
      ensures p == if i == 0 then null else evictList.nodes[i - 1]
    {
      p := evictList.PrevEntry(e, i);
    }

    method SetSize(n: int)
      requires Valid() && n >= 0
      modifies this`size, this`model
      ensures Valid() && model == old(model).(size := n)
    {
      hide LruList.Valid, Indexed, Bucketed, ItemsOf, NewestOf;
      size := n;
      Commit(model.(size := n));
    }

    /** Resize: the `evicted` oldest entries go, one by one. */
    method Resize(size: int) returns (evicted: int)
      requires Valid()
      modifies this, evictList, evictList.root, evictList.nodes, buckets
      ensures Valid() && model == LruModel.Resize(old(model), size)
      ensures evicted == if 0 < size < |old(model).items| then |old(model).items| - size else 0
      ensures reported == old(reported) + ReportedBy(old(model), OpResize(size), 0, 0)
    {
      hide Valid, Contents;
      if size <= 0 {
        SetSize(0);
        return 0;
      }
      var n := Len();
      var diff := n - size;
      if diff < 0 {
        diff := 0;
      }
      ghost var c := model;
      assert c.items[..n] == c.items && c.items[n..] == [];
      ContentsNone<K, V>();
      for i := 0 to diff
        invariant Valid() && model == Shortened(c, n - i)
        invariant reported == old(reported) + Contents(c.items[n - i..])
        invariant evictList.nodes <= old(evictList.nodes)
      {
        OneMoreReported(c.items, n - i - 1);
        DropOldest();
      }
      SetSize(size);
      evicted := diff;
    }

    method Len() returns (n: int)
      requires Valid()
      ensures n == |model.items|
    {
      n := evictList.len;
    }
  }

  ghost function Oldest<K, V>(c: Cache<K, V>): Option<(K, V)> {
    if c.items == [] then None else Some((c.items[|c.items| - 1].key, c.items[|c.items| - 1].value))
  }

  lemma ItemsOfCons<K(0), V(0)>(e: Entry<K, V>, rest: seq<Entry<K, V>>)
    ensures ItemsOf([e] + rest) == [ItemOf(e)] + ItemsOf(rest)
  {
  }

  /** Written with the entry at `i` taken out, or with all entries kept. */
  lemma WrittenShape<K, V>(c: Cache<K, V>, k: K, v: V, i: nat, now: int)
    requires WellShaped(c) && i <= |c.items|
    ensures var rest := if i < |c.items| then Dropped(c.items, i) else c.items;
            var w := Written(c, k, v, rest, now); var b := FillBucket(c.next);
            && WellShaped(w)
            && w.items == [Item(k, v, now + c.ttl, b)] + rest
            && w.newest == c.newest[b as int := Max(c.newest[b as int], now + c.ttl)]
            && w.next == c.next && w.size == c.size && w.ttl == c.ttl
    ensures |c.newest| == NUM_BUCKETS as int && c.next < NUM_BUCKETS
  {
  }

  lemma DroppedShape<K, V>(c: Cache<K, V>, i: nat)
    requires WellShaped(c) && i < |c.items|
    ensures WellShaped(c.(items := Dropped(c.items, i)))
    ensures WellShaped(c.(items := [c.items[i]] + Dropped(c.items, i)))
  {
  }

  /** The index holds every entry's value under its key, and no other key. */
  ghost predicate Covers<K(0), V(0)>(its: seq<Item<K, V>>, items: map<K, Entry<K, V>>)
    reads items.Values
  {
    && DistinctKeys(its)
    && (forall i :: 0 <= i < |its| ==> its[i].key in items && items[its[i].key].value == its[i].value)
    && (forall k :: k in items ==> exists i :: 0 <= i < |its| && its[i].key == k)
  }

  lemma CoveredWithin<K(0), V(0)>(its: seq<Item<K, V>>, items: map<K, Entry<K, V>>)
    requires Covers(its, items)
    ensures Within(its, items.Keys) == its
  {
    WithinAll(its, items.Keys);
  }

  lemma WithinOne<K(0), V(0)>(its: seq<Item<K, V>>, items: map<K, Entry<K, V>>, ks: set<K>, k: K)
    requires Covers(its, items) && k in ks && k in items
    ensures Contents(Within(its, ks)) == Contents(Within(its, ks - {k})) + multiset{(k, items[k].value)}
  {
    var i :| 0 <= i < |its| && its[i].key == k;
    WithinWithout(its, ks, i);
    ContentsOne(its[i]);
  }

  lemma ItemsOfNone<K(0), V(0)>()
    ensures ItemsOf<K, V>([]) == []
  {
  }

  /** The entries whose key is in `ks`. */
  ghost function Within<K, V>(its: seq<Item<K, V>>, ks: set<K>): seq<Item<K, V>> {
    if its == [] then [] else (if its[0].key in ks then [its[0]] else []) + Within(its[1..], ks)
  }

  lemma {:induction false} WithinAll<K, V>(its: seq<Item<K, V>>, ks: set<K>)
    requires forall i :: 0 <= i < |its| ==> its[i].key in ks
    ensures Within(its, ks) == its
  {
    if its != [] {
      WithinAll(its[1..], ks);
      assert its == [its[0]] + its[1..];
    }
  }

  lemma {:induction false} NoneWithin<K, V>(its: seq<Item<K, V>>)
    ensures Contents(Within(its, {})) == multiset{}
  {
    if its != [] {
      NoneWithin(its[1..]);
      assert Within(its, {}) == Within(its[1..], {});
    }
  }

  /** Taking one key out takes one entry out. */
  lemma {:induction false} WithinWithout<K, V>(its: seq<Item<K, V>>, ks: set<K>, i: nat)
    requires i < |its| && its[i].key in ks
    requires forall j :: 0 <= j < |its| && j != i ==> its[j].key != its[i].key
    ensures Contents(Within(its, ks)) == Contents(Within(its, ks - {its[i].key})) + Contents([its[i]])
  {
    var k := its[i].key;
    var head := if its[0].key in ks then [its[0]] else [];
    ContentsSplit(head, Within(its[1..], ks));
    if i == 0 {
      WithinOthers(its[1..], ks, k);
      assert Within(its, ks - {k}) == Within(its[1..], ks);
    } else {
      WithinWithout(its[1..], ks, i - 1);
      ContentsSplit(head, Within(its[1..], ks - {k}));
      assert Within(its, ks - {k}) == head + Within(its[1..], ks - {k});
    }
  }

  lemma {:induction false} WithinOthers<K, V>(its: seq<Item<K, V>>, ks: set<K>, k: K)
    requires forall j :: 0 <= j < |its| ==> its[j].key != k
    ensures Within(its, ks - {k}) == Within(its, ks)
  {
    if its != [] {
      WithinOthers(its[1..], ks, k);
    }
  }

  lemma {:induction false} NoneInBucket<K, V>(its: seq<Item<K, V>>, b: uint8)
    requires forall i :: 0 <= i < |its| ==> its[i].bucket != b
    ensures InBucket(its, b) == []
  {
    if its != [] {
      NoneInBucket(its[1..], b);
    }
  }

  lemma {:induction false} AllCleaned<K, V>(its: seq<Item<K, V>>, b: uint8)
    requires InBucket(its, b) == []
    ensures NotInBucket(its, b) == its
  {
    if its != [] {
      AllCleaned(its[1..], b);
      assert its == [its[0]] + its[1..];
    }
  }

  /** Removing an entry of the bucket leaves the others and takes one from the bucket. */
  lemma CleanedOne<K, V>(its: seq<Item<K, V>>, i: nat, b: uint8)
    requires i < |its| && its[i].bucket == b
    ensures NotInBucket(Dropped(its, i), b) == NotInBucket(its, b)
    ensures Contents(InBucket(its, b)) == Contents(InBucket(Dropped(its, i), b)) + Contents([its[i]])
  {
    hide Contents;
    NotInDropped(its, i, b);
    ContentsByBucket(its, b);
    ContentsByBucket(Dropped(its, i), b);
    ContentsDropped(its, i);
    Cancel(Contents(NotInBucket(its, b)), Contents(InBucket(its, b)),
           Contents(InBucket(Dropped(its, i), b)) + Contents([its[i]]));
  }

  lemma DroppedIndices<T>(s: seq<T>, i: nat)
    requires i < |s|
    ensures |Dropped(s, i)| == |s| - 1
    ensures forall j :: 0 <= j < |s| - 1 ==> Dropped(s, i)[j] == s[if j < i then j else j + 1]
  {
  }

  lemma Cancel<T>(a: multiset<T>, b: multiset<T>, c: multiset<T>)
    requires a + b == a + c
    ensures b == c
  {
    assert b == (a + b) - a;
    assert c == (a + c) - a;
  }

  lemma {:induction false} NotInDropped<K, V>(its: seq<Item<K, V>>, i: nat, b: uint8)
    requires i < |its| && its[i].bucket == b
    ensures NotInBucket(Dropped(its, i), b) == NotInBucket(its, b)
  {
    if i == 0 {
      assert Dropped(its, 0) == its[1..];
    } else {
      DroppedTail(its, i);
      NotInDropped(its[1..], i - 1, b);
    }
  }

  lemma LiveMeans<K, V>(it: Item<K, V>, now: int)
    ensures Live(it, now) <==> now <= it.expiresAt
  {
  }

  lemma OneMoreReported<K, V>(its: seq<Item<K, V>>, n: nat)
    requires n < |its|
    ensures var front := its[..n + 1];
            && front[..n] == its[..n]
            && Contents(its[n..]) == Contents(front[n..]) + Contents(its[n + 1..])
  {
    hide Contents;
    assert its[n..] == its[..n + 1][n..] + its[n + 1..];
    ContentsSplit(its[..n + 1][n..], its[n + 1..]);
  }

  lemma LastReported<K, V>(its: seq<Item<K, V>>, n: nat)
    requires |its| == n + 1
    ensures Dropped(its, n) == its[..n] && its[n..] == [its[n]]
  {
    DroppedLast(its, n);
  }

  lemma DroppedLast<T>(s: seq<T>, n: nat)
    requires |s| == n + 1
    ensures Dropped(s, n) == s[..n]
  {
  }

  lemma TablesReordered<K(0), V(0)>(nodes: seq<Entry<K, V>>, i: nat, items: map<K, Entry<K, V>>, bs: seq<Bucket<K, V>>)
    requires i < |nodes|
    requires Indexed(nodes, items) && Bucketed(nodes, items, bs)
    ensures Indexed([nodes[i]] + Dropped(nodes, i), items) && Bucketed([nodes[i]] + Dropped(nodes, i), items, bs)
  {
    DroppedFrom(nodes, i);
    var ns := [nodes[i]] + Dropped(nodes, i);
    assert forall n :: n in ns <==> n in nodes;
  }
}
