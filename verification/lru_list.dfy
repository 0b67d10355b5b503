/** The linked list of gorm/internal/lru/lru.go: a ring through a sentinel, the most
    recently used entry after it and the least recently used before it. */
module LruRing {
  import opened LruModel

  class Entry<K(0), V(0)> {
    var next: Entry?<K, V>
    var prev: Entry?<K, V>
    var list: LruList?<K, V>
    var key: K
    var value: V
    var expiresAt: int
    var expireBucket: uint8

    constructor (key: K, value: V, expiresAt: int)
      ensures this.key == key && this.value == value && this.expiresAt == expiresAt && list == null
    {
      next, prev, list := null, null, null;
      this.key, this.value, this.expiresAt, this.expireBucket := key, value, expiresAt, 0;
    }

    constructor Sentinel()
      ensures list == null
    {
      next, prev, list := null, null, null;
      expiresAt, expireBucket := 0, 0;
      key, value := *, *;
    }

    twostate predicate SameLinks()
      reads this
    {
      next == old(next) && prev == old(prev) && list == old(list)
    }

    /** The fields that linking leaves alone. */
    twostate predicate SamePayload()
      reads this
    {
      && key == old(key) && value == old(value)
      && expiresAt == old(expiresAt) && expireBucket == old(expireBucket)
    }
  }

  /** A cyclic walk: it ends where it starts and meets nothing else twice. */
  ghost predicate Cycle<T>(ring: seq<T>) {
    && |ring| >= 2 && ring[0] == ring[|ring| - 1]
    && forall i, j :: 0 <= i < j < |ring| - 1 ==> ring[i] != ring[j]
  }

  /** Every entry of the walk points forward to the next and back to the one before. */
  ghost predicate Linked<K(0), V(0)>(ring: seq<Entry<K, V>>)
    reads ring
  {
    && (forall i {:trigger ring[i].next} :: 0 <= i < |ring| - 1 ==> ring[i].next == ring[i + 1])
    && (forall i {:trigger ring[i].prev} :: 0 < i < |ring| ==> ring[i].prev == ring[i - 1])
  }

  function Inserted<T>(s: seq<T>, i: nat, x: T): seq<T>
    requires i <= |s|
  {
    s[..i] + [x] + s[i..]
  }

  /** The sentinel, the nodes from the most to the least recent, and the sentinel again. */
  function Ring<T>(root: T, nodes: seq<T>): (r: seq<T>)
    ensures |r| == |nodes| + 2
  {
    [root] + nodes + [root]
  }

  lemma CycleDropped<T>(ring: seq<T>, i: nat)
    requires Cycle(ring) && 0 < i < |ring| - 1
    ensures Cycle(Dropped(ring, i)) && ring[i] !in Dropped(ring, i)
    ensures forall x :: x in Dropped(ring, i) ==> x in ring
  {
  }

  lemma CycleInserted<T>(ring: seq<T>, i: nat, x: T)
    requires Cycle(ring) && 0 < i < |ring| && x !in ring
    ensures Cycle(Inserted(ring, i, x))
  {
  }

  /** Positions in the walk are positions among the nodes, shifted past the sentinel. */
  lemma RingDropped<T>(root: T, s: seq<T>, i: nat)
    requires i < |s|
    ensures Ring(root, Dropped(s, i)) == Dropped(Ring(root, s), i + 1)
  {
  }

  lemma RingHas<T>(root: T, s: seq<T>)
    ensures forall x :: x in Ring(root, s) <==> x == root || x in s
  {
  }

  lemma RingInserted<T>(root: T, s: seq<T>, i: nat, x: T)
    requires i <= |s|
    ensures Ring(root, Inserted(s, i, x)) == Inserted(Ring(root, s), i + 1, x)
  {
  }

  /** Takes `e` out of the ring; `e` itself keeps its pointers. */
  method Unlink<K(0), V(0)>(e: Entry<K, V>, ghost ring: seq<Entry<K, V>>, ghost i: nat)
    requires Cycle(ring) && Linked(ring) && 0 < i < |ring| - 1 && ring[i] == e
    modifies ring
    ensures Linked(Dropped(ring, i))
    ensures forall n :: n in ring ==> n.SamePayload() && n.list == old(n.list)
    ensures e.next == old(e.next) && e.prev == old(e.prev)
  {
    e.prev.next := e.next;
    e.next.prev := e.prev;
  }

  /** Puts `e` into the ring after `at`. */
  method Link<K(0), V(0)>(e: Entry<K, V>, at: Entry<K, V>, ghost ring: seq<Entry<K, V>>, ghost i: nat)
    requires Cycle(ring) && Linked(ring) && 0 < i < |ring| && ring[i - 1] == at && e !in ring
    modifies ring, e
    ensures Linked(Inserted(ring, i, e))
    ensures forall n :: n in ring || n == e ==> n.SamePayload() && n.list == old(n.list)
  {
    e.prev := at;
    e.next := at.next;
    e.prev.next := e;
    e.next.prev := e;
  }

  /** What a node and its sentinel must satisfy together. */
  ghost predicate Chain<K(0), V(0)>(root: Entry<K, V>, nodes: seq<Entry<K, V>>)
    reads root, nodes
  {
    Cycle(Ring(root, nodes)) && Linked(Ring(root, nodes))
  }

  lemma RingReads<T>(root: T, nodes: seq<T>)
    ensures forall x :: x in Ring(root, nodes) ==> x == root || x in nodes
  {
  }

  method UnlinkNode<K(0), V(0)>(root: Entry<K, V>, e: Entry<K, V>, ghost nodes: seq<Entry<K, V>>, ghost i: nat)
    requires Chain(root, nodes) && i < |nodes| && nodes[i] == e
    modifies root, nodes
    ensures Chain(root, Dropped(nodes, i)) && e != root && e !in Dropped(nodes, i)
    ensures forall n :: n in nodes ==> n.SamePayload() && n.list == old(n.list)
    ensures root.list == old(root.list)
  {
    RingReads(root, nodes);
    RingAt(root, nodes, i);
    RingDropped(root, nodes, i);
    CycleDropped(Ring(root, nodes), i + 1);
    ghost var ring := Ring(root, nodes);
    hide Linked, Cycle, Dropped, Ring;
    Unlink(e, ring, i + 1);
  }

  method LinkFirst<K(0), V(0)>(root: Entry<K, V>, e: Entry<K, V>, ghost nodes: seq<Entry<K, V>>)
    requires Chain(root, nodes) && e != root && e !in nodes
    modifies root, nodes, e
    ensures Chain(root, [e] + nodes)
    ensures forall n :: n in nodes || n == e ==> n.SamePayload() && n.list == old(n.list)
    ensures root.list == old(root.list)
  {
    RingReads(root, nodes);
    RingHas(root, nodes);
    RingInserted(root, nodes, 0, e);
    CycleInserted(Ring(root, nodes), 1, e);
    assert Inserted(nodes, 0, e) == [e] + nodes;
    assert Ring(root, nodes)[0] == root;
    ghost var ring := Ring(root, nodes);
    hide Linked, Cycle, Inserted, Ring;
    Link(e, root, ring, 1);
  }

  lemma RingAt<T>(root: T, nodes: seq<T>, i: nat)
    requires i < |nodes|
    ensures Ring(root, nodes)[i + 1] == nodes[i]
    ensures forall x :: x in nodes ==> x in Ring(root, nodes)
    ensures root in Ring(root, nodes)
  {
  }

  class LruList<K(0), V(0)> {
    const root: Entry<K, V>
    var len: int
    ghost var nodes: seq<Entry<K, V>>

    /** The ring is linked both ways, no node occurs twice, `len` counts the nodes, and
        exactly they know this list. */
    ghost predicate Valid()
      reads this, root, nodes
    {
      && len == |nodes|
      && root.list == null
      && (forall n :: n in nodes ==> n.list == this)
      && Chain(root, nodes)
    }

    constructor ()
      ensures Valid() && nodes == [] && fresh(root)
    {
      var r := new Entry<K, V>.Sentinel();
      root, len, nodes := r, 0, [];
      new;
      root.next, root.prev := root, root;
    }

    /** Init drops every node, without touching the nodes. */
    method Init()
      requires root.list == null
      modifies this, root
      ensures Valid() && nodes == []
    {
      root.next := root;
      root.prev := root;
      len := 0;
      nodes := [];
    }

    method Length() returns (n: int)
      ensures n == len
    {
      n := len;
    }

    method Back() returns (e: Entry?<K, V>)
      requires Valid()
      ensures e == if nodes == [] then null else nodes[|nodes| - 1]
    {
      if len == 0 {
        return null;
      }
      e := root.prev;
      ghost var ring := Ring(root, nodes);
      assert ring[|nodes| + 1].prev == ring[|nodes|];
    }

    /** PrevEntry of a node of this list: the next more recent one. */
    method PrevEntry(e: Entry<K, V>, ghost i: nat) returns (p: Entry?<K, V>)
      requires Valid() && i < |nodes| && nodes[i] == e
      ensures p == if i == 0 then null else nodes[i - 1]
    {
      ghost var ring := Ring(root, nodes);
      p := e.prev;
      assert ring[i + 1].prev == ring[i];
      assert i > 0 ==> ring[i] != ring[0];
      assert e in nodes;
      if e.list == null || p == root {
        p := null;
      }
    }

    method PushFrontExpirable(k: K, v: V, expiresAt: int) returns (e: Entry<K, V>)
      requires Valid()
      modifies this, root, nodes
      ensures Valid() && fresh(e) && nodes == [e] + old(nodes)
      ensures e.key == k && e.value == v && e.expiresAt == expiresAt
      ensures forall n :: n in old(nodes) ==> n.SamePayload()
    {
      hide Chain;
      e := new Entry<K, V>(k, v, expiresAt);
      e.list := this;
      len := len + 1;
      LinkFirst(root, e, nodes);
      nodes := [e] + nodes;
    }

    method Remove(e: Entry<K, V>, ghost i: nat)
      requires Valid() && i < |nodes| && nodes[i] == e
      modifies this, root, nodes
      ensures Valid() && nodes == Dropped(old(nodes), i) && e !in nodes
      ensures forall n :: n in old(nodes) ==> n.SamePayload()
    {
      hide Chain, Dropped;
      ghost var before := nodes;
      UnlinkNode(root, e, before, i);
      DroppedFrom(before, i);
      nodes := Dropped(before, i);
      e.next := null;
      e.prev := null;
      e.list := null;
      len := len - 1;
    }

    /** move and MoveToFront: a node that is not first already goes after the sentinel. */
    method MoveToFront(e: Entry<K, V>, ghost i: nat)
      requires Valid() && i < |nodes| && nodes[i] == e
      modifies this, root, nodes
      ensures Valid() && nodes == [e] + Dropped(old(nodes), i)
      ensures forall n :: n in old(nodes) ==> n.SamePayload()
    {
      FirstNode(i);
      assert e in nodes;
      if e.list != this || root.next == e {
        assert nodes == [e] + Dropped(nodes, 0);
        return;
      }
      hide Chain, Dropped;
      ghost var before := nodes;
      UnlinkNode(root, e, before, i);
      DroppedFrom(before, i);
      LinkFirst(root, e, Dropped(before, i));
      nodes := [e] + Dropped(before, i);
    }

    lemma NodeOnce(i: nat)
      requires Valid() && i < |nodes|
      ensures nodes[i] !in Dropped(nodes, i)
    {
      RingDropped(root, nodes, i);
      CycleDropped(Ring(root, nodes), i + 1);
      RingAt(root, nodes, i);
      RingHas(root, Dropped(nodes, i));
    }

    lemma RootAlone()
      requires Valid()
      ensures root.list == null
    {
    }

    lemma NodesDistinct()
      requires Valid()
      ensures forall i, j :: 0 <= i < j < |nodes| ==> nodes[i] != nodes[j]
    {
      var ring := Ring(root, nodes);
      forall i, j | 0 <= i < j < |nodes|
        ensures nodes[i] != nodes[j]
      {
        assert ring[i + 1] != ring[j + 1];
      }
    }

    /** Changing what entries carry leaves the ring alone. */
    twostate lemma ValidKept()
      requires nodes == old(nodes) && len == old(len)
      requires root.SameLinks() && forall n :: n in nodes ==> n.SameLinks()
      ensures old(Valid()) ==> Valid()
    {
      if old(Valid()) {
        RingReads(root, nodes);
        assert Linked(Ring(root, nodes)) by {
          var ring := Ring(root, nodes);
          assert forall x :: x in ring ==> x.SameLinks();
          assert forall i :: 0 <= i < |ring| ==> ring[i] in ring;
        }
      }
    }

    lemma FirstNode(i: nat)
      requires Valid() && i < |nodes|
      ensures root.next == nodes[i] <==> i == 0
    {
      var ring := Ring(root, nodes);
      assert ring[0].next == ring[1];
      assert i > 0 ==> ring[1] != ring[i + 1];
    }
  }

  lemma DroppedFrom<T>(s: seq<T>, i: nat)
    requires i < |s|
    ensures |Dropped(s, i)| == |s| - 1
    ensures forall x :: x in Dropped(s, i) ==> x in s
    ensures forall x :: x in s ==> x == s[i] || x in Dropped(s, i)
  {
    assert s == s[..i] + [s[i]] + s[i + 1..];
  }
}
