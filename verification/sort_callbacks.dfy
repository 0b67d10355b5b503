/** sortCallbacks of gorm/callbacks.go: the order in which a processor's callbacks run. Each
    may ask to run before one other and after one other; the recursive placement rewrites
    these requests as it goes, and they stay rewritten for the next sort. The wildcard "*"
    is not part of this model. */
module SortCallbacks {

  type Name = string

  /** The requests of the callbacks by name ("" for none), and the names placed so far. */
  datatype State = State(before: map<Name, Name>, after: map<Name, Name>, sorted: seq<Name>)

  /** Conflict is the error the source returns; OutOfFuel says that the recursion was cut off. */
  datatype Outcome = Done(st: State) | Conflict | OutOfFuel

  ghost predicate Fits(st: State) { st.before.Keys == st.after.Keys }

  // ---------------------------------------------------------------- positions

  ghost predicate Distinct(s: seq<Name>) { forall i, j :: 0 <= i < j < |s| ==> s[i] != s[j] }

  /** The last position, or -1. */
  function RIndex(s: seq<Name>, x: Name): (r: int)
    ensures -1 <= r < |s|
    ensures r == -1 <==> x !in s
    ensures r != -1 ==> s[r] == x && forall k :: r < k < |s| ==> s[k] != x
  {
    if s == [] then -1 else if s[|s| - 1] == x then |s| - 1 else RIndex(s[..|s| - 1], x)
  }

  /** getRIndex. */
  method GetRIndex(strs: seq<Name>, str: Name) returns (r: int)
    ensures r == RIndex(strs, str)
  {
    var i := |strs| - 1;
    while i >= 0
      invariant -1 <= i < |strs|
      invariant forall k :: i < k < |strs| ==> strs[k] != str
    {
      if strs[i] == str {
        return i;
      }
      i := i - 1;
    }
    return -1;
  }

  ghost predicate Precedes(s: seq<Name>, x: Name, y: Name) {
    exists j :: 0 <= j < |s| && s[j] == y && x in s[..j]
  }

  // ---------------------------------------------------------------- one callback

  function InsertAt(s: seq<Name>, at: nat, x: Name): seq<Name>
    requires at <= |s|
  {
    s[..at] + [x] + s[at..]
  }

  /** The request to run before another callback. */
  function PlaceBefore(st: State, c: Name): (r: Outcome)
    requires Fits(st) && c in st.before
    ensures r.Done? ==> Fits(r.st) && r.st.before == st.before && r.st.after.Keys == st.after.Keys
    ensures r != OutOfFuel
  {
    var b := st.before[c];
    if b == "" then Done(st)
    else if b in st.sorted then
      var at := RIndex(st.sorted, b);
      if c !in st.sorted then Done(st.(sorted := InsertAt(st.sorted, at, c)))
      else if RIndex(st.sorted, c) > at then Conflict
      else Done(st)
    else if b in st.before then Done(st.(after := st.after[b := c]))
    else Done(st)
  }

  function Appended(st: State, c: Name): State {
    if c in st.sorted then st else st.(sorted := st.sorted + [c])
  }

  /** sortCallback. */
  function SortOne(st: State, c: Name, fuel: nat): (r: Outcome)
    requires Fits(st) && c in st.before
    ensures r.Done? ==> Fits(r.st) && r.st.before.Keys == st.before.Keys
    decreases fuel, 1
  {
    if fuel == 0 then OutOfFuel
    else
      var placed := PlaceBefore(st, c);
      if !placed.Done? then placed
      else
        var followed := PlaceAfter(placed.st, c, fuel - 1);
        if followed.Done? then Done(Appended(followed.st, c)) else followed
  }

  /** The request to run after another callback, which is placed first if need be. */
  function PlaceAfter(st: State, c: Name, fuel: nat): (r: Outcome)
    requires Fits(st) && c in st.before
    ensures r.Done? ==> Fits(r.st) && r.st.before.Keys == st.before.Keys
    decreases fuel, 2
  {
    var a := st.after[c];
    if a == "" then Done(st)
    else if a in st.sorted then
      if c !in st.sorted then Done(st.(sorted := st.sorted + [c]))
      else if RIndex(st.sorted, c) < RIndex(st.sorted, a) then Conflict
      else Done(st)
    else if a in st.before then
      var first := SortOne(if st.before[a] == "" then st.(before := st.before[a := c]) else st, a, fuel);
      if first.Done? then SortOne(first.st, c, fuel) else first
    else Done(st)
  }

  function SortAll(st: State, names: seq<Name>, fuel: nat): (r: Outcome)
    requires Fits(st) && forall c :: c in names ==> c in st.before
    ensures r.Done? ==> Fits(r.st) && r.st.before.Keys == st.before.Keys
  {
    if names == [] then Done(st)
    else
      var init := SortAll(st, names[..|names| - 1], fuel);
      if init.Done? then SortOne(init.st, names[|names| - 1], fuel) else init
  }

  // ---------------------------------------------------------------- every name once

  ghost predicate Placed(st: State) {
    Distinct(st.sorted) && forall c :: c in st.sorted ==> c in st.before
  }

  ghost predicate Keeps(st: State, r: State) {
    && Placed(r)
    && r.before.Keys == st.before.Keys
    && (forall x :: x in st.sorted ==> x in r.sorted)
  }

  lemma {:induction false} SortOneKeeps(st: State, c: Name, fuel: nat)
    requires Fits(st) && c in st.before && Placed(st)
    ensures var r := SortOne(st, c, fuel); r.Done? ==> Keeps(st, r.st) && c in r.st.sorted
    decreases fuel, 1
  {
    hide PlaceBefore, PlaceAfter, Placed;
    if fuel > 0 {
      var placed := PlaceBefore(st, c);
      if placed.Done? {
        PlaceBeforeKeeps(st, c);
        PlaceAfterKeeps(placed.st, c, fuel - 1);
        var followed := PlaceAfter(placed.st, c, fuel - 1);
        if followed.Done? && c !in followed.st.sorted {
          AppendKeeps(followed.st, c);
        }
      }
    }
  }

  lemma AppendKeeps(st: State, c: Name)
    requires Placed(st) && c in st.before && c !in st.sorted
    ensures Placed(st.(sorted := st.sorted + [c]))
  {
  }

  lemma PlaceBeforeKeeps(st: State, c: Name)
    requires Fits(st) && c in st.before && Placed(st)
    ensures var r := PlaceBefore(st, c); r.Done? ==> Keeps(st, r.st)
  {
    var b := st.before[c];
    if b != "" && b in st.sorted && c !in st.sorted {
      InsertKeeps(st, RIndex(st.sorted, b), c);
    }
  }

  lemma InsertKeeps(st: State, at: nat, c: Name)
    requires Placed(st) && c in st.before && c !in st.sorted && at <= |st.sorted|
    ensures Keeps(st, st.(sorted := InsertAt(st.sorted, at, c)))
  {
    hide Distinct, InsertAt;
    InsertHas(st.sorted, at, c);
  }

  lemma {:induction false} PlaceAfterKeeps(st: State, c: Name, fuel: nat)
    requires Fits(st) && c in st.before && Placed(st)
    ensures var r := PlaceAfter(st, c, fuel); r.Done? ==> Keeps(st, r.st)
    decreases fuel, 2
  {
    var a := st.after[c];
    if a != "" && a !in st.sorted && a in st.before {
      var asked := if st.before[a] == "" then st.(before := st.before[a := c]) else st;
      SortOneKeeps(asked, a, fuel);
      var first := SortOne(asked, a, fuel);
      if first.Done? {
        SortOneKeeps(first.st, c, fuel);
      }
    }
  }

  lemma NoneTwice()
    ensures Distinct([])
  {
  }

  /** Whatever the requests: when the sort succeeds, every callback is placed exactly once. */
  lemma {:induction false} EveryCallbackOnce(st: State, names: seq<Name>, fuel: nat)
    requires Fits(st) && st.sorted == [] && forall c :: c in names ==> c in st.before
    ensures var r := SortAll(st, names, fuel);
            r.Done? ==> Placed(r.st) && forall c :: c in names ==> c in r.st.sorted
  {
    hide SortOne, Distinct;
    assert Distinct(st.sorted) by { NoneTwice(); }
    if names != [] {
      var init := names[..|names| - 1];
      EveryCallbackOnce(st, init, fuel);
      var r := SortAll(st, init, fuel);
      if r.Done? {
        SortOneKeeps(r.st, names[|names| - 1], fuel);
        assert names == init + [names[|names| - 1]];
      }
    }
  }

  // ---------------------------------------------------------------- requests to run after

  /** Requests to run after others only. A sort mirrors them as requests to run before, and the
      next sort finds those too. */
  ghost predicate AfterOnly(st: State) {
    && Fits(st)
    && "" !in st.before
    && (forall c :: c in st.before && st.before[c] in st.before ==> st.after[st.before[c]] == c)
  }

  ghost predicate AfterHonoured(st: State, c: Name)
    requires Fits(st) && c in st.before
  {
    st.after[c] in st.before ==> Precedes(st.sorted, st.after[c], c)
  }

  ghost predicate AfterSorted(st: State) {
    && AfterOnly(st)
    && Placed(st)
    && (forall c :: c in st.sorted ==> AfterHonoured(st, c))
  }

  lemma PrecedesIndex(s: seq<Name>, x: Name, y: Name)
    requires Distinct(s) && Precedes(s, x, y)
    ensures x in s && y in s && RIndex(s, x) < RIndex(s, y)
  {
    var j :| 0 <= j < |s| && s[j] == y && x in s[..j];
    var i :| 0 <= i < j && s[i] == x;
    assert RIndex(s, y) == j;
    assert RIndex(s, x) == i;
  }

  lemma PrecedesAppend(s: seq<Name>, c: Name)
    ensures forall x, y :: Precedes(s, x, y) ==> Precedes(s + [c], x, y)
    ensures forall x :: x in s ==> Precedes(s + [c], x, c)
  {
    var t := s + [c];
    forall x, y | Precedes(s, x, y) ensures Precedes(t, x, y) {
      var j :| 0 <= j < |s| && s[j] == y && x in s[..j];
      assert t[..j] == s[..j];
    }
    assert t[..|s|] == s && t[|s|] == c;
  }

  /** The mirrored request is always met already. */
  lemma MirrorIsIdle(st: State, c: Name)
    requires AfterSorted(st) && c in st.before
    ensures PlaceBefore(st, c) == Done(st)
  {
    var b := st.before[c];
    if b in st.sorted {
      assert AfterHonoured(st, b);
      PrecedesIndex(st.sorted, c, b);
    } else if b in st.before {
      assert st.after[b := c] == st.after;
    }
  }

  lemma AppendAfter(st: State, c: Name)
    requires AfterSorted(st) && c in st.before && c !in st.sorted
    requires st.after[c] in st.before ==> st.after[c] in st.sorted
    ensures AfterSorted(st.(sorted := st.sorted + [c]))
  {
    hide Precedes;
    PrecedesAppend(st.sorted, c);
    var r := st.(sorted := st.sorted + [c]);
    forall d | d in r.sorted ensures AfterHonoured(r, d) {
      if d in st.sorted {
        assert AfterHonoured(st, d);
      }
    }
  }

  ghost predicate Extends(st: State, r: State) {
    AfterSorted(r) && r.after == st.after && r.before.Keys == st.before.Keys && st.sorted <= r.sorted
  }

  lemma {:induction false} SortOneAfter(st: State, c: Name, fuel: nat)
    requires AfterSorted(st) && c in st.before
    ensures var r := SortOne(st, c, fuel); r != Conflict && (r.Done? ==> Extends(st, r.st) && c in r.st.sorted)
    decreases fuel, 1
  {
    hide AfterSorted, PlaceBefore, PlaceAfter, Fits;
    if fuel > 0 {
      assert Fits(st) by { SortedFits(st); }
      MirrorIsIdle(st, c);
      PlaceAfterSorts(st, c, fuel - 1);
      var followed := PlaceAfter(st, c, fuel - 1);
      if followed.Done? && c !in followed.st.sorted {
        AppendAfter(followed.st, c);
      }
    }
  }

  lemma SortedFits(st: State)
    requires AfterSorted(st)
    ensures Fits(st)
  {
  }

  lemma {:induction false} PlaceAfterSorts(st: State, c: Name, fuel: nat)
    requires AfterSorted(st) && c in st.before
    ensures var r := PlaceAfter(st, c, fuel);
            && r != Conflict
            && (r.Done? ==> Extends(st, r.st))
            && (r.Done? && c !in r.st.sorted ==> st.after[c] !in st.before)
    decreases fuel, 2
  {
    hide SortOne, Precedes, RIndex;
    var a := st.after[c];
    if a in st.sorted {
      if c in st.sorted {
        assert AfterHonoured(st, c);
        PrecedesIndex(st.sorted, a, c);
      } else {
        AppendAfter(st, c);
      }
    } else if a in st.before {
      var asked := if st.before[a] == "" then st.(before := st.before[a := c]) else st;
      AskedSorted(st, asked);
      SortOneAfter(asked, a, fuel);
      var first := SortOne(asked, a, fuel);
      if first.Done? {
        SortOneAfter(first.st, c, fuel);
      }
    }
  }

  lemma AskedSorted(st: State, asked: State)
    requires AfterSorted(st) && AfterOnly(asked) && asked.after == st.after && asked.sorted == st.sorted
    requires asked.before.Keys == st.before.Keys
    ensures AfterSorted(asked)
  {
    forall c | c in asked.sorted ensures AfterHonoured(asked, c) {
      assert AfterHonoured(st, c);
    }
  }

  lemma {:induction false} SortAllAfter(st: State, names: seq<Name>, fuel: nat)
    requires AfterSorted(st) && forall c :: c in names ==> c in st.before
    ensures var r := SortAll(st, names, fuel);
            r != Conflict && (r.Done? ==> Extends(st, r.st) && forall c :: c in names ==> c in r.st.sorted)
  {
    hide AfterSorted, SortOne;
    assert Fits(st) by { SortedFits(st); }
    if names != [] {
      var init := names[..|names| - 1];
      SortAllAfter(st, init, fuel);
      var r := SortAll(st, init, fuel);
      if r.Done? {
        SortOneAfter(r.st, names[|names| - 1], fuel);
        assert names == init + [names[|names| - 1]];
      }
    } else {
      assert st.sorted <= st.sorted;
    }
  }

  // ---------------------------------------------------------------- termination

  /** Every request to run after another leads to a lower rank. */
  ghost predicate Ranked(st: State, rank: map<Name, nat>) {
    && Fits(st)
    && (forall c :: c in st.before ==> c in rank)
    && (forall c :: c in st.before && st.after[c] in st.before ==> rank[st.after[c]] < rank[c])
  }

  /** Enough fuel for a callback: more than its rank, or one if what it follows is placed. */
  ghost predicate Enough(st: State, c: Name, fuel: nat, rank: map<Name, nat>)
    requires Ranked(st, rank) && c in st.before
  {
    fuel > rank[c] || (fuel > 0 && (st.after[c] in st.before ==> st.after[c] in st.sorted))
  }

  lemma {:induction false} SortOneEnds(st: State, c: Name, fuel: nat, rank: map<Name, nat>)
    requires AfterSorted(st) && c in st.before && Ranked(st, rank) && Enough(st, c, fuel, rank)
    ensures SortOne(st, c, fuel) != OutOfFuel
    decreases fuel, 1
  {
    hide AfterSorted, PlaceBefore, PlaceAfter;
    MirrorIsIdle(st, c);
    PlaceAfterEnds(st, c, fuel - 1, rank);
  }

  lemma {:induction false} PlaceAfterEnds(st: State, c: Name, fuel: nat, rank: map<Name, nat>)
    requires AfterSorted(st) && c in st.before && Ranked(st, rank) && Enough(st, c, fuel + 1, rank)
    ensures PlaceAfter(st, c, fuel) != OutOfFuel
    decreases fuel, 2
  {
    hide SortOne, Placed, AfterHonoured, RIndex;
    var a := st.after[c];
    if a in st.before && a !in st.sorted {
      var asked := if st.before[a] == "" then st.(before := st.before[a := c]) else st;
      AskedSorted(st, asked);
      SortOneEnds(asked, a, fuel, rank);
      SortOneAfter(asked, a, fuel);
      var first := SortOne(asked, a, fuel);
      if first.Done? {
        SortOneEnds(first.st, c, fuel, rank);
      }
    }
  }

  lemma {:induction false} SortAllEnds(st: State, names: seq<Name>, fuel: nat, rank: map<Name, nat>)
    requires AfterSorted(st) && (forall c :: c in names ==> c in st.before)
    requires Ranked(st, rank) && forall c :: c in names ==> fuel > rank[c]
    ensures SortAll(st, names, fuel) != OutOfFuel
  {
    hide AfterSorted, SortOne;
    if names != [] {
      var init := names[..|names| - 1];
      SortAllEnds(st, init, fuel, rank);
      SortAllAfter(st, init, fuel);
      var r := SortAll(st, init, fuel);
      if r.Done? {
        SortOneEnds(r.st, names[|names| - 1], fuel, rank);
      }
    }
  }

  /** With requests to run after others only, the sort succeeds exactly when the requests have
      no cycle, it never reports a conflict, ... */
  lemma AfterOnlySucceedsIffAcyclic(st: State, names: seq<Name>)
    requires AfterOnly(st) && st.sorted == [] && forall c :: c in names <==> c in st.before
    ensures forall fuel :: SortAll(st, names, fuel) != Conflict
    ensures (exists fuel: nat :: SortAll(st, names, fuel).Done?) <==> (exists rank :: Ranked(st, rank))
  {
    hide SortAll;
    assert AfterSorted(st);
    forall fuel ensures SortAll(st, names, fuel) != Conflict {
      SortAllAfter(st, names, fuel);
    }
    if fuel: nat :| SortAll(st, names, fuel).Done? {
      SortAllAfter(st, names, fuel);
      var rank := PositionsRank(SortAll(st, names, fuel).st, names);
      assert Ranked(st, rank);
    }
    if rank :| Ranked(st, rank) {
      var fuel := Above(rank, names);
      SortAllEnds(st, names, fuel, rank);
      assert SortAll(st, names, fuel).Done?;
    }
  }

  lemma PositionsRank(st: State, names: seq<Name>) returns (rank: map<Name, nat>)
    requires AfterSorted(st) && forall c :: c in st.before ==> c in st.sorted
    ensures Ranked(st, rank)
  {
    hide Precedes;
    rank := map c | c in st.before :: RIndex(st.sorted, c);
    forall c | c in st.before && st.after[c] in st.before ensures rank[st.after[c]] < rank[c] {
      assert AfterHonoured(st, c);
      PrecedesIndex(st.sorted, st.after[c], c);
    }
  }

  lemma {:induction false} Above(rank: map<Name, nat>, names: seq<Name>) returns (fuel: nat)
    requires forall c :: c in names ==> c in rank
    ensures forall c :: c in names ==> fuel > rank[c]
  {
    if names == [] {
      fuel := 0;
    } else {
      var last := names[|names| - 1];
      fuel := Above(rank, names[..|names| - 1]);
      assert forall c :: c in names ==> c in names[..|names| - 1] || c == last;
      if fuel <= rank[last] {
        fuel := rank[last] + 1;
      }
    }
  }

  /** ... and then all requests are honoured, each callback is placed once, and the rewritten
      requests are again of this kind. */
  lemma AfterOnlyHonoured(st: State, names: seq<Name>, fuel: nat)
    requires AfterOnly(st) && st.sorted == [] && (forall c :: c in names <==> c in st.before)
    requires SortAll(st, names, fuel).Done?
    ensures var r := SortAll(st, names, fuel).st;
            && AfterOnly(r) && r.after == st.after && Distinct(r.sorted)
            && (forall c :: c in names <==> c in r.sorted)
            && (forall c :: c in names && st.after[c] in names ==> Precedes(r.sorted, st.after[c], c))
  {
    hide SortAll, Precedes;
    SortAllAfter(st, names, fuel);
    var r := SortAll(st, names, fuel).st;
    forall c | c in names && st.after[c] in names ensures Precedes(r.sorted, st.after[c], c) {
      assert AfterHonoured(r, c);
    }
  }

  // ---------------------------------------------------------------- requests to run before

  /** Requests to run before others only. A sort mirrors them as requests of later callbacks to
      run after an earlier one, and the next sort finds those too. */
  ghost predicate BeforeOnly(st: State, names: seq<Name>) {
    && Fits(st)
    && Distinct(names)
    && (forall c :: c in names <==> c in st.before)
    && "" !in st.before
    && (forall c :: c in st.before ==> st.before[c] != c)
    && (forall t :: t in st.before && st.after[t] in st.before ==> Mirrors(st, names, t))
  }

  ghost predicate Mirrors(st: State, names: seq<Name>, t: Name)
    requires Fits(st) && t in st.before && st.after[t] in st.before
  {
    st.before[st.after[t]] == t && Precedes(names, st.after[t], t)
  }

  ghost predicate BeforeHonoured(st: State, c: Name)
    requires Fits(st) && c in st.before
  {
    st.before[c] in st.sorted ==> Precedes(st.sorted, c, st.before[c])
  }

  /** A placed callback whose target is not yet placed: the target will follow it, or follow
      one behind it. */
  ghost predicate Pending(st: State, c: Name)
    requires Fits(st) && c in st.before
  {
    var b := st.before[c];
    b in st.before && b !in st.sorted ==>
      st.after[b] in st.before && (c == st.after[b] || Precedes(st.sorted, c, st.after[b]))
  }

  /** After the first `n` callbacks. */
  ghost predicate BeforeSorted(st: State, names: seq<Name>, n: nat) {
    && BeforeOnly(st, names)
    && n <= |names|
    && Distinct(st.sorted)
    && (forall c :: c in st.sorted <==> c in names[..n])
    && (forall c :: c in st.sorted ==> BeforeHonoured(st, c) && Pending(st, c))
  }

  /** `t` is `s` with `c` put in somewhere. */
  ghost predicate Grown(s: seq<Name>, t: seq<Name>, c: Name) {
    && Distinct(t)
    && (forall x :: x in t <==> x in s || x == c)
    && (forall x, y :: Precedes(s, x, y) ==> Precedes(t, x, y))
  }

  lemma GrownInsert(s: seq<Name>, at: nat, c: Name)
    requires Distinct(s) && c !in s && at < |s|
    ensures Grown(s, InsertAt(s, at, c), c) && Precedes(InsertAt(s, at, c), c, s[at])
  {
    hide Precedes, InsertAt;
    var t := InsertedIs(s, at, c);
    InsertHas(s, at, c);
    forall x, y | Precedes(s, x, y) ensures Precedes(t, x, y) {
      InsertPrecedes(s, at, c, x, y);
    }
    PrecedesAt(t, at, at + 1);
  }

  lemma InsertedIs(s: seq<Name>, at: nat, c: Name) returns (t: seq<Name>)
    requires at <= |s|
    ensures t == InsertAt(s, at, c) && |t| == |s| + 1
    ensures forall i {:trigger t[i]} :: 0 <= i < |t| ==>
              t[i] == if i < at then s[i] else if i == at then c else s[i - 1]
  {
    t := InsertAt(s, at, c);
  }

  lemma InsertHas(s: seq<Name>, at: nat, c: Name)
    requires Distinct(s) && c !in s && at <= |s|
    ensures Distinct(InsertAt(s, at, c))
    ensures forall x :: x in InsertAt(s, at, c) <==> x in s || x == c
  {
    hide InsertAt;
    var t := InsertedIs(s, at, c);
    forall x | x in s ensures x in t {
      var i :| 0 <= i < |s| && s[i] == x;
      assert t[if i < at then i else i + 1] == x;
    }
    assert t[at] == c;
  }

  lemma InsertPrecedes(s: seq<Name>, at: nat, c: Name, x: Name, y: Name)
    requires at <= |s| && Precedes(s, x, y)
    ensures Precedes(InsertAt(s, at, c), x, y)
  {
    hide InsertAt;
    var t := InsertedIs(s, at, c);
    var j :| 0 <= j < |s| && s[j] == y && x in s[..j];
    var i :| 0 <= i < j && s[i] == x;
    PrecedesAt(t, if i < at then i else i + 1, if j < at then j else j + 1);
  }

  lemma PrecedesAt(s: seq<Name>, i: nat, j: nat)
    requires i < j < |s|
    ensures Precedes(s, s[i], s[j])
  {
    assert s[..j][i] == s[i];
  }

  lemma GrownAppend(s: seq<Name>, c: Name)
    requires Distinct(s) && c !in s
    ensures Grown(s, s + [c], c)
  {
    PrecedesAppend(s, c);
  }

  lemma PrecedesTransitive(s: seq<Name>, x: Name, y: Name, z: Name)
    requires Distinct(s) && Precedes(s, x, y) && Precedes(s, y, z)
    ensures Precedes(s, x, z)
  {
    var j :| 0 <= j < |s| && s[j] == y && x in s[..j];
    var k :| 0 <= k < |s| && s[k] == z && y in s[..k];
    var i :| 0 <= i < j && s[i] == x;
    PrecedesAt(s, i, k);
  }

  /** One more callback `c`, placed so that its own request and that of its `after` are met. */
  ghost predicate Steps(st: State, r: State, c: Name)
    requires Fits(st) && c in st.before
  {
    var b := st.before[c];
    && r.before == st.before
    && Grown(st.sorted, r.sorted, c)
    && (b in st.sorted ==> Precedes(r.sorted, c, b))
    && (st.after[c] in st.before ==> Precedes(r.sorted, st.after[c], c))
    && (if b in st.before && b !in st.sorted
        then r.after == st.after[b := c] && forall x :: x in st.sorted ==> Precedes(r.sorted, x, c)
        else r.after == st.after)
  }

  lemma PlacedFirst(names: seq<Name>, n: nat, e: Name)
    requires Distinct(names) && n < |names| && Precedes(names, e, names[n])
    ensures e in names[..n]
  {
    var j :| 0 <= j < |names| && names[j] == names[n] && e in names[..j];
    assert j == n;
  }

  /** The request to run before is met by where `c` is put, that to run after is only checked. */
  lemma PlacesBefore(st: State, c: Name)
    requires Fits(st) && c in st.before && c !in st.sorted && Distinct(st.sorted) && "" !in st.sorted
    ensures var b := st.before[c];
            PlaceBefore(st, c) ==
            if b in st.sorted then Done(st.(sorted := InsertAt(st.sorted, RIndex(st.sorted, b), c)))
            else if b in st.before && b != "" then Done(st.(after := st.after[b := c]))
            else Done(st)
  {
  }

  lemma TakesStepFrom(st: State, c: Name, fuel: nat)
    requires Fits(st) && c in st.before && c !in st.sorted && Distinct(st.sorted)
    requires "" !in st.before && "" !in st.sorted && st.before[c] != c && st.after[c] != c
    requires st.after[c] in st.before ==> st.after[c] in st.sorted
    requires st.after[c] in st.sorted ==> st.after[c] in st.before
    requires fuel > 0
    ensures var r := SortOne(st, c, fuel); r != OutOfFuel && (r.Done? ==> Steps(st, r.st, c))
  {
    hide Precedes, Grown, RIndex, Distinct, PlaceBefore, InsertAt;
    var b, e := st.before[c], st.after[c];
    PlacesBefore(st, c);
    if b in st.sorted {
      GrownInsert(st.sorted, RIndex(st.sorted, b), c);
      var t := InsertAt(st.sorted, RIndex(st.sorted, b), c);
      GrownHas(st.sorted, t, c);
      if e in st.before && RIndex(t, c) >= RIndex(t, e) {
        IndexPrecedes(t, e, c);
      }
    } else {
      GrownAppend(st.sorted, c);
      PrecedesAppend(st.sorted, c);
    }
  }

  lemma TakesStep(st: State, names: seq<Name>, n: nat, fuel: nat)
    requires BeforeSorted(st, names, n) && n < |names| && fuel > 0
    ensures var r := SortOne(st, names[n], fuel); r != OutOfFuel && (r.Done? ==> Steps(st, r.st, names[n]))
  {
    hide Precedes, Pending, BeforeHonoured, Grown, Distinct, SortOne, Steps;
    var c := names[n];
    NotAgain(names, n);
    if st.after[c] in st.before {
      assert Mirrors(st, names, c);
      PlacedFirst(names, n, st.after[c]);
    }
    TakesStepFrom(st, c, fuel);
  }

  lemma GrownHas(s: seq<Name>, t: seq<Name>, c: Name)
    requires Grown(s, t, c)
    ensures c in t && forall x :: x in s ==> x in t
  {
  }

  lemma NotAgain(names: seq<Name>, n: nat)
    requires Distinct(names) && n < |names|
    ensures names[n] !in names[..n]
  {
  }

  lemma IndexPrecedes(s: seq<Name>, x: Name, y: Name)
    requires x in s && y in s && x != y && RIndex(s, x) <= RIndex(s, y)
    ensures Precedes(s, x, y)
  {
    PrecedesAt(s, RIndex(s, x), RIndex(s, y));
  }

  lemma StepSorts(st: State, r: State, names: seq<Name>, n: nat)
    requires BeforeSorted(st, names, n) && n < |names| && Steps(st, r, names[n])
    ensures BeforeSorted(r, names, n + 1)
  {
    hide Precedes;
    var c := names[n];
    var b := st.before[c];
    NotAgain(names, n);
    assert names[..n + 1] == names[..n] + [c];
    StepMirrors(st, r, names, n);
    forall d | d in r.sorted ensures BeforeHonoured(r, d) && Pending(r, d) {
      if d != c {
        assert BeforeHonoured(st, d) && Pending(st, d);
        if st.before[d] == c && d != st.after[c] {
          PrecedesTransitive(r.sorted, d, st.after[c], c);
        }
      }
    }
  }

  lemma LaterThan(names: seq<Name>, n: nat, t: Name)
    requires n < |names| && t in names && t !in names[..n] && t != names[n]
    ensures Precedes(names, names[n], t)
  {
    var j :| 0 <= j < |names| && names[j] == t;
    forall i | 0 <= i < n ensures names[i] != t {
      assert names[..n][i] == names[i];
    }
    PrecedesAt(names, n, j);
  }

  lemma StepMirrors(st: State, r: State, names: seq<Name>, n: nat)
    requires BeforeSorted(st, names, n) && n < |names| && Steps(st, r, names[n])
    ensures BeforeOnly(r, names)
  {
    hide Grown, Pending, BeforeHonoured;
    var c := names[n];
    forall t | t in r.before && r.after[t] in r.before ensures Mirrors(r, names, t) {
      if r.after[t] == st.after[t] {
        assert Mirrors(st, names, t);
      } else {
        assert t in names && t !in names[..n] && t != c;
        LaterThan(names, n, t);
      }
    }
  }

  lemma {:induction false} SortAllBefore(st: State, names: seq<Name>, n: nat, fuel: nat)
    requires BeforeOnly(st, names) && st.sorted == [] && n <= |names| && fuel > 0
    ensures var r := SortAll(st, names[..n], fuel); r != OutOfFuel && (r.Done? ==> BeforeSorted(r.st, names, n))
  {
    hide SortOne, BeforeOnly;
    assert Fits(st) && forall c :: c in names <==> c in st.before by { BeforeFits(st, names); }
    if n > 0 {
      SortAllBefore(st, names, n - 1, fuel);
      assert names[..n][..n - 1] == names[..n - 1];
      var r := SortAll(st, names[..n - 1], fuel);
      if r.Done? {
        TakesStep(r.st, names, n - 1, fuel);
        var one := SortOne(r.st, names[n - 1], fuel);
        if one.Done? {
          StepSorts(r.st, one.st, names, n - 1);
        }
      }
    }
  }

  lemma BeforeFits(st: State, names: seq<Name>)
    requires BeforeOnly(st, names)
    ensures Fits(st) && forall c :: c in names <==> c in st.before
  {
  }

  /** With requests to run before others only, the sort ends without recursion; if it reports
      no conflict then all requests are honoured and each callback is placed once, and the
      rewritten requests are again of this kind. */
  lemma BeforeOnlyHonoured(st: State, names: seq<Name>, fuel: nat)
    requires BeforeOnly(st, names) && st.sorted == [] && fuel > 0
    ensures Fits(st) && forall c :: c in names <==> c in st.before
    ensures var r := SortAll(st, names, fuel);
            && r != OutOfFuel
            && (r.Done? ==>
                  && BeforeOnly(r.st, names) && r.st.before == st.before && Distinct(r.st.sorted)
                  && (forall c :: c in names <==> c in r.st.sorted)
                  && (forall c :: c in names && st.before[c] in names ==> Precedes(r.st.sorted, c, st.before[c])))
  {
    hide Precedes, Pending, Mirrors;
    SortAllBefore(st, names, |names|, fuel);
    assert names[..|names|] == names;
    var r := SortAll(st, names, fuel);
    if r.Done? {
      SameBefores(st, names, |names|, fuel);
      forall c | c in names && st.before[c] in names ensures Precedes(r.st.sorted, c, st.before[c]) {
        assert BeforeHonoured(r.st, c);
      }
    }
  }

  lemma {:induction false} SameBefores(st: State, names: seq<Name>, n: nat, fuel: nat)
    requires BeforeOnly(st, names) && st.sorted == [] && n <= |names| && fuel > 0
    ensures var r := SortAll(st, names[..n], fuel); r.Done? ==> r.st.before == st.before
  {
    hide SortOne;
    if n > 0 {
      SameBefores(st, names, n - 1, fuel);
      assert names[..n][..n - 1] == names[..n - 1];
      SortAllBefore(st, names, n - 1, fuel);
      var r := SortAll(st, names[..n - 1], fuel);
      if r.Done? {
        TakesStep(r.st, names, n - 1, fuel);
      }
    }
  }

  // ---------------------------------------------------------------- what may go wrong

  lemma SortAllMore(st: State, names: seq<Name>, c: Name, fuel: nat)
    requires Fits(st) && c in st.before && forall c :: c in names ==> c in st.before
    ensures SortAll(st, names + [c], fuel) ==
            if SortAll(st, names, fuel).Done? then SortOne(SortAll(st, names, fuel).st, c, fuel)
            else SortAll(st, names, fuel)
  {
    hide SortOne;
    assert (names + [c])[..|names|] == names;
  }

  /** Requests to run before others that could all be met, and still a conflict: `t` is placed
      before `x` although `c`, which it must follow, was already behind `x`. */
  lemma SatisfiableBeforesMayConflict(x: Name, c: Name, t: Name, fuel: nat)
    requires x != "" && c != "" && t != "" && x != c && c != t && t != x && fuel > 0
    ensures var st := State(map[x := "", c := t, t := x], map[x := "", c := "", t := ""], []);
            && Fits(st)
            && SortAll(st, [x, c, t], fuel) == Conflict
            && Precedes([c, t, x], c, t) && Precedes([c, t, x], t, x)
  {
    hide Precedes, RIndex, SortAll, PlaceBefore, PlaceAfter;
    var st := State(map[x := "", c := t, t := x], map[x := "", c := "", t := ""], []);
    var one := st.(sorted := [x]);
    var two := one.(after := one.after[t := c], sorted := [x, c]);
    var three := two.(sorted := [t, x, c]);
    SortAllMore(st, [], x, fuel);
    SortAllMore(st, [x], c, fuel);
    SortAllMore(st, [x, c], t, fuel);
    assert [] + [x] == [x] && [x] + [c] == [x, c] && [x, c] + [t] == [x, c, t];
    assert SortAll(st, [], fuel) == Done(st) by { SortNone(st, fuel); }
    assert SortOne(st, x, fuel) == Done(one) by { FirstGoesIn(st, x, fuel); }
    assert SortOne(one, c, fuel) == Done(two) by { PutsOff(one, c, t, fuel); }
    assert SortOne(two, t, fuel) == Conflict by { TooLate(two, x, c, t, fuel); }
    PrecedesAt([c, t, x], 0, 1);
    PrecedesAt([c, t, x], 1, 2);
  }

  lemma SortNone(st: State, fuel: nat)
    requires Fits(st)
    ensures SortAll(st, [], fuel) == Done(st)
  {
  }

  lemma FirstGoesIn(st: State, c: Name, fuel: nat)
    requires Fits(st) && c in st.before && c !in st.sorted && fuel > 0
    requires st.before[c] == "" && (st.after[c] == "" || st.after[c] in st.sorted)
    ensures SortOne(st, c, fuel) == Done(st.(sorted := st.sorted + [c]))
  {
  }

  lemma PutsOff(st: State, c: Name, b: Name, fuel: nat)
    requires Fits(st) && c in st.before && c !in st.sorted && fuel > 0
    requires st.before[c] == b != "" && b in st.before && b !in st.sorted && b != c && st.after[c] == ""
    ensures SortOne(st, c, fuel) == Done(st.(after := st.after[b := c], sorted := st.sorted + [c]))
  {
  }

  lemma TooLate(st: State, x: Name, c: Name, t: Name, fuel: nat)
    requires Fits(st) && t in st.before && fuel > 0 && x != t && c != t && x != c && c != "" && x != ""
    requires st.sorted == [x, c] && st.before[t] == x && st.after[t] == c
    ensures SortOne(st, t, fuel) == Conflict
  {
    assert [x, c][..1] == [x];
    assert RIndex([x, c], x) == 0;
    var three := [t, x, c];
    assert InsertAt([x, c], 0, t) == three;
    assert three[..2] == [t, x] && [t, x][..1] == [t];
    assert RIndex(three, t) == 0;
    assert RIndex(three, c) == 2;
  }

  /** Mixed requests: that of `c` to run before `b` overwrites that of `b` to run after `a`,
      which is then lost without an error. */
  lemma MixedRequestsMayBeLost(a: Name, b: Name, c: Name, fuel: nat)
    requires a != "" && b != "" && c != "" && a != b && b != c && c != a && fuel > 0
    ensures var st := State(map[c := b, b := "", a := ""], map[c := "", b := a, a := ""], []);
            && Fits(st)
            && SortAll(st, [c, b, a], fuel).Done?
            && SortAll(st, [c, b, a], fuel).st.sorted == [c, b, a]
            && st.after[b] == a && !Precedes([c, b, a], a, b)
  {
    hide RIndex, SortAll, PlaceBefore, PlaceAfter;
    var st := State(map[c := b, b := "", a := ""], map[c := "", b := a, a := ""], []);
    var one := st.(after := st.after[b := c], sorted := [c]);
    var two := one.(sorted := [c, b]);
    var three := two.(sorted := [c, b, a]);
    SortAllMore(st, [], c, fuel);
    SortAllMore(st, [c], b, fuel);
    SortAllMore(st, [c, b], a, fuel);
    assert [] + [c] == [c] && [c] + [b] == [c, b] && [c, b] + [a] == [c, b, a];
    assert SortAll(st, [], fuel) == Done(st) by { SortNone(st, fuel); }
    assert SortOne(st, c, fuel) == Done(one) by { PutsOff(st, c, b, fuel); }
    assert SortOne(one, b, fuel) == Done(two) by { FirstGoesIn(one, b, fuel); }
    assert SortOne(two, a, fuel) == Done(three) by { FirstGoesIn(two, a, fuel); }
  }

  // ---------------------------------------------------------------- what is sorted

  /** A registered callback, or the marker that Remove registers; `matches` is the answer of its
      match function, true without one. */
  datatype Registration = Registration(name: Name, remove: bool, matches: bool)

  ghost predicate IsRemoved(rs: seq<Registration>, name: Name) { exists r :: r in rs && r.remove && r.name == name }

  function Kept(rs: seq<Registration>, removed: set<Name>): seq<Registration> {
    if rs == [] then []
    else
      var r := rs[|rs| - 1];
      Kept(rs[..|rs| - 1], removed) + if r.matches && r.name !in removed then [r] else []
  }

  /** removeCallbacks. */
  method RemoveCallbacks(cs: seq<Registration>, nameMap: set<Name>) returns (callbacks: seq<Registration>)
    requires forall c :: c in cs ==> c.matches
    ensures callbacks == Kept(cs, nameMap)
  {
    callbacks := [];
    for i := 0 to |cs|
      invariant callbacks == Kept(cs[..i], nameMap)
    {
      assert cs[..i + 1][..i] == cs[..i];
      if cs[i].name !in nameMap {
        callbacks := callbacks + [cs[i]];
      }
    }
    assert cs[..|cs|] == cs;
  }

  lemma {:induction false} KeptAll(rs: seq<Registration>, removed: set<Name>)
    ensures Kept(Kept(rs, {}), removed) == Kept(rs, removed)
    ensures forall r :: r in Kept(rs, removed) <==> r in rs && r.matches && r.name !in removed
  {
    if rs != [] {
      var rest, last := rs[..|rs| - 1], rs[|rs| - 1];
      assert rs == rest + [last];
      KeptAll(rest, removed);
      var kept := Kept(rest, {});
      assert (kept + [last])[..|kept|] == kept && kept + [] == kept;
    }
  }

  /** compile, up to the sort: what is left are, in order, the matching callbacks whose name no
      marker removes, and no marker is left. */
  method Compile(registered: seq<Registration>) returns (callbacks: seq<Registration>, ghost removed: set<Name>)
    ensures callbacks == Kept(registered, removed)
    ensures forall n :: n in removed <==> IsRemoved(registered, n)
    ensures forall c :: c in callbacks <==> c in registered && c.matches && !IsRemoved(registered, c.name)
    ensures forall c :: c in callbacks ==> !c.remove
  {
    callbacks := [];
    var removedMap: set<Name> := {};
    for i := 0 to |registered|
      invariant callbacks == Kept(registered[..i], {})
      invariant forall n :: n in removedMap <==> IsRemoved(registered[..i], n)
    {
      var c := registered[i];
      assert registered[..i + 1][..i] == registered[..i];
      assert registered[..i + 1] == registered[..i] + [c];
      OneMoreMarker(registered[..i], c);
      if c.matches {
        callbacks := callbacks + [c];
      }
      if c.remove {
        removedMap := removedMap + {c.name};
      }
    }
    assert registered[..|registered|] == registered;
    removed := removedMap;
    KeptAll(registered, {});
    KeptAll(registered, removed);
    if |removedMap| > 0 {
      callbacks := RemoveCallbacks(callbacks, removedMap);
    }
  }

  lemma OneMoreMarker(rs: seq<Registration>, c: Registration)
    ensures forall n :: IsRemoved(rs + [c], n) <==> IsRemoved(rs, n) || (c.remove && c.name == n)
  {
    forall n ensures IsRemoved(rs + [c], n) <==> IsRemoved(rs, n) || (c.remove && c.name == n) {
      if IsRemoved(rs, n) {
        var r :| r in rs && r.remove && r.name == n;
        assert r in rs + [c];
      }
      if c.remove && c.name == n {
        assert c in rs + [c];
      }
    }
  }

  // ---------------------------------------------------------------- the methods

  class Callback {
    const name: Name
    const handler: int
    var before: Name
    var after: Name

    constructor (name: Name, handler: int, before: Name, after: Name)
      ensures this.name == name && this.handler == handler && this.before == before && this.after == after
    {
      this.name, this.handler, this.before, this.after := name, handler, before, after;
    }
  }

  function NamesOf(cs: seq<Callback>): seq<Name> { seq(|cs|, i requires 0 <= i < |cs| => cs[i].name) }

  /** The state before a sort, with the requests the callbacks hold. */
  function Requests(cs: seq<Callback>): (st: State)
    reads cs
    ensures Fits(st) && st.sorted == []
  {
    if cs == [] then State(map[], map[], [])
    else
      var rest, c := Requests(cs[..|cs| - 1]), cs[|cs| - 1];
      State(rest.before[c.name := c.before], rest.after[c.name := c.after], [])
  }

  /** `st` is what the callbacks and the list of placed names hold. */
  ghost predicate Holds(cs: seq<Callback>, st: State)
    reads cs
  {
    && Fits(st)
    && (forall n :: n in st.before <==> n in NamesOf(cs))
    && (forall c :: c in cs ==> c.name in st.before && st.before[c.name] == c.before && st.after[c.name] == c.after)
  }

  lemma {:induction false} RequestsHold(cs: seq<Callback>)
    requires Distinct(NamesOf(cs))
    ensures Holds(cs, Requests(cs))
  {
    if cs != [] {
      var rest, c := cs[..|cs| - 1], cs[|cs| - 1];
      assert cs == rest + [c];
      assert NamesOf(cs) == NamesOf(rest) + [c.name];
      assert Distinct(NamesOf(rest)) by {
        forall i, j | 0 <= i < j < |rest| ensures NamesOf(rest)[i] != NamesOf(rest)[j] {
          assert NamesOf(cs)[i] == NamesOf(rest)[i] && NamesOf(cs)[j] == NamesOf(rest)[j];
        }
      }
      RequestsHold(rest);
      forall d | d in rest ensures d.name != c.name {
        var i :| 0 <= i < |rest| && rest[i] == d;
        assert NamesOf(cs)[i] == d.name && NamesOf(cs)[|cs| - 1] == c.name;
      }
    }
  }

  predicate Handles(cs: seq<Callback>, name: Name, handler: int) {
    exists c :: c in cs && c.name == name && c.handler == handler
  }

  class Sorter {
    const cs: seq<Callback>
    const names: seq<Name>
    var sorted: seq<Name>
    ghost var st: State

    ghost predicate Valid()
      reads this, cs
    {
      && names == NamesOf(cs)
      && Distinct(names)
      && sorted == st.sorted
      && Holds(cs, st)
    }

    constructor (cs: seq<Callback>)
      requires Distinct(NamesOf(cs))
      ensures Valid() && this.cs == cs && st == Requests(cs)
    {
      this.cs, this.names, this.sorted, this.st := cs, NamesOf(cs), [], Requests(cs);
      new;
      RequestsHold(cs);
    }

    /** The callback with this name. */
    method Find(name: Name) returns (c: Callback)
      requires Valid() && name in st.before
      ensures c in cs && c.name == name
    {
      var idx := GetRIndex(names, name);
      c := cs[idx];
    }

    lemma OneOfAName(c: Callback, d: Callback)
      requires Distinct(NamesOf(cs)) && c in cs && d in cs && c.name == d.name
      ensures c == d
    {
      var i :| 0 <= i < |cs| && cs[i] == c;
      var j :| 0 <= j < |cs| && cs[j] == d;
      assert NamesOf(cs)[i] == NamesOf(cs)[j];
    }

    method SetAfter(b: Callback, name: Name)
      requires Valid() && b in cs
      modifies this`st, b`after
      ensures Valid() && st == old(st).(after := old(st).after[b.name := name])
    {
      b.after := name;
      st := st.(after := st.after[b.name := name]);
      forall d | d in cs ensures st.after[d.name] == d.after {
        if d.name == b.name {
          OneOfAName(d, b);
        }
      }
    }

    method SetBefore(a: Callback, name: Name)
      requires Valid() && a in cs
      modifies this`st, a`before
      ensures Valid() && st == old(st).(before := old(st).before[a.name := name])
    {
      a.before := name;
      st := st.(before := st.before[a.name := name]);
      forall d | d in cs ensures st.before[d.name] == d.before {
        if d.name == a.name {
          OneOfAName(d, a);
        }
      }
    }

    /** "if defined before callback". */
    method Before(c: Callback) returns (ok: bool)
      requires Valid() && c in cs
      modifies this, set d | d in cs
      ensures Valid() && ok == PlaceBefore(old(st), c.name).Done?
      ensures ok ==> st == PlaceBefore(old(st), c.name).st
    {
      hide Holds, RIndex, Distinct;
      assert c.name in st.before && st.before[c.name] == c.before && Fits(st) by { HeldBy(c); }
      ok := true;
      if c.before != "" {
        var sortedIdx := GetRIndex(sorted, c.before);
        if sortedIdx != -1 {
          var curIdx := GetRIndex(sorted, c.name);
          if curIdx == -1 {
            sorted := sorted[..sortedIdx] + [c.name] + sorted[sortedIdx..];
            st := st.(sorted := sorted);
            SameHold(old(st), st);
          } else if curIdx > sortedIdx {
            return false;
          }
        } else {
          var idx := GetRIndex(names, c.before);
          InNames(c.before);
          if idx != -1 {
            var b := Find(c.before);
            SetAfter(b, c.name);
          }
        }
      }
    }

    lemma HeldBy(c: Callback)
      requires Valid() && c in cs
      ensures Fits(st) && c.name in st.before && st.before[c.name] == c.before && st.after[c.name] == c.after
    {
    }

    lemma HoldsFits(a: State)
      requires Holds(cs, a)
      ensures Fits(a)
    {
    }

    lemma InNames(n: Name)
      requires Valid()
      ensures n in names <==> n in st.before
    {
    }

    lemma SameHold(a: State, b: State)
      requires Holds(cs, a) && b.before == a.before && b.after == a.after
      ensures Holds(cs, b)
    {
    }

    method Append(name: Name)
      requires Valid()
      modifies this`sorted, this`st
      ensures Valid() && st == old(st).(sorted := old(st).sorted + [name])
    {
      sorted := sorted + [name];
      st := st.(sorted := sorted);
      SameHold(old(st), st);
    }

    /** sortCallback; `fuel` only bounds the depth of the recursion. */
    method SortCallback(c: Callback, ghost fuel: nat) returns (ok: bool)
      requires Valid() && c in cs && Fits(st) && c.name in st.before
      requires SortOne(st, c.name, fuel) != OutOfFuel
      modifies this, set d | d in cs
      ensures Valid() && ok == SortOne(old(st), c.name, fuel).Done?
      ensures ok ==> st == SortOne(old(st), c.name, fuel).st
      decreases fuel, 1
    {
      hide Holds, RIndex, Distinct, PlaceBefore, PlaceAfter;
      ok := Before(c);
      if !ok {
        return;
      }
      ok := After(c, fuel - 1);
      if !ok {
        return;
      }
      var at := GetRIndex(sorted, c.name);
      if at == -1 {
        Append(c.name);
      }
    }

    /** "if defined after callback". */
    method After(c: Callback, ghost fuel: nat) returns (ok: bool)
      requires Valid() && c in cs && Fits(st) && c.name in st.before
      requires PlaceAfter(st, c.name, fuel) != OutOfFuel
      modifies this, set d | d in cs
      ensures Valid() && ok == PlaceAfter(old(st), c.name, fuel).Done?
      ensures ok ==> st == PlaceAfter(old(st), c.name, fuel).st
      decreases fuel, 2
    {
      hide Holds, RIndex, Distinct, SortOne;
      HeldBy(c);
      ok := true;
      if c.after != "" {
        var sortedIdx := GetRIndex(sorted, c.after);
        if sortedIdx != -1 {
          var curIdx := GetRIndex(sorted, c.name);
          if curIdx == -1 {
            Append(c.name);
          } else if curIdx < sortedIdx {
            return false;
          }
        } else {
          var idx := GetRIndex(names, c.after);
          InNames(c.after);
          if idx != -1 {
            var after := Find(c.after);
            HeldBy(after);
            if after.before == "" {
              SetBefore(after, c.name);
            }
            ok := SortCallback(after, fuel);
            if ok {
              ok := SortCallback(c, fuel);
            }
          }
        }
      }
    }

    lemma AllNamed()
      requires names == NamesOf(cs)
      ensures |names| == |cs|
    {
    }

    lemma NamedAt(i: nat)
      requires names == NamesOf(cs) && i < |cs|
      ensures i < |names| && names[i] == cs[i].name
    {
    }

    method SortEach(ghost fuel: nat) returns (ok: bool)
      requires Valid() && st.sorted == [] && (forall c :: c in NamesOf(cs) ==> c in st.before)
      requires SortAll(st, NamesOf(cs), fuel) != OutOfFuel
      modifies this, set d | d in cs
      ensures Valid() && ok == SortAll(old(st), NamesOf(cs), fuel).Done?
      ensures ok ==> st == SortAll(old(st), NamesOf(cs), fuel).st
    {
      hide Holds, Distinct, SortOne, SortAll, NamesOf;
      ghost var start := st;
      assert |names| == |cs| by { AllNamed(); }
      assert names[..0] == [] && Fits(start) by { HoldsFits(start); }
      SortNone(start, fuel);
      for i := 0 to |cs|
        invariant Valid() && |names| == |cs| && SortAll(start, names[..i], fuel) == Done(st)
      {
        assert names[..i + 1] == names[..i] + [names[i]];
        SortAllMore(start, names[..i], names[i], fuel);
        StepEnds(start, names, i, fuel);
        NamedAt(i);
        HeldBy(cs[i]);
        ok := SortCallback(cs[i], fuel);
        if !ok {
          NoWayOn(start, names, i + 1, fuel);
          return;
        }
      }
      assert names[..|names|] == names;
      ok := true;
    }

    method Handlers() returns (fns: seq<int>)
      requires Valid() && forall n :: n in sorted ==> n in st.before
      ensures |fns| == |sorted|
      ensures forall k :: 0 <= k < |fns| ==> Handles(cs, sorted[k], fns[k])
    {
      hide Holds, Distinct;
      fns := [];
      for i := 0 to |sorted|
        invariant |fns| == i
        invariant forall k :: 0 <= k < i ==> Handles(cs, sorted[k], fns[k])
      {
        var c := Find(sorted[i]);
        fns := fns + [c.handler];
      }
    }
  }

  /** A sort that ends, ends at every step. */
  lemma {:induction false} StepEnds(st: State, names: seq<Name>, n: nat, fuel: nat)
    requires Fits(st) && (forall c :: c in names ==> c in st.before) && n < |names|
    requires SortAll(st, names[..n], fuel).Done? && SortAll(st, names, fuel) != OutOfFuel
    ensures SortOne(SortAll(st, names[..n], fuel).st, names[n], fuel) != OutOfFuel
    decreases |names|
  {
    hide SortOne;
    var init := names[..|names| - 1];
    if n < |names| - 1 {
      assert init[..n] == names[..n];
      StepEnds(st, init, n, fuel);
    }
  }

  lemma {:induction false} NoWayOn(st: State, names: seq<Name>, n: nat, fuel: nat)
    requires Fits(st) && (forall c :: c in names ==> c in st.before) && n <= |names|
    requires !SortAll(st, names[..n], fuel).Done?
    ensures !SortAll(st, names, fuel).Done?
    decreases |names|
  {
    hide SortOne;
    if n == |names| {
      assert names[..n] == names;
    } else {
      var init := names[..|names| - 1];
      assert init[..n] == names[..n];
      NoWayOn(st, init, n, fuel);
    }
  }

  /** sortCallbacks: the handlers in the order found. `order` names them. */
  method SortCallbacks(cs: seq<Callback>, ghost fuel: nat) returns (fns: seq<int>, ok: bool, ghost order: seq<Name>)
    requires Distinct(NamesOf(cs))
    requires forall c :: c in NamesOf(cs) ==> c in Requests(cs).before
    requires SortAll(Requests(cs), NamesOf(cs), fuel) != OutOfFuel
    modifies set d | d in cs
    ensures ok == SortAll(old(Requests(cs)), NamesOf(cs), fuel).Done?
    ensures ok ==> order == SortAll(old(Requests(cs)), NamesOf(cs), fuel).st.sorted
    ensures !ok ==> fns == []
    ensures ok ==> |fns| == |order| == |cs| && multiset(order) == multiset(NamesOf(cs))
    ensures ok ==> forall i :: 0 <= i < |fns| ==> Handles(cs, order[i], fns[i])
  {
    hide SortAll, Requests;
    var sorter := new Sorter(cs);
    ok := sorter.SortEach(fuel);
    fns, order := [], sorter.sorted;
    if ok {
      EveryCallbackOnce(old(Requests(cs)), NamesOf(cs), fuel);
      SameNames(order, NamesOf(cs));
      fns := sorter.Handlers();
    }
  }

  lemma SameNames(a: seq<Name>, b: seq<Name>)
    requires Distinct(a) && Distinct(b) && forall x :: x in a <==> x in b
    ensures multiset(a) == multiset(b) && |a| == |b|
  {
    forall x ensures multiset(a)[x] == multiset(b)[x] {
      OnceEach(a, x);
      OnceEach(b, x);
    }
    assert |a| == |multiset(a)| && |b| == |multiset(b)|;
  }

  lemma {:induction false} OnceEach(s: seq<Name>, x: Name)
    requires Distinct(s)
    ensures multiset(s)[x] == if x in s then 1 else 0
  {
    if s != [] {
      var rest, last := s[..|s| - 1], s[|s| - 1];
      assert s == rest + [last];
      OnceEach(rest, x);
      assert last !in rest;
    }
  }
}
