/** When the sort of gorm/callbacks.go meets all requests: exactly when requests to run before
    others conflict, and what holds of requests in both directions. */
module SortConflicts {
  import opened SortCallbacks

  // ---------------------------------------------------------------- requests to run before

  /** The callback that one was put in front of, in the end: follow the requests to run before
      another for as long as the other stands earlier. */
  function Root(before: map<Name, Name>, names: seq<Name>, i: nat): (r: nat)
    requires i < |names| && names[i] in before
    requires forall n :: n in names ==> n in before
    ensures r <= i
  {
    var j := RIndex(names, before[names[i]]);
    if 0 <= j < i then Root(before, names, j) else i
  }

  /** The last of the first `n` callbacks that asks to run before the next one, or -1. */
  function LastAsking(before: map<Name, Name>, names: seq<Name>, k: nat, n: nat): (r: int)
    requires k <= n < |names| && forall c :: c in names ==> c in before
    ensures -1 <= r < k
    ensures r != -1 ==> before[names[r]] == names[n]
    ensures forall i :: r < i < k ==> before[names[i]] != names[n]
  {
    if k == 0 then -1
    else if before[names[k - 1]] == names[n] then k - 1
    else LastAsking(before, names, k - 1, n)
  }

  /** The callback `n` must go in front of a group that stands no later than one it must follow. */
  predicate Clashes(before: map<Name, Name>, names: seq<Name>, n: nat)
    requires n < |names| && forall c :: c in names ==> c in before
  {
    var j, e := RIndex(names, before[names[n]]), LastAsking(before, names, n, n);
    0 <= j < n && e != -1 && Root(before, names, j) <= e
  }

  ghost predicate InOrder(sorted: seq<Name>, before: map<Name, Name>, names: seq<Name>, i: nat, j: nat)
    requires i < |names| && j < |names| && forall c :: c in names ==> c in before
  {
    Root(before, names, i) < Root(before, names, j) ==> Precedes(sorted, names[i], names[j])
  }

  ghost predicate FrontOfRoot(sorted: seq<Name>, before: map<Name, Name>, names: seq<Name>, i: nat)
    requires i < |names| && forall c :: c in names ==> c in before
  {
    Root(before, names, i) != i ==> Precedes(sorted, names[i], names[Root(before, names, i)])
  }

  /** Callbacks stand in groups: those put in front of the same root, in front of it; the groups
      in the order of their roots. */
  ghost predicate Grouped(sorted: seq<Name>, before: map<Name, Name>, names: seq<Name>, n: nat)
    requires n <= |names| && forall c :: c in names ==> c in before
  {
    && (forall i, j :: 0 <= i < n && 0 <= j < n ==> InOrder(sorted, before, names, i, j))
    && (forall i :: 0 <= i < n ==> FrontOfRoot(sorted, before, names, i))
  }

  lemma FrontOfTarget(s: seq<Name>, at: nat, c: Name, x: Name)
    requires Distinct(s) && at < |s| && c !in s && Precedes(s, x, s[at])
    ensures Precedes(InsertAt(s, at, c), x, c)
  {
    var j :| 0 <= j < |s| && s[j] == s[at] && x in s[..j];
    assert j == at;
    var i :| 0 <= i < at && s[i] == x;
    var t := InsertedIs(s, at, c);
    assert t[i] == x && t[at] == c;
    PrecedesAt(t, i, at);
  }

  lemma IndexOf(names: seq<Name>, i: nat)
    requires Distinct(names) && i < |names|
    ensures RIndex(names, names[i]) == i
  {
  }

  /** A callback that goes in front of an earlier one joins its group. */
  lemma JoinsGroup(sorted: seq<Name>, before: map<Name, Name>, names: seq<Name>, n: nat, at: nat)
    requires Distinct(names) && n < |names| && (forall c :: c in names ==> c in before)
    requires Distinct(sorted) && at < |sorted| && names[n] !in sorted
    requires Grouped(sorted, before, names, n)
    requires sorted[at] == before[names[n]] && before[names[n]] in names[..n]
    ensures Grouped(InsertAt(sorted, at, names[n]), before, names, n + 1)
  {
    hide Precedes, InsertAt, Root, Grown;
    var c, b := names[n], before[names[n]];
    var t := InsertAt(sorted, at, c);
    EarlierIndex(names, n, b);
    var j := RIndex(names, b);
    RootOfTarget(before, names, n);
    GrownInsert(sorted, at, c);
    GrownOrder(sorted, t, c);
    assert FrontOfRoot(sorted, before, names, j);
    forall i, k | 0 <= i < n + 1 && 0 <= k < n + 1 ensures InOrder(t, before, names, i, k) {
      if i < n && k < n {
        assert InOrder(sorted, before, names, i, k);
      } else if i < n {
        assert InOrder(sorted, before, names, i, j);
        if Root(before, names, i) < Root(before, names, k) {
          FrontOfTarget(sorted, at, c, names[i]);
        }
      } else if k < n {
        assert InOrder(sorted, before, names, j, k);
        if Root(before, names, i) < Root(before, names, k) {
          PrecedesTransitive(t, c, b, names[k]);
        }
      }
    }
    forall i | 0 <= i < n + 1 ensures FrontOfRoot(t, before, names, i) {
      if i < n {
        assert FrontOfRoot(sorted, before, names, i);
      } else if Root(before, names, j) != j {
        PrecedesTransitive(t, c, b, names[Root(before, names, j)]);
      }
    }
  }

  lemma RootOfTarget(before: map<Name, Name>, names: seq<Name>, n: nat)
    requires Distinct(names) && n < |names| && (forall c :: c in names ==> c in before)
    requires before[names[n]] in names[..n]
    ensures var j := RIndex(names, before[names[n]]);
            0 <= j < n && names[j] == before[names[n]] && Root(before, names, n) == Root(before, names, j) <= j
  {
    EarlierIndex(names, n, before[names[n]]);
  }

  lemma GrownOrder(s: seq<Name>, t: seq<Name>, c: Name)
    requires Grown(s, t, c)
    ensures Distinct(t) && forall x, y :: Precedes(s, x, y) ==> Precedes(t, x, y)
  {
  }

  lemma EarlierIndex(names: seq<Name>, n: nat, b: Name)
    requires Distinct(names) && n <= |names| && b in names[..n]
    ensures 0 <= RIndex(names, b) < n
  {
    var j :| 0 <= j < n && names[..n][j] == b;
    IndexOf(names, j);
  }

  lemma RootOfItself(before: map<Name, Name>, names: seq<Name>, n: nat)
    requires n < |names| && (forall c :: c in names ==> c in before)
    requires before[names[n]] !in names[..n]
    ensures Root(before, names, n) == n
  {
    forall i | 0 <= i < n ensures names[i] != before[names[n]] {
      assert names[..n][i] == names[i];
    }
  }

  /** Any other is appended and starts a group. */
  lemma StartsGroup(sorted: seq<Name>, before: map<Name, Name>, names: seq<Name>, n: nat)
    requires n < |names| && (forall c :: c in names ==> c in before)
    requires (forall c :: c in sorted <==> c in names[..n]) && before[names[n]] !in names[..n]
    requires Grouped(sorted, before, names, n)
    ensures Grouped(sorted + [names[n]], before, names, n + 1)
  {
    hide Precedes, Root;
    var c := names[n];
    var t := sorted + [c];
    PrecedesAppend(sorted, c);
    RootOfItself(before, names, n);
    forall i, k | 0 <= i < n + 1 && 0 <= k < n + 1 ensures InOrder(t, before, names, i, k) {
      if i < n && k < n {
        assert InOrder(sorted, before, names, i, k);
      } else if i < n {
        assert names[..n][i] == names[i];
      } else if k < n {
        assert Root(before, names, k) <= k;
      }
    }
    forall i | 0 <= i < n + 1 ensures FrontOfRoot(t, before, names, i) {
      if i < n {
        assert FrontOfRoot(sorted, before, names, i);
      }
    }
  }

  /** A request to run after another, found by a callback whose turn it is, comes from an
      earlier callback that asked to run before it. */
  lemma AskedBy(st: State, names: seq<Name>, n: nat) returns (m: nat)
    requires BeforeSorted(st, names, n) && n < |names| && st.after[names[n]] in st.before
    ensures m < n && names[m] == st.after[names[n]] && st.before[names[m]] == names[n]
  {
    hide Precedes, Pending, BeforeHonoured;
    assert Mirrors(st, names, names[n]);
    PlacedFirst(names, n, st.after[names[n]]);
    m :| 0 <= m < n && names[..n][m] == st.after[names[n]];
  }

  /** Whoever asked to run before it is that callback or stands in front of it. */
  lemma AskedPending(st: State, names: seq<Name>, n: nat, e: nat)
    requires BeforeSorted(st, names, n) && e < n < |names| && st.before[names[e]] == names[n]
    ensures st.after[names[n]] in st.before
    ensures names[e] == st.after[names[n]] || Precedes(st.sorted, names[e], st.after[names[n]])
  {
    hide Precedes, BeforeHonoured, Mirrors;
    NotAgain(names, n);
    assert names[..n][e] == names[e];
    assert Pending(st, names[e]);
  }

  lemma AsksLater(before: map<Name, Name>, names: seq<Name>, n: nat, e: nat)
    requires Distinct(names) && e < n < |names| && (forall c :: c in names ==> c in before)
    requires before[names[e]] == names[n]
    ensures Root(before, names, e) == e
  {
    IndexOf(names, n);
  }

  lemma LaterStandsBehind(sorted: seq<Name>, before: map<Name, Name>, names: seq<Name>, n: nat, m: nat, e: nat)
    requires Distinct(sorted) && m < e < n <= |names| && (forall c :: c in names ==> c in before)
    requires Grouped(sorted, before, names, n) && Root(before, names, m) == m && Root(before, names, e) == e
    ensures !Precedes(sorted, names[e], names[m]) && Precedes(sorted, names[m], names[e])
    ensures names[m] != names[e]
  {
    hide Precedes, Root, RIndex;
    assert InOrder(sorted, before, names, m, e);
    PrecedesIndex(sorted, names[m], names[e]);
    if Precedes(sorted, names[e], names[m]) {
      PrecedesIndex(sorted, names[e], names[m]);
    }
  }

  /** The request a callback finds to run after another comes from the last that asked. */
  lemma FollowsLastAsking(st: State, names: seq<Name>, n: nat)
    requires BeforeSorted(st, names, n) && n < |names| && Grouped(st.sorted, st.before, names, n)
    ensures var e := LastAsking(st.before, names, n, n);
            if e == -1 then st.after[names[n]] !in st.before
            else st.after[names[n]] == names[e] && Root(st.before, names, e) == e
  {
    hide Precedes, Root, RIndex, Pending, BeforeHonoured, Mirrors;
    var e := LastAsking(st.before, names, n, n);
    if st.after[names[n]] in st.before {
      var m := AskedBy(st, names, n);
      assert e >= m;
      AsksLater(st.before, names, n, m);
      AsksLater(st.before, names, n, e);
      AskedPending(st, names, n, e);
      if m < e {
        LaterStandsBehind(st.sorted, st.before, names, n, m, e);
        assert false;
      }
    } else if e != -1 {
      AskedPending(st, names, n, e);
    }
  }

  /** Where a callback with an earlier target ends up relative to the one it must follow. */
  lemma ClashMeansBefore(t: seq<Name>, before: map<Name, Name>, names: seq<Name>, n: nat, e: nat)
    requires Distinct(t) && Distinct(names) && e < n < |names| && (forall c :: c in names ==> c in before)
    requires before[names[n]] in names[..n] && Root(before, names, e) == e
    requires Grouped(t, before, names, n + 1)
    ensures var j := RIndex(names, before[names[n]]);
            0 <= j < n && (RIndex(t, names[n]) < RIndex(t, names[e]) <==> Root(before, names, j) <= e)
  {
    hide Precedes, Root, RIndex;
    RootOfTarget(before, names, n);
    var j := RIndex(names, before[names[n]]);
    assert InOrder(t, before, names, n, e) && InOrder(t, before, names, e, n) && FrontOfRoot(t, before, names, n);
    if Root(before, names, j) <= e {
      PrecedesIndex(t, names[n], names[e]);
    } else {
      PrecedesIndex(t, names[e], names[n]);
    }
  }

  lemma StepConflictIff(st: State, names: seq<Name>, n: nat, fuel: nat)
    requires BeforeSorted(st, names, n) && n < |names| && fuel > 0
    requires Grouped(st.sorted, st.before, names, n)
    ensures var r := SortOne(st, names[n], fuel);
            && (r == Conflict <==> Clashes(st.before, names, n))
            && (r.Done? ==> Grouped(r.st.sorted, st.before, names, n + 1))
  {
    hide Precedes, Root, RIndex, Distinct, PlaceBefore, InsertAt, LastAsking, Grouped, BeforeHonoured, Pending, Mirrors;
    var c := names[n];
    NotAgain(names, n);
    PlacesBefore(st, c);
    FollowsLastAsking(st, names, n);
    var b, e := st.before[c], LastAsking(st.before, names, n, n);
    if b in st.sorted {
      EarlierIndex(names, n, b);
      RIndexIn(st.sorted, b);
      var at := RIndex(st.sorted, b);
      var t := InsertAt(st.sorted, at, c);
      JoinsGroup(st.sorted, st.before, names, n, at);
      InsertHas(st.sorted, at, c);
      if e != -1 {
        assert names[e] in st.sorted by { assert names[..n][e] == names[e]; }
        ClashMeansBefore(t, st.before, names, n, e);
      }
    } else {
      NotAmong(names, n, b);
      StartsGroup(st.sorted, st.before, names, n);
      if e != -1 {
        assert names[e] in st.sorted by { assert names[..n][e] == names[e]; }
      }
    }
  }

  lemma RIndexIn(s: seq<Name>, x: Name)
    requires x in s
    ensures 0 <= RIndex(s, x) < |s| && s[RIndex(s, x)] == x
  {
  }

  lemma NotAmong(names: seq<Name>, n: nat, b: Name)
    requires n <= |names| && b !in names[..n]
    ensures !(0 <= RIndex(names, b) < n)
  {
    forall i | 0 <= i < n ensures names[i] != b {
      assert names[..n][i] == names[i];
    }
  }

  lemma {:induction false} SortAllConflictIff(st: State, names: seq<Name>, n: nat, fuel: nat)
    requires BeforeOnly(st, names) && st.sorted == [] && n <= |names| && fuel > 0
    ensures var r := SortAll(st, names[..n], fuel);
            && (r == Conflict <==> exists k :: 0 <= k < n && Clashes(st.before, names, k))
            && (r.Done? ==> r.st.before == st.before && Grouped(r.st.sorted, st.before, names, n))
  {
    hide SortOne, Clashes, Root;
    if n == 0 {
      assert names[..0] == [];
    } else {
      SortAllConflictIff(st, names, n - 1, fuel);
      SortAllBefore(st, names, n - 1, fuel);
      SameBefores(st, names, n, fuel);
      SameBefores(st, names, n - 1, fuel);
      assert names[..n][..n - 1] == names[..n - 1];
      var r := SortAll(st, names[..n - 1], fuel);
      if r.Done? {
        StepConflictIff(r.st, names, n - 1, fuel);
      }
    }
  }

  /** With requests to run before others only, the sort reports a conflict exactly when some
      callback asks to run before an earlier one that stands in a group no later than a callback
      that asks to run before it. In every other case it succeeds. */
  lemma BeforeOnlyConflictIff(st: State, names: seq<Name>, fuel: nat)
    requires BeforeOnly(st, names) && st.sorted == [] && fuel > 0
    ensures Fits(st) && forall c :: c in names <==> c in st.before
    ensures SortAll(st, names, fuel) == Conflict <==> exists k :: 0 <= k < |names| && Clashes(st.before, names, k)
    ensures SortAll(st, names, fuel) != OutOfFuel
  {
    hide Clashes;
    SortAllConflictIff(st, names, |names|, fuel);
    BeforeOnlyHonoured(st, names, fuel);
    assert names[..|names|] == names;
  }

  // ---------------------------------------------------------------- requests in both directions

  /** `x` is asked to run before `b`, by itself or by `b`. */
  predicate Asked(o: State, b: Name, x: Name)
    requires Fits(o)
  {
    b in o.before && x in o.before && (o.after[b] == x || o.before[x] == b)
  }

  /** No callback is asked to run behind two others, or behind itself. */
  ghost predicate OneAtMost(o: State) {
    && Fits(o)
    && "" !in o.before
    && (forall b, x, y :: Asked(o, b, x) && Asked(o, b, y) ==> x == y)
    && (forall b :: !Asked(o, b, b))
  }

  /** Requests are only mirrored, never lost. */
  ghost predicate Mirrored(o: State, st: State) {
    && Fits(o) && Fits(st) && st.before.Keys == o.before.Keys
    && Placed(st)
    && (forall x :: x in st.before && st.before[x] in st.before ==> Asked(o, st.before[x], x))
    && (forall b :: b in st.before && st.after[b] in st.before ==> Asked(o, b, st.after[b]))
    && (forall x :: x in o.before && o.before[x] != "" ==> st.before[x] == o.before[x])
    && (forall b :: b in o.before && o.after[b] in o.before ==> st.after[b] == o.after[b])
  }

  /** The order stays, and what a placed callback must follow, or any one once it must follow
      another. */
  ghost predicate GoesOn(st: State, r: State) {
    && Fits(st) && Fits(r) && r.before.Keys == st.before.Keys
    && (forall x :: x in st.sorted ==> x in r.sorted)
    && (forall x, y :: Precedes(st.sorted, x, y) ==> Precedes(r.sorted, x, y))
    && (forall b :: b in st.before && (b in st.sorted || st.after[b] in st.before) ==> r.after[b] == st.after[b])
  }

  ghost predicate BeforeMet(o: State, st: State, c: Name)
    requires Fits(o) && Fits(st) && st.before.Keys == o.before.Keys && c in o.before
  {
    var b := o.before[c];
    b in st.before ==> Precedes(st.sorted, c, b) || st.after[b] == c
  }

  ghost predicate AfterMet(st: State, c: Name)
    requires Fits(st) && c in st.before
  {
    st.after[c] in st.before ==> c in st.sorted && Precedes(st.sorted, st.after[c], c)
  }

  lemma Goes(a: State, b: State, c: State)
    requires GoesOn(a, b) && GoesOn(b, c)
    ensures GoesOn(a, c)
  {
    hide Precedes;
  }

  lemma Stands(st: State)
    requires Fits(st)
    ensures GoesOn(st, st)
  {
  }

  lemma StillMet(o: State, st: State, r: State, c: Name)
    requires Mirrored(o, st) && GoesOn(st, r) && c in o.before && BeforeMet(o, st, c)
    ensures BeforeMet(o, r, c)
  {
    hide Precedes;
  }

  lemma StillFollows(st: State, r: State, c: Name)
    requires GoesOn(st, r) && c in st.before && c in st.sorted && AfterMet(st, c)
    ensures AfterMet(r, c)
  {
    hide Precedes;
  }

  lemma Append(o: State, st: State, c: Name)
    requires Mirrored(o, st) && c in st.before && c !in st.sorted
    ensures var r := st.(sorted := st.sorted + [c]);
            Mirrored(o, r) && GoesOn(st, r) && forall x :: x in st.sorted ==> Precedes(r.sorted, x, c)
  {
    hide Precedes;
    PrecedesAppend(st.sorted, c);
  }

  lemma PutInFront(o: State, st: State, c: Name, at: nat)
    requires Mirrored(o, st) && c in st.before && c !in st.sorted && at < |st.sorted|
    ensures var r := st.(sorted := InsertAt(st.sorted, at, c));
            Mirrored(o, r) && GoesOn(st, r) && Precedes(r.sorted, c, st.sorted[at])
  {
    hide Precedes, InsertAt, Distinct;
    GrownInsert(st.sorted, at, c);
    var t := InsertAt(st.sorted, at, c);
    assert Distinct(t) && (forall x :: x in t <==> x in st.sorted || x == c)
        && forall x, y :: Precedes(st.sorted, x, y) ==> Precedes(t, x, y);
  }

  lemma MirrorsBefore(o: State, st: State, c: Name)
    requires OneAtMost(o) && Mirrored(o, st) && c in st.before
    requires st.before[c] in st.before && st.before[c] !in st.sorted
    ensures var r := st.(after := st.after[st.before[c] := c]); Mirrored(o, r) && GoesOn(st, r)
  {
    hide Precedes, Distinct;
    assert Asked(o, st.before[c], c);
  }

  lemma MirrorsAfter(o: State, st: State, c: Name)
    requires OneAtMost(o) && Mirrored(o, st) && c in st.before
    requires st.after[c] in st.before && st.before[st.after[c]] == ""
    ensures var r := st.(before := st.before[st.after[c] := c]); Mirrored(o, r) && GoesOn(st, r)
  {
    hide Precedes, Distinct;
    assert Asked(o, c, st.after[c]);
  }

  lemma PlaceBeforeMet(o: State, st: State, c: Name)
    requires OneAtMost(o) && Mirrored(o, st) && c in st.before
    ensures var r := PlaceBefore(st, c); r.Done? ==> Mirrored(o, r.st) && GoesOn(st, r.st) && BeforeMet(o, r.st, c)
  {
    hide Precedes, InsertAt, RIndex, Mirrored, GoesOn, OneAtMost;
    assert "" !in o.before && Fits(o) && Fits(st) && st.before.Keys == o.before.Keys && Placed(st)
        && (o.before[c] in o.before ==> st.before[c] == o.before[c])
        && (st.before[c] in st.before ==> st.before[c] != c) by { MirroredGives(o, st, c); }
    var b := st.before[c];
    Stands(st);
    if b in st.sorted {
      RIndexIn(st.sorted, b);
      if c !in st.sorted {
        PutInFront(o, st, c, RIndex(st.sorted, b));
      } else if RIndex(st.sorted, c) <= RIndex(st.sorted, b) {
        IndexPrecedes(st.sorted, c, b);
      }
    } else if b in st.before {
      MirrorsBefore(o, st, c);
    }
  }

  lemma MirroredGives(o: State, st: State, c: Name)
    requires OneAtMost(o) && Mirrored(o, st) && c in st.before
    ensures "" !in o.before && Fits(o) && Fits(st) && st.before.Keys == o.before.Keys && Placed(st)
    ensures o.before[c] in o.before ==> st.before[c] == o.before[c]
    ensures st.before[c] in st.before ==> st.before[c] != c
    ensures st.after[c] in st.before ==> st.after[c] != c
  {
  }

  lemma {:induction false} SortOneMet(o: State, st: State, c: Name, fuel: nat)
    requires OneAtMost(o) && Mirrored(o, st) && c in st.before
    ensures var r := SortOne(st, c, fuel);
            r.Done? ==> && Mirrored(o, r.st) && GoesOn(st, r.st) && c in r.st.sorted
                        && BeforeMet(o, r.st, c) && AfterMet(r.st, c)
    decreases fuel, 1
  {
    hide Precedes, PlaceBefore, PlaceAfter, Mirrored, GoesOn, OneAtMost, BeforeMet, AfterMet;
    MirroredGives(o, st, c);
    if fuel > 0 {
      var placed := PlaceBefore(st, c);
      if placed.Done? {
        PlaceBeforeMet(o, st, c);
        PlaceAfterMet(o, placed.st, c, fuel - 1);
        var followed := PlaceAfter(placed.st, c, fuel - 1);
        if followed.Done? {
          Goes(st, placed.st, followed.st);
          StillMet(o, placed.st, followed.st, c);
          if c !in followed.st.sorted {
            Append(o, followed.st, c);
            var r := Appended(followed.st, c);
            Goes(st, followed.st, r);
            StillMet(o, followed.st, r, c);
            NotYetFollows(followed.st, c);
          }
        }
      }
    }
  }

  lemma NotYetFollows(st: State, c: Name)
    requires Fits(st) && c in st.before && c !in st.sorted && AfterMet(st, c)
    ensures AfterMet(st.(sorted := st.sorted + [c]), c)
  {
  }

  lemma {:induction false} PlaceAfterMet(o: State, st: State, c: Name, fuel: nat)
    requires OneAtMost(o) && Mirrored(o, st) && c in st.before
    ensures var r := PlaceAfter(st, c, fuel);
            r.Done? ==> Mirrored(o, r.st) && GoesOn(st, r.st) && c in r.st.before && AfterMet(r.st, c)
    decreases fuel, 2
  {
    hide Precedes, RIndex, SortOne, Mirrored, GoesOn, OneAtMost, BeforeMet;
    MirroredGives(o, st, c);
    var a := st.after[c];
    Stands(st);
    if a in st.sorted {
      if c !in st.sorted {
        Append(o, st, c);
      } else if RIndex(st.sorted, c) >= RIndex(st.sorted, a) {
        IndexPrecedes(st.sorted, a, c);
      }
    } else if a in st.before {
      var asked := if st.before[a] == "" then st.(before := st.before[a := c]) else st;
      if st.before[a] == "" {
        MirrorsAfter(o, st, c);
      }
      SortOneMet(o, asked, a, fuel);
      var first := SortOne(asked, a, fuel);
      if first.Done? {
        Goes(st, asked, first.st);
        SortOneMet(o, first.st, c, fuel);
        var r := SortOne(first.st, c, fuel);
        if r.Done? {
          Goes(st, first.st, r.st);
        }
      }
    }
  }

  lemma {:induction false} SortAllMet(o: State, st: State, names: seq<Name>, fuel: nat)
    requires OneAtMost(o) && Mirrored(o, st) && forall c :: c in names ==> c in st.before
    ensures var r := SortAll(st, names, fuel);
            r.Done? ==> && Mirrored(o, r.st)
                        && (forall c :: c in names ==>
                             && c in r.st.before && BeforeMet(o, r.st, c)
                             && c in r.st.sorted && AfterMet(r.st, c))
  {
    hide Precedes, SortOne, GoesOn, OneAtMost, BeforeMet, AfterMet;
    if names != [] {
      var init, last := names[..|names| - 1], names[|names| - 1];
      assert names == init + [last];
      SortAllMet(o, st, init, fuel);
      var r := SortAll(st, init, fuel);
      if r.Done? {
        SortOneMet(o, r.st, last, fuel);
        var t := SortOne(r.st, last, fuel);
        if t.Done? {
          forall c | c in init ensures BeforeMet(o, t.st, c) && c in t.st.sorted && AfterMet(t.st, c) {
            StillMet(o, r.st, t.st, c);
            StillFollows(r.st, t.st, c);
            StillPlaced(r.st, t.st, c);
          }
        }
      }
    }
  }

  lemma StillPlaced(st: State, r: State, c: Name)
    requires GoesOn(st, r) && c in st.sorted
    ensures c in r.sorted
  {
  }

  /** Requests in both directions: if no callback is asked to run behind two others, a sort that
      succeeds honours every request. */
  lemma MixedHonoured(o: State, names: seq<Name>, fuel: nat)
    requires OneAtMost(o) && o.sorted == [] && (forall c :: c in names <==> c in o.before)
    requires SortAll(o, names, fuel).Done?
    ensures forall b, x :: Asked(o, b, x) ==> Precedes(SortAll(o, names, fuel).st.sorted, x, b)
  {
    hide Precedes, SortAll, OneAtMost;
    assert Mirrored(o, o) by { NothingPlaced(o); }
    SortAllMet(o, o, names, fuel);
    var r := SortAll(o, names, fuel).st;
    forall b, x | Asked(o, b, x) ensures Precedes(r.sorted, x, b) {
      assert b in names && x in names;
      assert AfterMet(r, b) && BeforeMet(o, r, x);
    }
  }

  lemma NothingPlaced(o: State)
    requires OneAtMost(o) && o.sorted == []
    ensures Mirrored(o, o)
  {
  }
}
