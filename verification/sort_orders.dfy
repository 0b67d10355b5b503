/** Where the sort of gorm/callbacks.go puts a callback: in the order of registration, right in
    front of the callback it asks to run before, or behind all. */
module SortOrders {
  import opened SortCallbacks

  /** The callback asks for nothing. */
  ghost predicate AsksNothing(st: State, c: Name) {
    c in st.before && c in st.after && st.before[c] == "" && st.after[c] == ""
  }

  /** Without requests the callbacks run in the order in which they were registered. */
  lemma {:induction false} NoRequestsKeepOrder(st: State, names: seq<Name>, fuel: nat)
    requires Fits(st) && st.sorted == [] && Distinct(names) && fuel > 0
    requires (forall c :: c in names ==> c in st.before) && forall c :: c in names ==> AsksNothing(st, c)
    ensures SortAll(st, names, fuel) == Done(st.(sorted := names))
  {
    hide Distinct;
    if names != [] {
      var init, c := names[..|names| - 1], names[|names| - 1];
      assert names == init + [c];
      FrontDistinct(names);
      NoRequestsKeepOrder(st, init, fuel);
      assert AsksNothing(st, c);
      OneMore(st.(sorted := init), c, fuel);
    }
  }

  lemma FrontDistinct(names: seq<Name>)
    requires Distinct(names) && names != []
    ensures Distinct(names[..|names| - 1]) && names[|names| - 1] !in names[..|names| - 1]
  {
  }

  lemma OneMore(st: State, c: Name, fuel: nat)
    requires Fits(st) && AsksNothing(st, c) && c !in st.sorted && fuel > 0
    ensures SortOne(st, c, fuel) == Done(st.(sorted := st.sorted + [c]))
  {
    assert PlaceBefore(st, c) == Done(st);
    assert PlaceAfter(st, c, fuel - 1) == Done(st);
  }

  /** A callback that asks to run before one registered earlier stands right in front of it. */
  lemma RightInFront(st: State, names: seq<Name>, c: Name, i: nat, fuel: nat)
    requires Fits(st) && st.sorted == [] && Distinct(names + [c]) && i < |names| && fuel > 0
    requires (forall d :: d in names ==> d in st.before) && forall d :: d in names ==> AsksNothing(st, d)
    requires c in st.before && st.before[c] == names[i] != "" && st.after[c] == ""
    ensures SortAll(st, names + [c], fuel) == Done(st.(sorted := names[..i] + [c] + names[i..]))
  {
    var all := names + [c];
    assert all[..|names|] == names;
    forall j, k | 0 <= j < k < |names| ensures names[j] != names[k] {
      assert all[j] == names[j] && all[k] == names[k];
    }
    forall j | 0 <= j < |names| ensures names[j] != c {
      assert all[j] == names[j] && all[|names|] == c;
    }
    NoRequestsKeepOrder(st, names, fuel);
    var sorted := st.(sorted := names);
    assert RIndex(names, names[i]) == i;
    var placed := st.(sorted := names[..i] + [c] + names[i..]);
    assert names[i] in sorted.sorted && c !in sorted.sorted;
    assert PlaceBefore(sorted, c) == Done(placed);
    assert PlaceAfter(placed, c, fuel - 1) == Done(placed);
    assert c in placed.sorted;
    assert SortOne(sorted, c, fuel) == Done(placed);
  }

  /** One that asks to run after one registered earlier stands behind all. */
  lemma BehindAll(st: State, names: seq<Name>, c: Name, i: nat, fuel: nat)
    requires Fits(st) && st.sorted == [] && Distinct(names + [c]) && i < |names| && fuel > 0
    requires (forall d :: d in names ==> d in st.before) && forall d :: d in names ==> AsksNothing(st, d)
    requires c in st.before && st.before[c] == "" && st.after[c] == names[i] != ""
    ensures SortAll(st, names + [c], fuel) == Done(st.(sorted := names + [c]))
  {
    var all := names + [c];
    assert all[..|names|] == names;
    forall j, k | 0 <= j < k < |names| ensures names[j] != names[k] {
      assert all[j] == names[j] && all[k] == names[k];
    }
    forall j | 0 <= j < |names| ensures names[j] != c {
      assert all[j] == names[j] && all[|names|] == c;
    }
    NoRequestsKeepOrder(st, names, fuel);
    var sorted := st.(sorted := names);
    assert PlaceBefore(sorted, c) == Done(sorted);
    assert PlaceAfter(sorted, c, fuel - 1) == Done(st.(sorted := names + [c]));
  }

  /** Requests to run before or after callbacks that are not registered are ignored. */
  lemma UnknownIgnored(st: State, c: Name, fuel: nat)
    requires Fits(st) && c in st.before && c !in st.sorted && fuel > 0 && "" !in st.before
    requires st.before[c] !in st.before && st.before[c] !in st.sorted
    requires st.after[c] !in st.before && st.after[c] !in st.sorted
    ensures SortOne(st, c, fuel) == Done(st.(sorted := st.sorted + [c]))
  {
    assert PlaceBefore(st, c) == Done(st);
    assert PlaceAfter(st, c, fuel - 1) == Done(st);
  }

  // ---------------------------------------------------------------- what is left to sort

  /** The callbacks left to sort stand in the order of registration: `at` says where. */
  lemma {:induction false} KeptInOrder(rs: seq<Registration>, removed: set<Name>) returns (at: seq<nat>)
    ensures |at| == |Kept(rs, removed)|
    ensures forall k :: 0 <= k < |at| ==> at[k] < |rs| && Kept(rs, removed)[k] == rs[at[k]]
    ensures forall k, l :: 0 <= k < l < |at| ==> at[k] < at[l]
    ensures forall i :: 0 <= i < |rs| && rs[i].matches && rs[i].name !in removed ==> i in at
  {
    if rs == [] {
      at := [];
    } else {
      var rest, last := rs[..|rs| - 1], rs[|rs| - 1];
      var before := KeptInOrder(rest, removed);
      at := before + if last.matches && last.name !in removed then [|rest|] else [];
      forall i | 0 <= i < |rs| && rs[i].matches && rs[i].name !in removed ensures i in at {
        if i < |rest| {
          assert rest[i] == rs[i] && i in before;
        } else {
          assert at[|at| - 1] == i;
        }
      }
    }
  }

  /** A name stands for the handler of its own callback and no other. */
  lemma OwnHandler(cs: seq<Callback>, i: nat, handler: int)
    requires i < |cs| && Distinct(NamesOf(cs))
    ensures Handles(cs, cs[i].name, handler) <==> handler == cs[i].handler
  {
    var c := cs[i];
    assert c in cs;
    if Handles(cs, c.name, handler) {
      var d :| d in cs && d.name == c.name && d.handler == handler;
      var j :| 0 <= j < |cs| && cs[j] == d;
      assert NamesOf(cs)[i] == NamesOf(cs)[j];
    }
  }
}
