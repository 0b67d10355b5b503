/** What gorm/callbacks/preload.go leaves in a relation field, and the key strings of
    gorm/utils/utils.go, written out. */
module PreloadResults {
  import opened Decimals
  import opened Preload

  /** A key is unset if all its values are the zero of their type. */
  lemma UnsetIff(k: Key)
    ensures Unset(k) <==> forall v :: v in k ==> v == Uint(0) || v == Num(0) || v == Text("")
  {
    forall i | 0 <= i < |k| ensures k[i] in k {
    }
  }

  /** The values' texts, joined by underscores; a signed 0 is "nil", an unsigned one "0". */
  lemma KeyWritten(v: Val, w: Val, rest: Key, s: string)
    ensures ToStringKey([]) == "" && ToStringKey([v]) == ValString(v)
    ensures ToStringKey([v, w] + rest) == ValString(v) + "_" + ToStringKey([w] + rest)
    ensures ValString(Text(s)) == s && ValString(Uint(0)) == "0" && ValString(Num(0)) == "nil"
    ensures ValString(Num(12)) == ValString(Uint(12)) == "12" && ValString(Num(-7)) == "-7"
  {
    assert ([v, w] + rest)[1..] == [w] + rest;
    assert Digits(1) == "1" && Digits(12) == Digits(1) + "2" && Digits(7) == "7";
  }

  /** Directly, a parent and a child meet once exactly if their keys are equal and some value in
      them is not zero. */
  lemma MeetIff(p: Parent, c: Child)
    ensures Meets(p, NoTable, c) == if c.key == p.key && !Unset(p.key) then 1 else 0
  {
  }

  /** The children of a parent stand in the order of the table, each row as often as the two meet:
      `at` says which rows. */
  lemma {:induction false} NestedLoopInOrder(p: Parent, join: JoinTable, table: seq<Child>) returns (at: seq<nat>)
    ensures RowsAt(at, p, join, table)
  {
    if table == [] {
      at := [];
    } else {
      var rest, c := table[..|table| - 1], table[|table| - 1];
      var before := NestedLoopInOrder(p, join, rest);
      var n := Meets(p, join, c);
      at := before + seq<nat>(n, _ => |rest|);
      assert table == rest + [c];
      OneMoreRow(before, p, join, rest, c);
    }
  }

  ghost predicate RowsAt(at: seq<nat>, p: Parent, join: JoinTable, table: seq<Child>) {
    && Points(at, NestedLoop(p, join, table), table)
    && (forall i :: 0 <= i < |table| ==> multiset(at)[i] == Meets(p, join, table[i]))
  }

  ghost predicate Points(at: seq<nat>, loop: seq<Child>, table: seq<Child>) {
    && |at| == |loop|
    && (forall k :: 0 <= k < |at| ==> at[k] < |table| && loop[k] == table[at[k]])
    && (forall k, l :: 0 <= k < l < |at| ==> at[k] <= at[l])
  }

  lemma PointsMore(at: seq<nat>, loop: seq<Child>, rest: seq<Child>, c: Child, n: nat)
    requires Points(at, loop, rest)
    ensures Points(at + seq<nat>(n, _ => |rest|), loop + Copies(c, n), rest + [c])
  {
  }

  lemma OneMoreRow(before: seq<nat>, p: Parent, join: JoinTable, rest: seq<Child>, c: Child)
    requires RowsAt(before, p, join, rest)
    ensures RowsAt(before + seq<nat>(Meets(p, join, c), _ => |rest|), p, join, rest + [c])
  {
    hide Meets, Points, Copies;
    var n, table := Meets(p, join, c), rest + [c];
    var more := seq<nat>(n, _ => |rest|);
    assert table[..|rest|] == rest;
    PointsMore(before, NestedLoop(p, join, rest), rest, c, n);
    forall i | 0 <= i < |table| ensures multiset(before + more)[i] == Meets(p, join, table[i]) {
      CountSame(n, |rest|, i);
      assert multiset(before + more) == multiset(before) + multiset(more);
      if i == |rest| {
        NotYet(before, NestedLoop(p, join, rest), rest);
      }
    }
  }

  lemma {:induction false} CountSame(n: nat, x: nat, i: nat)
    ensures multiset(seq<nat>(n, _ => x))[i] == if i == x then n else 0
  {
    if n > 0 {
      CountSame(n - 1, x, i);
      var s: seq<nat> := seq(n, _ => x);
      assert s == seq<nat>(n - 1, _ => x) + [x];
    }
  }

  lemma NotYet(at: seq<nat>, loop: seq<Child>, table: seq<Child>)
    requires Points(at, loop, table)
    ensures multiset(at)[|table|] == 0
  {
  }
}
