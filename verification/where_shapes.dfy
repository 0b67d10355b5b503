/** Exact conditions for clauses of gorm/clause/where.go: which claims hold of all members of
    a list's shape. Two lists have the same shape when they hold the same kinds of members with
    the same number of members each; what the members ask for is up to the caller. */
module WhereShapes {
  import opened SqlLogic
  import opened WhereClause

  predicate SameKind(a: Cond, b: Cond) {
    match a
    case Comparison(_) => b.Comparison?
    case AndConditions(es) => b.AndConditions? && |b.exprs| == |es|
    case OrConditions(es) => b.OrConditions? && |b.exprs| == |es|
    case NotConditions(es) => b.NotConditions? && |b.exprs| == |es|
  }

  predicate SameShape(es: seq<Cond>, fs: seq<Cond>) {
    |es| == |fs| && forall i :: 0 <= i < |es| ==> SameKind(es[i], fs[i])
  }

  /** Clauses of the same shape, down to the members of a sole And group. */
  predicate SameClause(es: seq<Cond>, fs: seq<Cond>) {
    SameShape(es, fs) && SameShape(Unwrapped(es), Unwrapped(fs))
  }

  // ---------------------------------------------------------------- members of any truth

  const ROW := World(c => Val(1), (x, y) => false)

  /** True of ROW or not, as asked. */
  function Plain(truth: bool): Cond { Comparison(Eq("c", Scalar(Val(if truth then 1 else 0)))) }

  function Repeated(e: Cond, n: nat): seq<Cond> { seq(n, _ => e) }

  /** A member of the kind of `e` that is true of ROW or false, as asked. */
  function Stand(e: Cond, truth: bool): Cond {
    match e
    case Comparison(_) => Plain(truth)
    case AndConditions(es) => AndConditions(Repeated(Plain(truth), |es|))
    case OrConditions(es) => OrConditions(Repeated(Plain(truth), |es|))
    case NotConditions(es) => NotConditions(Repeated(Plain(!truth), |es|))
  }

  function StandAll(es: seq<Cond>, truth: nat -> bool): (fs: seq<Cond>)
    ensures |fs| == |es|
  {
    seq(|es|, i requires 0 <= i < |es| => Stand(es[i], truth(i)))
  }

  lemma {:induction false} AllOrAnySame(ts: seq<Truth>, t: Truth)
    requires ts != [] && t != Unknown && forall i :: 0 <= i < |ts| ==> ts[i] == t
    ensures AllOf(ts) == t && AnyOf(ts) == t
  {
    if |ts| == 1 {
      assert ts[1..] == [];
    } else {
      AllOrAnySame(ts[1..], t);
    }
  }

  lemma PlainMeans(truth: bool)
    ensures Meaning(Plain(truth), ROW) == Definite(truth) && WellFormed(Plain(truth)) && Plain(truth).Comparison?
    ensures !EmptyList(Plain(truth).leaf)
  {
  }

  lemma StandMeans(e: Cond, truth: bool)
    requires WellFormed(e)
    ensures Meaning(Stand(e, truth), ROW) == Definite(truth) && SameKind(e, Stand(e, truth))
    ensures WellFormed(Stand(e, truth))
  {
    hide Plain;
    PlainMeans(truth);
    PlainMeans(!truth);
    match e
    case Comparison(_) =>
    case AndConditions(es) => StandAnd(truth, |es|);
    case OrConditions(es) => StandOr(truth, |es|);
    case NotConditions(es) => StandNot(truth, |es|);
  }

  lemma StandAnd(truth: bool, n: nat)
    requires n > 0
    ensures var e := AndConditions(Repeated(Plain(truth), n)); WellFormed(e) && Meaning(e, ROW) == Definite(truth)
  {
    hide Plain;
    PlainMeans(truth);
    var fs := Repeated(Plain(truth), n);
    var items := seq(|fs|, i requires 0 <= i < |fs| => Item(LoneOr(fs[i]), Meaning(fs[i], ROW)));
    var ts := seq(|fs|, i requires 0 <= i < |fs| => Meaning(fs[i], ROW));
    AllJoinedByAnd(items, ts);
    AllOrAnySame(ts, Definite(truth));
  }

  lemma StandOr(truth: bool, n: nat)
    requires n > 0
    ensures var e := OrConditions(Repeated(Plain(truth), n)); WellFormed(e) && Meaning(e, ROW) == Definite(truth)
  {
    hide Plain;
    PlainMeans(truth);
    var fs := Repeated(Plain(truth), n);
    AllOrAnySame(seq(|fs|, i requires 0 <= i < |fs| => Meaning(fs[i], ROW)), Definite(truth));
  }

  lemma StandNot(truth: bool, n: nat)
    requires n > 0
    ensures var e := NotConditions(Repeated(Plain(!truth), n)); WellFormed(e) && Meaning(e, ROW) == Definite(truth)
  {
    hide Plain;
    PlainMeans(!truth);
    var fs := Repeated(Plain(!truth), n);
    assert fs[0].Comparison?;
    AllOrAnySame(seq(|fs|, i requires 0 <= i < |fs| => Not3(Meaning(fs[i], ROW))), Definite(truth));
  }

  lemma StandAllMeans(es: seq<Cond>, truth: nat -> bool)
    requires WellFormedList(es)
    ensures SameShape(es, StandAll(es, truth)) && WellFormedList(StandAll(es, truth))
    ensures forall i {:trigger StandAll(es, truth)[i]} :: 0 <= i < |es| ==>
              Meaning(StandAll(es, truth)[i], ROW) == Definite(truth(i))
  {
    forall i | 0 <= i < |es|
      ensures var f := StandAll(es, truth)[i];
              SameKind(es[i], f) && WellFormed(f) && Meaning(f, ROW) == Definite(truth(i))
    {
      StandMeans(es[i], truth(i));
    }
  }

  // ---------------------------------------------------------------- readings of a list

  /** Whether the first member would open an alternative does not matter. */
  predicate SameBehindFirst(a: seq<Item>, b: seq<Item>) {
    && |a| == |b|
    && (forall i :: 0 <= i < |a| ==> a[i].value == b[i].value)
    && (forall i :: 0 < i < |a| ==> a[i].opens == b[i].opens)
  }

  lemma {:induction false} SameFirst(a: seq<Item>, b: seq<Item>)
    requires SameBehindFirst(a, b) && a != []
    ensures FirstAlternative(a) == FirstAlternative(b) && AlternativeLength(a) == AlternativeLength(b)
  {
    if |a| > 1 {
      SameFirst(a[1..], b[1..]);
    }
  }

  lemma {:induction false} SameReading(a: seq<Item>, b: seq<Item>)
    requires SameBehindFirst(a, b)
    ensures AnyAlternative(a) == AnyAlternative(b)
    decreases |a|
  {
    if a != [] {
      SameFirst(a, b);
      var n := AlternativeLength(a);
      SameReading(a[n..], b[n..]);
    }
  }

  lemma {:induction false} TrueFirst(items: seq<Item>)
    requires items != []
    requires forall i :: 0 <= i < AlternativeLength(items) ==> items[i].value == True
    ensures FirstAlternative(items) == True
  {
    if |items| > 1 && !items[1].opens {
      forall i | 0 <= i < AlternativeLength(items[1..]) ensures items[1..][i].value == True {
        assert items[i + 1].value == True;
      }
      TrueFirst(items[1..]);
    }
  }

  lemma {:induction false} NoneOpensWithin(items: seq<Item>, k: nat)
    requires items != [] && 0 < k < AlternativeLength(items)
    ensures !items[k].opens
  {
    if k > 1 {
      NoneOpensWithin(items[1..], k - 1);
    }
  }

  /** An alternative, opened at `k`, of which all members are true. */
  lemma {:induction false} TrueAlternative(items: seq<Item>, k: nat)
    requires k < |items| && (k == 0 || items[k].opens)
    requires forall i :: k <= i < k + AlternativeLength(items[k..]) ==> items[i].value == True
    ensures AnyAlternative(items) == True
    decreases |items|
  {
    var n := AlternativeLength(items);
    if k == 0 {
      assert items[0..] == items;
      TrueFirst(items);
    } else {
      if k < n {
        NoneOpensWithin(items, k);
      }
      assert items[n..][k - n..] == items[k..];
      TrueAlternative(items[n..], k - n);
    }
  }

  // ---------------------------------------------------------------- Not

  /** Not of these members is the exact complement of the And group they make. */
  predicate NotIsExact(ms: seq<Cond>) {
    forall i :: 0 < i < |ms| && (HasComparison(ms) || ms[i].OrConditions?) ==> LoneOr(ms[i])
  }

  lemma ExactNot(ms: seq<Cond>, w: World)
    requires ms != [] && NotIsExact(ms)
    ensures Meaning(NotConditions(ms), w) == Not3(ListMeaning(ms, w))
  {
    var conjoined := Items(Conjoined, ms, w);
    if HasComparison(ms) {
      var denied := seq(|ms|, i requires 0 <= i < |ms| => Not3(Meaning(ms[i], w)));
      var disjoined := conjoined[0 := Item(true, conjoined[0].value)];
      SameReading(conjoined, disjoined);
      AllJoinedByOr(disjoined, Meanings(ms, w));
      DeMorgan(Meanings(ms, w), denied);
      assert Meaning(NotConditions(ms), w) == AllOf(denied);
    } else {
      var under := seq(|ms|, i requires 0 <= i < |ms| => Item(ms[i].OrConditions?, Meaning(ms[i], w)));
      assert SameBehindFirst(under, conjoined);
      SameReading(under, conjoined);
      assert Meaning(NotConditions(ms), w) == Not3(AnyAlternative(under));
    }
  }

  lemma {:induction false} OneFalse(ts: seq<Truth>, i: nat)
    requires i < |ts| && ts[i] == False
    ensures AllOf(ts) == False
  {
    if i > 0 {
      OneFalse(ts[1..], i - 1);
    }
  }

  /** So Not of such a list denies the And of it. */
  lemma NotDeniesAnd(es: seq<Cond>, w: World)
    requires es != [] && WellFormedList(es) && NotIsExact(Unwrapped(es))
    ensures Meaning(Not(es).value, w) == Not3(Meaning(And(es).value, w))
  {
    hide NotIsExact, ListMeaning;
    assert Unwrapped(es) != [] by { assert WellFormed(es[0]); }
    ExactNot(Unwrapped(es), w);
    AndMeansItsList(es, w);
    if Unwrapped(es) != es {
      assert And(es).value == es[0];
      GroupMeans(es[0], w);
    }
  }

  lemma GroupMeans(e: Cond, w: World)
    requires e.AndConditions?
    ensures Meaning(e, w) == ListMeaning(e.exprs, w)
  {
    assert Items(Conjoined, e.exprs, w) ==
           seq(|e.exprs|, i requires 0 <= i < |e.exprs| => Item(LoneOr(e.exprs[i]), Meaning(e.exprs[i], w)));
  }

  /** With a comparison among the members and one behind the first that is no lone Or: if that
      one alone is true, neither the group nor its Not is. */
  lemma InexactAmongComparisons(ms: seq<Cond>, i: nat)
    requires WellFormedList(ms) && HasComparison(ms) && 0 < i < |ms| && !LoneOr(ms[i])
    ensures var fs := StandAll(ms, j => j == i);
            Meaning(NotConditions(fs), ROW) == False && ListMeaning(fs, ROW) == False
  {
    var fs := StandAll(ms, j => j == i);
    StandAllMeans(ms, j => j == i);
    assert HasComparison(fs) by {
      var k :| 0 <= k < |ms| && ms[k].Comparison?;
      assert fs[k].Comparison?;
    }
    var denied := seq(|fs|, j requires 0 <= j < |fs| => Not3(Meaning(fs[j], ROW)));
    OneFalse(denied, i);
    assert Meaning(NotConditions(fs), ROW) == AllOf(denied);
    FalseAlternatives(Items(Conjoined, fs, ROW));
  }

  /** Without one, and with a wider Or group behind the first: it opens an alternative under Not
      but not in the group. */
  lemma InexactAmongGroups(ms: seq<Cond>, i: nat) returns (fs: seq<Cond>)
    requires WellFormedList(ms) && !HasComparison(ms) && 0 < i < |ms| && ms[i].OrConditions? && !LoneOr(ms[i])
    ensures SameShape(ms, fs) && WellFormedList(fs)
    ensures Meaning(NotConditions(fs), ROW) == False && ListMeaning(fs, ROW) == False
  {
    hide FirstAlternative, AnyAlternative, AlternativeLength, Meaning, WellFormed, Stand;
    var shape := UnderNotShape(ms);
    var n := AlternativeLength(shape[i..]);
    var truth := (j: nat) => i <= j < i + n;
    fs := StandAll(ms, truth);
    StandAllMeans(ms, truth);
    forall k | i < k < i + n ensures !ms[k].OrConditions? {
      NoneOpensWithin(shape[i..], k - i);
      assert shape[i..][k - i] == shape[k];
    }
    DeniedStand(ms, fs, i, n);
    UndeniedStand(ms, fs, i, n);
  }

  function UnderNotShape(ms: seq<Cond>): (r: seq<Item>)
    ensures |r| == |ms|
  {
    seq(|ms|, j requires 0 <= j < |ms| => Item(ms[j].OrConditions?, True))
  }

  /** The members `i` to `i + n` alone are true. */
  ghost predicate TrueWithin(fs: seq<Cond>, i: nat, n: nat) {
    forall j :: 0 <= j < |fs| ==> Meaning(fs[j], ROW) == Definite(i <= j < i + n)
  }

  lemma DeniedStand(ms: seq<Cond>, fs: seq<Cond>, i: nat, n: nat)
    requires SameShape(ms, fs) && !HasComparison(ms) && i < |ms| && ms[i].OrConditions?
    requires n == AlternativeLength(UnderNotShape(ms)[i..]) && TrueWithin(fs, i, n)
    ensures Meaning(NotConditions(fs), ROW) == False
  {
    assert forall k {:trigger fs[k]} :: 0 <= k < |fs| ==> SameKind(ms[k], fs[k]);
    var under := seq(|fs|, j requires 0 <= j < |fs| => Item(fs[j].OrConditions?, Meaning(fs[j], ROW)));
    assert Meaning(NotConditions(fs), ROW) == Not3(AnyAlternative(under));
    SameLength(UnderNotShape(ms)[i..], under[i..]);
    TrueAlternative(under, i);
  }

  lemma UndeniedStand(ms: seq<Cond>, fs: seq<Cond>, i: nat, n: nat)
    requires SameShape(ms, fs) && 0 < i < |ms| && !LoneOr(ms[i]) && TrueWithin(fs, i, n)
    requires forall k :: i < k < i + n && k < |ms| ==> !ms[k].OrConditions?
    ensures ListMeaning(fs, ROW) == False
  {
    hide AnyAlternative, Meaning;
    var items := Items(Conjoined, fs, ROW);
    forall k | 0 < k < |fs| && items[k].opens ensures items[k].value == False {
      assert SameKind(ms[k], fs[k]);
    }
    FalseAlternatives(items);
  }

  lemma {:induction false} SameLength(a: seq<Item>, b: seq<Item>)
    requires |a| == |b| && a != [] && forall i :: 0 <= i < |a| ==> a[i].opens == b[i].opens
    ensures AlternativeLength(a) == AlternativeLength(b)
  {
    if |a| > 1 {
      SameLength(a[1..], b[1..]);
    }
  }

  /** Not is the complement of the And group, whatever the members ask for, exactly when there
      is one member; or there is a comparison and every member behind the first is a lone Or; or
      there is none and every Or group behind the first is a lone one. */
  lemma NotIsComplementIff(ms: seq<Cond>)
    requires ms != [] && WellFormedList(ms)
    ensures (forall fs, w :: SameShape(ms, fs) && WellFormedList(fs) ==>
               Meaning(NotConditions(fs), w) == Not3(ListMeaning(fs, w))) <==> NotIsExact(ms)
  {
    if NotIsExact(ms) {
      forall fs, w | SameShape(ms, fs) && WellFormedList(fs)
        ensures Meaning(NotConditions(fs), w) == Not3(ListMeaning(fs, w))
      {
        ExactOfShape(ms, fs);
        ExactNot(fs, w);
      }
    } else {
      var i :| 0 < i < |ms| && (HasComparison(ms) || ms[i].OrConditions?) && !LoneOr(ms[i]);
      if HasComparison(ms) {
        InexactAmongComparisons(ms, i);
        StandAllMeans(ms, j => j == i);
        assert Meaning(NotConditions(StandAll(ms, j => j == i)), ROW)
            != Not3(ListMeaning(StandAll(ms, j => j == i), ROW));
      } else {
        var fs := InexactAmongGroups(ms, i);
        assert Meaning(NotConditions(fs), ROW) != Not3(ListMeaning(fs, ROW));
      }
    }
  }

  lemma ExactOfShape(ms: seq<Cond>, fs: seq<Cond>)
    requires SameShape(ms, fs) && NotIsExact(ms)
    ensures NotIsExact(fs)
  {
    forall i | 0 < i < |fs| && (HasComparison(fs) || fs[i].OrConditions?) ensures LoneOr(fs[i]) {
      assert SameKind(ms[i], fs[i]);
      if HasComparison(fs) {
        var k :| 0 <= k < |fs| && fs[k].Comparison?;
        assert SameKind(ms[k], fs[k]);
      }
    }
  }

  // ---------------------------------------------------------------- the swap

  lemma {:induction false} SamePlain(es: seq<Cond>, fs: seq<Cond>)
    requires SameShape(es, fs)
    ensures FirstPlain(es) == FirstPlain(fs)
  {
    if es != [] {
      assert SameKind(es[0], fs[0]);
      SamePlain(es[1..], fs[1..]);
    }
  }

  /** The member that is swapped to the front is true, all others are false. */
  lemma SwappedStand(es: seq<Cond>) returns (fs: seq<Cond>)
    requires WellFormedList(es) && NeedsSwap(es)
    ensures SameShape(es, fs) && WellFormedList(fs) && NeedsSwap(fs)
    ensures Meaning(fs[FirstPlain(fs)], ROW) == True
    ensures forall i :: 0 <= i < |fs| && LoneOr(fs[i]) ==> Meaning(fs[i], ROW) == False
  {
    var truth := (j: nat) => j == FirstPlain(es);
    fs := StandAll(es, truth);
    StandAllMeans(es, truth);
    SamePlain(es, fs);
  }

  /** Writing a list keeps what it means, whatever its members ask for, exactly when its members
      are not reordered. */
  lemma SwapKeepsMeaningIff(es: seq<Cond>)
    requires WellFormedList(es)
    ensures (forall fs, w :: SameShape(es, fs) && WellFormedList(fs) ==>
               ListMeaning(Reordered(fs), w) == ListMeaning(fs, w)) <==> !NeedsSwap(es)
  {
    if NeedsSwap(es) {
      var fs := SwappedStand(es);
      SwappedInFirst(fs, ROW);
      assert ListMeaning(Reordered(fs), ROW) != ListMeaning(fs, ROW);
    } else {
      forall fs, w | SameShape(es, fs) && WellFormedList(fs)
        ensures ListMeaning(Reordered(fs), w) == ListMeaning(fs, w)
      {
        SamePlain(es, fs);
      }
    }
  }

  /** A clause of the shape of `es` whose list is `ms`. */
  lemma WrapLike(es: seq<Cond>, ms: seq<Cond>) returns (fs: seq<Cond>)
    requires WellFormedList(es) && SameShape(Unwrapped(es), ms) && WellFormedList(ms)
    ensures SameClause(es, fs) && WellFormedList(fs) && Unwrapped(fs) == ms
  {
    hide Meaning;
    if |es| == 1 && es[0].AndConditions? {
      assert WellFormed(es[0]);
      fs := [AndConditions(ms)];
    } else {
      fs := ms;
      if |ms| == 1 {
        assert SameKind(es[0], ms[0]);
      }
    }
  }

  lemma SameSwap(es: seq<Cond>, fs: seq<Cond>)
    requires SameClause(es, fs)
    ensures NeedsSwap(Unwrapped(es)) <==> NeedsSwap(Unwrapped(fs))
  {
    SamePlain(Unwrapped(es), Unwrapped(fs));
  }

  lemma SameLoneOr(es: seq<Cond>, fs: seq<Cond>)
    requires SameShape(es, fs)
    ensures HasLoneOr(es) <==> HasLoneOr(fs)
  {
    if HasLoneOr(es) {
      var i :| 0 <= i < |es| && LoneOr(es[i]);
      assert SameKind(es[i], fs[i]);
    }
    if HasLoneOr(fs) {
      var i :| 0 <= i < |fs| && LoneOr(fs[i]);
      assert SameKind(es[i], fs[i]);
    }
  }
}
