/** gorm/soft_delete.go and plugin/soft_delete/soft_delete.go: the rewrite that adds
    "the row is live" to the WHERE clause of a statement. */
module SoftDelete {
  import opened Options
  import opened SqlLogic
  import opened WhereClause
  import opened WhereShapes

  const FLAG_ACTIVED := 0

  /** The condition the ORM's own DeletedAt adds: equal to the zero value of the tag,
      or IS NULL without one. */
  function LiveByZeroValue(column: Column, zeroValue: Option<int>): Cond {
    Comparison(Eq(column, Scalar(if zeroValue.Some? then Val(zeroValue.value) else Null)))
  }

  /** The condition the plugin's flag field adds. */
  function LiveByFlag(column: Column, defaultIsNull: bool): Cond {
    Comparison(Eq(column, Scalar(if defaultIsNull then Null else Val(FLAG_ACTIVED))))
  }

  /** An entry of stmt.Clauses: a Where expression, or anything else. */
  datatype Clause = WhereClauseOf(exprs: seq<Cond>) | OtherClause

  const WHERE := "WHERE"
  const ENABLED := "soft_delete_enabled"

  /** The user's members, grouped when one of them is a lone Or. */
  function Grouped(es: seq<Cond>): seq<Cond> {
    if HasLoneOr(es) then [And(es).value] else es
  }

  function Rewritten(es: seq<Cond>, live: Cond): seq<Cond> { Grouped(es) + [live] }

  function Members(clauses: map<string, Clause>): seq<Cond> {
    if WHERE in clauses && clauses[WHERE].WhereClauseOf? then clauses[WHERE].exprs else []
  }

  function Modified(clauses: map<string, Clause>, unscoped: bool, live: Cond): map<string, Clause> {
    if ENABLED in clauses || unscoped then clauses
    else clauses[WHERE := WhereClauseOf(Rewritten(Members(clauses), live))][ENABLED := OtherClause]
  }

  /** What the added condition asks of a row. */
  lemma LiveMeans(column: Column, zeroValue: Option<int>, defaultIsNull: bool, w: World)
    ensures Meaning(LiveByZeroValue(column, zeroValue), w).True?
        <==> w.cell(column) == (if zeroValue.Some? then Val(zeroValue.value) else Null)
    ensures Meaning(LiveByFlag(column, defaultIsNull), w).True?
        <==> w.cell(column) == (if defaultIsNull then Null else Val(0))
  {
  }

  /** The rewritten clause means (user condition) AND (row is live), whenever writing the
      user's clause on its own would not move its members. */
  lemma RewriteMeansConjunction(es: seq<Cond>, live: Cond, w: World)
    requires WellFormedList(es) && live.Comparison?
    requires !NeedsSwap(Unwrapped(es))
    ensures WhereMeaning(Rewritten(es, live), w)
         == if es == [] then Meaning(live, w) else And3(WhereMeaning(es, w), Meaning(live, w))
  {
    if es == [] {
      assert Rewritten(es, live) == [live];
      OneAlternative(Items(Conjoined, [live], w));
    } else if HasLoneOr(es) {
      GroupedMeaning(es, live, w);
    } else {
      assert Rewritten(es, live) == es + [live];
      PlainMeaning(es, live, w);
    }
  }

  /** With a lone Or the members are grouped in the order they stand. */
  lemma GroupedMeaning(es: seq<Cond>, live: Cond, w: World)
    requires HasLoneOr(es) && live.Comparison?
    ensures Unwrapped(es) == es
    ensures WhereMeaning(Rewritten(es, live), w) == And3(ListMeaning(es, w), Meaning(live, w))
  {
    AndMeansItsList(es, w);
    var group := And(es).value;
    assert Rewritten(es, live) == [group, live];
    TwoConjuncts(group, live, w);
  }

  /** The text after the rewrite, read back, selects exactly the live rows of the user's
      condition. */
  lemma RewriteTextMeansConjunction(es: seq<Cond>, live: Cond, w: World)
    requires es != [] && WellFormedList(es) && live.Comparison?
    requires !NeedsSwap(Unwrapped(es))
    ensures ReadCondition(WhereText(Rewritten(es, live)), w)
         == Read(And3(WhereMeaning(es, w), Meaning(live, w)), [])
  {
    RewriteMeansConjunction(es, live, w);
    WhereTextMeansTree(Rewritten(es, live), w);
  }

  /** When the user's clause would be reordered, the rewrite loses rows: a row on which
      the first member that is not a lone Or holds, and no lone Or does, is selected by
      the user's clause and rejected by the rewritten one, live or not. */
  lemma RewriteLosesRowsAfterSwap(es: seq<Cond>, live: Cond, w: World)
    requires WellFormedList(es) && live.Comparison?
    requires NeedsSwap(Unwrapped(es))
    requires var list := Unwrapped(es);
             && Meaning(list[FirstPlain(list)], w) == True
             && forall i :: 0 <= i < |list| && LoneOr(list[i]) ==> Meaning(list[i], w) == False
    ensures WhereMeaning(es, w) == True
    ensures WhereMeaning(Rewritten(es, live), w) == False
  {
    var list := Unwrapped(es);
    assert WellFormedList(list) by { if |es| == 1 { assert WellFormed(es[0]); } }
    SwappedInFirst(list, w);
    if es == list {
      GroupedMeaning(es, live, w);
    } else {
      assert es == [es[0]] && Rewritten(es, live) == [es[0], live];
      assert WellFormed(es[0]);
      GroupMeaning(es[0], w);
      TwoConjuncts(es[0], live, w);
    }
  }

  /** The condition is not idle: the family is inhabited for every pair of columns. */
  lemma RewriteLosesARow(a: Column, c: Column)
    requires a != c
    ensures var es := [OrConditions([Comparison(Eq(a, Scalar(Val(1))))]), Comparison(Eq(c, Scalar(Val(1))))];
            var w := World(k => if k == c then Val(1) else Val(0), (x, y) => false);
            forall live: Cond :: live.Comparison? ==>
              WhereMeaning(es, w) == True && WhereMeaning(Rewritten(es, live), w) == False
  {
    var isA, isC := Comparison(Eq(a, Scalar(Val(1)))), Comparison(Eq(c, Scalar(Val(1))));
    var es := [OrConditions([isA]), isC];
    var w := World(k => if k == c then Val(1) else Val(0), (x, y) => false);
    OrOfOne(isA, w);
    assert WellFormed(isA) && WellFormed(isC) && WellFormed(es[0]);
    assert FirstPlain(es) == 1;
    forall live: Cond | live.Comparison?
      ensures WhereMeaning(es, w) == True && WhereMeaning(Rewritten(es, live), w) == False
    {
      RewriteLosesRowsAfterSwap(es, live, w);
    }
  }

  ghost predicate MeansConjunction(es: seq<Cond>, live: Cond, w: World) {
    WhereMeaning(Rewritten(es, live), w) ==
    if es == [] then Meaning(live, w) else And3(WhereMeaning(es, w), Meaning(live, w))
  }

  /** The rewritten clause means the conjunction, whatever its members and the live condition ask
      for, exactly when writing the clause on its own does not move its members. */
  lemma RewriteExactIff(es: seq<Cond>)
    requires WellFormedList(es)
    ensures (forall fs, live: Cond, w :: SameClause(es, fs) && WellFormedList(fs) && live.Comparison? ==>
               MeansConjunction(fs, live, w)) <==> !NeedsSwap(Unwrapped(es))
  {
    hide Meaning, WellFormed, WhereMeaning, Reordered, Rewritten;
    if NeedsSwap(Unwrapped(es)) {
      assert WellFormedList(Unwrapped(es)) by { UnwrappedWellFormed(es); }
      var ms := SwappedStand(Unwrapped(es));
      var fs := WrapLike(es, ms);
      var live := Plain(true);
      PlainMeans(true);
      RewriteLosesRowsAfterSwap(fs, live, ROW);
      assert !MeansConjunction(fs, live, ROW);
    } else {
      forall fs, live: Cond, w | SameClause(es, fs) && WellFormedList(fs) && live.Comparison?
        ensures MeansConjunction(fs, live, w)
      {
        SameSwap(es, fs);
        RewriteMeansConjunction(fs, live, w);
      }
    }
  }

  /** The rewrite happens once: a second one, of this or of another soft-delete field,
      changes nothing, and an unscoped statement is left alone. */
  lemma RewriteHappensOnce(clauses: map<string, Clause>, unscoped: bool, first: Cond, second: Cond)
    ensures var once := Modified(clauses, unscoped, first);
            && Modified(once, unscoped, second) == once
            && (unscoped ==> once == clauses)
            && (!unscoped ==> ENABLED in once)
            && (ENABLED !in clauses && !unscoped ==>
                 Members(once) == Rewritten(Members(clauses), first) && WHERE in once && once[WHERE].WhereClauseOf?)
            && forall name :: name in clauses && name != WHERE ==>
                 name in once && (name != ENABLED ==> once[name] == clauses[name])
  {
  }

  class Statement {
    var clauses: map<string, Clause>
    const unscoped: bool

    constructor (unscoped: bool)
      ensures clauses == map[] && this.unscoped == unscoped
    {
      clauses := map[];
      this.unscoped := unscoped;
    }

    /** AddClause with a Where of the given members. */
    method AddWhere(es: seq<Cond>)
      modifies this
      ensures clauses == old(clauses)[WHERE := WhereClauseOf(old(Members(clauses)) + es)]
    {
      var merged := es;
      if WHERE in clauses && clauses[WHERE].WhereClauseOf? {
        merged := clauses[WHERE].exprs + es;
      }
      assert [] + es == es;
      clauses := clauses[WHERE := WhereClauseOf(merged)];
    }

    /** SoftDeleteQueryClause.ModifyStatement for a field whose live rows satisfy `live`. */
    method ModifyStatement(live: Cond)
      modifies this
      ensures clauses == old(Modified(clauses, unscoped, live))
      ensures unscoped || old(ENABLED in clauses) ==> clauses == old(clauses)
      ensures !unscoped && old(ENABLED !in clauses) ==>
                ENABLED in clauses && Members(clauses) == Grouped(old(Members(clauses))) + [live]
    {
      if ENABLED in clauses || unscoped {
        return;
      }
      if WHERE in clauses && clauses[WHERE].WhereClauseOf? && |clauses[WHERE].exprs| >= 1 {
        var es := clauses[WHERE].exprs;
        for i := 0 to |es|
          invariant clauses == old(clauses)
          invariant forall j :: 0 <= j < i ==> !LoneOr(es[j])
        {
          if es[i].OrConditions? && |es[i].exprs| == 1 {
            assert HasLoneOr(es);
            clauses := clauses[WHERE := WhereClauseOf([And(es).value])];
            break;
          }
        }
      }
      AddWhere([live]);
      clauses := clauses[ENABLED := OtherClause];
    }
  }
}
