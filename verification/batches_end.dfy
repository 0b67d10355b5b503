/** When FindInBatches of gorm/finisher_api.go comes to an end, for any conditions. Rows for which
    an alternative before the last holds are on every page; when they fill a page, paging by keys
    gets no further. */
module BatchesEnd {
  import opened Options
  import opened SqlLogic
  import opened WhereClause
  import opened FindInBatches

  /** The rows that every page selects. */
  ghost function Recurring(table: seq<Row>, es: seq<Cond>): seq<Row> {
    if table == [] then []
    else (if OnEveryPage(es, table[0]) then [table[0]] else []) + Recurring(table[1..], es)
  }

  function UpTo(rows: seq<Row>, last: int): seq<Row> {
    if rows == [] then []
    else (if rows[0].key <= last then [rows[0]] else []) + UpTo(rows[1..], last)
  }

  lemma {:induction false} UpToAppend(a: seq<Row>, b: seq<Row>, last: int)
    ensures UpTo(a + b, last) == UpTo(a, last) + UpTo(b, last)
  {
    if a == [] {
      assert a + b == b;
    } else {
      var head := if a[0].key <= last then [a[0]] else [];
      assert (a + b)[0] == a[0] && (a + b)[1..] == a[1..] + b;
      UpToAppend(a[1..], b, last);
      assert head + (UpTo(a[1..], last) + UpTo(b, last)) == head + UpTo(a[1..], last) + UpTo(b, last);
    }
  }

  lemma {:induction false} UpToAll(rows: seq<Row>, last: int)
    requires forall r <- rows :: r.key <= last
    ensures UpTo(rows, last) == rows
  {
    if rows != [] {
      UpToAll(rows[1..], last);
      assert rows == [rows[0]] + rows[1..];
    }
  }

  /** The conditions that later queries start from. */
  function Stored(c: Call): seq<Cond> { Built(c.es) }

  lemma StoredWellFormed(c: Call)
    requires WellFormedList(c.es)
    ensures WellFormedList(Stored(c))
  {
    BuiltKeepsMembers(c.es);
  }

  /** A later query selects the recurring rows, and up to the last key no others. */
  lemma {:induction false} LaterQuery(table: seq<Row>, es: seq<Cond>, pk: Column, last: int)
    requires Keyed(table, pk) && WellFormedList(es)
    ensures |Matching(table, After(es, pk, last))| >= |Recurring(table, es)|
    ensures |UpTo(Matching(table, After(es, pk, last)), last)| <= |Recurring(table, es)|
  {
    hide Selected, OnEveryPage, After, WellFormed;
    if table != [] {
      LaterQuery(table[1..], es, pk, last);
      MergedSelects(es, pk, last, table[0]);
      var head := if Selected(After(es, pk, last), table[0]) then [table[0]] else [];
      UpToAppend(head, Matching(table[1..], After(es, pk, last)), last);
      assert UpTo(head, last) == if head != [] && head[0].key <= last then head else [];
    }
  }

  // ---------------------------------------------------------------- pages without a limit

  lemma {:induction false} SizeStays(c: Call, i: nat)
    requires Total(c.user) <= 0
    ensures QueryAt(c, i).size == c.batchSize
  {
    hide Answer;
    if i > 0 {
      SizeStays(c, i - 1);
    }
  }

  /** A page behind the first is the front of what a query without an offset selects. */
  lemma LaterPage(c: Call, i: nat)
    requires Total(c.user) <= 0 && c.batchSize > 0 && i > 0
    ensures var all := Matching(c.table, After(Stored(c), c.pk, LastKey(PageAt(c, i - 1))));
            PageAt(c, i) == if |all| <= c.batchSize then all else all[..c.batchSize]
  {
    hide Answer, QueryAt, Matching;
    SizeStays(c, i);
    NextQuery(c, i - 1);
    AnswerIs(c, QueryAt(c, i));
    assert OffsetOf(LaterLimit(c.user)) == 0;
  }

  lemma FirstPage(c: Call)
    requires Total(c.user) <= 0 && c.batchSize > 0
    ensures |PageAt(c, 0)| == if |RestOf(c)| < c.batchSize then |RestOf(c)| else c.batchSize
    ensures forall r :: r in PageAt(c, 0) ==> r in Matching(c.table, c.es)
  {
    hide Answer, Matching;
    AnswerIs(c, QueryAt(c, 0));
  }

  /** A full page moves on if it cannot be filled with recurring rows. */
  lemma MovesOn(c: Call, i: nat)
    requires Keyed(c.table, c.pk) && WellFormedList(c.es) && Total(c.user) <= 0 && i > 0
    requires |Recurring(c.table, Stored(c))| < c.batchSize && !Short(c, i)
    ensures LastKey(PageAt(c, i)) > LastKey(PageAt(c, i - 1))
  {
    hide Answer, QueryAt, Matching, Recurring, After, UpTo, WellFormed;
    var last, page := LastKey(PageAt(c, i - 1)), PageAt(c, i);
    var all := Matching(c.table, After(Stored(c), c.pk, last));
    LaterPage(c, i);
    SizeStays(c, i);
    StoredWellFormed(c);
    LaterQuery(c.table, Stored(c), c.pk, last);
    MatchingIncreasing(c.table, After(Stored(c), c.pk, last));
    if LastKey(page) <= last {
      assert page + all[|page|..] == all;
      UpToAll(page, last);
      UpToAppend(page, all[|page|..], last);
    }
  }

  lemma InTable(c: Call, i: nat) returns (j: nat)
    requires Keyed(c.table, c.pk) && Total(c.user) <= 0 && c.batchSize > 0 && !Short(c, i)
    ensures j < |c.table| && c.table[j].key == LastKey(PageAt(c, i))
  {
    hide Answer, QueryAt, Matching, After;
    SizeStays(c, i);
    var page := PageAt(c, i);
    var last := page[|page| - 1];
    if i == 0 {
      FirstPage(c);
      MatchingIncreasing(c.table, c.es);
    } else {
      LaterPage(c, i);
      MatchingIncreasing(c.table, After(Stored(c), c.pk, LastKey(PageAt(c, i - 1))));
    }
    assert last in c.table;
    j :| 0 <= j < |c.table| && c.table[j] == last;
  }

  /** So after `i` full pages at least `i` rows of the table are behind. */
  lemma {:induction false} Behind(c: Call, i: nat) returns (j: nat)
    requires Keyed(c.table, c.pk) && WellFormedList(c.es) && Total(c.user) <= 0
    requires |Recurring(c.table, Stored(c))| < c.batchSize && forall k: nat :: k <= i ==> !Short(c, k)
    ensures i <= j < |c.table| && c.table[j].key == LastKey(PageAt(c, i))
  {
    hide Recurring, Short, PageAt, WellFormed, Keyed;
    j := InTable(c, i);
    if i > 0 {
      var k := Behind(c, i - 1);
      MovesOn(c, i);
      if j <= k {
        InKeyOrder(c.table, c.pk, j, k);
      }
    }
  }

  lemma InKeyOrder(table: seq<Row>, pk: Column, j: nat, k: nat)
    requires Keyed(table, pk) && j <= k < |table|
    ensures table[j].key <= table[k].key
  {
  }

  /** If recurring rows fill a page, and the first is full, every page is. */
  lemma NeverShort(c: Call, i: nat)
    requires Keyed(c.table, c.pk) && WellFormedList(c.es) && Total(c.user) <= 0 && c.batchSize > 0
    requires |RestOf(c)| >= c.batchSize && |Recurring(c.table, Stored(c))| >= c.batchSize
    ensures !Short(c, i)
  {
    hide Answer, QueryAt, Matching, Recurring, RestOf, WellFormed;
    SizeStays(c, i);
    if i == 0 {
      FirstPage(c);
    } else {
      LaterPage(c, i);
      StoredWellFormed(c);
      LaterQuery(c.table, Stored(c), c.pk, LastKey(PageAt(c, i - 1)));
    }
  }

  /** A limit is reached: each page delivers at least one row. */
  lemma LimitEnds(c: Call, f: Fate)
    requires c.batchSize > 0 && Total(c.user) > 0
    ensures Ends(c, f)
  {
    hide QueryAt, Answer, Stops;
    var n := Total(c.user);
    if !Ends(c, f) {
      assert GoesOn(c, f, n);
      RunStands(c, f, n);
    }
  }

  // ---------------------------------------------------------------- main results

  /** FindInBatches comes to an end if and only if there is a limit, or the first page is not
      full, or the rows that every page selects do not fill a page, or a turn fails. */
  lemma EndsIff(c: Call, f: Fate)
    requires Keyed(c.table, c.pk) && WellFormedList(c.es) && c.batchSize > 0
    ensures Ends(c, f) <==>
            || Total(c.user) > 0
            || |RestOf(c)| < c.batchSize
            || |Recurring(c.table, Stored(c))| < c.batchSize
            || exists i: nat :: Fails(c, f, i)
  {
    hide QueryAt, Answer, Fails, Short, Recurring, RestOf, Keyed, WellFormed;
    if Total(c.user) > 0 {
      LimitEnds(c, f);
    } else if |RestOf(c)| < c.batchSize {
      ShortFirst(c);
      assert Stops(c, f, 0);
    } else if |Recurring(c.table, Stored(c))| < c.batchSize {
      if !Ends(c, f) {
        forall k: nat | k <= |c.table| ensures !Short(c, k) {
          assert !Stops(c, f, k);
        }
        var j := Behind(c, |c.table|);
      }
    } else if i: nat :| Fails(c, f, i) {
      assert Stops(c, f, i);
    } else {
      forall i: nat ensures !Stops(c, f, i) {
        NeverShort(c, i);
      }
    }
  }

  lemma ShortFirst(c: Call)
    requires Total(c.user) <= 0 && c.batchSize > 0 && |RestOf(c)| < c.batchSize
    ensures Short(c, 0)
  {
    hide Answer;
    FirstPage(c);
  }

  /** With conditions joined by AND no row recurs, so it always ends. */
  lemma AndOnlyEnds(c: Call, f: Fate)
    requires Keyed(c.table, c.pk) && AndOnly(c.es) && c.batchSize > 0
    ensures Ends(c, f)
  {
    hide Keyed, Recurring;
    EndsIff(c, f);
    NoneRecurs(c.table, c.es, c.pk);
  }

  lemma {:induction false} NoneRecurs(table: seq<Row>, es: seq<Cond>, pk: Column)
    requires Keyed(table, pk) && AndOnly(es)
    ensures Recurring(table, Built(es)) == []
  {
    hide Selected, OnEveryPage, AndOnly, After, Built;
    if table != [] {
      NoneRecurs(table[1..], es, pk);
      var row := table[0];
      SelectedAfter(es, pk, row.key, row);
      AndOnlyWellFormed(es);
      PageSelects(es, pk, row.key, row);
    }
  }

  lemma AndOnlyWellFormed(es: seq<Cond>)
    requires AndOnly(es)
    ensures WellFormedList(es)
  {
  }

  /** With a lone Or it need not: when the first alternative holds for all rows, and they fill a
      page, they are delivered again and again. */
  lemma LoneOrNeverEnds(c: Call, f: Fate)
    requires Keyed(c.table, c.pk) && WellFormedList(c.es) && c.user.None? && 0 < c.batchSize <= |c.table|
    requires c.es != [] && !OpensWithOr(c.es[0]) && exists i :: 0 < i < |c.es| && LoneOr(c.es[i])
    requires forall r <- c.table :: r.key != 0 && FirstAlternative(Items(Conjoined, c.es, r.world)) == True
    requires (forall i: nat :: !f.queryFails(i)) && forall i: nat, page :: !f.fcFails(page, i)
    ensures !Ends(c, f)
  {
    hide Recurring, Keyed, OpensWithOr, WellFormed, FirstAlternative, Matching, QueryAt, Answer, LoneOr;
    AllRecur(c.table, c.es, c.pk);
    assert RestOf(c) == c.table;
    forall i: nat ensures !Fails(c, f, i) {
      NeverShort(c, i);
      var j := InTable(c, i);
      assert c.table[j] in c.table;
    }
    EndsIff(c, f);
  }

  lemma {:induction false} AllRecur(table: seq<Row>, es: seq<Cond>, pk: Column)
    requires Keyed(table, pk) && WellFormedList(es)
    requires es != [] && !OpensWithOr(es[0]) && exists i :: 0 < i < |es| && LoneOr(es[i])
    requires forall r <- table :: FirstAlternative(Items(Conjoined, es, r.world)) == True
    ensures Recurring(table, es) == table && Matching(table, es) == table
  {
    hide OnEveryPage, OpensWithOr, WellFormed, FirstAlternative, Selected, After, LoneOr;
    if table != [] {
      AllRecur(table[1..], es, pk);
      var row := table[0];
      LoneOrRepeatsRows(es, pk, row.key, row);
      PageSelects(es, pk, row.key, row);
      FirstSelects(es, row);
      assert table == [row] + table[1..];
    }
  }

  lemma FirstSelects(es: seq<Cond>, row: Row)
    requires WellFormedList(es) && es != [] && !OpensWithOr(es[0]) && |es| > 1
    requires FirstAlternative(Items(Conjoined, es, row.world)) == True
    ensures Selected(es, row)
  {
    hide OpensWithOr, WellFormed, FirstAlternative, Meaning, ReadCondition, WhereText;
    NoSwapKeepsOrder(es);
    WhereTextMeansTree(es, row.world);
    Alternatives(Items(Conjoined, es, row.world));
  }
}
