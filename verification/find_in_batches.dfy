/** FindInBatches of gorm/finisher_api.go over a static table: the LIMIT arithmetic, the
    keyset condition merged into the WHERE clause, and what the batches add up to. */
module FindInBatches {
  import opened Options
  import opened SqlLogic
  import opened WhereClause
  import opened WhereShapes

  /** A row: its primary key and what conditions see of it. */
  datatype Row = Row(key: int, world: World)

  /** A table in primary-key order. */
  predicate Keyed(table: seq<Row>, pk: Column) {
    && (forall i :: 0 <= i < |table| ==> table[i].world.cell(pk) == Val(table[i].key))
    && forall i, j :: 0 <= i < j < |table| ==> table[i].key < table[j].key
  }

  // ---------------------------------------------------------------- gorm/clause/limit.go

  datatype Limit = Limit(limit: Option<int>, offset: int)

  /** MergeClause: `l` is added to the clause already there. */
  function MergeLimit(v: Option<Limit>, l: Limit): Limit {
    if v.None? then l else
    var earlier := v.value;
    Limit(
      if (l.limit.None? || l.limit.value == 0) && earlier.limit.Some? then earlier.limit else l.limit,
      if l.offset == 0 && earlier.offset > 0 then earlier.offset else if l.offset < 0 then 0 else l.offset)
  }

  /** A limit and an offset given one after the other are both kept; a later one replaces an
      earlier one, and a negative offset takes it back. */
  lemma LimitsMerge(n: int, m: int, o: int, q: int)
    requires n != 0 && m != 0 && o > 0 && q > 0
    ensures MergeLimit(Some(Limit(Some(n), 0)), Limit(None, o)) == Limit(Some(n), o)
    ensures MergeLimit(Some(Limit(None, o)), Limit(Some(n), 0)) == Limit(Some(n), o)
    ensures MergeLimit(Some(Limit(Some(n), o)), Limit(Some(m), 0)) == Limit(Some(m), o)
    ensures MergeLimit(Some(Limit(Some(n), o)), Limit(None, q)) == Limit(Some(n), q)
    ensures MergeLimit(Some(Limit(Some(n), o)), Limit(None, -1)) == Limit(Some(n), 0)
    ensures MergeLimit(Some(Limit(Some(n), o)), Limit(Some(0), 0)) == Limit(Some(n), o)
    ensures MergeLimit(None, Limit(Some(n), o)) == Limit(Some(n), o)
  {
  }

  function Skipped<T>(s: seq<T>, n: int): seq<T> {
    if n <= 0 then s else if n >= |s| then [] else s[n..]
  }

  function Capped<T>(s: seq<T>, n: Option<int>): seq<T> {
    if n.None? || n.value < 0 || n.value >= |s| then s else s[..n.value]
  }

  /** What the database returns for LIMIT and OFFSET. */
  function Page(rows: seq<Row>, l: Limit): seq<Row> {
    Capped(Skipped(rows, l.offset), l.limit)
  }

  /** The rows from the offset on, as many as the limit says or as there are; a negative limit is
      none, and so is no limit. */
  lemma PageIs(rows: seq<Row>, l: Limit)
    ensures var page := Page(rows, l); var from := if l.offset > 0 then l.offset else 0;
            && (from >= |rows| ==> page == [])
            && (from < |rows| ==>
                 && (l.limit.None? || l.limit.value < 0 || l.limit.value > |rows| - from ==> page == rows[from..])
                 && (l.limit.Some? && 0 <= l.limit.value <= |rows| - from ==> page == rows[from..from + l.limit.value]))
  {
  }

  // ---------------------------------------------------------------- the query

  /** The database keeps a row when the text of the clause, read back, is true of it. */
  predicate Selected(es: seq<Cond>, row: Row) {
    es == [] || ReadCondition(WhereText(es), row.world) == Read(True, [])
  }

  function Matching(table: seq<Row>, es: seq<Cond>): seq<Row> {
    if table == [] then []
    else (if Selected(es, table[0]) then [table[0]] else []) + Matching(table[1..], es)
  }

  lemma {:induction false} MatchingHas(table: seq<Row>, es: seq<Cond>, row: Row)
    ensures row in Matching(table, es) <==> row in table && Selected(es, row)
  {
    hide Selected;
    if table != [] {
      MatchingHas(table[1..], es, row);
      assert table == [table[0]] + table[1..];
    }
  }

  /** Conditions joined by AND only: no member is a lone Or. */
  predicate AndOnly(es: seq<Cond>) {
    WellFormedList(es) && !HasLoneOr(es)
  }

  function After(es: seq<Cond>, pk: Column, last: int): seq<Cond> {
    es + [Comparison(Gt(pk, Val(last)))]
  }

  /** The first page leaves the conditions as it wrote them; with the key condition merged into
      these, a page selects the user's rows above the key. */
  lemma SelectedAfter(es: seq<Cond>, pk: Column, last: int, row: Row)
    requires AndOnly(es) && row.world.cell(pk) == Val(row.key)
    ensures Selected(After(Built(es), pk, last), row) <==> Selected(es, row) && row.key > last
  {
    hide Built;
    BuiltKeepsText(es);
    BuiltKeepsMembers(es);
    SelectedMerged(Built(es), pk, last, row);
  }

  lemma SelectedMerged(es: seq<Cond>, pk: Column, last: int, row: Row)
    requires AndOnly(es) && !NeedsSwap(Unwrapped(es)) && row.world.cell(pk) == Val(row.key)
    ensures Selected(After(es, pk, last), row) <==> Selected(es, row) && row.key > last
  {
    var gt := Comparison(Gt(pk, Val(last)));
    var w := row.world;
    assert Meaning(gt, w) == Definite(row.key > last);
    WhereTextMeansTree(After(es, pk, last), w);
    if es == [] {
      assert After(es, pk, last) == [gt];
      OneAlternative(Items(Conjoined, [gt], w));
    } else {
      WhereTextMeansTree(es, w);
      PlainMeaning(es, gt, w);
    }
  }

  lemma {:induction false} MatchingAfter(table: seq<Row>, es: seq<Cond>, pk: Column, last: int)
    requires AndOnly(es) && Keyed(table, pk)
    ensures Matching(table, After(Built(es), pk, last)) == KeysAbove(Matching(table, es), last)
  {
    hide Built;
    if table != [] {
      SelectedAfter(es, pk, last, table[0]);
      MatchingAfter(table[1..], es, pk, last);
      var head := if Selected(es, table[0]) then [table[0]] else [];
      KeysAboveAppend(head, Matching(table[1..], es), last);
      assert KeysAbove(head, last) == if head != [] && head[0].key > last then head else [];
    }
  }

  function KeysAbove(rows: seq<Row>, last: int): seq<Row> {
    if rows == [] then []
    else (if rows[0].key > last then [rows[0]] else []) + KeysAbove(rows[1..], last)
  }

  lemma {:induction false} KeysAboveAppend(a: seq<Row>, b: seq<Row>, last: int)
    ensures KeysAbove(a + b, last) == KeysAbove(a, last) + KeysAbove(b, last)
  {
    if a == [] {
      assert a + b == b;
    } else {
      assert (a + b)[1..] == a[1..] + b;
      KeysAboveAppend(a[1..], b, last);
    }
  }

  predicate Increasing(rows: seq<Row>) {
    forall i, j :: 0 <= i < j < |rows| ==> rows[i].key < rows[j].key
  }

  lemma {:induction false} MatchingIncreasing(table: seq<Row>, es: seq<Cond>)
    requires Increasing(table)
    ensures Increasing(Matching(table, es))
    ensures forall r <- Matching(table, es) :: r in table
  {
    hide Selected, Increasing;
    if table == [] {
      assert Increasing([]) by { NoneIncreasing(); }
    } else {
      BehindFirst(table);
      MatchingIncreasing(table[1..], es);
      var rest := Matching(table[1..], es);
      assert forall r <- rest :: r in table[1..];
      PutInFront(table[0], rest);
      assert table == [table[0]] + table[1..] && [] + rest == rest;
    }
  }

  lemma NoneIncreasing()
    ensures Increasing([])
  {
  }

  lemma BehindFirst(table: seq<Row>)
    requires Increasing(table) && table != []
    ensures Increasing(table[1..]) && forall r <- table[1..] :: r.key > table[0].key
  {
    forall r | r in table[1..] ensures r.key > table[0].key {
      var j :| 0 <= j < |table[1..]| && table[1..][j] == r;
      assert table[j + 1] == r;
    }
  }

  lemma PutInFront(row: Row, rest: seq<Row>)
    requires Increasing(rest) && forall r <- rest :: r.key > row.key
    ensures Increasing([row] + rest)
  {
    var all := [row] + rest;
    forall i, j | 0 <= i < j < |all| ensures all[i].key < all[j].key {
      assert all[j] == rest[j - 1];
      if i > 0 {
        assert all[i] == rest[i - 1];
      }
    }
  }

  /** In key order the rows above the n-th key are the rows after the n-th. */
  lemma {:induction false} KeysAboveSuffix(rows: seq<Row>, n: nat)
    requires Increasing(rows) && 0 < n <= |rows|
    ensures KeysAbove(rows, rows[n - 1].key) == rows[n..]
  {
    var last := rows[n - 1].key;
    if n == 1 {
      KeysAboveAll(rows[1..], last);
      assert rows[0].key <= last;
    } else {
      KeysAboveSuffix(rows[1..], n - 1);
      assert rows[1..][n - 2] == rows[n - 1];
      assert rows[1..][n - 1..] == rows[n..];
    }
  }

  lemma {:induction false} KeysAboveAll(rows: seq<Row>, last: int)
    requires forall r <- rows :: r.key > last
    ensures KeysAbove(rows, last) == rows
  {
    if rows != [] {
      KeysAboveAll(rows[1..], last);
      assert rows == [rows[0]] + rows[1..];
    }
  }

  // ---------------------------------------------------------------- the result

  function Flat(batches: seq<seq<Row>>): seq<Row> {
    if batches == [] then [] else Flat(batches[..|batches| - 1]) + batches[|batches| - 1]
  }

  /** The rows a user's LIMIT and OFFSET ask for, a limit of 0 being taken as none. */
  function Wanted(rows: seq<Row>, user: Option<Limit>): seq<Row> {
    if user.None? then rows else
    var rest := Skipped(rows, user.value.offset);
    if user.value.limit.Some? && user.value.limit.value > 0 then Capped(rest, user.value.limit) else rest
  }

  /** The batches answer the same query as Find, except that a limit of 0, for which Find
      returns nothing, is ignored. */
  lemma WantedIsFindIffLimitNotZero(rows: seq<Row>, user: Limit)
    ensures Wanted(rows, Some(user)) == Page(rows, user)
       <==> !(user.limit == Some(0) && Skipped(rows, user.offset) != [])
  {
  }

  function Total(user: Option<Limit>): int {
    if user.Some? && user.value.limit.Some? then user.value.limit.value else 0
  }

  predicate Bounded(batches: seq<seq<Row>>, size: int) {
    forall i :: 0 <= i < |batches| ==> 0 < |batches[i]| <= size
  }

  lemma FlatAppend(batches: seq<seq<Row>>, b: seq<Row>)
    ensures Flat(batches + [b]) == Flat(batches) + b
  {
    assert (batches + [b])[..|batches|] == batches;
  }

  lemma Times(a: int, b: int, size: int)
    requires a <= b && 0 <= size
    ensures a * size <= b * size
  {
  }

  /** After `batch` full pages of `size` rows, short of `total`, either another full page
      fits or the remainder is what is left. */
  lemma Remainder(total: int, size: int, batch: int)
    requires size > 0 && batch >= 0 && batch * size < total
    ensures total / size == batch ==> total % size == total - batch * size
    ensures total / size != batch ==> (batch + 1) * size <= total
  {
    var q := total / size;
    assert total == q * size + total % size;
    if q > batch {
      Times(batch + 1, q, size);
    } else if q < batch {
      Times(q + 1, batch, size);
      assert false;
    }
  }

  /** The rows of `batches` full pages. */
  function RowsOf(batches: nat, size: int): int {
    if batches == 0 then 0 else RowsOf(batches - 1, size) + size
  }

  lemma {:induction false} RowsOfIsProduct(batches: nat, size: int)
    ensures RowsOf(batches, size) == batches * size
  {
    if batches > 0 {
      RowsOfIsProduct(batches - 1, size);
    }
  }

  /** Where the paging stands: `n` rows are delivered in `batch` pages and the next page
      asks for `size` rows, never past the user's limit `total`. */
  predicate Standing(total: int, first: int, size: int, batch: nat, n: int) {
    && 0 < size <= first
    && (total > 0 ==> n < total && n + size <= total)
    && (total > 0 ==> (size == first && n == RowsOf(batch, first)) || n + size == total)
  }

  /** The page size after `batch` pages. */
  function SizeAfter(total: int, size: int, batch: nat): int {
    if total > 0 && size > 0 && total / size == batch then total % size else size
  }

  /** After a full page that did not reach the user's limit it is positive and stays within it. */
  lemma NextSize(total: int, first: int, size: int, batch: nat, n: int)
    requires batch > 0 && Standing(total, first, size, batch - 1, n)
    requires total > 0 ==> n + size < total
    ensures Standing(total, first, SizeAfter(total, size, batch), batch, n + size)
  {
    if total > 0 {
      assert size == first && n + size == RowsOf(batch, first);
      RowsOfIsProduct(batch, first);
      Remainder(total, size, batch);
    }
  }

  function OffsetOf(l: Option<Limit>): int {
    if l.Some? && l.value.offset > 0 then l.value.offset else 0
  }

  // ---------------------------------------------------------------- the run

  datatype Call = Call(table: seq<Row>, es: seq<Cond>, pk: Column, user: Option<Limit>, batchSize: int)

  /** What one turn of the loop asks for, with `n` rows delivered before it. */
  datatype Query = Query(conds: seq<Cond>, limit: Option<Limit>, size: int, n: int)

  /** Its answer: `size` replaces the limit of the statement and keeps its offset. */
  function Answer(c: Call, q: Query): seq<Row> {
    Page(Matching(c.table, q.conds), MergeLimit(q.limit, Limit(Some(q.size), 0)))
  }

  lemma AnswerIs(c: Call, q: Query)
    requires q.size > 0
    ensures Answer(c, q) == Capped(Skipped(Matching(c.table, q.conds), OffsetOf(q.limit)), Some(q.size))
    ensures |Answer(c, q)| <= q.size
  {
  }

  function LastKey(rows: seq<Row>): int { if rows == [] then 0 else rows[|rows| - 1].key }

  function FirstQuery(c: Call): Query {
    var total := Total(c.user);
    Query(c.es, c.user, if total > 0 && c.batchSize > total then total else c.batchSize, 0)
  }

  /** After the first page the offset is reset. */
  function LaterLimit(user: Option<Limit>): Option<Limit> {
    if user.None? then None else Some(MergeLimit(user, Limit(None, -1)))
  }

  /** The i-th query, counted from 0, if the loop comes to it. The statement shares its conditions
      with the first query, which leaves them as it wrote them; later queries merge the key into a
      list of their own. */
  function QueryAt(c: Call, i: nat): Query {
    if i == 0 then FirstQuery(c)
    else
      var q := QueryAt(c, i - 1);
      var page := Answer(c, q);
      Query(After(Built(c.es), c.pk, LastKey(page)), LaterLimit(c.user), SizeAfter(Total(c.user), q.size, i),
            q.n + |page|)
  }

  lemma NextQuery(c: Call, i: nat)
    ensures var q, page := QueryAt(c, i), PageAt(c, i);
            QueryAt(c, i + 1) ==
            Query(After(Built(c.es), c.pk, LastKey(page)), LaterLimit(c.user), SizeAfter(Total(c.user), q.size, i + 1),
                  q.n + |page|)
  {
  }

  function PageAt(c: Call, i: nat): seq<Row> { Answer(c, QueryAt(c, i)) }

  /** Which calls of the callback and which queries fail. */
  datatype Fate = Fate(fcFails: (seq<Row>, nat) -> bool, queryFails: nat -> bool)

  predicate Short(c: Call, i: nat) { |PageAt(c, i)| < QueryAt(c, i).size }

  predicate Reached(c: Call, i: nat) {
    Total(c.user) > 0 && Total(c.user) <= QueryAt(c, i).n + |PageAt(c, i)|
  }

  /** The query or the callback fails, or there is no key to continue from. */
  predicate Fails(c: Call, f: Fate, i: nat) {
    || f.queryFails(i + 1)
    || (PageAt(c, i) != [] && f.fcFails(PageAt(c, i), i + 1))
    || (!Short(c, i) && !Reached(c, i) && LastKey(PageAt(c, i)) == 0)
  }

  /** The loop stops after this turn if it comes to it. */
  predicate Stops(c: Call, f: Fate, i: nat) { Fails(c, f, i) || Short(c, i) || Reached(c, i) }

  ghost predicate Ends(c: Call, f: Fate) { exists i: nat :: Stops(c, f, i) }

  ghost predicate GoesOn(c: Call, f: Fate, n: nat) { forall i: nat :: i < n ==> !Stops(c, f, i) }

  /** The batches handed to the callback in the first turns, if all pages are full. */
  function Batches(c: Call, n: nat): seq<seq<Row>> { seq(n, i requires 0 <= i < n => PageAt(c, i)) }

  /** The batches of a run that stops after turn `n`. */
  function Served(c: Call, f: Fate, n: nat): seq<seq<Row>> {
    Batches(c, n) + if f.queryFails(n + 1) || PageAt(c, n) == [] then [] else [PageAt(c, n)]
  }

  lemma BatchesMore(c: Call, n: nat)
    ensures Batches(c, n + 1) == Batches(c, n) + [PageAt(c, n)]
  {
    hide PageAt;
  }

  ghost predicate Stands(c: Call, i: nat) {
    var q := QueryAt(c, i); Standing(Total(c.user), FirstQuery(c).size, q.size, i, q.n)
  }

  lemma StandsNext(c: Call, i: nat)
    requires Stands(c, i) && !Short(c, i) && !Reached(c, i)
    ensures Stands(c, i + 1) && QueryAt(c, i + 1).n > QueryAt(c, i).n
  {
    hide QueryAt, Answer, Standing, FirstQuery, SizeAfter, Matching, Capped, Skipped, Total, LastKey;
    var q := QueryAt(c, i);
    StandingSize(Total(c.user), FirstQuery(c).size, q.size, i, q.n);
    AnswerIs(c, q);
    NextQuery(c, i);
    NextSize(Total(c.user), FirstQuery(c).size, q.size, i + 1, q.n);
  }

  lemma GoesOnBefore(c: Call, f: Fate, i: nat)
    requires GoesOn(c, f, i + 1)
    ensures GoesOn(c, f, i) && !Short(c, i) && !Reached(c, i) && !Fails(c, f, i)
  {
    assert !Stops(c, f, i);
  }

  lemma GoesOnMore(c: Call, f: Fate, i: nat)
    requires GoesOn(c, f, i) && !Stops(c, f, i)
    ensures GoesOn(c, f, i + 1)
  {
  }

  lemma StopAhead(c: Call, f: Fate, i: nat, stop: nat)
    requires GoesOn(c, f, i) && Stops(c, f, stop)
    ensures i <= stop
  {
  }

  lemma StandsWithin(c: Call, i: nat)
    requires Stands(c, i)
    ensures 0 < QueryAt(c, i).size <= FirstQuery(c).size && |PageAt(c, i)| <= QueryAt(c, i).size
  {
    hide QueryAt, Answer, Standing, FirstQuery;
    var q := QueryAt(c, i);
    StandingSize(Total(c.user), FirstQuery(c).size, q.size, i, q.n);
    AnswerIs(c, q);
  }

  /** While the loop goes on its sizes stay within the user's limit and every page is full. */
  lemma {:induction false} RunStands(c: Call, f: Fate, i: nat)
    requires c.batchSize > 0 && GoesOn(c, f, i)
    ensures Stands(c, i) && QueryAt(c, i).n >= i
    ensures 0 < QueryAt(c, i).size <= FirstQuery(c).size && |PageAt(c, i)| <= QueryAt(c, i).size
  {
    hide QueryAt, FirstQuery, GoesOn, Stands, PageAt, Short, Reached, Fails;
    if i == 0 {
      StandsAtFirst(c);
    } else {
      GoesOnBefore(c, f, i - 1);
      RunStands(c, f, i - 1);
      StandsNext(c, i - 1);
    }
    StandsWithin(c, i);
  }

  lemma StandsAtFirst(c: Call)
    requires c.batchSize > 0
    ensures Stands(c, 0) && QueryAt(c, 0).n == 0
  {
    QueryFirst(c);
  }

  lemma StandingSize(total: int, first: int, size: int, batch: nat, n: int)
    requires Standing(total, first, size, batch, n)
    ensures 0 < size <= first
  {
  }

  /** A page of the rows still to come extends the delivered prefix. */
  lemma PageOfRest(page: seq<Row>, rest: seq<Row>, n: nat, size: int)
    requires n <= |rest| && size > 0 && page == Capped(rest[n..], Some(size))
    ensures |page| <= size && n + |page| <= |rest|
    ensures rest[..n] + page == rest[..n + |page|]
    ensures |page| < size ==> n + |page| == |rest|
    ensures page != [] ==> page[|page| - 1] == rest[n + |page| - 1]
  {
  }

  lemma WantedPrefix(rows: seq<Row>, user: Option<Limit>, rest: seq<Row>, n: nat)
    requires rest == Skipped(rows, OffsetOf(user)) && n <= |rest|
    requires Total(user) > 0 ==> n <= Total(user)
    ensures rest[..n] <= Wanted(rows, user)
    ensures n == |rest| || n == Total(user) > 0 ==> rest[..n] == Wanted(rows, user)
  {
    assert n == |rest| ==> rest[..n] == rest;
  }

  // ---------------------------------------------------------------- conditions joined by AND

  ghost function RestOf(c: Call): seq<Row> { Skipped(Matching(c.table, c.es), OffsetOf(c.user)) }

  /** The batches so far are a prefix of the rows wanted, and the next query is for the rows
      behind it. */
  ghost predicate Delivered(c: Call, i: nat) {
    var q := QueryAt(c, i); var rest := RestOf(c);
    && 0 <= q.n <= |rest| && Flat(Batches(c, i)) == rest[..q.n]
    && Skipped(Matching(c.table, q.conds), OffsetOf(q.limit)) == rest[q.n..]
  }

  lemma DeliversNext(c: Call, i: nat)
    requires Keyed(c.table, c.pk) && AndOnly(c.es)
    requires Delivered(c, i) && !Short(c, i) && QueryAt(c, i).size > 0
    ensures Delivered(c, i + 1)
  {
    hide QueryAt, Answer, Matching, Skipped, Capped, Keyed, AndOnly, Flat;
    var q, page, rest := QueryAt(c, i), PageAt(c, i), RestOf(c);
    NextQuery(c, i);
    AnswerIs(c, q);
    PageOfRest(page, rest, q.n, q.size);
    BatchesMore(c, i);
    FlatAppend(Batches(c, i), page);
    NextPage(c.table, c.es, c.pk, rest, OffsetOf(c.user), q.n + |page|, LastKey(page));
    assert OffsetOf(LaterLimit(c.user)) == 0;
  }

  /** So it is after any number of turns. */
  lemma {:induction false} RunDelivers(c: Call, f: Fate, i: nat)
    requires Keyed(c.table, c.pk) && AndOnly(c.es) && c.batchSize > 0 && GoesOn(c, f, i)
    ensures Delivered(c, i)
  {
    if i == 0 {
      assert Batches(c, 0) == [];
    } else {
      hide Answer, Standing, Fails, Matching, Skipped, Keyed, AndOnly, Flat, QueryAt, Delivered, Short;
      RunDelivers(c, f, i - 1);
      RunStands(c, f, i - 1);
      assert !Stops(c, f, i - 1);
      DeliversNext(c, i - 1);
    }
  }

  /** So are the batches of a run that stops, and they are all of these rows unless something
      failed. */
  lemma StopDelivers(c: Call, f: Fate, i: nat)
    requires Keyed(c.table, c.pk) && AndOnly(c.es) && c.batchSize > 0 && GoesOn(c, f, i) && Stops(c, f, i)
    ensures var all := Wanted(Matching(c.table, c.es), c.user);
            && Flat(Served(c, f, i)) <= all
            && (!f.queryFails(i + 1) && (Short(c, i) || Reached(c, i)) ==> Flat(Served(c, f, i)) == all)
  {
    hide Answer, Standing, Matching, Skipped, Wanted;
    RunDelivers(c, f, i);
    RunStands(c, f, i);
    var q, page, rest := QueryAt(c, i), PageAt(c, i), RestOf(c);
    assert Total(c.user) > 0 ==> q.n + q.size <= Total(c.user) by {
      WithinLimit(Total(c.user), FirstQuery(c).size, q.size, i, q.n);
    }
    AnswerIs(c, q);
    PageOfRest(page, rest, q.n, q.size);
    FlatAppend(Batches(c, i), page);
    assert Batches(c, i) + [] == Batches(c, i);
    var rows := Matching(c.table, c.es);
    WantedPrefix(rows, c.user, rest, q.n);
    WantedPrefix(rows, c.user, rest, q.n + |page|);
    assert page == [] ==> rest[..q.n + |page|] == rest[..q.n];
  }

  lemma WithinLimit(total: int, first: int, size: int, batch: nat, n: int)
    requires Standing(total, first, size, batch, n)
    ensures 0 < size && (total > 0 ==> n + size <= total)
  {
  }

  // ---------------------------------------------------------------- the loop

  /** Every batch has rows and comes from a query that did not fail, and the callback accepted
      all but possibly the last; batches are counted from 1. */
  ghost predicate Accepted(batches: seq<seq<Row>>, f: Fate) {
    forall i :: 0 <= i < |batches| ==> AcceptedAt(batches, f, i)
  }

  ghost predicate AcceptedAt(batches: seq<seq<Row>>, f: Fate, i: nat)
    requires i < |batches|
  {
    batches[i] != [] && !f.queryFails(i + 1) && (i < |batches| - 1 ==> !f.fcFails(batches[i], i + 1))
  }

  ghost predicate LastRefused(batches: seq<seq<Row>>, f: Fate) {
    batches != [] && f.fcFails(batches[|batches| - 1], |batches|)
  }

  ghost predicate LastUnkeyed(batches: seq<seq<Row>>) {
    batches != [] && batches[|batches| - 1] != [] && LastKey(batches[|batches| - 1]) == 0
  }

  /** The loop of FindInBatches, for calls that come to an end: what it hands to the callback are
      the pages of the run up to its first stop. Batches are never empty or longer than asked
      for. For conditions joined by AND they add up to a prefix of the rows wanted and, without a
      failure, to all of them, each once and in key order. */
  method FindInBatches(c: Call, f: Fate) returns (batches: seq<seq<Row>>, rowsAffected: int, failed: bool)
    requires c.batchSize > 0 && Ends(c, f)
    ensures exists n: nat ::
              GoesOn(c, f, n) && Stops(c, f, n) && batches == Served(c, f, n) && failed == Fails(c, f, n)
    ensures rowsAffected == |Flat(batches)|
    ensures Bounded(batches, c.batchSize)
    ensures Accepted(batches, f)
    ensures LastRefused(batches, f) ==> failed
    ensures failed ==> f.queryFails(|batches| + 1) || LastRefused(batches, f) || LastUnkeyed(batches)
    ensures Keyed(c.table, c.pk) && AndOnly(c.es) ==> Flat(batches) <= Wanted(Matching(c.table, c.es), c.user)
    ensures Keyed(c.table, c.pk) && AndOnly(c.es) && !failed ==>
              Flat(batches) == Wanted(Matching(c.table, c.es), c.user)
  {
    hide Matching, Page, MergeLimit, Wanted, Keyed, AndOnly, Bounded, Flat, Stands, QueryAt, GoesOn, Batches;
    hide Built, After, Accepted, LastRefused, LastUnkeyed;
    var size := c.batchSize;
    var totalSize := 0;
    var limit := c.user;
    if c.user.Some? {
      if c.user.value.limit.Some? {
        totalSize := c.user.value.limit.value;
      }
      if totalSize > 0 && size > totalSize {
        size := totalSize;
      }
      limit := Some(MergeLimit(c.user, Limit(None, -1)));
    }
    batches, rowsAffected, failed := [], 0, false;
    var batch := 0;
    var conds, queryLimit := c.es, c.user;
    var stored := c.es;
    ghost var stop: nat :| Stops(c, f, stop);
    ghost var n := 0;
    assert QueryAt(c, 0) == FirstQuery(c) by { QueryFirst(c); }
    assert Batches(c, 0) == [] && GoesOn(c, f, 0) by { NothingYet(c, f); }
    while true
      invariant totalSize == Total(c.user) && limit == LaterLimit(c.user)
      invariant Query(conds, queryLimit, size, rowsAffected) == QueryAt(c, batch)
      invariant stored == if batch == 0 then c.es else Built(c.es)
      invariant batches == Batches(c, batch) && !failed
      invariant GoesOn(c, f, batch)
      decreases stop - batch
    {
      n := batch;
      if batch == 0 {
        stored := Built(stored);
      }
      RunStands(c, f, n);
      BatchesMore(c, n);
      StopAhead(c, f, n, stop);
      var result := [];
      var error := f.queryFails(batch + 1);
      if !error {
        result := Page(Matching(c.table, conds), MergeLimit(queryLimit, Limit(Some(size), 0)));
      }
      rowsAffected := rowsAffected + |result|;
      batch := batch + 1;
      if !error && |result| != 0 {
        batches := batches + [result];
        failed := f.fcFails(result, batch);
      } else if error {
        failed := true;
      }
      assert batches == Served(c, f, n);
      if failed || |result| < size {
        break;
      }
      if totalSize > 0 {
        if totalSize <= rowsAffected {
          break;
        }
        if totalSize / size == batch {
          size := totalSize % size;
        }
      }
      var primaryValue := result[|result| - 1].key;
      if primaryValue == 0 {
        failed := true;
        break;
      }
      conds, queryLimit := After(stored, c.pk, primaryValue), limit;
      NextQuery(c, n);
      GoesOnMore(c, f, n);
    }
    RunResult(c, f, n);
    RunAccepted(c, f, n);
    if Keyed(c.table, c.pk) && AndOnly(c.es) {
      StopDelivers(c, f, n);
    }
  }

  lemma NothingYet(c: Call, f: Fate)
    ensures Batches(c, 0) == [] && GoesOn(c, f, 0)
  {
  }

  lemma QueryFirst(c: Call)
    ensures QueryAt(c, 0) == FirstQuery(c)
  {
  }

  lemma RunResult(c: Call, f: Fate, n: nat)
    requires c.batchSize > 0 && GoesOn(c, f, n) && Stops(c, f, n)
    ensures |Flat(Served(c, f, n))| == QueryAt(c, n).n + if f.queryFails(n + 1) then 0 else |PageAt(c, n)|
    ensures Bounded(Served(c, f, n), c.batchSize)
  {
    hide Answer, Standing, Fails;
    BatchesCount(c, f, n);
    RunStands(c, f, n);
    FlatAppend(Batches(c, n), PageAt(c, n));
    assert Batches(c, n) + [] == Batches(c, n);
  }

  /** Only the last batch may be refused by the callback, and no batch comes from a query that
      failed; a run fails for a query or a callback that did, or for want of a key. */
  lemma RunAccepted(c: Call, f: Fate, n: nat)
    requires c.batchSize > 0 && GoesOn(c, f, n) && Stops(c, f, n)
    ensures Accepted(Served(c, f, n), f)
    ensures LastRefused(Served(c, f, n), f) ==> Fails(c, f, n)
    ensures var batches := Served(c, f, n);
            Fails(c, f, n) ==> f.queryFails(|batches| + 1) || LastRefused(batches, f) || LastUnkeyed(batches)
  {
    hide PageAt, Short, Reached, GoesOn, Fails, Stops, LastRefused, LastUnkeyed;
    var batches := Served(c, f, n);
    ServedShape(c, f, n);
    forall i | 0 <= i < |batches| ensures AcceptedAt(batches, f, i) {
      assert batches[i] == PageAt(c, i);
      if i < n {
        PageAccepted(c, f, n, i);
      }
    }
    assert Accepted(batches, f);
    LastOfRun(c, f, n);
  }

  lemma ServedShape(c: Call, f: Fate, n: nat)
    ensures var batches := Served(c, f, n);
            && |batches| == n + (if f.queryFails(n + 1) || PageAt(c, n) == [] then 0 else 1)
            && (forall i :: 0 <= i < |batches| ==> batches[i] == PageAt(c, i))
  {
    hide PageAt;
  }

  lemma LastOfRun(c: Call, f: Fate, n: nat)
    requires c.batchSize > 0 && GoesOn(c, f, n) && Stops(c, f, n)
    ensures LastRefused(Served(c, f, n), f) ==> Fails(c, f, n)
    ensures var batches := Served(c, f, n);
            Fails(c, f, n) ==> f.queryFails(|batches| + 1) || LastRefused(batches, f) || LastUnkeyed(batches)
  {
    hide Answer, QueryAt, Stops, Stands, FirstQuery, PageAt, Reached, GoesOn, Served;
    ServedShape(c, f, n);
    RunStands(c, f, n);
    if n > 0 {
      PageAccepted(c, f, n, n - 1);
    }
  }

  lemma PageAccepted(c: Call, f: Fate, n: nat, i: nat)
    requires c.batchSize > 0 && GoesOn(c, f, n) && i < n
    ensures PageAt(c, i) != [] && !f.queryFails(i + 1) && !f.fcFails(PageAt(c, i), i + 1)
    ensures LastKey(PageAt(c, i)) != 0
  {
    hide Answer, QueryAt, Stands, FirstQuery;
    assert GoesOn(c, f, i + 1);
    GoesOnBefore(c, f, i);
    RunStands(c, f, i);
  }

  lemma {:induction false} BatchesCount(c: Call, f: Fate, n: nat)
    requires c.batchSize > 0 && GoesOn(c, f, n)
    ensures |Flat(Batches(c, n))| == QueryAt(c, n).n && Bounded(Batches(c, n), c.batchSize)
  {
    hide Answer, Standing, Fails;
    if n > 0 {
      BatchesCount(c, f, n - 1);
      RunStands(c, f, n - 1);
      assert !Stops(c, f, n - 1);
      BatchesMore(c, n - 1);
      FlatAppend(Batches(c, n - 1), PageAt(c, n - 1));
    }
  }

  lemma NextPage(table: seq<Row>, es: seq<Cond>, pk: Column, rest: seq<Row>, offset: int, n: nat, last: int)
    requires Keyed(table, pk) && AndOnly(es)
    requires rest == Skipped(Matching(table, es), offset)
    requires 0 < n <= |rest| && last == rest[n - 1].key
    ensures Skipped(Matching(table, After(Built(es), pk, last)), 0) == rest[n..]
  {
    hide Built;
    MatchingIncreasing(table, es);
    MatchingAfter(table, es, pk, last);
    SkippedSuffix(Matching(table, es), rest, offset, n);
  }

  lemma SkippedSuffix(rows: seq<Row>, rest: seq<Row>, offset: int, n: nat)
    requires Increasing(rows) && rest == Skipped(rows, offset) && 0 < n <= |rest|
    ensures KeysAbove(rows, rest[n - 1].key) == rest[n..]
  {
    var k := |rows| - |rest|;
    assert rest == rows[k..];
    assert rest[n - 1] == rows[k + n - 1];
    KeysAboveSuffix(rows, k + n);
    assert rest[n..] == rows[k + n..];
  }

  // ---------------------------------------------------------------- any conditions

  /** Where the last alternative starts. */
  function LastStart(items: seq<Item>): (m: nat)
    ensures m <= |items| && (items != [] ==> m < |items|)
    decreases |items|
  {
    if items == [] then 0
    else
      var n := AlternativeLength(items);
      if n == |items| then 0 else n + LastStart(items[n..])
  }

  lemma {:induction false} LongerFirst(items: seq<Item>, it: Item)
    requires items != [] && !it.opens
    ensures AlternativeLength(items + [it]) ==
            AlternativeLength(items) + if AlternativeLength(items) == |items| then 1 else 0
    ensures FirstAlternative(items + [it]) ==
            if AlternativeLength(items) == |items| then And3(FirstAlternative(items), it.value)
            else FirstAlternative(items)
  {
    var all := items + [it];
    if |items| == 1 {
      assert all[1..] == [it];
    } else {
      assert all[1..] == items[1..] + [it] && all[1] == items[1];
      LongerFirst(items[1..], it);
    }
  }

  /** A further conjunct binds to the last alternative alone. */
  lemma {:induction false} ConjunctOfLast(items: seq<Item>, it: Item)
    requires items != [] && !it.opens
    ensures var m := LastStart(items);
            AnyAlternative(items + [it]) ==
            Or3(AnyAlternative(items[..m]), And3(FirstAlternative(items[m..]), it.value))
    decreases |items|
  {
    hide FirstAlternative, AnyAlternative, AlternativeLength;
    var all := items + [it];
    var n := AlternativeLength(items);
    LongerFirst(items, it);
    Alternatives(all);
    if n == |items| {
      assert all[n + 1..] == [] && items[0..] == items && items[..0] == [];
      NoAlternatives();
    } else {
      var rest := items[n..];
      var m := LastStart(rest);
      ConjunctOfLast(rest, it);
      assert all[n..] == rest + [it];
      assert items[n + m..] == rest[m..];
      PrefixAlternatives(items, n + m);
      assert items[..n + m][n..] == rest[..m];
      OrAssociative(FirstAlternative(items), AnyAlternative(rest[..m]), And3(FirstAlternative(rest[m..]), it.value));
    }
  }

  lemma OrAssociative(a: Truth, b: Truth, c: Truth)
    ensures Or3(a, Or3(b, c)) == Or3(Or3(a, b), c)
  {
  }

  lemma NoAlternatives()
    ensures AnyAlternative([]) == False && forall a :: Or3(False, a) == a && Or3(a, False) == a
  {
  }

  lemma Alternatives(items: seq<Item>)
    requires items != []
    ensures AnyAlternative(items) == Or3(FirstAlternative(items), AnyAlternative(items[AlternativeLength(items)..]))
  {
  }

  lemma {:induction false} PrefixFirst(items: seq<Item>, k: nat)
    requires items != [] && AlternativeLength(items) <= k <= |items|
    ensures AlternativeLength(items[..k]) == AlternativeLength(items)
    ensures FirstAlternative(items[..k]) == FirstAlternative(items)
  {
    if |items| > 1 && !items[1].opens {
      PrefixFirst(items[1..], k - 1);
      assert items[..k][1..] == items[1..][..k - 1];
    }
  }

  lemma PrefixAlternatives(items: seq<Item>, k: nat)
    requires items != [] && AlternativeLength(items) <= k <= |items|
    ensures var n := AlternativeLength(items);
            AnyAlternative(items[..k]) == Or3(FirstAlternative(items), AnyAlternative(items[..k][n..]))
            && AlternativeLength(items[..k]) == n
  {
    PrefixFirst(items, k);
  }

  /** What a clause selects to which the key condition was merged, whatever it held: when some
      member is no lone Or, the rows for which an alternative before the last holds, wherever
      their key is, and those above the last key for which the last alternative holds; among lone
      Ors alone the key condition is one alternative more. */
  ghost predicate OnPage(es: seq<Cond>, last: int, row: Row) {
    || OnEveryPage(es, row)
    || (row.key > last &&
        (FirstPlain(es) < |es| ==> LastHolds(Items(Conjoined, Reordered(es), row.world))))
  }

  ghost predicate OnEveryPage(es: seq<Cond>, row: Row) {
    if FirstPlain(es) < |es| then EarlierHolds(Items(Conjoined, Reordered(es), row.world))
    else exists i :: 0 <= i < |es| && Meaning(es[i], row.world) == True
  }

  predicate EarlierHolds(items: seq<Item>) { AnyAlternative(items[..LastStart(items)]) == True }

  predicate LastHolds(items: seq<Item>) { items != [] && FirstAlternative(items[LastStart(items)..]) == True }

  /** What a page behind the first selects, for every list of conditions. */
  lemma PageSelects(es: seq<Cond>, pk: Column, last: int, row: Row)
    requires WellFormedList(es) && row.world.cell(pk) == Val(row.key)
    ensures Selected(After(Built(es), pk, last), row) <==> OnPage(Built(es), last, row)
  {
    BuiltKeepsMembers(es);
    MergedSelects(Built(es), pk, last, row);
  }

  lemma MergedSelects(es: seq<Cond>, pk: Column, last: int, row: Row)
    requires WellFormedList(es) && row.world.cell(pk) == Val(row.key)
    ensures Selected(After(es, pk, last), row) <==> OnPage(es, last, row)
  {
    hide Meaning, WellFormed, AnyAlternative, FirstAlternative, ReadCondition, WhereText, OpensWithOr;
    var gt := Comparison(Gt(pk, Val(last)));
    var w := row.world;
    var all := After(es, pk, last);
    assert Meaning(gt, w) == Definite(row.key > last) && WellFormed(gt) && !OpensWithOr(gt) by {
      KeyAbove(pk, last, row);
    }
    WhereTextMeansTree(all, w);
    FirstPlainAppend(es, gt);
    if es == [] {
      assert all == [gt];
      NoSwapKeepsOrder([gt]);
      OneAlternative(Items(Conjoined, [gt], w));
    } else if FirstPlain(es) < |es| {
      AmongOthers(es, gt, w);
    } else {
      AllLoneOrs(es, gt, w);
    }
  }

  lemma AmongOthers(es: seq<Cond>, gt: Cond, w: World)
    requires FirstPlain(es) < |es| && gt.Comparison?
    ensures var items := Items(Conjoined, Reordered(es), w);
            ListMeaning(Reordered(es + [gt]), w) == True <==>
            EarlierHolds(items) || (LastHolds(items) && Meaning(gt, w) == True)
  {
    hide Meaning, AnyAlternative, FirstAlternative, LastStart;
    FirstPlainAppend(es, gt);
    assert Reordered(es + [gt]) == Reordered(es) + [gt];
    var items := Items(Conjoined, Reordered(es), w);
    var it := Items(Conjoined, [gt], w)[0];
    assert Items(Conjoined, Reordered(es + [gt]), w) == items + [it];
    ConjunctOfLast(items, it);
  }

  lemma KeyAbove(pk: Column, last: int, row: Row)
    requires row.world.cell(pk) == Val(row.key)
    ensures var gt := Comparison(Gt(pk, Val(last)));
            Meaning(gt, row.world) == Definite(row.key > last) && WellFormed(gt) && !OpensWithOr(gt)
  {
  }

  lemma {:induction false} FirstPlainAppend(es: seq<Cond>, e: Cond)
    requires !OpensWithOr(e)
    ensures FirstPlain(es + [e]) == FirstPlain(es)
  {
    if es != [] {
      assert (es + [e])[1..] == es[1..] + [e];
      FirstPlainAppend(es[1..], e);
    }
  }

  lemma AllLoneOrs(es: seq<Cond>, gt: Cond, w: World)
    requires WellFormedList(es) && es != [] && FirstPlain(es) == |es| && gt.Comparison?
    ensures FirstPlain(es + [gt]) == |es|
    ensures ListMeaning(Reordered(es + [gt]), w) == True <==>
            Meaning(gt, w) == True || exists i :: 0 <= i < |es| && Meaning(es[i], w) == True
  {
    hide Meaning;
    FirstPlainAppend(es, gt);
    var all := es + [gt];
    var list := Reordered(all);
    assert list == all[0 := gt][|es| := es[0]];
    forall i | 0 < i < |list| ensures LoneOr(list[i]) {
      var e := if i < |es| then es[i] else es[0];
      assert list[i] == e && OpensWithOr(e) && WellFormed(e);
    }
    var items := Items(Conjoined, list, w);
    var disjoined := items[0 := Item(true, items[0].value)];
    SameReading(items, disjoined);
    AllJoinedByOr(disjoined, Meanings(list, w));
    SomeTrue(Meanings(list, w));
    if i :| 0 <= i < |es| && Meaning(es[i], w) == True {
      assert Meanings(list, w)[if i == 0 then |es| else i] == True;
    }
    if Meaning(gt, w) == True {
      assert Meanings(list, w)[0] == True;
    }
  }

  lemma {:induction false} SomeTrue(ts: seq<Truth>)
    ensures AnyOf(ts) == True <==> exists i :: 0 <= i < |ts| && ts[i] == True
  {
    if ts != [] {
      SomeTrue(ts[1..]);
      if i :| 0 <= i < |ts| && ts[i] == True {
        if i > 0 {
          assert ts[1..][i - 1] == True;
        }
      }
    }
  }

  ghost predicate PageIsExact(es: seq<Cond>, pk: Column, last: int, row: Row) {
    Selected(After(Built(es), pk, last), row) <==> Selected(es, row) && row.key > last
  }

  /** A page selects the user's rows above the last key, whatever the members ask for, exactly
      when the conditions have no lone Or. */
  lemma PageExactIffNoLoneOr(es: seq<Cond>)
    requires WellFormedList(es)
    ensures (forall fs, pk, last, row: Row ::
               SameClause(es, fs) && WellFormedList(fs) && row.world.cell(pk) == Val(row.key) ==>
               PageIsExact(fs, pk, last, row)) <==> !HasLoneOr(es)
  {
    hide Meaning, WellFormed, Selected, Reordered, After, Built;
    if HasLoneOr(es) {
      var fs := RepeatedRow(es);
      assert !PageIsExact(fs, "id", 1, Row(1, ROW));
    } else {
      forall fs, pk, last, row: Row | SameClause(es, fs) && WellFormedList(fs) && row.world.cell(pk) == Val(row.key)
        ensures PageIsExact(fs, pk, last, row)
      {
        SameLoneOr(es, fs);
        SelectedAfter(fs, pk, last, row);
      }
    }
  }

  /** With a lone Or: a row of which all members are true is on every page. */
  lemma RepeatedRow(es: seq<Cond>) returns (fs: seq<Cond>)
    requires WellFormedList(es) && HasLoneOr(es)
    ensures SameClause(es, fs) && WellFormedList(fs)
    ensures Selected(fs, Row(1, ROW)) && Selected(After(Built(fs), "id", 1), Row(1, ROW))
  {
    hide Meaning, WellFormed, ReadCondition, WhereText;
    var truth := (i: nat) => true;
    fs := StandAll(es, truth);
    StandAllMeans(es, truth);
    AllTrueSelected(es, fs);
  }

  lemma AllTrueSelected(es: seq<Cond>, fs: seq<Cond>)
    requires WellFormedList(es) && HasLoneOr(es) && SameShape(es, fs) && WellFormedList(fs)
    requires forall i :: 0 <= i < |fs| ==> Meaning(fs[i], ROW) == True
    ensures SameClause(es, fs) && Selected(fs, Row(1, ROW)) && Selected(After(Built(fs), "id", 1), Row(1, ROW))
  {
    hide Meaning, WellFormed, ReadCondition, WhereText, AnyAlternative, FirstAlternative;
    var row := Row(1, ROW);
    SameLoneOr(es, fs);
    assert Unwrapped(es) == es && Unwrapped(fs) == fs;
    var list := Reordered(fs);
    var items := Items(Conjoined, list, ROW);
    assert forall i :: 0 <= i < |items| ==> items[i].value == True;
    TrueAlternative(items, 0);
    WhereTextMeansTree(fs, ROW);
    PageSelects(fs, "id", 1, row);
    BuiltOfMany(fs);
    if FirstPlain(fs) < |fs| {
      LoneOrBehind(fs);
      var k :| 0 < k < |list| && LoneOr(list[k]);
      LastStartBehind(items, k);
      var m := LastStart(items);
      TrueAlternative(items[..m], 0);
    } else {
      assert Meaning(fs[0], ROW) == True;
    }
  }

  /** A list that is no sole And group is left as it was written, and a second writing finds
      nothing to move. */
  lemma BuiltOfMany(es: seq<Cond>)
    requires !(|es| == 1 && es[0].AndConditions?)
    ensures Built(es) == Reordered(es) && Reordered(Built(es)) == Reordered(es)
    ensures FirstPlain(es) < |es| <==> FirstPlain(Built(es)) < |Built(es)|
  {
    ReorderedIsPermutation(es);
    if NeedsSwap(es) {
      assert !OpensWithOr(Reordered(es)[0]);
    }
  }

  /** The first member of a written list is no lone Or if any member is not; the lone Ors are
      behind it. */
  lemma LoneOrBehind(es: seq<Cond>)
    requires HasLoneOr(es) && FirstPlain(es) < |es|
    ensures exists k :: 0 < k < |Reordered(es)| && LoneOr(Reordered(es)[k])
  {
    var i :| 0 <= i < |es| && LoneOr(es[i]);
    var n := FirstPlain(es);
    assert Reordered(es)[if n == 0 then i else if i == 0 then n else i] == es[i];
  }

  lemma {:induction false} LastStartBehind(items: seq<Item>, k: nat)
    requires 0 < k < |items| && items[k].opens
    ensures LastStart(items) >= k
    decreases |items|
  {
    var n := AlternativeLength(items);
    if k < n {
      NoneOpensWithin(items, k);
    } else if k > n {
      assert items[n..][k - n] == items[k];
      LastStartBehind(items[n..], k - n);
    }
  }

  /** Why AND-only: once a lone Or follows, the keyset condition binds to the last
      alternative only, and a row of the first alternative is selected by every page. */
  lemma LoneOrRepeatsRows(es: seq<Cond>, pk: Column, last: int, row: Row)
    requires es != [] && WellFormedList(es) && !OpensWithOr(es[0])
    requires exists i :: 0 < i < |es| && LoneOr(es[i])
    requires FirstAlternative(Items(Conjoined, es, row.world)) == True
    ensures Built(es) == es && Selected(After(es, pk, last), row)
  {
    NoSwapKeepsOrder(es);
    var w := row.world;
    var all := After(es, pk, last);
    NoSwapKeepsOrder(all);
    WhereTextMeansTree(all, w);
    assert Items(Conjoined, all, w) == Items(Conjoined, es, w) + [Items(Conjoined, all, w)[|es|]];
    var i :| 0 < i < |es| && LoneOr(es[i]);
    assert Items(Conjoined, es, w)[i].opens;
    FirstAlternativeOfLonger(Items(Conjoined, es, w), Items(Conjoined, all, w)[|es|]);
  }

  lemma {:induction false} FirstAlternativeOfLonger(items: seq<Item>, last: Item)
    requires exists i :: 0 < i < |items| && items[i].opens
    ensures FirstAlternative(items + [last]) == FirstAlternative(items)
  {
    var all := items + [last];
    assert all[1] == items[1];
    if !items[1].opens {
      var i :| 0 < i < |items| && items[i].opens;
      assert items[1..][i - 1].opens;
      FirstAlternativeOfLonger(items[1..], last);
      assert all[1..] == items[1..] + [last];
    }
  }
}
