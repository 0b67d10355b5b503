/** Preload of gorm/callbacks/preload.go, direct and through a join table, and the key
    index of gorm/schema/utils.go: an in-memory hash join that equals the nested-loop join.
    Fields are read and set by reflection in the source; here a parent has its key values
    and a relation field, and a child row its key values. */
module Preload {
  import opened Decimals

  /** A key value: a `uint`, another integer, or a text. */
  datatype Val = Uint(u: nat) | Num(n: int) | Text(s: string)

  type Key = seq<Val>

  function IsZero(v: Val): bool {
    match v
    case Uint(u) => u == 0
    case Num(n) => n == 0
    case Text(s) => s == ""
  }

  /** A key counts as unset when all its values are zero. */
  predicate Unset(k: Key) { forall i :: 0 <= i < |k| ==> IsZero(k[i]) }

  function Decimal(n: int): string {
    if n < 0 then "-" + Digits(-n) else Digits(n)
  }

  function ValString(v: Val): string {
    match v
    case Uint(u) => Digits(u)
    case Num(n) => if n == 0 then "nil" else Decimal(n)
    case Text(s) => s
  }

  /** utils.ToStringKey: the values' texts joined by underscores. */
  function ToStringKey(k: Key): string {
    if k == [] then ""
    else if |k| == 1 then ValString(k[0])
    else ValString(k[0]) + "_" + ToStringKey(k[1..])
  }

  // ---------------------------------------------------------------- the data

  class Parent {
    const key: Key
    var related: seq<Child>

    constructor (key: Key, related: seq<Child>)
      ensures this.key == key && this.related == related
    {
      this.key, this.related := key, related;
    }
  }

  datatype Child = Child(key: Key, id: int)

  /** A row of the join table: the key of the parent it belongs to and of the child. */
  datatype JoinRow = JoinRow(own: Key, rel: Key)

  /** HasMany and Many2Many collect, HasOne and BelongsTo keep one. */
  datatype Kind = Many | One

  datatype Outcome = Done | QueryFailed | NoParentFor(child: Child)

  function ParentKey(p: Parent): Key { p.key }

  function JoinRel(r: JoinRow): Key { r.rel }

  // ---------------------------------------------------------------- the key index

  /** The distinct elements whose set key has this string, in order. */
  function Group<T(==)>(elems: seq<T>, keyOf: T -> Key, s: string): seq<T> {
    if elems == [] then []
    else
      var rest, e := elems[..|elems| - 1], elems[|elems| - 1];
      Group(rest, keyOf, s) +
      if e !in rest && !Unset(keyOf(e)) && ToStringKey(keyOf(e)) == s then [e] else []
  }

  /** The set keys of the elements, the first for each key string. */
  function Keys<T(==)>(elems: seq<T>, keyOf: T -> Key): seq<Key> {
    if elems == [] then []
    else
      var rest, e := elems[..|elems| - 1], elems[|elems| - 1];
      var k := keyOf(e);
      Keys(rest, keyOf) +
      if e !in rest && !Unset(k) && Group(rest, keyOf, ToStringKey(k)) == [] then [k] else []
  }

  /** `data` holds exactly the groups that are not empty. */
  ghost predicate Indexes<T>(elems: seq<T>, keyOf: T -> Key, data: map<string, seq<T>>) {
    forall s :: Slot(data, s) == Group(elems, keyOf, s) && (s in data ==> data[s] != [])
  }

  function Slot<T>(data: map<string, seq<T>>, s: string): seq<T> { if s in data then data[s] else [] }

  /** One more element `e`: skipped when known or unset, else appended to its slot. */
  lemma IndexesStep<T>(elems: seq<T>, e: T, keyOf: T -> Key, data: map<string, seq<T>>)
    requires Indexes(elems, keyOf, data)
    ensures e in elems || Unset(keyOf(e)) ==>
              Indexes(elems + [e], keyOf, data) && Keys(elems + [e], keyOf) == Keys(elems, keyOf)
    ensures e !in elems && !Unset(keyOf(e)) ==>
              var s := ToStringKey(keyOf(e));
              && Indexes(elems + [e], keyOf, data[s := Slot(data, s) + [e]])
              && Keys(elems + [e], keyOf) == Keys(elems, keyOf) + if s in data then [] else [keyOf(e)]
  {
    hide Unset, ToStringKey, Slot;
    assert (elems + [e])[..|elems|] == elems;
    var sk := ToStringKey(keyOf(e));
    assert sk in data <==> Group(elems, keyOf, sk) != [] by { SlotAt(data, sk); }
    if e !in elems && !Unset(keyOf(e)) {
      var next := data[sk := Slot(data, sk) + [e]];
      forall s ensures Slot(next, s) == Group(elems + [e], keyOf, s) && (s in next ==> next[s] != []) {
        SlotAt(data, s);
        SlotAt(next, s);
      }
    } else {
      forall s ensures Slot(data, s) == Group(elems + [e], keyOf, s) {
        SlotAt(data, s);
      }
    }
  }

  lemma SlotAt<T>(data: map<string, seq<T>>, s: string)
    ensures Slot(data, s) == if s in data then data[s] else []
  {
  }

  /** GetIdentityFieldValuesMap over the elements of a slice; `keyOf` reads the fields. */
  method GetIdentityFieldValuesMap<T(==)>(elems: seq<T>, keyOf: T -> Key)
    returns (data: map<string, seq<T>>, results: seq<Key>)
    ensures Indexes(elems, keyOf, data)
    ensures results == Keys(elems, keyOf)
  {
    hide Group, Keys, Indexes, ToStringKey;
    data, results := map[], [];
    var loaded: set<T> := {};
    EmptyIndex(keyOf);
    assert elems[..0] == [];
    for i := 0 to |elems|
      invariant forall e :: e in loaded <==> e in elems[..i]
      invariant Indexes(elems[..i], keyOf, data)
      invariant results == Keys(elems[..i], keyOf)
    {
      var elem := elems[i];
      IndexesStep(elems[..i], elem, keyOf, data);
      assert elems[..i + 1] == elems[..i] + [elem];
      if elem in loaded {
        continue;
      }
      loaded := loaded + {elem};
      var fieldValues := keyOf(elem);
      if !Unset(fieldValues) {
        var dataKey := ToStringKey(fieldValues);
        if dataKey !in data {
          results := results + [fieldValues];
          assert Slot(data, dataKey) + [elem] == [elem];
          data := data[dataKey := [elem]];
        } else {
          data := data[dataKey := data[dataKey] + [elem]];
        }
      }
    }
    assert elems[..|elems|] == elems;
  }

  lemma EmptyIndex<T>(keyOf: T -> Key)
    ensures Indexes<T>([], keyOf, map[]) && Keys<T>([], keyOf) == []
  {
  }

  // ---------------------------------------------------------------- assignment

  /** How rows reach their parents: by their key, or by these rows of the join table. */
  datatype Plan = Direct | Through(joins: seq<JoinRow>)

  function Links(joins: seq<JoinRow>, own: string, rel: string): nat {
    if joins == [] then 0
    else
      var r := joins[|joins| - 1];
      Links(joins[..|joins| - 1], own, rel) +
      if ToStringKey(r.own) == own && ToStringKey(r.rel) == rel then 1 else 0
  }

  /** How often the identity map lists `p` for the string of the key `k`. */
  function Times(plan: Plan, p: Parent, k: Key): nat {
    match plan
    case Direct => if !Unset(p.key) && ToStringKey(k) == ToStringKey(p.key) then 1 else 0
    case Through(joins) => Reached(joins, p, ToStringKey(k))
  }

  /** How often the join rows lead from the string of a child key to `p`. */
  function Reached(joins: seq<JoinRow>, p: Parent, rel: string): nat {
    if Unset(p.key) then 0 else Links(joins, ToStringKey(p.key), rel)
  }

  function Occurs<T(==)>(group: seq<T>, e: T): nat { multiset(group)[e] }

  function Copies(c: Child, n: nat): seq<Child> { seq(n, _ => c) }

  /** Every row as often as its key leads to `p`, in the order of the rows. */
  function Joined(plan: Plan, p: Parent, rows: seq<Child>): seq<Child> {
    if rows == [] then []
    else
      var c := rows[|rows| - 1];
      Joined(plan, p, rows[..|rows| - 1]) + Copies(c, Times(plan, p, c.key))
  }

  /** What a relation field holds after these children were assigned in order. */
  function Held(kind: Kind, cs: seq<Child>): seq<Child> {
    if kind.Many? || cs == [] then cs else [cs[|cs| - 1]]
  }

  function Assigned(kind: Kind, was: seq<Child>, c: Child, n: nat): seq<Child> {
    if kind.Many? then was + Copies(c, n) else if n == 0 then was else [c]
  }

  lemma HeldAssigned(kind: Kind, cs: seq<Child>, c: Child, n: nat)
    ensures Assigned(kind, Held(kind, cs), c, n) == Held(kind, cs + Copies(c, n))
  {
  }

  /** The identity map lists parents, each as often as the plan says. */
  ghost predicate Lists(parents: seq<Parent>, plan: Plan, identityMap: map<string, seq<Parent>>) {
    && (forall s, p :: s in identityMap && p in identityMap[s] ==> p in parents)
    && (forall p, k :: p in parents ==> Occurs(Slot(identityMap, ToStringKey(k)), p) == Times(plan, p, k))
  }

  method AssignRow(kind: Kind, datas: seq<Parent>, c: Child)
    modifies set d | d in datas
    ensures forall d :: d in datas ==> d.related == Assigned(kind, old(d.related), c, Occurs(datas, d))
  {
    for j := 0 to |datas|
      invariant forall d :: d in datas ==>
                  d.related == Assigned(kind, old(d.related), c, Occurs(datas[..j], d))
    {
      var data := datas[j];
      assert datas[..j + 1] == datas[..j] + [data];
      if kind.Many? {
        data.related := data.related + [c];
      } else {
        data.related := [c];
      }
    }
    assert datas[..|datas|] == datas;
  }

  /** The last loop of preload. A row whose key leads nowhere is an error. */
  method Assign(kind: Kind, parents: seq<Parent>, identityMap: map<string, seq<Parent>>, rows: seq<Child>,
                ghost plan: Plan)
    returns (outcome: Outcome)
    requires Lists(parents, plan, identityMap)
    requires forall p :: p in parents ==> p.related == []
    modifies set p | p in parents
    ensures outcome == Done || outcome.NoParentFor?
    ensures outcome == Done <==> forall c :: c in rows ==> ToStringKey(c.key) in identityMap
    ensures outcome.NoParentFor? ==> outcome.child in rows && ToStringKey(outcome.child.key) !in identityMap
    ensures outcome == Done ==> forall p :: p in parents ==> p.related == Held(kind, Joined(plan, p, rows))
  {
    hide ToStringKey, Times, Joined, Held, Assigned;
    forall p | p in parents ensures Held(kind, Joined(plan, p, rows[..0])) == [] {
      NothingHeld(kind, plan, p);
      assert rows[..0] == [];
    }
    for i := 0 to |rows|
      invariant forall c :: c in rows[..i] ==> ToStringKey(c.key) in identityMap
      invariant forall p :: p in parents ==> p.related == Held(kind, Joined(plan, p, rows[..i]))
    {
      var elem := rows[i];
      var s := ToStringKey(elem.key);
      if s !in identityMap {
        return NoParentFor(elem);
      }
      assert forall d :: d in identityMap[s] ==> d in parents;
      AssignRow(kind, identityMap[s], elem);
      assert rows[..i + 1] == rows[..i] + [elem];
      forall p | p in parents ensures p.related == Held(kind, Joined(plan, p, rows[..i + 1])) {
        assert Slot(identityMap, s) == identityMap[s];
        assert Occurs(identityMap[s], p) == Times(plan, p, elem.key);
        AssignedOnce(kind, plan, p, rows[..i], elem);
        assert p in identityMap[s] <==> Occurs(identityMap[s], p) > 0;
      }
    }
    assert rows[..|rows|] == rows;
    outcome := Done;
  }

  lemma NothingHeld(kind: Kind, plan: Plan, p: Parent)
    ensures Held(kind, Joined(plan, p, [])) == []
  {
  }

  lemma AssignedOnce(kind: Kind, plan: Plan, p: Parent, rows: seq<Child>, c: Child)
    ensures Held(kind, Joined(plan, p, rows + [c])) ==
            Assigned(kind, Held(kind, Joined(plan, p, rows)), c, Times(plan, p, c.key))
    ensures Times(plan, p, c.key) == 0 ==>
              Held(kind, Joined(plan, p, rows + [c])) == Held(kind, Joined(plan, p, rows))
  {
    assert (rows + [c])[..|rows|] == rows;
    HeldAssigned(kind, Joined(plan, p, rows), c, Times(plan, p, c.key));
  }

  // ---------------------------------------------------------------- the queries

  /** The rows that a query `key IN (values)` returns, in order. */
  function Matching(table: seq<Child>, values: seq<Key>): seq<Child> {
    if table == [] then []
    else
      var c := table[|table| - 1];
      Matching(table[..|table| - 1], values) + if c.key in values then [c] else []
  }

  function MatchingJoins(joins: seq<JoinRow>, values: seq<Key>): seq<JoinRow> {
    if joins == [] then []
    else
      var r := joins[|joins| - 1];
      MatchingJoins(joins[..|joins| - 1], values) + if r.own in values then [r] else []
  }

  lemma {:induction false} MatchingHas(table: seq<Child>, values: seq<Key>, c: Child)
    ensures c in Matching(table, values) <==> c in table && c.key in values
  {
    if table != [] {
      MatchingHas(table[..|table| - 1], values, c);
      assert table == table[..|table| - 1] + [table[|table| - 1]];
    }
  }

  lemma {:induction false} MatchingJoinsHas(joins: seq<JoinRow>, values: seq<Key>, r: JoinRow)
    ensures r in MatchingJoins(joins, values) <==> r in joins && r.own in values
  {
    if joins != [] {
      MatchingJoinsHas(joins[..|joins| - 1], values, r);
      assert joins == joins[..|joins| - 1] + [joins[|joins| - 1]];
    }
  }

  /** Each element with a set key of this string is in the group once, and nothing else is. */
  lemma {:induction false} GroupCounts<T>(elems: seq<T>, keyOf: T -> Key, s: string, e: T)
    ensures Occurs(Group(elems, keyOf, s), e) ==
            if e in elems && !Unset(keyOf(e)) && ToStringKey(keyOf(e)) == s then 1 else 0
  {
    hide Unset, ToStringKey;
    if elems != [] {
      var rest, last := elems[..|elems| - 1], elems[|elems| - 1];
      GroupCounts(rest, keyOf, s, e);
      assert e in elems <==> e in rest || e == last;
      var group := Group(rest, keyOf, s);
      assert multiset(group + [last]) == multiset(group) + multiset{last} && group + [] == group;
    }
  }

  lemma GroupHas<T>(elems: seq<T>, keyOf: T -> Key, e: T)
    requires e in elems && !Unset(keyOf(e))
    ensures e in Group(elems, keyOf, ToStringKey(keyOf(e)))
  {
    GroupCounts(elems, keyOf, ToStringKey(keyOf(e)), e);
    assert Occurs(Group(elems, keyOf, ToStringKey(keyOf(e))), e) == 1;
  }

  /** A queried key is the set key of an element. */
  lemma {:induction false} KeysAreKeys<T>(elems: seq<T>, keyOf: T -> Key, k: Key) returns (e: T)
    requires k in Keys(elems, keyOf)
    ensures e in elems && keyOf(e) == k && !Unset(k)
  {
    hide Unset, ToStringKey, Group;
    var rest := elems[..|elems| - 1];
    if k in Keys(rest, keyOf) {
      e := KeysAreKeys(rest, keyOf, k);
    } else {
      e := elems[|elems| - 1];
    }
    assert elems == rest + [elems[|elems| - 1]];
  }

  /** Every key string there is, is queried for. */
  lemma {:induction false} KeysCover<T>(elems: seq<T>, keyOf: T -> Key, e: T) returns (k: Key)
    requires e in elems && !Unset(keyOf(e))
    ensures k in Keys(elems, keyOf) && ToStringKey(k) == ToStringKey(keyOf(e))
  {
    var rest, last := elems[..|elems| - 1], elems[|elems| - 1];
    assert elems == rest + [last];
    if e in rest {
      k := KeysCover(rest, keyOf, e);
    } else {
      var s := ToStringKey(keyOf(e));
      if Group(rest, keyOf, s) == [] {
        k := keyOf(e);
      } else {
        var f := Group(rest, keyOf, s)[0];
        GroupCounts(rest, keyOf, s, f);
        assert f in multiset(Group(rest, keyOf, s));
        k := KeysCover(rest, keyOf, f);
      }
    }
  }

  /** ... by one key only. */
  lemma {:induction false} KeysDiffer<T>(elems: seq<T>, keyOf: T -> Key, a: Key, b: Key)
    requires a in Keys(elems, keyOf) && b in Keys(elems, keyOf) && ToStringKey(a) == ToStringKey(b)
    ensures a == b
  {
    var rest, last := elems[..|elems| - 1], elems[|elems| - 1];
    if a in Keys(rest, keyOf) && b in Keys(rest, keyOf) {
      KeysDiffer(rest, keyOf, a, b);
    } else if a in Keys(rest, keyOf) {
      var e := KeysAreKeys(rest, keyOf, a);
      GroupHas(rest, keyOf, e);
    } else if b in Keys(rest, keyOf) {
      var e := KeysAreKeys(rest, keyOf, b);
      GroupHas(rest, keyOf, e);
    }
  }

  // ---------------------------------------------------------------- the nested-loop join

  /** No two of these keys have the same string. */
  ghost predicate Injective(ks: set<Key>) {
    forall a, b :: a in ks && b in ks && ToStringKey(a) == ToStringKey(b) ==> a == b
  }

  function SetKeys(parents: seq<Parent>): set<Key> {
    set p | p in parents && !Unset(p.key) :: p.key
  }

  datatype JoinTable = NoTable | Table(rows: seq<JoinRow>)

  /** How often a parent and a child meet: their keys are set and equal, or once for every
      row of the join table that names both. */
  function Meets(p: Parent, join: JoinTable, c: Child): nat {
    if Unset(p.key) || Unset(c.key) then 0
    else
      match join
      case NoTable => if c.key == p.key then 1 else 0
      case Table(rows) => multiset(rows)[JoinRow(p.key, c.key)]
  }

  /** The children of `p`, in the order of the table, with no key string in sight. */
  function NestedLoop(p: Parent, join: JoinTable, table: seq<Child>): seq<Child> {
    if table == [] then []
    else
      var c := table[|table| - 1];
      NestedLoop(p, join, table[..|table| - 1]) + Copies(c, Meets(p, join, c))
  }

  /** The keys that the second query asks for. */
  function Queried(parents: seq<Parent>, join: JoinTable): seq<Key> {
    match join
    case NoTable => Keys(parents, ParentKey)
    case Table(rows) => Keys(MatchingJoins(rows, Keys(parents, ParentKey)), JoinRel)
  }

  function PlanFor(parents: seq<Parent>, join: JoinTable): Plan {
    match join
    case NoTable => Direct
    case Table(rows) => Through(MatchingJoins(rows, Keys(parents, ParentKey)))
  }

  /** Keys that share a string do no harm. Directly, no two set parent keys do. Through a join
      table, parents whose keys do have the same join rows, and among the join rows of these
      parents no set child key shares its string with another key. */
  ghost predicate NoCollision(parents: seq<Parent>, join: JoinTable) {
    match join
    case NoTable => Injective(SetKeys(parents))
    case Table(rows) =>
      SameRows(SetKeys(parents), rows) && RelsApart(MatchingJoins(rows, Keys(parents, ParentKey)))
  }

  ghost predicate SameRows(owns: set<Key>, rows: seq<JoinRow>) {
    forall a, b, rel :: a in owns && b in owns && ToStringKey(a) == ToStringKey(b) && !Unset(rel) ==>
      multiset(rows)[JoinRow(a, rel)] == multiset(rows)[JoinRow(b, rel)]
  }

  ghost predicate RelsApart(joins: seq<JoinRow>) {
    forall r, q :: r in joins && q in joins && !Unset(r.rel) && ToStringKey(r.rel) == ToStringKey(q.rel) ==>
      r.rel == q.rel
  }

  lemma QueriedExactly(parents: seq<Parent>, k: Key)
    requires Injective(SetKeys(parents))
    ensures k in Keys(parents, ParentKey) <==> k in SetKeys(parents)
  {
    if k in Keys(parents, ParentKey) {
      var p := KeysAreKeys(parents, ParentKey, k);
    }
    if k in SetKeys(parents) {
      var p :| p in parents && !Unset(p.key) && p.key == k;
      var q := KeysCover(parents, ParentKey, p);
      var e := KeysAreKeys(parents, ParentKey, q);
    }
  }

  /** Per child: what the identity map lists, if the child was queried at all, is how often
      parent and child meet. */
  ghost predicate Right(parents: seq<Parent>, join: JoinTable, p: Parent, c: Child) {
    Meets(p, join, c) == if c.key in Queried(parents, join) then Times(PlanFor(parents, join), p, c.key) else 0
  }

  lemma DirectTimes(parents: seq<Parent>, p: Parent, c: Child)
    requires p in parents && Injective(SetKeys(parents))
    ensures Right(parents, NoTable, p, c)
  {
    hide ToStringKey, Unset;
    QueriedExactly(parents, c.key);
    if c.key in Keys(parents, ParentKey) {
      assert !Unset(c.key);
    }
    assert !Unset(p.key) ==> p.key in SetKeys(parents);
  }

  ghost predicate OnlyRel(joins: seq<JoinRow>, values: seq<Key>, rel: Key) {
    forall r :: r in joins && r.own in values && ToStringKey(r.rel) == ToStringKey(rel) ==> r.rel == rel
  }

  ghost predicate OnlyKey(values: seq<Key>, key: Key) {
    forall k :: k in values && ToStringKey(k) == ToStringKey(key) ==> k == key
  }

  lemma {:induction false} LinksCount(joins: seq<JoinRow>, values: seq<Key>, own: Key, rel: Key)
    requires own in values && OnlyKey(values, own) && OnlyRel(joins, values, rel)
    ensures Links(MatchingJoins(joins, values), ToStringKey(own), ToStringKey(rel)) ==
            multiset(joins)[JoinRow(own, rel)]
  {
    hide ToStringKey, OnlyKey, OnlyRel, Links;
    if joins == [] {
      NoLinks(ToStringKey(own), ToStringKey(rel));
    } else {
      var rest, r := joins[..|joins| - 1], joins[|joins| - 1];
      OnlyInRest(joins, values, own, rel);
      LinksCount(rest, values, own, rel);
      CountLast(joins, JoinRow(own, rel));
      LinksLast(MatchingJoins(rest, values), r, ToStringKey(own), ToStringKey(rel));
    }
  }

  lemma NoLinks(own: string, rel: string)
    ensures Links([], own, rel) == 0
  {
  }

  lemma OnlyInRest(joins: seq<JoinRow>, values: seq<Key>, own: Key, rel: Key)
    requires joins != [] && OnlyRel(joins, values, rel) && OnlyKey(values, own)
    ensures OnlyRel(joins[..|joins| - 1], values, rel)
    ensures var r := joins[|joins| - 1]; r.own in values && ToStringKey(r.rel) == ToStringKey(rel) ==> r.rel == rel
    ensures var r := joins[|joins| - 1]; r.own in values && ToStringKey(r.own) == ToStringKey(own) ==> r.own == own
  {
  }

  lemma LinksLast(joins: seq<JoinRow>, r: JoinRow, own: string, rel: string)
    ensures Links(joins + [r], own, rel) ==
            Links(joins, own, rel) + if ToStringKey(r.own) == own && ToStringKey(r.rel) == rel then 1 else 0
    ensures joins + [] == joins
  {
    assert (joins + [r])[..|joins|] == joins;
  }

  lemma CountLast<T>(s: seq<T>, e: T)
    requires s != []
    ensures multiset(s)[e] == multiset(s[..|s| - 1])[e] + if s[|s| - 1] == e then 1 else 0
  {
    assert s == s[..|s| - 1] + [s[|s| - 1]];
  }

  /** The parent key that is queried for this one: the join rows are the same. */
  lemma Representative(parents: seq<Parent>, joins: seq<JoinRow>, p: Parent, rel: Key) returns (own: Key)
    requires p in parents && !Unset(p.key) && !Unset(rel) && SameRows(SetKeys(parents), joins)
    ensures own in Keys(parents, ParentKey) && ToStringKey(own) == ToStringKey(p.key)
    ensures multiset(joins)[JoinRow(own, rel)] == multiset(joins)[JoinRow(p.key, rel)]
  {
    hide ToStringKey, Unset;
    own := KeysCover(parents, ParentKey, p);
    var e := KeysAreKeys(parents, ParentKey, own);
    assert own in SetKeys(parents) && p.key in SetKeys(parents);
  }

  lemma JoinedTimes(parents: seq<Parent>, joins: seq<JoinRow>, p: Parent, c: Child)
    requires p in parents && NoCollision(parents, Table(joins))
    ensures Right(parents, Table(joins), p, c)
  {
    hide ToStringKey, Unset, Links, MatchingJoins, Keys, SameRows, RelsApart;
    var owns := Keys(parents, ParentKey);
    var found := MatchingJoins(joins, owns);
    if c.key in Keys(found, JoinRel) {
      var r := KeysAreKeys(found, JoinRel, c.key);
      if !Unset(p.key) {
        var own := Representative(parents, joins, p, c.key);
        OnlyOwn(parents, own);
        FoundApart(joins, owns, r);
        LinksCount(joins, owns, own, c.key);
      }
    } else if !Unset(p.key) && !Unset(c.key) && JoinRow(p.key, c.key) in joins {
      var own := Representative(parents, joins, p, c.key);
      var r := JoinRow(own, c.key);
      MatchingJoinsHas(joins, owns, r);
      var k := KeysCover(found, JoinRel, r);
      var e := KeysAreKeys(found, JoinRel, k);
      SameRel(found, e, r);
      assert false;
    }
  }

  lemma SameRel(joins: seq<JoinRow>, a: JoinRow, b: JoinRow)
    requires a in joins && b in joins && RelsApart(joins) && !Unset(a.rel)
    requires ToStringKey(a.rel) == ToStringKey(b.rel)
    ensures a.rel == b.rel
  {
  }

  lemma OnlyOwn(parents: seq<Parent>, own: Key)
    requires own in Keys(parents, ParentKey)
    ensures OnlyKey(Keys(parents, ParentKey), own)
  {
    forall k | k in Keys(parents, ParentKey) && ToStringKey(k) == ToStringKey(own) ensures k == own {
      KeysDiffer(parents, ParentKey, k, own);
    }
  }

  lemma FoundApart(joins: seq<JoinRow>, values: seq<Key>, r: JoinRow)
    requires r in MatchingJoins(joins, values) && RelsApart(MatchingJoins(joins, values)) && !Unset(r.rel)
    ensures OnlyRel(joins, values, r.rel)
  {
    hide ToStringKey, Unset, MatchingJoins;
    forall q | q in joins && q.own in values && ToStringKey(q.rel) == ToStringKey(r.rel) ensures q.rel == r.rel {
      MatchingJoinsHas(joins, values, q);
      SameRel(MatchingJoins(joins, values), r, q);
    }
  }

  /** The hash join over the queried rows is the nested-loop join over the whole table, row
      for row and in the same order. */
  lemma {:induction false} HashJoinIsNestedLoop(parents: seq<Parent>, join: JoinTable, p: Parent, table: seq<Child>)
    requires p in parents && NoCollision(parents, join)
    ensures Joined(PlanFor(parents, join), p, Matching(table, Queried(parents, join))) == NestedLoop(p, join, table)
  {
    hide Times, Meets, NoCollision, PlanFor, Queried;
    if table != [] {
      var rest, c := table[..|table| - 1], table[|table| - 1];
      HashJoinIsNestedLoop(parents, join, p, rest);
      var found := Matching(rest, Queried(parents, join));
      assert (found + [c])[..|found|] == found && found + [] == found;
      MeetsTimes(parents, join, p, c);
      var loop := NestedLoop(p, join, rest);
      assert loop + Copies(c, 0) == loop;
    }
  }

  lemma MeetsTimes(parents: seq<Parent>, join: JoinTable, p: Parent, c: Child)
    requires p in parents && NoCollision(parents, join)
    ensures Right(parents, join, p, c)
  {
    match join
    case NoTable => DirectTimes(parents, p, c);
    case Table(rows) => JoinedTimes(parents, rows, p, c);
  }

  // ---------------------------------------------------------------- preload

  lemma DirectLists(parents: seq<Parent>, data: map<string, seq<Parent>>)
    requires Indexes(parents, ParentKey, data)
    ensures Lists(parents, Direct, data)
  {
    hide ToStringKey, Unset;
    forall s, p | s in data && p in data[s] ensures p in parents {
      assert Slot(data, s) == Group(parents, ParentKey, s);
      GroupCounts(parents, ParentKey, s, p);
      assert Occurs(data[s], p) > 0;
    }
    forall p, k | p in parents ensures Occurs(Slot(data, ToStringKey(k)), p) == Times(Direct, p, k) {
      GroupCounts(parents, ParentKey, ToStringKey(k), p);
    }
  }

  /** The relation identity map while the join rows are gone through. */
  ghost predicate Linked(parents: seq<Parent>, joins: seq<JoinRow>, identityMap: map<string, seq<Parent>>) {
    && (forall s, p :: s in identityMap && p in identityMap[s] ==> p in parents)
    && (forall p, s :: p in parents ==> Occurs(Slot(identityMap, s), p) == Reached(joins, p, s))
  }

  lemma Occurring<T>(group: seq<T>, e: T)
    ensures e in group <==> Occurs(group, e) > 0
  {
  }

  lemma OccursSum<T>(a: seq<T>, b: seq<T>, e: T)
    ensures Occurs(a + b, e) == Occurs(a, e) + Occurs(b, e)
  {
  }

  lemma LinkedAt(parents: seq<Parent>, joins: seq<JoinRow>, identityMap: map<string, seq<Parent>>, p: Parent, s: string)
    requires Linked(parents, joins, identityMap) && p in parents
    ensures Occurs(Slot(identityMap, s), p) == Reached(joins, p, s)
  {
    hide Unset, ToStringKey, Links, Slot, Occurs, Reached;
  }

  lemma LinkedStep(parents: seq<Parent>, joins: seq<JoinRow>, r: JoinRow, byOwn: map<string, seq<Parent>>,
                   identityMap: map<string, seq<Parent>>)
    requires Linked(parents, joins, identityMap)
    requires Indexes(parents, ParentKey, byOwn)
    ensures ToStringKey(r.own) in byOwn ==>
              var s := ToStringKey(r.rel);
              Linked(parents, joins + [r], identityMap[s := Slot(identityMap, s) + byOwn[ToStringKey(r.own)]])
    ensures ToStringKey(r.own) !in byOwn ==> Linked(parents, joins + [r], identityMap)
  {
    hide ToStringKey, Unset, Links, Group, Occurs;
    var own, rel := ToStringKey(r.own), ToStringKey(r.rel);
    var results := Slot(byOwn, own);
    assert results == Group(parents, ParentKey, own);
    var next := if own in byOwn then identityMap[rel := Slot(identityMap, rel) + results] else identityMap;
    forall s, p | s in next && p in next[s] ensures p in parents {
      GroupCounts(parents, ParentKey, own, p);
      Occurring(results, p);
      assert s != rel ==> s in identityMap;
    }
    forall p, s | p in parents
      ensures Occurs(Slot(next, s), p) == Reached(joins + [r], p, s)
    {
      GroupCounts(parents, ParentKey, own, p);
      LinksLast(joins, r, ToStringKey(p.key), s);
      LinkedAt(parents, joins, identityMap, p, s);
      if s == rel {
        assert Slot(next, s) == Slot(identityMap, s) + results;
        OccursSum(Slot(identityMap, s), results, p);
      }
    }
  }

  /** "convert join identity map to relation identity map". */
  method JoinIdentities(parents: seq<Parent>, byOwn: map<string, seq<Parent>>, joins: seq<JoinRow>)
    returns (identityMap: map<string, seq<Parent>>)
    requires Indexes(parents, ParentKey, byOwn)
    ensures Lists(parents, Through(joins), identityMap)
    ensures forall r :: r in joins && ToStringKey(r.own) in byOwn ==> ToStringKey(r.rel) in identityMap
  {
    hide ToStringKey, Unset, Indexes, Linked, Links;
    identityMap := map[];
    NothingLinked(parents);
    assert joins[..0] == [];
    for i := 0 to |joins|
      invariant Linked(parents, joins[..i], identityMap)
      invariant forall r :: r in joins[..i] && ToStringKey(r.own) in byOwn ==> ToStringKey(r.rel) in identityMap
    {
      var r := joins[i];
      LinkedStep(parents, joins[..i], r, byOwn, identityMap);
      assert joins[..i + 1] == joins[..i] + [r];
      var own := ToStringKey(r.own);
      if own in byOwn {
        var joinKey := ToStringKey(r.rel);
        identityMap := identityMap[joinKey := Slot(identityMap, joinKey) + byOwn[own]];
      }
    }
    assert joins[..|joins|] == joins;
    LinkedLists(parents, joins, identityMap);
  }

  lemma NothingLinked(parents: seq<Parent>)
    ensures Linked(parents, [], map[])
  {
  }

  lemma LinkedLists(parents: seq<Parent>, joins: seq<JoinRow>, identityMap: map<string, seq<Parent>>)
    requires Linked(parents, joins, identityMap)
    ensures Lists(parents, Through(joins), identityMap)
  {
    hide ToStringKey, Unset, Links;
  }

  /** A queried child always finds its parents. */
  lemma QueriedIsIndexed<T>(elems: seq<T>, keyOf: T -> Key, data: map<string, seq<T>>, k: Key)
    requires Indexes(elems, keyOf, data) && k in Keys(elems, keyOf)
    ensures ToStringKey(k) in data
  {
    var e := KeysAreKeys(elems, keyOf, k);
    GroupHas(elems, keyOf, e);
    assert Slot(data, ToStringKey(k)) == Group(elems, keyOf, ToStringKey(k));
  }

  ghost predicate NoSetKey(parents: seq<Parent>) { forall p :: p in parents ==> Unset(p.key) }

  lemma NothingToQuery(parents: seq<Parent>)
    ensures Keys(parents, ParentKey) == [] <==> NoSetKey(parents)
  {
    hide Unset;
    if p :| p in parents && !Unset(p.key) {
      var k := KeysCover(parents, ParentKey, p);
    }
    if Keys(parents, ParentKey) != [] {
      var p := KeysAreKeys(parents, ParentKey, Keys(parents, ParentKey)[0]);
    }
  }

  predicate QueryFails(join: JoinTable, queried: seq<Key>, joinFails: bool, fails: bool) {
    (join.Table? && joinFails) || (queried != [] && fails)
  }

  /** preload. `joinFails` and `fails` say that the query for the join rows or for the children
      returns an error; `table` holds the children that satisfy the conditions given with the
      preload, in result order. */
  method Preload(kind: Kind, parents: seq<Parent>, join: JoinTable, table: seq<Child>, joinFails: bool, fails: bool)
    returns (outcome: Outcome)
    modifies set p | p in parents
    ensures NoSetKey(parents) ==> outcome == Done
    ensures !NoSetKey(parents) ==>
              outcome == if QueryFails(join, Queried(parents, join), joinFails, fails) then QueryFailed else Done
    ensures outcome == QueryFailed <==>
              !NoSetKey(parents) && ((join.Table? && joinFails) || (fails && Queried(parents, join) != []))
    ensures outcome == QueryFailed || outcome == Done
    ensures NoSetKey(parents) || outcome == QueryFailed ==> forall p :: p in parents ==> unchanged(p)
    ensures !NoSetKey(parents) && outcome == Done ==>
              forall p :: p in parents ==>
                p.related == Held(kind, Joined(PlanFor(parents, join), p, Matching(table, Queried(parents, join))))
    ensures !NoSetKey(parents) && outcome == Done && NoCollision(parents, join) ==>
              forall p :: p in parents ==> p.related == Held(kind, NestedLoop(p, join, table))
    ensures !NoSetKey(parents) && outcome == Done && NoCollision(parents, join) ==>
              forall p :: p in parents ==>
                var cs := NestedLoop(p, join, table);
                p.related == if kind.Many? then cs else if cs == [] then [] else [cs[|cs| - 1]]
  {
    hide ToStringKey, Unset, Indexes, Lists, Keys, Matching, MatchingJoins, Joined, NestedLoop, NoCollision, Held;
    var identityMap, foreignValues := GetIdentityFieldValuesMap(parents, ParentKey);
    NothingToQuery(parents);
    if foreignValues == [] {
      return Done;
    }
    if join.Table? {
      if joinFails {
        return QueryFailed;
      }
      var joinResults := MatchingJoins(join.rows, foreignValues);
      var byOwn, owns := identityMap, foreignValues;
      identityMap := JoinIdentities(parents, byOwn, joinResults);
      var byRel;
      byRel, foreignValues := GetIdentityFieldValuesMap(joinResults, JoinRel);
      forall k | k in foreignValues ensures ToStringKey(k) in identityMap {
        var r := KeysAreKeys(joinResults, JoinRel, k);
        MatchingJoinsHas(join.rows, owns, r);
        QueriedIsIndexed(parents, ParentKey, byOwn, r.own);
      }
    } else {
      DirectLists(parents, identityMap);
      forall k | k in foreignValues ensures ToStringKey(k) in identityMap {
        QueriedIsIndexed(parents, ParentKey, identityMap, k);
      }
    }
    var results := [];
    if foreignValues != [] {
      if fails {
        return QueryFailed;
      }
      results := Matching(table, foreignValues);
    }
    assert results == Matching(table, foreignValues) by { NothingMatches(table); }
    Clear(parents);
    forall c | c in results ensures ToStringKey(c.key) in identityMap {
      MatchingHas(table, foreignValues, c);
    }
    outcome := Assign(kind, parents, identityMap, results, PlanFor(parents, join));
    if NoCollision(parents, join) {
      forall p | p in parents ensures p.related == Held(kind, NestedLoop(p, join, table)) {
        HashJoinIsNestedLoop(parents, join, p, table);
      }
      forall p | p in parents {
        KeptIs(kind, NestedLoop(p, join, table));
      }
    }
  }

  lemma KeptIs(kind: Kind, cs: seq<Child>)
    ensures Held(kind, cs) == if kind.Many? then cs else if cs == [] then [] else [cs[|cs| - 1]]
  {
  }

  lemma {:induction false} NothingMatches(table: seq<Child>)
    ensures Matching(table, []) == []
  {
    if table != [] {
      NothingMatches(table[..|table| - 1]);
    }
  }

  /** "clean up old values before preloading". */
  method Clear(parents: seq<Parent>)
    modifies set p | p in parents
    ensures forall p :: p in parents ==> p.related == []
  {
    for i := 0 to |parents|
      invariant forall p :: p in parents[..i] ==> p.related == []
    {
      parents[i].related := [];
      assert parents[..i + 1] == parents[..i] + [parents[i]];
    }
    assert parents[..|parents|] == parents;
  }

  // ---------------------------------------------------------------- when keys collide

  /** A preload is right for all parents and tables if and only if no strings collide. */
  lemma ExactIffNoCollision(parents: seq<Parent>, join: JoinTable)
    ensures NoCollision(parents, join) <==>
            forall p, table :: p in parents ==>
              Joined(PlanFor(parents, join), p, Matching(table, Queried(parents, join))) == NestedLoop(p, join, table)
  {
    hide NoCollision, Joined, PlanFor, Queried, NestedLoop, Matching, Right;
    if NoCollision(parents, join) {
      forall p, table | p in parents
        ensures Joined(PlanFor(parents, join), p, Matching(table, Queried(parents, join))) == NestedLoop(p, join, table)
      {
        HashJoinIsNestedLoop(parents, join, p, table);
      }
    } else {
      var p, c := CollisionHarms(parents, join);
      OneRow(parents, join, p, c);
      assert Joined(PlanFor(parents, join), p, Matching([c], Queried(parents, join))) != NestedLoop(p, join, [c]);
    }
  }

  /** On a table of one row the preload is right exactly if it is for that row. */
  lemma OneRow(parents: seq<Parent>, join: JoinTable, p: Parent, c: Child)
    ensures Right(parents, join, p, c) <==>
            Joined(PlanFor(parents, join), p, Matching([c], Queried(parents, join))) == NestedLoop(p, join, [c])
  {
    hide Times, Meets, PlanFor, Queried, Joined, NestedLoop, Matching, Copies;
    var plan, values := PlanFor(parents, join), Queried(parents, join);
    NestedRow(p, join, c);
    MatchingRow(values, c);
    if c.key in values {
      JoinedRow(plan, p, c);
    } else {
      assert Joined(plan, p, []) == [] by { NothingJoined(plan, p); }
    }
  }

  lemma NothingJoined(plan: Plan, p: Parent)
    ensures Joined(plan, p, []) == []
  {
  }

  lemma NestedRow(p: Parent, join: JoinTable, c: Child)
    ensures |NestedLoop(p, join, [c])| == Meets(p, join, c)
    ensures NestedLoop(p, join, [c]) == Copies(c, Meets(p, join, c))
  {
    hide Meets;
    assert [c][..0] == [];
  }

  lemma MatchingRow(values: seq<Key>, c: Child)
    ensures Matching([c], values) == if c.key in values then [c] else []
  {
    assert [c][..0] == [];
  }

  lemma JoinedRow(plan: Plan, p: Parent, c: Child)
    ensures |Joined(plan, p, [c])| == Times(plan, p, c.key)
    ensures Joined(plan, p, [c]) == Copies(c, Times(plan, p, c.key))
  {
    hide Times;
    assert [c][..0] == [];
  }

  lemma CollisionHarms(parents: seq<Parent>, join: JoinTable) returns (p: Parent, c: Child)
    requires !NoCollision(parents, join)
    ensures p in parents && !Right(parents, join, p, c)
  {
    hide ToStringKey, Unset, Right, SameRows, RelsApart, Injective;
    match join
    case NoTable => p, c := LostChild(parents);
    case Table(rows) =>
      if !SameRows(SetKeys(parents), rows) {
        p, c := UnlikeParents(parents, rows);
      } else {
        p, c := SharedRel(parents, rows);
      }
  }

  /** Of two parent keys with one string only one is queried for: the other's child is lost. */
  lemma LostChild(parents: seq<Parent>) returns (p: Parent, c: Child)
    requires !Injective(SetKeys(parents))
    ensures p in parents && !Right(parents, NoTable, p, c)
  {
    hide ToStringKey, Unset, Keys;
    var a, b :| a in SetKeys(parents) && b in SetKeys(parents) && ToStringKey(a) == ToStringKey(b) && a != b;
    var lost := if a in Keys(parents, ParentKey) then b else a;
    if lost in Keys(parents, ParentKey) {
      KeysDiffer(parents, ParentKey, a, b);
    }
    p :| p in parents && !Unset(p.key) && p.key == lost;
    c := Child(lost, 0);
  }

  /** Parents whose keys share a string get the same children: wrong for one of them. */
  lemma UnlikeParents(parents: seq<Parent>, rows: seq<JoinRow>) returns (p: Parent, c: Child)
    requires !SameRows(SetKeys(parents), rows)
    ensures p in parents && !Right(parents, Table(rows), p, c)
  {
    hide ToStringKey, Unset, Keys, Links, MatchingJoins;
    var a, b, rel :| a in SetKeys(parents) && b in SetKeys(parents) && ToStringKey(a) == ToStringKey(b) && !Unset(rel)
      && multiset(rows)[JoinRow(a, rel)] != multiset(rows)[JoinRow(b, rel)];
    var x :| x in parents && !Unset(x.key) && x.key == a;
    var y :| y in parents && !Unset(y.key) && y.key == b;
    c := Child(rel, 0);
    p := if Right(parents, Table(rows), x, c) then y else x;
  }

  /** A child whose key shares its string with the key in another join row is given to the
      parent of that row too. */
  lemma SharedRel(parents: seq<Parent>, rows: seq<JoinRow>) returns (p: Parent, c: Child)
    requires !RelsApart(MatchingJoins(rows, Keys(parents, ParentKey)))
    ensures p in parents && !Right(parents, Table(rows), p, c)
  {
    hide ToStringKey, Unset, Keys, Links, MatchingJoins;
    var owns := Keys(parents, ParentKey);
    var found := MatchingJoins(rows, owns);
    var r, s :| r in found && s in found && !Unset(r.rel) && ToStringKey(r.rel) == ToStringKey(s.rel) && r.rel != s.rel;
    var k := KeysCover(found, JoinRel, r);
    var e := KeysAreKeys(found, JoinRel, k);
    var q := if r.rel == k then s else r;
    MatchingJoinsHas(rows, owns, q);
    p := KeysAreKeys(parents, ParentKey, q.own);
    c := Child(k, 0);
    LinksBoth(rows, owns, q, k);
  }

  /** Rows with either of two child keys of one string are links for it. */
  lemma {:induction false} LinksBoth(joins: seq<JoinRow>, values: seq<Key>, q: JoinRow, rel: Key)
    requires q.own in values && q.rel != rel && ToStringKey(q.rel) == ToStringKey(rel)
    ensures Links(MatchingJoins(joins, values), ToStringKey(q.own), ToStringKey(rel)) >=
            multiset(joins)[JoinRow(q.own, rel)] + multiset(joins)[q]
  {
    hide ToStringKey, Links;
    if joins == [] {
      NoLinks(ToStringKey(q.own), ToStringKey(rel));
    } else {
      var rest, r := joins[..|joins| - 1], joins[|joins| - 1];
      LinksBoth(rest, values, q, rel);
      CountLast(joins, q);
      CountLast(joins, JoinRow(q.own, rel));
      LinksLast(MatchingJoins(rest, values), r, ToStringKey(q.own), ToStringKey(rel));
    }
  }

  /** A parent holds each child as often as the table has it and the two meet. */
  lemma {:induction false} NestedLoopCounts(p: Parent, join: JoinTable, table: seq<Child>, c: Child)
    ensures multiset(NestedLoop(p, join, table))[c] == multiset(table)[c] * Meets(p, join, c)
  {
    hide Meets;
    if table != [] {
      var rest, last := table[..|table| - 1], table[|table| - 1];
      NestedLoopCounts(p, join, rest, c);
      CopiesCount(last, Meets(p, join, last), c);
      OneMore(multiset(rest)[c], multiset(table)[c], last == c, Meets(p, join, c)) by {
        CountLast(table, c);
      }
    }
  }

  lemma OneMore(n: nat, next: nat, more: bool, m: nat)
    requires next == n + if more then 1 else 0
    ensures next * m == n * m + if more then m else 0
  {
  }

  lemma {:induction false} CopiesCount(c: Child, n: nat, d: Child)
    ensures multiset(Copies(c, n))[d] == if c == d then n else 0
  {
    if n > 0 {
      CopiesCount(c, n - 1, d);
      assert Copies(c, n) == Copies(c, n - 1) + [c];
    }
  }
}
