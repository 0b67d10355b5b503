/** ReorderModels of gorm/migrator/migrator.go: the models to migrate, each after the models
    that its constraints refer to. The graph is discovered while it is walked: a model's
    recorded dependencies are known only after the model has been parsed. */
module ReorderModels {

  type Table = string

  /** A value passed to the migrator: the name of a table, or a model. `Blank` is the instance
      that is created for a model that was discovered. */
  datatype Value = Name(name: string) | Model(table: Table, instance: int) | Blank(table: Table)

  datatype Dependency = Dependency(dest: Value, depends: seq<Table>)

  /** What parsing records: for each model, the models its constraints refer to. */
  type Graph = map<Table, seq<Table>>

  ghost predicate Closed(g: Graph) { forall t, d :: t in g && d in g[t] ==> d in g }

  // ---------------------------------------------------------------- the walk

  datatype State = State(known: map<Table, Dependency>, visited: set<Table>, order: seq<Table>)

  ghost predicate Fits(g: Graph, st: State) {
    && Closed(g)
    && (forall t :: t in st.known ==> t in g && st.known[t].depends == g[t])
    && (forall t :: t in st.visited ==> t in st.known)
  }

  /** The first value parsed for a table stays. */
  function Parsed(g: Graph, known: map<Table, Dependency>, v: Value): map<Table, Dependency>
    requires !v.Name? && v.table in g
  {
    if v.table in known then known else known[v.table := Dependency(v, g[v.table])]
  }

  function Insert(g: Graph, autoAdd: bool, st: State, name: Table): (r: State)
    requires Fits(g, st) && name in st.known
    ensures Fits(g, r) && st.visited <= r.visited && st.known.Keys <= r.known.Keys
    decreases g.Keys - st.visited, 0
  {
    if name in st.visited then st
    else
      var entered := st.(visited := st.visited + {name});
      var left := if autoAdd then InsertAll(g, entered, st.known[name].depends) else entered;
      left.(order := left.order + [name])
  }

  function InsertAll(g: Graph, st: State, depends: seq<Table>): (r: State)
    requires Fits(g, st) && (forall d :: d in depends ==> d in g)
    ensures Fits(g, r) && st.visited <= r.visited && st.known.Keys <= r.known.Keys
    decreases g.Keys - st.visited, |depends|
  {
    if depends == [] then st
    else
      var d := depends[0];
      InsertAll(g, Insert(g, true, st.(known := Parsed(g, st.known, Blank(d))), d), depends[1..])
  }

  // ---------------------------------------------------------------- reachability

  ghost predicate IsPath(g: Graph, p: seq<Table>) {
    && p != []
    && (forall i :: 0 <= i < |p| ==> p[i] in g)
    && (forall i :: 0 <= i < |p| - 1 ==> p[i + 1] in g[p[i]])
  }

  /** Along recorded dependencies, in any number of steps. */
  ghost predicate Reaches(g: Graph, a: Table, b: Table) {
    exists p :: IsPath(g, p) && p[0] == a && p[|p| - 1] == b
  }

  lemma ReachesItself(g: Graph, a: Table)
    requires a in g
    ensures Reaches(g, a, a)
  {
    assert IsPath(g, [a]);
  }

  lemma ReachesNext(g: Graph, a: Table, b: Table, c: Table)
    requires Closed(g) && Reaches(g, a, b) && c in g[b]
    ensures Reaches(g, a, c)
  {
    var p :| IsPath(g, p) && p[0] == a && p[|p| - 1] == b;
    var q := p + [c];
    assert forall i :: 0 <= i < |p| ==> q[i] == p[i];
    assert IsPath(g, q) && q[0] == a && q[|q| - 1] == c;
  }

  // ---------------------------------------------------------------- what one walk does

  /** Nothing is emitted twice or unvisited. */
  ghost predicate Tidy(st: State) {
    && (forall i, j :: 0 <= i < j < |st.order| ==> st.order[i] != st.order[j])
    && (forall t :: t in st.order ==> t in st.visited)
  }

  /** Entered but not yet emitted: the models whose dependencies are being walked. */
  function Open(st: State): set<Table> { set t | t in st.visited && t !in st.order }

  /** `r` continues `st`: the same models are open, what was emitted and known stays, and a
      model that became known is a new instance and was visited. */
  ghost predicate Continues(st: State, r: State) {
    && Tidy(r)
    && Open(r) == Open(st)
    && st.visited <= r.visited
    && st.order <= r.order
    && (forall t :: t in st.known ==> t in r.known && r.known[t] == st.known[t])
    && (forall t :: t in r.known && t !in st.known ==> t in r.visited && r.known[t].dest == Blank(t))
  }

  lemma {:induction false} InsertContinues(g: Graph, autoAdd: bool, st: State, name: Table)
    requires Fits(g, st) && name in st.known && Tidy(st)
    ensures Continues(st, Insert(g, autoAdd, st, name))
    ensures name in Insert(g, autoAdd, st, name).visited
    decreases g.Keys - st.visited, 0
  {
    if name !in st.visited {
      var entered := st.(visited := st.visited + {name});
      var left := if autoAdd then InsertAll(g, entered, st.known[name].depends) else entered;
      if autoAdd {
        InsertAllContinues(g, entered, st.known[name].depends);
      }
      Leave(st, entered, left, name);
    }
  }

  lemma Leave(st: State, entered: State, left: State, name: Table)
    requires Tidy(st) && name !in st.visited && name in st.known
    requires entered == st.(visited := st.visited + {name}) && Continues(entered, left)
    ensures Continues(st, left.(order := left.order + [name]))
  {
    assert Open(entered) == Open(st) + {name};
    assert name in Open(left);
    var r := left.(order := left.order + [name]);
    assert forall t :: t in r.order <==> t in left.order || t == name;
    assert Open(r) == Open(left) - {name};
  }

  lemma {:induction false} InsertAllContinues(g: Graph, st: State, depends: seq<Table>)
    requires Fits(g, st) && (forall d :: d in depends ==> d in g) && Tidy(st)
    ensures Continues(st, InsertAll(g, st, depends))
    ensures forall d :: d in depends ==> d in InsertAll(g, st, depends).visited
    decreases g.Keys - st.visited, |depends|
  {
    hide Insert, Fits, Continues, Tidy;
    if depends == [] {
      Unmoved(st);
    } else {
      var d := depends[0];
      var found := st.(known := Parsed(g, st.known, Blank(d)));
      assert Tidy(found) by { SameTidy(st, found); }
      FitsFound(g, st, d);
      InsertContinues(g, true, found, d);
      var next := Insert(g, true, found, d);
      assert Tidy(next) by { StaysTidy(found, next); }
      InsertAllContinues(g, next, depends[1..]);
      Carried(st, found, next, InsertAll(g, next, depends[1..]), d);
    }
  }

  lemma FitsFound(g: Graph, st: State, d: Table)
    requires Fits(g, st) && d in g
    ensures Fits(g, st.(known := Parsed(g, st.known, Blank(d))))
  {
  }

  lemma Unmoved(st: State)
    requires Tidy(st)
    ensures Continues(st, st)
  {
  }

  lemma SameTidy(st: State, r: State)
    requires Tidy(st) && r.order == st.order && r.visited == st.visited
    ensures Tidy(r)
  {
  }

  lemma StaysTidy(st: State, r: State)
    requires Continues(st, r)
    ensures Tidy(r)
  {
  }

  /** A discovered dependency `d` that was inserted, and what came after. */
  lemma Carried(st: State, found: State, next: State, r: State, d: Table)
    requires found.order == st.order && found.visited == st.visited
    requires found.known == st.known || (d !in st.known && found.known.Keys == st.known.Keys + {d} &&
                                         found.known[d].dest == Blank(d) &&
                                         forall t :: t in st.known ==> found.known[t] == st.known[t])
    requires Continues(found, next) && d in next.visited && Continues(next, r)
    ensures Continues(st, r) && d in r.visited
  {
    assert Open(found) == Open(st);
  }

  // ---------------------------------------------------------------- order

  /** Every dependency of an emitted model was emitted before it, unless it leads back. */
  ghost predicate Ordered(g: Graph, order: seq<Table>) {
    forall j, d :: 0 <= j < |order| && order[j] in g && d in g[order[j]] ==>
      d in order[..j] || Reaches(g, d, order[j])
  }

  ghost predicate OpenReach(g: Graph, st: State, name: Table) {
    forall t :: t in Open(st) ==> Reaches(g, t, name)
  }

  lemma {:induction false} InsertOrders(g: Graph, st: State, name: Table)
    requires Fits(g, st) && name in st.known && Tidy(st)
    requires Ordered(g, st.order) && OpenReach(g, st, name)
    ensures Ordered(g, Insert(g, true, st, name).order)
    decreases g.Keys - st.visited, 0
  {
    if name !in st.visited {
      var entered := st.(visited := st.visited + {name});
      ReachesItself(g, name);
      assert Open(entered) == Open(st) + {name};
      InsertAllOrders(g, entered, name, g[name]);
      InsertAllContinues(g, entered, g[name]);
      var left := InsertAll(g, entered, g[name]);
      forall d | d in g[name] ensures d in left.order || Reaches(g, d, name) {
        assert d in left.order || d in Open(left);
      }
      OrderedAppend(g, left.order, name);
    }
  }

  lemma OrderedAppend(g: Graph, order: seq<Table>, name: Table)
    requires name in g && Ordered(g, order)
    requires forall d :: d in g[name] ==> d in order || Reaches(g, d, name)
    ensures Ordered(g, order + [name])
  {
    hide Reaches;
    var longer := order + [name];
    forall j, d | 0 <= j < |longer| && longer[j] in g && d in g[longer[j]]
      ensures d in longer[..j] || Reaches(g, d, longer[j])
    {
      if j < |order| {
        assert longer[..j] == order[..j];
      } else {
        assert longer[..j] == order;
      }
    }
  }

  lemma {:induction false} InsertAllOrders(g: Graph, st: State, name: Table, depends: seq<Table>)
    requires Fits(g, st) && Tidy(st) && name in g && (forall d :: d in depends ==> d in g[name])
    requires Ordered(g, st.order) && OpenReach(g, st, name)
    ensures Ordered(g, InsertAll(g, st, depends).order)
    decreases g.Keys - st.visited, |depends|
  {
    if depends != [] {
      var d := depends[0];
      var found := st.(known := Parsed(g, st.known, Blank(d)));
      forall t | t in Open(found) ensures Reaches(g, t, d) {
        assert t in Open(st);
        ReachesNext(g, t, name, d);
      }
      InsertOrders(g, found, d);
      InsertContinues(g, true, found, d);
      var next := Insert(g, true, found, d);
      assert Open(next) == Open(found) == Open(st);
      InsertAllOrders(g, next, name, depends[1..]);
    }
  }

  // ---------------------------------------------------------------- what is emitted

  /** Everything visited anew is reachable from `name`, and its dependencies are visited too. */
  ghost predicate Explores(g: Graph, st: State, r: State, name: Table) {
    forall t :: t in r.visited && t !in st.visited ==>
      Reaches(g, name, t) && (forall d :: d in g[t] ==> d in r.visited)
  }

  lemma {:induction false} InsertExplores(g: Graph, st: State, name: Table, root: Table)
    requires Fits(g, st) && name in st.known && Tidy(st) && Reaches(g, root, name)
    ensures Explores(g, st, Insert(g, true, st, name), root)
    decreases g.Keys - st.visited, 0
  {
    hide Reaches;
    if name !in st.visited {
      var entered := st.(visited := st.visited + {name});
      InsertAllExplores(g, entered, name, g[name], root);
      InsertAllContinues(g, entered, g[name]);
    }
  }

  lemma {:induction false} InsertAllExplores(g: Graph, st: State, name: Table, depends: seq<Table>, root: Table)
    requires Fits(g, st) && Tidy(st) && name in g && (forall d :: d in depends ==> d in g[name])
    requires Reaches(g, root, name)
    ensures Explores(g, st, InsertAll(g, st, depends), root)
    decreases g.Keys - st.visited, |depends|
  {
    hide Reaches;
    if depends != [] {
      var d := depends[0];
      var found := st.(known := Parsed(g, st.known, Blank(d)));
      ReachesNext(g, root, name, d);
      InsertExplores(g, found, d, root);
      InsertContinues(g, true, found, d);
      var next := Insert(g, true, found, d);
      InsertAllExplores(g, next, name, depends[1..], root);
    }
  }

  // ---------------------------------------------------------------- the whole call

  function InsertEach(g: Graph, autoAdd: bool, st: State, names: seq<Table>): (r: State)
    requires Fits(g, st) && (forall n :: n in names ==> n in st.known)
    ensures Fits(g, r) && st.known.Keys <= r.known.Keys
  {
    if names == [] then st
    else
      var init := InsertEach(g, autoAdd, st, names[..|names| - 1]);
      Insert(g, autoAdd, init, names[|names| - 1])
  }

  function Names(values: seq<Value>): seq<Value> {
    if values == [] then []
    else
      var v := values[|values| - 1];
      Names(values[..|values| - 1]) + if v.Name? then [v] else []
  }

  /** The requested models, each once, in the order they were first given. */
  function Requested(values: seq<Value>): seq<Table> {
    if values == [] then []
    else
      var v, rest := values[|values| - 1], Requested(values[..|values| - 1]);
      rest + if v.Name? || v.table in rest then [] else [v.table]
  }

  ghost predicate Known(g: Graph, values: seq<Value>) {
    forall v :: v in values && !v.Name? ==> v.table in g
  }

  function ParsedAll(g: Graph, values: seq<Value>): map<Table, Dependency>
    requires Known(g, values)
  {
    if values == [] then map[]
    else
      var v, rest := values[|values| - 1], ParsedAll(g, values[..|values| - 1]);
      if v.Name? then rest else Parsed(g, rest, v)
  }

  lemma {:induction false} ParsedRequested(g: Graph, values: seq<Value>)
    requires Closed(g) && Known(g, values)
    ensures forall t :: t in Requested(values) <==> t in ParsedAll(g, values)
    ensures Fits(g, State(ParsedAll(g, values), {}, []))
  {
    if values != [] {
      ParsedRequested(g, values[..|values| - 1]);
    }
  }

  /** The lists when the walk is over. */
  ghost function Final(g: Graph, autoAdd: bool, values: seq<Value>): (r: State)
    requires Closed(g) && Known(g, values)
    ensures Fits(g, r)
  {
    ParsedRequested(g, values);
    InsertEach(g, autoAdd, State(ParsedAll(g, values), {}, []), Requested(values))
  }

  function Dests(known: map<Table, Dependency>, order: seq<Table>): seq<Value>
    requires forall t :: t in order ==> t in known
  {
    seq(|order|, i requires 0 <= i < |order| => known[order[i]].dest)
  }

  /** The models that some requested model refers to, directly or not, and those themselves. */
  ghost predicate Wanted(g: Graph, values: seq<Value>, t: Table) {
    exists n :: n in Requested(values) && Reaches(g, n, t)
  }

  // ---------------------------------------------------------------- main results

  lemma {:induction false} EachContinues(g: Graph, autoAdd: bool, st: State, names: seq<Table>)
    requires Fits(g, st) && (forall n :: n in names ==> n in st.known) && Tidy(st)
    ensures Continues(st, InsertEach(g, autoAdd, st, names))
    ensures forall n :: n in names ==> n in InsertEach(g, autoAdd, st, names).visited
  {
    if names != [] {
      var rest, n := names[..|names| - 1], names[|names| - 1];
      assert names == rest + [n];
      EachContinues(g, autoAdd, st, rest);
      InsertContinues(g, autoAdd, InsertEach(g, autoAdd, st, rest), n);
    }
  }

  ghost predicate Explored(g: Graph, names: seq<Table>, r: State) {
    forall t :: t in r.visited ==>
      (exists n :: n in names && Reaches(g, n, t)) && t in g && (forall d :: d in g[t] ==> d in r.visited)
  }

  lemma {:induction false} EachWalks(g: Graph, st: State, names: seq<Table>)
    requires Fits(g, st) && (forall n :: n in names ==> n in st.known)
    requires st.visited == {} && st.order == []
    ensures Explored(g, names, InsertEach(g, true, st, names))
    ensures Ordered(g, InsertEach(g, true, st, names).order)
  {
    hide Reaches, Insert, Tidy, Ordered, Explored;
    if names == [] {
      NothingWalked(g, st);
    } else {
      var rest, n := names[..|names| - 1], names[|names| - 1];
      assert names == rest + [n];
      EachWalks(g, st, rest);
      NothingWalked(g, st);
      EachContinues(g, true, st, rest);
      var init := InsertEach(g, true, st, rest);
      assert Open(init) == {};
      assert n in g;
      ReachesItself(g, n);
      InsertExplores(g, init, n, n);
      InsertContinues(g, true, init, n);
      InsertOrders(g, init, n);
      ExploredMore(g, rest, init, n, Insert(g, true, init, n));
    }
  }

  lemma NothingWalked(g: Graph, st: State)
    requires st.visited == {} && st.order == []
    ensures Explored(g, [], st) && Ordered(g, st.order) && Tidy(st)
  {
  }

  lemma ExploredMore(g: Graph, rest: seq<Table>, init: State, n: Table, r: State)
    requires Explored(g, rest, init) && Explores(g, init, r, n) && init.visited <= r.visited
    requires forall t :: t in r.visited ==> t in g
    ensures Explored(g, rest + [n], r)
  {
    hide Reaches;
    forall t | t in r.visited
      ensures exists m :: m in rest + [n] && Reaches(g, m, t)
      ensures forall d :: d in g[t] ==> d in r.visited
    {
      if t in init.visited {
        var m :| m in rest && Reaches(g, m, t);
        assert m in rest + [n];
      } else {
        assert n in rest + [n];
      }
    }
  }

  lemma {:induction false} VisitedAlong(g: Graph, r: State, p: seq<Table>)
    requires IsPath(g, p) && p[0] in r.visited
    requires forall t, d :: t in r.visited && t in g && d in g[t] ==> d in r.visited
    ensures p[|p| - 1] in r.visited
  {
    if |p| > 1 {
      assert p[1] in g[p[0]];
      var q := p[1..];
      assert forall i :: 0 <= i < |q| ==> q[i] == p[i + 1];
      VisitedAlong(g, r, q);
    }
  }

  /** Cyclic or not: the models are emitted once each, and they are the requested ones and all
      that can be discovered from them. */
  lemma EmitsExactlyTheWanted(g: Graph, values: seq<Value>)
    requires Closed(g) && Known(g, values)
    ensures var order := Final(g, true, values).order;
            && (forall i, j :: 0 <= i < j < |order| ==> order[i] != order[j])
            && (forall t :: t in order <==> Wanted(g, values, t))
  {
    ParsedRequested(g, values);
    var st := State(ParsedAll(g, values), {}, []);
    EachContinues(g, true, st, Requested(values));
    EachWalks(g, st, Requested(values));
    AllEmitted(g, values, st, Final(g, true, values));
  }

  lemma AllEmitted(g: Graph, values: seq<Value>, st: State, r: State)
    requires st.visited == {} && st.order == [] && Continues(st, r) && Explored(g, Requested(values), r)
    requires forall n :: n in Requested(values) ==> n in r.visited
    ensures forall t :: t in r.order <==> Wanted(g, values, t)
  {
    hide Reaches, Requested;
    assert Open(r) == Open(st) == {};
    forall t | Wanted(g, values, t) ensures t in r.order {
      var n :| n in Requested(values) && Reaches(g, n, t);
      PathStaysVisited(g, r, n, t);
      assert t !in Open(r);
    }
  }

  lemma PathStaysVisited(g: Graph, r: State, n: Table, t: Table)
    requires Reaches(g, n, t) && n in r.visited
    requires forall s, d :: s in r.visited && s in g && d in g[s] ==> d in r.visited
    ensures t in r.visited
  {
    var p :| IsPath(g, p) && p[0] == n && p[|p| - 1] == t;
    VisitedAlong(g, r, p);
  }

  /** Every recorded dependency comes before its dependent, unless the two lie on a cycle. */
  lemma DependenciesFirst(g: Graph, values: seq<Value>)
    requires Closed(g) && Known(g, values)
    ensures Ordered(g, Final(g, true, values).order)
  {
    ParsedRequested(g, values);
    EachWalks(g, State(ParsedAll(g, values), {}, []), Requested(values));
  }

  ghost predicate Topological(g: Graph, order: seq<Table>) {
    forall j, d :: 0 <= j < |order| && order[j] in g && d in g[order[j]] ==> d in order[..j]
  }

  ghost predicate OnCycle(g: Graph, t: Table) { t in g && exists d :: d in g[t] && Reaches(g, d, t) }

  /** All recorded dependencies are honoured exactly when no wanted model lies on a cycle. */
  lemma TopologicalIffAcyclic(g: Graph, values: seq<Value>)
    requires Closed(g) && Known(g, values)
    ensures Topological(g, Final(g, true, values).order) <==>
            forall t :: Wanted(g, values, t) ==> !OnCycle(g, t)
  {
    hide Reaches;
    var order := Final(g, true, values).order;
    EmitsExactlyTheWanted(g, values);
    DependenciesFirst(g, values);
    if forall t :: Wanted(g, values, t) ==> !OnCycle(g, t) {
      forall j, d | 0 <= j < |order| && order[j] in g && d in g[order[j]] ensures d in order[..j] {
        assert order[j] in order;
        assert Wanted(g, values, order[j]);
        assert !OnCycle(g, order[j]);
      }
    }
    if Topological(g, order) {
      forall t | Wanted(g, values, t) ensures !OnCycle(g, t) {
        if OnCycle(g, t) {
          var d :| d in g[t] && Reaches(g, d, t);
          assert t in order;
          var j :| 0 <= j < |order| && order[j] == t;
          var i :| 0 <= i < j && order[i] == d;
          var k := Descends(g, order, d, i, t);
          assert false;
        }
      }
    }
  }

  /** In a topological order, what a model reaches is not after it. */
  lemma Descends(g: Graph, order: seq<Table>, a: Table, i: nat, b: Table) returns (k: nat)
    requires Topological(g, order) && i < |order| && order[i] == a && Reaches(g, a, b)
    ensures k <= i && order[k] == b
  {
    var p :| IsPath(g, p) && p[0] == a && p[|p| - 1] == b;
    k := DescendsAlong(g, order, p, i);
  }

  lemma {:induction false} DescendsAlong(g: Graph, order: seq<Table>, p: seq<Table>, i: nat) returns (k: nat)
    requires Topological(g, order) && IsPath(g, p) && i < |order| && order[i] == p[0]
    ensures k <= i && order[k] == p[|p| - 1]
    decreases |p|
  {
    if |p| == 1 {
      k := i;
    } else {
      assert p[1] in g[p[0]];
      var j :| 0 <= j < i && order[j] == p[1];
      var q := p[1..];
      assert forall i :: 0 <= i < |q| ==> q[i] == p[i + 1];
      k := DescendsAlong(g, order, q, j);
    }
  }

  /** Without autoAdd: the requested models in the order given, whatever they depend on. */
  lemma {:induction false} WithoutAutoAdd(g: Graph, st: State, names: seq<Table>)
    requires Fits(g, st) && (forall n :: n in names ==> n in st.known)
    requires st.visited == {} && st.order == []
    requires forall i, j :: 0 <= i < j < |names| ==> names[i] != names[j]
    ensures InsertEach(g, false, st, names) == State(st.known, (set n | n in names), names)
  {
    if names != [] {
      var rest, n := names[..|names| - 1], names[|names| - 1];
      assert names == rest + [n];
      WithoutAutoAdd(g, st, rest);
      assert n !in rest;
    }
  }

  lemma {:induction false} RequestedOnce(values: seq<Value>)
    ensures forall i, j :: 0 <= i < j < |Requested(values)| ==> Requested(values)[i] != Requested(values)[j]
  {
    if values != [] {
      RequestedOnce(values[..|values| - 1]);
    }
  }

  lemma OnlyRequestedWithoutAutoAdd(g: Graph, values: seq<Value>)
    requires Closed(g) && Known(g, values)
    ensures Final(g, false, values).order == Requested(values)
  {
    ParsedRequested(g, values);
    RequestedOnce(values);
    WithoutAutoAdd(g, State(ParsedAll(g, values), {}, []), Requested(values));
  }

  /** A requested model is migrated as it was first given, a discovered one as a new instance. */
  lemma DestsAsGiven(g: Graph, autoAdd: bool, values: seq<Value>, t: Table)
    requires Closed(g) && Known(g, values) && t in Final(g, autoAdd, values).known
    ensures var dest := Final(g, autoAdd, values).known[t].dest;
            if t in Requested(values) then
              exists i :: 0 <= i < |values| && values[i] == dest && !dest.Name? && dest.table == t &&
                          forall j :: 0 <= j < i ==> values[j].Name? || values[j].table != t
            else dest == Blank(t)
  {
    ParsedRequested(g, values);
    EachContinues(g, autoAdd, State(ParsedAll(g, values), {}, []), Requested(values));
    if t in Requested(values) {
      var i := FirstGiven(g, values, t);
    }
  }

  lemma {:induction false} FirstGiven(g: Graph, values: seq<Value>, t: Table) returns (i: nat)
    requires Known(g, values) && t in ParsedAll(g, values)
    ensures i < |values| && values[i] == ParsedAll(g, values)[t].dest
    ensures !values[i].Name? && values[i].table == t
    ensures forall j :: 0 <= j < i ==> values[j].Name? || values[j].table != t
  {
    var rest := values[..|values| - 1];
    if t in ParsedAll(g, rest) {
      i := FirstGiven(g, rest, t);
    } else {
      i := |values| - 1;
      forall j | 0 <= j < i ensures values[j].Name? || values[j].table != t {
        if !values[j].Name? && values[j].table == t {
          AllParsed(g, rest, j);
        }
      }
    }
  }

  lemma {:induction false} AllParsed(g: Graph, values: seq<Value>, j: nat)
    requires Known(g, values) && j < |values| && !values[j].Name?
    ensures values[j].table in ParsedAll(g, values)
  {
    if j < |values| - 1 {
      AllParsed(g, values[..|values| - 1], j);
    }
  }

  // ---------------------------------------------------------------- the results

  /** What the call returns. */
  ghost function Results(g: Graph, autoAdd: bool, values: seq<Value>): seq<Value>
    requires Closed(g) && Known(g, values)
  {
    AllKnown(g, autoAdd, values);
    var r := Final(g, autoAdd, values);
    Names(values) + Dests(r.known, r.order)
  }

  lemma AllKnown(g: Graph, autoAdd: bool, values: seq<Value>)
    requires Closed(g) && Known(g, values)
    ensures forall t :: t in Final(g, autoAdd, values).order ==> t in Final(g, autoAdd, values).known
  {
    ParsedRequested(g, values);
    EachContinues(g, autoAdd, State(ParsedAll(g, values), {}, []), Requested(values));
  }

  /** The table of a model. */
  function TableOf(v: Value): Table {
    match v
    case Name(n) => n
    case Model(t, _) => t
    case Blank(t) => t
  }

  /** The part behind the names. */
  ghost function Models(g: Graph, autoAdd: bool, values: seq<Value>): seq<Value>
    requires Closed(g) && Known(g, values)
  {
    Results(g, autoAdd, values)[|Names(values)|..]
  }

  lemma ModelAt(g: Graph, autoAdd: bool, values: seq<Value>, i: nat)
    requires Closed(g) && Known(g, values) && i < |Models(g, autoAdd, values)|
    ensures var order := Final(g, autoAdd, values).order;
            |Models(g, autoAdd, values)| == |order| && order[i] in Final(g, autoAdd, values).known
    ensures var v := Models(g, autoAdd, values)[i];
            !v.Name? && TableOf(v) == Final(g, autoAdd, values).order[i] && GivenOrNew(values, v)
  {
    AllKnown(g, autoAdd, values);
    var r := Final(g, autoAdd, values);
    assert r.order[i] in r.order;
    DestsAsGiven(g, autoAdd, values, r.order[i]);
    if r.order[i] in Requested(values) {
      RequestedIff(values, r.order[i]);
    } else {
      RequestedIff(values, r.order[i]);
    }
  }

  /** A requested model as it was first given, any other as a new instance. */
  ghost predicate GivenOrNew(values: seq<Value>, v: Value) {
    if exists i :: 0 <= i < |values| && Gives(values[i], TableOf(v)) then
      exists i :: 0 <= i < |values| && values[i] == v && forall j :: 0 <= j < i ==> !Gives(values[j], TableOf(v))
    else v.Blank?
  }

  predicate Gives(v: Value, t: Table) { !v.Name? && v.table == t }

  lemma {:induction false} RequestedIff(values: seq<Value>, t: Table)
    ensures t in Requested(values) <==> exists i :: 0 <= i < |values| && Gives(values[i], t)
  {
    if values != [] {
      var rest, last := values[..|values| - 1], values[|values| - 1];
      RequestedIff(rest, t);
      assert values == rest + [last];
    }
  }

  /** In front of the results stand exactly the names given, in their order: `at` says where each
      was given. */
  lemma NamesFirst(g: Graph, autoAdd: bool, values: seq<Value>) returns (at: seq<nat>)
    requires Closed(g) && Known(g, values)
    ensures var results := Results(g, autoAdd, values);
            && |at| <= |results| && results[|at|..] == Models(g, autoAdd, values)
            && (forall k :: 0 <= k < |at| ==>
                 at[k] < |values| && values[at[k]].Name? && results[k] == values[at[k]])
    ensures forall k, l :: 0 <= k < l < |at| ==> at[k] < at[l]
    ensures forall i :: 0 <= i < |values| && values[i].Name? ==> i in at
  {
    at := NamesInOrder(values);
  }

  ghost predicate NamesAt(at: seq<nat>, values: seq<Value>, names: seq<Value>) {
    && |at| == |names|
    && (forall k :: 0 <= k < |at| ==> at[k] < |values| && values[at[k]].Name? && names[k] == values[at[k]])
    && (forall k, l :: 0 <= k < l < |at| ==> at[k] < at[l])
    && (forall i :: 0 <= i < |values| && values[i].Name? ==> i in at)
  }

  lemma {:induction false} NamesInOrder(values: seq<Value>) returns (at: seq<nat>)
    ensures NamesAt(at, values, Names(values))
  {
    if values == [] {
      at := [];
    } else {
      var rest, last := values[..|values| - 1], values[|values| - 1];
      var before := NamesInOrder(rest);
      at := before + if last.Name? then [|rest|] else [];
      assert values == rest + [last];
      OneMoreName(before, rest, Names(rest), last);
    }
  }

  lemma OneMoreName(at: seq<nat>, rest: seq<Value>, names: seq<Value>, last: Value)
    requires NamesAt(at, rest, names)
    ensures NamesAt(at + if last.Name? then [|rest|] else [], rest + [last], names + if last.Name? then [last] else [])
  {
    var values := rest + [last];
    forall i | 0 <= i < |values| && values[i].Name? ensures i in at + if last.Name? then [|rest|] else [] {
      if i < |rest| {
        assert rest[i].Name? && i in at;
      }
    }
  }

  /** The requested tables in the order in which each was first given: `at` says where. */
  ghost predicate FirstAt(at: seq<nat>, values: seq<Value>, tables: seq<Table>) {
    && |at| == |tables|
    && (forall k :: 0 <= k < |at| ==> at[k] < |values| && Gives(values[at[k]], tables[k]))
    && (forall k, l :: 0 <= k < l < |at| ==> at[k] < at[l])
    && (forall k, j :: 0 <= k < |at| && 0 <= j < at[k] ==> !Gives(values[j], tables[k]))
  }

  lemma {:induction false} RequestedInOrder(values: seq<Value>) returns (at: seq<nat>)
    ensures FirstAt(at, values, Requested(values))
  {
    if values == [] {
      at := [];
    } else {
      hide FirstAt;
      var rest, last := values[..|values| - 1], values[|values| - 1];
      var before := RequestedInOrder(rest);
      assert values == rest + [last];
      OneMoreGiven(before, rest, Requested(rest), last);
      if last.Name? || last.table in Requested(rest) {
        at := before;
      } else {
        at := before + [|rest|];
        RequestedIff(rest, last.table);
        OneMoreRequested(before, rest, Requested(rest), last);
      }
    }
  }

  lemma OneMoreGiven(at: seq<nat>, rest: seq<Value>, tables: seq<Table>, last: Value)
    requires FirstAt(at, rest, tables)
    ensures FirstAt(at, rest + [last], tables)
  {
  }

  lemma OneMoreRequested(at: seq<nat>, rest: seq<Value>, tables: seq<Table>, last: Value)
    requires FirstAt(at, rest, tables) && !last.Name?
    requires forall j :: 0 <= j < |rest| ==> !Gives(rest[j], last.table)
    ensures FirstAt(at + [|rest|], rest + [last], tables + [last.table])
  {
  }

  /** With autoAdd: behind the names every wanted table comes exactly once, as it was first given or
      new, and after all it depends on, unless that leads back to it. */
  lemma ResultsInDependencyOrder(g: Graph, values: seq<Value>)
    requires Closed(g) && Known(g, values)
    ensures var models := Models(g, true, values);
            && (forall v :: v in models ==> !v.Name? && GivenOrNew(values, v))
            && (forall i, j :: 0 <= i < j < |models| ==> TableOf(models[i]) != TableOf(models[j]))
            && (forall t :: Wanted(g, values, t) <==> exists i :: 0 <= i < |models| && TableOf(models[i]) == t)
            && (forall j, d :: 0 <= j < |models| && DependsOn(g, TableOf(models[j]), d) ==>
                 || (exists i :: 0 <= i < j && TableOf(models[i]) == d)
                 || Reaches(g, d, TableOf(models[j])))
  {
    var models, order := Models(g, true, values), Final(g, true, values).order;
    EmitsExactlyTheWanted(g, values);
    DependenciesFirst(g, values);
    AllModels(g, true, values);
    hide Models, Final, Wanted, Reaches, GivenOrNew;
    forall t ensures Wanted(g, values, t) <==> exists i :: 0 <= i < |models| && TableOf(models[i]) == t {
      if Wanted(g, values, t) {
        var i :| 0 <= i < |order| && order[i] == t;
        assert TableOf(models[i]) == t;
      }
    }
    forall j, d | 0 <= j < |models| && DependsOn(g, TableOf(models[j]), d)
      ensures (exists i :: 0 <= i < j && TableOf(models[i]) == d) || Reaches(g, d, TableOf(models[j]))
    {
      if d in order[..j] {
        var i :| 0 <= i < j && order[i] == d;
        assert TableOf(models[i]) == d;
      }
    }
  }

  ghost predicate DependsOn(g: Graph, t: Table, d: Table) { t in g && d in g[t] }

  lemma AllModels(g: Graph, autoAdd: bool, values: seq<Value>)
    requires Closed(g) && Known(g, values)
    ensures var models, order := Models(g, autoAdd, values), Final(g, autoAdd, values).order;
            && |models| == |order|
            && (forall i :: 0 <= i < |models| ==> !models[i].Name? && TableOf(models[i]) == order[i])
            && (forall v :: v in models ==> !v.Name? && GivenOrNew(values, v))
  {
    var models := Models(g, autoAdd, values);
    forall i | 0 <= i < |models|
      ensures !models[i].Name? && TableOf(models[i]) == Final(g, autoAdd, values).order[i]
      ensures GivenOrNew(values, models[i])
    {
      ModelAt(g, autoAdd, values, i);
    }
  }

  /** Without autoAdd: behind the names each requested model as it was first given, in that order. */
  lemma ResultsAsRequested(g: Graph, values: seq<Value>) returns (at: seq<nat>)
    requires Closed(g) && Known(g, values)
    ensures var models := Models(g, false, values);
            && |at| == |models|
            && (forall k :: 0 <= k < |at| ==> at[k] < |values| && models[k] == values[at[k]] && !models[k].Name?)
            && (forall k, l :: 0 <= k < l < |at| ==> at[k] < at[l])
            && (forall k, j :: 0 <= k < |at| && 0 <= j < at[k] ==> !Gives(values[j], TableOf(models[k])))
            && (forall i :: 0 <= i < |values| && !values[i].Name? ==>
                 exists k :: 0 <= k < |models| && TableOf(models[k]) == values[i].table)
  {
    at := RequestedInOrder(values);
    OnlyRequestedWithoutAutoAdd(g, values);
    AllModels(g, false, values);
    var models, order := Models(g, false, values), Requested(values);
    hide Models, Final, Requested;
    forall k | 0 <= k < |at| ensures models[k] == values[at[k]] {
      assert models[k] in models && Gives(values[at[k]], order[k]);
      FirstIsOnlyOne(values, models[k], at[k]);
    }
    forall i | 0 <= i < |values| && !values[i].Name?
      ensures exists k :: 0 <= k < |models| && TableOf(models[k]) == values[i].table
    {
      assert Gives(values[i], values[i].table);
      RequestedIff(values, values[i].table);
      var k :| 0 <= k < |order| && order[k] == values[i].table;
      assert TableOf(models[k]) == values[i].table;
    }
  }

  lemma FirstIsOnlyOne(values: seq<Value>, v: Value, at: nat)
    requires !v.Name? && GivenOrNew(values, v) && at < |values| && Gives(values[at], TableOf(v))
    requires forall j :: 0 <= j < at ==> !Gives(values[j], TableOf(v))
    ensures v == values[at]
  {
    var i :| 0 <= i < |values| && values[i] == v && forall j :: 0 <= j < i ==> !Gives(values[j], TableOf(v));
    assert Gives(values[i], TableOf(v));
  }

  /** Models given earlier go first: all that the first `n` requested tables need comes before
      everything else. */
  lemma {:induction false} EarlierFirst(g: Graph, values: seq<Value>, n: nat)
    requires Closed(g) && Known(g, values) && n <= |Requested(values)|
    ensures exists k :: 0 <= k <= |Final(g, true, values).order| && FrontIs(g, values, n, k)
  {
    ParsedRequested(g, values);
    var names := Requested(values);
    var st := State(ParsedAll(g, values), {}, []);
    var early := InsertEach(g, true, st, names[..n]);
    hide InsertEach, Requested, Reaches, Continues, Explored, Fits, Tidy, ParsedAll;
    assert Tidy(st) by { NothingWalked(g, st); }
    EachContinues(g, true, st, names[..n]);
    EachWalks(g, st, names[..n]);
    OrderGrows(g, st, names, n);
    var order, k := Final(g, true, values).order, |early.order|;
    assert order[..k] == early.order;
    forall t ensures t in order[..k] <==> exists m :: m in names[..n] && Reaches(g, m, t) {
      EmittedIff(g, names[..n], st, early, t);
    }
    assert FrontIs(g, values, n, k);
  }

  /** The first `k` tables of the order are those that the first `n` requested reach. */
  ghost predicate FrontIs(g: Graph, values: seq<Value>, n: nat, k: nat)
    requires Closed(g) && Known(g, values) && n <= |Requested(values)| && k <= |Final(g, true, values).order|
  {
    forall t :: t in Final(g, true, values).order[..k] <==> exists m :: m in Requested(values)[..n] && Reaches(g, m, t)
  }

  /** Dependencies go in the order recorded: a model whose dependencies have none themselves comes
      right behind them. */
  lemma StarInOrder(g: Graph, v: Value)
    requires Closed(g) && !v.Name? && v.table in g && v.table !in g[v.table]
    requires forall i, j :: 0 <= i < j < |g[v.table]| ==> g[v.table][i] != g[v.table][j]
    requires forall d :: d in g[v.table] ==> g[d] == []
    ensures Known(g, [v]) && Final(g, true, [v]).order == g[v.table] + [v.table]
  {
    hide Insert, InsertAll, InsertEach, Requested, ParsedAll;
    OneParsed(g, v);
    var st := State(ParsedAll(g, [v]), {}, []);
    OneInserted(g, st, v.table);
    var entered := st.(visited := {} + {v.table});
    LeavesInOrder(g, entered, g[v.table]);
    InsertIs(g, st, v.table);
    assert [] + g[v.table] == g[v.table];
  }

  lemma OneParsed(g: Graph, v: Value)
    requires Closed(g) && !v.Name? && v.table in g
    ensures Known(g, [v]) && Requested([v]) == [v.table]
    ensures ParsedAll(g, [v]) == map[v.table := Dependency(v, g[v.table])]
    ensures Fits(g, State(ParsedAll(g, [v]), {}, []))
  {
    assert [v][..0] == [] && Requested([]) == [] && ParsedAll(g, []) == map[];
    assert Requested([v]) == [] + [v.table];
  }

  lemma InsertIs(g: Graph, st: State, name: Table)
    requires Fits(g, st) && name in st.known && name !in st.visited
    ensures var left := InsertAll(g, st.(visited := st.visited + {name}), st.known[name].depends);
            Insert(g, true, st, name) == left.(order := left.order + [name])
  {
  }

  lemma OneInserted(g: Graph, st: State, name: Table)
    requires Fits(g, st) && name in st.known
    ensures InsertEach(g, true, st, [name]) == Insert(g, true, st, name)
  {
    assert [name][..0] == [] && InsertEach(g, true, st, []) == st;
  }

  lemma {:induction false} LeavesInOrder(g: Graph, st: State, ds: seq<Table>)
    requires Fits(g, st) && (forall d :: d in ds ==> d in g && g[d] == [] && d !in st.visited)
    requires forall i, j :: 0 <= i < j < |ds| ==> ds[i] != ds[j]
    ensures InsertAll(g, st, ds).order == st.order + ds
    decreases |ds|
  {
    hide Insert, Fits;
    if ds != [] {
      var found := st.(known := Parsed(g, st.known, Blank(ds[0])));
      FitsFound(g, st, ds[0]);
      LeafInserted(g, found, ds[0]);
      var next := Insert(g, true, found, ds[0]);
      forall d | d in ds[1..] ensures d in g && g[d] == [] && d !in next.visited {
        var j :| 0 <= j < |ds[1..]| && ds[1..][j] == d;
        assert ds[j + 1] == d && ds[0] != ds[j + 1];
      }
      LeavesInOrder(g, next, ds[1..]);
      assert st.order + [ds[0]] + ds[1..] == st.order + ds;
    }
  }

  lemma LeafInserted(g: Graph, st: State, d: Table)
    requires Fits(g, st) && d in st.known && g[d] == [] && d !in st.visited
    ensures var r := Insert(g, true, st, d); r.order == st.order + [d] && r.visited == st.visited + {d}
  {
    assert InsertAll(g, st.(visited := st.visited + {d}), []) == st.(visited := st.visited + {d});
  }

  lemma EmittedIff(g: Graph, names: seq<Table>, st: State, r: State, t: Table)
    requires st.visited == {} && st.order == [] && Continues(st, r) && Explored(g, names, r)
    requires forall n :: n in names ==> n in r.visited
    ensures t in r.order <==> exists m :: m in names && Reaches(g, m, t)
  {
    hide Reaches;
    assert Open(r) == Open(st) == {};
    if m :| m in names && Reaches(g, m, t) {
      PathStaysVisited(g, r, m, t);
      assert t !in Open(r);
    }
  }

  lemma {:induction false} OrderGrows(g: Graph, st: State, names: seq<Table>, n: nat)
    requires Fits(g, st) && (forall m :: m in names ==> m in st.known) && Tidy(st) && n <= |names|
    ensures InsertEach(g, true, st, names[..n]).order <= InsertEach(g, true, st, names).order
    decreases |names|
  {
    if n == |names| {
      assert names[..n] == names;
    } else {
      var rest := names[..|names| - 1];
      assert rest[..n] == names[..n];
      OrderGrows(g, st, rest, n);
      EachContinues(g, true, st, rest);
      InsertContinues(g, true, InsertEach(g, true, st, rest), names[|names| - 1]);
    }
  }

  // ---------------------------------------------------------------- the method

  class Reordering {
    const graph: Graph
    const autoAdd: bool
    var modelNames: seq<Table>
    var orderedModelNames: seq<Table>
    var orderedModelNamesMap: set<Table>
    var parsedSchemas: set<Table>
    var valuesMap: map<Table, Dependency>

    constructor (graph: Graph, autoAdd: bool)
      requires Closed(graph)
      ensures this.graph == graph && this.autoAdd == autoAdd
      ensures Valid() && Now() == State(map[], {}, []) && modelNames == []
    {
      this.graph, this.autoAdd := graph, autoAdd;
      modelNames, orderedModelNames, orderedModelNamesMap, parsedSchemas, valuesMap := [], [], {}, {}, map[];
    }

    function Now(): State
      reads this
    {
      State(valuesMap, orderedModelNamesMap, orderedModelNames)
    }

    ghost predicate Valid()
      reads this
    {
      parsedSchemas == valuesMap.Keys && Fits(graph, Now())
    }

    method ParseDependence(value: Value, addToList: bool)
      requires Valid() && !value.Name? && value.table in graph
      modifies this`modelNames, this`parsedSchemas, this`valuesMap
      ensures Valid()
      ensures valuesMap == Parsed(graph, old(valuesMap), value)
      ensures modelNames == old(modelNames) + if addToList && value.table !in old(valuesMap) then [value.table] else []
    {
      if value.table in parsedSchemas {
        return;
      }
      parsedSchemas := parsedSchemas + {value.table};
      valuesMap := valuesMap[value.table := Dependency(value, graph[value.table])];
      if addToList {
        modelNames := modelNames + [value.table];
      }
    }

    method InsertIntoOrderedList(name: Table)
      requires Valid() && name in valuesMap
      modifies this
      ensures Valid() && Now() == Insert(graph, autoAdd, old(Now()), name)
      decreases graph.Keys - orderedModelNamesMap, 0
    {
      hide InsertAll;
      if name in orderedModelNamesMap {
        return;
      }
      orderedModelNamesMap := orderedModelNamesMap + {name};
      assert valuesMap[name].depends == graph[name];
      if autoAdd {
        InsertDepends(valuesMap[name].depends);
      }
      orderedModelNames := orderedModelNames + [name];
    }

    /** The loop over the dependencies of an entered model. */
    method InsertDepends(depends: seq<Table>)
      requires Valid() && autoAdd && forall d :: d in depends ==> d in graph
      modifies this
      ensures Valid() && Now() == InsertAll(graph, old(Now()), depends)
      decreases graph.Keys - orderedModelNamesMap, |depends| + 1
    {
      hide Insert, Fits;
      ghost var entered := Now();
      for i := 0 to |depends|
        invariant Valid() && entered.visited <= orderedModelNamesMap
        invariant InsertAll(graph, entered, depends) == InsertAll(graph, Now(), depends[i..])
      {
        var d := depends[i];
        assert depends[i..][0] == d && depends[i..][1..] == depends[i + 1..];
        if d !in valuesMap {
          ParseDependence(Blank(d), autoAdd);
        }
        InsertIntoOrderedList(d);
      }
    }

    method ParseAll(values: seq<Value>) returns (results: seq<Value>)
      requires Valid() && Known(graph, values) && Now() == State(map[], {}, []) && modelNames == []
      modifies this
      ensures Valid() && Now() == State(ParsedAll(graph, values), {}, [])
      ensures modelNames == Requested(values) && results == Names(values)
    {
      results := [];
      for i := 0 to |values|
        invariant Valid() && Now() == State(ParsedAll(graph, values[..i]), {}, [])
        invariant modelNames == Requested(values[..i]) && results == Names(values[..i])
      {
        assert values[..i + 1][..i] == values[..i];
        ParsedRequested(graph, values[..i]);
        if values[i].Name? {
          results := results + [values[i]];
        } else {
          ParseDependence(values[i], true);
        }
      }
      assert values[..|values|] == values;
    }

    method InsertModels()
      requires Valid() && forall n :: n in modelNames ==> n in valuesMap
      modifies this
      ensures Valid() && Now() == InsertEach(graph, autoAdd, old(Now()), old(modelNames))
    {
      hide Insert, InsertAll;
      ghost var start := Now();
      var names := modelNames;
      for i := 0 to |names|
        invariant Valid() && start.known.Keys <= valuesMap.Keys
        invariant Now() == InsertEach(graph, autoAdd, start, names[..i])
      {
        assert names[..i + 1][..i] == names[..i];
        InsertIntoOrderedList(names[i]);
      }
      assert names[..|names|] == names;
    }

    /** ReorderModels. */
    method ReorderModels(values: seq<Value>) returns (results: seq<Value>)
      requires Valid() && Known(graph, values) && Now() == State(map[], {}, []) && modelNames == []
      modifies this
      ensures Valid() && Now() == Final(graph, autoAdd, values)
      ensures results == Results(graph, autoAdd, values)
    {
      hide Insert, InsertAll, InsertEach, ParsedAll, Requested, Names;
      results := ParseAll(values);
      ParsedRequested(graph, values);
      EachContinues(graph, autoAdd, Now(), modelNames);
      InsertModels();
      results := AppendDests(results);
    }

    method AppendDests(strings: seq<Value>) returns (results: seq<Value>)
      requires forall t :: t in orderedModelNames ==> t in valuesMap
      ensures results == strings + Dests(valuesMap, orderedModelNames)
    {
      results := strings;
      for i := 0 to |orderedModelNames|
        invariant results == strings + Dests(valuesMap, orderedModelNames)[..i]
      {
        results := results + [valuesMap[orderedModelNames[i]].dest];
      }
    }
  }
}
