/** The texts of gorm/statement.go and gorm/clause/expression.go written out: numbers with and
    without the query mode of driver/postgres/postgres.go, lists, parentheses and surplus
    arguments. */
module BindTexts {
  import opened Decimals
  import opened BindVars

  // ---------------------------------------------------------------- the query mode

  /** The query mode in front of the values takes no number, and behind them it would. */
  lemma ModeTakesNoNumber(vars: seq<Bound>)
    requires NoMode(vars)
    ensures Number([Mode] + vars) == |vars| == Number(vars)
  {
  }

  /** The first value behind the mode prints "$1", and the n-th "$n", as without a mode. */
  lemma FirstBehindMode(b: Bound)
    requires b != Mode
    ensures Added(Stmt("", [Mode]), Bind(b)) == Stmt("$1", [Mode, b])
    ensures Added(Stmt("", []), Bind(b)) == Stmt("$1", [b])
  {
    assert [Mode] + [b] == [Mode, b] && Digits(1) == "1";
    assert [] + [b] == [b];
  }

  lemma NextValue(st: Stmt, b: Bound)
    requires NoMode(st.vars) && b != Mode
    ensures Added(st, Bind(b)) == Stmt(st.sql + "$" + Digits(|st.vars| + 1), st.vars + [b])
    ensures Added(Stmt(st.sql, [Mode] + st.vars), Bind(b)) ==
            Stmt(st.sql + "$" + Digits(|st.vars| + 1), [Mode] + st.vars + [b])
  {
    hide Digits;
    ModeTakesNoNumber(st.vars + [b]);
    assert [Mode] + st.vars + [b] == [Mode] + (st.vars + [b]);
    assert st.sql + ("$" + Digits(|st.vars| + 1)) == st.sql + "$" + Digits(|st.vars| + 1);
  }

  /** Any argument prints the same text behind the mode as without it: its placeholders are
      numbered from the number of values bound so far, plus one. */
  lemma SameBehindMode(sql: string, vars: seq<Bound>, v: Var)
    requires NoMode(vars) && WellFormed(v) && SubsInOrder(v)
    ensures var o := OutVar(v); var text := sql + Printed(o.text, o.seen, |vars| + 1);
            && Added(Stmt(sql, vars), v) == Stmt(text, vars + o.flat)
            && Added(Stmt(sql, [Mode] + vars), v) == Stmt(text, [Mode] + vars + o.flat)
  {
    hide Added, OutVar, Printed, WellFormed, SubsInOrder;
    AddVarPrints(Stmt(sql, vars), v);
    AddVarPrints(Stmt(sql, [Mode] + vars), v);
    ModeTakesNoNumber(vars);
  }

  // ---------------------------------------------------------------- lists

  /** A list of values between parentheses, numbered on, with commas. */
  lemma ListWritten(st: Stmt, a: Bound, b: Bound)
    requires NoMode(st.vars) && a != Mode && b != Mode
    ensures var n := |st.vars|;
            Added(st, List([Bind(a), Bind(b)])) ==
            Stmt(st.sql + "(" + "$" + Digits(n + 1) + "," + "$" + Digits(n + 2) + ")", st.vars + [a, b])
  {
    hide Digits;
    var open := Write(st, "(");
    TwoWritten(open, a, b);
    var n := |st.vars|;
    assert open.sql + "$" + Digits(n + 1) + "," + "$" + Digits(n + 2) + ")" ==
           st.sql + "(" + "$" + Digits(n + 1) + "," + "$" + Digits(n + 2) + ")";
  }

  /** The same without parentheses. */
  lemma TwoWritten(st: Stmt, a: Bound, b: Bound)
    requires NoMode(st.vars) && a != Mode && b != Mode
    ensures var n := |st.vars|;
            AddedAll(st, [Bind(a), Bind(b)], true) ==
            Stmt(st.sql + "$" + Digits(n + 1) + "," + "$" + Digits(n + 2), st.vars + [a, b])
  {
    hide Digits, Added;
    NextValue(st, a);
    var mid := Write(Added(st, Bind(a)), ",");
    NextValue(mid, b);
    assert st.vars + [a] + [b] == st.vars + [a, b];
    TwoAdded(st, Bind(a), Bind(b));
  }

  lemma TwoAdded(st: Stmt, v: Var, w: Var)
    ensures AddedAll(st, [v, w], true) == Added(Write(Added(st, v), ","), w)
  {
    hide Added;
    assert [v, w][1..] == [w] && [w][1..] == [];
    var mid := Added(st, v);
    assert AddedAll(mid, [w], false) == AddedAll(Added(Write(mid, ","), w), [], false);
  }

  /** An empty list is a NULL between parentheses that matches nothing. */
  lemma EmptyListWritten(st: Stmt)
    ensures Added(st, List([])) == Stmt(st.sql + "(NULL)", st.vars)
  {
  }

  // ---------------------------------------------------------------- templates

  /** Behind a parenthesis, or where the template asks for none, a list is spread; an empty one is
      then a bound NULL. Elsewhere it brings its own parentheses. */
  lemma ListInTemplate(st: Stmt, elems: seq<Var>)
    ensures var open := Write(st, "(");
            var spread := if elems == [] then Added(open, Bind(Null)) else AddedAll(open, elems, true);
            Added(st, Nested(Expr("(?)", [List(elems)], false))) == Write(spread, ")")
    ensures Added(st, Nested(Expr("?", [List(elems)], true))) ==
            if elems == [] then Added(st, Bind(Null)) else AddedAll(st, elems, true)
    ensures Added(st, Nested(Expr(" ?", [List(elems)], false))) == Added(Write(st, " "), List(elems))
    ensures Added(st, Nested(Expr("( ?", [List(elems)], false))) == Added(Write(Write(st, "("), " "), List(elems))
  {
    hide AddedAll, BindVar;
    InTemplate(st, List(elems));
  }

  lemma NothingLeft(st: Stmt, after: bool)
    ensures Built(st, "", [], after, false) == st && Built(st, "", [], after, true) == st
  {
    assert st.vars + [] == st.vars;
  }

  lemma InTemplate(st: Stmt, v: Var)
    ensures Built(st, "(?)", [v], false, false) == Write(Filled(Write(st, "("), v, true), ")")
    ensures Built(st, "?", [v], false, true) == Filled(st, v, true)
    ensures Built(st, " ?", [v], false, false) == Filled(Write(st, " "), v, false)
    ensures Built(st, "( ?", [v], false, false) == Filled(Write(Write(st, "("), " "), v, false)
  {
    hide Filled, Added;
    OneChar(st, '(', "?)", [v], false, false);
    OneMark(Write(st, "("), ")", v, [], true, false);
    OneChar(Filled(Write(st, "("), v, true), ')', "", [], true, false);
    NothingLeft(Write(Filled(Write(st, "("), v, true), ")"), false);
    OneMark(st, "", v, [], false, true);
    NothingLeft(Filled(st, v, true), false);
    OneChar(st, ' ', "?", [v], false, false);
    OneMark(Write(st, " "), "", v, [], false, false);
    NothingLeft(Filled(Write(st, " "), v, false), false);
    OneChar(st, '(', " ?", [v], false, false);
    OneChar(Write(st, "("), ' ', "?", [v], true, false);
    OneMark(Write(Write(st, "("), " "), "", v, [], false, false);
    NothingLeft(Filled(Write(Write(st, "("), " "), v, false), false);
  }

  /** One character of a template: it is written, and only a parenthesis counts for the next. */
  lemma OneChar(st: Stmt, c: char, rest: string, vars: seq<Var>, after: bool, bare: bool)
    requires c != '?' || vars == []
    ensures Built(st, [c] + rest, vars, after, bare) == Built(Write(st, [c]), rest, vars, c == '(', bare)
  {
    assert ([c] + rest)[1..] == rest;
  }

  /** A "?" takes the next argument. */
  lemma OneMark(st: Stmt, rest: string, v: Var, vars: seq<Var>, after: bool, bare: bool)
    ensures Built(st, "?" + rest, [v] + vars, after, bare) ==
            Built(Filled(st, v, after || bare), rest, vars, after, bare)
  {
    assert ("?" + rest)[1..] == rest && ([v] + vars)[1..] == vars;
  }

  /** Arguments left over are bound, in order, and write nothing; a "?" without one stays. */
  lemma LeftOver(st: Stmt, bs: seq<Bound>)
    ensures Built(st, "", Lift(bs), false, false) == Stmt(st.sql, st.vars + bs)
    ensures Built(st, "?", [], false, false) == Stmt(st.sql + "?", st.vars)
  {
    WholesLifted(bs);
    OneChar(st, '?', "", [], false, false);
    assert "?" + "" == "?" && ['?'] + "" == "?";
    NothingLeft(Write(st, "?"), false);
  }
}
