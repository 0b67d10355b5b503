/** Bind placeholders: gorm/statement.go (AddVar), gorm/clause/expression.go (Expr.Build), the
    numbered placeholders of driver/postgres/postgres.go, and the way back from "$k" to "?" that
    lets a finished subquery, or the ON clause of a join in gorm/callbacks/query.go, be numbered
    again inside another statement. */
module BindVars {
  import opened Decimals

  /** A value handed to the driver. `Mode` is pgx's query mode, which may stand first among the
      values and takes no number; `Whole` is any other argument bound as it is. */
  datatype Bound = Value(id: int) | Null | Mode | Whole

  /** An argument of a template: a value, a list, a nested expression, or a subquery that was
      already built from an expression of its own. */
  datatype Var = Bind(b: Bound) | List(elems: seq<Var>) | Nested(expr: Expr) | Sub(query: Expr)

  datatype Expr = Expr(sql: string, vars: seq<Var>, withoutParentheses: bool)

  /** What a statement has written and bound so far. */
  datatype Stmt = Stmt(sql: string, vars: seq<Bound>)

  function Write(st: Stmt, text: string): Stmt { st.(sql := st.sql + text) }

  // ---------------------------------------------------------------- numbering

  /** The number of the last value. */
  function Number(vars: seq<Bound>): nat {
    if vars == [] then 0 else if vars[0].Mode? then |vars| - 1 else |vars|
  }

  /** BindVarTo. */
  function BindVar(vars: seq<Bound>): string { "$" + Digits(Number(vars)) }

  // ---------------------------------------------------------------- replacing

  /** The first position of `pat` in `s`, or -1. */
  function Find(s: string, pat: string): (r: int)
    ensures -1 <= r && r + |pat| <= |s| + if r == -1 then |pat| + 1 else 0
  {
    if |s| < |pat| then -1
    else if s[..|pat|] == pat then 0
    else if s == "" then -1
    else
      var r := Find(s[1..], pat);
      if r == -1 then -1 else r + 1
  }

  /** strings.Replace(s, pat, rep, 1). */
  function ReplaceFirst(s: string, pat: string, rep: string): string {
    var at := Find(s, pat);
    if at == -1 then s else s[..at] + rep + s[at + |pat|..]
  }

  /** Back from the numbered placeholders to "?", one value after the other. */
  function Unnumber(sql: string, vars: seq<Bound>): string {
    if vars == [] then sql
    else ReplaceFirst(Unnumber(sql, vars[..|vars| - 1]), BindVar(vars), "?")
  }

  // ---------------------------------------------------------------- building

  function Depth(v: Var): nat {
    match v
    case Bind(_) => 0
    case List(elems) => 1 + MaxDepth(elems)
    case Nested(e) => 1 + MaxDepth(e.vars)
    case Sub(e) => 1 + MaxDepth(e.vars)
  }

  function MaxDepth(vs: seq<Var>): nat {
    if vs == [] then 0
    else
      var d, rest := Depth(vs[0]), MaxDepth(vs[1..]);
      if d > rest then d else rest
  }

  function Lift(bs: seq<Bound>): (vs: seq<Var>)
    ensures |vs| == |bs| && MaxDepth(vs) == 0
  {
    if bs == [] then [] else [Bind(bs[0])] + Lift(bs[1..])
  }

  function Wholes(vs: seq<Var>): seq<Bound> {
    if vs == [] then []
    else [if vs[0].Bind? then vs[0].b else Whole] + Wholes(vs[1..])
  }

  /** AddVar for one argument. */
  function Added(st: Stmt, v: Var): Stmt
    decreases Depth(v), 0
  {
    match v
    case Bind(b) =>
      var vars := st.vars + [b];
      Stmt(st.sql + BindVar(vars), vars)
    case List(elems) =>
      if elems == [] then Write(st, "(NULL)")
      else Write(AddedAll(Write(st, "("), elems, true), ")")
    case Nested(e) => Built(st, e.sql, e.vars, false, e.withoutParentheses)
    case Sub(e) =>
      var sub := Built(Stmt("", []), e.sql, e.vars, false, e.withoutParentheses);
      var again := Built(Stmt("", st.vars), Unnumber(sub.sql, sub.vars), Lift(sub.vars), false, false);
      Stmt(st.sql + again.sql, again.vars)
  }

  /** AddVar for several, with commas between them. */
  function AddedAll(st: Stmt, vs: seq<Var>, first: bool): Stmt
    decreases MaxDepth(vs), |vs| + 1
  {
    if vs == [] then st
    else AddedAll(Added(if first then st else Write(st, ","), vs[0]), vs[1..], false)
  }

  /** An argument of a template: right behind a parenthesis a list goes without its own. */
  function Filled(st: Stmt, v: Var, spread: bool): Stmt
    decreases Depth(v), 1
  {
    if spread && v.List? then
      if v.elems == [] then Added(st, Bind(Null)) else AddedAll(st, v.elems, true)
    else Added(st, v)
  }

  /** Expr.Build: every "?" takes the next argument; what is left over is bound unseen. */
  function Built(st: Stmt, sql: string, vars: seq<Var>, after: bool, bare: bool): Stmt
    decreases MaxDepth(vars), |sql| + 2
  {
    if sql == "" then st.(vars := st.vars + Wholes(vars))
    else if sql[0] == '?' && vars != [] then
      Built(Filled(st, vars[0], after || bare), sql[1..], vars[1..], after, bare)
    else
      Built(Write(st, [sql[0]]), sql[1..], vars, sql[0] == '(', bare)
  }

  // ---------------------------------------------------------------- what is meant

  /** The text with a "?" for every value that has a placeholder, the values, and which of them
      have one: no numbers, and a subquery is just its expression. */
  datatype Out = Out(text: string, flat: seq<Bound>, seen: seq<bool>)

  function Cat(a: Out, b: Out): Out { Out(a.text + b.text, a.flat + b.flat, a.seen + b.seen) }

  function Literal(text: string): Out { Out(text, [], []) }

  function OutVar(v: Var): Out
    decreases Depth(v), 0
  {
    match v
    case Bind(b) => Out("?", [b], [true])
    case List(elems) =>
      if elems == [] then Literal("(NULL)")
      else Cat(Cat(Literal("("), OutVars(elems, true)), Literal(")"))
    case Nested(e) => OutWalk(e.sql, e.vars, false, e.withoutParentheses)
    case Sub(e) => OutWalk(e.sql, e.vars, false, e.withoutParentheses)
  }

  function OutVars(vs: seq<Var>, first: bool): Out
    decreases MaxDepth(vs), |vs| + 1
  {
    if vs == [] then Literal("")
    else Cat(Cat(Literal(if first then "" else ","), OutVar(vs[0])), OutVars(vs[1..], false))
  }

  function OutFill(v: Var, spread: bool): Out
    decreases Depth(v), 1
  {
    if spread && v.List? then
      if v.elems == [] then Out("?", [Null], [true]) else OutVars(v.elems, true)
    else OutVar(v)
  }

  function OutWalk(sql: string, vars: seq<Var>, after: bool, bare: bool): Out
    decreases MaxDepth(vars), |sql| + 2
  {
    if sql == "" then Out("", Wholes(vars), seq(|vars|, _ => false))
    else if sql[0] == '?' && vars != [] then
      Cat(OutFill(vars[0], after || bare), OutWalk(sql[1..], vars[1..], after, bare))
    else
      Cat(Literal([sql[0]]), OutWalk(sql[1..], vars, sql[0] == '(', bare))
  }

  function Holes(text: string): nat {
    if text == "" then 0 else (if text[0] == '?' then 1 else 0) + Holes(text[1..])
  }

  predicate Plain(text: string) { '$' !in text && '@' !in text }

  predicate NoMode(bs: seq<Bound>) { Mode !in bs }

  /** An argument for every placeholder, in text free of "$" and "@"; there may be more. */
  predicate WellFormed(v: Var) {
    match v
    case Bind(b) => b != Mode
    case List(elems) => AllWellFormed(elems)
    case Nested(e) => Plain(e.sql) && Holes(e.sql) <= |e.vars| && AllWellFormed(e.vars)
    case Sub(e) => Plain(e.sql) && Holes(e.sql) <= |e.vars| && AllWellFormed(e.vars)
  }

  predicate AllWellFormed(vs: seq<Var>) { vs == [] || (WellFormed(vs[0]) && AllWellFormed(vs[1..])) }

  /** No value that has no placeholder is bound before one that has. */
  predicate SeenFirst(seen: seq<bool>) { forall i, j :: 0 <= i < j < |seen| && seen[j] ==> seen[i] }

  function Trues(seen: seq<bool>): nat {
    if seen == [] then 0 else (if seen[0] then 1 else 0) + Trues(seen[1..])
  }

  /** The text with its placeholders numbered from `next` on, after the first `skip` of them. */
  function Numbered(text: string, skip: nat, next: nat): string {
    if text == "" then ""
    else if text[0] != '?' then [text[0]] + Numbered(text[1..], skip, next)
    else if skip > 0 then "?" + Numbered(text[1..], skip - 1, next)
    else "$" + Digits(next) + Numbered(text[1..], 0, next + 1)
  }

  // ---------------------------------------------------------------- back to question marks

  lemma {:induction false} NumberedNone(text: string, skip: nat, next: nat)
    requires skip >= Holes(text)
    ensures Numbered(text, skip, next) == text
  {
    if text != "" {
      NumberedNone(text[1..], if text[0] == '?' then skip - 1 else skip, next);
    }
  }

  lemma Regroup(a: string, b: string, c: string, d: string)
    ensures a + b + c + d == a + (b + c + d)
  {
  }

  lemma FindHere(s: string, pat: string)
    ensures ReplaceFirst(pat + s, pat, "?") == "?" + s
  {
    assert (pat + s)[..|pat|] == pat;
    assert (pat + s)[0 + |pat|..] == s;
  }

  /** Where the placeholder behind `k` others stands, or the end. */
  function HoleAt(text: string, k: nat): (p: nat)
    ensures p <= |text|
  {
    if text == "" || (text[0] == '?' && k == 0) then 0
    else 1 + HoleAt(text[1..], if text[0] == '?' then k - 1 else k)
  }

  predicate Mark(pat: string) { pat != "" && pat[0] == '$' && '$' !in pat[1..] }

  lemma MarkOf(n: nat)
    ensures Mark("$" + Digits(n))
  {
    hide Digits;
    DigitsAreDigits(n);
    assert ("$" + Digits(n))[1..] == Digits(n);
  }

  /** A pattern is found before a place where it stands, or there. */
  lemma {:induction false} FindThrough(a: string, pat: string, rest: string)
    requires Mark(pat)
    ensures Find(a + (pat + rest), pat) == if Find(a, pat) != -1 then Find(a, pat) else |a|
  {
    var t := a + (pat + rest);
    if a == "" {
      assert t[..|pat|] == pat;
    } else {
      assert t[1..] == a[1..] + (pat + rest);
      FindThrough(a[1..], pat, rest);
      if |a| >= |pat| {
        assert t[..|pat|] == a[..|pat|];
      } else {
        assert t[..|pat|][|a|] == '$' && pat[|a|] == pat[1..][|a| - 1];
      }
    }
  }

  /** What stands at the placeholder behind `skip` others, before and after its replacement. */
  ghost predicate OpensAt(text: string, skip: nat, next: nat) {
    var p := HoleAt(text, skip);
    && p < |text| && text[p] == '?'
    && Numbered(text, skip, next) == text[..p] + (("$" + Digits(next)) + Numbered(text[p + 1..], 0, next + 1))
    && Numbered(text, skip + 1, next + 1) == text[..p] + ("?" + Numbered(text[p + 1..], 0, next + 1))
  }

  lemma OpensHere(text: string, next: nat)
    requires text != "" && text[0] == '?'
    ensures OpensAt(text, 0, next)
  {
    hide Digits;
    var rest := Numbered(text[1..], 0, next + 1);
    assert text[..0] == "";
    assert "" + (("$" + Digits(next)) + rest) == "$" + Digits(next) + rest;
  }

  lemma OpensLater(text: string, skip: nat, less: nat, next: nat)
    requires text != "" && OpensAt(text[1..], less, next)
    requires if text[0] == '?' then skip == less + 1 else skip == less
    ensures OpensAt(text, skip, next)
  {
    hide Digits;
    var rest := text[1..];
    var p := HoleAt(rest, less);
    assert text[..p + 1] == [text[0]] + rest[..p] && text[p + 2..] == rest[p + 1..];
    Assoc([text[0]], rest[..p], ("$" + Digits(next)) + Numbered(rest[p + 1..], 0, next + 1));
    Assoc([text[0]], rest[..p], "?" + Numbered(rest[p + 1..], 0, next + 1));
  }

  lemma {:induction false} NumberedAt(text: string, skip: nat, next: nat)
    requires skip < Holes(text)
    ensures OpensAt(text, skip, next)
  {
    hide OpensAt, Numbered;
    if text[0] == '?' && skip == 0 {
      OpensHere(text, next);
    } else {
      var less := if text[0] == '?' then skip - 1 else skip;
      NumberedAt(text[1..], less, next);
      OpensLater(text, skip, less, next);
    }
  }

  lemma Assoc(a: string, b: string, c: string)
    ensures a + (b + c) == (a + b) + c
  {
  }

  /** Up to some place `s` is the text, and there a "?" stands for a "$" of the text. */
  ghost predicate Spoiled(s: string, text: string) {
    exists q :: 0 <= q < |s| && q < |text| && s[..q] == text[..q] && s[q] == '?' && text[q] == '$'
  }

  lemma SpoiledAt(s: string, text: string, at: nat, pat: string)
    requires Mark(pat) && at + |pat| <= |s| && at < |text| && s[..at] == text[..at] && s[at..at + |pat|] == pat
    requires text[at] == '$'
    ensures Spoiled(s[..at] + "?" + s[at + |pat|..], text)
  {
    var r := s[..at] + "?" + s[at + |pat|..];
    assert r[..at] == text[..at] && r[at] == '?';
  }

  lemma {:induction false} FindFound(s: string, pat: string)
    requires Find(s, pat) != -1
    ensures s[Find(s, pat)..Find(s, pat) + |pat|] == pat
  {
    if s[..|pat|] != pat {
      FindFound(s[1..], pat);
      var r := Find(s[1..], pat);
      assert s[r + 1..r + 1 + |pat|] == s[1..][r..r + |pat|];
    }
  }

  /** No replacement brings the "$" back. */
  lemma StaysSpoiled(s: string, text: string, pat: string)
    requires Spoiled(s, text) && Mark(pat)
    ensures Spoiled(ReplaceFirst(s, pat, "?"), text)
  {
    hide Find;
    var q :| 0 <= q < |s| && q < |text| && s[..q] == text[..q] && s[q] == '?' && text[q] == '$';
    var at := Find(s, pat);
    if at != -1 {
      FindFound(s, pat);
      assert s[at] == s[at..at + |pat|][0] == '$';
      if at < q {
        assert text[at] == text[..q][at] == s[..q][at] == s[at];
        assert s[..at] == s[..q][..at] == text[..q][..at] == text[..at];
        SpoiledAt(s, text, at, pat);
      } else {
        var r := s[..at] + "?" + s[at + |pat|..];
        assert r[..q] == s[..q] && r[q] == s[q];
      }
    }
  }

  /** The k-th placeholder is the first "$k" of the text: it does not stand in the text before it. */
  predicate FirstMark(text: string, k: nat) { Find(text[..HoleAt(text, k)], "$" + Digits(k + 1)) == -1 }

  lemma ReplaceAt(s: string, front: string, pat: string, rest: string)
    requires Mark(pat) && s == front + (pat + rest) && Find(front, pat) == -1
    ensures ReplaceFirst(s, pat, "?") == front + ("?" + rest)
  {
    hide Find;
    FindThrough(front, pat, rest);
    assert s[..|front|] == front && s[|front| + |pat|..] == rest;
    Assoc(front, "?", rest);
  }

  lemma ReplaceBefore(s: string, text: string, front: string, rest: string, pat: string)
    requires Mark(pat) && front <= text && Find(front, pat) != -1
    requires s == front || s == front + (pat + rest)
    ensures Spoiled(ReplaceFirst(s, pat, "?"), text)
  {
    hide Find, Spoiled;
    if s != front {
      FindThrough(front, pat, rest);
    }
    var at := Find(front, pat);
    FindFound(front, pat);
    assert front[at] == front[at..at + |pat|][0];
    assert s[..at] == front[..at] == text[..at] && s[at..at + |pat|] == front[at..at + |pat|];
    SpoiledAt(s, text, at, pat);
  }

  /** One replacement undoes the next placeholder, although "$1" begins "$10", or spoils the text
      for good. */
  lemma ReplacesNext(text: string, k: nat)
    ensures var r := ReplaceFirst(Numbered(text, k, k + 1), "$" + Digits(k + 1), "?");
            if FirstMark(text, k) then r == Numbered(text, k + 1, k + 2) else Spoiled(r, text)
  {
    hide Digits, Find, Numbered, Holes, HoleAt, Spoiled, Mark;
    var pat := "$" + Digits(k + 1);
    MarkOf(k + 1);
    var front := text[..HoleAt(text, k)];
    var s := Numbered(text, k, k + 1);
    if k < Holes(text) {
      NumberedAt(text, k, k + 1);
      var rest := Numbered(text[HoleAt(text, k) + 1..], 0, k + 2);
      if FirstMark(text, k) {
        ReplaceAt(s, front, pat, rest);
      } else {
        ReplaceBefore(s, text, front, rest, pat);
      }
    } else {
      NoHole(text, k);
      NumberedNone(text, k, k + 1);
      NumberedNone(text, k + 1, k + 2);
      assert front == text;
      if !FirstMark(text, k) {
        ReplaceBefore(s, text, front, "", pat);
      }
    }
  }

  lemma {:induction false} NoHole(text: string, k: nat)
    requires k >= Holes(text)
    ensures HoleAt(text, k) == |text|
  {
    if text != "" {
      NoHole(text[1..], if text[0] == '?' then k - 1 else k);
    }
  }

  lemma {:induction false} UnnumberOrSpoil(text: string, vars: seq<Bound>)
    requires NoMode(vars)
    ensures var r := Unnumber(Numbered(text, 0, 1), vars);
            if forall k :: 0 <= k < |vars| ==> FirstMark(text, k) then r == Numbered(text, |vars|, |vars| + 1)
            else Spoiled(r, text)
  {
    hide ReplaceFirst, Digits, FirstMark, Spoiled;
    if vars != [] {
      var k := |vars| - 1;
      UnnumberOrSpoil(text, vars[..k]);
      assert Number(vars) == k + 1 by { assert vars[0] in vars; }
      ReplacesNext(text, k);
      var r := Unnumber(Numbered(text, 0, 1), vars[..k]);
      MarkOf(k + 1);
      if !(forall j :: 0 <= j < k ==> FirstMark(text, j)) {
        StaysSpoiled(r, text, "$" + Digits(k + 1));
      }
    }
  }

  /** Un-numbering recovers the text that was printed, for any number of values, exactly when for
      each k the k-th placeholder is the first "$k" in it. */
  lemma UnnumberRecoversIff(text: string, vars: seq<Bound>)
    requires NoMode(vars) && Holes(text) <= |vars|
    ensures Unnumber(Numbered(text, 0, 1), vars) == text <==> forall k :: 0 <= k < |vars| ==> FirstMark(text, k)
  {
    hide FirstMark, Unnumber, Numbered, Spoiled;
    UnnumberOrSpoil(text, vars);
    NumberedNone(text, |vars|, |vars| + 1);
    if Spoiled(text, text) {
      NotItself(text);
    }
  }

  lemma NotItself(text: string)
    ensures !Spoiled(text, text)
  {
  }

  lemma {:induction false} NoDollarNoMark(s: string, pat: string)
    requires Mark(pat) && '$' !in s
    ensures Find(s, pat) == -1
  {
    if s != "" {
      NoDollarNoMark(s[1..], pat);
      if |s| >= |pat| {
        assert s[..|pat|][0] == s[0];
      }
    }
  }

  /** In particular from any text without "$". */
  lemma UnnumberRecovers(text: string, vars: seq<Bound>)
    requires Plain(text) && NoMode(vars) && Holes(text) <= |vars|
    ensures Unnumber(Numbered(text, 0, 1), vars) == text
  {
    hide Find;
    UnnumberRecoversIff(text, vars);
    forall k | 0 <= k < |vars| ensures FirstMark(text, k) {
      MarkOf(k + 1);
      NoDollarNoMark(text[..HoleAt(text, k)], "$" + Digits(k + 1));
    }
  }

  // ---------------------------------------------------------------- main results

  /** The text with its placeholders numbered by their values: one that is bound without a
      placeholder takes a number too. */
  function Printed(text: string, seen: seq<bool>, next: nat): string
    decreases |text| + |seen|
  {
    if text == "" then ""
    else if text[0] != '?' then [text[0]] + Printed(text[1..], seen, next)
    else if seen == [] then "?" + Printed(text[1..], seen, next)
    else if !seen[0] then Printed(text, seen[1..], next + 1)
    else "$" + Digits(next) + Printed(text[1..], seen[1..], next + 1)
  }

  ghost predicate Proper(o: Out) {
    Plain(o.text) && NoMode(o.flat) && |o.seen| == |o.flat| && Holes(o.text) == Trues(o.seen)
  }

  /** From `st` to `r` exactly `o` was written and bound, numbered on from `st`. */
  ghost predicate Prints(st: Stmt, r: Stmt, o: Out) {
    && r == Stmt(st.sql + Printed(o.text, o.seen, Number(st.vars) + 1), st.vars + o.flat)
    && Proper(o)
  }

  lemma {:induction false} NumberedCat(a: string, b: string, next: nat)
    ensures Numbered(a + b, 0, next) == Numbered(a, 0, next) + Numbered(b, 0, next + Holes(a))
    ensures Holes(a + b) == Holes(a) + Holes(b)
  {
    hide Digits;
    if a == "" {
      assert a + b == b;
    } else {
      assert (a + b)[1..] == a[1..] + b;
      NumberedCat(a[1..], b, if a[0] == '?' then next + 1 else next);
      if a[0] == '?' {
        assert "$" + Digits(next) + (Numbered(a[1..], 0, next + 1) + Numbered(b, 0, next + Holes(a)))
            == "$" + Digits(next) + Numbered(a[1..], 0, next + 1) + Numbered(b, 0, next + Holes(a));
      }
    }
  }

  lemma {:induction false} TruesCat(a: seq<bool>, b: seq<bool>)
    ensures Trues(a + b) == Trues(a) + Trues(b)
  {
    if a == [] {
      assert a + b == b;
    } else {
      assert (a + b)[1..] == a[1..] + b;
      TruesCat(a[1..], b);
    }
  }

  lemma {:induction false} PrintedUnseen(text: string, unseen: seq<bool>, seen: seq<bool>, next: nat)
    requires Trues(unseen) == 0
    ensures Printed(text, unseen + seen, next) == Printed(text, seen, next + |unseen|)
    decreases |text| + |unseen|
  {
    hide Digits;
    if unseen == [] {
      assert unseen + seen == seen;
    } else if text != "" {
      if text[0] == '?' {
        assert (unseen + seen)[1..] == unseen[1..] + seen;
        PrintedUnseen(text, unseen[1..], seen, next + 1);
      } else {
        PrintedUnseen(text[1..], unseen, seen, next);
      }
    }
  }

  lemma {:induction false} PrintedCat(a: string, b: string, first: seq<bool>, seen: seq<bool>, next: nat)
    requires Holes(a) == Trues(first)
    ensures Printed(a + b, first + seen, next) == Printed(a, first, next) + Printed(b, seen, next + |first|)
    decreases |a| + |first|
  {
    hide Digits;
    if a == "" {
      assert a + b == b;
      PrintedUnseen(b, first, seen, next);
    } else {
      var t := a + b;
      assert t[1..] == a[1..] + b && t[0] == a[0];
      if a[0] != '?' {
        PrintedCat(a[1..], b, first, seen, next);
        Assoc([a[0]], Printed(a[1..], first, next), Printed(b, seen, next + |first|));
      } else {
        assert first != [];
        assert (first + seen)[1..] == first[1..] + seen;
        if first[0] {
          PrintedCat(a[1..], b, first[1..], seen, next + 1);
          Assoc("$" + Digits(next), Printed(a[1..], first[1..], next + 1), Printed(b, seen, next + |first|));
        } else {
          PrintedCat(a, b, first[1..], seen, next + 1);
        }
      }
    }
  }

  lemma NumberOn(vars: seq<Bound>, more: seq<Bound>)
    requires NoMode(more)
    ensures Number(vars + more) == Number(vars) + |more|
  {
    if vars == [] {
      assert vars + more == more;
    }
  }

  lemma PrintsCat(st: Stmt, mid: Stmt, r: Stmt, a: Out, b: Out)
    requires Prints(st, mid, a) && Prints(mid, r, b)
    ensures Prints(st, r, Cat(a, b))
  {
    hide Printed, Holes, Trues;
    PrintedCat(a.text, b.text, a.seen, b.seen, Number(st.vars) + 1);
    NumberedCat(a.text, b.text, 1);
    TruesCat(a.seen, b.seen);
    NumberOn(st.vars, a.flat);
  }

  lemma PrintsText(st: Stmt, text: string)
    requires Plain(text) && '?' !in text
    ensures Prints(st, Write(st, text), Literal(text))
  {
    NothingToNumber(text, Number(st.vars) + 1);
    assert st.vars + [] == st.vars;
  }

  lemma {:induction false} NothingToNumber(text: string, next: nat)
    requires '?' !in text
    ensures Printed(text, [], next) == text && Holes(text) == 0
  {
    if text != "" {
      NothingToNumber(text[1..], next);
    }
  }

  lemma PrintsBind(st: Stmt, b: Bound)
    requires b != Mode
    ensures Prints(st, Added(st, Bind(b)), Out("?", [b], [true]))
  {
    hide Digits;
    NumberOn(st.vars, [b]);
    assert "?"[1..] == "" && [true][1..] == [];
    assert Printed("?", [true], Number(st.vars) + 1) == "$" + Digits(Number(st.vars) + 1) + "";
    assert Holes("?") == 1 && Trues([true]) == 1;
  }

  lemma {:induction false} LiftAt(bs: seq<Bound>)
    requires bs != []
    ensures Lift(bs)[0] == Bind(bs[0]) && Lift(bs)[1..] == Lift(bs[1..])
  {
  }

  /** The first `n` of `m` values have a placeholder. */
  function FirstSeen(n: nat, m: nat): (seen: seq<bool>)
    ensures |seen| == m
  {
    seq(m, i => i < n)
  }

  lemma FirstSeenMore(n: nat, m: nat)
    requires 0 < n <= m
    ensures FirstSeen(n, m) == [true] + FirstSeen(n - 1, m - 1)
  {
  }

  lemma {:induction false} Unseen(m: nat)
    ensures Trues(FirstSeen(0, m)) == 0
  {
    if m > 0 {
      Unseen(m - 1);
      assert FirstSeen(0, m)[1..] == FirstSeen(0, m - 1);
    }
  }

  lemma {:induction false} WholesLifted(bs: seq<Bound>)
    ensures Wholes(Lift(bs)) == bs
  {
    if bs != [] {
      LiftAt(bs);
      WholesLifted(bs[1..]);
    }
  }

  lemma PrintsUnseen(st: Stmt, bs: seq<Bound>)
    requires NoMode(bs)
    ensures Prints(st, st.(vars := st.vars + bs), Out("", bs, FirstSeen(0, |bs|)))
  {
    Unseen(|bs|);
  }

  /** Building the recovered template with the bare values prints it under the outer numbers. */
  lemma {:induction false} WalkLifted(st: Stmt, text: string, bs: seq<Bound>, after: bool, bare: bool)
    requires Plain(text) && NoMode(bs) && Holes(text) <= |bs|
    ensures Prints(st, Built(st, text, Lift(bs), after, bare), Out(text, bs, FirstSeen(Holes(text), |bs|)))
    decreases |text|
  {
    hide Prints, Added, Printed, Number, FirstSeen;
    if text == "" {
      WholesLifted(bs);
      PrintsUnseen(st, bs);
    } else {
      var rest := text[1..];
      assert text == [text[0]] + rest;
      if text[0] == '?' {
        LiftAt(bs);
        var mid := Added(st, Bind(bs[0]));
        PrintsBind(st, bs[0]);
        WalkLifted(mid, rest, bs[1..], after, bare);
        var first, more := Out("?", [bs[0]], [true]), Out(rest, bs[1..], FirstSeen(Holes(rest), |bs| - 1));
        PrintsCat(st, mid, Built(mid, rest, Lift(bs[1..]), after, bare), first, more);
        FirstSeenMore(Holes(text), |bs|);
        assert Cat(first, more) == Out(text, bs, FirstSeen(Holes(text), |bs|));
      } else {
        var mid := Write(st, [text[0]]);
        PrintsText(st, [text[0]]);
        WalkLifted(mid, rest, bs, text[0] == '(', bare);
        var first, more := Literal([text[0]]), Out(rest, bs, FirstSeen(Holes(rest), |bs|));
        PrintsCat(st, mid, Built(mid, rest, Lift(bs), text[0] == '(', bare), first, more);
        assert Cat(first, more) == Out(text, bs, FirstSeen(Holes(text), |bs|));
      }
    }
  }

  lemma NothingPrinted(st: Stmt)
    ensures Prints(st, st, Literal(""))
  {
    assert st.vars + [] == st.vars && st.sql + "" == st.sql;
  }

  lemma {:induction false} SeenFirstIs(seen: seq<bool>)
    requires SeenFirst(seen)
    ensures seen == FirstSeen(Trues(seen), |seen|)
  {
    if seen != [] {
      SeenFirstIs(seen[1..]);
      TruesBound(seen);
      if seen[0] {
        FirstSeenMore(Trues(seen), |seen|);
        assert seen == [true] + seen[1..];
      } else {
        assert forall i :: 0 <= i < |seen| ==> !seen[i];
        assert Trues(seen[1..]) == 0 by {
          assert seen[1..] == FirstSeen(0, |seen| - 1);
          Unseen(|seen| - 1);
        }
      }
    }
  }

  lemma {:induction false} PrintedNumbered(text: string, n: nat, m: nat, next: nat)
    requires Holes(text) <= n <= m
    ensures Printed(text, FirstSeen(n, m), next) == Numbered(text, 0, next)
  {
    hide Digits, FirstSeen;
    if text != "" {
      if text[0] == '?' {
        FirstSeenMore(n, m);
        assert FirstSeen(n, m)[1..] == FirstSeen(n - 1, m - 1);
        PrintedNumbered(text[1..], n - 1, m - 1, next + 1);
      } else {
        PrintedNumbered(text[1..], n, m, next);
      }
    }
  }

  /** Every subquery below binds no value without a placeholder before one with. */
  predicate SubsInOrder(v: Var)
    decreases v
  {
    match v
    case Bind(_) => true
    case List(elems) => AllSubsInOrder(elems)
    case Nested(e) => AllSubsInOrder(e.vars)
    case Sub(e) => AllSubsInOrder(e.vars) && SeenFirst(OutVar(v).seen)
  }

  predicate AllSubsInOrder(vs: seq<Var>)
    decreases vs
  {
    vs == [] || (SubsInOrder(vs[0]) && AllSubsInOrder(vs[1..]))
  }

  /** Placeholders come out numbered by their values, left to right with their values in the
      same order, in lists, nested expressions and subqueries alike. */
  lemma {:induction false} AddVarPrints(st: Stmt, v: Var)
    requires WellFormed(v) && SubsInOrder(v)
    ensures Prints(st, Added(st, v), OutVar(v))
    decreases Depth(v), 0
  {
    hide Prints, Printed, Number, SeenFirst;
    match v
    case Bind(b) => PrintsBind(st, b);
    case List(elems) =>
      if elems == [] {
        PrintsText(st, "(NULL)");
      } else {
        var open := Write(st, "(");
        var filled := AddedAll(open, elems, true);
        PrintsText(st, "(");
        AddVarsPrint(open, elems, true);
        PrintsText(filled, ")");
        PrintsCat(st, open, filled, Literal("("), OutVars(elems, true));
        PrintsCat(st, filled, Write(filled, ")"), Cat(Literal("("), OutVars(elems, true)), Literal(")"));
      }
    case Nested(e) => WalkPrints(st, e.sql, e.vars, false, e.withoutParentheses);
    case Sub(e) =>
      var empty := Stmt("", []);
      var sub := Built(empty, e.sql, e.vars, false, e.withoutParentheses);
      var o := OutWalk(e.sql, e.vars, false, e.withoutParentheses);
      WalkPrints(empty, e.sql, e.vars, false, e.withoutParentheses);
      RenumberPrints(st, sub, o);
  }

  /** What was built on its own, un-numbered and built again behind the values of `st`. */
  lemma RenumberPrints(st: Stmt, sub: Stmt, o: Out)
    requires Prints(Stmt("", []), sub, o) && SeenFirst(o.seen)
    ensures var again := Built(Stmt("", st.vars), Unnumber(sub.sql, sub.vars), Lift(sub.vars), false, false);
            Prints(st, Stmt(st.sql + again.sql, again.vars), o)
  {
    hide Numbered, Unnumber, Built, Printed, SeenFirst, FirstSeen;
    FreshPrint(sub, o);
    UnnumberRecovers(o.text, o.flat);
    WalkLifted(Stmt("", st.vars), o.text, o.flat, false, false);
  }

  lemma FreshPrint(sub: Stmt, o: Out)
    requires Prints(Stmt("", []), sub, o) && SeenFirst(o.seen)
    ensures sub.sql == Numbered(o.text, 0, 1) && sub.vars == o.flat
    ensures Plain(o.text) && NoMode(o.flat) && Holes(o.text) <= |o.flat|
    ensures o.seen == FirstSeen(Holes(o.text), |o.flat|)
  {
    hide Printed, SeenFirst, FirstSeen;
    SeenFirstIs(o.seen);
    TruesBound(o.seen);
    PrintedNumbered(o.text, Holes(o.text), |o.flat|, 1);
    assert [] + o.flat == o.flat && "" + Numbered(o.text, 0, 1) == Numbered(o.text, 0, 1);
  }

  lemma {:induction false} TruesBound(seen: seq<bool>)
    ensures Trues(seen) <= |seen|
  {
    if seen != [] {
      TruesBound(seen[1..]);
    }
  }

  lemma {:induction false} AddVarsPrint(st: Stmt, vs: seq<Var>, first: bool)
    requires AllWellFormed(vs) && AllSubsInOrder(vs)
    ensures Prints(st, AddedAll(st, vs, first), OutVars(vs, first))
    decreases MaxDepth(vs), |vs| + 1
  {
    hide Prints, Printed, Number, Added, OutVar, WellFormed, SubsInOrder;
    if vs == [] {
      NothingPrinted(st);
    } else {
      var text := if first then "" else ",";
      var comma := if first then st else Write(st, ",");
      assert comma == Write(st, text);
      PrintsText(st, text);
      var mid := Added(comma, vs[0]);
      AddVarPrints(comma, vs[0]);
      PrintsCat(st, comma, mid, Literal(text), OutVar(vs[0]));
      AddVarsPrint(mid, vs[1..], false);
      PrintsCat(st, mid, AddedAll(mid, vs[1..], false), Cat(Literal(text), OutVar(vs[0])), OutVars(vs[1..], false));
    }
  }

  lemma FillPrints(st: Stmt, v: Var, spread: bool)
    requires WellFormed(v) && SubsInOrder(v)
    ensures Prints(st, Filled(st, v, spread), OutFill(v, spread))
    decreases Depth(v), 1
  {
    hide Prints, Printed, Number, Added, OutVar;
    if spread && v.List? {
      if v.elems == [] {
        PrintsBind(st, Null);
      } else {
        AddVarsPrint(st, v.elems, true);
      }
    } else {
      AddVarPrints(st, v);
    }
  }

  lemma {:induction false} WholesProper(vars: seq<Var>)
    requires AllWellFormed(vars)
    ensures NoMode(Wholes(vars)) && |Wholes(vars)| == |vars|
  {
    if vars != [] {
      WholesProper(vars[1..]);
    }
  }

  lemma {:induction false} WalkPrints(st: Stmt, sql: string, vars: seq<Var>, after: bool, bare: bool)
    requires Plain(sql) && Holes(sql) <= |vars| && AllWellFormed(vars) && AllSubsInOrder(vars)
    ensures Prints(st, Built(st, sql, vars, after, bare), OutWalk(sql, vars, after, bare))
    decreases MaxDepth(vars), |sql| + 2
  {
    hide Prints, Printed, Number, Filled, OutFill, WellFormed, SubsInOrder;
    if sql == "" {
      WholesProper(vars);
      PrintsUnseen(st, Wholes(vars));
      assert FirstSeen(0, |vars|) == seq(|vars|, _ => false);
    } else if sql[0] == '?' {
      var mid := Filled(st, vars[0], after || bare);
      FillPrints(st, vars[0], after || bare);
      WalkPrints(mid, sql[1..], vars[1..], after, bare);
      PrintsCat(st, mid, Built(mid, sql[1..], vars[1..], after, bare),
                OutFill(vars[0], after || bare), OutWalk(sql[1..], vars[1..], after, bare));
    } else {
      var mid := Write(st, [sql[0]]);
      PrintsText(st, [sql[0]]);
      WalkPrints(mid, sql[1..], vars, sql[0] == '(', bare);
      PrintsCat(st, mid, Built(mid, sql[1..], vars, sql[0] == '(', bare),
                Literal([sql[0]]), OutWalk(sql[1..], vars, sql[0] == '(', bare));
    }
  }

  /** A subquery prints under any outer statement as if its expression stood there itself, if it
      binds no value without a placeholder before one with. */
  lemma SubqueryIsNested(st: Stmt, e: Expr)
    requires WellFormed(Sub(e)) && SubsInOrder(Sub(e))
    ensures Added(st, Sub(e)) == Added(st, Nested(e))
  {
    hide Added, Printed, SeenFirst;
    AddVarPrints(st, Sub(e));
    AddVarPrints(st, Nested(e));
    assert OutVar(Sub(e)) == OutVar(Nested(e));
  }

  /** The conditions of a join, printed by a statement of their own, are numbered on from the
      query they are joined to when they are built into it. */
  lemma OnClauseRenumbered(st: Stmt, on: Stmt, o: Out)
    requires Prints(Stmt("", []), on, o) && SeenFirst(o.seen)
    ensures Prints(st, Added(st, Nested(Expr(Unnumber(on.sql, on.vars), Lift(on.vars), false))), o)
  {
    hide Numbered, Unnumber, Prints, SeenFirst, FirstSeen;
    FreshPrint(on, o);
    UnnumberRecovers(o.text, o.flat);
    WalkLifted(st, o.text, o.flat, false, false);
  }

  // ---------------------------------------------------------------- what the database reads

  predicate IsDigit(c: char) { '0' <= c <= '9' }

  function Span(s: string): (d: string)
    ensures |d| <= |s|
  {
    if s != "" && IsDigit(s[0]) then [s[0]] + Span(s[1..]) else ""
  }

  /** The placeholders of a text, each with all the digits that follow its "$". */
  function Marks(s: string): seq<string> {
    if s == "" then []
    else if s[0] == '$' then [Span(s[1..])] + Marks(s[1 + |Span(s[1..])|..])
    else Marks(s[1..])
  }

  /** The numerals from `next` on. */
  function From(next: nat, n: nat): seq<string>
    decreases n
  {
    if n == 0 then [] else [Digits(next)] + From(next + 1, n - 1)
  }

  /** No digit stands right behind a placeholder. */
  predicate Apart(text: string) {
    text == "" || ((text[0] == '?' && |text| > 1 ==> !IsDigit(text[1])) && Apart(text[1..]))
  }

  lemma {:induction false} DigitsAreDigits(n: nat)
    ensures forall i :: 0 <= i < |Digits(n)| ==> IsDigit(Digits(n)[i])
  {
    if n >= 10 {
      DigitsAreDigits(n / 10);
    }
  }

  lemma {:induction false} SpanDigits(d: string, s: string)
    requires forall i :: 0 <= i < |d| ==> IsDigit(d[i])
    ensures Span(d + s) == d + Span(s)
  {
    if d == "" {
      assert d + s == s;
    } else {
      assert (d + s)[1..] == d[1..] + s;
      SpanDigits(d[1..], s);
    }
  }

  lemma MarksOf(s: string)
    ensures Marks("$" + s) == [Span(s)] + Marks(s[|Span(s)|..])
  {
    var t := "$" + s;
    assert t[1..] == s && t[0] == '$';
    assert t[1 + |Span(s)|..] == s[|Span(s)|..];
  }

  lemma MarksHead(d: string, tail: string, s: string)
    requires s == d + tail && Span(s) == d + Span(tail)
    ensures Marks("$" + s) == [d + Span(tail)] + Marks(tail[|Span(tail)|..])
  {
    hide Marks, Span, IsDigit;
    MarksOf(s);
    Behind(d, tail, |Span(tail)|);
  }

  lemma Behind(d: string, tail: string, n: nat)
    requires n <= |tail|
    ensures (d + tail)[|d| + n..] == tail[n..]
  {
  }

  lemma SpanOfRest(text: string, next: nat)
    ensures Span(Numbered(text, 0, next)) == "" <==> text == "" || !IsDigit(text[0])
  {
  }

  lemma ReadHole(d: string, tail: string, meant: seq<string>)
    requires forall i :: 0 <= i < |d| ==> IsDigit(d[i])
    ensures Marks("$" + d + tail) == [d] + meant <==> Span(tail) == "" && Marks(tail) == meant
  {
    hide Marks, Span;
    SpanDigits(d, tail);
    MarksHead(d, tail, d + tail);
    Assoc("$", d, tail);
    ReadFirst(d, Span(tail), Marks(tail[|Span(tail)|..]), meant);
    assert tail[0..] == tail;
  }

  lemma ReadFirst(d: string, more: string, read: seq<string>, meant: seq<string>)
    ensures [d + more] + read == [d] + meant <==> more == "" && read == meant
  {
    assert ([d + more] + read)[0] == d + more && ([d + more] + read)[1..] == read;
    assert ([d] + meant)[0] == d && ([d] + meant)[1..] == meant;
    assert more != "" ==> |d + more| > |d|;
    assert d + "" == d;
  }

  /** The database reads the numbers that were meant exactly when the template has no digit
      right behind a placeholder. */
  lemma {:induction false} ReadBackIffApart(text: string, next: nat)
    requires Plain(text)
    ensures Marks(Numbered(text, 0, next)) == From(next, Holes(text)) <==> Apart(text)
  {
    hide Digits, Span;
    if text != "" {
      var rest := text[1..];
      if text[0] == '?' {
        ReadBackIffApart(rest, next + 1);
        DigitsAreDigits(next);
        SpanOfRest(rest, next + 1);
        ReadHole(Digits(next), Numbered(rest, 0, next + 1), From(next + 1, Holes(rest)));
      } else {
        var tail := Numbered(rest, 0, next);
        ReadBackIffApart(rest, next);
        assert ([text[0]] + tail)[1..] == tail;
      }
    }
  }

  // ---------------------------------------------------------------- where it goes wrong

  /** With a "$" in the text the first occurrence need not be the placeholder. */
  lemma DollarInTextIsTaken()
    ensures Unnumber(Numbered("$1?", 0, 1), [Value(0)]) != "$1?"
  {
    assert "$1?"[1..] == "1?" && "1?"[1..] == "?" && "?"[1..] == "";
    assert Digits(1) == "1";
    assert Numbered("?", 0, 1) == "$1";
    assert Numbered("$1?", 0, 1) == "$1$1";
    assert BindVar([Value(0)]) == "$1";
    assert "$1$1" == "$1" + "$1";
    FindHere("$1", "$1");
    assert [Value(0)][..0] == [];
  }

  /** An argument without a placeholder inside a subquery takes the place of the next one. */
  lemma SurplusMisbinds(a: Bound, b: Bound)
    requires a != Mode && b != Mode && a != b
    ensures var e := Expr("??", [Nested(Expr("", [Bind(a)], false)), Bind(b)], false);
            && Added(Stmt("", []), Nested(e)) == Stmt("$2", [a, b])
            && Added(Stmt("", []), Sub(e)) == Stmt("$1", [a, b])
  {
    SurplusNested(a, b);
    SurplusSub(a, b);
  }

  lemma WalkEnd(st: Stmt, vars: seq<Var>, after: bool)
    ensures Built(st, "", vars, after, false) == st.(vars := st.vars + Wholes(vars))
  {
  }

  lemma WalkHole(st: Stmt, sql: string, v: Var, vars: seq<Var>)
    requires !v.List?
    ensures Built(st, "?" + sql, [v] + vars, false, false) == Built(Added(st, v), sql, vars, false, false)
  {
    assert ("?" + sql)[1..] == sql && ([v] + vars)[1..] == vars;
  }

  lemma SurplusNested(a: Bound, b: Bound)
    requires a != Mode && b != Mode
    ensures var e := Expr("??", [Nested(Expr("", [Bind(a)], false)), Bind(b)], false);
            Added(Stmt("", []), Nested(e)) == Stmt("$2", [a, b])
  {
    hide Built, Digits;
    var inner := Nested(Expr("", [Bind(a)], false));
    var empty, one := Stmt("", []), Stmt("", [a]);
    assert "??" == "?" + "?" && "?" == "?" + "";
    assert [inner, Bind(b)] == [inner] + [Bind(b)] && [Bind(b)] == [Bind(b)] + [];
    OneDigit();
    WalkEnd(empty, [Bind(a)], false);
    assert Wholes([Bind(a)]) == [a] && Wholes([]) == [];
    assert [] + [a] == [a] && [a] + [b] == [a, b] && [a, b] + [] == [a, b];
    assert Added(empty, inner) == one;
    WalkHole(empty, "?", inner, [Bind(b)]);
    assert Number([a, b]) == 2 && "" + ("$" + "2") == "$2";
    assert Added(one, Bind(b)) == Stmt("$2", [a, b]);
    WalkHole(one, "", Bind(b), []);
    WalkEnd(Stmt("$2", [a, b]), [], false);
    assert Built(empty, "??", [inner, Bind(b)], false, false) == Stmt("$2", [a, b]);
  }

  lemma OneDigit()
    ensures Digits(1) == "1" && Digits(2) == "2"
  {
  }

  lemma SurplusUnnumbered(a: Bound, b: Bound)
    requires a != Mode && b != Mode
    ensures Unnumber("$2", [a, b]) == "?"
  {
    hide Digits;
    OneDigit();
    assert [a, b][..1] == [a] && [a][..0] == [];
    assert "$2"[..2] == "$2" && "$2"[1..] == "2";
    assert Unnumber("$2", [a]) == "$2";
    FindHere("", "$2");
  }

  lemma SurplusSub(a: Bound, b: Bound)
    requires a != Mode && b != Mode
    ensures var e := Expr("??", [Nested(Expr("", [Bind(a)], false)), Bind(b)], false);
            Added(Stmt("", []), Sub(e)) == Stmt("$1", [a, b])
  {
    hide Built, Digits, Unnumber;
    var empty, one := Stmt("", []), Stmt("$1", [a]);
    SurplusNested(a, b);
    SurplusUnnumbered(a, b);
    LiftAt([a, b]);
    LiftAt([b]);
    assert Lift([a, b]) == [Bind(a)] + [Bind(b)] by { assert [a, b][1..] == [b] && Lift([]) == []; }
    assert "?" == "?" + "";
    OneDigit();
    assert [] + [a] == [a] && [a] + [b] == [a, b];
    assert Number([a]) == 1 && "" + ("$" + "1") == "$1" && "" + "$1" == "$1";
    assert Added(empty, Bind(a)) == one;
    WalkHole(empty, "", Bind(a), [Bind(b)]);
    WalkEnd(one, [Bind(b)], false);
    assert Wholes([Bind(b)]) == [b];
    var e := Expr("??", [Nested(Expr("", [Bind(a)], false)), Bind(b)], false);
    assert Built(empty, e.sql, e.vars, false, false) == Stmt("$2", [a, b]);
  }

  // ---------------------------------------------------------------- the methods

  /** The replacing loop of AddVar and of the ON clause: each value is appended to the
      statement's values, and the placeholder it would print now becomes "?". */
  method UnnumberEach(sql: string, vars: seq<Bound>) returns (text: string)
    ensures text == Unnumber(sql, vars)
  {
    text := sql;
    assert vars[..0] == [];
    var bound := [];
    for i := 0 to |vars|
      invariant bound == vars[..i] && text == Unnumber(sql, vars[..i])
    {
      bound := bound + [vars[i]];
      assert vars[..i + 1][..i] == vars[..i];
      text := ReplaceFirst(text, BindVar(bound), "?");
    }
    assert vars[..|vars|] == vars;
  }

  class Statement {
    var sql: string
    var vars: seq<Bound>

    constructor (vars: seq<Bound>)
      ensures sql == "" && this.vars == vars
    {
      sql, this.vars := "", vars;
    }

    function Now(): Stmt
      reads this
    {
      Stmt(sql, vars)
    }

    method WriteString(text: string)
      modifies this
      ensures Now() == Write(old(Now()), text)
    {
      sql := sql + text;
    }

    /** AddVar for one argument. */
    method AddVar(v: Var)
      modifies this
      ensures Now() == Added(old(Now()), v)
      decreases Depth(v), 0
    {
      hide Number, Unnumber, Filled;
      match v
      case Bind(b) =>
        vars := vars + [b];
        WriteString(BindVar(vars));
      case List(elems) =>
        if elems == [] {
          WriteString("(NULL)");
        } else {
          WriteString("(");
          AddVars(elems);
          WriteString(")");
        }
      case Nested(e) =>
        BuildExpr(e);
      case Sub(e) =>
        var subdb := new Statement([]);
        subdb.BuildExpr(e);
        var text := UnnumberEach(subdb.sql, subdb.vars);
        var again := Expr(text, Lift(subdb.vars), false);
        subdb.sql, subdb.vars := "", vars;
        subdb.BuildExpr(again);
        WriteString(subdb.sql);
        vars := subdb.vars;
    }

    method AddVars(vs: seq<Var>)
      modifies this
      ensures Now() == AddedAll(old(Now()), vs, true)
      decreases MaxDepth(vs), |vs| + 1
    {
      hide Added;
      ghost var start := Now();
      for idx := 0 to |vs|
        invariant AddedAll(start, vs, true) == AddedAll(Now(), vs[idx..], idx == 0)
      {
        assert vs[idx..][0] == vs[idx] && vs[idx..][1..] == vs[idx + 1..];
        DepthAt(vs, idx);
        if idx > 0 {
          WriteString(",");
        }
        AddVar(vs[idx]);
      }
    }

    lemma {:induction false} DepthAt(vs: seq<Var>, i: nat)
      requires i < |vs|
      ensures Depth(vs[i]) <= MaxDepth(vs)
    {
      if i > 0 {
        DepthAt(vs[1..], i - 1);
      }
    }

    method FillIn(v: Var, spread: bool)
      modifies this
      ensures Now() == Filled(old(Now()), v, spread)
      decreases Depth(v), 1
    {
      hide Added, AddedAll;
      if spread && v.List? {
        if v.elems == [] {
          AddVar(Bind(Null));
        } else {
          AddVars(v.elems);
        }
      } else {
        AddVar(v);
      }
    }

    /** Expr.Build. */
    method BuildExpr(expr: Expr)
      modifies this
      ensures Now() == Built(old(Now()), expr.sql, expr.vars, false, expr.withoutParentheses)
      decreases MaxDepth(expr.vars), |expr.sql| + 2
    {
      hide Filled, Wholes;
      ghost var start := Now();
      var afterParenthesis, idx := false, 0;
      for i := 0 to |expr.sql|
        invariant 0 <= idx <= |expr.vars|
        invariant Built(start, expr.sql, expr.vars, false, expr.withoutParentheses) ==
                  Built(Now(), expr.sql[i..], expr.vars[idx..], afterParenthesis, expr.withoutParentheses)
      {
        assert expr.sql[i..][0] == expr.sql[i] && expr.sql[i..][1..] == expr.sql[i + 1..];
        var v := expr.sql[i];
        if v == '?' && |expr.vars| > idx {
          assert expr.vars[idx..][0] == expr.vars[idx] && expr.vars[idx..][1..] == expr.vars[idx + 1..];
          DepthAt(expr.vars, idx);
          FillIn(expr.vars[idx], afterParenthesis || expr.withoutParentheses);
          idx := idx + 1;
        } else {
          afterParenthesis := v == '(';
          WriteString([v]);
        }
      }
      vars := vars + Wholes(expr.vars[idx..]);
    }
  }
}
