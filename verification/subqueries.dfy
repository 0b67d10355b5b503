/** When a subquery of gorm/statement.go, built on its own, un-numbered and built again, prints
    as if its expression stood there itself: exactly when it binds no value without a
    placeholder before one with. */
module Subqueries {
  import opened Decimals
  import opened BindVars

  /** The first value without a placeholder, and the next one with. */
  lemma {:induction false} Gap(seen: seq<bool>) returns (p: nat, j: nat)
    requires !SeenFirst(seen)
    ensures p < j < |seen| && seen[j]
    ensures forall k :: 0 <= k < p ==> seen[k]
    ensures forall k :: p <= k < j ==> !seen[k]
  {
    if seen[0] {
      var rest := seen[1..];
      assert !SeenFirst(rest) by {
        var x, y :| 0 <= x < y < |seen| && seen[y] && !seen[x];
        assert !rest[x - 1] && rest[y - 1];
      }
      p, j := Gap(rest);
      p, j := p + 1, j + 1;
    } else {
      p := 0;
      var x, y :| 0 <= x < y < |seen| && seen[y] && !seen[x];
      j := NextSeen(seen, y);
    }
  }

  lemma {:induction false} NextSeen(seen: seq<bool>, y: nat) returns (j: nat)
    requires y < |seen| && seen[y]
    ensures j <= y && seen[j] && forall k :: 0 <= k < j ==> !seen[k]
  {
    if seen[0] {
      j := 0;
    } else {
      j := NextSeen(seen[1..], y - 1);
      j := j + 1;
    }
  }

  lemma {:induction false} NoneSeen(seen: seq<bool>)
    requires forall k :: 0 <= k < |seen| ==> !seen[k]
    ensures Trues(seen) == 0
  {
    if seen != [] {
      NoneSeen(seen[1..]);
    }
  }

  /** Up to the gap the placeholders are numbered without one; the next jumps over it. */
  ghost predicate Jumps(text: string, seen: seq<bool>, next: nat, p: nat, j: nat, more: string) {
    var front := text[..HoleAt(text, p)];
    && Holes(front) == p
    && Printed(text, seen, next) == Numbered(front, 0, next) + (("$" + Digits(next + j)) + more)
  }

  lemma JumpsBehindText(text: string, seen: seq<bool>, next: nat, p: nat, j: nat, more: string)
    requires text != "" && text[0] != '?' && Jumps(text[1..], seen, next, p, j, more)
    ensures Jumps(text, seen, next, p, j, more)
  {
    hide Digits;
    var front := text[1..][..HoleAt(text[1..], p)];
    assert text[..HoleAt(text, p)] == [text[0]] + front;
    FrontMore(text[0], front);
    Assoc([text[0]], Numbered(front, 0, next), ("$" + Digits(next + j)) + more);
  }

  lemma JumpsBehindHole(text: string, seen: seq<bool>, next: nat, p: nat, j: nat, more: string)
    requires text != "" && text[0] == '?' && seen != [] && seen[0] && 0 < p < j
    requires Jumps(text[1..], seen[1..], next + 1, p - 1, j - 1, more)
    ensures Jumps(text, seen, next, p, j, more)
  {
    hide Digits;
    var front := text[1..][..HoleAt(text[1..], p - 1)];
    assert text[..HoleAt(text, p)] == ['?'] + front;
    FrontMore('?', front);
    Assoc("$" + Digits(next), Numbered(front, 0, next + 1), ("$" + Digits(next + j)) + more);
  }

  lemma JumpsHere(text: string, seen: seq<bool>, next: nat, j: nat) returns (more: string)
    requires text != "" && text[0] == '?' && j < |seen| && seen[j] && forall k :: 0 <= k < j ==> !seen[k]
    ensures Jumps(text, seen, next, 0, j, more)
  {
    hide Digits;
    assert seen == seen[..j] + seen[j..];
    NoneSeen(seen[..j]);
    PrintedUnseen(text, seen[..j], seen[j..], next);
    more := Printed(text[1..], seen[j..][1..], next + j + 1);
    assert text[..0] == "" && "" + (("$" + Digits(next + j)) + more) == "$" + Digits(next + j) + more;
  }

  lemma {:induction false} PrintedGap(text: string, seen: seq<bool>, next: nat, p: nat, j: nat) returns (more: string)
    requires Holes(text) == Trues(seen) && p < j < |seen| && seen[j]
    requires forall k :: 0 <= k < p ==> seen[k]
    requires forall k :: p <= k < j ==> !seen[k]
    ensures Jumps(text, seen, next, p, j, more)
    decreases |text|
  {
    hide Jumps;
    SomeSeen(seen, j);
    if text[0] != '?' {
      more := PrintedGap(text[1..], seen, next, p, j);
      JumpsBehindText(text, seen, next, p, j, more);
    } else if p > 0 {
      more := PrintedGap(text[1..], seen[1..], next + 1, p - 1, j - 1);
      JumpsBehindHole(text, seen, next, p, j, more);
    } else {
      more := JumpsHere(text, seen, next, j);
    }
  }

  lemma FrontMore(c: char, front: string)
    ensures ([c] + front)[1..] == front
    ensures Holes([c] + front) == Holes(front) + if c == '?' then 1 else 0
  {
  }

  lemma {:induction false} SomeSeen(seen: seq<bool>, j: nat)
    requires j < |seen| && seen[j]
    ensures Trues(seen) > 0
  {
    if !seen[0] {
      SomeSeen(seen[1..], j - 1);
    }
  }

  // ---------------------------------------------------------------- un-numbering with a gap

  lemma {:induction false} FoundBy(s: string, pat: string, i: nat)
    requires i + |pat| <= |s| && s[i..i + |pat|] == pat
    ensures 0 <= Find(s, pat) <= i
  {
    if i == 0 {
      assert s[..|pat|] == pat;
    } else if s[..|pat|] != pat {
      assert s[1..][i - 1..i - 1 + |pat|] == s[i..i + |pat|];
      FoundBy(s[1..], pat, i - 1);
    }
  }

  predicate Intact(s: string, front: string, w: nat) {
    var mark := "$" + Digits(w);
    |s| >= |front| + |mark| && s[|front|..|front| + |mark|] == mark
  }

  /** Behind an untouched front stands a "?", or still the mark of a number to come. */
  predicate Standing(s: string, front: string, w: nat, k: nat) {
    |s| > |front| && s[..|front|] == front && (s[|front|] == '?' || (k < w && Intact(s, front, w)))
  }

  lemma NoneWithin(s: string, from: nat, to: nat, part: string)
    requires from <= to <= |s| && s[from..to] == part && '$' !in part
    ensures forall i :: from <= i < to ==> s[i] != '$'
  {
    forall i | from <= i < to ensures s[i] != '$' {
      assert s[i] == part[i - from];
    }
  }

  lemma StandsOn(s: string, front: string, w: nat, k: nat)
    requires Standing(s, front, w, k) && '$' !in front
    ensures Standing(ReplaceFirst(s, "$" + Digits(k + 1), "?"), front, w, k + 1)
  {
    hide Digits, Find;
    var pat := "$" + Digits(k + 1);
    MarkOf(k + 1);
    var at := Find(s, pat);
    if s[|front|] != '?' && k + 1 == w {
      FoundBy(s, pat, |front|);
    }
    if at != -1 {
      FindFound(s, pat);
      assert s[at] == s[at..at + |pat|][0];
      NoneWithin(s, 0, |front|, front);
      StandsBehind(s, front, w, k, at, pat);
    }
  }

  lemma StandsBehind(s: string, front: string, w: nat, k: nat, at: nat, pat: string)
    requires Standing(s, front, w, k) && |front| <= at < |s| && at + |pat| <= |s| && s[at] == '$'
    requires s[|front|] != '?' && k + 1 == w ==> at == |front|
    ensures Standing(s[..at] + "?" + s[at + |pat|..], front, w, k + 1)
  {
    hide Digits;
    var n, mark := |front|, "$" + Digits(w);
    MarkOf(w);
    var r := s[..at] + "?" + s[at + |pat|..];
    assert r[..n] == s[..n];
    if at > n {
      assert r[n] == s[n];
      if s[n] != '?' {
        assert s[n + 1..n + |mark|] == s[n..n + |mark|][1..] == mark[1..];
        NoneWithin(s, n + 1, n + |mark|, mark[1..]);
        assert r[n..n + |mark|] == s[n..n + |mark|];
      }
    }
  }

  /** As long as there are placeholders in front, un-numbering takes them one by one; then it
      comes to the one behind the gap, at the latest when its own number is looked for. */
  lemma {:induction false} UnnumberGap(front: string, w: nat, more: string, vars: seq<Bound>, k: nat)
    requires '$' !in front && Holes(front) < w && NoMode(vars) && k <= |vars|
    ensures var s := Numbered(front, 0, 1) + (("$" + Digits(w)) + more); var r := Unnumber(s, vars[..k]);
            if k < Holes(front) then r == Numbered(front, k, k + 1) + (("$" + Digits(w)) + more)
            else Standing(r, front, w, k)
  {
    hide Digits, Find, ReplaceFirst, Standing, Holes, Numbered;
    var back := ("$" + Digits(w)) + more;
    if k == 0 {
      assert vars[..0] == [];
      if Holes(front) == 0 {
        NumberedNone(front, 0, 1);
        StandsFirst(front, w, more, 0);
      }
    } else {
      UnnumberGap(front, w, more, vars, k - 1);
      assert vars[..k][..k - 1] == vars[..k - 1];
      assert Number(vars[..k]) == k by { assert vars[..k][0] in vars; }
      if k - 1 < Holes(front) {
        UnnumbersFront(front, k - 1, back);
        if k == Holes(front) {
          NumberedNone(front, k, k + 1);
          StandsFirst(front, w, more, k);
        }
      } else {
        StandsOn(Unnumber(Numbered(front, 0, 1) + back, vars[..k - 1]), front, w, k - 1);
      }
    }
  }

  lemma StandsFirst(front: string, w: nat, more: string, k: nat)
    requires k < w
    ensures Standing(front + (("$" + Digits(w)) + more), front, w, k)
  {
    hide Digits;
    var mark := "$" + Digits(w);
    var s := front + (mark + more);
    assert s[|front|..|front| + |mark|] == mark && s[..|front|] == front;
  }

  lemma UnnumbersFront(front: string, k: nat, back: string)
    requires '$' !in front && k < Holes(front)
    ensures ReplaceFirst(Numbered(front, k, k + 1) + back, "$" + Digits(k + 1), "?") ==
            Numbered(front, k + 1, k + 2) + back
  {
    hide Digits, Find, ReplaceFirst, Holes, Numbered, HoleAt;
    var pat, p := "$" + Digits(k + 1), HoleAt(front, k);
    MarkOf(k + 1);
    NumberedAt(front, k, k + 1);
    var rest := Numbered(front[p + 1..], 0, k + 2);
    NoDollarNoMark(front[..p], pat);
    Assoc(pat, rest, back);
    Assoc(front[..p], pat + rest, back);
    ReplaceAt(Numbered(front, k, k + 1) + back, front[..p], pat, rest + back);
    Assoc("?", rest, back);
    Assoc(front[..p], "?" + rest, back);
  }

  // ---------------------------------------------------------------- building again

  lemma {:induction false} BuiltExtends(st: Stmt, text: string, bs: seq<Bound>, after: bool)
    ensures st.sql <= Built(st, text, Lift(bs), after, false).sql
    decreases |text|
  {
    if text != "" {
      if text[0] == '?' && bs != [] {
        LiftAt(bs);
        BuiltExtends(Added(st, Bind(bs[0])), text[1..], bs[1..], after);
      } else {
        BuiltExtends(Write(st, [text[0]]), text[1..], bs, text[0] == '(');
      }
    }
  }

  lemma StepHole(st: Stmt, text: string, bs: seq<Bound>, after: bool)
    requires text != "" && text[0] == '?' && bs != [] && NoMode(bs)
    ensures var mid := Added(st, Bind(bs[0]));
            && Built(st, text, Lift(bs), after, false) == Built(mid, text[1..], Lift(bs[1..]), after, false)
            && mid.sql == st.sql + ("$" + Digits(Number(st.vars) + 1)) && Number(mid.vars) == Number(st.vars) + 1
  {
    LiftAt(bs);
    NumberOn(st.vars, [bs[0]]);
  }

  lemma StepText(st: Stmt, text: string, bs: seq<Bound>, after: bool)
    requires text != "" && text[0] != '?'
    ensures Built(st, text, Lift(bs), after, false) ==
            Built(Write(st, [text[0]]), text[1..], Lift(bs), text[0] == '(', false)
  {
  }

  /** The placeholder behind `front` gets the next number. */
  lemma {:induction false} BuiltFront(st: Stmt, front: string, rest: string, bs: seq<Bound>, after: bool)
    returns (tail: string)
    requires NoMode(bs) && Holes(front) < |bs|
    ensures var n := Number(st.vars);
            Built(st, front + ("?" + rest), Lift(bs), after, false).sql ==
            st.sql + (Numbered(front, 0, n + 1) + (("$" + Digits(n + Holes(front) + 1)) + tail))
    decreases |front|
  {
    hide Digits, Built, Added, Number, Lift;
    var n := Number(st.vars);
    var text := front + ("?" + rest);
    if front == "" {
      assert text == "?" + rest && text[1..] == rest;
      StepHole(st, text, bs, after);
      var mid := Added(st, Bind(bs[0]));
      BuiltExtends(mid, rest, bs[1..], after);
      var r := Built(mid, rest, Lift(bs[1..]), after, false).sql;
      tail := r[|mid.sql|..];
      assert r == mid.sql + tail;
      Assoc(st.sql, "$" + Digits(n + 1), tail);
      NoPrefix(("$" + Digits(n + 1)) + tail);
    } else if front[0] == '?' {
      assert text[1..] == front[1..] + ("?" + rest) && text[0] == front[0];
      StepHole(st, text, bs, after);
      tail := BuiltFront(Added(st, Bind(bs[0])), front[1..], rest, bs[1..], after);
      var x, y := Numbered(front[1..], 0, n + 2), ("$" + Digits(n + Holes(front) + 1)) + tail;
      Assoc(st.sql, "$" + Digits(n + 1), x + y);
      Assoc("$" + Digits(n + 1), x, y);
    } else {
      assert text[1..] == front[1..] + ("?" + rest) && text[0] == front[0];
      StepText(st, text, bs, after);
      tail := BuiltFront(Write(st, [front[0]]), front[1..], rest, bs, front[0] == '(');
      var x, y := Numbered(front[1..], 0, n + 1), ("$" + Digits(n + Holes(front) + 1)) + tail;
      Assoc(st.sql, [front[0]], x + y);
      Assoc([front[0]], x, y);
    }
  }

  lemma NoPrefix(s: string)
    ensures "" + s == s
  {
  }

  // ---------------------------------------------------------------- numbers of one length

  function Power(l: nat): nat { if l == 0 then 1 else 10 * Power(l - 1) }

  lemma {:induction false} PowerGrows(l: nat)
    ensures Power(l) > l
  {
    if l > 0 {
      PowerGrows(l - 1);
    }
  }

  lemma {:induction false} DigitsLength(n: nat, l: nat)
    requires Power(l) <= n < Power(l + 1)
    ensures |Digits(n)| == l + 1
  {
    if l > 0 {
      DigitsLength(n / 10, l - 1);
    }
  }

  lemma DifferentNumbers(a: nat, b: nat, x: string, y: string)
    requires a != b && |Digits(a)| == |Digits(b)|
    ensures ("$" + Digits(a)) + x != ("$" + Digits(b)) + y
  {
    hide Digits;
    var s, t := ("$" + Digits(a)) + x, ("$" + Digits(b)) + y;
    if s == t {
      assert s[1..1 + |Digits(a)|] == Digits(a) && t[1..1 + |Digits(b)|] == Digits(b);
      DigitsInjective(a, b);
      assert false;
    }
  }

  // ---------------------------------------------------------------- main result

  /** What the subquery `sub`, un-numbered and built again behind `m` values, begins with. */
  lemma SubGap(sub: Stmt, o: Out, p: nat, j: nat, m: nat) returns (st: Stmt, tail: string)
    requires Prints(Stmt("", []), sub, o) && p < j < |o.seen| && o.seen[j]
    requires forall k :: 0 <= k < p ==> o.seen[k]
    requires forall k :: p <= k < j ==> !o.seen[k]
    ensures st == Stmt("", seq(m, _ => Null)) && Number(st.vars) == m
    ensures Built(st, Unnumber(sub.sql, sub.vars), Lift(sub.vars), false, false).sql ==
            Numbered(o.text[..HoleAt(o.text, p)], 0, m + 1) + (("$" + Digits(m + p + 1)) + tail)
  {
    hide Digits, Printed, Numbered, Holes, Trues, Built, Unnumber, HoleAt, Standing;
    NoPrefix(Printed(o.text, o.seen, 1));
    assert [] + o.flat == o.flat;
    var more := PrintedGap(o.text, o.seen, 1, p, j);
    var front := o.text[..HoleAt(o.text, p)];
    UnnumberGap(front, j + 1, more, o.flat, |o.flat|);
    assert o.flat[..|o.flat|] == o.flat;
    var rest := StandsAtLast(Unnumber(sub.sql, sub.vars), front, j + 1, |o.flat|);
    st := Stmt("", seq(m, _ => Null));
    tail := BuiltFront(st, front, rest, o.flat, false);
    NoPrefix(Numbered(front, 0, m + 1) + (("$" + Digits(m + p + 1)) + tail));
  }

  /** A value without a placeholder before one with: under a statement with many values the
      subquery numbers the latter too low. */
  lemma OutOfOrderDiffers(e: Expr) returns (st: Stmt)
    requires WellFormed(Nested(e)) && SubsInOrder(Nested(e)) && !SeenFirst(OutVar(Nested(e)).seen)
    ensures Added(st, Sub(e)) != Added(st, Nested(e))
  {
    hide Digits, Printed, Numbered, Holes, Trues, Built, Unnumber, SeenFirst, OutWalk, HoleAt, Number, Lift;
    var empty, o := Stmt("", []), OutWalk(e.sql, e.vars, false, e.withoutParentheses);
    var sub := Built(empty, e.sql, e.vars, false, e.withoutParentheses);
    WalkPrints(empty, e.sql, e.vars, false, e.withoutParentheses);
    var p, j := Gap(o.seen);
    var m := Power(j + 1);
    PowerGrows(j + 1);
    var tail;
    st, tail := SubGap(sub, o, p, j, m);
    WalkPrints(st, e.sql, e.vars, false, e.withoutParentheses);
    var more := PrintedGap(o.text, o.seen, m + 1, p, j);
    DigitsLength(m + p + 1, j + 1);
    DigitsLength(m + 1 + j, j + 1);
    DifferentNumbers(m + p + 1, m + 1 + j, tail, more);
    var front := Numbered(o.text[..HoleAt(o.text, p)], 0, m + 1);
    SameFront(front, ("$" + Digits(m + p + 1)) + tail, ("$" + Digits(m + 1 + j)) + more);
    NoPrefix(Printed(o.text, o.seen, m + 1));
    NoPrefix(front + (("$" + Digits(m + p + 1)) + tail));
  }

  lemma StandsAtLast(s: string, front: string, w: nat, k: nat) returns (rest: string)
    requires Standing(s, front, w, k) && k >= w
    ensures s == front + ("?" + rest)
  {
    rest := s[|front| + 1..];
    assert s == s[..|front|] + ([s[|front|]] + rest);
  }

  lemma SameFront(a: string, x: string, y: string)
    requires x != y
    ensures a + x != a + y
  {
    assert (a + x)[|a|..] == x && (a + y)[|a|..] == y;
  }

  /** A subquery prints under every outer statement as if its expression stood there itself
      exactly when it binds no value without a placeholder before one with. */
  lemma SubqueryIsNestedIff(e: Expr)
    requires WellFormed(Nested(e)) && SubsInOrder(Nested(e))
    ensures (forall st :: Added(st, Sub(e)) == Added(st, Nested(e))) <==> SeenFirst(OutVar(Nested(e)).seen)
  {
    hide Added, SeenFirst, OutWalk;
    if SeenFirst(OutVar(Nested(e)).seen) {
      forall st ensures Added(st, Sub(e)) == Added(st, Nested(e)) {
        SubqueryIsNested(st, e);
      }
    } else {
      var st := OutOfOrderDiffers(e);
    }
  }
}
