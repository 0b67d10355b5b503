/** Three-valued SQL conditions: values, predicates, tokens, and a reader that
    evaluates a flat token text with the precedence of section 8.12 of
    ISO/IEC 9075:1992 (NOT binds tighter than AND, AND tighter than OR). The
    reader knows nothing about the expression trees that are printed. */
module SqlLogic {

  datatype Truth = True | False | Unknown

  function Not3(a: Truth): Truth {
    match a
    case True => False
    case False => True
    case Unknown => Unknown
  }

  function And3(a: Truth, b: Truth): Truth {
    if a.False? || b.False? then False else if a.True? && b.True? then True else Unknown
  }

  function Or3(a: Truth, b: Truth): Truth {
    Not3(And3(Not3(a), Not3(b)))
  }

  function Definite(b: bool): Truth { if b then True else False }

  /** A scalar of one totally ordered SQL type, or NULL. */
  datatype Value = Null | Val(v: int)

  type Column = string

  /** What a condition is evaluated against: the current row and the database's
      LIKE relation between a value and a pattern. */
  datatype World = World(cell: Column -> Value, like: (int, int) -> bool)

  datatype CompareOp = EQ | NE | GT | GE | LT | LE

  /** The comparison texts the ORM can write. */
  datatype Predicate =
    | Compare(column: Column, op: CompareOp, operand: Value)
    | Member(column: Column, negated: bool, list: seq<Value>)
    | NullTest(column: Column, negated: bool)
    | Match(column: Column, negated: bool, pattern: Value)

  function Holds(op: CompareOp, x: int, y: int): bool {
    match op
    case EQ => x == y
    case NE => x != y
    case GT => x > y
    case GE => x >= y
    case LT => x < y
    case LE => x <= y
  }

  function CompareValues(op: CompareOp, x: Value, y: Value): Truth {
    if x.Null? || y.Null? then Unknown else Definite(Holds(op, x.v, y.v))
  }

  /** x IN (list): the disjunction of the equalities. */
  function AnyEqual(x: Value, list: seq<Value>): Truth {
    if list == [] then False else Or3(CompareValues(EQ, x, list[0]), AnyEqual(x, list[1..]))
  }

  function Signed(negated: bool, t: Truth): Truth { if negated then Not3(t) else t }

  function EvalPredicate(p: Predicate, w: World): Truth {
    var x := w.cell(p.column);
    match p
    case Compare(_, op, y) => CompareValues(op, x, y)
    case Member(_, negated, list) => Signed(negated, AnyEqual(x, list))
    case NullTest(_, negated) => Signed(negated, Definite(x.Null?))
    case Match(_, negated, y) =>
      Signed(negated, if x.Null? || y.Null? then Unknown else Definite(w.like(x.v, y.v)))
  }

  datatype Token = AND | OR | NOT | LPAREN | RPAREN | PRED(p: Predicate)

  /** Outcome of reading a prefix of a token text. */
  datatype Reading = Malformed | Read(value: Truth, rest: seq<Token>)

  predicate Starts(ts: seq<Token>, t: Token) { ts != [] && ts[0] == t }

  function ReadOr(ts: seq<Token>, w: World): (r: Reading)
    ensures r.Read? ==> |r.rest| < |ts|
    decreases |ts|, 3
  {
    match ReadAnd(ts, w)
    case Malformed => Malformed
    case Read(a, rest) =>
      if !Starts(rest, OR) then Read(a, rest) else
      match ReadOr(rest[1..], w)
      case Malformed => Malformed
      case Read(b, rest') => Read(Or3(a, b), rest')
  }

  function ReadAnd(ts: seq<Token>, w: World): (r: Reading)
    ensures r.Read? ==> |r.rest| < |ts|
    decreases |ts|, 2
  {
    match ReadNot(ts, w)
    case Malformed => Malformed
    case Read(a, rest) =>
      if !Starts(rest, AND) then Read(a, rest) else
      match ReadAnd(rest[1..], w)
      case Malformed => Malformed
      case Read(b, rest') => Read(And3(a, b), rest')
  }

  function ReadNot(ts: seq<Token>, w: World): (r: Reading)
    ensures r.Read? ==> |r.rest| < |ts|
    decreases |ts|, 1
  {
    if !Starts(ts, NOT) then ReadPrimary(ts, w) else
    match ReadNot(ts[1..], w)
    case Malformed => Malformed
    case Read(a, rest) => Read(Not3(a), rest)
  }

  function ReadPrimary(ts: seq<Token>, w: World): (r: Reading)
    ensures r.Read? ==> |r.rest| < |ts|
    decreases |ts|, 0
  {
    if ts == [] then Malformed
    else if ts[0].PRED? then Read(EvalPredicate(ts[0].p, w), ts[1..])
    else if ts[0] != LPAREN then Malformed
    else
      match ReadOr(ts[1..], w)
      case Malformed => Malformed
      case Read(a, rest) => if Starts(rest, RPAREN) then Read(a, rest[1..]) else Malformed
  }

  /** The truth of a complete condition text. */
  function ReadCondition(ts: seq<Token>, w: World): Reading {
    ReadOr(ts, w)
  }

  // ---------------------------------------------------------------- what it does

  /** The truth tables of section 8.12: AND is the least, OR the greatest of False, Unknown, True,
      and NOT turns the order around. */
  lemma TruthTables(a: Truth, b: Truth)
    ensures Rank(And3(a, b)) == if Rank(a) < Rank(b) then Rank(a) else Rank(b)
    ensures Rank(Or3(a, b)) == if Rank(a) < Rank(b) then Rank(b) else Rank(a)
    ensures Rank(Not3(a)) == 2 - Rank(a)
  {
  }

  function Rank(t: Truth): int {
    match t
    case False => 0
    case Unknown => 1
    case True => 2
  }

  lemma ReadOne(p: Predicate, rest: seq<Token>, w: World)
    ensures ReadNot([PRED(p)] + rest, w) == Read(EvalPredicate(p, w), rest)
  {
    hide EvalPredicate;
    assert ([PRED(p)] + rest)[1..] == rest;
  }

  lemma ReadAndThen(ts: seq<Token>, a: Truth, rest: seq<Token>, w: World)
    requires ReadNot(ts, w) == Read(a, rest)
    ensures !Starts(rest, AND) ==> ReadAnd(ts, w) == Read(a, rest)
    ensures Starts(rest, AND) && ReadAnd(rest[1..], w).Read? ==>
              ReadAnd(ts, w) == Read(And3(a, ReadAnd(rest[1..], w).value), ReadAnd(rest[1..], w).rest)
  {
  }

  lemma ReadOrThen(ts: seq<Token>, a: Truth, rest: seq<Token>, w: World)
    requires ReadAnd(ts, w) == Read(a, rest)
    ensures !Starts(rest, OR) ==> ReadOr(ts, w) == Read(a, rest)
    ensures Starts(rest, OR) && ReadOr(rest[1..], w).Read? ==>
              ReadOr(ts, w) == Read(Or3(a, ReadOr(rest[1..], w).value), ReadOr(rest[1..], w).rest)
  {
  }

  /** Reading `p` and `q` joined by AND, or one of them, in front of something else. */
  lemma ReadPair(p: Predicate, q: Predicate, rest: seq<Token>, w: World)
    requires !Starts(rest, AND)
    ensures ReadAnd([PRED(q)] + rest, w) == Read(EvalPredicate(q, w), rest)
    ensures ReadAnd([PRED(p), AND, PRED(q)] + rest, w) == Read(And3(EvalPredicate(p, w), EvalPredicate(q, w)), rest)
  {
    hide EvalPredicate, ReadNot;
    ReadOne(q, rest, w);
    ReadAndThen([PRED(q)] + rest, EvalPredicate(q, w), rest, w);
    var more := [AND, PRED(q)] + rest;
    assert [PRED(p), AND, PRED(q)] + rest == [PRED(p)] + more && more[1..] == [PRED(q)] + rest;
    ReadOne(p, more, w);
    ReadAndThen([PRED(p)] + more, EvalPredicate(p, w), more, w);
  }

  /** NOT before AND before OR. */
  lemma Precedence(p: Predicate, q: Predicate, r: Predicate, w: World)
    ensures var a, b, c := EvalPredicate(p, w), EvalPredicate(q, w), EvalPredicate(r, w);
            && ReadCondition([PRED(p), OR, PRED(q), AND, PRED(r)], w) == Read(Or3(a, And3(b, c)), [])
            && ReadCondition([PRED(p), AND, PRED(q), OR, PRED(r)], w) == Read(Or3(And3(a, b), c), [])
  {
    hide EvalPredicate, ReadNot, ReadAnd;
    var a, b, c := EvalPredicate(p, w), EvalPredicate(q, w), EvalPredicate(r, w);
    ReadPair(q, r, [], w);
    assert [PRED(q), AND, PRED(r)] + [] == [PRED(q), AND, PRED(r)] && [PRED(r)] + [] == [PRED(r)];
    ReadOrThen([PRED(q), AND, PRED(r)], And3(b, c), [], w);
    ReadOrThen([PRED(r)], c, [], w);
    var tail := [OR, PRED(q), AND, PRED(r)];
    ReadPair(p, p, tail, w);
    assert [PRED(p)] + tail == [PRED(p), OR, PRED(q), AND, PRED(r)] && tail[1..] == [PRED(q), AND, PRED(r)];
    ReadOrThen([PRED(p)] + tail, a, tail, w);
    var last := [OR, PRED(r)];
    ReadPair(p, q, last, w);
    assert [PRED(p), AND, PRED(q)] + last == [PRED(p), AND, PRED(q), OR, PRED(r)] && last[1..] == [PRED(r)];
    ReadOrThen([PRED(p), AND, PRED(q)] + last, And3(a, b), last, w);
  }

  /** Parentheses before all, and NOT denies what stands right behind it. */
  lemma ParenthesesFirst(ts: seq<Token>, rest: seq<Token>, p: Predicate, w: World)
    requires ReadOr(ts, w).Read? && Starts(ReadOr(ts, w).rest, RPAREN)
    ensures var r := ReadOr(ts, w);
            && ReadNot([LPAREN] + ts, w) == Read(r.value, r.rest[1..])
            && ReadNot([NOT, LPAREN] + ts, w) == Read(Not3(r.value), r.rest[1..])
    ensures ReadNot([NOT, PRED(p)] + rest, w) == Read(Not3(EvalPredicate(p, w)), rest)
  {
    hide EvalPredicate, ReadOr;
    assert ([LPAREN] + ts)[1..] == ts && ([NOT, LPAREN] + ts)[1..] == [LPAREN] + ts;
    assert ([NOT, PRED(p)] + rest)[1..] == [PRED(p)] + rest;
    ReadOne(p, rest, w);
  }

  /** A comparison with NULL is neither true nor false; only a test for NULL is. */
  lemma NullIsUnknown(c: Column, op: CompareOp, y: Value, w: World)
    ensures w.cell(c) == Null || y == Null ==> EvalPredicate(Compare(c, op, y), w) == Unknown
    ensures EvalPredicate(NullTest(c, false), w) == (if w.cell(c) == Null then True else False)
    ensures EvalPredicate(NullTest(c, true), w) == (if w.cell(c) == Null then False else True)
  {
  }

  /** Two values that are not NULL compare as numbers do. */
  lemma ValuesCompare(c: Column, x: int, y: int, w: World)
    requires w.cell(c) == Val(x)
    ensures EvalPredicate(Compare(c, EQ, Val(y)), w) == (if x == y then True else False)
    ensures EvalPredicate(Compare(c, NE, Val(y)), w) == (if x == y then False else True)
    ensures EvalPredicate(Compare(c, GT, Val(y)), w) == (if x > y then True else False)
    ensures EvalPredicate(Compare(c, GE, Val(y)), w) == (if x >= y then True else False)
    ensures EvalPredicate(Compare(c, LT, Val(y)), w) == (if x < y then True else False)
    ensures EvalPredicate(Compare(c, LE, Val(y)), w) == (if x <= y then True else False)
    ensures EvalPredicate(Match(c, false, Val(y)), w) == (if w.like(x, y) then True else False)
    ensures EvalPredicate(Match(c, true, Val(y)), w) == (if w.like(x, y) then False else True)
  {
  }

  /** IN is true if the value is in the list, Unknown if it is not but NULL is, and else false;
      NOT IN denies that. */
  lemma {:induction false} ListMembers(x: int, list: seq<Value>)
    ensures AnyEqual(Val(x), list) == if Val(x) in list then True else if Null in list then Unknown else False
    ensures AnyEqual(Null, list) == if list == [] then False else Unknown
  {
    if list != [] {
      ListMembers(x, list[1..]);
      assert list == [list[0]] + list[1..];
    }
  }
}
