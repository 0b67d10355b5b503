/** gorm/clause/where.go and the comparison builders of gorm/clause/expression.go:
    the expression tree, the text its Build methods write, what the tree means, and
    the proof that the text read back with SQL precedence means the same. */
module WhereClause {
  import opened Options
  import opened SqlLogic

  datatype Operand = Scalar(v: Value) | Values(vs: seq<Value>)

  /** Comparison expressions. Column names and scalar values are abstract; raw SQL
      fragments are not part of this model. */
  datatype Leaf =
    | Eq(column: Column, x: Operand)
    | Neq(column: Column, x: Operand)
    | Gt(column: Column, v: Value)
    | Gte(column: Column, v: Value)
    | Lt(column: Column, v: Value)
    | Lte(column: Column, v: Value)
    | Like(column: Column, v: Value)
    | IN(column: Column, vs: seq<Value>)

  function BuildLeaf(l: Leaf): Predicate {
    match l
    case Eq(c, Values(vs)) => if vs == [] then Member(c, false, [Null]) else Member(c, false, vs)
    case Eq(c, Scalar(v)) => if v.Null? then NullTest(c, false) else Compare(c, EQ, v)
    case Neq(c, Values(vs)) => Member(c, true, vs)
    case Neq(c, Scalar(v)) => if v.Null? then NullTest(c, true) else Compare(c, NE, v)
    case Gt(c, v) => Compare(c, GT, v)
    case Gte(c, v) => Compare(c, GE, v)
    case Lt(c, v) => Compare(c, LT, v)
    case Lte(c, v) => Compare(c, LE, v)
    case Like(c, v) => Match(c, false, v)
    case IN(c, vs) =>
      if vs == [] then Member(c, false, [Null])
      else if |vs| == 1 then Compare(c, EQ, vs[0])
      else Member(c, false, vs)
  }

  function NegationBuildLeaf(l: Leaf): Predicate {
    match l
    case Eq(c, x) => BuildLeaf(Neq(c, x))
    case Neq(c, x) => BuildLeaf(Eq(c, x))
    case Gt(c, v) => BuildLeaf(Lte(c, v))
    case Gte(c, v) => BuildLeaf(Lt(c, v))
    case Lt(c, v) => BuildLeaf(Gte(c, v))
    case Lte(c, v) => BuildLeaf(Gt(c, v))
    case Like(c, v) => Match(c, true, v)
    case IN(c, vs) =>
      if vs == [] then NullTest(c, true)
      else if |vs| == 1 then Compare(c, NE, vs[0])
      else Member(c, true, vs)
  }

  predicate EmptyList(l: Leaf) {
    match l
    case Eq(_, x) => x.Values? && x.vs == []
    case Neq(_, x) => x.Values? && x.vs == []
    case IN(_, vs) => vs == []
    case _ => false
  }

  /** What a comparison asks of a row, stated without its text. A nil operand of
      Eq and Neq asks for NULL itself; an empty list of Eq and IN matches nothing
      (and is Unknown, like a list holding only NULL). */
  function LeafMeaning(l: Leaf, w: World): Truth {
    var x := w.cell(l.column);
    match l
    case Eq(_, Scalar(Null)) => Definite(x.Null?)
    case Neq(_, Scalar(Null)) => Definite(!x.Null?)
    case Eq(_, Scalar(v)) => CompareValues(EQ, x, v)
    case Neq(_, Scalar(v)) => Not3(CompareValues(EQ, x, v))
    case Eq(_, Values(vs)) => if vs == [] then Unknown else AnyEqual(x, vs)
    case Neq(_, Values(vs)) => Not3(AnyEqual(x, vs))
    case Gt(_, v) => Not3(CompareValues(LE, x, v))
    case Gte(_, v) => Not3(CompareValues(LT, x, v))
    case Lt(_, v) => CompareValues(LT, x, v)
    case Lte(_, v) => CompareValues(LE, x, v)
    case Like(_, v) => if x.Null? || v.Null? then Unknown else Definite(w.like(x.v, v.v))
    case IN(_, vs) => if vs == [] then Unknown else AnyEqual(x, vs)
  }

  lemma LeafTextIsExact(l: Leaf, w: World)
    ensures EvalPredicate(BuildLeaf(l), w) == LeafMeaning(l, w)
  {
    var x := w.cell(l.column);
    if l.IN? && |l.vs| == 1 {
      assert AnyEqual(x, l.vs) == Or3(CompareValues(EQ, x, l.vs[0]), AnyEqual(x, []));
    }
    if (l.Eq? || l.IN?) && EmptyList(l) {
      assert AnyEqual(x, [Null]) == Or3(CompareValues(EQ, x, Null), AnyEqual(x, []));
    }
  }

  /** NegationBuild writes the exact complement, on every row, if and only if the
      comparison has no empty value list: IN () is Unknown but its negation is
      IS NOT NULL, and NOT IN () is true of everything. */
  lemma NegationIsComplementIffNonEmpty(l: Leaf)
    ensures (forall w :: EvalPredicate(NegationBuildLeaf(l), w) == Not3(LeafMeaning(l, w))) <==> !EmptyList(l)
  {
    if EmptyList(l) {
      var w := World(c => Val(0), (x, y) => true);
      LeafTextIsExact(l, w);
      assert AnyEqual(Val(0), [Null]) == Or3(CompareValues(EQ, Val(0), Null), AnyEqual(Val(0), []));
      assert EvalPredicate(NegationBuildLeaf(l), w) != Not3(LeafMeaning(l, w));
    } else {
      forall w ensures EvalPredicate(NegationBuildLeaf(l), w) == Not3(LeafMeaning(l, w)) {
        NegatedLeaf(l, w);
      }
    }
  }

  lemma NegatedLeaf(l: Leaf, w: World)
    requires !EmptyList(l)
    ensures EvalPredicate(NegationBuildLeaf(l), w) == Not3(LeafMeaning(l, w))
  {
    var x := w.cell(l.column);
    if l.IN? && |l.vs| == 1 {
      assert AnyEqual(x, l.vs) == Or3(CompareValues(EQ, x, l.vs[0]), AnyEqual(x, []));
    }
  }

  // ---------------------------------------------------------------- the tree

  datatype Cond =
    | Comparison(leaf: Leaf)
    | AndConditions(exprs: seq<Cond>)
    | OrConditions(exprs: seq<Cond>)
    | NotConditions(exprs: seq<Cond>)

  /** An Or group of one member: inside a list it opens a new OR-alternative. */
  predicate LoneOr(e: Cond) { e.OrConditions? && |e.exprs| == 1 }

  predicate HasComparison(es: seq<Cond>) { exists i :: 0 <= i < |es| && es[i].Comparison? }

  /** The four ways a list of members is written. */
  datatype ListKind = Conjoined | Disjoined | EachNegated | UnderNot

  function KindOf(e: Cond): ListKind
    requires !e.Comparison?
  {
    match e
    case AndConditions(_) => Conjoined
    case OrConditions(_) => Disjoined
    case NotConditions(es) => if HasComparison(es) then EachNegated else UnderNot
  }

  /** Whether the separator in front of member `e` (not the first) is OR. */
  predicate OrBefore(kind: ListKind, e: Cond) {
    match kind
    case Conjoined => LoneOr(e)
    case Disjoined => true
    case EachNegated => false
    case UnderNot => e.OrConditions?
  }

  function Separator(kind: ListKind, e: Cond): Token {
    if OrBefore(kind, e) then OR else AND
  }

  /** Groups are non-empty all the way down, and no comparison that is negated
      directly has an empty value list. */
  predicate WellFormed(e: Cond) {
    match e
    case Comparison(_) => true
    case AndConditions(es) => es != [] && forall i :: 0 <= i < |es| ==> WellFormed(es[i])
    case OrConditions(es) => es != [] && forall i :: 0 <= i < |es| ==> WellFormed(es[i])
    case NotConditions(es) =>
      es != [] && forall i :: 0 <= i < |es| ==>
        WellFormed(es[i]) && (es[i].Comparison? ==> !EmptyList(es[i].leaf))
  }

  predicate WellFormedList(es: seq<Cond>) { forall i :: 0 <= i < |es| ==> WellFormed(es[i]) }

  // ---------------------------------------------------------------- the text

  function Text(e: Cond): seq<Token>
    decreases e, 1
  {
    match e
    case Comparison(l) => [PRED(BuildLeaf(l))]
    case _ =>
      var kind := KindOf(e);
      var body := ListText(kind, e.exprs, true);
      var grouped := if |e.exprs| > 1 then [LPAREN] + body + [RPAREN] else body;
      if kind.UnderNot? then [NOT] + grouped else grouped
  }

  function ItemText(kind: ListKind, e: Cond): seq<Token>
    decreases e, 2
  {
    if !kind.EachNegated? then Text(e)
    else if e.Comparison? then [PRED(NegationBuildLeaf(e.leaf))]
    else [NOT] + Text(e)
  }

  function ListText(kind: ListKind, es: seq<Cond>, first: bool): seq<Token>
    decreases es, 0
  {
    if es == [] then []
    else
      (if first then [] else [Separator(kind, es[0])]) + ItemText(kind, es[0]) + ListText(kind, es[1..], false)
  }

  // ---------------------------------------------------------------- the meaning

  /** A member's value, and whether it opens a new alternative. */
  datatype Item = Item(opens: bool, value: Truth)

  /** The conjunction of the members up to the next one that opens an alternative. */
  function FirstAlternative(items: seq<Item>): Truth
    requires items != []
  {
    And3(items[0].value, if |items| == 1 || items[1].opens then True else FirstAlternative(items[1..]))
  }

  function AlternativeLength(items: seq<Item>): (n: nat)
    requires items != []
    ensures 0 < n <= |items|
  {
    if |items| == 1 || items[1].opens then 1 else 1 + AlternativeLength(items[1..])
  }

  /** Some alternative holds. */
  function AnyAlternative(items: seq<Item>): Truth {
    if items == [] then False
    else Or3(FirstAlternative(items), AnyAlternative(items[AlternativeLength(items)..]))
  }

  function AllOf(ts: seq<Truth>): Truth { if ts == [] then True else And3(ts[0], AllOf(ts[1..])) }

  function AnyOf(ts: seq<Truth>): Truth { if ts == [] then False else Or3(ts[0], AnyOf(ts[1..])) }

  /** The meaning of a tree. An And group is read as alternatives opened by its lone
      Ors; an Or group as a disjunction. A Not group with a comparison among its
      members denies each member; otherwise it denies the list, where every Or group
      opens an alternative. */
  function Meaning(e: Cond, w: World): Truth {
    match e
    case Comparison(l) => LeafMeaning(l, w)
    case AndConditions(es) =>
      AnyAlternative(seq(|es|, i requires 0 <= i < |es| => Item(LoneOr(es[i]), Meaning(es[i], w))))
    case OrConditions(es) =>
      AnyOf(seq(|es|, i requires 0 <= i < |es| => Meaning(es[i], w)))
    case NotConditions(es) =>
      if HasComparison(es) then
        AllOf(seq(|es|, i requires 0 <= i < |es| => Not3(Meaning(es[i], w))))
      else
        Not3(AnyAlternative(seq(|es|, i requires 0 <= i < |es| => Item(es[i].OrConditions?, Meaning(es[i], w)))))
  }

  function Items(kind: ListKind, es: seq<Cond>, w: World): (r: seq<Item>)
    ensures |r| == |es|
  {
    seq(|es|, i requires 0 <= i < |es| =>
      Item(OrBefore(kind, es[i]), if kind.EachNegated? then Not3(Meaning(es[i], w)) else Meaning(es[i], w)))
  }

  /** A list of top-level members means: some alternative holds. */
  function ListMeaning(es: seq<Cond>, w: World): Truth {
    AnyAlternative(Items(Conjoined, es, w))
  }

  lemma {:induction false} AllJoinedByAnd(items: seq<Item>, ts: seq<Truth>)
    requires |items| == |ts| > 0
    requires forall i :: 0 <= i < |items| ==> items[i].value == ts[i]
    requires forall i :: 0 < i < |items| ==> !items[i].opens
    ensures AlternativeLength(items) == |items|
    ensures FirstAlternative(items) == AllOf(ts)
    ensures AnyAlternative(items) == AllOf(ts)
  {
    if |items| > 1 {
      AllJoinedByAnd(items[1..], ts[1..]);
    } else {
      assert AllOf(ts[1..]) == True;
    }
    assert items[|items|..] == [];
  }

  lemma {:induction false} AllJoinedByOr(items: seq<Item>, ts: seq<Truth>)
    requires |items| == |ts|
    requires forall i :: 0 <= i < |items| ==> items[i].value == ts[i] && items[i].opens
    ensures AnyAlternative(items) == AnyOf(ts)
  {
    if items != [] {
      AllJoinedByOr(items[1..], ts[1..]);
    }
  }

  /** The meaning of a group is the alternative reading of its list, under Not for
      a Not group without comparisons. */
  lemma GroupMeaning(e: Cond, w: World)
    requires WellFormed(e) && !e.Comparison?
    ensures var list := AnyAlternative(Items(KindOf(e), e.exprs, w));
            Meaning(e, w) == if KindOf(e).UnderNot? then Not3(list) else list
  {
    var es, kind := e.exprs, KindOf(e);
    var items := Items(kind, es, w);
    match e
    case AndConditions(_) =>
      assert items == seq(|es|, i requires 0 <= i < |es| => Item(LoneOr(es[i]), Meaning(es[i], w)));
    case OrConditions(_) =>
      AllJoinedByOr(items, seq(|es|, i requires 0 <= i < |es| => Meaning(es[i], w)));
    case NotConditions(_) =>
      if HasComparison(es) {
        AllJoinedByAnd(items, seq(|es|, i requires 0 <= i < |es| => Not3(Meaning(es[i], w))));
      } else {
        assert items == seq(|es|, i requires 0 <= i < |es| => Item(es[i].OrConditions?, Meaning(es[i], w)));
      }
  }

  // ---------------------------------------------------------------- text means tree

  predicate Closed(rest: seq<Token>) { !Starts(rest, AND) && !Starts(rest, OR) }

  lemma ReadConjunct(item: seq<Token>, next: seq<Token>, a: Truth, b: Truth, rest: seq<Token>, w: World)
    requires ReadNot(item + ([AND] + next), w) == Read(a, [AND] + next)
    requires ReadAnd(next, w) == Read(b, rest)
    ensures ReadAnd(item + ([AND] + next), w) == Read(And3(a, b), rest)
  {
    assert ([AND] + next)[1..] == next;
  }

  lemma ReadLastConjunct(ts: seq<Token>, a: Truth, rest: seq<Token>, w: World)
    requires ReadNot(ts, w) == Read(a, rest) && !Starts(rest, AND)
    ensures ReadAnd(ts, w) == Read(And3(a, True), rest)
  {
  }

  lemma ReadDisjunct(ts: seq<Token>, next: seq<Token>, a: Truth, b: Truth, rest: seq<Token>, w: World)
    requires ReadAnd(ts, w) == Read(a, [OR] + next)
    requires ReadOr(next, w) == Read(b, rest)
    ensures ReadOr(ts, w) == Read(Or3(a, b), rest)
  {
    assert ([OR] + next)[1..] == next;
  }

  lemma ReadLastDisjunct(ts: seq<Token>, a: Truth, rest: seq<Token>, w: World)
    requires ReadAnd(ts, w) == Read(a, rest) && !Starts(rest, OR)
    ensures ReadOr(ts, w) == Read(Or3(a, False), rest)
  {
  }

  lemma ReadGroup(body: seq<Token>, rest: seq<Token>, a: Truth, w: World)
    requires ReadOr(body + ([RPAREN] + rest), w) == Read(a, [RPAREN] + rest)
    ensures ReadNot([LPAREN] + body + [RPAREN] + rest, w) == Read(a, rest)
  {
    assert ([LPAREN] + body + [RPAREN] + rest)[1..] == body + ([RPAREN] + rest);
    assert ([RPAREN] + rest)[1..] == rest;
  }

  lemma ReadNegation(ts: seq<Token>, rest: seq<Token>, a: Truth, w: World)
    requires ReadNot(ts + rest, w) == Read(a, rest)
    ensures ReadNot([NOT] + ts + rest, w) == Read(Not3(a), rest)
  {
    assert ([NOT] + ts + rest)[1..] == ts + rest;
  }

  /** A member of any tree is read back as one NOT-level factor with its meaning. */
  lemma {:induction false} ReadMember(e: Cond, rest: seq<Token>, w: World)
    requires WellFormed(e)
    ensures ReadNot(Text(e) + rest, w) == Read(Meaning(e, w), rest)
    decreases e, 5
  {
    if e.Comparison? {
      LeafTextIsExact(e.leaf, w);
      assert (Text(e) + rest)[1..] == rest;
    } else {
      var kind := KindOf(e);
      var body := ListText(kind, e.exprs, true);
      var grouped := if |e.exprs| > 1 then [LPAREN] + body + [RPAREN] else body;
      ReadGrouped(kind, e.exprs, rest, w);
      GroupMeaning(e, w);
      if kind.UnderNot? {
        ReadNegation(grouped, rest, AnyAlternative(Items(kind, e.exprs, w)), w);
      }
    }
  }

  /** A list in parentheses, or its only member. */
  lemma {:induction false} ReadGrouped(kind: ListKind, es: seq<Cond>, rest: seq<Token>, w: World)
    requires es != [] && Readable(kind, es)
    ensures var body := ListText(kind, es, true);
            var grouped := if |es| > 1 then [LPAREN] + body + [RPAREN] else body;
            ReadNot(grouped + rest, w) == Read(AnyAlternative(Items(kind, es, w)), rest)
    decreases es, 4
  {
    var items := Items(kind, es, w);
    if |es| > 1 {
      ReadList(kind, es, [RPAREN] + rest, w);
      ReadGroup(ListText(kind, es, true), rest, AnyAlternative(items), w);
    } else {
      OneMember(kind, es);
      ReadItem(kind, es[0], rest, w);
      assert es == [es[0]];
      OneAlternative(items);
    }
  }

  lemma OneMember(kind: ListKind, es: seq<Cond>)
    requires |es| == 1
    ensures ListText(kind, es, true) == ItemText(kind, es[0])
  {
    assert ListText(kind, es[1..], false) == [];
  }

  lemma OneAlternative(items: seq<Item>)
    requires |items| == 1
    ensures AnyAlternative(items) == FirstAlternative(items) == items[0].value
  {
    assert AnyAlternative(items[1..]) == False;
  }

  lemma {:induction false} ReadItem(kind: ListKind, e: Cond, rest: seq<Token>, w: World)
    requires Readable(kind, [e])
    ensures ReadNot(ItemText(kind, e) + rest, w) == Read(Items(kind, [e], w)[0].value, rest)
    decreases e, 6
  {
    assert [e][0] == e;
    if kind.EachNegated? && e.Comparison? {
      NegatedLeaf(e.leaf, w);
      assert (ItemText(kind, e) + rest)[1..] == rest;
    } else {
      ReadMember(e, rest, w);
      if kind.EachNegated? {
        ReadNegation(Text(e), rest, Meaning(e, w), w);
      }
    }
  }

  predicate Readable(kind: ListKind, es: seq<Cond>) {
    forall i :: 0 <= i < |es| ==>
      WellFormed(es[i]) && (kind.EachNegated? && es[i].Comparison? ==> !EmptyList(es[i].leaf))
  }

  lemma SplitMember(kind: ListKind, es: seq<Cond>, rest: seq<Token>, w: World)
    requires es != []
    ensures ListText(kind, es, true) + rest == ItemText(kind, es[0]) + (ListText(kind, es[1..], false) + rest)
    ensures Items(kind, [es[0]], w)[0] == Items(kind, es, w)[0]
    ensures Items(kind, es[1..], w) == Items(kind, es, w)[1..]
  {
  }

  lemma SplitSeparator(kind: ListKind, es: seq<Cond>, rest: seq<Token>)
    requires es != []
    ensures ListText(kind, es, false) + rest == [Separator(kind, es[0])] + (ListText(kind, es, true) + rest)
  {
  }

  /** Reading one AND-chain consumes exactly the first alternative. */
  lemma {:induction false} ReadAlternative(kind: ListKind, es: seq<Cond>, rest: seq<Token>, w: World)
    requires es != [] && Readable(kind, es) && Closed(rest)
    ensures var items := Items(kind, es, w);
            ReadAnd(ListText(kind, es, true) + rest, w)
              == Read(FirstAlternative(items), ListText(kind, es[AlternativeLength(items)..], false) + rest)
    decreases es, 0
  {
    var items := Items(kind, es, w);
    var item, more := ItemText(kind, es[0]), ListText(kind, es[1..], false) + rest;
    SplitMember(kind, es, rest, w);
    ReadItem(kind, es[0], more, w);
    if |es| == 1 {
      assert more == rest;
      ReadLastConjunct(item + more, items[0].value, more, w);
    } else if items[1].opens {
      SplitSeparator(kind, es[1..], rest);
      ReadLastConjunct(item + more, items[0].value, more, w);
    } else {
      var tail := es[1..];
      SplitSeparator(kind, tail, rest);
      ReadAlternative(kind, tail, rest, w);
      var n := AlternativeLength(items[1..]);
      assert tail[n..] == es[n + 1..];
      ReadConjunct(item, ListText(kind, tail, true) + rest, items[0].value, FirstAlternative(items[1..]),
                   ListText(kind, tail[n..], false) + rest, w);
    }
  }

  lemma {:induction false} ReadList(kind: ListKind, es: seq<Cond>, rest: seq<Token>, w: World)
    requires es != [] && Readable(kind, es) && Closed(rest)
    ensures ReadOr(ListText(kind, es, true) + rest, w) == Read(AnyAlternative(Items(kind, es, w)), rest)
    decreases es, 1
  {
    var items := Items(kind, es, w);
    var n := AlternativeLength(items);
    ReadAlternative(kind, es, rest, w);
    var tail := es[n..];
    assert Items(kind, tail, w) == items[n..];
    if tail != [] {
      OpensAfterAlternative(items);
      SplitSeparator(kind, tail, rest);
      ReadList(kind, tail, rest, w);
      ReadDisjunct(ListText(kind, es, true) + rest, ListText(kind, tail, true) + rest,
                   FirstAlternative(items), AnyAlternative(items[n..]), rest, w);
    } else {
      assert ListText(kind, tail, false) + rest == rest;
      ReadLastDisjunct(ListText(kind, es, true) + rest, FirstAlternative(items), rest, w);
    }
  }

  lemma {:induction false} OpensAfterAlternative(items: seq<Item>)
    requires items != []
    ensures var n := AlternativeLength(items); n < |items| ==> items[n].opens
  {
    if |items| > 1 && !items[1].opens {
      OpensAfterAlternative(items[1..]);
    }
  }

  // ---------------------------------------------------------------- the clause

  /** The test of Where.Build for a member that may not stand first. */
  predicate OpensWithOr(e: Cond) { e.OrConditions? && |e.exprs| <= 1 }

  function FirstPlain(es: seq<Cond>): (n: nat)
    ensures n <= |es|
    ensures forall i :: 0 <= i < n ==> OpensWithOr(es[i])
    ensures n < |es| ==> !OpensWithOr(es[n])
  {
    if es == [] || !OpensWithOr(es[0]) then 0 else 1 + FirstPlain(es[1..])
  }

  /** A list whose first member is a lone Or although a later member is not. */
  predicate NeedsSwap(es: seq<Cond>) { 0 < FirstPlain(es) < |es| }

  function Reordered(es: seq<Cond>): seq<Cond> {
    if NeedsSwap(es) then var n := FirstPlain(es); es[0 := es[n]][n := es[0]] else es
  }

  /** A sole And group stands for its members. */
  function Unwrapped(es: seq<Cond>): seq<Cond> {
    if |es| == 1 && es[0].AndConditions? then es[0].exprs else es
  }

  /** The members as writing leaves them: whoever holds the clause sees them in this order, those
      of a sole And group included, for its list is shared. */
  function Built(es: seq<Cond>): seq<Cond> {
    if |es| == 1 && es[0].AndConditions? then [AndConditions(Reordered(es[0].exprs))] else Reordered(es)
  }

  function WhereText(es: seq<Cond>): seq<Token> {
    ListText(Conjoined, Reordered(Unwrapped(es)), true)
  }

  /** The condition a Where clause stands for: the alternatives of its members, once
      the first member that is not a lone Or has changed places with the first. */
  function WhereMeaning(es: seq<Cond>, w: World): Truth {
    ListMeaning(Reordered(Unwrapped(es)), w)
  }

  lemma ReorderedIsPermutation(es: seq<Cond>)
    ensures multiset(Reordered(es)) == multiset(es)
    ensures Reordered(es) != [] && OpensWithOr(Reordered(es)[0]) ==> forall e <- es :: OpensWithOr(e)
    ensures Reordered(Reordered(es)) == Reordered(es)
  {
    var n := FirstPlain(es);
    if NeedsSwap(es) {
      SwapKeepsMembers(es, n);
    }
  }

  /** Writing a clause again finds it as it is and writes the same. */
  lemma BuiltKeepsText(es: seq<Cond>)
    ensures Unwrapped(Built(es)) == Reordered(Unwrapped(es))
    ensures Built(Built(es)) == Built(es) && WhereText(Built(es)) == WhereText(es)
    ensures !NeedsSwap(Unwrapped(Built(es)))
  {
    ReorderedIsPermutation(es);
    ReorderedIsPermutation(Unwrapped(es));
    NoSecondSwap(Unwrapped(es));
  }

  lemma NoSecondSwap(es: seq<Cond>)
    ensures !NeedsSwap(Reordered(es))
  {
    if NeedsSwap(es) {
      assert !OpensWithOr(Reordered(es)[0]);
    }
  }

  /** It keeps members well-formed, and lone Ors among them. */
  lemma BuiltKeepsMembers(es: seq<Cond>)
    ensures WellFormedList(es) ==> WellFormedList(Built(es))
    ensures HasLoneOr(Built(es)) <==> HasLoneOr(es)
    ensures Built(es) == [] <==> es == []
  {
    if |es| == 1 && es[0].AndConditions? {
      var ms := es[0].exprs;
      if WellFormedList(es) {
        assert WellFormed(es[0]);
        ReorderedWellFormed(ms);
        assert WellFormed(AndConditions(Reordered(ms)));
      }
    } else {
      var n := FirstPlain(es);
      if NeedsSwap(es) {
        assert Reordered(es)[n] == es[0] && Reordered(es)[0] == es[n];
      }
      if i :| 0 <= i < |es| && LoneOr(es[i]) {
        assert Reordered(es)[if !NeedsSwap(es) then i else if i == 0 then n else if i == n then 0 else i] == es[i];
      }
    }
  }

  lemma SwapKeepsMembers(es: seq<Cond>, n: nat)
    requires 0 < n < |es|
    ensures multiset(es[0 := es[n]][n := es[0]]) == multiset(es)
  {
    assert es == [es[0]] + es[1..n] + [es[n]] + es[n + 1..];
    assert es[0 := es[n]][n := es[0]] == [es[n]] + es[1..n] + [es[0]] + es[n + 1..];
  }

  /** The main theorem: the text of a Where clause over any nesting of non-empty
      groups, read back with SQL precedence, is complete and has on every row the
      three-valued truth of the tree. */
  lemma WhereTextMeansTree(es: seq<Cond>, w: World)
    requires es != [] && WellFormedList(es)
    ensures ReadCondition(WhereText(es), w) == Read(WhereMeaning(es, w), [])
  {
    var list := Reordered(Unwrapped(es));
    UnwrappedWellFormed(es);
    ReorderedWellFormed(Unwrapped(es));
    ReadList(Conjoined, list, [], w);
    assert ListText(Conjoined, list, true) + [] == ListText(Conjoined, list, true);
  }

  lemma UnwrappedWellFormed(es: seq<Cond>)
    requires WellFormedList(es)
    ensures WellFormedList(Unwrapped(es))
  {
    if |es| == 1 {
      assert WellFormed(es[0]);
    }
  }

  lemma ReorderedWellFormed(es: seq<Cond>)
    requires WellFormedList(es)
    ensures |Reordered(es)| == |es| && WellFormedList(Reordered(es))
  {
  }

  lemma {:induction false} FalseAlternatives(items: seq<Item>)
    requires items != []
    requires items[0].value == False
    requires forall i :: 0 < i < |items| && items[i].opens ==> items[i].value == False
    ensures AnyAlternative(items) == False
    decreases |items|
  {
    var n := AlternativeLength(items);
    if n < |items| {
      OpensAfterAlternative(items);
      FalseAlternatives(items[n..]);
    }
  }

  /** The member swapped to the front is an alternative of its own; left in place it is
      only a conjunct of alternatives that a lone Or opens. */
  lemma SwappedInFirst(list: seq<Cond>, w: World)
    requires WellFormedList(list) && NeedsSwap(list)
    requires Meaning(list[FirstPlain(list)], w) == True
    requires forall i :: 0 <= i < |list| && LoneOr(list[i]) ==> Meaning(list[i], w) == False
    ensures HasLoneOr(list)
    ensures ListMeaning(list, w) == False
    ensures ListMeaning(Reordered(list), w) == True
  {
    var n := FirstPlain(list);
    assert WellFormed(list[0]) && LoneOr(list[0]);
    FalseAlternatives(Items(Conjoined, list, w));
    var swapped := Reordered(list);
    assert LoneOr(swapped[1]) by {
      if n != 1 { assert OpensWithOr(list[1]) && WellFormed(list[1]); }
    }
    var items := Items(Conjoined, swapped, w);
    assert items[1].opens && items[0].value == True;
  }

  /** Swapping is not silent: with a leading lone Or the clause reads differently from
      its list, as in [Or(a), c], which is written "c OR a" and not "a AND c". */
  lemma SwapChangesMeaning(a: Cond, c: Cond, w: World)
    requires !LoneOr(c) && !OpensWithOr(c)
    ensures var es := [OrConditions([a]), c];
            && WhereMeaning(es, w) == Or3(Meaning(c, w), Meaning(a, w))
            && ListMeaning(es, w) == And3(Meaning(a, w), Meaning(c, w))
  {
    var or := OrConditions([a]);
    OrOfOne(a, w);
    assert FirstPlain([or, c]) == 1;
    assert Reordered([or, c]) == [c, or];
    TwoAlternatives(Items(Conjoined, [c, or], w));
    OneAlternativeOfTwo(Items(Conjoined, [or, c], w));
  }

  lemma OneAlternativeOfTwo(items: seq<Item>)
    requires |items| == 2 && !items[1].opens
    ensures AnyAlternative(items) == And3(items[0].value, items[1].value)
  {
    assert FirstAlternative(items[1..]) == items[1].value;
    assert items[2..] == [];
  }

  lemma TwoAlternatives(items: seq<Item>)
    requires |items| == 2 && items[1].opens
    ensures AnyAlternative(items) == Or3(items[0].value, items[1].value)
  {
    OneAlternative(items[1..]);
  }

  lemma OrOfOne(a: Cond, w: World)
    ensures Meaning(OrConditions([a]), w) == Meaning(a, w)
  {
    var es := OrConditions([a]).exprs;
    var ts := seq(|es|, i requires 0 <= i < |es| => Meaning(es[i], w));
    assert ts == [Meaning(a, w)];
    assert AnyOf(ts) == Or3(ts[0], AnyOf(ts[1..]));
  }

  // ---------------------------------------------------------------- constructors

  function And(es: seq<Cond>): Option<Cond> {
    if es == [] then None
    else if |es| == 1 && !es[0].OrConditions? then Some(es[0])
    else Some(AndConditions(es))
  }

  function Or(es: seq<Cond>): Option<Cond> {
    if es == [] then None else Some(OrConditions(es))
  }

  function Not(es: seq<Cond>): Option<Cond> {
    if es == [] then None else Some(NotConditions(Unwrapped(es)))
  }

  /** And of one member that is not an Or is the member itself, with nothing lost. */
  lemma AndMeansItsList(es: seq<Cond>, w: World)
    requires es != []
    ensures Meaning(And(es).value, w) == ListMeaning(es, w)
  {
    var items := Items(Conjoined, es, w);
    if |es| == 1 && !es[0].OrConditions? {
      OneAlternative(items);
    } else {
      assert items == seq(|es|, i requires 0 <= i < |es| => Item(LoneOr(es[i]), Meaning(es[i], w)));
    }
  }

  function Meanings(es: seq<Cond>, w: World): seq<Truth> {
    seq(|es|, i requires 0 <= i < |es| => Meaning(es[i], w))
  }

  lemma {:induction false} DeMorgan(ts: seq<Truth>, negated: seq<Truth>)
    requires |ts| == |negated| && forall i :: 0 <= i < |ts| ==> negated[i] == Not3(ts[i])
    ensures AllOf(negated) == Not3(AnyOf(ts))
  {
    if ts != [] {
      DeMorgan(ts[1..], negated[1..]);
    }
  }

  /** Not of one member is its exact complement. Not of a list that holds a comparison
      denies every member: it is the complement of their disjunction, so it is not the
      complement of the And group it may have been built from. */
  lemma NotOfComparisonsIsNor(es: seq<Cond>, w: World)
    requires es != [] && HasComparison(Unwrapped(es))
    ensures Meaning(Not(es).value, w) == Not3(AnyOf(Meanings(Unwrapped(es), w)))
    ensures |Unwrapped(es)| == 1 ==> Meaning(Not(es).value, w) == Not3(Meaning(Unwrapped(es)[0], w))
  {
    var ms := Unwrapped(es);
    var denied := seq(|ms|, i requires 0 <= i < |ms| => Not3(Meaning(ms[i], w)));
    DeMorgan(Meanings(ms, w), denied);
    assert Meaning(NotConditions(ms), w) == AllOf(denied);
    if |ms| == 1 {
      assert Meanings(ms, w)[1..] == [];
      assert AnyOf(Meanings(ms, w)) == Or3(Meaning(ms[0], w), AnyOf([]));
    }
  }

  /** MergeClause puts new members behind those already there. A member that does not open an
      alternative is then a conjunct of the last one only; with no lone Or, of the whole. */
  lemma MergedConjunct(es: seq<Cond>, e: Cond, w: World)
    requires forall m <- es :: !LoneOr(m)
    requires !LoneOr(e)
    ensures ListMeaning(es + [e], w) == if es == [] then Meaning(e, w) else And3(ListMeaning(es, w), Meaning(e, w))
  {
    var all := es + [e];
    AllJoinedByAnd(Items(Conjoined, all, w), Meanings(all, w));
    AllOfAppend(Meanings(es, w), Meaning(e, w));
    assert Meanings(all, w) == Meanings(es, w) + [Meaning(e, w)];
    if es != [] {
      AllJoinedByAnd(Items(Conjoined, es, w), Meanings(es, w));
    }
  }

  lemma {:induction false} AllOfAppend(ts: seq<Truth>, t: Truth)
    ensures AllOf(ts + [t]) == And3(AllOf(ts), t)
  {
    if ts == [] {
      assert [t][1..] == [];
      assert AllOf([t]) == And3(t, AllOf([]));
    } else {
      assert (ts + [t])[1..] == ts[1..] + [t];
      AllOfAppend(ts[1..], t);
    }
  }

  predicate HasLoneOr(es: seq<Cond>) { exists i :: 0 <= i < |es| && LoneOr(es[i]) }

  lemma NoSwapKeepsOrder(es: seq<Cond>)
    requires es != [] && !OpensWithOr(es[0])
    ensures Reordered(es) == es
  {
  }

  lemma TwoConjuncts(a: Cond, e: Cond, w: World)
    requires e.Comparison? && !OpensWithOr(a)
    ensures WhereMeaning([a, e], w) == And3(Meaning(a, w), Meaning(e, w))
  {
    NoSwapKeepsOrder([a, e]);
    OneAlternativeOfTwo(Items(Conjoined, [a, e], w));
  }

  /** A clause of one member that is no Or group means that member. */
  lemma GroupAlone(es: seq<Cond>, w: World)
    requires |es| == 1 && WellFormed(es[0]) && !LoneOr(es[0])
    requires !NeedsSwap(Unwrapped(es))
    ensures WhereMeaning(es, w) == Meaning(es[0], w)
  {
    if es[0].AndConditions? {
      GroupMeaning(es[0], w);
    } else {
      OneAlternative(Items(Conjoined, es, w));
    }
  }

  /** Merging a comparison into a clause without lone Ors conjoins it with the clause. */
  lemma PlainMeaning(es: seq<Cond>, e: Cond, w: World)
    requires es != [] && WellFormedList(es) && !HasLoneOr(es) && e.Comparison?
    requires !NeedsSwap(Unwrapped(es))
    ensures WhereMeaning(es + [e], w) == And3(WhereMeaning(es, w), Meaning(e, w))
  {
    if |es| == 1 {
      GroupAlone(es, w);
      assert es + [e] == [es[0], e];
      TwoConjuncts(es[0], e, w);
    } else {
      assert WellFormed(es[0]) && !LoneOr(es[0]);
      NoSwapKeepsOrder(es);
      NoSwapKeepsOrder(es + [e]);
      assert forall m <- es :: !LoneOr(m);
      MergedConjunct(es, e, w);
    }
  }

  // ---------------------------------------------------------------- the builders

  class Builder {
    var out: seq<Token>

    constructor ()
      ensures out == []
    {
      out := [];
    }

    method Write(t: Token)
      modifies this
      ensures out == old(out) + [t]
    {
      out := out + [t];
    }
  }

  method BuildExprs(exprs: seq<Cond>, b: Builder, join: Token)
    requires join == AND || join == OR
    modifies b
    ensures b.out == old(b.out) + ListText(if join == OR then Disjoined else Conjoined, exprs, true)
    decreases exprs, 0
  {
    ghost var kind := if join == OR then Disjoined else Conjoined;
    ghost var whole := old(b.out) + ListText(kind, exprs, true);
    assert exprs[0..] == exprs;
    for idx := 0 to |exprs|
      invariant b.out + ListText(kind, exprs[idx..], idx == 0) == whole
    {
      var e := exprs[idx];
      ghost var before := b.out;
      if idx > 0 {
        b.Write(if e.OrConditions? && |e.exprs| == 1 then OR else join);
      }
      Build(e, b);
      NextMember(kind, exprs, idx, before, b.out);
    }
  }

  method BuildGroup(exprs: seq<Cond>, b: Builder, join: Token)
    requires join == AND || join == OR
    modifies b
    ensures b.out == old(b.out) + Text(if join == OR then OrConditions(exprs) else AndConditions(exprs))
    decreases exprs, 1
  {
    if |exprs| > 1 {
      b.Write(LPAREN);
      BuildExprs(exprs, b, join);
      b.Write(RPAREN);
    } else {
      BuildExprs(exprs, b, join);
    }
  }

  method Build(e: Cond, b: Builder)
    modifies b
    ensures b.out == old(b.out) + Text(e)
    decreases e, 0
  {
    match e
    case Comparison(l) => b.Write(PRED(BuildLeaf(l)));
    case AndConditions(es) => BuildGroup(es, b, AND);
    case OrConditions(es) => BuildGroup(es, b, OR);
    case NotConditions(es) => BuildNot(es, b);
  }

  /** NotConditions.Build: with a comparison among the members, each is denied. */
  method BuildNot(exprs: seq<Cond>, b: Builder)
    modifies b
    ensures b.out == old(b.out) + Text(NotConditions(exprs))
    decreases exprs, 2
  {
    var anyNegationBuilder := false;
    for i := 0 to |exprs|
      invariant !anyNegationBuilder && forall j :: 0 <= j < i ==> !exprs[j].Comparison?
    {
      if exprs[i].Comparison? {
        anyNegationBuilder := true;
        break;
      }
    }
    if !anyNegationBuilder {
      b.Write(NOT);
    }
    if |exprs| > 1 {
      b.Write(LPAREN);
    }
    BuildNotMembers(exprs, b, anyNegationBuilder);
    if |exprs| > 1 {
      b.Write(RPAREN);
    }
  }

  method BuildNotMembers(exprs: seq<Cond>, b: Builder, anyNegationBuilder: bool)
    modifies b
    ensures b.out == old(b.out) + ListText(if anyNegationBuilder then EachNegated else UnderNot, exprs, true)
    decreases exprs, 1
  {
    ghost var kind := if anyNegationBuilder then EachNegated else UnderNot;
    ghost var whole := old(b.out) + ListText(kind, exprs, true);
    assert exprs[0..] == exprs;
    for idx := 0 to |exprs|
      invariant b.out + ListText(kind, exprs[idx..], idx == 0) == whole
    {
      var e := exprs[idx];
      ghost var before := b.out;
      if idx > 0 {
        b.Write(if !anyNegationBuilder && e.OrConditions? then OR else AND);
      }
      BuildNotMember(e, b, anyNegationBuilder);
      NextMember(kind, exprs, idx, before, b.out);
    }
  }

  method BuildNotMember(e: Cond, b: Builder, anyNegationBuilder: bool)
    modifies b
    ensures b.out == old(b.out) + ItemText(if anyNegationBuilder then EachNegated else UnderNot, e)
    decreases e, 3
  {
    if anyNegationBuilder && e.Comparison? {
      b.Write(PRED(NegationBuildLeaf(e.leaf)));
    } else {
      if anyNegationBuilder {
        b.Write(NOT);
      }
      Build(e, b);
    }
  }

  /** One turn of a writing loop: `before` and `after` are the output around it. */
  lemma NextMember(kind: ListKind, es: seq<Cond>, idx: nat, before: seq<Token>, after: seq<Token>)
    requires idx < |es|
    requires after == before + (if idx == 0 then [] else [Separator(kind, es[idx])]) + ItemText(kind, es[idx])
    ensures after + ListText(kind, es[idx + 1..], false) == before + ListText(kind, es[idx..], idx == 0)
  {
    var separator := if idx == 0 then [] else [Separator(kind, es[idx])];
    assert es[idx..][1..] == es[idx + 1..];
    Regroup(before, separator, ItemText(kind, es[idx]), ListText(kind, es[idx + 1..], false));
  }

  lemma Regroup<T>(a: seq<T>, b: seq<T>, c: seq<T>, d: seq<T>)
    ensures a + b + c + d == a + (b + c + d)
  {
  }

  /** The reordering loop of Where.Build. */
  method SwapFirstPlain(members: array<Cond>)
    modifies members
    ensures members[..] == Reordered(old(members[..]))
  {
    ghost var list := members[..];
    for idx := 0 to members.Length
      invariant members[..] == list
      invariant forall i :: 0 <= i < idx ==> OpensWithOr(list[i])
    {
      if !members[idx].OrConditions? || |members[idx].exprs| > 1 {
        assert FirstPlain(list) == idx;
        if idx != 0 {
          members[0], members[idx] := members[idx], members[0];
        }
        return;
      }
    }
  }

  /** Where.Build: reorders the members in place, those of a sole And group in the list that the
      group shares with every holder of the clause, then writes them. The text does not depend on
      how often the clause was built before. */
  method BuildWhere(exprs: array<Cond>, b: Builder)
    modifies exprs, b
    ensures b.out == old(b.out) + WhereText(old(exprs[..]))
    ensures exprs[..] == Built(old(exprs[..]))
    ensures WhereText(exprs[..]) == WhereText(old(exprs[..]))
  {
    ghost var es := exprs[..];
    BuiltKeepsText(es);
    if exprs.Length == 1 && exprs[0].AndConditions? {
      var inner := exprs[0].exprs;
      var members := new Cond[|inner|](i requires 0 <= i < |inner| => inner[i]);
      assert members[..] == inner;
      SwapFirstPlain(members);
      exprs[0] := AndConditions(members[..]);
      BuildExprs(members[..], b, AND);
      assert exprs[..] == Built(es);
    } else {
      SwapFirstPlain(exprs);
      BuildExprs(exprs[..], b, AND);
    }
  }
}
