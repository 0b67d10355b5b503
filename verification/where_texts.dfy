/** The texts of gorm/clause/where.go written out, for any comparisons: where parentheses, AND, OR
    and NOT stand, and what changes places. */
module WhereTexts {
  import opened Options
  import opened SqlLogic
  import opened WhereClause

  function P(l: Leaf): Token { PRED(BuildLeaf(l)) }

  /** A comparison denied. */
  function N(l: Leaf): Token { PRED(NegationBuildLeaf(l)) }

  /** A list of two members, written with its separator. */
  lemma TwoTexts(kind: ListKind, a: Cond, b: Cond)
    ensures ListText(kind, [a, b], true) == ItemText(kind, a) + [Separator(kind, b)] + ItemText(kind, b)
  {
    hide ItemText, Separator;
    assert [a, b][1..] == [b] && [b][1..] == [];
    assert ListText(kind, [b], false) == [Separator(kind, b)] + ItemText(kind, b) + ListText(kind, [], false);
    assert ListText(kind, [a, b], true) == [] + ItemText(kind, a) + ListText(kind, [b], false);
  }

  lemma OneInList(kind: ListKind, a: Cond)
    ensures ListText(kind, [a], true) == ItemText(kind, a)
  {
    hide ItemText;
    assert [a][1..] == [];
    assert ListText(kind, [a], true) == [] + ItemText(kind, a) + ListText(kind, [], false);
  }

  /** Conditions are joined by AND; one given to Or by OR. */
  lemma JoinedTexts(a: Leaf, b: Leaf)
    ensures WhereText([Comparison(a)]) == [P(a)]
    ensures WhereText([Comparison(a), Comparison(b)]) == [P(a), AND, P(b)]
    ensures WhereText([Comparison(a), OrConditions([Comparison(b)])]) == [P(a), OR, P(b)]
  {
    var x, y := Comparison(a), Comparison(b);
    NoSwapKeepsOrder([x]);
    NoSwapKeepsOrder([x, y]);
    NoSwapKeepsOrder([x, OrConditions([y])]);
    OneInList(Conjoined, x);
    TwoTexts(Conjoined, x, y);
    TwoTexts(Conjoined, x, OrConditions([y]));
    OneInList(Disjoined, y);
  }

  /** A lone Or that is given first changes places with the first other member. */
  lemma SwappedTexts(a: Leaf, b: Leaf)
    ensures WhereText([OrConditions([Comparison(a)]), Comparison(b)]) == [P(b), OR, P(a)]
    ensures WhereText([AndConditions([OrConditions([Comparison(a)]), Comparison(b)])]) == [P(b), OR, P(a)]
  {
    var x, y := OrConditions([Comparison(a)]), Comparison(b);
    assert FirstPlain([x, y]) == 1 by { assert [x, y][1..] == [y]; }
    assert Reordered([x, y]) == [y, x];
    TwoTexts(Conjoined, y, x);
    OneInList(Disjoined, Comparison(a));
  }

  /** Only these two change places; all other members stay where they are. */
  lemma ReorderedIsSwap(es: seq<Cond>, i: nat)
    requires i < |es|
    ensures var n := FirstPlain(es);
            |Reordered(es)| == |es| &&
            Reordered(es)[i] == if n == |es| then es[i] else if i == 0 then es[n] else if i == n then es[0] else es[i]
    ensures forall j :: 0 <= j < FirstPlain(es) ==> es[j].OrConditions? && |es[j].exprs| <= 1
    ensures FirstPlain(es) < |es| ==> !(es[FirstPlain(es)].OrConditions? && |es[FirstPlain(es)].exprs| <= 1)
  {
  }

  /** A group of several members stands in parentheses, but a sole And group does not. */
  lemma GroupTexts(a: Leaf, b: Leaf, c: Leaf)
    ensures WhereText([Comparison(a), OrConditions([Comparison(b), Comparison(c)])]) ==
            [P(a), AND, LPAREN, P(b), OR, P(c), RPAREN]
    ensures WhereText([AndConditions([Comparison(a), Comparison(b)])]) == [P(a), AND, P(b)]
    ensures WhereText([AndConditions([Comparison(a), Comparison(b)]), Comparison(c)]) ==
            [LPAREN, P(a), AND, P(b), RPAREN, AND, P(c)]
    ensures WhereText([OrConditions([Comparison(a), Comparison(b)])]) == [LPAREN, P(a), OR, P(b), RPAREN]
  {
    var x, y, z := Comparison(a), Comparison(b), Comparison(c);
    var or, and := OrConditions([y, z]), AndConditions([x, y]);
    hide ListText, BuildLeaf;
    NoSwapKeepsOrder([x, or]);
    NoSwapKeepsOrder([x, y]);
    NoSwapKeepsOrder([and, z]);
    NoSwapKeepsOrder([OrConditions([x, y])]);
    TwoTexts(Conjoined, x, or);
    TwoTexts(Disjoined, y, z);
    TwoTexts(Conjoined, x, y);
    TwoTexts(Conjoined, and, z);
    TwoTexts(Disjoined, x, y);
    OneInList(Conjoined, OrConditions([x, y]));
  }

  /** Not of comparisons denies each, ... */
  lemma DeniedTexts(a: Leaf, b: Leaf)
    ensures Text(NotConditions([Comparison(a)])) == [N(a)]
    ensures Text(NotConditions([Comparison(a), Comparison(b)])) == [LPAREN, N(a), AND, N(b), RPAREN]
  {
    var x, y := Comparison(a), Comparison(b);
    assert HasComparison([x]) by { assert [x][0].Comparison?; }
    assert HasComparison([x, y]) by { assert [x, y][0].Comparison?; }
    OneInList(EachNegated, x);
    TwoTexts(EachNegated, x, y);
  }

  /** ... and so it does, with a NOT in front, to a group beside a comparison; ... */
  lemma DeniedGroupText(a: Leaf, e: Cond)
    requires !e.Comparison?
    ensures Text(NotConditions([Comparison(a), e])) == [LPAREN, N(a), AND, NOT] + Text(e) + [RPAREN]
  {
    var x := Comparison(a);
    assert HasComparison([x, e]) by { assert [x, e][0].Comparison?; }
    TwoTexts(EachNegated, x, e);
  }

  /** ... but groups alone get one NOT, with OR in front of an Or group. */
  lemma NotTexts(e: Cond, f: Cond)
    requires !e.Comparison? && !f.Comparison?
    ensures Text(NotConditions([e, f])) ==
            [NOT, LPAREN] + Text(e) + [if f.OrConditions? then OR else AND] + Text(f) + [RPAREN]
  {
    hide ListText, Text, ItemText, KindOf;
    assert KindOf(NotConditions([e, f])) == UnderNot by { NoComparison(e, f); }
    TwoTexts(UnderNot, e, f);
    PlainItem(e);
    PlainItem(f);
    SeveralUnderNot([e, f]);
    var body := Text(e) + [Separator(UnderNot, f)] + Text(f);
    assert [NOT] + ([LPAREN] + body + [RPAREN]) ==
           [NOT, LPAREN] + Text(e) + [if f.OrConditions? then OR else AND] + Text(f) + [RPAREN];
  }

  lemma NoComparison(e: Cond, f: Cond)
    requires !e.Comparison? && !f.Comparison?
    ensures KindOf(NotConditions([e, f])) == UnderNot
  {
    assert !HasComparison([e, f]);
  }

  lemma PlainItem(e: Cond)
    ensures ItemText(UnderNot, e) == Text(e)
  {
    hide Text;
  }

  lemma SeveralUnderNot(es: seq<Cond>)
    requires |es| > 1 && KindOf(NotConditions(es)) == UnderNot
    ensures Text(NotConditions(es)) == [NOT] + ([LPAREN] + ListText(UnderNot, es, true) + [RPAREN])
  {
    hide ListText, KindOf;
  }

  lemma NotOfOneText(e: Cond)
    requires !e.Comparison?
    ensures Text(NotConditions([e])) == [NOT] + Text(e)
  {
    hide ListText;
    assert KindOf(NotConditions([e])) == UnderNot by { assert !HasComparison([e]); }
    OneInList(UnderNot, e);
  }

  // ---------------------------------------------------------------- the predicates

  /** The predicate of each comparison. */
  lemma LeafTexts(c: Column, v: Value, w: Value, vs: seq<Value>)
    requires v != Null && |vs| > 1
    ensures BuildLeaf(Eq(c, Scalar(v))) == Compare(c, EQ, v) && BuildLeaf(Eq(c, Scalar(Null))) == NullTest(c, false)
    ensures BuildLeaf(Neq(c, Scalar(v))) == Compare(c, NE, v) && BuildLeaf(Neq(c, Scalar(Null))) == NullTest(c, true)
    ensures BuildLeaf(Eq(c, Values(vs))) == Member(c, false, vs) && BuildLeaf(Neq(c, Values(vs))) == Member(c, true, vs)
    ensures BuildLeaf(Gt(c, w)) == Compare(c, GT, w) && BuildLeaf(Gte(c, w)) == Compare(c, GE, w)
    ensures BuildLeaf(Lt(c, w)) == Compare(c, LT, w) && BuildLeaf(Lte(c, w)) == Compare(c, LE, w)
    ensures BuildLeaf(Like(c, w)) == Match(c, false, w)
    ensures BuildLeaf(IN(c, [])) == Member(c, false, [Null]) && BuildLeaf(IN(c, [w])) == Compare(c, EQ, w)
    ensures BuildLeaf(IN(c, vs)) == Member(c, false, vs)
    ensures BuildLeaf(Eq(c, Values([]))) == Member(c, false, [Null])
    ensures BuildLeaf(Neq(c, Values([]))) == Member(c, true, [])
    ensures NegationBuildLeaf(IN(c, [])) == NullTest(c, true) && NegationBuildLeaf(IN(c, [w])) == Compare(c, NE, w)
    ensures NegationBuildLeaf(IN(c, vs)) == Member(c, true, vs) && NegationBuildLeaf(Like(c, w)) == Match(c, true, w)
  {
  }

  // ---------------------------------------------------------------- And, Or and Not

  /** Or asks for one of its conditions; nothing given makes nothing. */
  lemma OrMeansAny(es: seq<Cond>, w: World)
    ensures es != [] ==> Or(es).Some? && Meaning(Or(es).value, w) == AnyOf(Meanings(es, w))
    ensures And([]) == None && Or([]) == None && Not([]) == None
  {
    assert Meanings(es, w) == seq(|es|, i requires 0 <= i < |es| => Meaning(es[i], w));
  }
}
