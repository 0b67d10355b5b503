/** When the key strings of gorm/utils/utils.go tell keys apart: a schema fixes the type of each
    key field, and then strings collide exactly when two fields are texts. */
module KeyStrings {
  import opened Decimals
  import opened Preload

  /** The type of a key field. */
  datatype Part = UintPart | NumPart | TextPart

  predicate Fits(v: Val, part: Part) {
    match part
    case UintPart => v.Uint?
    case NumPart => v.Num?
    case TextPart => v.Text?
  }

  predicate Typed(k: Key, parts: seq<Part>) {
    |k| == |parts| && forall i :: 0 <= i < |k| ==> Fits(k[i], parts[i])
  }

  /** How many of the fields are texts. */
  function Texts(parts: seq<Part>): nat {
    if parts == [] then 0 else (if parts[0].TextPart? then 1 else 0) + Texts(parts[1..])
  }

  lemma {:induction false} NoText(parts: seq<Part>, i: nat)
    requires Texts(parts) == 0 && i < |parts|
    ensures !parts[i].TextPart?
  {
    if i > 0 {
      NoText(parts[1..], i - 1);
    }
  }

  lemma {:induction false} TextsFront(parts: seq<Part>)
    requires parts != []
    ensures Texts(parts[..|parts| - 1]) <= Texts(parts)
  {
    if |parts| > 1 {
      TextsFront(parts[1..]);
      assert parts[..|parts| - 1][1..] == parts[1..][..|parts| - 2];
    }
  }

  // ---------------------------------------------------------------- one field

  /** Texts of numbers hold no underscore. */
  lemma {:induction false} DigitsSolid(n: nat)
    ensures '_' !in Digits(n)
  {
    if n >= 10 {
      DigitsSolid(n / 10);
    }
  }

  lemma NumberSolid(v: Val)
    requires !v.Text?
    ensures '_' !in ValString(v)
  {
    match v
    case Uint(u) => DigitsSolid(u);
    case Num(n) => DigitsSolid(if n < 0 then -n else n);
  }

  lemma DecimalInjective(x: int, y: int)
    requires Decimal(x) == Decimal(y)
    ensures x == y
  {
    if x < 0 && y < 0 {
      assert Decimal(x)[1..] == Digits(-x) && Decimal(y)[1..] == Digits(-y);
      DigitsInjective(-x, -y);
    } else if x >= 0 && y >= 0 {
      DigitsInjective(x, y);
    } else {
      DigitsShape(if x >= 0 then x else y);
    }
  }

  /** A 0 is "nil", which no other number is. */
  lemma DecimalNotNil(x: int)
    ensures Decimal(x) != "nil"
  {
    assert "nil"[0] == 'n';
    if x >= 0 {
      DigitsShape(x);
    } else {
      assert Decimal(x)[0] == '-';
    }
  }

  lemma PartInjective(v: Val, w: Val, part: Part)
    requires Fits(v, part) && Fits(w, part) && ValString(v) == ValString(w)
    ensures v == w
  {
    match (v, w)
    case (Uint(x), Uint(y)) => DigitsInjective(x, y);
    case (Num(x), Num(y)) =>
      DecimalNotNil(x);
      DecimalNotNil(y);
      if x != 0 && y != 0 {
        DecimalInjective(x, y);
      }
    case (Text(_), Text(_)) =>
  }

  // ---------------------------------------------------------------- at most one text

  lemma FrontCut(a: string, x: string, b: string, y: string)
    requires a + "_" + x == b + "_" + y && '_' !in a && '_' !in b
    ensures a == b && x == y
  {
    var s := a + "_" + x;
    assert s[..|a|] == a && s[|a|] == '_' && s[|a| + 1..] == x;
    assert s[..|b|] == b && s[|b|] == '_' && s[|b| + 1..] == y;
    assert forall i {:trigger s[i]} :: 0 <= i < |a| ==> s[i] == a[i];
    assert forall i {:trigger s[i]} :: 0 <= i < |b| ==> s[i] == b[i];
  }

  lemma BackCut(x: string, a: string, y: string, b: string)
    requires x + "_" + a == y + "_" + b && '_' !in a && '_' !in b
    ensures a == b && x == y
  {
    var s := x + "_" + a;
    assert s[..|x|] == x && s[|x|] == '_' && s[|x| + 1..] == a;
    assert s[..|y|] == y && s[|y|] == '_' && s[|y| + 1..] == b;
    assert forall i {:trigger s[i]} :: |x| < i < |s| ==> s[i] == a[i - |x| - 1];
    assert forall i {:trigger s[i]} :: |y| < i < |s| ==> s[i] == b[i - |y| - 1];
  }

  lemma {:induction false} StringLast(k: Key)
    requires |k| > 1
    ensures ToStringKey(k) == ToStringKey(k[..|k| - 1]) + "_" + ValString(k[|k| - 1])
  {
    hide ValString;
    var front := k[..|k| - 1];
    if |k| > 2 {
      StringLast(k[1..]);
      assert k[1..][..|k| - 2] == front[1..];
    } else {
      assert k[1..] == [k[1]] && front == [k[0]];
    }
  }

  /** Numbers in front and behind can be cut off at their underscores; what is left is one text
      or number. */
  lemma {:induction false} OneTextInjective(a: Key, b: Key, parts: seq<Part>)
    requires Typed(a, parts) && Typed(b, parts) && Texts(parts) <= 1
    requires ToStringKey(a) == ToStringKey(b)
    ensures a == b
    decreases |parts|
  {
    hide ValString, Fits;
    var n := |parts|;
    if n == 1 {
      PartInjective(a[0], b[0], parts[0]);
    } else if n > 1 {
      if !parts[0].TextPart? {
        NumberSolid(a[0]) by { assert Fits(a[0], parts[0]); ItsKind(a[0], parts[0]); }
        NumberSolid(b[0]) by { assert Fits(b[0], parts[0]); ItsKind(b[0], parts[0]); }
        FrontCut(ValString(a[0]), ToStringKey(a[1..]), ValString(b[0]), ToStringKey(b[1..]));
        PartInjective(a[0], b[0], parts[0]);
        OneTextInjective(a[1..], b[1..], parts[1..]);
        assert a == [a[0]] + a[1..] && b == [b[0]] + b[1..];
      } else {
        NoText(parts[1..], n - 2);
        ItsKind(a[n - 1], parts[n - 1]);
        ItsKind(b[n - 1], parts[n - 1]);
        NumberSolid(a[n - 1]);
        NumberSolid(b[n - 1]);
        StringLast(a);
        StringLast(b);
        BackCut(ToStringKey(a[..n - 1]), ValString(a[n - 1]), ToStringKey(b[..n - 1]), ValString(b[n - 1]));
        PartInjective(a[n - 1], b[n - 1], parts[n - 1]);
        TextsFront(parts);
        OneTextInjective(a[..n - 1], b[..n - 1], parts[..n - 1]);
        assert a == a[..n - 1] + [a[n - 1]] && b == b[..n - 1] + [b[n - 1]];
      }
    }
  }

  lemma ItsKind(v: Val, part: Part)
    requires Fits(v, part)
    ensures v.Text? <==> part.TextPart?
  {
  }

  // ---------------------------------------------------------------- two texts

  function Default(part: Part): Val {
    match part
    case UintPart => Uint(1)
    case NumPart => Num(1)
    case TextPart => Text("")
  }

  function Defaults(parts: seq<Part>): Key { seq(|parts|, i requires 0 <= i < |parts| => Default(parts[i])) }

  /** A key whose first text is `y`. */
  function Fill(parts: seq<Part>, y: string): (k: Key)
    ensures Typed(k, parts)
  {
    if parts == [] then []
    else if parts[0].TextPart? then [Text(y)] + Defaults(parts[1..])
    else [Default(parts[0])] + Fill(parts[1..], y)
  }

  /** What stands around the first text in the string of such a key. */
  function Before(parts: seq<Part>): string {
    if parts == [] || parts[0].TextPart? then ""
    else ValString(Default(parts[0])) + "_" + Before(parts[1..])
  }

  function Behind(parts: seq<Part>): string {
    if parts == [] then ""
    else if !parts[0].TextPart? then Behind(parts[1..])
    else if |parts| == 1 then ""
    else "_" + ToStringKey(Defaults(parts[1..]))
  }

  lemma StringFirst(v: Val, rest: Key)
    ensures ToStringKey([v] + rest) == ValString(v) + if rest == [] then "" else "_" + ToStringKey(rest)
  {
    assert ([v] + rest)[1..] == rest;
  }

  lemma {:induction false} FillString(parts: seq<Part>, y: string)
    requires Texts(parts) >= 1
    ensures ToStringKey(Fill(parts, y)) == Before(parts) + y + Behind(parts)
  {
    hide ToStringKey;
    if parts[0].TextPart? {
      StringFirst(Text(y), Defaults(parts[1..]));
      assert "" + y == y;
    } else {
      hide ValString;
      var v := Default(parts[0]);
      StringFirst(v, Fill(parts[1..], y));
      FillString(parts[1..], y);
      var before, behind := Before(parts[1..]), Behind(parts[1..]);
      assert ValString(v) + ("_" + (before + y + behind)) == ValString(v) + "_" + before + y + behind;
    }
  }

  lemma {:induction false} FillSet(parts: seq<Part>, y: string)
    requires Texts(parts) >= 1 && y != ""
    ensures !Unset(Fill(parts, y))
  {
    assert !IsZero(Fill(parts, y)[0]);
  }

  /** With two texts there are two keys of one string: what stands between the texts may belong
      to either. */
  lemma {:induction false} TwoTextsCollide(parts: seq<Part>) returns (a: Key, b: Key)
    requires Texts(parts) >= 2
    ensures Typed(a, parts) && Typed(b, parts) && a != b && ToStringKey(a) == ToStringKey(b)
    ensures !Unset(a) && !Unset(b)
  {
    hide ValString;
    var rest := parts[1..];
    if parts[0].TextPart? {
      var between := "_" + Before(rest);
      a, b := [Text("")] + Fill(rest, between), [Text(between)] + Fill(rest, "");
      Collide(rest, between);
      assert a[0] != b[0];
    } else {
      var c, d := TwoTextsCollide(rest);
      a, b := [Default(parts[0])] + c, [Default(parts[0])] + d;
      assert a[1..] == c && b[1..] == d;
      assert !IsZero(a[0]) && !IsZero(b[0]);
    }
  }

  lemma Collide(rest: seq<Part>, between: string)
    requires Texts(rest) >= 1 && between == "_" + Before(rest)
    ensures var a, b := [Text("")] + Fill(rest, between), [Text(between)] + Fill(rest, "");
            ToStringKey(a) == ToStringKey(b) && !Unset(a) && !Unset(b)
  {
    hide Before, Behind, Fill, ToStringKey;
    FillString(rest, between);
    FillString(rest, "");
    StringFirst(Text(""), Fill(rest, between));
    StringFirst(Text(between), Fill(rest, ""));
    var before, behind := Before(rest), Behind(rest);
    assert "" + ("_" + (before + between + behind)) == between + ("_" + (before + "" + behind));
    FillSet(rest, between);
    var a, b, k := [Text("")] + Fill(rest, between), [Text(between)] + Fill(rest, ""), Fill(rest, between);
    var i :| 0 <= i < |k| && !IsZero(k[i]);
    assert a[i + 1] == k[i] && !IsZero(b[0]);
  }

  // ---------------------------------------------------------------- main results

  /** The strings of set keys of these types are always distinct if and only if at most one field
      is a text. */
  lemma DistinctIffOneText(parts: seq<Part>)
    ensures (forall ks: set<Key> :: (forall k :: k in ks ==> Typed(k, parts) && !Unset(k)) ==> Injective(ks)) <==>
            Texts(parts) <= 1
  {
    hide ToStringKey, Unset;
    if Texts(parts) <= 1 {
      forall ks: set<Key> | forall k :: k in ks ==> Typed(k, parts) && !Unset(k) ensures Injective(ks) {
        forall a, b | a in ks && b in ks && ToStringKey(a) == ToStringKey(b) ensures a == b {
          OneTextInjective(a, b, parts);
        }
      }
    } else {
      var a, b := TwoTextsCollide(parts);
      var ks := {a, b};
      assert !Injective(ks);
    }
  }

  /** So a preload between such models is right whatever rows there are. */
  lemma OneTextNeverCollides(parents: seq<Parent>, join: JoinTable, own: seq<Part>, rel: seq<Part>)
    requires forall p :: p in parents ==> Typed(p.key, own)
    requires join.Table? ==> forall r :: r in join.rows ==> Typed(r.rel, rel)
    requires Texts(own) <= 1 && Texts(rel) <= 1
    ensures NoCollision(parents, join)
  {
    hide ToStringKey, Unset, Typed;
    forall a, b | a in SetKeys(parents) && b in SetKeys(parents) && ToStringKey(a) == ToStringKey(b) ensures a == b {
      OneTextInjective(a, b, own);
    }
    if join.Table? {
      var found := MatchingJoins(join.rows, Keys(parents, ParentKey));
      forall r, q | r in found && q in found && ToStringKey(r.rel) == ToStringKey(q.rel) ensures r.rel == q.rel {
        MatchingJoinsHas(join.rows, Keys(parents, ParentKey), r);
        MatchingJoinsHas(join.rows, Keys(parents, ParentKey), q);
        OneTextInjective(r.rel, q.rel, rel);
      }
    }
  }
}
