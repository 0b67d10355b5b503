/** The field splitter of parseDDL and its printer, driver/sqlite/ddlmod.go: the body of a CREATE
    TABLE statement is cut at its top-level commas. The regular expressions that find the body
    and read the fields are not part of this model. */
module DdlSplit {

  /** The regular expression for one separator is a character class in which "|" stands for
      itself. Any separator closes any other. */
  predicate IsSeparator(c: char) { c == '`' || c == '|' || c == '"' || c == '\'' || c == '\t' }

  /** The untrimmed pieces between top-level commas; the last may be empty. */
  datatype Result = Pieces(pieces: seq<string>) | Unbalanced

  function Before(piece: string, r: Result): Result {
    match r
    case Pieces(ps) => Pieces([piece] + ps)
    case Unbalanced => Unbalanced
  }

  /** What the next characters do: they go on with the piece (two at once when a separator is
      doubled), end it, or close a bracket that is not open. */
  datatype Step = Go(taken: nat, level: nat, quoted: bool) | Cut | Close

  function Next(s: string, level: nat, quoted: bool): (r: Step)
    requires s != ""
    ensures r.Go? ==> 1 <= r.taken <= |s| && r.taken <= 2
  {
    var c := s[0];
    if IsSeparator(c) then if |s| > 1 && s[1] == c then Go(2, level, quoted) else Go(1, level, !quoted)
    else if quoted then Go(1, level, quoted)
    else if c == '(' then Go(1, level + 1, quoted)
    else if c == ')' then if level == 0 then Close else Go(1, level - 1, quoted)
    else if c == ',' && level == 0 then Cut
    else Go(1, level, quoted)
  }

  function Split(s: string, level: nat, quoted: bool, buf: string): (r: Result)
    ensures r.Pieces? ==> r.pieces != []
    decreases |s|
  {
    if s == "" then if level == 0 then Pieces([buf]) else Unbalanced
    else
      match Next(s, level, quoted)
      case Go(n, l, q) => Split(s[n..], l, q, buf + s[..n])
      case Cut => Before(buf, Split(s[1..], 0, false, ""))
      case Close => Unbalanced
  }

  // ---------------------------------------------------------------- trimming

  /** unicode.IsSpace. */
  predicate IsSpace(c: char) {
    var n := c as int;
    || 0x09 <= n <= 0x0d || n == 0x20 || n == 0x85 || n == 0xa0 || n == 0x1680 || 0x2000 <= n <= 0x200a
    || n == 0x2028 || n == 0x2029 || n == 0x202f || n == 0x205f || n == 0x3000
  }

  function TrimLeft(s: string): string { if s != "" && IsSpace(s[0]) then TrimLeft(s[1..]) else s }

  function TrimRight(s: string): string {
    if s != "" && IsSpace(s[|s| - 1]) then TrimRight(s[..|s| - 1]) else s
  }

  /** strings.TrimSpace. */
  function Trim(s: string): string { TrimRight(TrimLeft(s)) }

  function TrimAll(ps: seq<string>): seq<string> {
    if ps == [] then [] else TrimAll(ps[..|ps| - 1]) + [Trim(ps[|ps| - 1])]
  }

  /** The fields: an empty last piece is none, a blank one is an empty field. */
  function Fields(ps: seq<string>): seq<string>
    requires ps != []
  {
    TrimAll(ps[..|ps| - 1]) + if ps[|ps| - 1] == "" then [] else [Trim(ps[|ps| - 1])]
  }

  /** strings.Join(fields, ","). */
  function Join(ps: seq<string>): string {
    if ps == [] then "" else if |ps| == 1 then ps[0] else ps[0] + "," + Join(ps[1..])
  }

  // ---------------------------------------------------------------- the loop

  function After(ps: seq<string>, r: Result): Result {
    match r
    case Pieces(qs) => Pieces(ps + qs)
    case Unbalanced => Unbalanced
  }

  lemma AfterBefore(ps: seq<string>, piece: string, r: Result)
    ensures After(ps, Before(piece, r)) == After(ps + [piece], r)
  {
    if r.Pieces? {
      assert ps + ([piece] + r.pieces) == ps + [piece] + r.pieces;
    }
  }

  lemma AfterNothing(r: Result)
    ensures After([], r) == r
  {
    if r.Pieces? {
      assert [] + r.pieces == r.pieces;
    }
  }

  /** One turn of the loop on the bracket level and the quote; `skip` says that the doubled
      separator was taken with it, `cut` that the piece ends. */
  method Turn(body: string, idx: nat, bracketLevel: nat, quote: char)
    returns (level: int, q: char, skip: bool, cut: bool)
    requires idx < |body|
    ensures cut ==> Next(body[idx..], bracketLevel, quote != '\0') == Cut
    ensures !cut && level < 0 ==> Next(body[idx..], bracketLevel, quote != '\0') == Close
    ensures !cut && level >= 0 ==>
              Next(body[idx..], bracketLevel, quote != '\0') == Go(if skip then 2 else 1, level, q != '\0')
    ensures skip ==> idx + 1 < |body| && body[idx + 1] == body[idx]
  {
    var c := body[idx];
    level, q, skip, cut := bracketLevel, quote, false, false;
    if IsSeparator(c) {
      if idx + 1 < |body| && c == body[idx + 1] {
        skip := true;
      } else if quote != '\0' {
        q := '\0';
      } else {
        q := c;
      }
    } else if quote == '\0' {
      if c == '(' {
        level := level + 1;
      } else if c == ')' {
        level := level - 1;
      } else if level == 0 {
        cut := c == ',';
      }
    }
  }

  lemma SplitNext(s: string, level: nat, quoted: bool, buf: string)
    requires s != ""
    ensures match Next(s, level, quoted)
            case Go(n, l, q) => Split(s, level, quoted, buf) == Split(s[n..], l, q, buf + s[..n])
            case Cut => Split(s, level, quoted, buf) == Before(buf, Split(s[1..], 0, false, ""))
            case Close => Split(s, level, quoted, buf) == Unbalanced
  {
  }

  /** The splitting loop of parseDDL. */
  method SplitFields(body: string) returns (fields: seq<string>, ok: bool)
    ensures ok == Split(body, 0, false, "").Pieces?
    ensures ok ==> fields == Fields(Split(body, 0, false, "").pieces)
  {
    hide IsSpace, Trim, Next, Split;
    fields := [];
    ghost var pieces: seq<string> := [];
    var bracketLevel: nat, quote, buf := 0, '\0', "";
    AfterNothing(Split(body, 0, false, ""));
    assert body[0..] == body;
    var idx := 0;
    while idx < |body|
      invariant 0 <= idx <= |body|
      invariant fields == TrimAll(pieces)
      invariant Split(body, 0, false, "") == After(pieces, Split(body[idx..], bracketLevel, quote != '\0', buf))
    {
      SplitNext(body[idx..], bracketLevel, quote != '\0', buf);
      var level, q, skip, cut := Turn(body, idx, bracketLevel, quote);
      if cut {
        assert body[idx..][1..] == body[idx + 1..];
        CutsAtComma(body[idx..], bracketLevel, quote != '\0');
        AfterBefore(pieces, buf, Split(body[idx + 1..], 0, false, ""));
        assert (pieces + [buf])[..|pieces|] == pieces;
        pieces := pieces + [buf];
        fields := fields + [Trim(buf)];
        buf := "";
        idx := idx + 1;
        continue;
      }
      if level < 0 {
        return [], false;
      }
      ghost var n := if skip then 2 else 1;
      assert body[idx..][n..] == body[idx + n..];
      ghost var grown := buf + body[idx..][..n];
      assert Split(body, 0, false, "") == After(pieces, Split(body[idx + n..], level, q != '\0', grown));
      assert grown == if skip then buf + [body[idx]] + [body[idx]] else buf + [body[idx]];
      bracketLevel, quote := level, q;
      if skip {
        buf := buf + [body[idx]];
        idx := idx + 1;
      }
      buf := buf + [body[idx]];
      idx := idx + 1;
      assert buf == grown;
    }
    SplitEnd(bracketLevel, quote != '\0', buf);
    assert body[idx..] == "";
    if bracketLevel != 0 {
      return [], false;
    }
    assert (pieces + [buf])[..|pieces|] == pieces;
    if buf != "" {
      fields := fields + [Trim(buf)];
    }
    ok := true;
  }

  lemma SplitEnd(level: nat, quoted: bool, buf: string)
    ensures Split("", level, quoted, buf) == if level == 0 then Pieces([buf]) else Unbalanced
  {
  }

  // ---------------------------------------------------------------- nothing is lost

  lemma {:induction false} SplitRebuilds(s: string, level: nat, quoted: bool, buf: string)
    requires Split(s, level, quoted, buf).Pieces?
    ensures Join(Split(s, level, quoted, buf).pieces) == buf + s
    decreases |s|
  {
    hide Next;
    if s == "" {
      assert buf + s == buf;
    } else {
      match Next(s, level, quoted)
      case Go(n, l, q) =>
        SplitRebuilds(s[n..], l, q, buf + s[..n]);
        assert buf + s[..n] + s[n..] == buf + s;
      case Cut =>
        SplitRebuilds(s[1..], 0, false, "");
        CutsAtComma(s, level, quoted);
        JoinFirst(buf, Split(s[1..], 0, false, "").pieces);
        assert buf + "," + ("" + s[1..]) == buf + s;
      case Close =>
    }
  }

  lemma CutsAtComma(s: string, level: nat, quoted: bool)
    requires s != "" && Next(s, level, quoted).Cut?
    ensures s == "," + s[1..] && level == 0 && !quoted
  {
  }

  lemma JoinFirst(p: string, ps: seq<string>)
    requires ps != []
    ensures Join([p] + ps) == p + "," + Join(ps)
  {
    assert ([p] + ps)[1..] == ps;
  }

  /** The untrimmed pieces joined by commas are the body, so the only characters that the
      fields lack are white space around them and at most one comma at the very end. */
  lemma PiecesRebuildBody(body: string)
    requires Split(body, 0, false, "").Pieces?
    ensures Join(Split(body, 0, false, "").pieces) == body
  {
    SplitRebuilds(body, 0, false, "");
    assert "" + body == body;
  }

  // ---------------------------------------------------------------- brackets

  /** The text outside quotes, without the separators. */
  function Code(s: string, quoted: bool): string
    decreases |s|
  {
    if s == "" then ""
    else if IsSeparator(s[0]) then
      if |s| > 1 && s[1] == s[0] then Code(s[2..], quoted) else Code(s[1..], !quoted)
    else (if quoted then "" else [s[0]]) + Code(s[1..], quoted)
  }

  /** Opening minus closing brackets. */
  function Excess(code: string): int {
    if code == "" then 0
    else (if code[0] == '(' then 1 else if code[0] == ')' then -1 else 0) + Excess(code[1..])
  }

  /** As many brackets are closed as opened, and never more. */
  ghost predicate Balanced(code: string, level: nat) {
    (forall i :: 0 <= i <= |code| ==> level + Excess(code[..i]) >= 0) && level + Excess(code) == 0
  }

  lemma BalancedMore(c: char, code: string, level: nat)
    ensures var d := if c == '(' then 1 else if c == ')' then -1 else 0;
            Balanced([c] + code, level) <==> level + d >= 0 && Balanced(code, level + d)
  {
    var d := if c == '(' then 1 else if c == ')' then -1 else 0;
    var longer := [c] + code;
    assert longer[1..] == code;
    forall i | 0 <= i <= |code| ensures Excess(longer[..i + 1]) == d + Excess(code[..i]) {
      assert longer[..i + 1][1..] == code[..i];
    }
    if Balanced(longer, level) {
      assert level + Excess(longer[..1]) >= 0;
      assert code[..0] == "";
      forall i | 0 <= i <= |code| ensures level + d + Excess(code[..i]) >= 0 {
        assert level + Excess(longer[..i + 1]) >= 0;
      }
    }
    if level + d >= 0 && Balanced(code, level + d) {
      forall i | 0 <= i <= |longer| ensures level + Excess(longer[..i]) >= 0 {
        if i > 0 {
          assert level + d + Excess(code[..i - 1]) >= 0;
        }
      }
    }
  }

  lemma CodeNext(s: string, level: nat, quoted: bool)
    requires s != ""
    ensures match Next(s, level, quoted)
            case Go(n, l, q) => Balanced(Code(s, quoted), level) <==> Balanced(Code(s[n..], q), l)
            case Cut => Balanced(Code(s, quoted), level) <==> Balanced(Code(s[1..], false), 0)
            case Close => !Balanced(Code(s, quoted), level)
  {
    hide Balanced, Code;
    CodeStep(s, quoted);
    if !IsSeparator(s[0]) && !quoted {
      BalancedMore(s[0], Code(s[1..], quoted), level);
    }
  }

  lemma CodeStep(s: string, quoted: bool)
    requires s != ""
    ensures Code(s, quoted) ==
            if IsSeparator(s[0]) then
              if |s| > 1 && s[1] == s[0] then Code(s[2..], quoted) else Code(s[1..], !quoted)
            else if quoted then Code(s[1..], quoted)
            else [s[0]] + Code(s[1..], quoted)
  {
    assert "" + Code(s[1..], quoted) == Code(s[1..], quoted);
  }

  lemma {:induction false} SplitBalanced(s: string, level: nat, quoted: bool, buf: string)
    ensures Split(s, level, quoted, buf).Pieces? <==> Balanced(Code(s, quoted), level)
    decreases |s|
  {
    hide Next, Balanced;
    if s == "" {
      BalancedEnd(level, quoted);
    } else {
      CodeNext(s, level, quoted);
      match Next(s, level, quoted)
      case Go(n, l, q) => SplitBalanced(s[n..], l, q, buf + s[..n]);
      case Cut => SplitBalanced(s[1..], 0, false, "");
      case Close =>
    }
  }

  lemma BalancedEnd(level: nat, quoted: bool)
    ensures Balanced(Code("", quoted), level) <==> level == 0
  {
  }

  /** The splitter fails exactly when the brackets outside quotes are not balanced. */
  lemma FailsIffUnbalanced(body: string)
    ensures Split(body, 0, false, "").Unbalanced? <==> !Balanced(Code(body, false), 0)
  {
    SplitBalanced(body, 0, false, "");
  }

  // ---------------------------------------------------------------- splitting what was joined

  /** Where the scan of a text ends that is neither cut nor closed too often. */
  datatype End = At(level: nat, quoted: bool) | Stopped

  function Through(s: string, level: nat, quoted: bool): End
    decreases |s|
  {
    if s == "" then At(level, quoted)
    else
      match Next(s, level, quoted)
      case Go(n, l, q) => Through(s[n..], l, q)
      case _ => Stopped
  }

  /** A single field, and one behind which a comma cuts. */
  predicate Whole(p: string) { Through(p, 0, false).At? && Through(p, 0, false).level == 0 }

  predicate Closed(p: string) { Through(p, 0, false) == At(0, false) }

  ghost predicate AllWhole(ps: seq<string>) {
    && (forall i :: 0 <= i < |ps| ==> Whole(ps[i]))
    && (forall i :: 0 <= i < |ps| - 1 ==> Closed(ps[i]))
  }

  lemma NextAppend(p: string, t: string, level: nat, quoted: bool)
    requires p != "" && (t == "" || !IsSeparator(t[0]))
    ensures Next(p + t, level, quoted) == Next(p, level, quoted)
  {
    if |p| == 1 && t != "" {
      assert (p + t)[1] == t[0];
    }
  }

  lemma {:induction false} ThroughAppend(p: string, t: string, level: nat, quoted: bool)
    requires t == "" || !IsSeparator(t[0])
    ensures Through(p + t, level, quoted) ==
            match Through(p, level, quoted) { case At(l, q) => Through(t, l, q) case Stopped => Stopped }
    decreases |p|
  {
    hide Next, IsSeparator;
    if p == "" {
      assert p + t == t;
    } else {
      NextAppend(p, t, level, quoted);
      match Next(p, level, quoted)
      case Go(n, l, q) =>
        assert (p + t)[n..] == p[n..] + t;
        ThroughAppend(p[n..], t, l, q);
      case _ =>
    }
  }

  lemma {:induction false} SplitThrough(p: string, t: string, level: nat, quoted: bool, buf: string)
    requires t == "" || !IsSeparator(t[0])
    requires Through(p, level, quoted).At?
    ensures var e := Through(p, level, quoted); Split(p + t, level, quoted, buf) == Split(t, e.level, e.quoted, buf + p)
    decreases |p|
  {
    hide Next, IsSeparator;
    if p == "" {
      assert p + t == t && buf + p == buf;
    } else {
      NextAppend(p, t, level, quoted);
      var n := Next(p, level, quoted).taken;
      assert (p + t)[n..] == p[n..] + t && (p + t)[..n] == p[..n];
      SplitThrough(p[n..], t, Next(p, level, quoted).level, Next(p, level, quoted).quoted, buf + p[..n]);
      assert buf + p[..n] + p[n..] == buf + p;
    }
  }

  lemma {:induction false} SplitJoined(ps: seq<string>)
    requires ps != [] && AllWhole(ps)
    ensures Split(Join(ps), 0, false, "") == Pieces(ps)
  {
    hide Through, Next;
    var p := ps[0];
    assert Whole(p);
    if |ps| == 1 {
      SplitThrough(p, "", 0, false, "");
      assert p + "" == p && "" + p == p;
      SplitEnd(0, Through(p, 0, false).quoted, p);
    } else {
      assert Closed(p);
      var rest := Join(ps[1..]);
      SplitJoined(ps[1..]);
      SplitThrough(p, "," + rest, 0, false, "");
      assert p + ("," + rest) == Join(ps) && "" + p == p;
      CommaCuts(rest, p);
    }
  }

  lemma CommaCuts(rest: string, buf: string)
    ensures Split("," + rest, 0, false, buf) == Before(buf, Split(rest, 0, false, ""))
  {
    assert ("," + rest)[1..] == rest;
    SplitNext("," + rest, 0, false, buf);
  }

  /** Every piece of a split is a single field, and a comma cuts behind all but the last. */
  lemma {:induction false} PiecesWhole(s: string, level: nat, quoted: bool, buf: string) returns (q: string)
    requires Split(s, level, quoted, buf).Pieces?
    ensures var ps := Split(s, level, quoted, buf).pieces;
            && q <= s && ps[0] == buf + q
            && Through(q, level, quoted).At? && Through(q, level, quoted).level == 0
            && (|ps| > 1 ==> !Through(q, level, quoted).quoted)
            && AllWhole(ps[1..])
    decreases |s|
  {
    hide Next, AllWhole, Whole, Split;
    SplitNone(level, quoted, buf);
    if s == "" {
      q := "";
    } else {
      SplitNext(s, level, quoted, buf);
      match Next(s, level, quoted)
      case Go(n, l, qu) =>
        var more := PiecesWhole(s[n..], l, qu, buf + s[..n]);
        q := s[..n] + more;
        assert buf + s[..n] + more == buf + q;
        assert s == s[..n] + s[n..];
        NextPrefix(s, q, level, quoted);
        assert q[n..] == more;
      case Cut =>
        q := "";
        assert buf + q == buf;
        CutsAtComma(s, level, quoted);
        var first := PiecesWhole(s[1..], 0, false, "");
        var ps := Split(s[1..], 0, false, "").pieces;
        assert "" + first == first;
        MoreWhole(ps);
        assert ([buf] + ps)[1..] == ps;
      case Close =>
        q := "";
    }
  }

  lemma SplitNone(level: nat, quoted: bool, buf: string)
    ensures AllWhole([]) && buf + "" == buf
    ensures var r := Split("", level, quoted, buf); r.Pieces? ==> level == 0 && r.pieces == [buf] && r.pieces[1..] == []
  {
  }

  lemma MoreWhole(ps: seq<string>)
    requires ps != [] && AllWhole(ps[1..]) && Whole(ps[0]) && (|ps| > 1 ==> Closed(ps[0]))
    ensures AllWhole(ps)
  {
    forall i | 0 <= i < |ps| ensures Whole(ps[i]) && (i < |ps| - 1 ==> Closed(ps[i])) {
      if i > 0 {
        assert ps[i] == ps[1..][i - 1];
      }
    }
  }

  lemma NextPrefix(s: string, q: string, level: nat, quoted: bool)
    requires s != "" && q != "" && q <= s && Next(s, level, quoted).Go? && |q| >= Next(s, level, quoted).taken
    ensures Next(q, level, quoted) == Next(s, level, quoted)
  {
  }

  // ---------------------------------------------------------------- trimming changes no cut

  lemma {:induction false} TrimLeftThrough(p: string, level: nat, quoted: bool)
    requires '\t' !in p
    ensures Through(TrimLeft(p), level, quoted) == Through(p, level, quoted) && '\t' !in TrimLeft(p)
  {
    if p != "" && IsSpace(p[0]) {
      TrimLeftThrough(p[1..], level, quoted);
      assert Next(p, level, quoted) == Go(1, level, quoted);
    }
  }

  lemma {:induction false} TrimRightThrough(p: string, level: nat, quoted: bool)
    requires '\t' !in p
    ensures Through(TrimRight(p), level, quoted) == Through(p, level, quoted)
  {
    hide Through, Next;
    if p != "" && IsSpace(p[|p| - 1]) {
      var rest, last := p[..|p| - 1], p[|p| - 1];
      assert p == rest + [last];
      TrimRightThrough(rest, level, quoted);
      ThroughAppend(rest, [last], level, quoted);
      match Through(rest, level, quoted)
      case At(l, q) => SpaceGoesOn(last, l, q);
      case Stopped =>
    }
  }

  lemma SpaceGoesOn(c: char, level: nat, quoted: bool)
    requires IsSpace(c) && c != '\t'
    ensures Through([c], level, quoted) == At(level, quoted)
  {
    assert [c][1..] == "";
  }

  lemma TrimThrough(p: string)
    requires '\t' !in p
    ensures Through(Trim(p), 0, false) == Through(p, 0, false)
  {
    TrimLeftThrough(p, 0, false);
    TrimRightThrough(TrimLeft(p), 0, false);
  }

  lemma {:induction false} TrimRightEnds(s: string)
    ensures TrimRight(s) == "" || !IsSpace(TrimRight(s)[|TrimRight(s)| - 1])
    ensures TrimRight(s) <= s
  {
    if s != "" && IsSpace(s[|s| - 1]) {
      TrimRightEnds(s[..|s| - 1]);
    }
  }

  lemma {:induction false} TrimLeftStarts(s: string)
    ensures TrimLeft(s) == "" || !IsSpace(TrimLeft(s)[0])
  {
    if s != "" && IsSpace(s[0]) {
      TrimLeftStarts(s[1..]);
    }
  }

  lemma TrimTwice(s: string)
    ensures Trim(Trim(s)) == Trim(s)
  {
    TrimLeftStarts(s);
    TrimRightEnds(TrimLeft(s));
    var t := Trim(s);
    assert t != "" ==> t[0] == TrimLeft(s)[0];
    assert TrimLeft(t) == t;
    assert TrimRight(t) == t;
  }

  // ---------------------------------------------------------------- the round trip

  lemma {:induction false} TrimAllAt(ps: seq<string>)
    ensures |TrimAll(ps)| == |ps|
    ensures forall i {:trigger TrimAll(ps)[i]} :: 0 <= i < |ps| ==> TrimAll(ps)[i] == Trim(ps[i])
  {
    if ps != [] {
      TrimAllAt(ps[..|ps| - 1]);
    }
  }

  /** The fields are the trimmed pieces, without the last if it is empty. */
  lemma FieldsAt(ps: seq<string>) returns (n: nat)
    requires ps != []
    ensures n == |Fields(ps)| && n <= |ps|
    ensures n == if ps[|ps| - 1] == "" then |ps| - 1 else |ps|
    ensures forall i {:trigger Fields(ps)[i]} :: 0 <= i < n ==> Fields(ps)[i] == Trim(ps[i])
  {
    hide Trim;
    TrimAllAt(ps[..|ps| - 1]);
    n := |Fields(ps)|;
  }

  lemma {:induction false} InJoin(ps: seq<string>, i: nat, c: char)
    requires i < |ps| && c in ps[i]
    ensures c in Join(ps)
  {
    if |ps| > 1 && i > 0 {
      InJoin(ps[1..], i - 1, c);
    }
  }

  lemma FieldsWhole(body: string)
    requires Split(body, 0, false, "").Pieces? && '\t' !in body
    ensures AllWhole(Fields(Split(body, 0, false, "").pieces))
    ensures forall f :: f in Fields(Split(body, 0, false, "").pieces) ==> Trim(f) == f
  {
    hide Split, Through, Trim, Fields;
    var ps := Split(body, 0, false, "").pieces;
    var first := PiecesWhole(body, 0, false, "");
    assert "" + first == first;
    MoreWhole(ps);
    PiecesRebuildBody(body);
    var n := FieldsAt(ps);
    var fs := Fields(ps);
    forall i | 0 <= i < n ensures Whole(fs[i]) && (i < n - 1 ==> Closed(fs[i])) && Trim(fs[i]) == fs[i] {
      assert fs[i] == Trim(ps[i]);
      if '\t' in ps[i] {
        InJoin(ps, i, '\t');
      }
      TrimThrough(ps[i]);
      TrimTwice(ps[i]);
      assert Whole(ps[i]) && (i < n - 1 ==> Closed(ps[i]));
    }
  }

  lemma FieldsOfTrimmed(fs: seq<string>)
    requires fs != [] && forall f :: f in fs ==> Trim(f) == f
    ensures Fields(fs) == fs <==> fs[|fs| - 1] != ""
  {
    hide Trim, Fields;
    var n := FieldsAt(fs);
    if fs[|fs| - 1] != "" {
      assert forall i :: 0 <= i < n ==> Fields(fs)[i] == fs[i];
    }
  }

  ghost predicate RoundTrips(fs: seq<string>) {
    Split(Join(fs), 0, false, "").Pieces? && Fields(Split(Join(fs), 0, false, "").pieces) == fs
  }

  lemma {:induction false} TrimShorter(s: string)
    ensures |TrimRight(s)| <= |s| && (|TrimRight(s)| == |s| ==> TrimRight(s) == s)
    ensures |TrimLeft(s)| <= |s| && (|TrimLeft(s)| == |s| ==> TrimLeft(s) == s)
    decreases |s|
  {
    if s != "" {
      TrimShorter(s[1..]);
      TrimShorter(s[..|s| - 1]);
    }
  }

  function Total(ps: seq<string>): nat { if ps == [] then 0 else |ps[0]| + Total(ps[1..]) }

  lemma {:induction false} JoinLength(ps: seq<string>)
    requires ps != []
    ensures |Join(ps)| == Total(ps) + |ps| - 1
  {
    if |ps| > 1 {
      JoinLength(ps[1..]);
    } else {
      assert ps[1..] == [];
    }
  }

  lemma {:induction false} SameTotal(fs: seq<string>, ps: seq<string>)
    requires |fs| <= |ps| && forall i :: 0 <= i < |fs| ==> |fs[i]| <= |ps[i]| && (|fs[i]| == |ps[i]| ==> fs[i] == ps[i])
    ensures Total(fs) <= Total(ps)
    ensures Total(fs) == Total(ps) && |fs| == |ps| ==> fs == ps
  {
    if fs != [] {
      SameTotal(fs[1..], ps[1..]);
      if Total(fs) == Total(ps) && |fs| == |ps| {
        assert fs == [fs[0]] + fs[1..] && ps == [ps[0]] + ps[1..];
      }
    }
  }

  /** Fields that come back were not trimmed on the way. */
  lemma ComeBackUntrimmed(fs: seq<string>)
    requires RoundTrips(fs) && fs != []
    ensures Split(Join(fs), 0, false, "").pieces == fs
  {
    hide Split, Fields, Join, Trim;
    var ps := Split(Join(fs), 0, false, "").pieces;
    PiecesRebuildBody(Join(fs));
    var n := FieldsAt(ps);
    forall i | 0 <= i < |fs| ensures |fs[i]| <= |ps[i]| && (|fs[i]| == |ps[i]| ==> fs[i] == ps[i]) {
      assert fs[i] == Trim(ps[i]);
      TrimLength(ps[i]);
    }
    SameTotal(fs, ps);
    JoinLength(fs);
    JoinLength(ps);
  }

  lemma TrimLength(s: string)
    ensures |Trim(s)| <= |s| && (|Trim(s)| == |s| ==> Trim(s) == s)
  {
    TrimShorter(s);
    TrimShorter(TrimLeft(s));
  }

  /** Splitting the printed fields of any body again gives the same fields exactly when each of
      them is a single field, behind all but the last a comma cuts, and there are none or the
      last is not empty. */
  lemma RoundTripIff(body: string)
    requires Split(body, 0, false, "").Pieces?
    ensures var fs := Fields(Split(body, 0, false, "").pieces);
            RoundTrips(fs) <==> AllWhole(fs) && (fs == [] || fs[|fs| - 1] != "")
  {
    hide Through, Trim, Fields, Next, Whole, Split, Join;
    var fs := Fields(Split(body, 0, false, "").pieces);
    if fs == [] {
      assert Join(fs) == "" by { JoinNone(); }
      SplitEnd(0, false, "");
      NoFields();
    } else {
      TrimmedFields(body);
      if AllWhole(fs) {
        SplitJoined(fs);
        FieldsOfTrimmed(fs);
      }
      if RoundTrips(fs) {
        ComeBackUntrimmed(fs);
        var first := PiecesWhole(Join(fs), 0, false, "");
        assert "" + first == first;
        FirstWhole(first, fs);
        MoreWhole(fs);
        FieldsOfTrimmed(fs);
      }
    }
  }

  lemma FirstWhole(first: string, fs: seq<string>)
    requires Through(first, 0, false).At? && Through(first, 0, false).level == 0
    requires |fs| > 1 ==> !Through(first, 0, false).quoted
    ensures Whole(first) && (|fs| > 1 ==> Closed(first))
  {
  }

  lemma JoinNone()
    ensures Join([]) == ""
  {
  }

  lemma TrimmedFields(body: string)
    requires Split(body, 0, false, "").Pieces?
    ensures forall f :: f in Fields(Split(body, 0, false, "").pieces) ==> Trim(f) == f
  {
    hide Split, Trim, Fields;
    var ps := Split(body, 0, false, "").pieces;
    var n := FieldsAt(ps);
    forall i | 0 <= i < n ensures Trim(Fields(ps)[i]) == Fields(ps)[i] {
      TrimTwice(ps[i]);
    }
  }

  /** Without tabs every body has such fields. */
  lemma RoundTripIffLastNonEmpty(body: string)
    requires Split(body, 0, false, "").Pieces? && '\t' !in body
    ensures var fs := Fields(Split(body, 0, false, "").pieces);
            RoundTrips(fs) <==> fs == [] || fs[|fs| - 1] != ""
  {
    hide Split, Fields, Trim, Through, RoundTrips, AllWhole;
    FieldsWhole(body);
    RoundTripIff(body);
  }

  lemma NoFields()
    ensures Fields([""]) == []
  {
    assert [""][..0] == [];
  }

  // ---------------------------------------------------------------- what is trimmed

  /** Of the ASCII characters these six are white space; so are a few others. */
  lemma WhiteSpace(c: char)
    ensures c as int < 128 ==>
              (IsSpace(c) <==> c == ' ' || c == '\t' || c == '\n' || c == '\r' || c == 11 as char || c == 12 as char)
    ensures c == 0x85 as char || c == 0xa0 as char ==> IsSpace(c)
  {
  }

  predicate Blank(s: string) { forall i :: 0 <= i < |s| ==> IsSpace(s[i]) }

  /** A field is its piece without the white space at its ends: the piece is white space, the
      field, and white space, and the field neither starts nor ends with any. */
  lemma TrimIs(s: string) returns (before: string, behind: string)
    ensures s == before + Trim(s) + behind && Blank(before) && Blank(behind)
    ensures var t := Trim(s); t == "" || (!IsSpace(t[0]) && !IsSpace(t[|t| - 1]))
  {
    var left := TrimLeft(s);
    before := LeftBlank(s);
    behind := RightBlank(left);
    TrimRightEnds(left);
    if Trim(s) != "" {
      assert left[0] == Trim(s)[0];
      TrimLeftStarts(s);
    }
  }

  lemma {:induction false} LeftBlank(s: string) returns (before: string)
    ensures s == before + TrimLeft(s) && Blank(before)
  {
    if s != "" && IsSpace(s[0]) {
      var rest := LeftBlank(s[1..]);
      before := [s[0]] + rest;
      assert s == [s[0]] + s[1..];
    } else {
      before := "";
    }
  }

  lemma {:induction false} RightBlank(s: string) returns (behind: string)
    ensures s == TrimRight(s) + behind && Blank(behind)
  {
    if s != "" && IsSpace(s[|s| - 1]) {
      var front := s[..|s| - 1];
      var rest := RightBlank(front);
      behind := rest + [s[|s| - 1]];
      assert s == front + [s[|s| - 1]];
    } else {
      behind := "";
    }
  }

  // ---------------------------------------------------------------- SQLite's own quotes

  const NONE := '\0'

  predicate IsQuote(c: char) { c == '`' || c == '"' || c == '\'' }

  /** What closes the quote that a character opens, if it opens one. */
  function Opened(c: char): char { if IsQuote(c) then c else if c == '[' then ']' else NONE }

  /** Two dashes open a comment to the end of the line, a slash and a star one to the next star
      and slash. */
  predicate OpensComment(s: string) {
    |s| > 1 && ((s[0] == '-' && s[1] == '-') || (s[0] == '/' && s[1] == '*'))
  }

  /** The splitter as SQLite quotes: names and texts stand in one of four kinds of quotes, and
      only what closes a quote closes it. A doubled closing quote closes and opens again. In
      comments nothing is special; `closing` is then the line feed or the star. */
  function RefSplit(s: string, level: nat, closing: char, buf: string): Result {
    if s == "" then if level == 0 then Pieces([buf]) else Unbalanced
    else
      var c, rest := s[0], s[1..];
      if closing == '*' then
        if rest != "" && c == '*' && rest[0] == '/' then RefSplit(s[2..], level, NONE, buf + s[..2])
        else RefSplit(rest, level, closing, buf + [c])
      else if closing == NONE && OpensComment(s) then
        RefSplit(s[2..], level, if c == '-' then '\n' else '*', buf + s[..2])
      else if closing != NONE then RefSplit(rest, level, if c == closing then NONE else closing, buf + [c])
      else if c == '(' then RefSplit(rest, level + 1, NONE, buf + [c])
      else if c == ')' then if level == 0 then Unbalanced else RefSplit(rest, level - 1, NONE, buf + [c])
      else if c == ',' && level == 0 then Before(buf, RefSplit(rest, 0, NONE, ""))
      else RefSplit(rest, level, Opened(c), buf + [c])
  }

  /** No bar, no tab and no comment outside quotes, no other separator inside them, and nothing
      special between square brackets. */
  predicate Ordinary(s: string, closing: char) {
    if s == "" then true
    else
      var c, rest := s[0], s[1..];
      if closing == NONE then c != '|' && c != '\t' && !OpensComment(s) && Ordinary(rest, Opened(c))
      else if c == closing then Ordinary(rest, NONE)
      else !IsSeparator(c) && (closing == ']' ==> c != ',' && c != '(' && c != ')') && Ordinary(rest, closing)
  }

  lemma {:induction false} SplitIsRef(s: string, level: nat, closing: char, buf: string)
    requires Ordinary(s, closing) && (closing == NONE || IsQuote(closing) || closing == ']')
    ensures Split(s, level, IsQuote(closing), buf) == RefSplit(s, level, closing, buf)
    decreases |s|
  {
    if s != "" {
      var c, rest := s[0], s[1..];
      assert s[..1] == [c];
      if IsSeparator(c) && rest != "" && rest[0] == c {
        SplitIsRef(rest[1..], level, closing, buf + [c] + [c]);
        assert s[2..] == rest[1..] && buf + s[..2] == buf + [c] + [c];
      } else if closing != NONE {
        SplitIsRef(rest, level, if c == closing then NONE else closing, buf + [c]);
      } else if c == '(' {
        SplitIsRef(rest, level + 1, NONE, buf + [c]);
      } else if c == ')' {
        if level > 0 {
          SplitIsRef(rest, level - 1, NONE, buf + [c]);
        }
      } else if c == ',' && level == 0 {
        SplitIsRef(rest, 0, NONE, "");
      } else {
        SplitIsRef(rest, level, Opened(c), buf + [c]);
      }
    }
  }

  /** On ordinary bodies the splitter cuts where one with SQLite's quotes and comments does. */
  lemma SplitsAsQuoted(body: string)
    requires Ordinary(body, NONE)
    ensures Split(body, 0, false, "") == RefSplit(body, 0, NONE, "")
  {
    SplitIsRef(body, 0, NONE, "");
  }

  // ---------------------------------------------------------------- where it goes wrong

  /** A tab counts as a quote, and trimming takes it away. */
  lemma TabsChangeFields()
    ensures Split("\ta,b\t", 0, false, "") == Pieces(["\ta,b\t"])
    ensures Fields(["\ta,b\t"]) == ["a,b"]
    ensures Split("a,b", 0, false, "") == Pieces(["a", "b"])
  {
    var s := "\ta,b\t";
    assert s[1..] == "a,b\t" && s[1..][1..] == ",b\t" && s[1..][1..][1..] == "b\t";
    assert "b\t"[1..] == "\t" && "\t"[1..] == "";
    assert Through("\t", 0, true) == At(0, false);
    assert Through("b\t", 0, true) == At(0, false);
    assert Through(",b\t", 0, true) == At(0, false);
    assert Through("a,b\t", 0, true) == At(0, false);
    assert Closed(s);
    SplitJoined([s]);
    assert TrimLeft(s) == "a,b\t" by { assert TrimLeft("a,b\t") == "a,b\t"; }
    assert "a,b\t"[..3] == "a,b" && TrimRight("a,b") == "a,b";
    assert TrimRight("a,b\t") == "a,b";
    assert [s][..0] == [];
    Letters();
  }

  lemma Letters()
    ensures Split("a,b", 0, false, "") == Pieces(["a", "b"])
  {
    assert "a"[1..] == "" && "b"[1..] == "";
    assert Closed("a") && Closed("b");
    SplitJoined(["a", "b"]);
    assert ["a", "b"][1..] == ["b"];
    assert Join(["b"]) == "b" && "a" + "," + "b" == "a,b";
    assert Join(["a", "b"]) == "a,b";
  }

  /** Text that means nothing to the splitter of the source ... */
  predicate Unmarked(x: string) {
    forall i :: 0 <= i < |x| ==> !IsSeparator(x[i]) && x[i] != '(' && x[i] != ')' && x[i] != ','
  }

  /** ... or to either. */
  predicate Bland(x: string) {
    Unmarked(x) && forall i :: 0 <= i < |x| ==> x[i] != '[' && x[i] != ']' && x[i] != '-' && x[i] != '/'
  }

  lemma {:induction false} BlandThrough(x: string, t: string, level: nat, quoted: bool)
    requires Unmarked(x)
    ensures Through(x + t, level, quoted) == Through(t, level, quoted)
  {
    if x == "" {
      assert x + t == t;
    } else {
      assert (x + t)[0] == x[0] && (x + t)[1..] == x[1..] + t;
      BlandThrough(x[1..], t, level, quoted);
    }
  }

  lemma {:induction false} BlandRef(x: string, t: string, level: nat, closing: char, buf: string)
    requires Bland(x) && (closing == NONE || IsQuote(closing) || closing == ']')
    ensures RefSplit(x + t, level, closing, buf) == RefSplit(t, level, closing, buf + x)
  {
    if x == "" {
      assert x + t == t && buf + x == buf;
    } else {
      assert (x + t)[0] == x[0] && (x + t)[1..] == x[1..] + t;
      BlandRef(x[1..], t, level, closing, buf + [x[0]]);
      assert buf + [x[0]] + x[1..] == buf + x;
    }
  }

  lemma Toggles(q: char, t: string, level: nat, quoted: bool)
    requires IsSeparator(q) && (t == "" || t[0] != q)
    ensures Through([q] + t, level, quoted) == Through(t, level, !quoted)
  {
    assert ([q] + t)[1..] == t;
  }

  lemma OnePiece(s: string)
    requires Whole(s)
    ensures Split(s, 0, false, "") == Pieces([s])
  {
    SplitJoined([s]);
  }

  /** The bar and the tab, which nothing in SQLite quotes with, hide the commas behind them. */
  lemma BarHidesComma(bar: char, x: string, y: string, z: string)
    requires (bar == '|' || bar == '\t') && Bland(x) && Bland(y) && Bland(z)
    ensures var s := x + ([bar] + (y + ("," + z)));
            && Split(s, 0, false, "") == Pieces([s])
            && RefSplit(s, 0, NONE, "") == Pieces([x + [bar] + y, z])
  {
    hide Split;
    var end := "," + z;
    BlandThrough(x, [bar] + (y + end), 0, false);
    Toggles(bar, y + end, 0, false);
    BlandThrough(y, end, 0, true);
    CommaInQuotes(z);
    OnePiece(x + ([bar] + (y + end)));
    BlandRef(x, [bar] + (y + end), 0, NONE, "");
    RefGoesOn([bar], y + end, NONE, "" + x);
    BlandRef(y, end, 0, NONE, "" + x + [bar]);
    RefCuts(z, "" + x + [bar] + y);
    assert "" + x + [bar] + y == x + [bar] + y;
  }

  lemma CommaInQuotes(z: string)
    requires Bland(z)
    ensures Through("," + z, 0, true) == At(0, true)
  {
    assert ("," + z)[1..] == z;
    BlandThrough(z, "", 0, true);
    assert z + "" == z;
  }

  lemma RefGoesOn(c: string, t: string, closing: char, buf: string)
    requires |c| == 1 && closing != '*'
    requires closing == NONE ==> c[0] != '(' && c[0] != ')' && c[0] != ',' && c[0] != '-' && c[0] != '/'
    ensures RefSplit(c + t, 0, closing, buf) ==
            RefSplit(t, 0, if closing == NONE then Opened(c[0]) else if c[0] == closing then NONE else closing, buf + c)
  {
    assert (c + t)[0] == c[0] && (c + t)[1..] == t && [c[0]] == c;
  }

  lemma RefCuts(z: string, buf: string)
    requires Bland(z)
    ensures RefSplit("," + z, 0, NONE, buf) == Pieces([buf, z])
  {
    assert ("," + z)[1..] == z && z + "" == z && "" + z == z;
    BlandRef(z, "", 0, NONE, "");
    assert [buf] + [z] == [buf, z];
  }

  /** A quote of another kind inside quotes closes them, and what should close them opens again:
      the comma behind is hidden. */
  lemma ForeignQuoteHidesComma(q: char, other: char, x: string, y: string, z: string)
    requires IsQuote(q) && IsQuote(other) && q != other && Bland(x) && Bland(y) && Bland(z)
    ensures var s := [q] + (x + ([other] + (y + ([q] + ("," + z)))));
            && Split(s, 0, false, "") == Pieces([s])
            && RefSplit(s, 0, NONE, "") == Pieces([[q] + x + [other] + y + [q], z])
  {
    hide Split;
    var end := "," + z;
    var third := [q] + end;
    var second := [other] + (y + third);
    Toggles(q, x + second, 0, false);
    BlandThrough(x, second, 0, true);
    Toggles(other, y + third, 0, true);
    BlandThrough(y, third, 0, false);
    Toggles(q, end, 0, false);
    CommaInQuotes(z);
    OnePiece([q] + (x + second));
    RefGoesOn([q], x + second, NONE, "");
    BlandRef(x, second, 0, q, "" + [q]);
    RefGoesOn([other], y + third, q, "" + [q] + x);
    BlandRef(y, third, 0, q, "" + [q] + x + [other]);
    RefGoesOn([q], end, q, "" + [q] + x + [other] + y);
    RefCuts(z, "" + [q] + x + [other] + y + [q]);
    assert "" + [q] + x + [other] + y + [q] == [q] + x + [other] + y + [q];
  }

  lemma {:induction false} UnmarkedSplit(x: string, t: string, buf: string)
    requires Unmarked(x)
    ensures Split(x + t, 0, false, buf) == Split(t, 0, false, buf + x)
  {
    if x == "" {
      assert x + t == t && buf + x == buf;
    } else {
      assert (x + t)[0] == x[0] && (x + t)[1..] == x[1..] + t && (x + t)[..1] == [x[0]];
      UnmarkedSplit(x[1..], t, buf + [x[0]]);
      assert buf + [x[0]] + x[1..] == buf + x;
    }
  }

  /** A name in square brackets, whatever character stands in it, and text behind it are one
      field for SQLite. */
  lemma NameInBrackets(x: string, c: string, y: string, z: string)
    requires Bland(x) && Bland(y) && Bland(z) && |c| == 1 && c[0] != ']'
    ensures var s := "[" + (x + (c + (y + ("]" + z)))); RefSplit(s, 0, NONE, "") == Pieces([s])
  {
    var close := "]" + z;
    RefGoesOn("[", x + (c + (y + close)), NONE, "");
    BlandRef(x, c + (y + close), 0, ']', "" + "[");
    RefGoesOn(c, y + close, ']', "" + "[" + x);
    BlandRef(y, close, 0, ']', "" + "[" + x + c);
    RefGoesOn("]", z, ']', "" + "[" + x + c + y);
    BlandRef(z, "", 0, NONE, "" + "[" + x + c + y + "]");
    assert z + "" == z;
    assert "" + "[" + x + c + y + "]" + z == "[" + (x + (c + (y + close)));
  }

  /** The splitter knows no square brackets: a comma between them cuts the name in two. */
  lemma SquareBracketsCut(x: string, y: string, z: string)
    requires Bland(x) && Bland(y) && Bland(z)
    ensures var s := "[" + (x + ("," + (y + ("]" + z))));
            && Split(s, 0, false, "") == Pieces(["[" + x, y + ("]" + z)])
            && RefSplit(s, 0, NONE, "") == Pieces([s])
  {
    NameInBrackets(x, ",", y, z);
    hide RefSplit, Split;
    var last := y + ("]" + z);
    UnmarkedSplit("[" + x, "," + last, "");
    assert "[" + (x + ("," + last)) == ("[" + x) + ("," + last) && "" + ("[" + x) == "[" + x;
    UnmarkedCuts(last, "[" + x);
  }

  lemma UnmarkedCuts(last: string, buf: string)
    requires Unmarked(last)
    ensures Split("," + last, 0, false, buf) == Pieces([buf, last])
  {
    assert ("," + last)[1..] == last;
    UnmarkedSplit(last, "", "");
    assert last + "" == last && "" + last == last;
    assert [buf] + [last] == [buf, last];
  }

  /** A round bracket between them, of either kind, is counted, and the body refused. */
  lemma SquareBracketsRefused(c: char, x: string, y: string, z: string)
    requires (c == '(' || c == ')') && Bland(x) && Bland(y) && Bland(z)
    ensures var s := "[" + (x + ([c] + (y + ("]" + z))));
            && Split(s, 0, false, "") == Unbalanced
            && RefSplit(s, 0, NONE, "") == Pieces([s])
  {
    NameInBrackets(x, [c], y, z);
    hide RefSplit;
    var last := y + ("]" + z);
    UnmarkedSplit("[" + x, [c] + last, "");
    assert "[" + (x + ([c] + last)) == ("[" + x) + ([c] + last);
    assert ([c] + last)[1..] == last;
    if c == '(' {
      StaysOpen(last, "" + ("[" + x) + [c]);
      assert ([c] + last)[..1] == [c];
    }
  }

  lemma {:induction false} StaysOpen(x: string, buf: string)
    requires Unmarked(x)
    ensures Split(x, 1, false, buf) == Unbalanced
  {
    if x != "" {
      StaysOpen(x[1..], buf + x[..1]);
    }
  }

  /** A separator between them opens a quote, which hides the comma behind the name. */
  lemma SquareBracketsHideComma(q: char, x: string, y: string, z: string, w: string)
    requires IsSeparator(q) && Bland(x) && Bland(y) && Bland(z) && Bland(w)
    ensures var s := "[" + (x + ([q] + (y + ("]" + (z + ("," + w))))));
            && Split(s, 0, false, "") == Pieces([s])
            && RefSplit(s, 0, NONE, "") == Pieces(["[" + x + [q] + y + "]" + z, w])
  {
    hide Split;
    var end := "," + w;
    var close := "]" + (z + end);
    var s := "[" + (x + ([q] + (y + close)));
    assert s == ("[" + x) + ([q] + (y + close)) && y + close == (y + "]" + z) + end;
    BlandThrough("[" + x, [q] + (y + close), 0, false);
    Toggles(q, y + close, 0, false) by { assert y + close != "" && (y + close)[0] == (if y == "" then ']' else y[0]); }
    BlandThrough(y + "]" + z, end, 0, true);
    CommaInQuotes(w);
    OnePiece(s);
    RefGoesOn("[", x + ([q] + (y + close)), NONE, "");
    BlandRef(x, [q] + (y + close), 0, ']', "" + "[");
    RefGoesOn([q], y + close, ']', "" + "[" + x);
    BlandRef(y, close, 0, ']', "" + "[" + x + [q]);
    RefGoesOn("]", z + end, ']', "" + "[" + x + [q] + y);
    BlandRef(z, end, 0, NONE, "" + "[" + x + [q] + y + "]");
    RefCuts(w, "" + "[" + x + [q] + y + "]" + z);
    assert "" + "[" + x + [q] + y + "]" + z == "[" + x + [q] + y + "]" + z;
  }

  /** Text without stars inside a comment between slashes and stars. */
  lemma {:induction false} InComment(x: string, t: string, buf: string)
    requires '*' !in x
    ensures RefSplit(x + t, 0, '*', buf) == RefSplit(t, 0, '*', buf + x)
  {
    if x == "" {
      assert x + t == t && buf + x == buf;
    } else {
      assert (x + t)[0] == x[0] && (x + t)[1..] == x[1..] + t;
      InComment(x[1..], t, buf + [x[0]]);
      assert buf + [x[0]] + x[1..] == buf + x;
    }
  }

  /** One line inside a comment that the end of the body closes. */
  lemma {:induction false} InLineComment(x: string, buf: string)
    requires '\n' !in x
    ensures RefSplit(x, 0, '\n', buf) == Pieces([buf + x])
  {
    if x == "" {
      assert buf + x == buf;
    } else {
      InLineComment(x[1..], buf + [x[0]]);
      assert buf + [x[0]] + x[1..] == buf + x;
    }
  }

  /** Nor does the splitter know comments: a comma in one cuts the field in two. */
  lemma CommentCut(x: string, y: string, z: string, w: string)
    requires Bland(x) && Bland(w) && Unmarked(y) && Unmarked(z) && '*' !in y && '*' !in z
    ensures var s := x + ("/*" + (y + ("," + (z + ("*/" + w)))));
            && Split(s, 0, false, "") == Pieces([x + ("/*" + y), z + ("*/" + w)])
            && RefSplit(s, 0, NONE, "") == Pieces([s])
  {
    CommentIsOne(x, y, z, w);
    hide RefSplit, Split;
    var last := z + ("*/" + w);
    var front := x + ("/*" + y);
    assert x + ("/*" + (y + ("," + last))) == front + ("," + last) && "" + front == front;
    UnmarkedSplit(front, "," + last, "");
    UnmarkedCuts(last, front);
  }

  lemma CommentIsOne(x: string, y: string, z: string, w: string)
    requires Bland(x) && Bland(w) && '*' !in y && '*' !in z
    ensures var s := x + ("/*" + (y + ("," + (z + ("*/" + w))))); RefSplit(s, 0, NONE, "") == Pieces([s])
  {
    var inner := y + "," + z;
    var s := x + ("/*" + (inner + ("*/" + w)));
    assert s == x + ("/*" + (y + ("," + (z + ("*/" + w)))));
    BlandRef(x, "/*" + (inner + ("*/" + w)), 0, NONE, "");
    CommentOpens("/*", inner + ("*/" + w), "" + x);
    InComment(inner, "*/" + w, "" + x + "/*");
    CommentCloses(w, "" + x + "/*" + inner);
    BlandRef(w, "", 0, NONE, "" + x + "/*" + inner + "*/");
    assert w + "" == w && "" + x + "/*" + inner + "*/" + w == s;
  }

  lemma CommentOpens(open: string, t: string, buf: string)
    requires open == "/*" || open == "--"
    ensures RefSplit(open + t, 0, NONE, buf) == RefSplit(t, 0, if open == "--" then '\n' else '*', buf + open)
  {
    assert (open + t)[..2] == open && (open + t)[2..] == t;
    assert (open + t)[0] == open[0] && (open + t)[1] == open[1];
  }

  lemma CommentCloses(t: string, buf: string)
    ensures RefSplit("*/" + t, 0, '*', buf) == RefSplit(t, 0, NONE, buf + "*/")
  {
    var s := "*/" + t;
    assert s[..2] == "*/" && s[2..] == t && s[0] == '*' && s[1..][0] == '/';
  }

  /** The same behind two dashes. */
  lemma LineCommentCut(x: string, y: string, z: string)
    requires Bland(x) && Unmarked(y) && Unmarked(z) && '\n' !in y && '\n' !in z
    ensures var s := x + ("--" + (y + ("," + z)));
            && Split(s, 0, false, "") == Pieces([x + ("--" + y), z])
            && RefSplit(s, 0, NONE, "") == Pieces([s])
  {
    hide RefSplit, Split;
    var front, line := x + ("--" + y), y + ("," + z);
    var s := x + ("--" + line);
    assert s == front + ("," + z) && "" + front == front;
    UnmarkedSplit(front, "," + z, "");
    UnmarkedCuts(z, front);
    BlandRef(x, "--" + line, 0, NONE, "");
    CommentOpens("--", line, "" + x);
    InLineComment(line, "" + x + "--");
    assert "" + x + "--" + line == s;
  }
}
