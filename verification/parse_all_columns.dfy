/** parseAllColumns of driver/sqlite/ddlmod_parse_all_columns.go: the column names in the first
    pair of parentheses of a constraint, bare or quoted in any of SQLite's four ways. */
module ParseAllColumns {

  datatype Result = Columns(names: seq<string>) | UnexpectedToken(c: char) | UnexpectedEnd

  datatype State = Outside | Beginning | ReadingRawName | ReadingQuotedName | EndOfName | End

  predicate IsSpace(c: char) { c == ' ' || c == '\t' }

  predicate IsQuote(c: char) { c == '`' || c == '"' || c == '\'' }

  predicate IsSeparator(c: char) { c == ',' }

  // ---------------------------------------------------------------- the state machine

  datatype Scan = Scan(state: State, quote: char, name: string, columns: seq<string>)

  /** The name just read becomes a column. */
  function Finished(sc: Scan, state: State): Scan {
    sc.(state := state, name := "", columns := sc.columns + [sc.name])
  }

  function Run(s: string, sc: Scan): Result
    decreases |s|
  {
    if s == "" then if sc.state.End? then Columns(sc.columns) else UnexpectedEnd
    else
      var c, rest := s[0], s[1..];
      match sc.state
      case Outside => Run(rest, if c == '(' then sc.(state := Beginning) else sc)
      case Beginning =>
        if IsSpace(c) then Run(rest, sc)
        else if IsQuote(c) then Run(rest, sc.(state := ReadingQuotedName, quote := c))
        else if c == '[' then Run(rest, sc.(state := ReadingQuotedName, quote := ']'))
        else if c == ')' then UnexpectedToken(c)
        else Run(rest, sc.(state := ReadingRawName, name := sc.name + [c]))
      case ReadingRawName =>
        if IsSeparator(c) then Run(rest, Finished(sc, Beginning))
        else if c == ')' then Run(rest, Finished(sc, End))
        else if IsQuote(c) then UnexpectedToken(c)
        else if IsSpace(c) then Run(rest, Finished(sc, EndOfName))
        else Run(rest, sc.(name := sc.name + [c]))
      case ReadingQuotedName =>
        if c == sc.quote then
          if rest != "" && rest[0] == sc.quote then Run(rest[1..], sc.(name := sc.name + [c]))
          else Run(rest, Finished(sc, EndOfName))
        else Run(rest, sc.(name := sc.name + [c]))
      case EndOfName =>
        if IsSpace(c) then Run(rest, sc)
        else if IsSeparator(c) then Run(rest, sc.(state := Beginning))
        else if c == ')' then Run(rest, sc.(state := End))
        else UnexpectedToken(c)
      case End => Run(rest, sc)
  }

  const START := Scan(Outside, '\0', "", [])

  function Parse(s: string): Result { Run(s, START) }

  method ParseAllColumns(s: string) returns (r: Result)
    ensures r == Parse(s)
  {
    var columns: seq<string>, state, quote, name := [], Outside, '\0', "";
    var i := 0;
    while i < |s|
      invariant 0 <= i <= |s|
      invariant Parse(s) == Run(s[i..], Scan(state, quote, name, columns))
             || (state.End? && Parse(s) == Columns(columns))
    {
      assert s[i..][0] == s[i] && s[i..][1..] == s[i + 1..];
      if state.End? {
        AtEnd(s[i..], Scan(state, quote, name, columns));
      }
      match state {
        case Outside =>
          if s[i] == '(' {
            state := Beginning;
          }
        case Beginning =>
          if !IsSpace(s[i]) {
            if IsQuote(s[i]) {
              state := ReadingQuotedName;
              quote := s[i];
            } else if s[i] == '[' {
              state := ReadingQuotedName;
              quote := ']';
            } else if s[i] == ')' {
              return UnexpectedToken(s[i]);
            } else {
              state := ReadingRawName;
              name := name + [s[i]];
            }
          }
        case ReadingRawName =>
          if IsSeparator(s[i]) {
            state := Beginning;
            columns := columns + [name];
            name := "";
          } else {
            if s[i] == ')' {
              state := End;
              columns := columns + [name];
              AtEnd(s[i + 1..], Scan(End, quote, "", columns));
            }
            if IsQuote(s[i]) {
              return UnexpectedToken(s[i]);
            }
            if IsSpace(s[i]) {
              state := EndOfName;
              columns := columns + [name];
              name := "";
            } else {
              name := name + [s[i]];
            }
          }
        case ReadingQuotedName =>
          if s[i] == quote {
            if i + 1 < |s| && s[i + 1] == quote {
              name := name + [quote];
              i := i + 1;
              assert s[i..][1..] == s[i + 1..];
            } else {
              state := EndOfName;
              columns := columns + [name];
              name := "";
            }
          } else {
            name := name + [s[i]];
          }
        case EndOfName =>
          if !IsSpace(s[i]) {
            if IsSeparator(s[i]) {
              state := Beginning;
            } else if s[i] == ')' {
              state := End;
            } else {
              return UnexpectedToken(s[i]);
            }
          }
        case End =>
      }
      i := i + 1;
    }
    if state != End {
      return UnexpectedEnd;
    }
    r := Columns(columns);
  }

  /** Whatever follows the closing parenthesis is ignored. */
  lemma {:induction false} AtEnd(s: string, sc: Scan)
    requires sc.state.End?
    ensures Run(s, sc) == Columns(sc.columns)
  {
    if s != "" {
      AtEnd(s[1..], sc);
    }
  }

  // ---------------------------------------------------------------- the notation

  /** A column as it may be written, with the white space around it. */
  datatype Item = Raw(before: string, name: string, after: string)
                | Quoted(before: string, open: char, name: string, after: string)

  function Closing(open: char): char { if open == '[' then ']' else open }

  /** The closing quote inside a name is written twice. */
  function Doubled(name: string, q: char): string {
    if name == "" then ""
    else (if name[0] == q then [q, q] else [name[0]]) + Doubled(name[1..], q)
  }

  predicate Spaces(s: string) { forall i :: 0 <= i < |s| ==> IsSpace(s[i]) }

  /** What a bare name may start with, and go on with. */
  predicate RawFirst(c: char) { !IsSpace(c) && !IsQuote(c) && c != '[' && c != ')' }

  predicate RawRest(s: string) {
    forall i :: 0 <= i < |s| ==> !IsSpace(s[i]) && !IsQuote(s[i]) && !IsSeparator(s[i]) && s[i] != ')'
  }

  predicate ValidItem(item: Item) {
    && Spaces(item.before) && Spaces(item.after)
    && match item
       case Raw(_, name, _) => name != "" && RawFirst(name[0]) && RawRest(name[1..])
       case Quoted(_, open, _, _) => IsQuote(open) || open == '['
  }

  predicate ValidItems(items: seq<Item>) { forall i :: 0 <= i < |items| ==> ValidItem(items[i]) }

  function Body(item: Item): string {
    match item
    case Raw(_, name, _) => name
    case Quoted(_, open, name, _) => [open] + Doubled(name, Closing(open)) + [Closing(open)]
  }

  function ItemText(item: Item): string { item.before + Body(item) + item.after }

  /** The items after the first, the closing parenthesis, and what follows it. */
  function Rest(items: seq<Item>, suffix: string): string {
    if items == [] then ")" + suffix else "," + ItemText(items[0]) + Rest(items[1..], suffix)
  }

  function Names(items: seq<Item>): seq<string> { seq(|items|, i requires 0 <= i < |items| => items[i].name) }

  /** `prefix (item, ..., item) suffix` */
  function Written(prefix: string, items: seq<Item>, suffix: string): string
    requires items != []
  {
    prefix + "(" + ItemText(items[0]) + Rest(items[1..], suffix)
  }

  // ---------------------------------------------------------------- printing, then parsing

  lemma {:induction false} RunPrefix(prefix: string, s: string, sc: Scan)
    requires sc.state.Outside? && '(' !in prefix
    ensures Run(prefix + s, sc) == Run(s, sc)
  {
    if prefix == "" {
      assert prefix + s == s;
    } else {
      assert (prefix + s)[1..] == prefix[1..] + s;
      RunPrefix(prefix[1..], s, sc);
    }
  }

  lemma {:induction false} RunSpaces(spaces: string, s: string, sc: Scan)
    requires (sc.state.Beginning? || sc.state.EndOfName?) && Spaces(spaces)
    ensures Run(spaces + s, sc) == Run(s, sc)
  {
    if spaces == "" {
      assert spaces + s == s;
    } else {
      assert (spaces + s)[1..] == spaces[1..] + s;
      RunSpaces(spaces[1..], s, sc);
    }
  }

  lemma {:induction false} RunRaw(name: string, s: string, sc: Scan)
    requires sc.state.ReadingRawName? && RawRest(name)
    ensures Run(name + s, sc) == Run(s, sc.(name := sc.name + name))
  {
    if name == "" {
      assert name + s == s && sc.name + name == sc.name;
    } else {
      assert (name + s)[1..] == name[1..] + s;
      RunRaw(name[1..], s, sc.(name := sc.name + [name[0]]));
      assert sc.name + [name[0]] + name[1..] == sc.name + name;
    }
  }

  lemma {:induction false} RunQuoted(name: string, s: string, sc: Scan)
    requires sc.state.ReadingQuotedName? && (s == "" || s[0] != sc.quote)
    ensures Run(Doubled(name, sc.quote) + [sc.quote] + s, sc) ==
            Run(s, Finished(sc.(name := sc.name + name), EndOfName))
  {
    var q := sc.quote;
    if name == "" {
      assert sc.name + name == sc.name;
      var t := Doubled(name, q) + [q] + s;
      assert t == [q] + s && t[1..] == s;
    } else {
      var c, next := name[0], sc.(name := sc.name + [name[0]]);
      RunQuoted(name[1..], s, next);
      assert sc.name + [c] + name[1..] == sc.name + name;
      var tail := Doubled(name[1..], q) + [q] + s;
      var t := Doubled(name, q) + [q] + s;
      if c == q {
        assert t == [q, q] + tail && t[1..][1..] == tail;
      } else {
        assert t == [c] + tail && t[1..] == tail;
      }
    }
  }

  /** The end of an item: white space, and then a comma or the closing parenthesis. */
  lemma {:induction false} RunAfter(after: string, d: char, s: string, sc: Scan)
    requires (sc.state.EndOfName? || sc.state.ReadingRawName?) && Spaces(after) && (d == ',' || d == ')')
    ensures Run(after + [d] + s, sc) ==
            Run(s, (if sc.state.EndOfName? then sc.(state := if d == ',' then Beginning else End)
                    else Finished(sc, if d == ',' then Beginning else End)))
    decreases if sc.state.EndOfName? then 0 else 1
  {
    hide Run;
    var t := after + [d] + s;
    if sc.state.EndOfName? {
      Regroup(after, [d], s, "");
      RunSpaces(after, [d] + s, sc);
      RunDelimiter(d, s, sc);
    } else {
      assert t[0] == if after == "" then d else after[0];
      SameAtEnd(t, sc);
      RunAfter(after, d, s, Finished(sc, EndOfName));
    }
  }

  lemma RunDelimiter(d: char, s: string, sc: Scan)
    requires sc.state.EndOfName? && (d == ',' || d == ')')
    ensures Run([d] + s, sc) == Run(s, sc.(state := if d == ',' then Beginning else End))
  {
    assert ([d] + s)[1..] == s;
  }

  lemma RunRawItem(name: string, after: string, d: char, s: string, sc: Scan)
    requires sc.state.Beginning? && sc.name == "" && Spaces(after) && (d == ',' || d == ')')
    requires name != "" && RawFirst(name[0]) && RawRest(name[1..])
    ensures Run(name + (after + [d] + s), sc) ==
            Run(s, Scan(if d == ',' then Beginning else End, sc.quote, "", sc.columns + [name]))
  {
    hide Run;
    var end := after + [d] + s;
    var text := name + end;
    StartRaw(text, sc);
    assert text[1..] == name[1..] + end;
    var started := sc.(state := ReadingRawName, name := [name[0]]);
    RunRaw(name[1..], end, started);
    assert [name[0]] + name[1..] == name;
    RunAfter(after, d, s, started.(name := name));
  }

  lemma RunQuotedItem(open: char, name: string, after: string, d: char, s: string, sc: Scan)
    requires sc.state.Beginning? && sc.name == "" && Spaces(after) && (d == ',' || d == ')')
    requires IsQuote(open) || open == '['
    ensures var quote := Closing(open);
            Run([open] + (Doubled(name, quote) + [quote] + (after + [d] + s)), sc) ==
            Run(s, Scan(if d == ',' then Beginning else End, quote, "", sc.columns + [name]))
  {
    hide Run, Doubled;
    var quote, end := Closing(open), after + [d] + s;
    var inner := Doubled(name, quote) + [quote] + end;
    var text := [open] + inner;
    assert text[0] == open && text[1..] == inner;
    StartQuoted(text, sc);
    var started := sc.(state := ReadingQuotedName, quote := quote);
    EndIsNoQuote(after, d, s, quote);
    RunQuoted(name, end, started);
    assert sc.name + name == name;
    RunAfter(after, d, s, Finished(started.(name := name), EndOfName));
  }

  lemma Regroup(a: string, b: string, c: string, d: string)
    ensures a + b + c + d == a + (b + c + d) && a + b + c == a + (b + c)
  {
  }

  lemma RunItem(item: Item, d: char, s: string, sc: Scan) returns (quote: char)
    requires sc.state.Beginning? && sc.name == "" && ValidItem(item) && (d == ',' || d == ')')
    ensures Run(ItemText(item) + [d] + s, sc) ==
            Run(s, Scan(if d == ',' then Beginning else End, quote, "", sc.columns + [item.name]))
  {
    hide Run, Doubled;
    var end := item.after + [d] + s;
    ItemThen(item, [d], s);
    RunSpaces(item.before, Body(item) + end, sc);
    match item
    case Raw(_, name, after) =>
      quote := sc.quote;
      RunRawItem(name, after, d, s, sc);
    case Quoted(_, open, name, after) =>
      quote := Closing(open);
      Regroup([open], Doubled(name, quote), [quote], end);
      RunQuotedItem(open, name, after, d, s, sc);
  }

  lemma ItemThen(item: Item, d: string, s: string)
    ensures ItemText(item) + d + s == item.before + (Body(item) + (item.after + d + s))
  {
    hide Body;
    var b := Body(item);
    Regroup(item.before + b, item.after, d, s);
    Regroup(item.before, b, item.after + d + s, "");
  }

  lemma EndIsNoQuote(after: string, d: char, s: string, quote: char)
    requires Spaces(after) && (d == ',' || d == ')') && (IsQuote(quote) || quote == ']')
    ensures (after + [d] + s)[0] != quote
  {
  }

  lemma StartRaw(s: string, sc: Scan)
    requires s != "" && sc.state.Beginning? && sc.name == "" && RawFirst(s[0])
    ensures Run(s, sc) == Run(s[1..], sc.(state := ReadingRawName, name := [s[0]]))
  {
    assert [] + [s[0]] == [s[0]];
  }

  lemma StartQuoted(s: string, sc: Scan)
    requires s != "" && sc.state.Beginning? && (IsQuote(s[0]) || s[0] == '[')
    ensures Run(s, sc) == Run(s[1..], sc.(state := ReadingQuotedName, quote := Closing(s[0])))
  {
  }

  lemma {:induction false} RunItems(items: seq<Item>, suffix: string, sc: Scan)
    requires sc.state.Beginning? && sc.name == "" && items != [] && ValidItems(items)
    ensures Run(ItemText(items[0]) + Rest(items[1..], suffix), sc) == Columns(sc.columns + Names(items))
    decreases |items|
  {
    hide Run, ItemText, ValidItem;
    var first := ItemText(items[0]);
    if |items| == 1 {
      assert first + Rest(items[1..], suffix) == first + [')'] + suffix;
      var q := RunItem(items[0], ')', suffix, sc);
      AtEnd(suffix, Scan(End, q, "", sc.columns + [items[0].name]));
      assert Names(items) == [items[0].name];
    } else {
      var rest := items[1..];
      var tail := ItemText(rest[0]) + Rest(rest[1..], suffix);
      assert first + Rest(rest, suffix) == first + [','] + tail;
      var q := RunItem(items[0], ',', tail, sc);
      RunItems(rest, suffix, Scan(Beginning, q, "", sc.columns + [items[0].name]));
      assert Names(items) == [items[0].name] + Names(rest);
      assert sc.columns + [items[0].name] + Names(rest) == sc.columns + ([items[0].name] + Names(rest));
    }
  }

  /** Every written list comes back exactly. */
  lemma PrintedParses(prefix: string, items: seq<Item>, suffix: string)
    requires '(' !in prefix && items != [] && ValidItems(items)
    ensures Parse(Written(prefix, items, suffix)) == Columns(Names(items))
  {
    var s := ItemText(items[0]) + Rest(items[1..], suffix);
    assert Written(prefix, items, suffix) == prefix + ("(" + s);
    RunPrefix(prefix, "(" + s, START);
    assert ("(" + s)[1..] == s;
    RunItems(items, suffix, START.(state := Beginning));
    assert [] + Names(items) == Names(items);
  }

  // ---------------------------------------------------------------- parsing, then printing

  lemma {:induction false} FromOutside(s: string, sc: Scan) returns (prefix: string, rest: string)
    requires sc.state.Outside? && Run(s, sc).Columns?
    ensures '(' !in prefix && s == prefix + "(" + rest
    ensures Run(rest, sc.(state := Beginning)) == Run(s, sc)
  {
    if s[0] == '(' {
      prefix, rest := "", s[1..];
    } else {
      prefix, rest := FromOutside(s[1..], sc);
      prefix := [s[0]] + prefix;
    }
  }

  /** What a successful run still has to read, for each state it may be in: at the beginning of
      an item, ... */
  lemma {:induction false} FromBeginning(s: string, sc: Scan) returns (items: seq<Item>, suffix: string)
    requires sc.state.Beginning? && sc.name == "" && Run(s, sc).Columns?
    ensures items != [] && ValidItems(items)
    ensures s == ItemText(items[0]) + Rest(items[1..], suffix)
    ensures Run(s, sc) == Columns(sc.columns + Names(items))
    decreases |s|, 1
  {
    hide Run, ItemText, Rest, Doubled, ValidItems;
    assert s != "" by { NotYet(sc); }
    var c, rest := s[0], s[1..];
    assert s == [c] + rest;
    if IsSpace(c) {
      SkipSpace(s, sc);
      var found;
      found, suffix := FromBeginning(rest, sc);
      items := Wider(c, found, suffix);
    } else if IsQuote(c) || c == '[' {
      StartQuoted(s, sc);
      var name, after, more, suf := FromQuoted(rest, sc.(state := ReadingQuotedName, quote := Closing(c)));
      assert sc.name + name == name;
      suffix := suf;
      items := QuotedFirst(c, name, after, more, suf, sc.columns);
    } else {
      NoItem(s, sc);
      StartRaw(s, sc);
      var name, after, more, suf := FromRaw(rest, sc.(state := ReadingRawName, name := [c]));
      suffix := suf;
      items := RawFirstItem(c, name, after, more, suf, sc.columns);
    }
  }

  lemma NotYet(sc: Scan)
    requires !sc.state.End?
    ensures Run("", sc) == UnexpectedEnd
  {
  }

  lemma SkipSpace(s: string, sc: Scan)
    requires s != "" && (sc.state.Beginning? || sc.state.EndOfName?) && IsSpace(s[0])
    ensures Run(s, sc) == Run(s[1..], sc)
  {
  }

  lemma NoItem(s: string, sc: Scan)
    requires s != "" && sc.state.Beginning? && Run(s, sc).Columns?
    ensures s[0] != ')'
  {
  }

  /** One more space before the first item. */
  lemma Wider(c: char, items: seq<Item>, suffix: string) returns (r: seq<Item>)
    requires items != [] && ValidItems(items) && IsSpace(c)
    ensures r != [] && ValidItems(r) && Names(r) == Names(items)
    ensures ItemText(r[0]) + Rest(r[1..], suffix) == [c] + (ItemText(items[0]) + Rest(items[1..], suffix))
  {
    hide Rest;
    var first := items[0].(before := [c] + items[0].before);
    r := [first] + items[1..];
    assert r[1..] == items[1..] && ValidItem(first) by { assert ValidItem(items[0]); }
    Regroup([c], items[0].before, Body(first), first.after);
    assert ItemText(first) == [c] + ItemText(items[0]);
    Regroup([c], ItemText(items[0]), Rest(items[1..], suffix), "");
  }

  lemma Listed(item: Item, more: seq<Item>, columns: seq<string>) returns (items: seq<Item>)
    requires ValidItem(item) && ValidItems(more)
    ensures items == [item] + more && items[0] == item && items[1..] == more
    ensures ValidItems(items)
    ensures columns + [item.name] + Names(more) == columns + Names(items)
  {
    items := [item] + more;
    assert Names(items) == [item.name] + Names(more);
  }

  lemma NothingBefore(s: string)
    ensures "" + s == s
  {
  }

  lemma QuotedFirst(c: char, name: string, after: string, more: seq<Item>, suffix: string, columns: seq<string>)
    returns (items: seq<Item>)
    requires (IsQuote(c) || c == '[') && Spaces(after) && ValidItems(more)
    ensures items != [] && ValidItems(items) && columns + [name] + Names(more) == columns + Names(items)
    ensures [c] + (Doubled(name, Closing(c)) + [Closing(c)] + after + Rest(more, suffix)) ==
            ItemText(items[0]) + Rest(items[1..], suffix)
  {
    hide Rest, Doubled, Names;
    items := Listed(Quoted("", c, name, after), more, columns);
    var d, q, tail := Doubled(name, Closing(c)), [Closing(c)], Rest(more, suffix);
    Regroup([c], d, q, after);
    Regroup([c], d + q + after, tail, "");
    NothingBefore([c] + d + q);
  }

  lemma RawFirstItem(c: char, name: string, after: string, more: seq<Item>, suffix: string, columns: seq<string>)
    returns (items: seq<Item>)
    requires RawFirst(c) && RawRest(name) && Spaces(after) && ValidItems(more)
    ensures items != [] && ValidItems(items) && columns + [[c] + name] + Names(more) == columns + Names(items)
    ensures [c] + (name + after + Rest(more, suffix)) == ItemText(items[0]) + Rest(items[1..], suffix)
  {
    hide Rest, Names;
    var item := Raw("", [c] + name, after);
    assert item.name[1..] == name;
    items := Listed(item, more, columns);
    var tail := Rest(more, suffix);
    assert ItemText(item) == "" + ([c] + name) + after;
    assert [c] + (name + after + tail) == [c] + name + after + tail;
  }

  /** ... inside a bare name, ... */
  lemma {:induction false} FromRaw(s: string, sc: Scan)
    returns (name: string, after: string, items: seq<Item>, suffix: string)
    requires sc.state.ReadingRawName? && Run(s, sc).Columns?
    ensures RawRest(name) && Spaces(after) && ValidItems(items)
    ensures s == name + after + Rest(items, suffix)
    ensures Run(s, sc) == Columns(sc.columns + [sc.name + name] + Names(items))
    decreases |s|, 1
  {
    hide Run, Rest, ValidItems, Names;
    assert s != "" by { NotYet(sc); }
    var c, rest := s[0], s[1..];
    assert s == [c] + rest;
    if IsSeparator(c) || c == ')' || IsSpace(c) {
      name := "";
      assert sc.name + name == sc.name;
      SameAtEnd(s, sc);
      after, items, suffix := FromEnd(s, Finished(sc, EndOfName));
      assert name + after == after;
    } else {
      MoreRaw(s, sc);
      var n;
      n, after, items, suffix := FromRaw(rest, sc.(name := sc.name + [c]));
      Regroup(sc.name, [c], n, "");
      name := [c] + n;
      Regroup([c], n, after, Rest(items, suffix));
    }
  }

  /** At the end of a bare name the run goes on as at the end of any name. */
  lemma SameAtEnd(s: string, sc: Scan)
    requires sc.state.ReadingRawName? && s != "" && (IsSeparator(s[0]) || s[0] == ')' || IsSpace(s[0]))
    ensures Run(s, sc) == Run(s, Finished(sc, EndOfName))
  {
  }

  lemma MoreRaw(s: string, sc: Scan)
    requires sc.state.ReadingRawName? && s != "" && !(IsSeparator(s[0]) || s[0] == ')' || IsSpace(s[0]))
    requires Run(s, sc).Columns?
    ensures !IsQuote(s[0]) && Run(s, sc) == Run(s[1..], sc.(name := sc.name + [s[0]]))
  {
  }

  /** ... inside a quoted name, ... */
  lemma {:induction false} FromQuoted(s: string, sc: Scan)
    returns (name: string, after: string, items: seq<Item>, suffix: string)
    requires sc.state.ReadingQuotedName? && Run(s, sc).Columns?
    ensures Spaces(after) && ValidItems(items)
    ensures s == Doubled(name, sc.quote) + [sc.quote] + after + Rest(items, suffix)
    ensures Run(s, sc) == Columns(sc.columns + [sc.name + name] + Names(items))
    decreases |s|, 1
  {
    hide Run, Rest, ValidItems, Names, Spaces, Doubled;
    assert s != "" by { NotYet(sc); }
    var c, rest := s[0], s[1..];
    if c == sc.quote && !(rest != "" && rest[0] == sc.quote) {
      name := "";
      assert sc.name + name == sc.name;
      EndQuoted(s, sc);
      after, items, suffix := FromEnd(rest, Finished(sc, EndOfName));
      DoubledNone(s, sc.quote, after, Rest(items, suffix));
    } else {
      var used := if c == sc.quote then rest[1..] else rest;
      MoreQuoted(s, sc, used);
      var n;
      n, after, items, suffix := FromQuoted(used, sc.(name := sc.name + [c]));
      name := [c] + n;
      Regroup(sc.name, [c], n, "");
      DoubledMore(s, sc.quote, used, n, after, Rest(items, suffix));
    }
  }

  lemma EndQuoted(s: string, sc: Scan)
    requires s != "" && sc.state.ReadingQuotedName? && s[0] == sc.quote && !(|s| > 1 && s[1] == sc.quote)
    ensures Run(s, sc) == Run(s[1..], Finished(sc, EndOfName))
  {
  }

  lemma MoreQuoted(s: string, sc: Scan, used: string)
    requires s != "" && sc.state.ReadingQuotedName? && (s[0] == sc.quote ==> |s| > 1 && s[1] == sc.quote)
    requires used == if s[0] == sc.quote then s[1..][1..] else s[1..]
    ensures Run(s, sc) == Run(used, sc.(name := sc.name + [s[0]]))
  {
  }

  lemma DoubledNone(s: string, q: char, after: string, tail: string)
    requires s != "" && s[0] == q && s[1..] == after + tail
    ensures s == Doubled("", q) + [q] + after + tail
  {
    assert s == [q] + s[1..];
  }

  lemma DoubledMore(s: string, q: char, used: string, n: string, after: string, tail: string)
    requires s != "" && (s[0] == q ==> |s| > 1 && s[1] == q)
    requires used == if s[0] == q then s[1..][1..] else s[1..]
    requires used == Doubled(n, q) + [q] + after + tail
    ensures s == Doubled([s[0]] + n, q) + [q] + after + tail
  {
    var c := s[0];
    var once := if c == q then [q, q] else [c];
    assert ([c] + n)[1..] == n;
    assert Doubled([c] + n, q) == once + Doubled(n, q);
    assert s == once + used;
    Regroup(once, Doubled(n, q), [q], after);
    Regroup(once, Doubled(n, q) + [q] + after, tail, "");
  }

  /** ... and behind a name. */
  lemma {:induction false} FromEnd(s: string, sc: Scan) returns (after: string, items: seq<Item>, suffix: string)
    requires sc.state.EndOfName? && sc.name == "" && Run(s, sc).Columns?
    ensures Spaces(after) && ValidItems(items)
    ensures s == after + Rest(items, suffix)
    ensures Run(s, sc) == Columns(sc.columns + Names(items))
    decreases |s|, 0
  {
    hide Run, ItemText, Names, ValidItems;
    assert s != "" by { NotYet(sc); }
    var c, rest := s[0], s[1..];
    assert s == [c] + rest;
    if IsSpace(c) {
      SkipSpace(s, sc);
      var more;
      more, items, suffix := FromEnd(rest, sc);
      after := [c] + more;
      Regroup([c], more, Rest(items, suffix), "");
    } else if IsSeparator(c) {
      after := "";
      Separated(s, sc);
      items, suffix := FromBeginning(rest, sc.(state := Beginning));
      Regroup(",", ItemText(items[0]), Rest(items[1..], suffix), "");
      assert after + Rest(items, suffix) == Rest(items, suffix);
    } else {
      after, items, suffix := "", [], rest;
      Closed(s, sc);
      assert after + Rest(items, suffix) == Rest(items, suffix);
      NoNames(sc.columns);
    }
  }

  lemma Separated(s: string, sc: Scan)
    requires s != "" && sc.state.EndOfName? && IsSeparator(s[0])
    ensures Run(s, sc) == Run(s[1..], sc.(state := Beginning))
  {
  }

  lemma Closed(s: string, sc: Scan)
    requires s != "" && sc.state.EndOfName? && !IsSeparator(s[0]) && !IsSpace(s[0]) && Run(s, sc).Columns?
    ensures s[0] == ')' && Run(s, sc) == Columns(sc.columns)
  {
    AtEnd(s[1..], sc.(state := End));
  }

  lemma NoNames(columns: seq<string>)
    ensures ValidItems([]) && columns + Names([]) == columns
  {
  }

  // ---------------------------------------------------------------- main result

  /** The parser accepts exactly the written lists and returns exactly their names. */
  lemma ParsesExactlyTheWritten(s: string, names: seq<string>)
    ensures Parse(s) == Columns(names) <==>
            exists prefix, items, suffix ::
              && '(' !in prefix && items != [] && ValidItems(items)
              && s == Written(prefix, items, suffix) && names == Names(items)
  {
    hide Run;
    if Parse(s) == Columns(names) {
      var prefix, rest := FromOutside(s, START);
      var items, suffix := FromBeginning(rest, START.(state := Beginning));
      assert s == Written(prefix, items, suffix);
      assert [] + Names(items) == Names(items);
    }
    if prefix, items, suffix :|
      && '(' !in prefix && items != [] && ValidItems(items)
      && s == Written(prefix, items, suffix) && names == Names(items)
    {
      PrintedParses(prefix, items, suffix);
    }
  }

  /** Any name at all can be written in quotes. */
  lemma AnyNamesSurviveQuoting(prefix: string, names: seq<string>, open: char, suffix: string)
    requires '(' !in prefix && names != [] && (IsQuote(open) || open == '[')
    ensures var items := seq(|names|, i requires 0 <= i < |names| => Quoted("", open, names[i], ""));
            Parse(Written(prefix, items, suffix)) == Columns(names)
  {
    var items := seq(|names|, i requires 0 <= i < |names| => Quoted("", open, names[i], ""));
    PrintedParses(prefix, items, suffix);
    assert Names(items) == names;
  }
}
