/** What parseAllColumns of driver/sqlite/ddlmod_parse_all_columns.go refuses, and with which error:
    for each place in a list of columns the characters that may not stand there. */
module ParseErrors {
  import opened ParseAllColumns

  /** A list as far as the comma behind these items. */
  function Begun(prefix: string, items: seq<Item>): string {
    if items == [] then prefix + "("
    else Begun(prefix, items[..|items| - 1]) + ItemText(items[|items| - 1]) + ","
  }

  lemma {:induction false} RunBegun(prefix: string, items: seq<Item>, s: string) returns (q: char)
    requires '(' !in prefix && ValidItems(items)
    ensures Parse(Begun(prefix, items) + s) == Run(s, Scan(Beginning, q, "", Names(items)))
  {
    hide Run, ItemText, ValidItem;
    if items == [] {
      q := '\0';
      assert prefix + "(" + s == prefix + ("(" + s) && Names([]) == [];
      RunPrefix(prefix, "(" + s, START);
      Opens(s);
    } else {
      var rest, last := items[..|items| - 1], items[|items| - 1];
      var tail := ItemText(last) + [','] + s;
      assert Begun(prefix, items) + s == Begun(prefix, rest) + tail;
      var before := RunBegun(prefix, rest, tail);
      assert Names(items) == Names(rest) + [last.name];
      q := RunItem(last, ',', s, Scan(Beginning, before, "", Names(rest)));
    }
  }

  lemma Opens(s: string)
    ensures Run("(" + s, START) == Run(s, Scan(Beginning, '\0', "", []))
  {
    assert ("(" + s)[1..] == s;
  }

  // ---------------------------------------------------------------- unexpected tokens

  /** No name between a parenthesis or a comma and the closing parenthesis. */
  lemma NameMissing(prefix: string, items: seq<Item>, spaces: string, s: string)
    requires '(' !in prefix && ValidItems(items) && Spaces(spaces)
    ensures Parse(Begun(prefix, items) + (spaces + (")" + s))) == UnexpectedToken(')')
  {
    var q := RunBegun(prefix, items, spaces + (")" + s));
    RunSpaces(spaces, ")" + s, Scan(Beginning, q, "", Names(items)));
  }

  /** A quote inside a bare name. */
  lemma QuoteInName(prefix: string, items: seq<Item>, name: string, c: char, s: string)
    requires '(' !in prefix && ValidItems(items) && name != "" && RawFirst(name[0]) && RawRest(name[1..])
    requires c == '`' || c == '"' || c == '\''
    ensures Parse(Begun(prefix, items) + (name + ([c] + s))) == UnexpectedToken(c)
  {
    var q := RunBegun(prefix, items, name + ([c] + s));
    var sc := Scan(Beginning, q, "", Names(items));
    ReadRaw(name, [c] + s, sc);
    assert ([c] + s)[1..] == s;
  }

  lemma ReadRaw(name: string, s: string, sc: Scan)
    requires sc.state.Beginning? && sc.name == "" && name != "" && RawFirst(name[0]) && RawRest(name[1..])
    ensures Run(name + s, sc) == Run(s, sc.(state := ReadingRawName, name := name))
  {
    hide Run;
    var text := name + s;
    StartRaw(text, sc);
    assert text[1..] == name[1..] + s;
    RunRaw(name[1..], s, sc.(state := ReadingRawName, name := [name[0]]));
    assert [name[0]] + name[1..] == name;
  }

  /** Anything but a comma or the closing parenthesis behind the white space after a bare name. */
  lemma BehindBareName(prefix: string, items: seq<Item>, name: string, space: char, spaces: string, c: char, s: string)
    requires '(' !in prefix && ValidItems(items) && name != "" && RawFirst(name[0]) && RawRest(name[1..])
    requires (space == ' ' || space == '\t') && Spaces(spaces) && c != ' ' && c != '\t' && c != ',' && c != ')'
    ensures Parse(Begun(prefix, items) + (name + ([space] + (spaces + ([c] + s))))) == UnexpectedToken(c)
  {
    var tail := spaces + ([c] + s);
    var q := RunBegun(prefix, items, name + ([space] + tail));
    var sc := Scan(Beginning, q, "", Names(items));
    ReadRaw(name, [space] + tail, sc);
    assert ([space] + tail)[1..] == tail;
    RunSpaces(spaces, [c] + s, Finished(sc.(name := name), EndOfName));
  }

  /** Anything but white space, a comma or the closing parenthesis behind a closing quote that is
      not doubled. */
  lemma BehindQuotedName(prefix: string, items: seq<Item>, open: char, name: string, spaces: string, c: char, s: string)
    requires '(' !in prefix && ValidItems(items) && (IsQuote(open) || open == '[') && Spaces(spaces)
    requires c != ' ' && c != '\t' && c != ',' && c != ')' && (spaces == "" ==> c != Closing(open))
    ensures var quoted := [open] + (Doubled(name, Closing(open)) + [Closing(open)] + (spaces + ([c] + s)));
            Parse(Begun(prefix, items) + quoted) == UnexpectedToken(c)
  {
    var tail := spaces + ([c] + s);
    var quoted := [open] + (Doubled(name, Closing(open)) + [Closing(open)] + tail);
    var q := RunBegun(prefix, items, quoted);
    var sc := Scan(Beginning, q, "", Names(items));
    StartQuoted(quoted, sc);
    assert quoted[1..] == Doubled(name, Closing(open)) + [Closing(open)] + tail;
    assert tail[0] != Closing(open);
    RunQuoted(name, tail, sc.(state := ReadingQuotedName, quote := Closing(open)));
    RunSpaces(spaces, [c] + s, Finished(sc.(quote := Closing(open), name := "" + name), EndOfName));
  }

  // ---------------------------------------------------------------- an unexpected end

  lemma NeverOpened(s: string)
    requires '(' !in s
    ensures Parse(s) == UnexpectedEnd
  {
    assert s + "" == s;
    RunPrefix(s, "", START);
  }

  /** The end behind a parenthesis or a comma, in a bare name, or in a quoted one. */
  lemma Unfinished(prefix: string, items: seq<Item>, spaces: string, name: string, open: char)
    requires '(' !in prefix && ValidItems(items) && Spaces(spaces)
    requires name != "" && RawFirst(name[0]) && RawRest(name[1..]) && (IsQuote(open) || open == '[')
    ensures Parse(Begun(prefix, items) + spaces) == UnexpectedEnd
    ensures Parse(Begun(prefix, items) + name) == UnexpectedEnd
    ensures Parse(Begun(prefix, items) + [open]) == UnexpectedEnd
  {
    var q := RunBegun(prefix, items, spaces);
    assert spaces + "" == spaces && name + "" == name;
    RunSpaces(spaces, "", Scan(Beginning, q, "", Names(items)));
    q := RunBegun(prefix, items, name);
    ReadRaw(name, "", Scan(Beginning, q, "", Names(items)));
    q := RunBegun(prefix, items, [open]);
    StartQuoted([open], Scan(Beginning, q, "", Names(items)));
  }

  // ---------------------------------------------------------------- characters

  /** Any name may stand in backquotes, double or single quotes or square brackets, with blanks
      and tabs around them. */
  lemma QuotedIn(open: char, name: string, before: string, after: string)
    requires open == '`' || open == '"' || open == '\'' || open == '['
    requires forall c :: c in before || c in after ==> c == ' ' || c == '\t'
    ensures Parse(Written("", [Quoted(before, open, name, after)], "")) == Columns([name])
  {
    var items := [Quoted(before, open, name, after)];
    forall i | 0 <= i < |before| ensures before[i] in before && IsSpace(before[i]) {
    }
    forall i | 0 <= i < |after| ensures after[i] in after && IsSpace(after[i]) {
    }
    PrintedParses("", items, "");
    assert Names(items) == [name];
  }

  /** Any other characters make a bare name. */
  lemma BareName(name: string)
    requires name != "" && name[0] != '['
    requires forall c :: c in name ==>
               c != ' ' && c != '\t' && c != '`' && c != '"' && c != '\'' && c != ',' && c != ')'
    ensures Parse("(" + name + ")") == Columns([name])
  {
    var item := Raw("", name, "");
    forall i | 0 <= i < |name| ensures name[i] in name {
    }
    forall i | 0 <= i < |name[1..]| ensures name[1..][i] in name {
    }
    assert ValidItem(item);
    PrintedParses("", [item], "");
    assert Names([item]) == [name] && [item][1..] == [] && ItemText(item) == name;
    assert Written("", [item], "") == "(" + name + ")";
  }
}
