/**
  modify_auto_conf: read the settings file, update the settings, print them again. Values are
  printed as they are, so reading the file back gives the same settings exactly when no value
  contains a quote, a backslash or a newline.
 */
module AutoConf {
  import opened ConfRules
  import opened ConfDfa
  import opened ConfTokens
  import opened ConfQuote
  import opened ConfLines
  import opened ConfParser
  import opened ConfPerLine
  import opened ConfSetting
  import opened KeyValues

  function Header1(): string { "# Do not edit this file manually!" }

  function Header2(): string { "# It will be overwritten" + " by the ALTER SYSTEM command." }

  function Raw(v: string): string { "'" + v + "'" }

  function LineText(item: Item): string { item.key + " = " + Raw(item.value) }

  function Body(cells: seq<Item>): string {
    if cells == [] then [] else LineText(cells[0]) + "\n" + Body(cells[1..])
  }

  function Print(cells: seq<Item>): string { Header1() + "\n" + Header2() + "\n" + Body(cells) }

  // The settings a file stands for: later settings of a name replace earlier ones.
  function Settings(file: string): seq<Item> { PutAll([], ParseText(file, 1, 0).settings) }

  // The new contents of the file.
  method ModifyAutoConf(file: string, items: KeyValueList) returns (written: string)
    requires NulFree(file)
    ensures written == Print(PutAll(Settings(file), items.cells))
  {
    hide ParseText, PutAll, Header1, Header2;
    var config := new KeyValueList();
    var ok, settings, errors := ProcessConfigFile(file, config);
    var i := 0;
    PutAllNothing(config.cells);
    while i < |items.cells|
      invariant 0 <= i <= |items.cells|
      invariant config.cells == PutAll(Settings(file), items.cells[..i])
    {
      config.Set(true, items.cells[i].key, items.cells[i].value);
      PutAllSnoc(Settings(file), items.cells[..i], items.cells[i]);
      assert items.cells[..i + 1] == items.cells[..i] + [items.cells[i]];
      i := i + 1;
    }
    assert items.cells[..i] == items.cells;
    written := Header1() + "\n" + Header2() + "\n";
    i := 0;
    while i < |config.cells|
      invariant 0 <= i <= |config.cells|
      invariant Print(config.cells) == written + Body(config.cells[i..])
    {
      written := written + (config.cells[i].key + " = " + Raw(config.cells[i].value) + "\n");
      i := i + 1;
    }
  }

  lemma PutAllNothing(cells: seq<Item>)
    ensures PutAll(cells, []) == cells
  {
  }

  // ---- One line ----

  predicate Special(c: char) { c == '\'' || c == '\\' || c == '\n' }

  predicate Clean(v: string) { forall i :: 0 <= i < |v| ==> !Special(v[i]) }

  predicate AllClean(cells: seq<Item>) { forall c :: c in cells ==> Clean(c.value) }

  // The states inside words and numbers accept no special character.
  lemma {:induction false} WordsAreClean(s: int, t: string)
    requires 9 <= s <= 12 || s == 14 || 20 <= s <= 40
    requires NulFree(t) && !Clean(t)
    decreases |t|
    ensures Run(s, t) == 40
  {
    if Special(t[0]) {
      WordStep(s, t[0]);
      JamStays(t[1..]);
    } else {
      WordStep(s, t[0]);
      assert forall i :: 1 <= i < |t| ==> t[i] == t[1..][i - 1];
      WordsAreClean(Step(s, t[0]), t[1..]);
    }
  }

  lemma WordStep(s: int, c: char)
    requires 9 <= s <= 12 || s == 14 || 20 <= s <= 40
    requires c != '\0'
    ensures var r := Step(s, c); 9 <= r <= 12 || r == 14 || 20 <= r <= 40
    ensures Special(c) ==> Step(s, c) == 40
  {
  }

  // A token that is a value but not a quoted string has no special characters.
  lemma UnquotedIsClean(x: string)
    requires NulFree(x) && ValueRule(RuleOf(x)) && RuleOf(x) != 6
    ensures Clean(x)
  {
    FirstOfWord(x);
    TablesDecideRules(x);
    hide RuleOf, Step, NulFree;
    if !Clean(x) {
      assert forall i :: 1 <= i < |x| ==> x[i] == x[1..][i - 1];
      NulFreeConcat([x[0]], x[1..]);
      assert x == [x[0]] + x[1..];
      WordsAreClean(Step(1, x[0]), x[1..]);
    }
  }

  lemma FirstOfWord(x: string)
    requires NulFree(x) && ValueRule(RuleOf(x)) && RuleOf(x) != 6
    ensures x != [] && !Special(x[0])
    ensures var s := Step(1, x[0]); 9 <= s <= 12 || s == 14
  {
  }

  // Unescaping that takes nothing away has found nothing to unescape.
  lemma {:induction false} NothingUnescaped(t: string)
    requires Closed(t) && |Unescape(t)| == |t| - 1
    decreases |t|
    ensures forall i :: 0 <= i < |t| - 1 ==> t[i] != '\'' && t[i] != '\\'
    ensures Unescape(t) == t[..|t| - 1]
  {
    if |t| > 1 {
      UnescapeUnfolds(t);
      var n := Width(t);
      assert |Unescape(t[n..])| < |t[n..]|;
      assert n == 1;
      ClosedShape(t);
      NothingUnescaped(t[1..]);
      assert forall i :: 1 <= i < |t| ==> t[i] == t[1..][i - 1];
    }
  }

  lemma {:induction false} UntilNulIsPrefix(s: string)
    ensures |UntilNul(s)| <= |s| && UntilNul(s) == s[..|UntilNul(s)|]
  {
    if s != [] && s[0] != '\0' { UntilNulIsPrefix(s[1..]); }
  }

  // A value with a special character is at least three characters shorter than its token.
  lemma UncleanIsShorter(x: string)
    requires NulFree(x) && ValueRule(RuleOf(x)) && !Clean(ValueOf(RuleOf(x), x))
    ensures |ValueOf(RuleOf(x), x)| + 3 <= |x|
  {
    if RuleOf(x) != 6 {
      UnquotedIsClean(x);
    } else {
      StringShape(x);
      UntilNulIsPrefix(Unescape(x[1..]));
      if |Unescape(x[1..])| == |x| - 2 { ExactIsClean(x); }
    }
  }

  lemma ExactIsClean(x: string)
    requires QuotedString(x) && Closed(x[1..]) && |Unescape(x[1..])| == |x| - 2
    ensures Clean(UntilNul(Unescape(x[1..])))
  {
    var t := x[1..];
    QuotedIsClosed(t);
    UntilNulIsPrefix(Unescape(t));
    NothingUnescaped(t);
    assert forall i :: 0 <= i < |t| ==> t[i] in t;
  }

  lemma RuleSixIsQuoted(x: string)
    ensures RuleOf(x) == 6 <==> QuotedString(x)
  {
  }

  // What a line says about its own length, when it sets an unclean value.
  lemma UncleanLine(a: string)
    requires NulFree(a) && LineOf(a).Setting? && !Clean(LineOf(a).item.value)
    ensures |LineOf(a).item.value| + 4 <= |a|
  {
    var name := NextToken(a);
    var value := ValueToken(name.rest);
    TokenNulFree(a);
    hide RuleOf, NextToken, ValueOf, NulFree;
    ValueTokenNulFree(name.rest);
    UncleanIsShorter(value.text);
  }

  lemma {:induction false} TokenNulFree(a: string)
    requires NulFree(a)
    decreases |a|
    ensures match NextToken(a) case End => true case Token(_, x, rest) => NulFree(x) && NulFree(rest)
  {
    hide RuleOf;
    if a != [] {
      var n := MatchLength(a);
      assert forall i :: 0 <= i < |a[n..]| ==> a[n..][i] == a[n + i];
      TokenNulFree(a[n..]);
    }
  }

  lemma ValueTokenNulFree(a: string)
    requires NulFree(a)
    ensures match ValueToken(a)
            case End => true
            case Token(_, x, rest) => NulFree(x) && NulFree(rest) && |x| + |rest| <= |a|
  {
    hide RuleOf, NulFree;
    TokenNulFree(a);
    var t := NextToken(a);
    if t.Token? { TokenNulFree(t.rest); }
  }

  // A value that starts with a quote is read from a prefix of the text.
  lemma ValueFromQuote(k: string, w: string)
    requires IsName(k) && NulFree(w) && w != [] && w[0] == '\''
    requires LineOf(k + " = " + w).Setting? && !Clean(LineOf(k + " = " + w).item.value)
    ensures |LineOf(k + " = " + w).item.value| + 3 <= |w|
  {
    hide RuleOf, NextToken, ValueOf, Clean, ValueToken;
    NameAndEquals(k, w);
    TokenNulFree(w);
    UncleanIsShorter(NextToken(w).text);
  }

  /**
    A printed line sets the value it was printed from exactly when the value is clean.
   */
  lemma PrintedLine(item: Item)
    requires IsName(item.key) && NulFree(item.value) && '\n' !in item.value
    ensures LineOf(LineText(item)) == Setting(item) <==> Clean(item.value)
  {
    var k, v := item.key, item.value;
    var q := Raw(v);
    if Clean(v) {
      EscapeOfClean(v);
      QuoteIsString(v);
      RuleSixIsQuoted(q);
      NulFreeConcat("'" + v, "'");
      NulFreeConcat("'", v);
      QuotedLine(k, q);
      UnescapeUndoesEscape(v);
      UntilNulOfNulFree(v);
    } else if LineOf(LineText(item)) == Setting(item) {
      NulFreeConcat("'" + v, "'");
      NulFreeConcat("'", v);
      ValueFromQuote(k, q);
    }
  }

  lemma {:induction false} EscapeOfClean(v: string)
    requires Clean(v)
    ensures Escape(v) == v
  {
    if v != [] {
      assert forall i :: 0 <= i < |v[1..]| ==> v[1..][i] == v[i + 1];
      EscapeOfClean(v[1..]);
    }
  }

  // ---- The whole file ----

  predicate Printable(cells: seq<Item>) {
    DistinctKeys(cells) && forall c :: c in cells ==> IsName(c.key) && NulFree(c.value)
  }

  lemma {:induction false} FirstLineEnds(a: string, b: string)
    requires '\n' !in a
    ensures FirstLine(a + ("\n" + b)) == a
    decreases |a|
  {
    if a == [] {
      assert a + ("\n" + b) == "\n" + b;
    } else {
      assert (a + ("\n" + b))[1..] == a[1..] + ("\n" + b);
      FirstLineEnds(a[1..], b);
    }
  }

  lemma LineThen(a: string, b: string)
    requires '\n' !in a
    ensures FirstLine(a + ("\n" + b)) == a
    ensures Lines(a + ("\n" + b)) == [a] + Lines(b)
  {
    hide FirstLine;
    FirstLineEnds(a, b);
    var t := a + ("\n" + b);
    assert t[|a|..] == "\n" + b;
    assert t[|a|..][1..] == b;
  }

  // Either there is no newline or the text splits at its first one.
  lemma SplitAtNewline(a: string) returns (f: string, rest: string)
    requires '\n' in a
    ensures '\n' !in f && a == f + ("\n" + rest)
    ensures a[0] != '\n' ==> f != [] && f[0] == a[0]
  {
    f := FirstLine(a);
    hide FirstLine;
    var tail := a[|f|..];
    assert a == f + tail;
    rest := tail[1..];
    assert tail == "\n" + rest;
  }

  // A newline ends a line wherever it stands.
  lemma {:induction false} LinesConcat(a: string, b: string)
    decreases |a|
    ensures Lines(a + ("\n" + b)) == Lines(a + ("\n" + [])) + Lines(b)
  {
    hide FirstLine, Lines;
    NoLines();
    if '\n' !in a {
      LineThen(a, b);
      LineThen(a, []);
    } else {
      var f, rest := SplitAtNewline(a);
      assert a + ("\n" + b) == f + ("\n" + (rest + ("\n" + b)));
      assert a + ("\n" + []) == f + ("\n" + (rest + ("\n" + [])));
      LineThen(f, rest + ("\n" + b));
      LineThen(f, rest + ("\n" + []));
      LinesConcat(rest, b);
      assert [f] + (Lines(rest + ("\n" + [])) + Lines(b)) == ([f] + Lines(rest + ("\n" + []))) + Lines(b);
    }
  }

  // No line is longer than the text it is a line of.
  lemma {:induction false} LineIsShorter(t: string, a: string)
    requires a in Lines(t)
    ensures |a| <= |t| && (NulFree(t) ==> NulFree(a))
    decreases |t|
  {
    hide FirstLine, NulFree, OtherLines;
    PartsAreNulFree(t);
    if a != FirstLine(t) { LineIsShorter(OtherLines(t), a); }
  }

  lemma PartsAreNulFree(t: string)
    requires t != []
    ensures NulFree(t) ==> NulFree(FirstLine(t)) && NulFree(OtherLines(t))
  {
    hide FirstLine, NulFree;
    var f := FirstLine(t);
    var tail := t[|f|..];
    assert t == f + tail;
    NulFreeConcat(f, tail);
    if tail == [] {
      NoNulsInNothing();
    } else {
      assert tail == [tail[0]] + tail[1..];
      NulFreeConcat([tail[0]], tail[1..]);
    }
  }

  lemma NoNulsInNothing()
    ensures NulFree([])
  {
  }

  // A line of a printed setting with special characters sets no value with special characters that
  // is as long as the setting's own value.
  lemma LineOfSetting(item: Item, a: string)
    requires IsName(item.key) && NulFree(item.value)
    requires a in Lines(LineText(item) + ("\n" + []))
    requires LineOf(a).Setting? && !Clean(LineOf(a).item.value)
    ensures |LineOf(a).item.value| < |item.value|
  {
    var k, v := item.key, item.value;
    var q := Raw(v);
    hide LineOf, NulFree, Clean, Lines, FirstLine, RuleOf, IsName;
    NulFreeConcat("'" + v, "'");
    NulFreeConcat("'", v);
    QuotesHaveNoNul();
    if '\n' in q { LineOfSplitSetting(k, q, a); } else { LineOfSingleSetting(k, q, a); }
  }

  lemma LineOfSingleSetting(k: string, q: string, a: string)
    requires IsName(k) && NulFree(q) && '\n' !in q && q != [] && q[0] == '\''
    requires a in Lines(k + " = " + q + ("\n" + []))
    requires LineOf(a).Setting? && !Clean(LineOf(a).item.value)
    ensures |LineOf(a).item.value| + 2 < |q|
  {
    hide LineOf, NulFree, Clean, Lines, FirstLine, RuleOf, IsName;
    NoLines();
    NameHasNoNewline(k);
    var line := k + " = " + q;
    assert '\n' !in line;
    LineThen(line, []);
    assert a == line;
    ValueFromQuote(k, q);
  }

  lemma LineOfSplitSetting(k: string, q: string, a: string)
    requires IsName(k) && NulFree(q) && '\n' in q && q[0] == '\''
    requires a in Lines(k + " = " + q + ("\n" + []))
    requires LineOf(a).Setting? && !Clean(LineOf(a).item.value)
    ensures |LineOf(a).item.value| + 2 < |q|
  {
    hide LineOf, NulFree, Clean, Lines, FirstLine, RuleOf, IsName;
    var f, rest := SplitAtNewline(q);
    NulFreeConcat(f, "\n" + rest);
    NulFreeConcat("\n", rest);
    QuotesHaveNoNul();
    NameHasNoNewline(k);
    var first, end := k + " = " + f, "\n" + [];
    assert k + " = " + q + end == first + ("\n" + (rest + end));
    assert '\n' !in first;
    LineThen(first, rest + end);
    if a == first {
      ValueFromQuote(k, f);
    } else {
      LineIsShorter(rest + end, a);
      NulFreeConcat(rest, end);
      UncleanLine(a);
    }
  }

  lemma QuotesHaveNoNul()
    ensures NulFree("'") && NulFree("\n" + [])
  {
  }

  lemma NameHasNoNewline(k: string)
    requires IsName(k)
    ensures '\n' !in k + " = "
  {
    if '\n' in k {
      OnlyEolHasNewline(k);
    }
  }

  lemma {:induction false} LinesOfBody(cells: seq<Item>, a: string)
    requires a in Lines(Body(cells))
    ensures exists c :: c in cells && a in Lines(LineText(c) + ("\n" + []))
  {
    hide Lines;
    NoLines();
    if cells != [] {
      var later := Body(cells[1..]);
      assert Body(cells) == LineText(cells[0]) + ("\n" + later);
      LinesConcat(LineText(cells[0]), later);
      if a in Lines(LineText(cells[0]) + ("\n" + [])) {
        assert cells[0] in cells;
      } else {
        LinesOfBody(cells[1..], a);
        var c :| c in cells[1..] && a in Lines(LineText(c) + ("\n" + []));
        assert c in cells;
      }
    }
  }

  lemma PrintedLines(cells: seq<Item>)
    ensures Lines(Print(cells)) == [Header1(), Header2()] + Lines(Body(cells))
  {
    hide Lines, FirstLine, Header1, Header2;
    var body := Body(cells);
    HeadersArePlain();
    assert Print(cells) == Header1() + ("\n" + (Header2() + ("\n" + body)));
    LineThen(Header1(), Header2() + ("\n" + body));
    LineThen(Header2(), body);
  }

  lemma CommentIsBlank(t: string)
    requires Plain(t)
    ensures LineOf(t) == Blank
  {
    NoNewlineMeans(t[1..]);
    assert t == [t[0]] + t[1..];
    assert RuleOf(t) == 3 by { assert !Blanks(t); }
    assert t[..|t|] == t;
    hide RuleOf;
    assert MatchLength(t) == |t|;
    assert NextToken(t) == NextToken([]);
  }

  lemma {:induction false} NoNewlineMeans(t: string)
    ensures NoNewline(t) <==> '\n' !in t
  {
    if t != [] {
      NoNewlineMeans(t[1..]);
      assert t == [t[0]] + t[1..];
    }
  }

  lemma HeadersAreBlank()
    ensures LineOf(Header1()) == Blank && LineOf(Header2()) == Blank
  {
    hide LineOf, Header1, Header2;
    HeadersArePlain();
    CommentIsBlank(Header1());
    CommentIsBlank(Header2());
  }

  lemma HeadersArePlain()
    ensures Plain(Header1()) && Plain(Header2())
  {
    Header1IsPlain();
    Header2IsPlain();
  }

  // A comment on one line.
  predicate Plain(t: string) { t != [] && t[0] == '#' && '\n' !in t }

  lemma Header1IsPlain()
    ensures Plain(Header1())
  {
  }

  lemma Header2IsPlain()
    ensures Plain(Header2())
  {
    assert '\n' !in "# It will be overwritten";
    assert '\n' !in " by the ALTER SYSTEM command.";
  }

  // Every setting comes from a line.
  lemma {:induction false} SettingFromLine(lines: seq<string>, item: Item)
    requires item in SettingsOf(lines)
    ensures exists a :: a in lines && LineOf(a) == Setting(item)
  {
    hide LineOf;
    if LineOf(lines[0]) == Setting(item) {
      assert lines[0] in lines;
    } else {
      SettingFromLine(lines[1..], item);
      var a :| a in lines[1..] && LineOf(a) == Setting(item);
      assert a in lines;
    }
  }

  lemma SettingsAreLineSettings(t: string, item: Item)
    requires item in ParseText(t, 1, 0).settings
    ensures item in SettingsOf(Lines(t))
  {
    hide ParseText, LineOf, Lines;
    if BadLines(Lines(t)) < MAX_ERRORS { ParsingIsPerLine(t); } else { TooManyErrors(t, 1, 0); }
  }

  lemma {:induction false} PutAllMembers(cells: seq<Item>, items: seq<Item>)
    decreases |items|
    ensures forall c :: c in PutAll(cells, items) ==> c in cells || c in items
  {
    if items != [] {
      WithoutKeeps(cells, {items[0].key});
      PutAllMembers(Put(cells, items[0]), items[1..]);
      assert items == [items[0]] + items[1..];
    }
  }

  // A value with special characters that reads back was shorter than one that was printed.
  lemma ReadBackIsShorter(cells: seq<Item>, item: Item)
    requires Printable(cells) && !Clean(item.value)
    requires item in Settings(Print(cells))
    ensures exists c :: c in cells && !Clean(c.value) && |item.value| < |c.value|
  {
    hide ParseText, LineOf, Lines, FirstLine, RuleOf, Clean, NulFree, IsName, Header1, Header2;
    var t := Print(cells);
    PutAllMembers([], ParseText(t, 1, 0).settings);
    SettingsAreLineSettings(t, item);
    PrintedLines(cells);
    SettingFromLine(Lines(t), item);
    var a :| a in Lines(t) && LineOf(a) == Setting(item);
    HeadersAreBlank();
    assert a in Lines(Body(cells));
    LinesOfBody(cells, a);
    var c :| c in cells && a in Lines(LineText(c) + ("\n" + []));
    LineOfSetting(c, a);
    if Clean(c.value) { CleanLineOnly(c, a); }
  }

  // A clean setting is printed on one line and read back from it.
  lemma CleanLineOnly(c: Item, a: string)
    requires IsName(c.key) && NulFree(c.value) && Clean(c.value)
    requires a in Lines(LineText(c) + ("\n" + []))
    ensures LineOf(a) == Setting(c)
  {
    hide LineOf, Lines, FirstLine, RuleOf, NulFree, IsName;
    NameHasNoNewline(c.key);
    NoLines();
    assert '\n' !in c.value by { assert forall i :: 0 <= i < |c.value| ==> c.value[i] != '\n'; }
    assert '\n' !in LineText(c);
    LineThen(LineText(c), []);
    PrintedLine(c);
  }

  // A setting whose printed value is one string of the scanner, and what is read back from it.
  predicate Quotable(c: Item) { IsName(c.key) && NulFree(c.value) && QuotedString(Raw(c.value)) }

  function Stored(c: Item): Item
    requires Quotable(c)
  {
    QuotedIsClosed(Raw(c.value)[1..]);
    Item(c.key, UntilNul(Unescape(Raw(c.value)[1..])))
  }

  function AllStored(cells: seq<Item>): seq<Item>
    requires forall c :: c in cells ==> Quotable(c)
  {
    if cells == [] then [] else [Stored(cells[0])] + AllStored(cells[1..])
  }

  lemma StoredLine(c: Item)
    requires Quotable(c)
    ensures '\n' !in LineText(c) && LineOf(LineText(c)) == Setting(Stored(c))
  {
    var q := Raw(c.value);
    hide LineOf, RuleOf, QuotedBody, Unescape, UntilNul;
    QuotedIsClosed(q[1..]);
    assert q == ['\''] + q[1..];
    NameHasNoNewline(c.key);
    RuleSixIsQuoted(q);
    NulFreeConcat("'" + c.value, "'");
    NulFreeConcat("'", c.value);
    QuotedLine(c.key, q);
  }

  lemma {:induction false} QuotableBody(cells: seq<Item>)
    requires forall c :: c in cells ==> Quotable(c)
    ensures SettingsOf(Lines(Body(cells))) == AllStored(cells)
    ensures forall n: nat :: ErrorsOf(Lines(Body(cells)), n) == []
  {
    hide LineOf, Lines, FirstLine, RuleOf, Quotable, Stored;
    NoLines();
    if cells != [] {
      var c, later := cells[0], Body(cells[1..]);
      assert c in cells;
      QuotableBody(cells[1..]);
      assert Body(cells) == LineText(c) + ("\n" + later);
      StoredLine(c);
      LineThen(LineText(c), later);
    }
  }

  lemma {:induction false} StoredKeys(cells: seq<Item>)
    requires forall c :: c in cells ==> Quotable(c)
    ensures |AllStored(cells)| == |cells|
    ensures forall i :: 0 <= i < |cells| ==> AllStored(cells)[i] == Stored(cells[i])
  {
    hide Quotable, Stored;
    if cells != [] { StoredKeys(cells[1..]); }
  }

  /**
    A printed file whose values are strings of the scanner parses without error, each setting to
    its unescaped value.
   */
  lemma PrintedSettingsReadBack(cells: seq<Item>)
    requires DistinctKeys(cells) && forall c :: c in cells ==> Quotable(c)
    ensures ParseText(Print(cells), 1, 0) == Parsed(AllStored(cells), [])
    ensures Settings(Print(cells)) == AllStored(cells)
  {
    hide ParseText, ErrorsOf, SettingsOf, Lines, Print, AllStored, Quotable, Stored;
    QuotableLines(cells);
    ParsingIsPerLine(Print(cells));
    StoredAreDistinct(cells);
    PutAllFresh([], AllStored(cells));
  }

  lemma StoredAreDistinct(cells: seq<Item>)
    requires DistinctKeys(cells) && forall c :: c in cells ==> Quotable(c)
    ensures [] + AllStored(cells) == AllStored(cells) && DistinctKeys(AllStored(cells))
  {
    hide Quotable, AllStored, Stored;
    StoredKeys(cells);
    var all := AllStored(cells);
    forall i, j | 0 <= i < j < |all| ensures all[i].key != all[j].key {
      StoredKey(cells[i]);
      StoredKey(cells[j]);
    }
  }

  lemma StoredKey(c: Item)
    requires Quotable(c)
    ensures Stored(c).key == c.key
  {
    hide Quotable, Unescape, UntilNul, Raw;
  }

  lemma QuotableLines(cells: seq<Item>)
    requires forall c :: c in cells ==> Quotable(c)
    ensures SettingsOf(Lines(Print(cells))) == AllStored(cells) && ErrorsOf(Lines(Print(cells)), 1) == []
  {
    hide LineOf, Lines, FirstLine, Header1, Header2, Quotable, AllStored;
    var lines := Lines(Print(cells));
    PrintedLines(cells);
    QuotableBody(cells);
    HeadersAreBlank();
    var body := Lines(Body(cells));
    assert lines[1..] == [Header2()] + body;
    assert lines[1..][1..] == body;
    ErrorsUnfold(lines, 1);
    ErrorsUnfold(lines[1..], 2);
  }

  lemma CleanIsStoredAsIs(c: Item)
    requires IsName(c.key) && NulFree(c.value) && Clean(c.value)
    ensures Quotable(c) && Stored(c) == c
  {
    hide RuleOf;
    EscapeOfClean(c.value);
    assert '\n' !in c.value by { assert forall i :: 0 <= i < |c.value| ==> c.value[i] != '\n'; }
    QuoteIsString(c.value);
    UnescapeUndoesEscape(c.value);
    UntilNulOfNulFree(c.value);
  }

  /** Clean settings survive: the printed file parses without error to the very same settings. */
  lemma CleanSettingsReadBack(cells: seq<Item>)
    requires Printable(cells) && AllClean(cells)
    ensures ParseText(Print(cells), 1, 0) == Parsed(cells, [])
    ensures Settings(Print(cells)) == cells
  {
    hide ParseText, Settings, Print, Clean, Quotable, Stored, IsName, NulFree;
    forall c | c in cells ensures Quotable(c) && Stored(c) == c { CleanIsStoredAsIs(c); }
    PrintedSettingsReadBack(cells);
    StoredKeys(cells);
    assert AllStored(cells) == cells;
  }

  lemma LongestUnclean(cells: seq<Item>) returns (longest: Item)
    requires !AllClean(cells)
    ensures longest in cells && !Clean(longest.value)
    ensures forall c :: c in cells && !Clean(c.value) ==> |c.value| <= |longest.value|
  {
    hide Clean;
    longest :| longest in cells && !Clean(longest.value);
    var i := 0;
    while i < |cells|
      invariant 0 <= i <= |cells|
      invariant longest in cells && !Clean(longest.value)
      invariant forall c :: c in cells[..i] && !Clean(c.value) ==> |c.value| <= |longest.value|
    {
      if !Clean(cells[i].value) && |cells[i].value| > |longest.value| { longest := cells[i]; }
      i := i + 1;
    }
    assert cells[..i] == cells;
  }

  /** Reading a printed file back gives the printed settings exactly when all of them are clean. */
  lemma ReadBackIffClean(cells: seq<Item>)
    requires Printable(cells)
    ensures Settings(Print(cells)) == cells <==> AllClean(cells)
  {
    hide ParseText, Settings, Print, Clean;
    if AllClean(cells) {
      CleanSettingsReadBack(cells);
    } else if Settings(Print(cells)) == cells {
      var longest := LongestUnclean(cells);
      ReadBackIsShorter(cells, longest);
    }
  }

  // ---- modify_auto_conf ----

  // What the parser hands over can be printed again.
  lemma SettingIsPrintable(a: string)
    requires NulFree(a) && LineOf(a).Setting?
    ensures IsName(LineOf(a).item.key) && NulFree(LineOf(a).item.value)
  {
    var name := NextToken(a);
    var value := ValueToken(name.rest);
    TokenNulFree(a);
    hide RuleOf, NextToken, NulFree;
    ValueTokenNulFree(name.rest);
    if value.rule == 6 {
      StringShape(value.text);
      UntilNulHasNoNul(Unescape(value.text[1..]));
    }
  }

  lemma {:induction false} UntilNulHasNoNul(s: string)
    ensures NulFree(UntilNul(s))
  {
    if s != [] { UntilNulHasNoNul(s[1..]); }
  }

  lemma SettingsArePrintable(file: string)
    requires NulFree(file)
    ensures Printable(Settings(file))
  {
    hide ParseText, LineOf, Lines, IsName, NulFree;
    var settings := ParseText(file, 1, 0).settings;
    PutAllKeepsDistinct([], settings);
    PutAllMembers([], settings);
    forall c | c in Settings(file) ensures IsName(c.key) && NulFree(c.value) {
      SettingsAreLineSettings(file, c);
      SettingFromLine(Lines(file), c);
      var a :| a in Lines(file) && LineOf(a) == Setting(c);
      LineIsShorter(file, a);
      SettingIsPrintable(a);
    }
  }

  /**
    The file that modify_auto_conf writes stands for the old settings overridden by the new items
    in order, exactly when all of these values are clean; and then writing it once more changes
    nothing.
   */
  lemma ModifyIsMapUpdate(file: string, items: seq<Item>)
    requires NulFree(file)
    requires forall c :: c in items ==> IsName(c.key) && NulFree(c.value)
    ensures var merged := PutAll(Settings(file), items);
            && (Settings(Print(merged)) == merged <==> AllClean(merged))
            && (AllClean(merged) ==> Print(PutAll(Settings(Print(merged)), items)) == Print(merged))
  {
    hide ParseText, Settings, Print, IsName, NulFree, AllClean;
    SettingsArePrintable(file);
    PutAllKeepsDistinct(Settings(file), items);
    PutAllMembers(Settings(file), items);
    ReadBackIffClean(PutAll(Settings(file), items));
    PutAllIdempotent(Settings(file), items);
  }

  /** A value with a doubled quote loses one of them the next time the file is rewritten. */
  lemma QuoteIsLost()
    ensures Settings(Print([Item("a", "''")])) != [Item("a", "''")]
  {
    var cells := [Item("a", "''")];
    assert RuleOf("a") == 4;
    hide ParseText, Settings, Print;
    assert Printable(cells);
    assert Special(cells[0].value[0]);
    assert cells[0] in cells;
    ReadBackIffClean(cells);
  }
}
