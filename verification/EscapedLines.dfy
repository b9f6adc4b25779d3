/**
  What becomes of an escaped value with a newline in a printed settings file: it is torn apart at the
  newline, and no line of the file sets a value with a newline any more.
 */
module EscapedLines {
  import opened ConfRules
  import opened ConfTokens
  import opened ConfQuote
  import opened ConfParser
  import opened ConfPerLine
  import opened ConfSetting
  import opened KeyValues
  import opened AutoConf

  // Backslashes come in pairs.
  predicate Paired(s: string) {
    s == [] || if s[0] == '\\' then |s| > 1 && s[1] == '\\' && Paired(s[2..]) else Paired(s[1..])
  }

  lemma {:induction false} EscapedIsPaired(v: string)
    ensures Paired(Escape(v))
  {
    if v != [] {
      EscapedIsPaired(v[1..]);
      var e, tail := EscapeChar(v[0]), Escape(v[1..]);
      assert Escape(v)[|e|..] == tail;
      if v[0] == '\'' { assert Escape(v)[1..][1..] == tail; }
    }
  }

  lemma {:induction false} WithoutBackslash(a: string, s: string)
    requires '\\' !in a && Paired(s)
    ensures Paired(a + s)
  {
    if a == [] {
      assert a + s == s;
    } else {
      assert (a + s)[1..] == a[1..] + s;
      WithoutBackslash(a[1..], s);
    }
  }

  lemma {:induction false} PairedBefore(s: string, t: string)
    requires Paired(s) && '\\' !in t
    ensures Paired(s + t)
    decreases |s|
  {
    if s == [] {
      WithoutBackslash(t, []);
      assert t + [] == t && s + t == t;
    } else {
      var n := if s[0] == '\\' then 2 else 1;
      assert (s + t)[n..] == s[n..] + t;
      PairedBefore(s[n..], t);
    }
  }

  // Pairs are not cut apart in front of any other character.
  lemma {:induction false} PairedAround(s: string, p: nat)
    requires Paired(s) && p < |s| && s[p] != '\\'
    ensures Paired(s[..p]) && Paired(s[p..]) && Paired(s[p + 1..])
    decreases |s|
  {
    if p > 0 {
      var n := if s[0] == '\\' then 2 else 1;
      PairedAround(s[n..], p - n);
      assert s[..p][n..] == s[n..][..p - n];
      assert s[n..][p - n..] == s[p..] && s[n..][p - n + 1..] == s[p + 1..];
    }
  }

  // A string of paired backslashes and doubled quotes stands for no newline unless it has one.
  lemma {:induction false} UnescapeAddsNoNewline(t: string, s: string)
    requires Closed(t) && t <= s && Paired(s) && '\n' !in t
    ensures '\n' !in Unescape(t)
    decreases |t|
  {
    UnescapeUnfolds(t);
    if |t| > 1 {
      ClosedShape(t);
      assert t[0] == s[0] && t[1] == s[1];
      var n := Width(t);
      assert t == t[..n] + t[n..];
      assert t[n..] <= s[n..];
      FirstOfPaired(t, s);
      UnescapeAddsNoNewline(t[n..], s[n..]);
    }
  }

  lemma FirstOfPaired(t: string, s: string)
    requires Closed(t) && |t| > 1 && t <= s && Paired(s) && '\n' !in t
    ensures FirstChar(t) != '\n' && Paired(s[Width(t)..])
  {
    ClosedShape(t);
    assert t[0] == s[0] && t[1] == s[1];
    assert t[0] in t && t[1] in t;
    if t[0] == '\'' {
      assert s[1..][1..] == s[2..];
      assert s[1..][0] == t[1];
    } else if t[0] == '\\' {
      assert t[1..][0] == t[1] == '\\';
    }
  }

  // ---- A line ----

  lemma {:induction false} TokenIsSuffix(a: string) returns (p: nat)
    requires NextToken(a).Token?
    ensures p <= |a| && a[p..] == NextToken(a).text + NextToken(a).rest
    decreases |a|
  {
    hide RuleOf;
    var n := MatchLength(a);
    if Skipped(RuleOf(a[..n])) {
      var q := TokenIsSuffix(a[n..]);
      p := n + q;
      assert a[n..][q..] == a[p..];
    } else {
      p := 0;
      assert a[..n] + a[n..] == a;
    }
  }

  lemma ValueIsSuffix(a: string) returns (p: nat)
    requires ValueToken(a).Token?
    ensures p <= |a| && a[p..] == ValueToken(a).text + ValueToken(a).rest
  {
    hide RuleOf, NextToken;
    p := TokenIsSuffix(a);
    var t := NextToken(a);
    if t.rule == 10 {
      var q := TokenIsSuffix(t.rest);
      assert a[p + |t.text| + q..] == a[p..][|t.text|..][q..] == t.rest[q..];
      p := p + |t.text| + q;
    }
  }

  // A line with paired backslashes sets no value with a newline.
  lemma PairedLine(a: string)
    requires Paired(a) && '\n' !in a && LineOf(a).Setting?
    ensures '\n' !in LineOf(a).item.value
  {
    var name := NextToken(a);
    var value := ValueToken(name.rest);
    hide RuleOf, NextToken, ValueToken, Paired;
    var p := TokenIsSuffix(a);
    var q := ValueIsSuffix(name.rest);
    var i := p + |name.text| + q;
    assert a[i..] == a[p..][|name.text|..][q..] == name.rest[q..];
    assert forall j :: 0 <= j < |value.text| ==> a[i..][j] == value.text[j] && a[i + j] == a[i..][j];
    assert '\n' !in value.text;
    if value.rule == 6 { PairedString(a, i, value.text, value.rest); }
  }

  lemma PairedString(a: string, i: nat, x: string, rest: string)
    requires Paired(a) && i <= |a| && a[i..] == x + rest && RuleOf(x) == 6 && '\n' !in x
    ensures '\n' !in ValueOf(6, x)
  {
    StringShape(x);
    hide RuleOf;
    assert a[i] == a[i..][0] == x[0] == '\'';
    PairedAround(a, i);
    assert a[i + 1..] == x[1..] + rest;
    assert '\n' !in x[1..];
    UnescapeAddsNoNewline(x[1..], a[i + 1..]);
    UntilNulIsPrefix(Unescape(x[1..]));
  }

  // ---- A file ----

  lemma {:induction false} PairedLines(t: string)
    requires Paired(t)
    ensures forall a :: a in Lines(t) ==> Paired(a) && '\n' !in a
    decreases |t|
  {
    hide FirstLine, Paired;
    if t != [] {
      var f, rest := FirstLine(t), OtherLines(t);
      LinesUnfold(t);
      if |f| < |t| {
        assert t[|f|] == t[|f|..][0];
        PairedAround(t, |f|);
        assert t[|f|..][1..] == t[|f| + 1..];
      } else {
        assert f == t;
        NothingIsPaired();
      }
      PairedLines(rest);
      hide Lines, OtherLines;
      forall a | a in Lines(t) ensures Paired(a) && '\n' !in a {
        if a != f { assert a in Lines(rest); }
      }
    }
  }

  lemma NothingIsPaired()
    ensures Paired([])
  {
  }

  lemma {:induction false} TailHasNoBackslash(t: string)
    requires IdTail(t) || QualifiedTail(t)
    ensures '\\' !in t
  {
    if t != [] {
      if QualifiedTail(t) && t[0] == '.' {
        TailHasNoBackslash(t[1..][1..]);
        assert t[1..] == [t[1]] + t[1..][1..];
      } else {
        TailHasNoBackslash(t[1..]);
      }
      assert t == [t[0]] + t[1..];
    }
  }

  lemma NameHasNoBackslash(k: string)
    requires IsName(k)
    ensures '\\' !in k
  {
    TailHasNoBackslash(k[1..]);
    assert k == [k[0]] + k[1..];
  }

  lemma PairedSetting(c: Item)
    requires IsName(c.key) && Paired(c.value)
    ensures Paired(LineText(c) + ("\n" + []))
  {
    NameHasNoBackslash(c.key);
    hide Paired, IsName;
    var before, end := c.key + " = " + "'", "'" + ("\n" + []);
    PairedBefore(c.value, end);
    WithoutBackslash(before, c.value + end);
    assert LineText(c) + ("\n" + []) == before + (c.value + end);
  }

  /** No setting that is read back from printed values with paired backslashes has a newline. */
  lemma NoNewlineIsRead(cells: seq<Item>, item: Item)
    requires forall c :: c in cells ==> IsName(c.key) && Paired(c.value)
    requires item in Settings(Print(cells))
    ensures '\n' !in item.value
  {
    hide ParseText, LineOf, Lines, FirstLine, IsName, Paired, Header1, Header2, LineText;
    var t := Print(cells);
    PutAllMembers([], ParseText(t, 1, 0).settings);
    SettingsAreLineSettings(t, item);
    PrintedLines(cells);
    SettingFromLine(Lines(t), item);
    var a :| a in Lines(t) && LineOf(a) == Setting(item);
    HeadersAreBlank();
    assert a in Lines(Body(cells));
    LinesOfBody(cells, a);
    var c :| c in cells && a in Lines(LineText(c) + ("\n" + []));
    PairedSetting(c);
    PairedLines(LineText(c) + ("\n" + []));
    PairedLine(a);
  }
}
