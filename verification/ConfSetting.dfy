/**
  How the scanner reads a line of the form: name = 'value'.
 */
module ConfSetting {
  import opened FlexTables
  import opened ConfRules
  import opened ConfDfa
  import opened ConfTokens
  import opened ConfQuote
  import opened ConfLines
  import opened ConfParser
  import opened KeyValues

  // A match ends where the next character jams the automaton.
  lemma MatchFollowed(p: string, rest: string)
    requires RuleOf(p) != 0 && NulFree(p + rest)
    requires rest != [] ==> Step(Run(1, p), rest[0]) == 40
    ensures p != [] && MatchLength(p + rest) == |p|
    ensures (p + rest)[..|p|] == p && (p + rest)[|p|..] == rest
  {
    hide RuleOf, Step, Run;
    EmptyHasNoRule();
    var t := p + rest;
    assert t[..|p|] == p;
    if rest == [] {
      assert t == p;
    } else {
      assert t[..|p| + 1] == p + [rest[0]];
      RunConcat(1, p, [rest[0]]);
      RunOne(Run(1, p), rest[0]);
      JamEndsMatch(t, |p| + 1);
    }
  }

  lemma RunOne(s: int, c: char)
    requires 1 <= s <= 40
    ensures Run(s, [c]) == Step(s, c)
  {
    assert [c][1..] == [];
  }

  predicate IsName(k: string) { NameRule(RuleOf(k)) && NulFree(k) }

  lemma NameThenBlank(k: string)
    requires IsName(k)
    ensures Step(Run(1, k), ' ') == 40
  {
    hide RuleOf;
    TablesDecideRules(k);
    var s := Run(1, k);
    AcceptsName(s);
  }

  lemma AcceptsName(s: int)
    requires 1 <= s <= 40 && (YyAccept(s) == 4 || YyAccept(s) == 5)
    ensures s == 14 || s == 29 || s == 30 || 36 <= s <= 39
  {
  }

  // A token followed by a character that cannot extend it.
  lemma TokenFollowed(p: string, rest: string)
    requires RuleOf(p) != 0 && NulFree(p + rest)
    requires rest != [] ==> Step(Run(1, p), rest[0]) == 40
    ensures NextToken(p + rest) == if Skipped(RuleOf(p)) then NextToken(rest) else Token(RuleOf(p), p, rest)
  {
    hide RuleOf, Step, Run, MatchLength;
    MatchFollowed(p, rest);
  }

  // The tokens before the value.
  lemma NameAndEquals(k: string, w: string)
    requires IsName(k) && NulFree(w) && w != [] && !IsBlank(w[0])
    ensures NextToken(k + " = " + w) == Token(RuleOf(k), k, " = " + w)
    ensures ValueToken(" = " + w) == NextToken(w)
  {
    hide RuleOf, Step, Run, NextToken, ValueToken, NulFree;
    NameThenBlank(k);
    EqualsAndValue(w);
    assert k + " = " + w == k + (" = " + w);
    NulFreeConcat(k, " = " + w);
    TokenFollowed(k, " = " + w);
  }

  lemma EqualsAndValue(w: string)
    requires NulFree(w) && w != [] && !IsBlank(w[0])
    ensures NulFree(" = " + w) && ValueToken(" = " + w) == NextToken(w)
  {
    var blank, eq := " ", "=";
    BlankAndEquals(w[0]);
    NoNuls();
    hide RuleOf, Step, Run, NextToken, NulFree;
    var w1 := blank + w;
    var w2 := eq + w1;
    var w3 := blank + w2;
    assert " = " + w == w3;
    NulFreeConcat(blank, w);
    NulFreeConcat(eq, w1);
    NulFreeConcat(blank, w2);
    TokenFollowed(blank, w2);
    TokenFollowed(eq, w1);
    TokenFollowed(blank, w);
  }

  lemma NoNuls()
    ensures NulFree(" ") && NulFree("=")
  {
  }

  lemma BlankAndEquals(c: char)
    ensures RuleOf(" ") == 2 && RuleOf("=") == 10
    ensures Step(Run(1, " "), '=') == 40 && Step(Run(1, "="), ' ') == 40
    ensures !IsBlank(c) && c != '\0' ==> Step(Run(1, " "), c) == 40
  {
    RunOne(1, ' ');
    RunOne(1, '=');
  }

  /** A line that assigns a quoted string sets the unescaped value. */
  lemma QuotedLine(k: string, q: string)
    requires IsName(k) && NulFree(q) && RuleOf(q) == 6
    ensures q != [] && Closed(q[1..])
    ensures LineOf(k + " = " + q) == Setting(Item(k, UntilNul(Unescape(q[1..]))))
  {
    StringShape(q);
    hide RuleOf, NextToken, ValueToken, Unescape, UntilNul, Closed;
    NameAndEquals(k, q);
    WholeTextIsToken(q);
    NothingLeft();
  }

  lemma NothingLeft()
    ensures NextToken([]) == End
  {
  }
}
