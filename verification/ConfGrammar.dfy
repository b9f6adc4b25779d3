/**
  What a line of a configuration file says, in terms of the texts it consists of: a name, at most one
  equals sign and a value, with blanks and a comment between or behind them.
 */
module ConfGrammar {
  import opened ConfRules
  import opened ConfTokens
  import opened ConfQuote
  import opened ConfParser
  import opened KeyValues

  predicate BlankOrComment(x: string) { Blanks(x) || "#" <= x }

  // The matched texts of a line that are neither blanks nor a comment.
  function Parts(ms: seq<Match>): seq<string> {
    if ms == [] then []
    else (if BlankOrComment(ms[0].text) then [] else [ms[0].text]) + Parts(ms[1..])
  }

  predicate NameText(x: string) { Id(x) || QualifiedId(x) }

  // A qualified identifier is no value, although it is made like an unquoted string.
  predicate ValueText(x: string) {
    (Id(x) || QuotedString(x) || UnquotedString(x) || Integer(x) || Real(x)) && !QualifiedId(x)
  }

  // The value that a text stands for.
  predicate StandsFor(x: string, value: string) {
    if QuotedString(x) then Closed(x[1..]) && value == UntilNul(Unescape(x[1..])) else value == x
  }

  // The parts of a line that sets an item.
  predicate Sets(parts: seq<string>, item: Item) {
    && (|parts| == 2 || (|parts| == 3 && parts[1] == "="))
    && NameText(parts[0]) && item.key == parts[0]
    && ValueText(parts[|parts| - 1]) && StandsFor(parts[|parts| - 1], item.value)
  }

  // ---- The rules that stand for these ----

  lemma {:induction false} NoDotInId(x: string)
    requires IdTail(x)
    ensures !QualifiedTail(x)
  {
    if x != [] { NoDotInId(x[1..]); }
  }

  lemma NameRules(x: string)
    ensures NameRule(RuleOf(x)) <==> NameText(x)
  {
    if Id(x) { NoDotInId(x[1..]); }
    assert x != [] && IsLetter(x[0]) ==> !Blanks(x) && x != "\n" && x[0] != '#';
    hide IdTail, QualifiedTail, QuotedBody, UnquotedTail, Integer, Real;
  }

  lemma ValueRules(x: string)
    ensures ValueRule(RuleOf(x)) <==> ValueText(x)
    ensures RuleOf(x) == 6 <==> QuotedString(x)
    ensures QuotedString(x) ==> Closed(x[1..])
  {
    if QuotedString(x) { QuotedIsClosed(x[1..]); }
    if Id(x) { NoDotInId(x[1..]); }
    FirstOfNumber(x);
    assert QuotedString(x) ==> x[0] == '\'';
    assert x != [] && (IsLetter(x[0]) || x[0] == '\'' || NumberStart(x[0])) ==> !Blanks(x) && x != "\n" && x[0] != '#';
    hide IdTail, QualifiedTail, QuotedBody, UnquotedTail, Integer, Real;
  }

  predicate NumberStart(c: char) { IsDigit(c) || IsSign(c) || c == '.' }

  lemma FirstOfNumber(x: string)
    ensures Integer(x) || Real(x) ==> x != [] && NumberStart(x[0])
  {
    hide DigitsUnit, HexTail, Fraction;
  }

  lemma SkippedTexts(x: string)
    requires x != [] && '\n' !in x
    ensures Skipped(RuleOf(x)) <==> BlankOrComment(x)
  {
    NoNewlineInside(x[1..]);
    assert x == [x[0]] + x[1..];
    hide Id, QualifiedId, QuotedString, UnquotedString, Integer, Real;
    assert x[0] == '#' ==> !Blanks(x);
  }

  lemma {:induction false} NoNewlineInside(x: string)
    requires '\n' !in x
    ensures NoNewline(x)
  {
    if x != [] { NoNewlineInside(x[1..]); }
  }

  // Asking for the next token gives the next part.
  lemma {:induction false} NextPart(t: string)
    requires '\n' !in t
    decreases |t|
    ensures match NextToken(t)
            case End => Parts(Matches(t)) == []
            case Token(r, x, rest) => Parts(Matches(t)) == [x] + Parts(Matches(rest)) && '\n' !in rest
  {
    hide RuleOf, MatchLength, BlankOrComment;
    if t != [] {
      var n := MatchLength(t);
      assert Matches(t)[1..] == Matches(t[n..]);
      SkippedTexts(t[..n]);
      NextPart(t[n..]);
    }
  }

  // "=" is the only text of its rule.
  lemma EqualsRule(x: string)
    ensures RuleOf(x) == 10 <==> x == "="
    ensures !ValueText("=")
  {
    ValueRules("=");
    assert RuleOf("=") == 10;
  }

  /**
    A line sets an item exactly when its parts are a name, at most one equals sign and a value, which
    is unescaped if it is quoted; and it is blank exactly when it has no parts.
   */
  lemma LineSays(a: string, item: Item)
    requires '\n' !in a
    ensures LineOf(a) == Setting(item) <==> Sets(Parts(Matches(a)), item)
    ensures LineOf(a) == Blank <==> Parts(Matches(a)) == []
  {
    hide RuleOf, NextToken, Parts, Matches, Unescape, UntilNul, Closed;
    NextPart(a);
    var name := NextToken(a);
    if name.Token? {
      NameRules(name.text);
      NextPart(name.rest);
      var second := NextToken(name.rest);
      if second.Token? {
        EqualsRule(second.text);
        ValueRules(second.text);
        NextPart(second.rest);
        var third := NextToken(second.rest);
        if third.Token? {
          ValueRules(third.text);
          NextPart(third.rest);
        }
      }
    }
  }

  // The beginnings of the parts of lines that set something.
  predicate Begins(ps: seq<string>) {
    || ps == []
    || (NameText(ps[0])
        && (|ps| == 1 || ((ps[1] == "=" || ValueText(ps[1])) && |ps| == 2)
            || (ps[1] == "=" && ValueText(ps[2]) && |ps| == 3)))
  }

  /**
    The error in a malformed line is reported near the first part with which the line cannot be the
    beginning of one that sets something, or near its end if there is none.
   */
  lemma ErrorIsNear(a: string, k: nat)
    requires '\n' !in a && LineOf(a).Malformed?
    ensures var ps := Parts(Matches(a));
            && (LineOf(a).near == EndOfLine <==> Begins(ps))
            && (k < |ps| && Begins(ps[..k]) && !Begins(ps[..k + 1]) ==> LineOf(a).near == NearToken(ps[k]))
  {
    hide RuleOf, NextToken, Parts, Matches;
    NextPart(a);
    var ps := Parts(Matches(a));
    var name := NextToken(a);
    if name.Token? {
      NameRules(name.text);
      NextPart(name.rest);
      var second := NextToken(name.rest);
      if second.Token? {
        EqualsRule(second.text);
        ValueRules(second.text);
        NextPart(second.rest);
        var third := NextToken(second.rest);
        if third.Token? {
          ValueRules(third.text);
          NextPart(third.rest);
        }
      }
    }
  }
}
