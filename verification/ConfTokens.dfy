/**
  Longest match over a plain text: what the scanner is meant to compute, with no buffer in sight.
 */
module ConfTokens {
  import opened ConfRules
  import opened ConfDfa
  import opened FlexTables

  // The longest prefix of length at most k that some rule matches, 0 if there is none.
  function BestUpTo(t: string, k: nat): (n: nat)
    requires k <= |t|
    ensures n <= k
    ensures n > 0 ==> RuleOf(t[..n]) != 0
    ensures forall m :: n < m <= k ==> RuleOf(t[..m]) == 0
  {
    if k == 0 then 0 else if RuleOf(t[..k]) != 0 then k else BestUpTo(t, k - 1)
  }

  // Some rule matches every single character, so a match consumes at least one.
  function MatchLength(t: string): (n: nat)
    requires t != []
    ensures 1 <= n <= |t| && RuleOf(t[..n]) != 0
    ensures forall m :: n < m <= |t| ==> RuleOf(t[..m]) == 0
  {
    assert RuleOf(t[..1]) != 0;
    BestUpTo(t, |t|)
  }

  datatype Match = Match(rule: int, text: string)

  // Every match of a text, blanks and comments included.
  function Matches(t: string): seq<Match>
    decreases |t|
  {
    if t == [] then []
    else
      var n := MatchLength(t);
      [Match(RuleOf(t[..n]), t[..n])] + Matches(t[n..])
  }

  function TextsOf(ms: seq<Match>): string {
    if ms == [] then [] else ms[0].text + TextsOf(ms[1..])
  }

  /** Nothing is lost: the matched texts concatenate to the input. */
  lemma {:induction false} MatchesCoverInput(t: string)
    decreases |t|
    ensures TextsOf(Matches(t)) == t
  {
    hide RuleOf, MatchLength;
    if t != [] {
      var n := MatchLength(t);
      MatchesCoverInput(t[n..]);
      assert t == t[..n] + t[n..];
    }
  }

  datatype Token = End | Token(rule: int, text: string, rest: string)

  predicate Skipped(rule: int) { rule == 2 || rule == 3 }

  // The first match that is not a blank or a comment, and the text after it.
  function NextToken(t: string): (r: Token)
    decreases |t|
    ensures r.Token? ==> |r.text| + |r.rest| <= |t| && r.text != []
    ensures r.Token? ==> !Skipped(r.rule) && r.rule == RuleOf(r.text) != 0
  {
    if t == [] then End
    else
      var n := MatchLength(t);
      var r := RuleOf(t[..n]);
      if Skipped(r) then NextToken(t[n..]) else Token(r, t[..n], t[n..])
  }

  function Kept(ms: seq<Match>): seq<Match> {
    if ms == [] then []
    else if Skipped(ms[0].rule) then Kept(ms[1..]) else [ms[0]] + Kept(ms[1..])
  }

  /** Asking for tokens one at a time gives the matches without blanks and comments. */
  lemma {:induction false} TokensAreKeptMatches(t: string)
    decreases |t|
    ensures match NextToken(t)
            case End => Kept(Matches(t)) == []
            case Token(r, x, rest) => Kept(Matches(t)) == [Match(r, x)] + Kept(Matches(rest))
  {
    hide RuleOf, MatchLength;
    if t != [] {
      var n := MatchLength(t);
      assert Matches(t)[1..] == Matches(t[n..]);
      TokensAreKeptMatches(t[n..]);
    }
  }

  lemma {:induction false} RunConcat(s: int, a: string, b: string)
    requires 1 <= s <= 40
    decreases |a|
    ensures Run(s, a + b) == Run(Run(s, a), b)
  {
    if a == [] {
      assert a + b == b;
    } else {
      assert (a + b)[1..] == a[1..] + b;
      RunConcat(Step(s, a[0]), a[1..], b);
    }
  }

  lemma {:induction false} JamStays(b: string)
    requires NulFree(b)
    decreases |b|
    ensures Run(40, b) == 40
  {
    if b != [] { JamStays(b[1..]); }
  }

  /** The tables accept a text by the first rule that matches it, and by none otherwise. */
  lemma TablesDecideRules(t: string)
    requires NulFree(t)
    ensures YyAccept(Run(1, t)) == RuleOf(t)
    ensures Run(1, t) == 1 || 4 <= Run(1, t) <= 40
  {
    RunDecides(1, t);
  }

  lemma NulFreeConcat(a: string, b: string)
    ensures NulFree(a + b) <==> NulFree(a) && NulFree(b)
  {
    assert NulFree(a + b) ==> forall i :: 0 <= i < |a| ==> a[i] == (a + b)[i];
    assert NulFree(a + b) ==> forall i :: 0 <= i < |b| ==> b[i] == (a + b)[|a| + i];
  }

  // Once the automaton has jammed no longer text can match.
  lemma JamEndsMatch(t: string, k: nat)
    requires k <= |t| && NulFree(t) && Run(1, t[..k]) == 40
    ensures 1 <= k && MatchLength(t) == BestUpTo(t, k - 1)
  {
    forall m | k <= m <= |t| ensures RuleOf(t[..m]) == 0 {
      assert t[..m] == t[..k] + t[k..m];
      RunConcat(1, t[..k], t[k..m]);
      JamStays(t[k..m]);
      TablesDecideRules(t[..m]);
    }
    BestUpToFrom(t, k - 1, |t|);
  }

  lemma {:induction false} BestUpToFrom(t: string, k: nat, h: nat)
    requires k <= h <= |t|
    requires forall m :: k < m <= h ==> RuleOf(t[..m]) == 0
    ensures BestUpTo(t, h) == BestUpTo(t, k)
  {
    if h > k { BestUpToFrom(t, k, h - 1); }
  }

  // A match found inside a prefix does not depend on what follows.
  lemma {:induction false} BestUpToPrefix(a: string, b: string, k: nat)
    requires k <= |a|
    ensures BestUpTo(a + b, k) == BestUpTo(a, k)
  {
    assert (a + b)[..k] == a[..k];
    if k > 0 { BestUpToPrefix(a, b, k - 1); }
  }
}
