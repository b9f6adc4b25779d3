/**
  The line structure of configuration text: no token but the end of line contains a newline, so a
  text can be scanned line by line.
 */
module ConfLines {
  import opened ConfRules
  import opened ConfDfa
  import opened ConfTokens

  // A newline is accepted at the start of a match only.
  lemma {:induction false} NewlineJams(s: int, t: string)
    requires 4 <= s <= 40 && NulFree(t) && '\n' in t
    decreases |t|
    ensures Run(s, t) == 40
  {
    if t[0] == '\n' {
      JamStays(t[1..]);
    } else {
      assert t == [t[0]] + t[1..];
      NewlineJams(Step(s, t[0]), t[1..]);
    }
  }

  /** No token except the end of line contains a newline. */
  lemma OnlyEolHasNewline(t: string)
    requires NulFree(t) && '\n' in t
    ensures RuleOf(t) != 0 <==> t == "\n"
  {
    if t == "\n" {
    } else {
      TablesDecideRules(t);
      assert t == [t[0]] + t[1..];
      if '\n' in t[1..] {
        NewlineJams(Step(1, t[0]), t[1..]);
      } else {
        assert Step(1, '\n') == 6;
        EndOfLineIsAlone(t[1..]);
      }
    }
  }

  lemma EndOfLineIsAlone(t: string)
    requires t != [] && NulFree(t)
    ensures Run(6, t) == 40
  {
    JamStays(t[1..]);
  }

  // Text that starts a new line, or nothing.
  predicate LineEnd(t: string) { t == [] || t[0] == '\n' }

  lemma MatchLengthOnLine(a: string, tail: string)
    requires NulFree(a + tail) && '\n' !in a && LineEnd(tail)
    ensures a != [] ==> NulFree(a) && MatchLength(a + tail) == MatchLength(a)
    ensures a == [] && tail != [] ==> MatchLength(tail) == 1
  {
    hide RuleOf;
    var t := a + tail;
    assert NulFree(a) by { assert forall i :: 0 <= i < |a| ==> a[i] == t[i]; }
    if t != [] {
      forall m | |a| < m <= |t| && 1 < m ensures RuleOf(t[..m]) == 0 {
        assert t[..m][|a|] == '\n';
        OnlyEolHasNewline(t[..m]);
      }
      if a == [] {
        assert t == tail;
      } else {
        var n := MatchLength(a);
        forall m | 0 <= m <= |a| ensures t[..m] == a[..m] {}
      }
    }
  }

  /** Scanning a line does not depend on what follows it, and ends with its end of line. */
  lemma {:induction false} NextTokenOnLine(a: string, tail: string)
    requires NulFree(a + tail) && '\n' !in a && LineEnd(tail)
    decreases |a|
    ensures NextToken(a + tail) ==
      match NextToken(a)
      case End => if tail == [] then End else Token(1, "\n", tail[1..])
      case Token(r, x, rest) => Token(r, x, rest + tail)
    ensures match NextToken(a)
            case End => true
            case Token(r, x, rest) => r != 1 && NulFree(rest + tail) && '\n' !in rest
  {
    MatchLengthOnLine(a, tail);
    if a == [] {
      assert a + tail == tail;
      if tail != [] { assert tail[..1] == "\n"; assert RuleOf("\n") == 1; }
    } else {
      hide RuleOf, MatchLength;
      var n := MatchLength(a);
      assert (a + tail)[..n] == a[..n] && (a + tail)[n..] == a[n..] + tail;
      assert NulFree(a[n..] + tail) by {
        assert forall i :: 0 <= i < |a[n..] + tail| ==> (a[n..] + tail)[i] == (a + tail)[n + i];
      }
      NextTokenOnLine(a[n..], tail);
      NotEol(a[..n]);
    }
  }

  lemma NotEol(t: string)
    requires '\n' !in t
    ensures RuleOf(t) != 1
  {
    assert "\n"[0] == '\n';
  }

  // A text that some rule matches as a whole is one token.
  lemma WholeTextIsToken(t: string)
    requires RuleOf(t) != 0 && !Skipped(RuleOf(t))
    ensures NextToken(t) == Token(RuleOf(t), t, [])
  {
    hide RuleOf;
    if t == [] { assert RuleOf("") == 0 by { EmptyHasNoRule(); } }
    assert t[..|t|] == t;
    assert MatchLength(t) == |t|;
  }

  lemma EmptyHasNoRule()
    ensures RuleOf("") == 0
  {
  }
}
