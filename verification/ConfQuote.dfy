/**
  Quoted values of the configuration file: escaping, the in-place unescaper CONF_scanstr, and the
  proof that it undoes quoting.
 */
module ConfQuote {
  import opened ConfRules

  // The text after an opening quote, up to and including its closing quote. Unlike the scanner's
  // QuotedBody it may contain newlines.
  predicate Closed(t: string)
    decreases |t|
  {
    t != [] &&
    if t[0] == '\'' then |t| == 1 || (t[1] == '\'' && Closed(t[2..]))
    else if t[0] == '\\' then |t| >= 2 && Closed(t[2..])
    else Closed(t[1..])
  }

  predicate IsOctal(c: char) { '0' <= c <= '7' }

  // How many octal digits an escape takes, at most three.
  function OctalLength(t: string): (k: nat)
    ensures k <= 3 && k <= |t|
    ensures forall i :: 0 <= i < k ==> IsOctal(t[i])
  {
    if |t| == 0 || !IsOctal(t[0]) then 0
    else if |t| == 1 || !IsOctal(t[1]) then 1
    else if |t| == 2 || !IsOctal(t[2]) then 2
    else 3
  }

  function OctalDigit(c: char): nat
    requires IsOctal(c)
  {
    c as int - '0' as int
  }

  function OctalValue(t: string): nat
    requires forall i :: 0 <= i < |t| ==> IsOctal(t[i])
  {
    if t == [] then 0 else OctalValue(t[..|t| - 1]) * 8 + OctalDigit(t[|t| - 1])
  }

  // A byte, as the cast to char leaves it.
  function ByteOf(n: nat): char { (n % 256) as char }

  function SimpleEscape(c: char): char {
    match c
    case 'b' => '\U{8}'
    case 'f' => '\U{C}'
    case 'n' => '\n'
    case 'r' => '\r'
    case 't' => '\t'
    case _ => c
  }

  lemma {:induction false} OctalTailClosed(t: string, k: nat)
    requires k <= |t| && Closed(t)
    requires forall i :: 0 <= i < k ==> IsOctal(t[i])
    ensures Closed(t[k..])
  {
    if k > 0 { OctalTailClosed(t[1..], k - 1); assert t[1..][k - 1..] == t[k..]; }
  }

  // How much of the text the first character of the value takes.
  function Width(t: string): (n: nat)
    requires Closed(t) && |t| > 1
    ensures 1 <= n < |t| && Closed(t[n..])
  {
    ClosedShape(t);
    if t[0] == '\'' then 2
    else if t[0] == '\\' && OctalLength(t[1..]) > 0 then
      var k := OctalLength(t[1..]);
      assert forall i :: 0 <= i < k - 1 ==> t[2..][i] == t[1..][i + 1];
      OctalTailClosed(t[2..], k - 1);
      assert t[2..][k - 1..] == t[1 + k..];
      ClosedShape(t[1 + k..]);
      1 + k
    else if t[0] == '\\' then 2
    else 1
  }

  // The first character of the value.
  function FirstChar(t: string): char
    requires Closed(t) && |t| > 1
  {
    if t[0] == '\'' then t[1]
    else if t[0] == '\\' && OctalLength(t[1..]) > 0 then ByteOf(OctalValue(t[1..][..OctalLength(t[1..])]))
    else if t[0] == '\\' then SimpleEscape(t[1])
    else t[0]
  }

  // The value that the text after an opening quote stands for.
  function Unescape(t: string): (v: string)
    requires Closed(t)
    decreases |t|
    ensures |v| < |t|
  {
    if |t| == 1 then [] else [FirstChar(t)] + Unescape(t[Width(t)..])
  }

  lemma UnescapeUnfolds(t: string)
    requires Closed(t)
    ensures |t| == 1 ==> Unescape(t) == []
    ensures |t| > 1 ==> Unescape(t) == [FirstChar(t)] + Unescape(t[Width(t)..])
  {
  }

  // What a NUL-terminated string shows of an array's contents.
  function UntilNul(s: string): string {
    if s == [] || s[0] == '\0' then [] else [s[0]] + UntilNul(s[1..])
  }

  // The character at a position of a NUL-terminated string.
  function CharAt(s: string, i: nat): char
    requires i <= |s|
  {
    if i == |s| then '\0' else s[i]
  }

  // The octal loop of CONF_scanstr.
  method OctalDigits(s: string, i: nat) returns (k: nat, octVal: nat)
    requires i < |s|
    ensures k == OctalLength(s[i..]) && octVal == OctalValue(s[i..][..k])
  {
    k, octVal := 0, 0;
    while k < 3 && IsOctal(CharAt(s, i + k))
      invariant k <= 3 && i + k <= |s|
      invariant forall m :: 0 <= m < k ==> IsOctal(s[i..][m])
      invariant octVal == OctalValue(s[i..][..k])
    {
      assert s[i..][..k + 1][..k] == s[i..][..k];
      octVal := octVal * 8 + (s[i + k] as int - '0' as int);
      k := k + 1;
    }
  }

  // One step of the copying loop of CONF_scanstr: the character to store and the last index read.
  method ScanPiece(s: string, start: nat) returns (c: char, i: nat)
    requires start < |s| && Closed(s[start..])
    ensures if start == |s| - 1 then c == '\'' && i == start
            else c == FirstChar(s[start..]) && i == start + Width(s[start..]) - 1
  {
    ghost var t := s[start..];
    ClosedShape(t);
    i := start;
    if s[i] == '\\' {
      i := i + 1;
      assert s[i..] == t[1..];
      if IsOctal(CharAt(s, i)) {
        var k, octVal := OctalDigits(s, i);
        i := i + k - 1;
        c := ByteOf(octVal);
      } else {
        c := SimpleEscape(s[i]);
      }
    } else if s[i] == '\'' && CharAt(s, i + 1) == '\'' {
      i := i + 1;
      c := s[i];
    } else {
      c := s[i];
    }
  }

  /**
    CONF_scanstr: strip the quotes and collapse doubled quotes and backslash escapes. Every index
    stays within the string and its terminating NUL, and within the new array.
   */
  method ScanStr(str: string) returns (value: string)
    requires str != [] && str[0] == '\'' && Closed(str[1..])
    ensures value == UntilNul(Unescape(str[1..]))
  {
    hide Closed, FirstChar, Width, UntilNul, Unescape;
    var s := str[1..];
    var len := |s|;
    var newStr := new char[len];
    var i, j := 0, 0;
    assert s[0..] == s;
    ClosedShape(s);
    while i < len
      invariant j <= i <= len
      invariant i < len ==> Closed(s[i..]) && Unescape(s) == newStr[..j] + Unescape(s[i..])
      invariant i == len ==> 0 < j && newStr[..j] == Unescape(s) + ['\'']
    {
      ghost var done, t := newStr[..j], s[i..];
      UnescapeUnfolds(t);
      assert |t| > 1 ==> s[i + Width(t)..] == t[Width(t)..];
      newStr[j], i := ScanPiece(s, i);
      j, i := j + 1, i + 1;
      assert newStr[..j] == done + [newStr[j - 1]];
    }
    j := j - 1;
    newStr[j] := '\0';
    assert newStr[..j] == Unescape(s);
    assert newStr[..] == newStr[..j] + ['\0'] + newStr[j + 1..];
    CutAtNul(Unescape(s), newStr[j + 1..]);
    value := UntilNul(newStr[..]);
  }

  lemma {:induction false} CutAtNul(a: string, b: string)
    ensures UntilNul(a + ['\0'] + b) == UntilNul(a)
  {
    if a != [] {
      assert (a + ['\0'] + b)[1..] == a[1..] + ['\0'] + b;
      CutAtNul(a[1..], b);
    }
  }

  lemma ClosedShape(t: string)
    requires Closed(t)
    ensures t != []
    ensures t[0] == '\\' ==> |t| > 2
    ensures t[0] == '\'' ==> |t| == 1 || (|t| > 2 && t[1] == '\'')
    ensures |t| == 1 ==> t[0] == '\''
  {
  }

  // A value with each quote and backslash doubled, as escape_single_quotes_ascii does.
  function Escape(v: string): string {
    if v == [] then [] else EscapeChar(v[0]) + Escape(v[1..])
  }

  function EscapeChar(c: char): string { if c == '\'' || c == '\\' then [c, c] else [c] }

  function Quote(v: string): string { "'" + Escape(v) + "'" }

  /** Unescaping undoes quoting, for every value. */
  lemma {:induction false} UnescapeUndoesEscape(v: string)
    ensures Closed(Escape(v) + "'") && Unescape(Escape(v) + "'") == v
  {
    if v != [] {
      UnescapeUndoesEscape(v[1..]);
      EscapedFirst(v[0], Escape(v[1..]) + "'");
      assert Escape(v) + "'" == EscapeChar(v[0]) + (Escape(v[1..]) + "'");
    }
  }

  lemma EscapedFirst(c: char, tail: string)
    requires Closed(tail)
    ensures Closed(EscapeChar(c) + tail)
    ensures Unescape(EscapeChar(c) + tail) == [c] + Unescape(tail)
  {
    var t := EscapeChar(c) + tail;
    assert t[|EscapeChar(c)|..] == tail;
    if c == '\'' || c == '\\' { assert t[1..][0] == c; }
  }

  lemma {:induction false} UntilNulOfNulFree(v: string)
    requires NulFree(v)
    ensures UntilNul(v) == v
  {
    if v != [] { UntilNulOfNulFree(v[1..]); }
  }

  /** The scanner's strings are closed, so the unescaper may be called on them. */
  lemma {:induction false} QuotedIsClosed(t: string)
    decreases |t|
    ensures QuotedBody(t) <==> Closed(t) && '\n' !in t
  {
    if t != [] {
      if t[0] == '\'' || t[0] == '\\' {
        if |t| >= 2 {
          QuotedIsClosed(t[2..]);
          assert t[1..][1..] == t[2..];
          assert t == [t[0], t[1]] + t[2..];
        }
      } else {
        QuotedIsClosed(t[1..]);
        assert t == [t[0]] + t[1..];
      }
    }
  }

  lemma {:induction false} EscapeKeepsNewlines(v: string)
    ensures '\n' in Escape(v) <==> '\n' in v
    ensures NulFree(v) ==> NulFree(Escape(v))
  {
    if v != [] {
      EscapeKeepsNewlines(v[1..]);
      assert v == [v[0]] + v[1..];
    }
  }

  // What the unescaper has a letter for, written with that letter.
  function EscapeLetter(c: char): string {
    if c == '\U{8}' then "\\b"
    else if c == '\t' then "\\t"
    else if c == '\n' then "\\n"
    else if c == '\U{C}' then "\\f"
    else if c == '\r' then "\\r"
    else EscapeChar(c)
  }

  function EscapeLetters(v: string): string {
    if v == [] then [] else EscapeLetter(v[0]) + EscapeLetters(v[1..])
  }

  lemma LetterFirst(c: char, tail: string)
    requires Closed(tail)
    ensures Closed(EscapeLetter(c) + tail)
    ensures Unescape(EscapeLetter(c) + tail) == [c] + Unescape(tail)
  {
    hide Closed, Unescape;
    EscapedFirst(c, tail);
    LetterThen('b', tail);
    LetterThen('t', tail);
    LetterThen('n', tail);
    LetterThen('f', tail);
    LetterThen('r', tail);
  }

  lemma LetterThen(x: char, tail: string)
    requires Closed(tail) && x != '\'' && x != '\\' && !IsOctal(x)
    ensures Closed(['\\', x] + tail)
    ensures Unescape(['\\', x] + tail) == [SimpleEscape(x)] + Unescape(tail)
  {
    var t := ['\\', x] + tail;
    assert t[2..] == tail && t[1..][1..] == tail && t[1..][0] == x;
    assert Closed(t);
    assert OctalLength(t[1..]) == 0;
    hide SimpleEscape;
  }

  /**
    With the letters that the unescaper knows, every value has a string of the scanner, newlines or
    not; so it is not for want of such strings that a value with a newline is lost.
   */
  lemma {:induction false} EveryValueHasString(v: string)
    ensures Closed(EscapeLetters(v) + "'") && Unescape(EscapeLetters(v) + "'") == v
    ensures QuotedString("'" + EscapeLetters(v) + "'")
  {
    LettersReadBack(v);
    var t := EscapeLetters(v) + "'";
    assert ("'" + EscapeLetters(v) + "'")[1..] == t;
    QuotedIsClosed(t);
  }

  lemma {:induction false} LettersReadBack(v: string)
    ensures Closed(EscapeLetters(v) + "'") && Unescape(EscapeLetters(v) + "'") == v
    ensures '\n' !in EscapeLetters(v)
  {
    hide Closed, Unescape, EscapeLetter;
    NothingQuoted();
    if v == [] {
      assert EscapeLetters(v) + "'" == "'";
    } else {
      LettersReadBack(v[1..]);
      LetterIsOnLine(v[0]);
      LetterFirst(v[0], EscapeLetters(v[1..]) + "'");
      assert EscapeLetters(v) + "'" == EscapeLetter(v[0]) + (EscapeLetters(v[1..]) + "'");
    }
  }

  lemma NothingQuoted()
    ensures Closed("'") && Unescape("'") == []
  {
  }

  lemma LetterIsOnLine(c: char)
    ensures '\n' !in EscapeLetter(c)
  {
  }

  function OctalChar(d: nat): char
    requires d < 8
  {
    "01234567"[d]
  }

  /** Up to three octal digits stand for a byte, if the last of fewer than three is not followed by another. */
  lemma OctalDigitsRead(a: nat, b: nat, c: nat, tail: string)
    requires a < 8 && b < 8 && c < 8 && Closed(tail) && tail != []
    ensures var t := ['\\', OctalChar(a), OctalChar(b), OctalChar(c)] + tail;
            var n := 64 * a + 8 * b + c;
            Closed(t) && Unescape(t) == [(if n < 256 then n else n - 256) as char] + Unescape(tail)
    ensures tail[0] !in "01234567" ==>
              var t := ['\\', OctalChar(a), OctalChar(b)] + tail;
              Closed(t) && Unescape(t) == [(8 * a + b) as char] + Unescape(tail)
    ensures tail[0] !in "01234567" ==>
              var t := ['\\', OctalChar(a)] + tail;
              Closed(t) && Unescape(t) == [a as char] + Unescape(tail)
  {
    hide *;
    ThreeOctals(a, b, c, tail);
    ByteIs(64 * a + 8 * b + c);
    ByteIs(8 * a + b);
    ByteIs(a);
    if tail[0] !in "01234567" {
      NoOctal(tail[0]);
      TwoOctals(a, b, tail);
      OneOctal(a, tail);
    }
  }

  lemma ThreeOctals(a: nat, b: nat, c: nat, tail: string)
    requires a < 8 && b < 8 && c < 8 && Closed(tail) && tail != []
    ensures var t := ['\\', OctalChar(a), OctalChar(b), OctalChar(c)] + tail;
            var n := 64 * a + 8 * b + c;
            Closed(t) && Unescape(t) == [ByteOf(n)] + Unescape(tail)
  {
    hide *;
    var x := [OctalChar(a), OctalChar(b), OctalChar(c)];
    OctalChars(a);
    OctalChars(b);
    OctalChars(c);
    ValueOfDigits(a, b, c);
    OctalPiece(x, tail);
    assert ['\\', OctalChar(a), OctalChar(b), OctalChar(c)] + tail == ['\\'] + (x + tail);
  }

  lemma TwoOctals(a: nat, b: nat, tail: string)
    requires a < 8 && b < 8 && Closed(tail) && tail != [] && !IsOctal(tail[0])
    ensures var t := ['\\', OctalChar(a), OctalChar(b)] + tail;
            Closed(t) && Unescape(t) == [ByteOf(8 * a + b)] + Unescape(tail)
  {
    hide *;
    var x := [OctalChar(a), OctalChar(b)];
    OctalChars(a);
    OctalChars(b);
    ValueOfDigits(a, b, 0);
    OctalPiece(x, tail);
    assert ['\\', OctalChar(a), OctalChar(b)] + tail == ['\\'] + (x + tail);
  }

  lemma OneOctal(a: nat, tail: string)
    requires a < 8 && Closed(tail) && tail != [] && !IsOctal(tail[0])
    ensures var t := ['\\', OctalChar(a)] + tail;
            Closed(t) && Unescape(t) == [ByteOf(a)] + Unescape(tail)
  {
    hide *;
    var x := [OctalChar(a)];
    OctalChars(a);
    ValueOfDigits(a, 0, 0);
    OctalPiece(x, tail);
    assert ['\\', OctalChar(a)] + tail == ['\\'] + (x + tail);
  }

  lemma ByteIs(n: nat)
    requires n < 512
    ensures ByteOf(n) == (if n < 256 then n else n - 256) as char
  {
  }

  lemma OctalChars(d: nat)
    requires d < 8
    ensures IsOctal(OctalChar(d)) && OctalDigit(OctalChar(d)) == d
  {
  }

  lemma NoOctal(c: char)
    ensures c !in "01234567" ==> !IsOctal(c)
  {
    assert forall d: nat :: d < 8 ==> "01234567"[d] in "01234567";
    if IsOctal(c) { assert c == "01234567"[c as int - '0' as int]; }
  }

  lemma ValueOfDigits(a: nat, b: nat, c: nat)
    requires a < 8 && b < 8 && c < 8
    ensures OctalValue([OctalChar(a)]) == a
    ensures OctalValue([OctalChar(a), OctalChar(b)]) == 8 * a + b
    ensures OctalValue([OctalChar(a), OctalChar(b), OctalChar(c)]) == 64 * a + 8 * b + c
  {
    OctalChars(a);
    OctalChars(b);
    OctalChars(c);
    hide OctalChar, OctalDigit;
    var x, y, z := [OctalChar(a)], [OctalChar(a), OctalChar(b)], [OctalChar(a), OctalChar(b), OctalChar(c)];
    assert x[..0] == [] && y[..1] == x && z[..2] == y;
  }

  lemma OctalPiece(x: string, tail: string)
    requires 1 <= |x| <= 3 && forall i :: 0 <= i < |x| ==> IsOctal(x[i])
    requires Closed(tail) && tail != [] && (|x| == 3 || !IsOctal(tail[0]))
    ensures var t := ['\\'] + (x + tail);
            Closed(t) && Unescape(t) == [ByteOf(OctalValue(x))] + Unescape(tail)
  {
    var t := ['\\'] + (x + tail);
    OctalsClosed(x[1..], tail);
    assert t[2..] == x[1..] + tail && t[1..] == x + tail;
    assert OctalLength(x + tail) == |x| by { hide Closed; }
    assert (x + tail)[..|x|] == x && t[1 + |x|..] == tail;
    assert |t| > 1 && Closed(t);
    hide Closed, OctalLength, OctalValue, IsOctal;
    UnescapeUnfolds(t);
  }

  lemma {:induction false} OctalsClosed(x: string, tail: string)
    requires (forall i :: 0 <= i < |x| ==> IsOctal(x[i])) && Closed(tail)
    ensures Closed(x + tail)
  {
    if x == [] {
      assert x + tail == tail;
    } else {
      OctalsClosed(x[1..], tail);
      assert (x + tail)[1..] == x[1..] + tail;
    }
  }

  lemma {:induction false} EscapeKeepsNuls(v: string)
    requires NulFree(Escape(v))
    ensures NulFree(v)
  {
    if v != [] {
      var e, n := Escape(v), |Escape(v)| - |Escape(v[1..])|;
      assert e[n - 1] == v[0] && e[n..] == Escape(v[1..]);
      assert forall i :: 0 <= i < |Escape(v[1..])| ==> Escape(v[1..])[i] == e[n + i];
      EscapeKeepsNuls(v[1..]);
    }
  }

  /** A quoted value is a string of the scanner exactly when it has no newline. */
  lemma QuoteIsString(v: string)
    ensures QuotedString(Quote(v)) <==> '\n' !in v
    ensures Quote(v)[1..] == Escape(v) + "'"
  {
    var t := Escape(v) + "'";
    assert Quote(v)[1..] == t;
    UnescapeUndoesEscape(v);
    QuotedIsClosed(t);
    EscapeKeepsNewlines(v);
  }
}
