/**
  The automaton that the compressed tables of configfile-scan.c encode, and the proof that it
  decides the token rules.
 */
module ConfDfa {
  import opened FlexTables
  import opened ConfRules

  // Names for the equivalence classes of yy_ec. Class 1 is every byte no rule mentions.
  const NUL := 0
  const OTHER := 1
  const BLANK := 2
  const NEWLINE := 3
  const HASH := 4
  const QUOTE := 5
  const PLUS := 6
  const MINUS := 7
  const DOT := 8
  const SLASH := 9
  const ZERO := 10
  const NONZERO := 11
  const EQUALS := 12
  const HEX := 13
  const EXP := 14
  const UNIT := 15
  const BACKSLASH := 16
  const UNDERSCORE := 17
  const EX := 18
  const HIGH := 19

  predicate DigitClass(k: int) { k == ZERO || k == NONZERO }

  predicate UnitClass(k: int) { HEX <= k <= UNIT || k == EX }

  predicate LetterClass(k: int) { UnitClass(k) || k == UNDERSCORE || k == HIGH }

  predicate UnquotedClass(k: int) { MINUS <= k <= SLASH || DigitClass(k) || LetterClass(k) }

  function ClassOf(c: char): int { YyEc(c as int) }

  // A row owns an entry when yy_chk says so.
  predicate Owns(s: int, c: int) { YyChk(YyBase(s) + c) == s }

  // The class used in the state a row falls back to.
  function DefaultClass(s: int, c: int): int { if YyDef(s) >= 41 then YyMeta(c) else c }

  // One transition: follow yy_def until a row owns the entry, at most three times.
  function NextState(s: int, c: int): int {
    if Owns(s, c) then YyNxt(YyBase(s) + c) else Default2(YyDef(s), DefaultClass(s, c))
  }

  function Default2(s: int, c: int): int {
    if Owns(s, c) then YyNxt(YyBase(s) + c) else Default1(YyDef(s), DefaultClass(s, c))
  }

  function Default1(s: int, c: int): int {
    if Owns(s, c) then YyNxt(YyBase(s) + c) else YyNxt(YyBase(YyDef(s)) + DefaultClass(s, c))
  }

  // The same automaton with its rows written out. State 40 is the jam state.
  function Delta(s: int, k: int): int {
    if k == NUL then (if s == 3 then 40 else 3)
    else if s <= 2 then
      (if k == NEWLINE then 6 else if k == BLANK then 5 else if k == HASH then 7 else if k == QUOTE then 8
       else if k == PLUS || k == MINUS then 9 else if k == DOT then 10 else if k == ZERO then 11
       else if k == NONZERO then 12 else if k == EQUALS then 13 else if LetterClass(k) then 14 else 4)
    else if s == 5 || s == 15 then (if k == BLANK then 15 else 40)
    else if s == 7 || s == 16 then (if k == NEWLINE then 40 else 16)
    else if s == 8 || s == 17 then
      (if k == NEWLINE then 40 else if k == QUOTE then 18 else if k == BACKSLASH then 19 else 17)
    else if s == 18 then (if k == QUOTE then 17 else 40)
    else if s == 19 then (if k == NEWLINE then 40 else 17)
    else if s == 9 then (if k == DOT then 20 else if k == ZERO then 21 else if k == NONZERO then 22 else 40)
    else if s == 10 || s == 20 || s == 23 then (if DigitClass(k) then 23 else if k == EXP then 24 else 40)
    else if s == 11 || s == 21 then
      (if k == DOT then 20 else if DigitClass(k) then 22 else if k == EX then 26 else if UnitClass(k) then 25 else 40)
    else if s == 12 || s == 22 then
      (if k == DOT then 20 else if DigitClass(k) then 22 else if UnitClass(k) then 25 else 40)
    else if s == 14 || s == 29 || s == 30 then
      (if k == DOT then 28 else if k == UNDERSCORE then 30 else if k == MINUS || k == SLASH then 27
       else if DigitClass(k) || LetterClass(k) then 29 else 40)
    else if s == 24 then (if k == PLUS || k == MINUS then 31 else if DigitClass(k) then 32 else 40)
    else if s == 25 then (if UnitClass(k) then 25 else 40)
    else if s == 26 || s == 33 || s == 34 then
      (if DigitClass(k) then 33 else if k == HEX || k == EXP then 34 else if UnitClass(k) then 25 else 40)
    else if s == 27 || s == 35 then (if k == UNDERSCORE then 35 else if UnquotedClass(k) then 27 else 40)
    else if s == 28 then
      (if k == UNDERSCORE then 37 else if LetterClass(k) then 36 else if UnquotedClass(k) then 27 else 40)
    else if s == 31 || s == 32 then (if DigitClass(k) then 32 else 40)
    else if 36 <= s <= 39 then
      (if k == UNDERSCORE then 39 else if MINUS <= k <= SLASH then 27 else if UnquotedClass(k) then 38 else 40)
    else 40
  }

  // yy_ec, read as ranges.
  function Ranges(c: int): int {
    if c == 0 then NUL
    else if c == 9 || c == 13 || c == 32 then BLANK
    else if c == 10 then NEWLINE
    else if c == 35 then HASH
    else if c == 39 then QUOTE
    else if c == 43 then PLUS
    else if c == 45 then MINUS
    else if c == 46 then DOT
    else if c == 47 || c == 58 then SLASH
    else if c == 48 then ZERO
    else if 49 <= c <= 57 then NONZERO
    else if c == 61 then EQUALS
    else if c == 69 || c == 101 then EXP
    else if 65 <= c <= 70 || 97 <= c <= 102 then HEX
    else if c == 120 then EX
    else if 71 <= c <= 90 || 103 <= c <= 122 then UNIT
    else if c == 92 then BACKSLASH
    else if c == 95 then UNDERSCORE
    else if c >= 128 then HIGH
    else OTHER
  }

  lemma EcIsRanges(c: int)
    requires 0 <= c
    ensures YyEc(c) == Ranges(c)
  {
  }

  // Rows that other rows fall back to.
  lemma Fall11(s: int, k: int) requires s == 11 && 0 <= k < 20 ensures Default2(s, k) == Delta(s, k) {}
  lemma Fall26(s: int, k: int) requires s == 26 && 0 <= k < 20 ensures Default2(s, k) == Delta(s, k) {}

  // One lemma for each row: following the default chain gives the written row.
  lemma Row1(s: int, k: int) requires s == 1 && 0 <= k < 20 ensures NextState(s, k) == Delta(s, k) {}
  lemma Row2(s: int, k: int) requires s == 2 && 0 <= k < 20 ensures NextState(s, k) == Delta(s, k) {}
  lemma Row3(s: int, k: int) requires s == 3 && 0 <= k < 20 ensures NextState(s, k) == Delta(s, k) {}
  lemma Row4(s: int, k: int) requires s == 4 && 0 <= k < 20 ensures NextState(s, k) == Delta(s, k) {}
  lemma Row5(s: int, k: int) requires s == 5 && 0 <= k < 20 ensures NextState(s, k) == Delta(s, k) {}
  lemma Row6(s: int, k: int) requires s == 6 && 0 <= k < 20 ensures NextState(s, k) == Delta(s, k) {}
  lemma Row7(s: int, k: int) requires s == 7 && 0 <= k < 20 ensures NextState(s, k) == Delta(s, k) {}
  lemma Row8(s: int, k: int) requires s == 8 && 0 <= k < 20 ensures NextState(s, k) == Delta(s, k) {}
  lemma Row9(s: int, k: int) requires s == 9 && 0 <= k < 20 ensures NextState(s, k) == Delta(s, k) {}
  lemma Row10(s: int, k: int) requires s == 10 && 0 <= k < 20 ensures NextState(s, k) == Delta(s, k) {}
  lemma Row11(s: int, k: int) requires s == 11 && 0 <= k < 20 ensures NextState(s, k) == Delta(s, k) {}
  lemma Row12(s: int, k: int) requires s == 12 && 0 <= k < 20 ensures NextState(s, k) == Delta(s, k) {
    Fall11(YyDef(s), k);
    assert DefaultClass(s, k) == k;
    hide Default2, YyDef, DefaultClass;
  }
  lemma Row13(s: int, k: int) requires s == 13 && 0 <= k < 20 ensures NextState(s, k) == Delta(s, k) {}
  lemma Row14Low(s: int, k: int) requires s == 14 && 0 <= k < 11 ensures NextState(s, k) == Delta(s, k) {}
  lemma Row14High(s: int, k: int) requires s == 14 && 11 <= k < 20 ensures NextState(s, k) == Delta(s, k) {}
  lemma Row14(s: int, k: int) requires s == 14 && 0 <= k < 20 ensures NextState(s, k) == Delta(s, k) {
    hide *;
    if k < 11 { Row14Low(s, k); } else { Row14High(s, k); }
  }
  lemma Row15(s: int, k: int) requires s == 15 && 0 <= k < 20 ensures NextState(s, k) == Delta(s, k) {}
  lemma Row16(s: int, k: int) requires s == 16 && 0 <= k < 20 ensures NextState(s, k) == Delta(s, k) {}
  lemma Row17(s: int, k: int) requires s == 17 && 0 <= k < 20 ensures NextState(s, k) == Delta(s, k) {}
  lemma Row18(s: int, k: int) requires s == 18 && 0 <= k < 20 ensures NextState(s, k) == Delta(s, k) {}
  lemma Row19(s: int, k: int) requires s == 19 && 0 <= k < 20 ensures NextState(s, k) == Delta(s, k) {}
  lemma Row20(s: int, k: int) requires s == 20 && 0 <= k < 20 ensures NextState(s, k) == Delta(s, k) {}
  lemma Row21(s: int, k: int) requires s == 21 && 0 <= k < 20 ensures NextState(s, k) == Delta(s, k) {
    Fall11(YyDef(s), k);
    assert DefaultClass(s, k) == k;
    hide Default2, YyDef, DefaultClass;
  }
  lemma Row22(s: int, k: int) requires s == 22 && 0 <= k < 20 ensures NextState(s, k) == Delta(s, k) {
    Fall11(YyDef(s), k);
    assert DefaultClass(s, k) == k;
    assert YyBase(s) == 10 && YyDef(s) == 11;
    hide Default2, YyDef, DefaultClass, YyBase;
  }
  lemma Row23(s: int, k: int) requires s == 23 && 0 <= k < 20 ensures NextState(s, k) == Delta(s, k) {}
  lemma Row24(s: int, k: int) requires s == 24 && 0 <= k < 20 ensures NextState(s, k) == Delta(s, k) {}
  lemma Row25(s: int, k: int) requires s == 25 && 0 <= k < 20 ensures NextState(s, k) == Delta(s, k) {}
  lemma Row26(s: int, k: int) requires s == 26 && 0 <= k < 20 ensures NextState(s, k) == Delta(s, k) {}
  lemma Row27(s: int, k: int) requires s == 27 && 0 <= k < 20 ensures NextState(s, k) == Delta(s, k) {}
  lemma Row28(s: int, k: int) requires s == 28 && 0 <= k < 20 ensures NextState(s, k) == Delta(s, k) {}
  lemma Row29(s: int, k: int) requires s == 29 && 0 <= k < 20 ensures NextState(s, k) == Delta(s, k) {}
  lemma Row30(s: int, k: int) requires s == 30 && 0 <= k < 20 ensures NextState(s, k) == Delta(s, k) {}
  lemma Row31(s: int, k: int) requires s == 31 && 0 <= k < 20 ensures NextState(s, k) == Delta(s, k) {}
  lemma Row32(s: int, k: int) requires s == 32 && 0 <= k < 20 ensures NextState(s, k) == Delta(s, k) {}
  lemma Row33(s: int, k: int) requires s == 33 && 0 <= k < 20 ensures NextState(s, k) == Delta(s, k) {
    Fall26(YyDef(s), k);
    assert DefaultClass(s, k) == k;
    hide Default2, YyDef, DefaultClass;
  }
  lemma Row34(s: int, k: int) requires s == 34 && 0 <= k < 20 ensures NextState(s, k) == Delta(s, k) {
    Fall26(YyDef(s), k);
    assert DefaultClass(s, k) == k;
    hide Default2, YyDef, DefaultClass;
  }
  lemma Row35(s: int, k: int) requires s == 35 && 0 <= k < 20 ensures NextState(s, k) == Delta(s, k) {
    assert YyBase(35) == 4 && YyDef(35) == 46 && YyBase(46) == 137 && YyDef(46) == 40 && YyBase(40) == 148;
    hide YyBase, YyDef;
  }
  lemma Row36(s: int, k: int) requires s == 36 && 0 <= k < 20 ensures NextState(s, k) == Delta(s, k) {}
  lemma Row37(s: int, k: int) requires s == 37 && 0 <= k < 20 ensures NextState(s, k) == Delta(s, k) {}
  lemma Row38(s: int, k: int) requires s == 38 && 0 <= k < 20 ensures NextState(s, k) == Delta(s, k) {}
  lemma Row39(s: int, k: int) requires s == 39 && 0 <= k < 20 ensures NextState(s, k) == Delta(s, k) {}
  lemma Row40(s: int, k: int) requires s == 40 && 0 <= k < 20 ensures NextState(s, k) == Delta(s, k) {}

  /** The compressed tables, walked through their default chains, are the written automaton. */
  lemma TablesDecode(s: int, k: int)
    requires 1 <= s <= 40 && 0 <= k < 20
    ensures NextState(s, k) == Delta(s, k)
  {
    if s <= 20 {
      if s <= 10 { RowsTo10(s, k); } else { RowsTo20(s, k); }
    } else {
      if s <= 30 { RowsTo30(s, k); } else { RowsTo40(s, k); }
    }
  }

  lemma RowsTo10(s: int, k: int)
    requires 1 <= s <= 10 && 0 <= k < 20
    ensures NextState(s, k) == Delta(s, k)
  {
    match s
    case 1 => Row1(s, k);
    case 2 => Row2(s, k);
    case 3 => Row3(s, k);
    case 4 => Row4(s, k);
    case 5 => Row5(s, k);
    case 6 => Row6(s, k);
    case 7 => Row7(s, k);
    case 8 => Row8(s, k);
    case 9 => Row9(s, k);
    case 10 => Row10(s, k);
  }

  lemma RowsTo20(s: int, k: int)
    requires 11 <= s <= 20 && 0 <= k < 20
    ensures NextState(s, k) == Delta(s, k)
  {
    match s
    case 11 => Row11(s, k);
    case 12 => Row12(s, k);
    case 13 => Row13(s, k);
    case 14 => Row14(s, k);
    case 15 => Row15(s, k);
    case 16 => Row16(s, k);
    case 17 => Row17(s, k);
    case 18 => Row18(s, k);
    case 19 => Row19(s, k);
    case 20 => Row20(s, k);
  }

  lemma RowsTo30(s: int, k: int)
    requires 21 <= s <= 30 && 0 <= k < 20
    ensures NextState(s, k) == Delta(s, k)
  {
    match s
    case 21 => Row21(s, k);
    case 22 => Row22(s, k);
    case 23 => Row23(s, k);
    case 24 => Row24(s, k);
    case 25 => Row25(s, k);
    case 26 => Row26(s, k);
    case 27 => Row27(s, k);
    case 28 => Row28(s, k);
    case 29 => Row29(s, k);
    case 30 => Row30(s, k);
  }

  lemma RowsTo40(s: int, k: int)
    requires 31 <= s <= 40 && 0 <= k < 20
    ensures NextState(s, k) == Delta(s, k)
  {
    match s
    case 31 => Row31(s, k);
    case 32 => Row32(s, k);
    case 33 => Row33(s, k);
    case 34 => Row34(s, k);
    case 35 => Row35(s, k);
    case 36 => Row36(s, k);
    case 37 => Row37(s, k);
    case 38 => Row38(s, k);
    case 39 => Row39(s, k);
    case 40 => Row40(s, k);
  }

  /** The successor of a state on a character. */
  function Step(s: int, c: char): (r: int)
    requires 1 <= s <= 40
    ensures 3 <= r <= 40
    ensures c != '\0' ==> r >= 4
  {
    Delta(s, Ranges(c as int))
  }

  /** The tables take the same step. */
  lemma StepIsTables(s: int, c: char)
    requires 1 <= s <= 40
    ensures 0 <= ClassOf(c) < 20
    ensures NextState(s, ClassOf(c)) == Step(s, c)
  {
    EcIsRanges(c as int);
    TablesDecode(s, Ranges(c as int));
  }

  // Every default chain ends in state 40, whose row owns all its entries.
  lemma ChainsEnd(s: int)
    requires 1 <= s <= 40
    ensures 1 <= YyDef(s) <= 47 || s == 40
    ensures s == 40 || YyDef(s) == 40 || 1 <= YyDef(YyDef(s)) <= 47
    ensures s == 40 || YyDef(s) == 40 || YyDef(YyDef(s)) == 40 || YyDef(YyDef(YyDef(s))) == 40
  {
  }

  lemma JamRowOwnsAll(k: int)
    requires 0 <= k < 20
    ensures Owns(40, k) && 0 <= YyMeta(k) < 20
  {
  }

  const TABLE_SIZE := 168

  // The definitions of one hop along the default chain.
  lemma Hop(s: int, k: int)
    ensures Owns(s, k) <==> YyChk(YyBase(s) + k) == s
    ensures DefaultClass(s, k) == if YyDef(s) >= 41 then YyMeta(k) else k
    ensures NextState(s, k) == if Owns(s, k) then YyNxt(YyBase(s) + k) else Default2(YyDef(s), DefaultClass(s, k))
    ensures Default2(s, k) == if Owns(s, k) then YyNxt(YyBase(s) + k) else Default1(YyDef(s), DefaultClass(s, k))
    ensures Default1(s, k) ==
            if Owns(s, k) then YyNxt(YyBase(s) + k) else YyNxt(YyBase(YyDef(s)) + DefaultClass(s, k))
  {
  }

  /** Every row begins inside the tables, with room for all classes behind it. */
  lemma IndexFits(s: int, k: int)
    requires 1 <= s <= 47 && 0 <= k < 20
    ensures 0 <= YyBase(s) + k < TABLE_SIZE
  {
    assert 0 <= YyBase(s) <= 148;
  }

  // One transition of the scanner: the loop over the default chain. It stays inside the tables.
  method Transition(s: int, c: char) returns (r: int)
    requires 1 <= s <= 40
    ensures r == Step(s, c)
  {
    hide YyChk, YyNxt, YyDef, YyBase, YyMeta, YyEc, Step, ClassOf;
    hide Owns, DefaultClass, NextState, Default2, Default1;
    StepIsTables(s, c);
    ChainsEnd(s);
    var state, k := s, ClassOf(c);
    JamRowOwnsAll(k);
    Hop(state, k);
    IndexFits(state, k);
    ghost var hops, value := 0, NextState(s, k);
    while YyChk(YyBase(state) + k) != state
      invariant 0 <= hops <= 3 && 0 <= k < 20 && value == NextState(s, ClassOf(c))
      invariant Owns(state, k) <==> YyChk(YyBase(state) + k) == state
      invariant hops == 0 ==> state == s && value == NextState(state, k)
      invariant hops == 1 ==> state == YyDef(s) && value == Default2(state, k)
      invariant hops == 2 ==> state == YyDef(YyDef(s)) && value == Default1(state, k)
      invariant hops == 3 ==> state == 40 && value == YyNxt(YyBase(state) + k)
      invariant (hops >= 1 ==> s != 40) && (hops >= 2 ==> YyDef(s) != 40)
      invariant state == 40 ==> Owns(state, k)
      invariant 1 <= state <= 47 && 0 <= YyBase(state) + k < TABLE_SIZE
      decreases 3 - hops
    {
      Hop(state, k);
      JamRowOwnsAll(k);
      hops := hops + 1;
      state := YyDef(state);
      if state >= 41 { k := YyMeta(k); }
      JamRowOwnsAll(k);
      Hop(state, k);
      IndexFits(state, k);
    }
    Hop(state, k);
    r := YyNxt(YyBase(state) + k);
  }

  /** The state after a text. */
  function Run(s: int, t: string): (r: int)
    requires 1 <= s <= 40
    ensures 1 <= r <= 40
    decreases |t|
  {
    if t == [] then s else Run(Step(s, t[0]), t[1..])
  }

  // What a state still needs: the rule that is accepted after the text t.
  function Residual(s: int, t: string): int {
    if s <= 2 then RuleOf(t)
    else if s == 4 || s == 6 || s == 13 then (if t == [] then YyAccept(s) else 0)
    else if s == 5 || s == 15 then (if Blanks(t) then 2 else 0)
    else if s == 7 || s == 16 then (if NoNewline(t) then 3 else 0)
    else if s == 8 then (if t == [] then 11 else if QuotedBody(t) then 6 else 0)
    else if s == 17 then (if QuotedBody(t) then 6 else 0)
    else if s == 18 then (if AfterQuote(t) then 6 else 0)
    else if s == 19 then (if AfterBackslash(t) then 6 else 0)
    else if s == 9 then
      (if t == [] then 11 else if UnsignedInteger(t) then 8 else if PointFraction(t) then 9 else 0)
    else if s == 10 || s == 20 || s == 23 then (if Fraction(t) then 9 else 0)
    else if s == 11 || s == 21 then
      (if DigitsUnit(t) || HexTail(t) then 8 else if PointFraction(t) then 9 else 0)
    else if s == 12 || s == 22 then (if DigitsUnit(t) then 8 else if PointFraction(t) then 9 else 0)
    else if s == 14 || s == 29 || s == 30 then
      (if IdTail(t) then 4 else if QualifiedTail(t) then 5 else if UnquotedTail(t) then 7 else 0)
    else if s == 24 then (if ExponentTail(t) then 9 else 0)
    else if s == 25 then (if UnitLetters(t) then 8 else 0)
    else if s == 26 then (if UnitLetters(t) || (t != [] && IsHexDigit(t[0]) && HexUnit(t[1..])) then 8 else 0)
    else if s == 27 || s == 35 then (if UnquotedTail(t) then 7 else 0)
    else if s == 28 then (if Id(t) then 5 else if UnquotedTail(t) then 7 else 0)
    else if s == 31 then (if t != [] && Digits(t) then 9 else 0)
    else if s == 32 then (if Digits(t) then 9 else 0)
    else if s == 33 || s == 34 then (if HexUnit(t) then 8 else 0)
    else if 36 <= s <= 39 then (if IdTail(t) then 5 else if UnquotedTail(t) then 7 else 0)
    else 0
  }

  // Reading one character moves the residual along, one lemma for each group of states.
  lemma ResidualWords(s: int, t: string)
    requires s == 14 || s == 29 || s == 30
    requires t != [] && t[0] != '\0'
    ensures Residual(s, t) == Residual(Step(s, t[0]), t[1..])
  {
  }

  lemma ResidualDotted(s: int, t: string)
    requires s == 27 || s == 28 || 35 <= s <= 39
    requires t != [] && t[0] != '\0'
    ensures Residual(s, t) == Residual(Step(s, t[0]), t[1..])
  {
  }

  lemma ResidualStart(s: int, t: string)
    requires s == 1
    requires t != [] && t[0] != '\0'
    ensures Residual(s, t) == Residual(Step(s, t[0]), t[1..])
  {
  }

  lemma ResidualDigits(s: int, t: string)
    requires 9 <= s <= 10 || s == 12 || s == 20 || 22 <= s <= 23
    requires t != [] && t[0] != '\0'
    ensures Residual(s, t) == Residual(Step(s, t[0]), t[1..])
  {
  }

  lemma ResidualHex(s: int, t: string)
    requires 33 <= s <= 34 || s == 25
    requires t != [] && t[0] != '\0'
    ensures Residual(s, t) == Residual(Step(s, t[0]), t[1..])
  {
    assert UnitLetters(t[1..]) ==> HexUnit(t[1..]);
  }

  lemma ResidualHexMark(s: int, t: string)
    requires s == 26
    requires t != [] && t[0] != '\0'
    ensures Residual(s, t) == Residual(Step(s, t[0]), t[1..])
  {
    assert UnitLetters(t[1..]) ==> HexUnit(t[1..]);
  }

  lemma ResidualZero(s: int, t: string)
    requires s == 11 || s == 21
    requires t != [] && t[0] != '\0'
    ensures Residual(s, t) == Residual(Step(s, t[0]), t[1..])
  {
    assert UnitLetters(t[1..]) ==> HexUnit(t[1..]);
  }

  lemma ResidualExponent(s: int, t: string)
    requires s == 24 || 31 <= s <= 32
    requires t != [] && t[0] != '\0'
    ensures Residual(s, t) == Residual(Step(s, t[0]), t[1..])
  {
  }

  lemma ResidualQuoted(s: int, t: string)
    requires s == 8 || 17 <= s <= 19
    requires t != [] && t[0] != '\0'
    ensures Residual(s, t) == Residual(Step(s, t[0]), t[1..])
  {
  }

  lemma ResidualOthers(s: int, t: string)
    requires 4 <= s <= 7 || s == 13 || 15 <= s <= 16 || s == 40
    requires t != [] && t[0] != '\0'
    ensures Residual(s, t) == Residual(Step(s, t[0]), t[1..])
  {
  }

  lemma ResidualStep(s: int, t: string)
    requires s == 1 || 4 <= s <= 40
    requires t != [] && t[0] != '\0'
    ensures Residual(s, t) == Residual(Step(s, t[0]), t[1..])
  {
    if s == 14 || s == 29 || s == 30 { ResidualWords(s, t); }
    else if s == 27 || s == 28 || 35 <= s <= 39 { ResidualDotted(s, t); }
    else if s == 1 { ResidualStart(s, t); }
    else if 9 <= s <= 10 || s == 12 || s == 20 || 22 <= s <= 23 { ResidualDigits(s, t); }
    else if s == 11 || s == 21 { ResidualZero(s, t); }
    else if s == 26 { ResidualHexMark(s, t); }
    else if s == 25 || 33 <= s <= 34 { ResidualHex(s, t); }
    else if s == 24 || 31 <= s <= 32 { ResidualExponent(s, t); }
    else if s == 8 || 17 <= s <= 19 { ResidualQuoted(s, t); }
    else { ResidualOthers(s, t); }
  }

  lemma {:induction false} RunDecides(s: int, t: string)
    requires s == 1 || 4 <= s <= 40
    requires NulFree(t)
    decreases |t|
    ensures Run(s, t) == 1 || 4 <= Run(s, t) <= 40
    ensures YyAccept(Run(s, t)) == Residual(s, t)
  {
    if t == [] {
      ResidualAtEnd(s);
    } else {
      RunDecides(Step(s, t[0]), t[1..]);
      ResidualStep(s, t);
    }
  }

  lemma ResidualAtEnd(s: int)
    requires s == 1 || 4 <= s <= 40
    ensures YyAccept(s) == Residual(s, [])
  {
  }
}
