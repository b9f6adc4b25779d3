/**
  The token rules of the configuration-file scanner, transcribed from the definitions section and
  the rules section of configfile-scan.l. A rule is a predicate on the whole matched text. Where a
  definition is a starred class followed by something, the predicate recurses over the star.
 */
module ConfRules {

  predicate IsDigit(c: char) { '0' <= c <= '9' }

  predicate IsHexDigit(c: char) { IsDigit(c) || 'a' <= c <= 'f' || 'A' <= c <= 'F' }

  predicate IsUnitLetter(c: char) { 'a' <= c <= 'z' || 'A' <= c <= 'Z' }

  predicate IsLetter(c: char) { IsUnitLetter(c) || c == '_' || c as int >= 128 }

  predicate IsLetterOrDigit(c: char) { IsLetter(c) || IsDigit(c) }

  predicate IsUnquotedChar(c: char) { IsLetterOrDigit(c) || c == '-' || c == '.' || c == '/' || c == ':' }

  predicate IsSign(c: char) { c == '-' || c == '+' }

  predicate IsBlank(c: char) { c == ' ' || c == '\t' || c == '\r' }

  function DropSign(t: string): string { if t != [] && IsSign(t[0]) then t[1..] else t }

  // [ \t\r]*
  predicate Blanks(t: string) { t == [] || (IsBlank(t[0]) && Blanks(t[1..])) }

  // .*
  predicate NoNewline(t: string) { t == [] || (t[0] != '\n' && NoNewline(t[1..])) }

  // {DIGIT}*
  predicate Digits(t: string) { t == [] || (IsDigit(t[0]) && Digits(t[1..])) }

  // {UNIT_LETTER}*
  predicate UnitLetters(t: string) { t == [] || (IsUnitLetter(t[0]) && UnitLetters(t[1..])) }

  // {DIGIT}*{UNIT_LETTER}*
  predicate DigitsUnit(t: string) {
    t == [] || (IsDigit(t[0]) && DigitsUnit(t[1..])) || (IsUnitLetter(t[0]) && UnitLetters(t[1..]))
  }

  // {HEXDIGIT}*{UNIT_LETTER}*
  predicate HexUnit(t: string) {
    t == [] || (IsHexDigit(t[0]) && HexUnit(t[1..])) || (IsUnitLetter(t[0]) && UnitLetters(t[1..]))
  }

  // {SIGN}?({DIGIT}+|0x{HEXDIGIT}+){UNIT_LETTER}*
  predicate Integer(t: string) { UnsignedInteger(DropSign(t)) }

  predicate UnsignedInteger(u: string) {
    u != [] && IsDigit(u[0]) && (DigitsUnit(u[1..]) || (u[0] == '0' && HexTail(u[1..])))
  }

  // x{HEXDIGIT}+{UNIT_LETTER}*
  predicate HexTail(u: string) { |u| >= 2 && u[0] == 'x' && IsHexDigit(u[1]) && HexUnit(u[1..][1..]) }

  // [Ee]{SIGN}?{DIGIT}+
  predicate Exponent(t: string) { t != [] && (t[0] == 'e' || t[0] == 'E') && ExponentTail(t[1..]) }

  predicate ExponentTail(t: string) { DropSign(t) != [] && Digits(DropSign(t)) }

  // {DIGIT}*{EXPONENT}?
  predicate Fraction(t: string) { t == [] || (IsDigit(t[0]) && Fraction(t[1..])) || Exponent(t) }

  // {DIGIT}*"."{DIGIT}*{EXPONENT}?
  predicate PointFraction(t: string) {
    t != [] && ((IsDigit(t[0]) && PointFraction(t[1..])) || (t[0] == '.' && Fraction(t[1..])))
  }

  // {SIGN}?{DIGIT}*"."{DIGIT}*{EXPONENT}?
  predicate Real(t: string) { PointFraction(DropSign(t)) }

  // {LETTER_OR_DIGIT}*
  predicate IdTail(t: string) { t == [] || (IsLetterOrDigit(t[0]) && IdTail(t[1..])) }

  // {LETTER}{LETTER_OR_DIGIT}*
  predicate Id(t: string) { t != [] && IsLetter(t[0]) && IdTail(t[1..]) }

  // {LETTER_OR_DIGIT}*"."{ID}
  predicate QualifiedTail(t: string) {
    t != [] && ((IsLetterOrDigit(t[0]) && QualifiedTail(t[1..])) || (t[0] == '.' && Id(t[1..])))
  }

  // {ID}"."{ID}
  predicate QualifiedId(t: string) { t != [] && IsLetter(t[0]) && QualifiedTail(t[1..]) }

  // ({LETTER_OR_DIGIT}|[-._:/])*
  predicate UnquotedTail(t: string) { t == [] || (IsUnquotedChar(t[0]) && UnquotedTail(t[1..])) }

  // {LETTER}({LETTER_OR_DIGIT}|[-._:/])*
  predicate UnquotedString(t: string) { t != [] && IsLetter(t[0]) && UnquotedTail(t[1..]) }

  // What may follow the opening quote of a string: plain characters, backslash pairs and doubled
  // quotes, then the closing quote.
  predicate QuotedBody(t: string) {
    t != [] &&
    if t[0] == '\'' then AfterQuote(t[1..])
    else if t[0] == '\\' then AfterBackslash(t[1..])
    else t[0] != '\n' && QuotedBody(t[1..])
  }

  // A quote closes the string if nothing follows it, and is half of a doubled quote otherwise.
  predicate AfterQuote(t: string) { t == [] || (t[0] == '\'' && QuotedBody(t[1..])) }

  // A backslash takes any one character but a newline with it.
  predicate AfterBackslash(t: string) { t != [] && t[0] != '\n' && QuotedBody(t[1..]) }

  // \'([^'\\\n]|\\.|\'\')*\'
  predicate QuotedString(t: string) { t != [] && t[0] == '\'' && QuotedBody(t[1..]) }

  // The number of the first rule that matches the text, 0 if none does.
  function RuleOf(t: string): int {
    if t == [] then 0
    else if t == "\n" then 1
    else if Blanks(t) then 2
    else if t[0] == '#' && NoNewline(t[1..]) then 3
    else if Id(t) then 4
    else if QualifiedId(t) then 5
    else if QuotedString(t) then 6
    else if UnquotedString(t) then 7
    else if Integer(t) then 8
    else if Real(t) then 9
    else if t == "=" then 10
    else if |t| == 1 then 11
    else 0
  }

  predicate NulFree(t: string) { forall i :: 0 <= i < |t| ==> t[i] != '\0' }
}
