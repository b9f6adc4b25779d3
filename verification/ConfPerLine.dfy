/**
  Parsing a file is parsing its lines one by one, as long as fewer than 100 of them are malformed.
 */
module ConfPerLine {
  import opened ConfRules
  import opened ConfLines
  import opened ConfParser
  import opened KeyValues

  // The settings of the well-formed lines, in order.
  function SettingsOf(lines: seq<string>): seq<Item> {
    if lines == [] then []
    else
      match LineOf(lines[0])
      case Setting(item) => [item] + SettingsOf(lines[1..])
      case _ => SettingsOf(lines[1..])
  }

  // The malformed lines with their own numbers, the first line having the given one.
  function ErrorsOf(lines: seq<string>, lineno: nat): seq<ConfError> {
    if lines == [] then []
    else
      match LineOf(lines[0])
      case Malformed(near) => [ConfError(lineno, near)] + ErrorsOf(lines[1..], lineno + 1)
      case _ => ErrorsOf(lines[1..], lineno + 1)
  }

  function BadLines(lines: seq<string>): nat { |ErrorsOf(lines, 1)| }

  // The text stops, without a newline, in a line that lacks a value.
  predicate CutShort(t: string) {
    t != [] && t[|t| - 1] != '\n' && LineOf(Lines(t)[|Lines(t)| - 1]) == Malformed(EndOfLine)
  }

  lemma {:induction false} ErrorCountIgnoresNumbers(lines: seq<string>, m: nat, n: nat)
    ensures |ErrorsOf(lines, m)| == |ErrorsOf(lines, n)|
  {
    hide LineOf;
    if lines != [] { ErrorCountIgnoresNumbers(lines[1..], m + 1, n + 1); }
  }

  // Errors as the parser reports them: for a text that is cut short, the last number is one too
  // small.
  function Reported(cut: bool, errors: seq<ConfError>): seq<ConfError> {
    if errors == [] then []
    else if cut && |errors| == 1 then [errors[0].(line := errors[0].line - 1)]
    else [errors[0]] + Reported(cut, errors[1..])
  }

  lemma {:induction false} ReportedDiffers(cut: bool, errors: seq<ConfError>)
    ensures |Reported(cut, errors)| == |errors|
    ensures Reported(cut, errors) == errors <==> !cut || errors == []
  {
    if errors != [] { ReportedDiffers(cut, errors[1..]); }
  }

  lemma CutShortLater(t: string)
    requires t != []
    ensures |Lines(t)| >= 1 && Lines(t)[0] == FirstLine(t) && Lines(t)[1..] == Lines(OtherLines(t))
    ensures OtherLines(t) != [] ==> |Lines(t)| > 1 && (CutShort(t) <==> CutShort(OtherLines(t)))
    ensures OtherLines(t) == [] ==>
      |Lines(t)| == 1 && (CutShort(t) <==> FirstLine(t) == t && LineOf(t) == Malformed(EndOfLine))
  {
    hide LineOf, FirstLine;
    var rest := OtherLines(t);
    LastCharacter(t);
    LinesUnfold(t);
    hide OtherLines, Lines;
    if rest == [] {
      NoLines();
    } else {
      LinesUnfold(rest);
      assert Lines(t)[|Lines(t)| - 1] == Lines(rest)[|Lines(rest)| - 1];
    }
  }

  lemma LinesUnfold(t: string)
    requires t != []
    ensures Lines(t) == [FirstLine(t)] + Lines(OtherLines(t))
  {
    hide FirstLine, OtherLines;
  }

  lemma LastCharacter(t: string)
    requires t != []
    ensures OtherLines(t) != [] ==> t[|t| - 1] == OtherLines(t)[|OtherLines(t)| - 1]
    ensures OtherLines(t) == [] ==> (t[|t| - 1] != '\n' <==> FirstLine(t) == t)
    ensures FirstLine(t) == t <==> t[|FirstLine(t)|..] == []
  {
    hide FirstLine;
    var a := FirstLine(t);
    assert t == a + t[|a|..];
    if t[|a|..] == [] { assert t[|t| - 1] in a; }
  }

  lemma {:induction false} ParseFrom(t: string, lineno: nat, errorcount: nat)
    requires errorcount + BadLines(Lines(t)) < 100
    decreases |t|
    ensures ParseText(t, lineno, errorcount).settings == SettingsOf(Lines(t))
    ensures CutShort(t) ==> ErrorsOf(Lines(t), lineno) != []
    ensures ParseText(t, lineno, errorcount).errors == Reported(CutShort(t), ErrorsOf(Lines(t), lineno))
  {
    hide LineOf, ParseText, FirstLine, CutShort, Lines;
    if t == [] {
      ParseNothing(lineno, errorcount);
      NoLines();
    } else {
      CutShortLater(t);
      LastCharacter(t);
      ParseUnfolds(t, lineno, errorcount);
      var rest := OtherLines(t);
      var first := LineOf(FirstLine(t));
      ErrorCountIgnoresNumbers(Lines(t), 1, lineno);
      ErrorCountIgnoresNumbers(Lines(rest), 1, lineno + 1);
      ParseFrom(rest, lineno + 1, errorcount + if first.Malformed? then 1 else 0);
      ErrorsUnfold(Lines(t), lineno);
      if rest == [] { NoLines(); }
    }
  }

  lemma ErrorsUnfold(lines: seq<string>, lineno: nat)
    requires lines != []
    ensures var later := ErrorsOf(lines[1..], lineno + 1);
            ErrorsOf(lines, lineno) ==
            match LineOf(lines[0])
            case Malformed(near) => [ConfError(lineno, near)] + later
            case _ => later
  {
    hide LineOf;
  }

  lemma NoLines()
    ensures Lines([]) == [] && !CutShort([])
  {
  }

  /**
    With fewer than 100 malformed lines, well-formed lines contribute their setting and malformed
    ones nothing, in order, and every malformed line is reported once. The reported numbers are the
    lines' own, unless the text is cut short in a line without newline and value: then, and only
    then, the last number is one too small.
   */
  lemma ParsingIsPerLine(t: string)
    requires BadLines(Lines(t)) < 100
    ensures var p := ParseText(t, 1, 0);
            && p.settings == SettingsOf(Lines(t))
            && |p.errors| == BadLines(Lines(t))
            && (p.errors == ErrorsOf(Lines(t), 1) <==> !CutShort(t))
  {
    hide LineOf, ParseText;
    ParseFrom(t, 1, 0);
    ReportedDiffers(CutShort(t), ErrorsOf(Lines(t), 1));
  }

  /** With 100 malformed lines or more, the file is abandoned after the hundredth. */
  lemma {:induction false} TooManyErrors(t: string, lineno: nat, errorcount: nat)
    requires errorcount < 100 <= errorcount + BadLines(Lines(t))
    decreases |t|
    ensures |ParseText(t, lineno, errorcount).errors| == 100 - errorcount
    ensures ParseText(t, lineno, errorcount).settings <= SettingsOf(Lines(t))
  {
    hide LineOf, ParseText, FirstLine, CutShort, Lines;
    if t == [] { NoLines(); }
    CutShortLater(t);
    ParseUnfolds(t, lineno, errorcount);
    var rest := OtherLines(t);
    var first := LineOf(FirstLine(t));
    ErrorCountIgnoresNumbers(Lines(rest), 1, 2);
    var errorcount' := errorcount + if first.Malformed? then 1 else 0;
    if errorcount' < MAX_ERRORS { TooManyErrors(rest, lineno + 1, errorcount'); }
  }

  /** A file holding one name and nothing else is reported as an error in line 0. */
  lemma CutShortExample()
    ensures CutShort("a") && ParseText("a", 1, 0).errors == [ConfError(0, EndOfLine)]
  {
    NameAlone();
    hide LineOf;
    assert FirstLine("a") == "a";
    assert Lines("a") == ["a"];
  }

  lemma NameAlone()
    ensures LineOf("a") == Malformed(EndOfLine)
  {
    assert RuleOf("a") == 4;
    WholeTextIsToken("a");
  }
}
