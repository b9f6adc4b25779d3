/**
  The parser of configfile-scan.c, which resynchronises at line ends, against a specification that
  reads every line on its own.
 */
module ConfParser {
  import opened ConfRules
  import opened ConfTokens
  import opened ConfLines
  import opened ConfQuote
  import opened ConfScanner
  import opened KeyValues

  const YY_BUF_SIZE: nat := 16384
  const MAX_ERRORS: nat := 100

  datatype Near = EndOfLine | NearToken(text: string)

  datatype LineResult = Blank | Setting(item: Item) | Malformed(near: Near)

  datatype ConfError = ConfError(line: int, near: Near)

  // CONF_ID or CONF_QUALIFIED_ID
  predicate NameRule(r: int) { r == 4 || r == 5 }

  // CONF_ID, CONF_STRING, CONF_UNQUOTED_STRING, CONF_INTEGER or CONF_REAL
  predicate ValueRule(r: int) { r == 4 || 6 <= r <= 9 }

  function ValueOf(r: int, x: string): string
    requires r == RuleOf(x)
  {
    if r == 6 then QuotedIsClosed(x[1..]); UntilNul(Unescape(x[1..])) else x
  }

  // A token that is not what the grammar wants here.
  function Unexpected(t: Token): Near { if t.End? then EndOfLine else NearToken(t.text) }

  // The token after the name and its optional equals sign.
  function ValueToken(a: string): (t: Token)
    ensures t.Token? ==> t.rule == RuleOf(t.text)
  {
    var t := NextToken(a);
    if t.Token? && t.rule == 10 then NextToken(t.rest) else t
  }

  // What a line without its newline says.
  function LineOf(a: string): LineResult {
    var name := NextToken(a);
    if name.End? then Blank
    else if !NameRule(name.rule) then Malformed(Unexpected(name))
    else
      var value := ValueToken(name.rest);
      if value.End? || !ValueRule(value.rule) then Malformed(Unexpected(value))
      else
        var last := NextToken(value.rest);
        if last.End? then Setting(Item(name.text, ValueOf(value.rule, value.text)))
        else Malformed(Unexpected(last))
  }

  function FirstLine(t: string): (a: string)
    ensures |a| <= |t| && t[..|a|] == a && '\n' !in a && LineEnd(t[|a|..])
    ensures a == [] && t != [] ==> t[0] == '\n'
  {
    if t == [] || t[0] == '\n' then [] else [t[0]] + FirstLine(t[1..])
  }

  // Everything after the first line and its newline.
  function OtherLines(t: string): (r: string)
    requires t != []
    ensures |r| < |t|
  {
    var tail := t[|FirstLine(t)|..];
    if tail == [] then [] else tail[1..]
  }

  // The lines of a text; a final newline does not start another line.
  function Lines(t: string): seq<string>
    decreases |t|
  {
    if t == [] then [] else [FirstLine(t)] + Lines(OtherLines(t))
  }

  datatype Parsed = Parsed(settings: seq<Item>, errors: seq<ConfError>)

  // The line number reported for an error: one less than the line's own for an error at the end of
  // a last line without newline.
  function ReportedLine(t: string, near: Near, lineno: nat): int {
    if near.EndOfLine? && FirstLine(t) == t then lineno - 1 else lineno
  }

  // The settings and errors of a text whose first line has the given number, after a number of
  // errors.
  function ParseText(t: string, lineno: nat, errorcount: nat): Parsed
    decreases |t|
  {
    if t == [] then Parsed([], [])
    else
      var line := LineOf(FirstLine(t));
      var rest := OtherLines(t);
      match line
      case Blank => ParseText(rest, lineno + 1, errorcount)
      case Setting(item) =>
        var p := ParseText(rest, lineno + 1, errorcount);
        Parsed([item] + p.settings, p.errors)
      case Malformed(near) =>
        var error := ConfError(ReportedLine(t, near, lineno), near);
        if errorcount + 1 >= MAX_ERRORS then Parsed([], [error])
        else
          var p := ParseText(rest, lineno + 1, errorcount + 1);
          Parsed(p.settings, [error] + p.errors)
  }

  // One call of the scanner in the middle of a line.
  method LexOnLine(scanner: Scanner, ghost a: string, ghost tail: string)
    returns (rule: int, text: string, ghost a': string)
    requires scanner.Valid() && scanner.Rest() == a + tail && '\n' !in a && LineEnd(tail)
    modifies scanner, scanner.buf
    ensures scanner.Valid() && (scanner.buf == old(scanner.buf) || fresh(scanner.buf))
    ensures match NextToken(a)
            case End =>
              && a' == [] && scanner.lineno == old(scanner.lineno) + (if tail == [] then 0 else 1)
              && (if tail == [] then rule == 0 && scanner.Rest() == []
                  else rule == 1 && scanner.Rest() == tail[1..])
            case Token(r, x, rest) =>
              && rule == r && rule > 1 && text == x && a' == rest && |a'| < |a| && '\n' !in a'
              && scanner.Rest() == a' + tail && scanner.lineno == old(scanner.lineno)
  {
    hide RuleOf;
    assert scanner.Rest() == a + tail;
    NextTokenOnLine(a, tail);
    rule, text := scanner.Lex();
    a' := match NextToken(a) case End => [] case Token(_, _, rest) => rest;
    RuleIsNatural(text);
  }

  lemma RuleIsNatural(t: string)
    ensures RuleOf(t) >= 0
  {
  }

  // What reading a line up to its newline leaves behind.
  ghost predicate AtNextLine(scanner: Scanner, token: int, tail: string)
    reads scanner, scanner.buf
  {
    && scanner.Valid()
    && (if tail == [] then token == 0 && scanner.Rest() == [] else token == 1 && scanner.Rest() == tail[1..])
  }

  // The token after the name, past an optional equals sign.
  method LexValue(scanner: Scanner, ghost a: string, ghost tail: string)
    returns (rule: int, text: string, ghost a': string)
    requires scanner.Valid() && scanner.Rest() == a + tail && '\n' !in a && LineEnd(tail)
    modifies scanner, scanner.buf
    ensures scanner.Valid() && (scanner.buf == old(scanner.buf) || fresh(scanner.buf))
    ensures match ValueToken(a)
            case End =>
              && rule < 2 && AtNextLine(scanner, rule, tail)
              && scanner.lineno == old(scanner.lineno) + (if tail == [] then 0 else 1)
            case Token(r, x, rest) =>
              && rule == r && rule > 1 && text == x && a' == rest && '\n' !in a'
              && scanner.Rest() == a' + tail && scanner.lineno == old(scanner.lineno)
  {
    hide RuleOf, NextToken, Scanner.Valid, Scanner.Rest, Scanner.Sound;
    rule, text, a' := LexOnLine(scanner, a, tail);
    if rule == 10 {
      rule, text, a' := LexOnLine(scanner, a', tail);
    }
  }

  // The tokens of one logical line: the option name, an optional equals sign, the value and the
  // end of the line. The last token read tells where an error was found.
  method ReadLine(scanner: Scanner, ghost a: string, ghost tail: string)
    returns (line: LineResult, token: int, ghost rest: string)
    requires scanner.Valid() && scanner.Rest() == a + tail && '\n' !in a && LineEnd(tail)
    modifies scanner, scanner.buf
    ensures scanner.Valid() && (scanner.buf == old(scanner.buf) || fresh(scanner.buf))
    ensures line == LineOf(a)
    ensures line.Malformed? && line.near.NearToken? ==>
      token > 1 && scanner.Rest() == rest + tail && '\n' !in rest && scanner.lineno == old(scanner.lineno)
    ensures !(line.Malformed? && line.near.NearToken?) ==>
      && AtNextLine(scanner, token, tail)
      && scanner.lineno == old(scanner.lineno) + (if tail == [] && !line.Setting? then 0 else 1)
  {
    hide RuleOf, NextToken, ValueToken, UntilNul, Unescape, Closed, QuotedString, NulFree;
    hide Scanner.Valid, Scanner.Rest, Scanner.Sound;
    var text;
    rest := a;
    token, text, rest := LexOnLine(scanner, rest, tail);
    if token == 1 || token == 0 {
      line := Blank;
      return;
    }
    if !NameRule(token) {
      line := Malformed(NearToken(text));
      return;
    }
    var name := text;
    token, text, rest := LexValue(scanner, rest, tail);
    if !ValueRule(token) {
      line := Malformed(if token == 1 || token == 0 then EndOfLine else NearToken(text));
      return;
    }
    var value := text;
    if token == 6 {
      StringShape(text);
      value := ScanStr(text);
    }
    token, text, rest := LexOnLine(scanner, rest, tail);
    if token != 1 {
      if token != 0 {
        line := Malformed(NearToken(text));
        return;
      }
      scanner.CountLine();
    }
    line := Setting(Item(name, value));
  }

  lemma StringShape(x: string)
    requires RuleOf(x) == 6
    ensures x != [] && x[0] == '\'' && Closed(x[1..])
  {
    QuotedIsClosed(x[1..]);
  }

  // After an error: skip to the next end of line or to the end of the input.
  method Resync(scanner: Scanner, first: int, ghost rest0: string, ghost tail: string) returns (token: int)
    requires scanner.Valid() && LineEnd(tail)
    requires if first < 2 then AtNextLine(scanner, first, tail)
             else scanner.Rest() == rest0 + tail && '\n' !in rest0
    modifies scanner, scanner.buf
    ensures scanner.Valid() && (scanner.buf == old(scanner.buf) || fresh(scanner.buf))
    ensures AtNextLine(scanner, token, tail)
    ensures scanner.lineno == old(scanner.lineno) + (if first >= 2 && tail != [] then 1 else 0)
  {
    hide RuleOf, NextToken, NulFree, Scanner.Valid, Scanner.Rest, Scanner.Sound;
    token := first;
    ghost var rest := rest0;
    while token != 1 && token != 0
      invariant scanner.Valid() && (scanner.buf == old(scanner.buf) || fresh(scanner.buf))
      invariant token < 2 ==> AtNextLine(scanner, token, tail)
      invariant token < 2 ==> scanner.lineno == old(scanner.lineno) + (if first >= 2 && tail != [] then 1 else 0)
      invariant token >= 2 ==>
        first >= 2 && scanner.Rest() == rest + tail && '\n' !in rest && scanner.lineno == old(scanner.lineno)
      decreases |rest|, token >= 2
    {
      var text;
      token, text, rest := LexOnLine(scanner, rest, tail);
    }
  }

  /**
    ProcessConfigFile. With a list of contents, every setting is put into it in order. The result
    is true when no error was found.
   */
  method ProcessConfigFile(input: string, contents: KeyValueList?)
    returns (ok: bool, settings: seq<Item>, errors: seq<ConfError>)
    requires NulFree(input)
    modifies if contents == null then {} else {contents}
    ensures Parsed(settings, errors) == ParseText(input, 1, 0)
    ensures ok <==> errors == []
    ensures contents != null ==> contents.cells == PutAll(old(contents.cells), settings)
  {
    hide RuleOf, NextToken, LineOf, NulFree, Scanner.Valid, Scanner.Rest, Scanner.Sound;
    hide ParseText, FirstLine, PutAll, After;
    var scanner := new Scanner(input, YY_BUF_SIZE);
    var errorcount := 0;
    ok, settings, errors := true, [], [];
    ghost var t := input;
    AfterNothing(ParseText(t, 1, 0));
    PutNothing(contents);
    while true
      invariant scanner.Valid() && scanner.Rest() == t && fresh(scanner) && fresh(scanner.buf)
      invariant errorcount == |errors| < MAX_ERRORS && (ok <==> errors == [])
      invariant contents != null ==> contents.cells == PutAll(old(contents.cells), settings)
      invariant ParseText(input, 1, 0) == After(settings, errors, ParseText(t, scanner.lineno, errorcount))
      decreases |t|
    {
      ghost var a := FirstLine(t);
      ghost var tail := t[|a|..];
      assert t == a + tail;
      ghost var lineno := scanner.lineno;
      ParseUnfolds(t, lineno, errorcount);
      ParseNothing(lineno + 1, errorcount);
      ParseNothing(lineno + 1, errorcount + 1);
      var line, token;
      ghost var rest;
      line, token, rest := ReadLine(scanner, a, tail);
      ghost var p := if tail == [] then Parsed([], []) else ParseText(tail[1..], lineno + 1, errorcount);
      match line {
        case Blank =>
        case Setting(item) =>
          AfterComposes(settings, errors, [item], [], p);
          if contents != null { contents.Set(true, item.key, item.value); }
          PutAllSnoc(if contents == null then [] else old(contents.cells), settings, item);
          settings := settings + [item];
        case Malformed(near) =>
          var where := if token == 1 || token == 0 then scanner.lineno - 1 else scanner.lineno;
          ghost var error := ConfError(where, near);
          p := if tail == [] then Parsed([], []) else ParseText(tail[1..], lineno + 1, errorcount + 1);
          AfterComposes(settings, errors, [], [error], p);
          errors := errors + [ConfError(where, near)];
          ok := false;
          errorcount := errorcount + 1;
          if errorcount >= MAX_ERRORS { return; }
          token := Resync(scanner, token, rest, tail);
      }
      if token == 0 {
        AfterComposes(settings, errors, [], [], p);
        return;
      }
      t := tail[1..];
    }
  }

  function After(settings: seq<Item>, errors: seq<ConfError>, p: Parsed): Parsed {
    Parsed(settings + p.settings, errors + p.errors)
  }

  lemma AfterComposes(s1: seq<Item>, e1: seq<ConfError>, s2: seq<Item>, e2: seq<ConfError>, p: Parsed)
    ensures After(s1, e1, After(s2, e2, p)) == After(s1 + s2, e1 + e2, p)
    ensures After(s1, e1, Parsed(s2, e2)) == Parsed(s1 + s2, e1 + e2)
    ensures s1 + [] == s1 && e1 + [] == e1
  {
    assert s1 + (s2 + p.settings) == (s1 + s2) + p.settings;
    assert e1 + (e2 + p.errors) == (e1 + e2) + p.errors;
  }

  lemma AfterNothing(p: Parsed)
    ensures After([], [], p) == p
  {
  }

  lemma ParseNothing(lineno: nat, errorcount: nat)
    ensures ParseText([], lineno, errorcount) == Parsed([], [])
  {
  }

  lemma PutNothing(contents: KeyValueList?)
    ensures contents != null ==> contents.cells == PutAll(contents.cells, [])
  {
  }

  // One line of ParseText, in the terms of ProcessConfigFile.
  lemma ParseUnfolds(t: string, lineno: nat, errorcount: nat)
    requires errorcount < MAX_ERRORS
    ensures var a := FirstLine(t);
            var tail := t[|a|..];
            var rest := if tail == [] then [] else tail[1..];
            var p := ParseText(t, lineno, errorcount);
            match LineOf(a)
            case Blank => p == ParseText(rest, lineno + 1, errorcount)
            case Setting(item) => p == After([item], [], ParseText(rest, lineno + 1, errorcount))
            case Malformed(near) =>
              var error := ConfError(if near.EndOfLine? && tail == [] then lineno - 1 else lineno, near);
              p == if errorcount + 1 == MAX_ERRORS then Parsed([], [error])
                   else After([], [error], ParseText(rest, lineno + 1, errorcount + 1))
  {
    hide ParseText, LineOf, FirstLine;
    ParseNothing(lineno, errorcount);
    ParseNothing(lineno + 1, errorcount);
    if t == [] {
      BlankLine();
    } else {
      OneLine(t, lineno, errorcount);
      LastLine(t);
    }
  }

  lemma OneLine(t: string, lineno: nat, errorcount: nat)
    requires t != [] && errorcount < MAX_ERRORS
    ensures var p := ParseText(t, lineno, errorcount);
            match LineOf(FirstLine(t))
            case Blank => p == ParseText(OtherLines(t), lineno + 1, errorcount)
            case Setting(item) => p == After([item], [], ParseText(OtherLines(t), lineno + 1, errorcount))
            case Malformed(near) =>
              var error := ConfError(ReportedLine(t, near, lineno), near);
              p == if errorcount + 1 == MAX_ERRORS then Parsed([], [error])
                   else After([], [error], ParseText(OtherLines(t), lineno + 1, errorcount + 1))
  {
    hide LineOf, FirstLine, OtherLines, ReportedLine;
  }

  lemma LastLine(t: string)
    ensures FirstLine(t) == t <==> t[|FirstLine(t)|..] == []
  {
    var a := FirstLine(t);
    hide FirstLine;
    assert t == t[..|a|] + t[|a|..];
  }

  lemma BlankLine()
    ensures LineOf([]) == Blank
  {
  }

  lemma {:induction false} PutAllSnoc(cells: seq<Item>, items: seq<Item>, item: Item)
    ensures PutAll(cells, items + [item]) == Put(PutAll(cells, items), item)
    decreases |items|
  {
    if items == [] {
      assert items + [item] == [item];
    } else {
      assert (items + [item])[1..] == items[1..] + [item];
      PutAllSnoc(Put(cells, items[0]), items[1..], item);
    }
  }
}
