/**
  The report of a node about its shutdown, from "repmgr node status --is-shutdown-cleanly" on the
  old primary to the switchover that tokenises and parses it.
 */
module ShutdownReport {

  datatype NodeStatus = Unknown | Up | ShuttingDown | Down | UncleanShutdown | Rejected

  datatype Ping = PingOk | PingReject | PingNoResponse | PingNoAttempt

  // The states of the control file.
  datatype DbState = DbStartup | DbShutdowned | DbShutdownedInRecovery | DbShutdowning | DbInCrashRecovery
    | DbInArchiveRecovery | DbInProduction

  const INVALID_LSN := 0
  const TWO32 := 0x1_0000_0000

  // ---- Printing ----

  // print_node_status
  function StatusText(s: NodeStatus): string {
    match s
    case Unknown => "UNKNOWN"
    case Up => "UP"
    case ShuttingDown => "SHUTTING_DOWN"
    case Down => "SHUTDOWN"
    case UncleanShutdown => "UNCLEAN_SHUTDOWN"
    case Rejected => "REJECTED"
  }

  function HexChar(d: nat): char
    requires d < 16
  {
    if d < 10 then '0' + d as char else 'A' + (d - 10) as char
  }

  // %X
  function Hex(n: nat): (s: string)
    ensures s != []
  {
    if n < 16 then [HexChar(n)] else Hex(n / 16) + [HexChar(n % 16)]
  }

  // format_lsn with %X/%X, for an LSN of 64 bits
  function FormatLsn(lsn: nat): string { Hex(lsn / TWO32) + "/" + Hex(lsn % TWO32) }

  function StateName(): string { "state" }

  function LsnName(): string { "last-checkpoint-lsn" }

  function StateKey(): string { "--" + StateName() }

  function LsnKey(): string { "--" + LsnName() }

  function Line(s: NodeStatus, checkpoint: nat): string {
    StateKey() + "=" + StatusText(s)
    + (if s == Down then " " + (LsnKey() + "=" + FormatLsn(checkpoint)) else "") + "\n"
  }

  // What the report is about.
  datatype NodeState = NodeState(isPgDir: bool, ping: Ping, state: DbState, checkpoint: nat)

  predicate Answers(p: Ping) { p == PingOk || p == PingReject }

  predicate CleanState(d: DbState) { d == DbShutdowned || d == DbShutdownedInRecovery }

  // _do_node_status_is_shutdown_cleanly
  method PrintReport(n: NodeState) returns (output: string, status: NodeStatus)
    requires n.checkpoint < TWO32 * TWO32
    ensures output == Line(status, n.checkpoint)
    ensures status == Down <==>
            n.isPgDir && !Answers(n.ping) && CleanState(n.state) && n.checkpoint != INVALID_LSN
    ensures status == UncleanShutdown <==>
            n.isPgDir && !Answers(n.ping) && !CleanState(n.state) && n.checkpoint != INVALID_LSN
    ensures status == Unknown <==> !n.isPgDir || n.checkpoint == INVALID_LSN
    ensures status == ShuttingDown <==>
            n.isPgDir && Answers(n.ping) && n.state == DbShutdowning && n.checkpoint != INVALID_LSN
    ensures status == Up <==>
            n.isPgDir && Answers(n.ping) && n.state != DbShutdowning && n.checkpoint != INVALID_LSN
    ensures status != Rejected
  {
    hide Line, StatusText;
    if !n.isPgDir { return Line(Unknown, n.checkpoint), Unknown; }
    status := Unknown;
    match n.ping {
      case PingOk => status := Up;
      case PingReject => status := Up;
      case PingNoAttempt =>
      case PingNoResponse =>
    }
    if n.state != DbShutdowned && n.state != DbShutdownedInRecovery {
      if status != Up {
        status := UncleanShutdown;
      } else if n.state == DbShutdowning {
        status := ShuttingDown;
      }
    }
    if n.checkpoint == INVALID_LSN {
      status := Unknown;
    } else if status == Unknown {
      status := Down;
    }
    output := Line(status, n.checkpoint);
  }

  // ---- Tokenising ----

  predicate IsSpace(c: char) {
    c == ' ' || c == '\t' || c == '\n' || c == '\U{B}' || c == '\U{C}' || c == '\r'
  }

  function TrimRight(s: string): string {
    if s != [] && IsSpace(s[|s| - 1]) then TrimRight(s[..|s| - 1]) else s
  }

  function TrimLeft(s: string): string {
    if s != [] && IsSpace(s[0]) then TrimLeft(s[1..]) else s
  }

  // trim
  function Trim(s: string): string { TrimLeft(TrimRight(s)) }

  function SkipBlanks(s: string): (r: string)
    ensures |r| <= |s| && (r != [] ==> r[0] != ' ')
  {
    if s != [] && s[0] == ' ' then SkipBlanks(s[1..]) else s
  }

  function WordLength(s: string): (n: nat)
    ensures n <= |s|
  {
    if s == [] || s[0] == ' ' then 0 else 1 + WordLength(s[1..])
  }

  // The words between blanks, each trimmed.
  function Words(s: string): seq<string>
    decreases |s|
  {
    var t := SkipBlanks(s);
    if t == [] then [] else [Trim(t[..WordLength(t)])] + Words(t[WordLength(t)..])
  }

  // strtok with a blank as delimiter, from position i on
  method Strtok(s: string, i: nat) returns (found: bool, token: string, next: nat)
    requires i <= |s|
    ensures i <= next <= |s| && (found ==> i < next)
    ensures Words(s[i..]) == if found then [Trim(token)] + Words(s[next..]) else []
  {
    hide Trim, SkipBlanks, WordLength;
    var start := BlanksEnd(s, i);
    ghost var t := s[start..];
    if start == |s| { return false, "", start; }
    next := WordEnd(s, start);
    token := s[start..next];
    assert t[..next - start] == token && t[next - start..] == s[next..];
    found := true;
  }

  method BlanksEnd(s: string, i: nat) returns (start: nat)
    requires i <= |s|
    ensures i <= start <= |s| && SkipBlanks(s[i..]) == s[start..] && (start < |s| ==> s[start] != ' ')
  {
    start := i;
    while start < |s| && s[start] == ' '
      invariant i <= start <= |s| && SkipBlanks(s[i..]) == SkipBlanks(s[start..])
    {
      assert s[start..][1..] == s[start + 1..];
      start := start + 1;
    }
  }

  method WordEnd(s: string, start: nat) returns (next: nat)
    requires start < |s| && s[start] != ' '
    ensures start < next <= |s| && next - start == WordLength(s[start..])
  {
    next := start;
    while next < |s| && s[next] != ' '
      invariant start <= next <= |s| && WordLength(s[start..]) == next - start + WordLength(s[next..])
    {
      assert s[next..][1..] == s[next + 1..];
      next := next + 1;
    }
    assert WordLength(s[next..]) == 0;
  }

  // parse_output_to_argv; the first element stands for the program name.
  method ParseOutputToArgv(s: string) returns (argv: seq<string>)
    ensures argv == [""] + Words(s)
  {
    hide Trim, Words;
    argv := [""];
    var i := 0;
    assert s[0..] == s;
    var found, token, next := Strtok(s, i);
    while found
      invariant i <= next <= |s| && (found ==> i < next)
      invariant [""] + Words(s) == argv + if found then [Trim(token)] + Words(s[next..]) else []
      decreases |s| - i, found
    {
      ghost var tail := Words(s[next..]);
      assert argv + ([Trim(token)] + tail) == (argv + [Trim(token)]) + tail;
      argv := argv + [Trim(token)];
      i := next;
      found, token, next := Strtok(s, i);
    }
  }

  // ---- Parsing ----

  function HexValue(c: char): (v: int)
    ensures -1 <= v < 16
  {
    if '0' <= c <= '9' then c as int - '0' as int
    else if 'A' <= c <= 'F' then c as int - 'A' as int + 10
    else if 'a' <= c <= 'f' then c as int - 'a' as int + 10
    else -1
  }

  predicate IsHex(c: char) { HexValue(c) >= 0 }

  datatype Number = Number(value: nat, rest: string)

  // %x: the digits read so far stand for n.
  function ScanHex(n: nat, s: string): Number
    decreases |s|
  {
    if s != [] && IsHex(s[0]) then ScanHex(n * 16 + HexValue(s[0]), s[1..]) else Number(n, s)
  }

  // parse_lsn
  function ParseLsn(s: string): nat {
    if s == [] || !IsHex(s[0]) then INVALID_LSN
    else
      var high := ScanHex(0, s);
      var t := high.rest;
      if |t| < 2 || t[0] != '/' || !IsHex(t[1]) then INVALID_LSN
      else (high.value % TWO32) * TWO32 + ScanHex(0, t[1..]).value % TWO32
  }

  function KeyLength(s: string): (n: nat)
    ensures n <= |s|
  {
    if s == [] || s[0] == '=' then 0 else 1 + KeyLength(s[1..])
  }

  datatype Parse = Parse(status: NodeStatus, lsn: nat)

  datatype Option = StateOption | LsnOption | NoOption

  // The assignment for one option.
  function WithOption(p: Parse, o: Option, value: string): Parse {
    if o == LsnOption then p.(lsn := ParseLsn(value))
    else if o == NoOption then p
    else if value == "RUNNING" then p.(status := Up)
    else if value == "SHUTDOWN" then p.(status := Down)
    else if value == "UNCLEAN_SHUTDOWN" then p.(status := UncleanShutdown)
    else if value == "UNKNOWN" then p.(status := Unknown)
    else p
  }

  // A long name may be cut short: the two names differ in their first letter.
  function LongOption(name: string): Option {
    if name == "" then NoOption
    else if name <= StateName() then StateOption
    else if name <= LsnName() then LsnOption
    else NoOption
  }

  function ShortOption(c: char): Option {
    if c == 'S' then StateOption else if c == 'L' then LsnOption else NoOption
  }

  // What one argument is for getopt_long.
  datatype Argument = Ignored | Complete(option: Option, value: string) | Wants(option: Option)

  // The letters behind one '-': a known letter takes the rest as its value, or the next argument.
  function Letters(s: string): Argument {
    if s == [] then Ignored
    else
      var o := ShortOption(s[0]);
      if o == NoOption then Letters(s[1..])
      else if |s| > 1 then Complete(o, s[1..])
      else Wants(o)
  }

  function LongArgument(s: string): Argument {
    var n := KeyLength(s);
    var o := LongOption(s[..n]);
    if o == NoOption then Ignored
    else if n < |s| then Complete(o, s[n + 1..])
    else Wants(o)
  }

  function ReadArgument(arg: string): Argument {
    if "--" <= arg then LongArgument(arg[2..])
    else if "-" <= arg then Letters(arg[1..])
    else Ignored
  }

  // The options in the order in which getopt_long reports them.
  function WithOptions(p: Parse, args: seq<string>): Parse
    decreases |args|
  {
    if args == [] || args[0] == "--" then p
    else
      match ReadArgument(args[0])
      case Ignored => WithOptions(p, args[1..])
      case Complete(o, value) => WithOptions(WithOption(p, o, value), args[1..])
      case Wants(o) => if |args| == 1 then p else WithOptions(WithOption(p, o, args[1]), args[2..])
  }

  // What the output of the remote command means; lsn is what the caller knew before.
  function ParseStatus(output: string, lsn: nat): Parse {
    if output == "" then Parse(Unknown, INVALID_LSN) else WithOptions(Parse(Unknown, lsn), Words(output))
  }

  // parse_node_status_is_shutdown_cleanly
  method ParseNodeStatus(output: string, lsn: nat) returns (p: Parse)
    ensures p == ParseStatus(output, lsn)
  {
    hide Words, WithOption, ReadArgument;
    p := Parse(Unknown, lsn);
    if |output| == 0 { return p.(lsn := INVALID_LSN); }
    var argv := ParseOutputToArgv(output);
    var optind := 1;
    assert argv[1..] == Words(output);
    while optind < |argv| && argv[optind] != "--"
      invariant 1 <= optind <= |argv|
      invariant ParseStatus(output, lsn) == WithOptions(p, argv[optind..])
    {
      ghost var args := argv[optind..];
      var arg := ReadArgument(argv[optind]);
      optind := optind + 1;
      assert args[1..] == argv[optind..];
      match arg {
        case Ignored =>
        case Complete(o, value) => p := WithOption(p, o, value);
        case Wants(o) =>
          if optind < |argv| {
            assert args[2..] == argv[optind + 1..] && args[1] == argv[optind];
            p := WithOption(p, o, argv[optind]);
            optind := optind + 1;
          }
      }
    }
  }

  // ---- Reading back ----

  lemma HexCharBack(d: nat)
    requires d < 16
    ensures HexValue(HexChar(d)) == d && !IsSpace(HexChar(d)) && HexChar(d) != ' '
    ensures d >= 10 ==> HexValue("abcdef"[d - 10]) == d
  {
  }

  lemma {:induction false} HexBack(n: nat, t: string)
    ensures ScanHex(0, Hex(n) + t) == ScanHex(n, t)
    decreases n
  {
    var last := n % 16;
    HexCharBack(last);
    hide HexChar, HexValue;
    var c := HexChar(last);
    if n >= 16 {
      HexBack(n / 16, [c] + t);
      assert Hex(n) + t == Hex(n / 16) + ([c] + t);
      assert ([c] + t)[1..] == t;
    } else {
      assert (Hex(n) + t)[1..] == t;
    }
  }

  predicate HexDigits(s: string) { forall i :: 0 <= i < |s| ==> IsHex(s[i]) && !IsSpace(s[i]) }

  lemma {:induction false} HexIsDigits(n: nat)
    ensures HexDigits(Hex(n))
  {
    HexCharBack(n % 16);
    hide HexChar, HexValue, IsSpace;
    if n >= 16 { HexIsDigits(n / 16); }
  }

  lemma ParseTwoNumbers(a: string, b: string, high: nat, low: nat)
    requires a != [] && IsHex(a[0]) && b != [] && IsHex(b[0])
    requires ScanHex(0, a + ("/" + b)) == Number(high, "/" + b) && ScanHex(0, b).value == low
    ensures ParseLsn(a + ("/" + b)) == (high % TWO32) * TWO32 + low % TWO32
  {
    hide ScanHex, HexValue;
    assert ("/" + b)[1..] == b;
  }

  /** parse_lsn undoes format_lsn, for every LSN of 64 bits. */
  lemma LsnBack(lsn: nat)
    requires lsn < TWO32 * TWO32
    ensures ParseLsn(FormatLsn(lsn)) == lsn
  {
    var high, low := Halves(lsn);
    hide *;
    var a, b := Hex(high), Hex(low);
    NumberBack(high, "/" + b);
    NumberBack(low, []);
    assert b + [] == b;
    ParseTwoNumbers(a, b, high, low);
  }

  lemma Halves(lsn: nat) returns (high: nat, low: nat)
    requires lsn < TWO32 * TWO32
    ensures FormatLsn(lsn) == Hex(high) + ("/" + Hex(low))
    ensures (high % TWO32) * TWO32 + low % TWO32 == lsn
  {
    hide Hex;
    high, low := lsn / TWO32, lsn % TWO32;
    assert Hex(high) + "/" + Hex(low) == Hex(high) + ("/" + Hex(low));
  }

  // A printed number with no digit behind it.
  lemma NumberBack(n: nat, rest: string)
    requires rest == [] || rest[0] == '/'
    ensures IsHex(Hex(n)[0]) && ScanHex(0, Hex(n) + rest) == Number(n, rest)
  {
    HexIsDigits(n);
    HexBack(n, rest);
    SlashIsNotHex();
    hide Hex, IsHex;
  }

  lemma SlashIsNotHex()
    ensures !IsHex('/')
  {
  }

  lemma {:induction false} KeyThenEquals(key: string, value: string)
    requires '=' !in key
    ensures KeyLength(key + ("=" + value)) == |key|
  {
    if key == [] {
      assert key + ("=" + value) == "=" + value;
    } else {
      assert (key + ("=" + value))[1..] == key[1..] + ("=" + value);
      KeyThenEquals(key[1..], value);
    }
  }

  lemma OptionThen(p: Parse, name: string, value: string, rest: seq<string>)
    requires '=' !in name && LongOption(name) != NoOption
    ensures WithOptions(p, ["--" + name + ("=" + value)] + rest)
            == WithOptions(WithOption(p, LongOption(name), value), rest)
  {
    hide WithOption, KeyLength, LongOption;
    var arg := "--" + name + ("=" + value);
    var s := name + ("=" + value);
    KeyThenEquals(name, value);
    assert ([arg] + rest)[1..] == rest;
    assert arg[..2] == "--" && arg[2..] == s;
    assert s[..|name|] == name && s[|name| + 1..] == value;
    assert ReadArgument(arg) == Complete(LongOption(name), value);
  }

  lemma {:induction false} WordThen(w: string, rest: string)
    requires ' ' !in w && (rest == [] || rest[0] == ' ')
    ensures WordLength(w + rest) == |w|
  {
    if w == [] {
      assert w + rest == rest;
    } else {
      assert (w + rest)[1..] == w[1..] + rest;
      WordThen(w[1..], rest);
    }
  }

  lemma WordsOf(w: string, rest: string)
    requires w != [] && ' ' !in w && (rest == [] || rest[0] == ' ')
    ensures Words(w + rest) == [Trim(w)] + Words(rest)
  {
    hide Trim;
    WordThen(w, rest);
    assert (w + rest)[..|w|] == w && (w + rest)[|w|..] == rest;
  }

  lemma BlankThenWords(rest: string)
    ensures Words(" " + rest) == Words(rest)
  {
    hide Trim;
    assert (" " + rest)[1..] == rest;
  }

  // Nothing to trim, except for a newline at the end.
  lemma NothingToTrim(w: string)
    requires w != [] && !IsSpace(w[0]) && !IsSpace(w[|w| - 1])
    ensures Trim(w) == w && Trim(w + "\n") == w
  {
    assert (w + "\n")[..|w|] == w;
  }

  lemma NamesAreFine()
    ensures '=' !in StateName() && ' ' !in StateName() && LongOption(StateName()) == StateOption
    ensures '=' !in LsnName() && ' ' !in LsnName() && LongOption(LsnName()) == LsnOption
  {
    assert LsnName()[0] == 'l' && StateName()[0] == 's';
  }

  lemma KeysAreFine()
    ensures ' ' !in StateKey() && StateKey() != [] && StateKey()[0] == '-'
    ensures ' ' !in LsnKey() && LsnKey() != [] && LsnKey()[0] == '-'
  {
    NamesAreFine();
    hide StateName, LsnName, LongOption;
  }

  lemma TextIsFine(s: NodeStatus)
    ensures var t := StatusText(s); t != [] && ' ' !in t && !IsSpace(t[|t| - 1])
  {
  }

  lemma LsnIsFine(lsn: nat)
    ensures var t := FormatLsn(lsn); t != [] && ' ' !in t && !IsSpace(t[|t| - 1])
  {
    hide Hex, HexValue;
    HexIsDigits(lsn / TWO32);
    HexIsDigits(lsn % TWO32);
    var a, b := Hex(lsn / TWO32), Hex(lsn % TWO32);
    var t := FormatLsn(lsn);
    assert t == a + ("/" + b);
    assert t[|t| - 1] == b[|b| - 1];
    forall i | 0 <= i < |t| ensures t[i] != ' ' {
      if i < |a| {
        assert t[i] == a[i] && !IsSpace(a[i]);
      } else if i > |a| {
        assert t[i] == b[i - |a| - 1] && !IsSpace(b[i - |a| - 1]);
      }
    }
  }

  // The words of a printed report.
  lemma ReportWords(s: NodeStatus, checkpoint: nat)
    ensures Words(Line(s, checkpoint)) ==
            [StateKey() + ("=" + StatusText(s))]
            + if s == Down then [LsnKey() + ("=" + FormatLsn(checkpoint))] else []
  {
    KeysAreFine();
    TextIsFine(s);
    LsnIsFine(checkpoint);
    hide StateKey, LsnKey, StatusText, FormatLsn, Trim, Words;
    var w := StateKey() + ("=" + StatusText(s));
    var v := LsnKey() + ("=" + FormatLsn(checkpoint));
    NoWords();
    NothingToTrim(w);
    NothingToTrim(v);
    if s == Down {
      assert Line(s, checkpoint) == w + (" " + (v + "\n"));
      WordsOf(w, " " + (v + "\n"));
      BlankThenWords(v + "\n");
      assert v + "\n" == (v + "\n") + [];
      WordsOf(v + "\n", []);
    } else {
      assert Line(s, checkpoint) == (w + "\n") + [];
      WordsOf(w + "\n", []);
    }
  }

  lemma NoWords()
    ensures Words([]) == []
  {
  }

  // What the parser makes of a printed status.
  function ReadStatus(s: NodeStatus): NodeStatus {
    if s == Down || s == UncleanShutdown then s else Unknown
  }

  lemma StatusBack(p: Parse, s: NodeStatus)
    requires p.status == Unknown
    ensures WithOption(p, StateOption, StatusText(s)) == p.(status := ReadStatus(s))
  {
    hide ParseLsn;
    assert |"RUNNING"| == 7 && |"SHUTDOWN"| == 8 && |"UNCLEAN_SHUTDOWN"| == 16 && |"UNKNOWN"| == 7;
    assert |"UP"| == 2 && |"SHUTTING_DOWN"| == 13 && |"REJECTED"| == 8;
    assert "RUNNING"[0] == 'R' && "UNKNOWN"[0] == 'U' && "SHUTDOWN"[0] == 'S' && "REJECTED"[0] == 'R';
  }

  /**
    A report survives the wire: "down" arrives as down with the very checkpoint that was printed,
    nothing else arrives as down, and whatever else was printed leaves the checkpoint alone.
   */
  lemma ReportReadsBack(s: NodeStatus, checkpoint: nat, known: nat)
    requires checkpoint < TWO32 * TWO32
    ensures ParseStatus(Line(s, checkpoint), known) == Parse(ReadStatus(s), if s == Down then checkpoint else known)
  {
    ReportWords(s, checkpoint);
    NamesAreFine();
    LsnBack(checkpoint);
    var p := Parse(Unknown, known);
    StatusBack(p, s);
    var q := WithOption(p, StateOption, StatusText(s));
    LsnValue(q, FormatLsn(checkpoint));
    LineIsNotEmpty(s, checkpoint);
    hide StateName, LsnName, StatusText, FormatLsn, Words, ParseLsn, WithOption, LongOption, Line;
    if s == Down {
      var lsn := LsnKey() + ("=" + FormatLsn(checkpoint));
      OptionThen(p, StateName(), StatusText(s), [lsn]);
      assert [lsn] == [lsn] + [];
      OptionThen(q, LsnName(), FormatLsn(checkpoint), []);
    } else {
      OptionThen(p, StateName(), StatusText(s), []);
    }
  }

  lemma LsnValue(p: Parse, v: string)
    ensures WithOption(p, LsnOption, v) == p.(lsn := ParseLsn(v))
  {
  }

  lemma LineIsNotEmpty(s: NodeStatus, checkpoint: nat)
    ensures Line(s, checkpoint) != ""
  {
    hide StateKey, LsnKey, StatusText, FormatLsn;
  }

  /**
    A status is read back as it was printed exactly when it is unknown, down or an unclean shutdown:
    the parser looks for "RUNNING", which is never printed, and knows no word for shutting down.
   */
  lemma StatusReadsBackIff(s: NodeStatus, checkpoint: nat, known: nat)
    requires checkpoint < TWO32 * TWO32
    ensures ParseStatus(Line(s, checkpoint), known).status == s <==> s in {Unknown, Down, UncleanShutdown}
  {
    hide ParseStatus, Line;
    ReportReadsBack(s, checkpoint, known);
  }

  /** No output at all is read as shutting down or as rejected. */
  lemma {:induction false} NeverShuttingDown(p: Parse, args: seq<string>)
    requires p.status !in {ShuttingDown, Rejected}
    ensures WithOptions(p, args).status !in {ShuttingDown, Rejected}
    decreases |args|
  {
    hide ReadArgument, ParseLsn;
    if args != [] && args[0] != "--" {
      match ReadArgument(args[0])
      case Ignored => NeverShuttingDown(p, args[1..]);
      case Complete(o, value) => NeverShuttingDown(WithOption(p, o, value), args[1..]);
      case Wants(o) =>
        if |args| > 1 { NeverShuttingDown(WithOption(p, o, args[1]), args[2..]); }
    }
  }
}
