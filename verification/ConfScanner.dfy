/**
  The refilling scanner of configfile-scan.c: a character buffer with two end-of-buffer sentinels,
  a hold character under the terminating NUL of the current token, and a matcher that backs up to
  its last accepting position. Positions are indexes into the buffer.
 */
module ConfScanner {
  import opened FlexTables
  import opened ConfRules
  import opened ConfDfa
  import opened ConfTokens

  datatype Status = New | Normal | EofPending

  datatype Refill = ContinueScan | EndOfFile | LastMatch

  const YY_READ_BUF_SIZE: nat := 8192
  const YY_END_OF_BUFFER := 13

  // Subtraction of the unsigned type yy_size_t, which wraps below zero.
  function SizeMinus(a: nat, b: nat): nat {
    if a >= b then a - b else (a - b) % 0x1_0000_0000_0000_0000
  }

  class Scanner {
    var buf: array<char>    // yy_ch_buf
    var bufSize: nat        // yy_buf_size
    var bufChars: nat       // yy_n_chars of the buffer
    var status: Status      // yy_buffer_status
    var nChars: nat         // yy_n_chars
    var cp: nat             // yy_c_buf_p
    var textPtr: nat        // yytext_ptr
    var hold: char          // yy_hold_char
    var lastState: int      // yy_last_accepting_state
    var lastPos: nat        // yy_last_accepting_cpos
    var lineno: nat         // ConfigFileLineno
    var unread: string      // what the input stream has yet to deliver

    // Both sentinels are in place inside the allocation, and the stored characters stay below the
    // buffer size.
    ghost predicate Sound()
      reads this, buf
    {
      && buf.Length == bufSize + 2
      && nChars < bufSize
      && buf[nChars] == '\0' && buf[nChars + 1] == '\0'
      && (status == EofPending ==> unread == [])
      && (status == New ==> nChars == bufChars == 0)
      && NulFree(unread)
    }

    // Between two calls the character at cp sits in the hold character.
    ghost predicate Valid()
      reads this, buf
    {
      && Sound()
      && cp <= nChars
      && (cp == nChars ==> hold == '\0')
      && NulFree(Rest())
    }

    // The input that is still to be matched.
    ghost function Rest(): string
      reads this, buf
    {
      (if cp < nChars <= buf.Length then [hold] + buf[cp + 1..nChars] else []) + unread
    }

    // CONF_yy_create_buffer and CONF_yy_switch_to_buffer on a fresh stream.
    constructor (input: string, size: nat)
      requires 1 <= size && NulFree(input)
      ensures Valid() && fresh(buf)
      ensures Rest() == input && lineno == 1
    {
      buf := new char[size + 2](_ => '\0');
      bufSize, bufChars, nChars, status := size, 0, 0, New;
      cp, textPtr, hold := 0, 0, '\0';
      lastState, lastPos := 0, 0;
      unread, lineno := input, 1;
      new;
      assert Rest() == input;
    }

    // fread: any non-empty part of what is left, up to the room asked for; nothing at the end.
    method ReadInput(at: nat, room: nat) returns (n: nat)
      requires at + room <= buf.Length && room > 0
      modifies this`unread, buf
      ensures n <= room && n <= |old(unread)|
      ensures old(unread) != [] ==> n > 0
      ensures buf[at..at + n] == old(unread)[..n] && unread == old(unread)[n..]
      ensures forall i :: 0 <= i < buf.Length && !(at <= i < at + n) ==> buf[i] == old(buf[i])
    {
      n := 0;
      if unread != [] {
        n :| 0 < n <= room && n <= |unread|;
        forall i | 0 <= i < n { buf[at + i] := unread[i]; }
        assert buf[at..at + n] == unread[..n];
        unread := unread[n..];
      }
    }

    // CONF_yyrestart on the current stream.
    method Restart()
      requires buf.Length >= 2
      modifies this`bufChars, this`nChars, this`cp, this`textPtr, this`hold, this`status, buf
      ensures bufChars == nChars == 0 && status == New && cp == 0 && textPtr == 0 && hold == '\0'
      ensures buf[0] == '\0' && buf[1] == '\0'
    {
      bufChars := 0;
      buf[0], buf[1] := '\0', '\0';
      status := New;
      nChars, cp, textPtr := bufChars, 0, 0;
      hold := buf[cp];
    }

    // The first part of yy_get_next_buffer: move the unfinished text to the start of the buffer.
    method MoveText(move: nat)
      requires textPtr + move <= buf.Length
      modifies buf
      ensures buf[..move] == old(buf[textPtr..textPtr + move])
    {
      ghost var text := buf[textPtr..textPtr + move];
      var i := 0;
      while i < move
        invariant i <= move
        invariant buf[..i] == text[..i]
        invariant forall j :: i <= j < move ==> buf[textPtr + j] == text[j]
      {
        buf[i] := buf[textPtr + i];
        i := i + 1;
      }
    }

    // The second part: the room for a read behind the first move characters, doubling the buffer
    // while there is none.
    method MakeRoom(move: nat) returns (room: nat)
      requires buf.Length == bufSize + 2 && move < bufSize
      modifies this`buf, this`bufSize
      ensures buf == old(buf) || fresh(buf)
      ensures buf.Length == bufSize + 2 && 0 < room == bufSize - move - 1
      ensures buf[..move] == old(buf[..move])
    {
      room := SizeMinus(bufSize, move + 1);
      while room <= 0
        invariant buf == old(buf) || fresh(buf)
        invariant buf.Length == bufSize + 2 && move < bufSize && room == bufSize - move - 1
        invariant buf[..move] == old(buf[..move])
        decreases move + 2 - bufSize
      {
        var bigger := new char[bufSize * 2 + 2](_ => '\0');
        forall j | 0 <= j < buf.Length { bigger[j] := buf[j]; }
        buf, bufSize := bigger, bufSize * 2;
        room := SizeMinus(bufSize, move + 1);
      }
    }

    // The third part: read behind the first move characters, unless the end was seen already.
    method FillBuffer(move: nat)
      requires buf.Length == bufSize + 2 && move < bufSize
      requires status == EofPending ==> unread == []
      modifies this`buf, this`bufSize, this`nChars, this`bufChars, this`unread, buf
      ensures buf == old(buf) || fresh(buf)
      ensures buf.Length == bufSize + 2 && move + nChars < bufSize && bufChars == nChars
      ensures nChars <= |old(unread)| && (old(unread) != [] ==> nChars > 0)
      ensures buf[..move + nChars] == old(buf[..move]) + old(unread)[..nChars]
      ensures unread == old(unread)[nChars..]
    {
      nChars := 0;
      if status != EofPending {
        var room := MakeRoom(move);
        if room > YY_READ_BUF_SIZE { room := YY_READ_BUF_SIZE; }
        nChars := ReadInput(move, room);
      }
      bufChars := nChars;
    }

    // The last part: both sentinels behind the stored characters.
    method PutSentinels(move: nat)
      requires buf.Length == bufSize + 2 && move + nChars < bufSize
      modifies this`nChars, this`textPtr, buf
      ensures nChars == old(nChars) + move && textPtr == 0
      ensures buf[..nChars] == old(buf[..move + nChars])
      ensures buf[nChars] == '\0' && buf[nChars + 1] == '\0'
    {
      nChars := nChars + move;
      buf[nChars] := '\0';
      buf[nChars + 1] := '\0';
      textPtr := 0;
    }

    lemma Delivered(text: string, input: string, n: nat)
      requires n <= |input|
      ensures text + input == text + input[..n] + input[n..] && text <= text + input[..n]
      ensures NulFree(input) ==> NulFree(input[n..])
    {
      assert input == input[..n] + input[n..];
    }

    // These parts up to the sentinels.
    method ReadMore(ghost text: string) returns (move: nat)
      requires Sound() && textPtr <= nChars && cp == nChars + 1 && text == buf[textPtr..nChars]
      modifies this`buf, this`bufSize, this`bufChars, this`nChars, this`unread, buf
      ensures buf == old(buf) || fresh(buf)
      ensures move == |text| && buf.Length == bufSize + 2 && move + nChars < bufSize && bufChars == nChars
      ensures buf[..move + nChars] + unread == text + old(unread) && text <= buf[..move + nChars]
      ensures nChars + |unread| == |old(unread)| && (nChars == 0 ==> unread == []) && NulFree(unread)
    {
      hide NulFree;
      move := cp - textPtr - 1;
      MoveText(move);
      FillBuffer(move);
      Delivered(text, old(unread), nChars);
    }

    // yy_get_next_buffer: keep the unfinished text, make room for more and read it.
    method GetNextBuffer(ghost text: string) returns (r: Refill)
      requires Sound() && status != New && textPtr <= nChars && cp == nChars + 1
      requires text == buf[textPtr..nChars] && NulFree(text)
      modifies this`buf, this`bufSize, this`bufChars, this`nChars, this`cp, this`textPtr, this`hold,
               this`status, this`unread, buf
      ensures Sound() && textPtr == 0
      ensures buf == old(buf) || fresh(buf)
      ensures text + old(unread) == buf[..nChars] + unread && text <= buf[..nChars]
      ensures match r
              case ContinueScan => |unread| < |old(unread)| && status != New
              case LastMatch => unread == [] && text != [] && status == EofPending && nChars == |text|
              case EndOfFile => unread == [] && nChars == 0 && cp == 0 && hold == '\0' && status == New
    {
      hide NulFree;
      var move := ReadMore(text);
      if nChars == 0 {
        if move == 0 {
          r := EndOfFile;
          Restart();
        } else {
          r := LastMatch;
          status := EofPending;
        }
      } else {
        r := ContinueScan;
      }
      if nChars + move > bufSize {
        assert false;  // the late extension by half is never needed
      }
      PutSentinels(move);
    }

    // The accepting position recorded so far: the best match among the first k characters of d.
    ghost predicate Recorded(d: string, k: nat, bp: nat)
      reads this
      requires k <= |d|
    {
      BestUpTo(d, k) > 0 ==> lastPos == bp + BestUpTo(d, k) && lastState == Run(1, d[..BestUpTo(d, k)])
    }

    // yy_match: run the automaton from state s0 at position from until it jams. In the end it has
    // jammed inside the text, or on the sentinel behind it.
    method MatchText(bp: nat, from: nat, s0: int, ghost d: string)
      requires Sound() && bp <= from <= nChars && d == buf[bp..nChars] && NulFree(d)
      requires s0 == Run(1, d[..from - bp]) && s0 != 40
      requires from > bp ==> Recorded(d, from - bp - 1, bp)
      modifies this`lastState, this`lastPos
      ensures if Run(1, d) == 40
              then BestUpTo(d, |d|) > 0 && Recorded(d, |d|, bp)
              else lastState == 3 && lastPos == nChars + 1
    {
      hide Step, Delta, RuleOf, BestUpTo, Run;
      var pos, s := from, s0;
      assert d[..nChars - bp] == d;
      while s != 40
        invariant bp <= pos <= nChars + 2 && 1 <= s <= 40
        invariant pos <= nChars ==> s == Run(1, d[..pos - bp])
        invariant pos <= nChars && pos > bp ==> Recorded(d, pos - bp - 1, bp)
        invariant s == 40 ==> pos > bp
        invariant pos == nChars + 1 ==> s == 3 && Run(1, d) != 40
        invariant pos == nChars + 2 ==> s == 40 && Run(1, d) != 40 && lastState == 3 && lastPos == nChars + 1
        decreases nChars + 2 - pos
      {
        SentinelSteps(s);
        if pos <= nChars { RecordsBest(d, pos - bp); }
        if pos < nChars { RunSnoc(d, pos - bp); }
        if YyAccept(s) != 0 { lastState, lastPos := s, pos; }
        s := Transition(s, buf[pos]);
        pos := pos + 1;
      }
      if pos <= nChars { JamIsFinal(d, pos - bp); }
    }

    // yy_get_previous_state: the state that the text up to cp leads to, recording on the way.
    method GetPreviousState(ghost d: string) returns (s: int)
      requires Sound() && textPtr <= cp <= nChars && d == buf[textPtr..cp] && NulFree(d)
      modifies this`lastState, this`lastPos
      ensures s == Run(1, d) && (d != [] ==> Recorded(d, |d| - 1, textPtr))
    {
      hide Step, Delta, RuleOf, BestUpTo, Run;
      s := 1;
      var pos := textPtr;
      EmptyRun();
      while pos < cp
        invariant textPtr <= pos <= cp && 1 <= s <= 40
        invariant s == Run(1, d[..pos - textPtr])
        invariant pos > textPtr ==> Recorded(d, pos - textPtr - 1, textPtr)
      {
        RecordsBest(d, pos - textPtr);
        RunSnoc(d, pos - textPtr);
        if YyAccept(s) != 0 { lastState, lastPos := s, pos; }
        s := Transition(s, buf[pos]);
        pos := pos + 1;
      }
      assert d[..pos - textPtr] == d;
    }

    // YY_DO_BEFORE_ACTION: end the text with a NUL and keep the character it replaces.
    method SetText(bp: nat, pos: nat)
      requires pos < buf.Length
      modifies this`textPtr, this`hold, this`cp, buf
      ensures textPtr == bp && cp == pos && hold == old(buf[pos]) && buf[pos] == '\0'
      ensures forall i :: 0 <= i < buf.Length && i != pos ==> buf[i] == old(buf[i])
    {
      textPtr := bp;
      hold := buf[pos];
      buf[pos] := '\0';
      cp := pos;
    }

    // yy_find_action with its back-up case: from state s at position from to the action, with the
    // text set up.
    method FindAction(bp: nat, s: int, from: nat, ghost d: string) returns (act: int)
      requires bp <= from < buf.Length && (YyAccept(s) == 0 ==> bp <= lastPos < buf.Length)
      requires bp + |d| <= buf.Length && d == buf[bp..bp + |d|]
      modifies this`textPtr, this`hold, this`cp, buf
      ensures act == YyAccept(if YyAccept(s) != 0 then s else lastState)
      ensures textPtr == bp && cp == if YyAccept(s) != 0 then from else lastPos
      ensures hold == old(buf[if YyAccept(s) != 0 then from else lastPos]) && buf[cp] == '\0'
      ensures forall i :: bp + |d| <= i < buf.Length && i != cp ==> buf[i] == old(buf[i])
      ensures cp < bp + |d| ==> d[cp - bp..] == [hold] + buf[cp + 1..bp + |d|]
      ensures cp <= bp + |d| ==> buf[bp..cp] == d[..cp - bp]
      ensures cp > bp + |d| ==> buf[bp..bp + |d|] == d
    {
      hide YyAccept;
      ghost var b0 := buf[..];
      assert b0[bp..bp + |d|] == d;
      act := YyAccept(s);
      SetText(bp, from);
      if act == 0 {
        buf[from] := hold;
        act := YyAccept(lastState);
        SetText(bp, lastPos);
      }
      assert forall i :: 0 <= i < buf.Length && i != cp ==> buf[i] == b0[i];
      ghost var b1 := buf[..];
      TextAfter(b0, b1, bp, cp, hold, d);
      assert cp <= bp + |d| ==> b1[bp..cp] == buf[bp..cp];
      assert cp > bp + |d| ==> b1[bp..bp + |d|] == buf[bp..bp + |d|];
      assert cp < bp + |d| ==> b1[cp + 1..bp + |d|] == buf[cp + 1..bp + |d|];
    }

    // In the middle of a match that began at bp: d is the stored text from there on, and state s
    // at position pos is where the automaton has got to in it.
    ghost predicate Scanning(bp: nat, pos: nat, s: int, matching: bool, d: string)
      reads this, buf
    {
      && Sound()
      && bp <= pos <= nChars && d == buf[bp..nChars] && NulFree(d)
      && s == Run(1, d[..pos - bp]) && s != 40
      && (pos > bp ==> Recorded(d, pos - bp - 1, bp))
      && (!matching ==> pos == nChars && unread == [] && d != [])
    }

    // The head of the loop of CONF_yylex: put the held character back.
    method Begin() returns (ghost d: string)
      requires Valid()
      modifies buf
      ensures Scanning(cp, cp, 1, true, d)
      ensures d + unread == old(Rest())
    {
      buf[cp] := hold;
      d := buf[cp..nChars];
      EmptyRun();
      assert d + unread == old(Rest());
      NulFreeConcat(d, unread);
    }

    // Match, unless all the input there is has been matched already. The result is the state and
    // the position for yy_find_action.
    method ToAction(bp: nat, from: nat, s0: int, matching: bool, ghost d: string) returns (s: int, pos: nat)
      requires Scanning(bp, from, s0, matching, d)
      modifies this`lastState, this`lastPos
      ensures bp <= pos <= nChars + 1 && (YyAccept(s) == 0 ==> bp <= lastPos <= nChars)
      ensures s == 3 ==> matching && Run(1, d) != 40 && pos == nChars + 1
      ensures s != 3 ==>
        var n := BestUpTo(d, |d|);
        && (Run(1, d) == 40 || unread == []) && d != [] && n > 0
        && (if YyAccept(s) != 0 then pos else lastPos) == bp + n
        && YyAccept(if YyAccept(s) != 0 then s else lastState) == RuleOf(d[..n]) != YY_END_OF_BUFFER
    {
      hide Step, Delta, RuleOf, BestUpTo, Run, YyAccept, NulFree;
      s, pos := s0, from;
      SentinelSteps(3);
      assert d[..|d|] == d;
      if d != [] { WholeTextMatches(d); }
      if matching {
        MatchText(bp, from, s0, d);
        EmptyRun();
        s, pos := lastState, lastPos;
      }
    }

    // Match and find the action: either the end of the buffer is reached, or the best match of the
    // stored text is set up.
    method NextAction(bp: nat, from: nat, s0: int, matching: bool, ghost d: string) returns (act: int)
      requires Scanning(bp, from, s0, matching, d)
      modifies this`lastState, this`lastPos, this`textPtr, this`hold, this`cp, buf
      ensures textPtr == bp && cp < buf.Length && Sound() && NulFree(d)
      ensures act == YY_END_OF_BUFFER ==>
        && matching && Run(1, d) != 40
        && cp == nChars + 1 && hold == '\0' && bp <= nChars && d == buf[bp..nChars]
      ensures act != YY_END_OF_BUFFER ==>
        var n := BestUpTo(d, |d|);
        && (Run(1, d) == 40 || unread == []) && d != []
        && act == RuleOf(d[..n]) && n > 0 && cp == bp + n <= nChars
        && (cp == nChars ==> hold == '\0')
        && Rest() == d[n..] + unread && buf[bp..cp] == d[..n]
    {
      hide Step, Delta, RuleOf, BestUpTo, Run, YyAccept, NulFree;
      SentinelSteps(3);
      var s, pos := ToAction(bp, from, s0, matching, d);
      act := FindAction(bp, s, pos, d);
    }

    // The same with the text of the match, in terms of all the input that is left.
    method NextMatch(bp: nat, from: nat, s0: int, matching: bool, ghost d: string) returns (act: int, text: string)
      requires Scanning(bp, from, s0, matching, d)
      modifies this`lastState, this`lastPos, this`textPtr, this`hold, this`cp, buf
      ensures act == YY_END_OF_BUFFER ==>
        && Sound() && NulFree(d) && textPtr == bp && matching && Run(1, d) != 40
        && cp == nChars + 1 && hold == '\0' && bp <= nChars && d == buf[bp..nChars]
      ensures act != YY_END_OF_BUFFER ==>
        && d != [] && Valid()
        && var n := MatchLength(d + unread);
           text == (d + unread)[..n] && act == RuleOf(text) && Rest() == (d + unread)[n..]
    {
      hide Step, Delta, RuleOf, BestUpTo, Run, YyAccept, MatchLength, Scanning, NulFree, Rest;
      ghost var input := d + unread;
      act := NextAction(bp, from, s0, matching, d);
      text := "";
      if act != YY_END_OF_BUFFER {
        text := buf[textPtr..cp];
        assert NulFree(unread) by { hide NulFree; }
        BestOfInput(d, unread);
        assert input == text + Rest();
        NulFreeConcat(d, unread);
        NulFreeConcat(text, Rest());
      }
    }

    // The end-of-buffer action up to the point where the next characters, if any, are stored.
    method Refilled(ghost d: string) returns (r: Refill, ghost d': string)
      requires Sound() && textPtr <= nChars && cp == nChars + 1 && hold == '\0'
      requires d == buf[textPtr..nChars] && NulFree(d)
      modifies this, buf
      ensures lineno == old(lineno)
      ensures Sound() && textPtr == 0 && (buf == old(buf) || fresh(buf))
      ensures d' == buf[..nChars] && d <= d' && NulFree(d') && d + old(unread) == d' + unread
      ensures match r
              case EndOfFile => d' + unread == [] && cp == 0 && hold == '\0'
              case ContinueScan => cp == |d| && |unread| < |old(unread)|
              case LastMatch => cp == nChars && unread == [] && d' == d != []
    {
      hide Step, Delta, RuleOf, BestUpTo, Run, NulFree;
      buf[cp] := hold;
      var matched := cp - textPtr - 1;
      if status == New {
        nChars := bufChars;
        status := Normal;
      }
      NulFreeConcat(d, unread);
      r := GetNextBuffer(d);
      d' := buf[..nChars];
      NulFreeConcat(d', unread);
      match r {
        case EndOfFile => cp := textPtr;
        case ContinueScan => cp := textPtr + matched;
        case LastMatch => cp := nChars;
      }
    }

    // The end-of-buffer action: refill, and find the state to go on from.
    method AtEndOfBuffer(ghost d: string) returns (r: Refill, s: int, ghost d': string)
      requires Sound() && textPtr <= nChars && cp == nChars + 1 && hold == '\0'
      requires d == buf[textPtr..nChars] && NulFree(d) && Run(1, d) != 40
      modifies this, buf
      ensures lineno == old(lineno)
      ensures buf == old(buf) || fresh(buf)
      ensures d + old(unread) == d' + unread
      ensures r.EndOfFile? ==> Valid() && Rest() == [] && d' == [] && unread == []
      ensures !r.EndOfFile? ==> Scanning(textPtr, cp, s, r.ContinueScan?, d')
      ensures r.ContinueScan? ==> |unread| < |old(unread)|
      ensures r.LastMatch? ==> unread == old(unread)
    {
      hide Step, Delta, RuleOf, BestUpTo, Run;
      r, d' := Refilled(d);
      s := 1;
      if r != EndOfFile {
        BestUpToExtends(d, d', if d == [] then 0 else |d| - 1);
        s := GetPreviousState(d);
      }
    }

    // One match of CONF_yylex: the rule and the text of the longest match, or 0 at the end of the
    // input.
    method MatchOne() returns (act: int, text: string)
      requires Valid()
      modifies this, buf
      ensures Valid() && (buf == old(buf) || fresh(buf))
      ensures lineno == old(lineno)
      ensures old(Rest()) == [] ==> act == 0 && text == [] && Rest() == []
      ensures old(Rest()) != [] ==>
        var n := MatchLength(old(Rest()));
        text == old(Rest())[..n] && act == RuleOf(text) && Rest() == old(Rest())[n..]
    {
      hide Step, Delta, RuleOf, BestUpTo, Run, YyAccept, MatchLength, Scanning, NulFree, Valid, Rest, Sound;
      ghost var input := Rest();
      ghost var d := Begin();
      var bp, pos, s := cp, cp, 1;
      var matching := true;
      while true
        invariant Scanning(bp, pos, s, matching, d) && input == d + unread
        invariant lineno == old(lineno) && (buf == old(buf) || fresh(buf))
        decreases |unread|, matching
      {
        act, text := NextMatch(bp, pos, s, matching, d);
        if act != YY_END_OF_BUFFER { return; }
        var refill;
        refill, s, d := AtEndOfBuffer(d);
        if refill == EndOfFile { return 0, []; }
        pos, bp := cp, textPtr;
        if refill == LastMatch { matching := false; }
      }
    }

    // A line that ends with the input counts like any other.
    method CountLine()
      requires Valid()
      modifies this`lineno
      ensures Valid() && Rest() == old(Rest()) && lineno == old(lineno) + 1
    {
      lineno := lineno + 1;
    }

    // CONF_yylex: the next token that is not a blank or a comment, counting the lines.
    method Lex() returns (rule: int, text: string)
      requires Valid()
      modifies this, buf
      ensures Valid() && (buf == old(buf) || fresh(buf))
      ensures match NextToken(old(Rest()))
              case End => rule == 0 && text == [] && Rest() == []
              case Token(r, x, rest) => rule == r && text == x && Rest() == rest
      ensures lineno == old(lineno) + if rule == 1 then 1 else 0
    {
      hide RuleOf, MatchLength, NextToken, Rest, Valid, Sound, NulFree;
      while true
        invariant Valid() && (buf == old(buf) || fresh(buf))
        invariant NextToken(Rest()) == NextToken(old(Rest())) && lineno == old(lineno)
        decreases |Rest()|
      {
        NextTokenUnfolds(Rest());
        rule, text := MatchOne();
        if !Skipped(rule) {
          if rule == 1 { CountLine(); }
          return;
        }
      }
    }
  }

  lemma NextTokenUnfolds(t: string)
    ensures NextToken(t) ==
            if t == [] then End
            else
              var n := MatchLength(t);
              var r := RuleOf(t[..n]);
              if Skipped(r) then NextToken(t[n..]) else Token(r, t[..n], t[n..])
    ensures RuleOf([]) == 0
  {
  }

  // Replacing one character by a NUL leaves the text on both sides.
  lemma TextAfter(b0: string, b1: string, bp: nat, cp: nat, hold: char, d: string)
    requires |b0| == |b1| && bp <= cp < |b0| && bp + |d| <= |b0| && d == b0[bp..bp + |d|]
    requires forall i :: 0 <= i < |b0| && i != cp ==> b1[i] == b0[i]
    requires hold == b0[cp]
    ensures cp < bp + |d| ==> d[cp - bp..] == [hold] + b1[cp + 1..bp + |d|]
    ensures cp <= bp + |d| ==> b1[bp..cp] == d[..cp - bp]
    ensures cp > bp + |d| ==> b1[bp..bp + |d|] == d
  {
    assert forall i :: 0 <= i < |d| ==> d[i] == b0[bp + i];
  }

  // The best match of the stored text is the longest match of the input, once the automaton has
  // jammed in the stored text or nothing follows it.
  lemma BestOfInput(d: string, rest: string)
    requires d != [] && NulFree(d) && NulFree(rest)
    requires Run(1, d) == 40 || rest == []
    ensures MatchLength(d + rest) == BestUpTo(d, |d|)
    ensures (d + rest)[..BestUpTo(d, |d|)] == d[..BestUpTo(d, |d|)]
    ensures (d + rest)[BestUpTo(d, |d|)..] == d[BestUpTo(d, |d|)..] + rest
  {
    hide Step, Delta, RuleOf, Run, YyAccept;
    assert (d + rest)[..|d|] == d;
    if rest == [] {
      assert d + rest == d;
    } else {
      assert d[..|d|] == d;
      JamIsFinal(d, |d|);
      NulFreeConcat(d, rest);
      JamEndsMatch(d + rest, |d|);
      BestUpToPrefix(d, rest, |d| - 1);
    }
  }

  lemma BestIsMatch(d: string)
    requires d != [] && NulFree(d)
    ensures 0 < BestUpTo(d, |d|) <= |d| && RuleOf(d[..BestUpTo(d, |d|)]) > 0
    ensures d[..|d|] == d
    ensures BestUpTo(d, |d|) == if RuleOf(d) != 0 then |d| else BestUpTo(d, |d| - 1)
  {
    hide RuleOf;
    assert d[..|d|] == d;
    assert MatchLength(d) == BestUpTo(d, |d|);
    RuleIsNoSentinel(d[..BestUpTo(d, |d|)]);
  }

  lemma RuleIsNoSentinel(t: string)
    ensures 0 <= RuleOf(t) < YY_END_OF_BUFFER
  {
  }

  lemma WholeTextMatches(d: string)
    requires d != [] && NulFree(d)
    ensures d[..|d|] == d && YyAccept(Run(1, d)) == RuleOf(d) != YY_END_OF_BUFFER && Run(1, d) != 3
    ensures BestUpTo(d, |d|) == if RuleOf(d) != 0 then |d| else BestUpTo(d, |d| - 1)
    ensures BestUpTo(d, |d|) > 0
    ensures YyAccept(Run(1, d[..BestUpTo(d, |d|)])) == RuleOf(d[..BestUpTo(d, |d|)])
    ensures 0 < RuleOf(d[..BestUpTo(d, |d|)]) != YY_END_OF_BUFFER
  {
    hide Step, Delta, Run, YyAccept, RuleOf, BestUpTo;
    RecordsBest(d, |d|);
    BestIsMatch(d);
    RecordsBest(d, BestUpTo(d, |d|));
    RuleIsNoSentinel(d);
    RuleIsNoSentinel(d[..BestUpTo(d, |d|)]);
  }

  // More text behind a text does not change the matches recorded in it.
  lemma BestUpToExtends(a: string, b: string, k: nat)
    requires a <= b && k <= |a|
    ensures b[..|a|] == a
    ensures BestUpTo(b, k) == BestUpTo(a, k) && b[..BestUpTo(a, k)] == a[..BestUpTo(a, k)]
  {
    assert b == a + b[|a|..];
    BestUpToPrefix(a, b[|a|..], k);
  }

  // The first sentinel leads to the end-of-buffer state, the second one jams there.
  lemma SentinelSteps(s: int)
    requires 1 <= s <= 40
    ensures Step(s, '\0') == if s == 3 then 40 else 3
    ensures YyAccept(3) == YY_END_OF_BUFFER
  {
  }

  // What recording the accepting states one by one keeps track of.
  lemma RecordsBest(d: string, k: nat)
    requires k <= |d| && NulFree(d)
    ensures YyAccept(Run(1, d[..k])) == RuleOf(d[..k]) && Run(1, d[..k]) != 3
    ensures k == 0 ==> BestUpTo(d, 0) == 0 && RuleOf(d[..0]) == 0
    ensures k > 0 ==> BestUpTo(d, k) == if RuleOf(d[..k]) != 0 then k else BestUpTo(d, k - 1)
  {
    hide Run, RuleOf;
    TablesDecideRules(d[..k]);
    if k == 0 { EmptyMatchesNothing(); }
  }

  lemma EmptyMatchesNothing()
    ensures RuleOf([]) == 0
  {
  }

  lemma EmptyRun()
    ensures Run(1, []) == 1
  {
  }

  lemma RunSnoc(d: string, k: nat)
    requires k < |d|
    ensures Run(1, d[..k + 1]) == Step(Run(1, d[..k]), d[k])
  {
    assert d[..k + 1] == d[..k] + [d[k]];
    RunConcat(1, d[..k], [d[k]]);
  }

  // Once jammed, the best match so far is the best match.
  lemma JamIsFinal(d: string, k: nat)
    requires 0 < k <= |d| && NulFree(d) && Run(1, d[..k]) == 40
    ensures Run(1, d) == 40
    ensures BestUpTo(d, |d|) == BestUpTo(d, k - 1) > 0
  {
    assert d == d[..k] + d[k..];
    RunConcat(1, d[..k], d[k..]);
    JamStays(d[k..]);
    JamEndsMatch(d, k);
    assert MatchLength(d) == BestUpTo(d, |d|);
  }

  /**
    For every input, buffer size and way of reading the input in parts, the scanner's matches are
    the longest matches of the whole input.
   */
  method ScanAll(input: string, size: nat) returns (ms: seq<Match>)
    requires 1 <= size && NulFree(input)
    ensures ms == Matches(input)
  {
    hide RuleOf, MatchLength, Matches, NulFree, Scanner.Valid, Scanner.Rest, Scanner.Sound;
    var scanner := new Scanner(input, size);
    MatchesUnfolds(scanner.Rest());
    var rule, text := scanner.MatchOne();
    ms := [];
    while rule != 0
      invariant scanner.Valid() && fresh(scanner) && fresh(scanner.buf)
      invariant Matches(input) == ms + (if rule == 0 then [] else [Match(rule, text)] + Matches(scanner.Rest()))
      decreases |scanner.Rest()|, rule != 0
    {
      ghost var later := Matches(scanner.Rest());
      assert ms + ([Match(rule, text)] + later) == (ms + [Match(rule, text)]) + later;
      ms := ms + [Match(rule, text)];
      MatchesUnfolds(scanner.Rest());
      rule, text := scanner.MatchOne();
    }
  }

  lemma MatchesUnfolds(t: string)
    ensures Matches(t) == if t == [] then []
                          else var n := MatchLength(t); [Match(RuleOf(t[..n]), t[..n])] + Matches(t[n..])
  {
  }
}
