/**
  The event notification command: which events it is run for, and the expansion of its template into
  a buffer of fixed size.
 */
module EventCommand {

  const MAXLEN := 1024
  const NUL := '\0'

  predicate NoNul(s: string) { forall i :: 0 <= i < |s| ==> s[i] != NUL }

  // ---- Which events: parse_event_notifications_list ----

  predicate IsBlank(c: char) { c == ' ' || c == '\t' }

  function NoBlanks(s: string): string {
    if s == [] then [] else (if IsBlank(s[0]) then [] else [s[0]]) + NoBlanks(s[1..])
  }

  // The pieces between commas, of which there is always one more than there are commas.
  function Split(s: string): (r: seq<string>)
    ensures r != []
  {
    if s == [] then [[]]
    else
      var r := Split(s[1..]);
      if s[0] == ',' then [[]] + r else [[s[0]] + r[0]] + r[1..]
  }

  function NonEmpty(names: seq<string>): seq<string> {
    if names == [] then [] else (if names[0] == [] then [] else [names[0]]) + NonEmpty(names[1..])
  }

  function EventList(arg: string): seq<string> { NonEmpty(Split(NoBlanks(arg))) }

  // The pieces when the first one has been read up to current already.
  function Continued(current: string, pieces: seq<string>): seq<string>
    requires pieces != []
  {
    NonEmpty([current + pieces[0]] + pieces[1..])
  }

  predicate AllFit(names: seq<string>) { forall i :: 0 <= i < |names| ==> |names[i]| < MAXLEN }

  /**
    parse_event_notifications_list. Nothing keeps a name inside its buffer: the list is the one that
    was given exactly when every name leaves room for the terminator.
   */
  method ParseEventList(arg: string) returns (fits: bool, events: seq<string>)
    requires NoNul(arg)
    ensures fits <==> AllFit(EventList(arg))
    ensures fits ==> events == EventList(arg)
  {
    hide EventList, NonEmpty, Split, NoBlanks, Continued;
    var buf := new char[MAXLEN](_ => NUL);
    var dst, i := 0, 0;
    events := [];
    ghost var current := "";
    StartOfList(arg);
    assert arg[0..] == arg;
    while i < |arg|
      invariant 0 <= i <= |arg| && 0 <= dst == |current| < MAXLEN
      invariant buf[..dst] == current && NoNul(current) && (dst == 0 <==> buf[0] == NUL)
      invariant EventList(arg) == events + Continued(current, Split(NoBlanks(arg[i..])))
      invariant AllFit(events)
    {
      var c := arg[i];
      NextCharacter(current, arg[i..]);
      assert arg[i..][1..] == arg[i + 1..];
      if IsBlank(c) {
      } else if c == ',' && buf[0] != NUL {
        var tail := Continued("", Split(NoBlanks(arg[i + 1..])));
        assert events + ([current] + tail) == (events + [current]) + tail;
        OneMoreFits(events, current);
        events := events + [buf[..dst]];
        forall k | 0 <= k < MAXLEN { buf[k] := NUL; }
        dst, current := 0, "";
      } else if c == ',' {
        assert current == "";
      } else {
        if dst == MAXLEN - 1 {
          LongName(current + [c], Split(NoBlanks(arg[i + 1..])));
          ConcatFits(events, Continued(current + [c], Split(NoBlanks(arg[i + 1..]))));
          return false, [];
        }
        buf[dst] := c;
        dst := dst + 1;
        current := current + [c];
      }
      i := i + 1;
    }
    EndOfList(current, arg[i..]);
    if buf[0] != NUL {
      OneMoreFits(events, current);
      events := events + [buf[..dst]];
    } else {
      assert current == "" && events + [] == events;
    }
    fits := true;
  }

  lemma StartOfList(arg: string)
    ensures EventList(arg) == [] + Continued("", Split(NoBlanks(arg)))
  {
    var r := Split(NoBlanks(arg));
    assert "" + r[0] == r[0];
    assert ["" + r[0]] + r[1..] == r;
  }

  lemma NextCharacter(current: string, s: string)
    requires s != []
    ensures Continued(current, Split(NoBlanks(s))) ==
            var r := Split(NoBlanks(s[1..]));
            if IsBlank(s[0]) then Continued(current, r)
            else if s[0] == ',' then (if current == "" then [] else [current]) + Continued("", r)
            else Continued(current + [s[0]], r)
  {
    var r := Split(NoBlanks(s[1..]));
    if IsBlank(s[0]) {
      assert NoBlanks(s) == NoBlanks(s[1..]);
    } else {
      assert NoBlanks(s)[1..] == NoBlanks(s[1..]);
      if s[0] == ',' { NextPiece(current, r); } else { NextLetter(current, s[0], r); }
    }
  }

  lemma NextPiece(current: string, r: seq<string>)
    requires r != []
    ensures Continued(current, [[]] + r) == (if current == "" then [] else [current]) + Continued("", r)
  {
    hide NonEmpty;
    assert current + [] == current && "" + r[0] == r[0];
    assert ([[]] + r)[1..] == r && ["" + r[0]] + r[1..] == r;
    NonEmptyStep(current, r);
  }

  lemma NonEmptyStep(name: string, r: seq<string>)
    ensures NonEmpty([name] + r) == (if name == [] then [] else [name]) + NonEmpty(r)
  {
    assert ([name] + r)[1..] == r;
  }

  lemma NextLetter(current: string, c: char, r: seq<string>)
    requires r != []
    ensures Continued(current, [[c] + r[0]] + r[1..]) == Continued(current + [c], r)
  {
    hide NonEmpty;
    assert current + ([c] + r[0]) == (current + [c]) + r[0];
    assert ([[c] + r[0]] + r[1..])[1..] == r[1..];
  }

  lemma EndOfList(current: string, s: string)
    requires s == []
    ensures Continued(current, Split(NoBlanks(s))) == if current == "" then [] else [current]
  {
    var none: seq<string> := [];
    assert NoBlanks(s) == [];
    assert Split([]) == [[]];
    assert current + [] == current;
    assert [current] + none == [current];
    NonEmptyStep(current, none);
  }

  lemma OneMoreFits(events: seq<string>, name: string)
    requires AllFit(events) && |name| < MAXLEN
    ensures AllFit(events + [name])
  {
  }

  lemma LongName(current: string, r: seq<string>)
    requires r != [] && |current| >= MAXLEN
    ensures !AllFit(Continued(current, r))
  {
    var names := Continued(current, r);
    assert ([current + r[0]] + r[1..])[0] == current + r[0];
    assert names[0] == current + r[0];
  }

  lemma ConcatFits(a: seq<string>, b: seq<string>)
    requires !AllFit(b)
    ensures !AllFit(a + b)
  {
    var i :| 0 <= i < |b| && |b[i]| >= MAXLEN;
    assert (a + b)[|a| + i] == b[i];
  }

  function Join(names: seq<string>): string {
    if names == [] then [] else if |names| == 1 then names[0] else names[0] + ("," + Join(names[1..]))
  }

  predicate PlainName(s: string) { s != [] && forall i :: 0 <= i < |s| ==> s[i] != ',' && !IsBlank(s[i]) }

  /** Parsing a list of names joined by commas gives the names back, in order. */
  lemma {:induction false} JoinedNamesReadBack(names: seq<string>)
    requires forall k :: 0 <= k < |names| ==> PlainName(names[k])
    ensures EventList(Join(names)) == names
  {
    if names == [] {
      var none: seq<string> := [[]];
      assert none[1..] == [];
      assert Join(names) == [] && Split(NoBlanks([])) == none;
    } else {
      var a, rest := names[0], names[1..];
      JoinedNamesReadBack(rest);
      hide NonEmpty, Split, NoBlanks;
      if |names| == 1 {
        assert a + [] == a;
        NameThenList(a, []);
        LastName(a);
      } else {
        NameThenComma(a, Join(rest));
      }
    }
  }

  // A name in front of a text belongs to its first piece.
  lemma {:induction false} NameThenList(a: string, t: string)
    requires forall i :: 0 <= i < |a| ==> a[i] != ',' && !IsBlank(a[i])
    ensures var p := Split(NoBlanks(t)); Split(NoBlanks(a + t)) == [a + p[0]] + p[1..]
  {
    var p := Split(NoBlanks(t));
    if a == [] {
      assert a + t == t && a + p[0] == p[0];
      assert [a + p[0]] + p[1..] == p;
    } else {
      assert (a + t)[1..] == a[1..] + t;
      NameThenList(a[1..], t);
      assert NoBlanks(a + t)[1..] == NoBlanks(a[1..] + t);
      assert [a[0]] + (a[1..] + p[0]) == a + p[0];
    }
  }

  lemma LastName(a: string)
    requires a != []
    ensures NonEmpty([a]) == [a]
    ensures var p := Split(NoBlanks([])); [a + p[0]] + p[1..] == [a]
  {
    assert [a][1..] == [];
    assert a + [] == a;
  }

  lemma NameThenComma(a: string, rest: string)
    requires PlainName(a)
    ensures EventList(a + ("," + rest)) == [a] + EventList(rest)
  {
    NameThenList(a, "," + rest);
    var p := Split(NoBlanks(rest));
    assert ("," + rest)[1..] == rest;
    assert NoBlanks("," + rest)[1..] == NoBlanks(rest);
    assert Split(NoBlanks("," + rest)) == [[]] + p;
    assert a + [] == a;
    assert Split(NoBlanks(a + ("," + rest))) == [a] + p;
    assert ([a] + p)[1..] == p;
  }

  /**
    A list of one name fits exactly if the name is shorter than the buffer: at the buffer's length
    its terminator is lost, and from there on it overruns.
   */
  lemma LongNameOverruns(name: string)
    requires PlainName(name)
    ensures EventList(name) == [name]
    ensures AllFit(EventList(name)) <==> |name| < MAXLEN
  {
    hide EventList, PlainName;
    JoinedNamesReadBack([name]);
    assert [name][0] == name;
  }

  /** A list that does not fit: 1024 times the same letter. */
  lemma OverrunExample()
    ensures NoNul(seq(MAXLEN, _ => 'a')) && !AllFit(EventList(seq(MAXLEN, _ => 'a')))
  {
    LongNameOverruns(seq(MAXLEN, _ => 'a'));
  }

  // ---- The command: the end of _create_event ----

  datatype Text = Null | Str(s: string)

  datatype Event = Event(
    nodeId: int, name: string, successful: bool, details: Text, timestamp: string,
    nodeName: Text, conninfo: Text, primaryId: int
  )

  predicate TextNoNul(t: Text) { t.Str? ==> NoNul(t.s) }

  predicate Strings(e: Event) {
    NoNul(e.name) && NoNul(e.timestamp) && TextNoNul(e.details) && TextNoNul(e.nodeName) && TextNoNul(e.conninfo)
  }

  function Digits(n: nat): string {
    if n < 10 then ['0' + n as char] else Digits(n / 10) + ['0' + (n % 10) as char]
  }

  // %i
  function Decimal(n: int): string { if n < 0 then "-" + Digits(-n) else Digits(n) }

  // escape_double_quotes; before is the character in front of s.
  function EscapeQuotes(before: char, s: string): string
    decreases |s|
  {
    if s == [] then []
    else (if s[0] == '"' && before != '\\' then ['\\', '"'] else [s[0]]) + EscapeQuotes(s[0], s[1..])
  }

  function TextOf(t: Text): string { if t.Str? then t.s else "" }

  predicate Directive(c: char) { c in ['%', 'n', 'a', 'e', 'd', 's', 't', 'c', 'p'] }

  function Value(e: Event, c: char): string {
    if c == '%' then "%"
    else if c == 'n' then Decimal(e.nodeId)
    else if c == 'a' then TextOf(e.nodeName)
    else if c == 'e' then e.name
    else if c == 'd' then EscapeQuotes(NUL, TextOf(e.details))
    else if c == 's' then (if e.successful then "1" else "0")
    else if c == 't' then e.timestamp
    else if c == 'c' then TextOf(e.conninfo)
    else if e.primaryId != -1 then Decimal(e.primaryId) else ""
  }

  // How a reader takes a number.
  function DigitsIn(s: string): int {
    if s == [] then 0 else DigitsIn(s[..|s| - 1]) * 10 + (s[|s| - 1] as int - '0' as int)
  }

  function NumberIn(s: string): int { if "-" <= s then -DigitsIn(s[1..]) else DigitsIn(s) }

  lemma {:induction false} DigitsBack(n: nat)
    ensures DigitsIn(Digits(n)) == n && Digits(n) != [] && Digits(n)[0] != '-'
  {
    if n >= 10 {
      DigitsBack(n / 10);
      assert Digits(n)[..|Digits(n)| - 1] == Digits(n / 10);
    } else {
      assert Digits(n)[..0] == [];
    }
  }

  lemma NumberBack(n: int)
    ensures NumberIn(Decimal(n)) == n && ("-" <= Decimal(n) <==> n < 0)
  {
    hide Digits;
    DigitsBack(if n < 0 then -n else n);
    if n < 0 { assert Decimal(n)[1..] == Digits(-n); }
  }

  // Every quote has a backslash in front of it.
  predicate QuotesEscaped(before: char, s: string) {
    forall i :: 0 <= i < |s| && s[i] == '"' ==> (if i == 0 then before else s[i - 1]) == '\\'
  }

  function NoBackslashes(s: string): string {
    if s == [] then [] else (if s[0] == '\\' then [] else [s[0]]) + NoBackslashes(s[1..])
  }

  // Nothing but backslashes is added.
  lemma {:induction false} QuotesAreKept(before: char, s: string)
    ensures NoBackslashes(EscapeQuotes(before, s)) == NoBackslashes(s)
    decreases |s|
  {
    if s != [] {
      var tail := EscapeQuotes(s[0], s[1..]);
      QuotesAreKept(s[0], s[1..]);
      assert ([s[0]] + tail)[1..] == tail;
      assert (['\\', '"'] + tail)[1..] == ['"'] + tail && (['"'] + tail)[1..] == tail;
    }
  }

  lemma {:induction false} QuotesAreEscaped(before: char, s: string)
    ensures QuotesEscaped(before, EscapeQuotes(before, s))
    ensures '"' !in s ==> EscapeQuotes(before, s) == s
    decreases |s|
  {
    if s != [] {
      QuotesAreEscaped(s[0], s[1..]);
      var head, tail := if s[0] == '"' && before != '\\' then ['\\', '"'] else [s[0]], EscapeQuotes(s[0], s[1..]);
      var r := head + tail;
      forall i | 0 <= i < |r| && r[i] == '"' ensures (if i == 0 then before else r[i - 1]) == '\\' {
        if i >= |head| { assert r[i] == tail[i - |head|]; }
      }
    }
  }

  /** What each directive tells about the event. */
  lemma DirectivesTell(e: Event)
    ensures NumberIn(Expansion(e, "%n")) == e.nodeId && ("-" <= Expansion(e, "%n") <==> e.nodeId < 0)
    ensures Expansion(e, "%e") == e.name && Expansion(e, "%t") == e.timestamp
    ensures e.nodeName.Str? ==> Expansion(e, "%a") == e.nodeName.s
    ensures e.conninfo.Str? ==> Expansion(e, "%c") == e.conninfo.s
    ensures (Expansion(e, "%s") == "1" <==> e.successful) && (Expansion(e, "%s") == "0" <==> !e.successful)
    ensures if e.primaryId == -1 then Expansion(e, "%p") == "" else NumberIn(Expansion(e, "%p")) == e.primaryId
    ensures e.details.Str? ==>
              && QuotesEscaped(NUL, Expansion(e, "%d"))
              && NoBackslashes(Expansion(e, "%d")) == NoBackslashes(e.details.s)
    ensures e.details.Str? && '"' !in e.details.s ==> Expansion(e, "%d") == e.details.s
    ensures Expansion(e, "%%") == "%"
  {
    hide *;
    ValuesTell(e);
    OneDirective(e, "%n");
    OneDirective(e, "%e");
    OneDirective(e, "%t");
    OneDirective(e, "%a");
    OneDirective(e, "%c");
    OneDirective(e, "%s");
    OneDirective(e, "%p");
    OneDirective(e, "%d");
    OneDirective(e, "%%");
  }

  lemma ValuesTell(e: Event)
    ensures NumberIn(Value(e, 'n')) == e.nodeId && ("-" <= Value(e, 'n') <==> e.nodeId < 0)
    ensures Value(e, 'e') == e.name && Value(e, 't') == e.timestamp
    ensures e.nodeName.Str? ==> Value(e, 'a') == e.nodeName.s
    ensures e.conninfo.Str? ==> Value(e, 'c') == e.conninfo.s
    ensures (Value(e, 's') == "1" <==> e.successful) && (Value(e, 's') == "0" <==> !e.successful)
    ensures if e.primaryId == -1 then Value(e, 'p') == "" else NumberIn(Value(e, 'p')) == e.primaryId
    ensures e.details.Str? ==>
              QuotesEscaped(NUL, Value(e, 'd')) && NoBackslashes(Value(e, 'd')) == NoBackslashes(e.details.s)
    ensures e.details.Str? && '"' !in e.details.s ==> Value(e, 'd') == e.details.s
    ensures Value(e, '%') == "%"
    ensures forall c :: c in {'n', 'e', 't', 'a', 'c', 's', 'p', 'd', '%'} ==> Directive(c)
  {
    hide Decimal, NumberIn, EscapeQuotes, QuotesEscaped, NoBackslashes;
    NumberBack(e.nodeId);
    NumberBack(e.primaryId);
    if e.details.Str? {
      QuotesAreEscaped(NUL, e.details.s);
      QuotesAreKept(NUL, e.details.s);
    }
    assert "1"[0] != "0"[0];
  }

  lemma OneDirective(e: Event, t: string)
    requires |t| == 2 && t[0] == '%' && Directive(t[1])
    ensures Expansion(e, t) == Value(e, t[1])
  {
    hide Value;
    assert t[2..] == [];
    assert Value(e, t[1]) + [] == Value(e, t[1]);
  }

  // The substitution without regard to any buffer.
  function Expansion(e: Event, t: string): string
    decreases |t|
  {
    if t == [] then []
    else if t[0] == '%' && |t| > 1 && Directive(t[1]) then Value(e, t[1]) + Expansion(e, t[2..])
    else [t[0]] + Expansion(e, t[1..])
  }

  function Min(a: int, b: int): int { if a < b then a else b }

  // strlcpy with n bytes of room, followed by advancing over what has been copied.
  method CopyString(buf: array<char>, dst: nat, n: nat, s: string) returns (next: nat)
    requires dst + n < buf.Length && buf[buf.Length - 1] == NUL && NoNul(s)
    requires n == buf.Length - 1 - dst
    modifies buf
    ensures buf[buf.Length - 1] == NUL
    ensures next == dst + Min(|s|, if n == 0 then 0 else n - 1) < buf.Length
    ensures buf[..dst] == old(buf[..dst]) && buf[dst..next] == s[..next - dst]
  {
    if n == 0 { return dst; }
    var k := 0;
    while k < |s| && k < n - 1
      invariant 0 <= k <= |s| && k <= n - 1 && buf[buf.Length - 1] == NUL
      invariant buf[..dst] == old(buf[..dst]) && buf[dst..dst + k] == s[..k]
    {
      buf[dst + k] := s[k];
      k := k + 1;
    }
    buf[dst + k] := NUL;
    assert forall m :: 0 <= m < k ==> buf[dst..dst + k][m] == s[m];
    assert forall m :: dst <= m < dst + k ==> buf[m] == s[m - dst] && buf[m] != NUL;
    next := dst;
    while buf[next] != NUL
      invariant dst <= next <= dst + k
      decreases dst + k - next
    {
      next := next + 1;
    }
  }

  // What fits behind done: a value leaves the last byte before the terminator unused.
  function Fitting(done: string, value: string, size: nat): string {
    value[..Min(|value|, if |done| + 2 > size then 0 else size - 2 - |done|)]
  }

  function Put(done: string, c: char, size: nat): string { if |done| + 1 < size then done + [c] else done }

  // The substitution in a buffer of the given size: done has been written, t is still to come.
  function Bounded(e: Event, done: string, t: string, size: nat): string
    decreases |t|
  {
    if t == [] then done
    else if t[0] == '%' && |t| > 1 && Directive(t[1]) then
      if t[1] != '%' then Bounded(e, done + Fitting(done, Value(e, t[1]), size), t[2..], size)
      else if |done| + 1 < size then Bounded(e, done + "%", t[2..], size)
      else Bounded(e, done, t[1..], size)
    else Bounded(e, Put(done, t[0], size), t[1..], size)
  }

  // The expansion loop. Whatever the template and the values are, it stays inside the buffer.
  method Expand(e: Event, template: string, size: nat) returns (command: string)
    requires size > 0 && Strings(e) && NoNul(template)
    ensures command == Bounded(e, "", template, size)
  {
    hide Bounded, Value, Directive, Decimal, EscapeQuotes;
    var buf := new char[size](_ => NUL);
    var dst, end, i := 0, size - 1, 0;
    buf[end] := NUL;
    assert template[0..] == template;
    while i < |template|
      invariant 0 <= i <= |template| && 0 <= dst <= end && buf[end] == NUL
      invariant Bounded(e, "", template, size) == Bounded(e, buf[..dst], template[i..], size)
    {
      ghost var done := buf[..dst];
      BoundedUnfolds(e, done, template[i..], size);
      assert template[i..][1..] == template[i + 1..];
      var next := if i + 1 < |template| then template[i + 1] else NUL;
      if template[i] == '%' && Directive(next) {
        assert template[i..][2..] == template[i + 2..];
        if next == '%' {
          if dst < end {
            i := i + 1;
            buf[dst] := template[i];
            dst := dst + 1;
            assert buf[..dst] == done + "%";
          }
        } else {
          i := i + 1;
          ValueNoNul(e, next);
          var d := CopyString(buf, dst, end - dst, Value(e, next));
          assert buf[..d] == done + Fitting(done, Value(e, next), size);
          dst := d;
        }
      } else if dst < end {
        buf[dst] := template[i];
        dst := dst + 1;
        assert buf[..dst] == done + [template[i]];
      }
      i := i + 1;
    }
    BoundedUnfolds(e, buf[..dst], template[i..], size);
    buf[dst] := NUL;
    command := buf[..dst];
  }

  lemma BoundedUnfolds(e: Event, done: string, t: string, size: nat)
    ensures Bounded(e, done, t, size) ==
            if t == [] then done
            else if t[0] == '%' && |t| > 1 && Directive(t[1]) then
              if t[1] != '%' then Bounded(e, done + Fitting(done, Value(e, t[1]), size), t[2..], size)
              else if |done| + 1 < size then Bounded(e, done + "%", t[2..], size)
              else Bounded(e, done, t[1..], size)
            else Bounded(e, Put(done, t[0], size), t[1..], size)
    ensures !Directive(NUL)
  {
  }

  /** The command and its terminator fit into the buffer, for every template and all values. */
  lemma {:induction false} CommandFits(e: Event, done: string, t: string, size: nat)
    requires |done| < size
    ensures |Bounded(e, done, t, size)| < size
    decreases |t|
  {
    hide Value, Directive;
    if t != [] {
      if t[0] == '%' && |t| > 1 && Directive(t[1]) {
        if t[1] != '%' {
          CommandFits(e, done + Fitting(done, Value(e, t[1]), size), t[2..], size);
        } else if |done| + 1 < size {
          CommandFits(e, done + "%", t[2..], size);
        } else {
          CommandFits(e, done, t[1..], size);
        }
      } else {
        CommandFits(e, Put(done, t[0], size), t[1..], size);
      }
    }
  }

  // Whether the last byte of the substitution, if there is one, is a literal character or comes from
  // %%; was says this about the byte in front of t.
  predicate EndsLiterally(e: Event, t: string, was: bool)
    decreases |t|
  {
    if t == [] then was
    else if t[0] == '%' && |t| > 1 && Directive(t[1]) then
      EndsLiterally(e, t[2..], t[1] == '%' || (was && Value(e, t[1]) == []))
    else EndsLiterally(e, t[1..], true)
  }

  lemma Unfold(e: Event, t: string)
    ensures Expansion(e, t) ==
            if t == [] then []
            else if t[0] == '%' && |t| > 1 && Directive(t[1]) then Value(e, t[1]) + Expansion(e, t[2..])
            else [t[0]] + Expansion(e, t[1..])
    ensures !Directive(NUL)
  {
  }

  lemma EndsUnfolds(e: Event, t: string, was: bool)
    ensures EndsLiterally(e, t, was) <==>
            if t == [] then was
            else if t[0] == '%' && |t| > 1 && Directive(t[1]) then
              EndsLiterally(e, t[2..], t[1] == '%' || (was && Value(e, t[1]) == []))
            else EndsLiterally(e, t[1..], true)
  {
  }

  // What expands to nothing leaves the buffer alone.
  lemma {:induction false} NothingToAdd(e: Event, done: string, t: string, size: nat, was: bool)
    requires |Expansion(e, t)| == 0
    ensures Bounded(e, done, t, size) == done
    ensures EndsLiterally(e, t, was) <==> was
    decreases |t|
  {
    hide Value, Directive;
    Unfold(e, t);
    PercentIsPercent(e);
    if t != [] {
      assert t[0] == '%' && |t| > 1 && Directive(t[1]) && Value(e, t[1]) == [];
      assert done + Fitting(done, Value(e, t[1]), size) == done;
      NothingToAdd(e, done, t[2..], size, was);
    }
  }

  // A value that does not fit makes the command differ.
  lemma ValueTooLong(e: Event, done: string, v: string, t: string, size: nat)
    requires |done| < size && |done| + |v| + 1 >= size && v != []
    ensures |Bounded(e, done + Fitting(done, v, size), t, size)| < size
    ensures |Expansion(e, t)| == 0 && |done| + 2 <= size ==>
              |Bounded(e, done + Fitting(done, v, size), t, size)| == size - 2
  {
    hide Bounded, Expansion;
    var more := done + Fitting(done, v, size);
    CommandFits(e, more, t, size);
    if |Expansion(e, t)| == 0 { NothingToAdd(e, more, t, size, false); }
  }

  /**
    The command is the pure substitution exactly when this is at least two bytes shorter than the
    buffer, or one byte shorter and does not end in a value. In the middle of the loop, done has been
    written, and was says that its last byte, if any, is not from a value.
   */
  lemma {:induction false} CommandIsExpansionIff(e: Event, done: string, t: string, size: nat, was: bool)
    requires |done| + 2 <= size || (|done| + 1 == size && was)
    ensures Bounded(e, done, t, size) == done + Expansion(e, t) <==>
            var n := |done| + |Expansion(e, t)|; n + 2 <= size || (n + 1 == size && EndsLiterally(e, t, was))
    decreases |t|
  {
    hide Value, Directive, Bounded, Expansion, EndsLiterally;
    Unfold(e, t);
    BoundedUnfolds(e, done, t, size);
    EndsUnfolds(e, t, was);
    CommandFits(e, done, t, size);
    if t == [] {
      assert done + [] == done;
    } else if t[0] == '%' && |t| > 1 && Directive(t[1]) {
      var v, rest := Value(e, t[1]), Expansion(e, t[2..]);
      PercentIsPercent(e);
      Reassociate(done, v, rest);
      if t[1] == '%' {
        if |done| + 1 < size { CommandIsExpansionIff(e, done + v, t[2..], size, true); }
      } else if v == [] {
        assert done + Fitting(done, v, size) == done && done + v == done;
        CommandIsExpansionIff(e, done, t[2..], size, was);
      } else if |done| + |v| + 2 <= size {
        assert Fitting(done, v, size) == v;
        CommandIsExpansionIff(e, done + v, t[2..], size, false);
      } else {
        ValueTooLong(e, done, v, t[2..], size);
        if |rest| == 0 { NothingToAdd(e, done, t[2..], size, false); }
      }
    } else {
      Reassociate(done, [t[0]], Expansion(e, t[1..]));
      if |done| + 1 < size { CommandIsExpansionIff(e, done + [t[0]], t[1..], size, true); }
    }
  }

  /** The same for a whole command. */
  lemma CommandIsExpansion(e: Event, t: string, size: nat)
    requires size > 0
    ensures Bounded(e, "", t, size) == Expansion(e, t) <==>
            var n := |Expansion(e, t)|; n + 2 <= size || (n + 1 == size && EndsLiterally(e, t, true))
  {
    hide Bounded, Expansion, EndsLiterally;
    CommandIsExpansionIff(e, "", t, size, true);
    assert "" + Expansion(e, t) == Expansion(e, t);
  }

  /** A value at the end that would just have fitted loses its last character. */
  lemma OneByteIsWasted(e: Event, size: nat)
    requires |e.name| == size - 1 && size > 1
    ensures Bounded(e, "", "%e", size) == e.name[..size - 2] && Expansion(e, "%e") == e.name
  {
    BoundedUnfolds(e, "", "%e", size);
    Unfold(e, "%e");
    assert "%e"[2..] == [];
    assert "" + e.name[..size - 2] == e.name[..size - 2];
  }

  lemma PercentIsPercent(e: Event)
    ensures Value(e, '%') == "%"
  {
  }

  lemma Reassociate(a: string, b: string, c: string)
    ensures a + (b + c) == (a + b) + c
  {
  }

  lemma ValueNoNul(e: Event, c: char)
    requires Strings(e)
    ensures NoNul(Value(e, c))
  {
    DecimalNoNul(e.nodeId);
    DecimalNoNul(e.primaryId);
    EscapedNoNul(NUL, TextOf(e.details));
    hide Decimal, EscapeQuotes;
  }

  lemma DecimalNoNul(n: int)
    ensures NoNul(Decimal(n))
  {
    if n < 0 { DigitsNoNul(-n); } else { DigitsNoNul(n); }
  }

  lemma {:induction false} DigitsNoNul(n: nat)
    ensures NoNul(Digits(n))
  {
    if n >= 10 { DigitsNoNul(n / 10); }
  }

  lemma {:induction false} EscapedNoNul(before: char, s: string)
    requires NoNul(s)
    ensures NoNul(EscapeQuotes(before, s))
    decreases |s|
  {
    if s != [] { EscapedNoNul(s[0], s[1..]); }
  }
}
