/**
  Reading back what write_primary_conninfo wrote: through the quoting of the settings file, the
  scanner and the unescaper, and through the quoting of the connection string.
 */
module PrimaryConninfo {
  import opened ConfRules
  import opened ConfTokens
  import opened ConfQuote
  import opened ConfParser
  import opened ConfSetting
  import opened KeyValues
  import opened Params
  import opened ConnString
  import opened AutoConf
  import opened EscapedLines

  // ---- Reading a connection string ----

  predicate IsSpace(c: char) {
    c == ' ' || c == '\t' || c == '\n' || c == '\U{B}' || c == '\U{C}' || c == '\r'
  }

  function SkipSpaces(s: string): (r: string)
    ensures |r| <= |s|
  {
    if s != [] && IsSpace(s[0]) then SkipSpaces(s[1..]) else s
  }

  function KeywordLength(s: string): (n: nat)
    ensures n <= |s|
  {
    if s == [] || s[0] == '=' || IsSpace(s[0]) then 0 else 1 + KeywordLength(s[1..])
  }

  datatype Value = Value(text: string, rest: string) | Unterminated

  function Cons(c: char, v: Value): Value { if v.Value? then v.(text := [c] + v.text) else v }

  // A value that does not start with a quote: up to a blank, a backslash escapes a character.
  function BareValue(s: string): (v: Value)
    decreases |s|
    ensures v.Value? && |v.rest| <= |s|
  {
    if s == [] then Value([], [])
    else if IsSpace(s[0]) then Value([], s[1..])
    else if s[0] == '\\' then (if |s| == 1 then Value([], []) else Cons(s[1], BareValue(s[2..])))
    else Cons(s[0], BareValue(s[1..]))
  }

  // A value behind its opening quote: up to the closing one, a backslash escapes a character.
  function QuotedValue(s: string): (v: Value)
    decreases |s|
    ensures v.Value? ==> |v.rest| <= |s|
  {
    if s == [] then Unterminated
    else if s[0] == '\'' then Value([], s[1..])
    else if s[0] == '\\' then (if |s| == 1 then Unterminated else Cons(s[1], QuotedValue(s[2..])))
    else Cons(s[0], QuotedValue(s[1..]))
  }

  datatype Conn = Conn(items: seq<Item>) | Invalid

  function ReadConn(s: string): Conn
    decreases |s|
  {
    var t := SkipSpaces(s);
    if t == [] then Conn([])
    else
      var n := KeywordLength(t);
      var u := SkipSpaces(t[n..]);
      if u == [] || u[0] != '=' then Invalid
      else
        var w := SkipSpaces(u[1..]);
        var v := if w != [] && w[0] == '\'' then QuotedValue(w[1..]) else BareValue(w);
        if v.Unterminated? then Invalid
        else
          var later := ReadConn(v.rest);
          if later.Invalid? then later else Conn([Item(t[..n], v.text)] + later.items)
  }

  // ---- Reading back ----

  predicate IsKeyword(k: string) { k != [] && forall i :: 0 <= i < |k| ==> k[i] != '=' && !IsSpace(k[i]) }

  predicate BlankOrEnd(s: string) { s == [] || s[0] == ' ' }

  lemma {:induction false} BareBack(v: string, rest: string)
    requires AllPlain(v) && BlankOrEnd(rest)
    ensures BareValue(v + rest) == Value(v, if rest == [] then [] else rest[1..])
  {
    if v == [] {
      assert v + rest == rest;
    } else {
      assert (v + rest)[1..] == v[1..] + rest;
      BareBack(v[1..], rest);
    }
  }

  lemma {:induction false} QuotedBack(v: string, rest: string)
    ensures QuotedValue(Backslashed(v) + ("'" + rest)) == Value(v, rest)
  {
    hide QuotedValue, BackslashChar;
    if v == [] {
      assert Backslashed(v) + ("'" + rest) == "'" + rest;
      QuoteEnds(rest);
    } else {
      QuotedBack(v[1..], rest);
      var tail := Backslashed(v[1..]) + ("'" + rest);
      assert Backslashed(v) + ("'" + rest) == BackslashChar(v[0]) + tail;
      QuotedStep(v[0], tail);
      assert [v[0]] + v[1..] == v;
    }
  }

  lemma QuoteEnds(rest: string)
    ensures QuotedValue("'" + rest) == Value([], rest)
  {
    assert ("'" + rest)[1..] == rest;
  }

  lemma QuotedStep(c: char, tail: string)
    ensures QuotedValue(BackslashChar(c) + tail) == Cons(c, QuotedValue(tail))
  {
    var s := BackslashChar(c) + tail;
    assert s[|BackslashChar(c)|..] == tail;
  }

  lemma {:induction false} KeywordBack(k: string, rest: string)
    requires forall i :: 0 <= i < |k| ==> k[i] != '=' && !IsSpace(k[i])
    requires rest != [] && rest[0] == '='
    ensures KeywordLength(k + rest) == |k|
  {
    if k == [] {
      assert k + rest == rest;
    } else {
      assert (k + rest)[1..] == k[1..] + rest;
      KeywordBack(k[1..], rest);
    }
  }

  lemma SkipBlank(rest: string)
    requires BlankOrEnd(rest)
    ensures ReadConn(rest) == ReadConn(if rest == [] then [] else rest[1..])
  {
  }

  // The value of a pair is read back, and leaves what follows it.
  lemma ValueBack(v: string, rest: string)
    requires BlankOrEnd(rest)
    ensures var w := ConnValue(v) + rest;
            && w != [] && SkipSpaces(w) == w
            && (w[0] == '\'' ==> QuotedValue(w[1..]) == Value(v, rest))
            && (w[0] != '\'' ==> BareValue(w) == Value(v, if rest == [] then [] else rest[1..]))
  {
    hide AllPlain, Backslashed, BareValue, QuotedValue, SkipSpaces;
    var w := ConnValue(v) + rest;
    if v != [] && AllPlain(v) {
      BareBack(v, rest);
      PlainStart(v);
      StartsThere(w);
    } else {
      QuotedBack(v, rest);
      assert w == "'" + (Backslashed(v) + ("'" + rest));
      StartsThere(w);
    }
  }

  lemma PlainStart(v: string)
    requires v != [] && AllPlain(v)
    ensures !IsSpace(v[0]) && v[0] != '\''
  {
  }

  lemma StartsThere(w: string)
    requires w != [] && !IsSpace(w[0])
    ensures SkipSpaces(w) == w
  {
  }

  lemma PairBack(item: Item, rest: string)
    requires IsKeyword(item.key) && BlankOrEnd(rest)
    ensures ReadConn(Pair(item) + rest) ==
            var later := ReadConn(rest);
            if later.Invalid? then later else Conn([item] + later.items)
  {
    hide ConnValue, QuotedValue, BareValue;
    var s := Pair(item) + rest;
    var w := ConnValue(item.value) + rest;
    assert s == item.key + ("=" + w);
    assert SkipSpaces(s) == s;
    KeywordBack(item.key, "=" + w);
    assert s[|item.key|..] == "=" + w && s[..|item.key|] == item.key;
    assert ("=" + w)[1..] == w;
    ValueBack(item.value, rest);
    SkipBlank(rest);
  }

  predicate AllKeywords(items: seq<Item>) { forall c :: c in items ==> IsKeyword(c.key) }

  lemma {:induction false} SpacedBack(items: seq<Item>)
    requires AllKeywords(items)
    ensures ReadConn(Spaced(items)) == Conn(items) && BlankOrEnd(Spaced(items))
  {
    hide Pair, IsKeyword, ReadConn;
    ReadNothing();
    if items != [] {
      var rest := Spaced(items[1..]);
      SpacedBack(items[1..]);
      assert items[0] in items;
      PairBack(items[0], rest);
      assert Spaced(items) == " " + (Pair(items[0]) + rest);
      SkipBlank(Spaced(items));
      assert items == [items[0]] + items[1..];
    }
  }

  lemma ReadNothing()
    ensures ReadConn([]) == Conn([])
  {
  }

  lemma SpacedStarts(items: seq<Item>)
    ensures BlankOrEnd(Spaced(items))
  {
    hide Pair;
  }

  /** A written connection string is read back as the settings it was written from, in order. */
  lemma ConnStringReadsBack(items: seq<Item>, more: seq<Item>)
    requires AllKeywords(items) && AllKeywords(more)
    ensures ReadConn(Joined(items) + Spaced(more)) == Conn(items + more)
  {
    hide Pair, IsKeyword, Spaced, ReadConn, ConnValue;
    if items == [] {
      SpacedBack(more);
      assert Joined(items) == "" && "" + Spaced(more) == Spaced(more);
      assert items + more == more;
    } else {
      var first, tail := items[0], items[1..];
      SpacedConcat(tail, more);
      var later := Spaced(tail + more);
      assert Joined(items) + Spaced(more) == Pair(first) + later;
      assert items == [first] + tail;
      SpacedBack(tail + more);
      SpacedStarts(tail + more);
      PairBack(first, later);
      assert [first] + (tail + more) == items + more;
    }
  }

  // ---- Through the settings file ----

  predicate NulFreeItems(items: seq<Item>) { forall c :: c in items ==> NulFree(c.key) && NulFree(c.value) }

  predicate NewlineIn(items: seq<Item>) { exists c :: c in items && '\n' in c.value }

  lemma {:induction false} BackslashedKeeps(v: string)
    ensures '\n' in Backslashed(v) <==> '\n' in v
    ensures NulFree(v) ==> NulFree(Backslashed(v))
  {
    if v != [] {
      BackslashedKeeps(v[1..]);
      assert v == [v[0]] + v[1..];
    }
  }

  lemma PairKeeps(item: Item)
    requires IsKeyword(item.key) && NulFree(item.key) && NulFree(item.value)
    ensures NulFree(Pair(item)) && ('\n' in Pair(item) <==> '\n' in item.value)
  {
    var v := item.value;
    BackslashedKeeps(v);
    assert '\n' !in item.key by { assert forall i :: 0 <= i < |item.key| ==> !IsSpace(item.key[i]); }
  }

  lemma {:induction false} SpacedKeeps(items: seq<Item>)
    requires AllKeywords(items) && NulFreeItems(items)
    ensures NulFree(Spaced(items)) && ('\n' in Spaced(items) <==> NewlineIn(items))
  {
    hide Pair, IsKeyword, NulFree;
    if items == [] {
      NoNulsInNothing();
    } else {
      var tail := items[1..];
      assert items == [items[0]] + tail;
      assert items[0] in items;
      SpacedKeeps(tail);
      PairKeeps(items[0]);
      NoNuls();
      NulFreeConcat(" ", Pair(items[0]));
      NulFreeConcat(" " + Pair(items[0]), Spaced(tail));
    }
  }

  lemma JoinedKeeps(items: seq<Item>, more: seq<Item>)
    requires AllKeywords(items + more) && NulFreeItems(items + more)
    ensures var s := Joined(items) + Spaced(more);
            NulFree(s) && ('\n' in s <==> NewlineIn(items + more))
  {
    hide Pair, IsKeyword, NulFree, Spaced;
    SpacedConcat(items, more);
    SpacedKeeps(items + more);
    var s := Joined(items) + Spaced(more);
    if items == [] {
      assert Joined(items) == "" && s == Spaced(more) && items + more == more;
    } else {
      JoinedIsSpaced(items);
      assert " " + s == Spaced(items + more);
      NulFreeConcat(" ", s);
    }
  }

  lemma JoinedIsSpaced(items: seq<Item>)
    requires items != []
    ensures Spaced(items) == " " + Joined(items)
  {
  }

  lemma {:induction false} WrittenMembers(items: seq<Item>)
    ensures forall c :: c in Written(items) <==> c in items && !Omitted(c)
  {
    if items != [] {
      WrittenMembers(items[1..]);
      assert items == [items[0]] + items[1..];
    }
  }

  // The keywords and values come without NUL, and the keywords without blanks and equals signs.
  predicate Sensible(items: seq<Item>, o: Options) {
    AllKeywords(items) && NulFreeItems(items) && NulFree(o.nodeName) &&
    NulFree(o.passfile) && (o.environmentPassword.Str? ==> NulFree(o.environmentPassword.s))
  }

  lemma AddedIsSensible(items: seq<Item>, o: Options)
    requires Sensible(items, o)
    ensures AllKeywords(Added(items, o)) && NulFreeItems(Added(items, o))
  {
    hide Written, IsKeyword, NulFree;
    KeywordName();
    KeywordPassword();
    KeywordPassfile();
  }

  lemma KeywordName()
    ensures IsKeyword("application_name") && NulFree("application_name") && NulFree("repmgr")
  {
  }

  lemma KeywordPassword()
    ensures IsKeyword("password") && NulFree("password")
  {
  }

  lemma KeywordPassfile()
    ensures IsKeyword("passfile") && NulFree("passfile")
  {
  }

  /**
    The value that write_primary_conninfo wrote is read back through both layers: the settings line
    gives the connection string, and that gives the written pairs in order and the added ones behind
    them. One condition decides it: the scanner takes the quoted value as one string exactly when no
    value contains a newline.
   */
  lemma PrimaryConninfoReadsBack(items: seq<Item>, o: Options)
    requires Sensible(items, o)
    ensures var pairs := Written(items) + Added(items, o);
            var conn := ConnInfo(items, o);
            && ReadConn(conn) == Conn(pairs)
            && "application_name" in KeysOf(pairs)
            && (QuotedString(Raw(Escape(conn))) <==> !NewlineIn(pairs))
            && (!NewlineIn(pairs) ==> forall k :: IsName(k) ==>
                 && Quotable(Item(k, Escape(conn)))
                 && Stored(Item(k, Escape(conn))) == Item(k, conn)
                 && LineOf(k + " = " + Raw(Escape(conn))) == Setting(Item(k, conn)))
  {
    hide Joined, Spaced, Written, IsKeyword, NulFree, Escape, LineOf, IsName, ReadConn, NewlineIn;
    hide QuotedString, Unescape, UntilNul;
    var written, added := Written(items), Added(items, o);
    var conn := ConnInfo(items, o);
    WrittenMembers(items);
    AddedIsSensible(items, o);
    ConnStringReadsBack(written, added);
    JoinedKeeps(written, added);
    HasApplicationName(items, o);
    QuoteIsString(conn);
    EscapeKeepsNewlines(conn);
    UnescapeUndoesEscape(conn);
    UntilNulOfNulFree(conn);
    assert Raw(Escape(conn)) == Quote(conn);
    if !NewlineIn(written + added) {
      forall k | IsName(k)
        ensures Quotable(Item(k, Escape(conn))) && Stored(Item(k, Escape(conn))) == Item(k, conn)
        ensures LineOf(k + " = " + Raw(Escape(conn))) == Setting(Item(k, conn))
      {
        StoredLine(Item(k, Escape(conn)));
      }
    }
  }

  lemma HasApplicationName(items: seq<Item>, o: Options)
    ensures "application_name" in KeysOf(Written(items) + Added(items, o))
  {
    var w, n := Written(items), AddedName(items, o);
    if "application_name" in KeysOf(w) {
      var c :| c in w && c.key == "application_name";
      assert c in w + Added(items, o);
    } else {
      assert n[0] in w + Added(items, o);
    }
  }

  /**
    What a reader of the connection string finds besides the given settings: a name for the standby,
    the password of the environment and the password file, unless given or not wanted.
   */
  lemma AdditionsAreRead(items: seq<Item>, o: Options)
    requires Sensible(items, o)
    ensures var c := ReadConn(ConnInfo(items, o));
            && c.Conn? && |c.items| >= |Written(items)| && c.items[..|Written(items)|] == Written(items)
            && var added := c.items[|Written(items)|..];
            && ("application_name" !in KeysOf(Written(items)) ==>
                  Item("application_name", if o.nodeName == "" then "repmgr" else o.nodeName) in added)
            && (o.useConninfoPassword && o.environmentPassword.Str? && "password" !in KeysOf(Written(items)) ==>
                  Item("password", o.environmentPassword.s) in added)
            && (o.libraryHasPassfile && o.passfile != "" ==> Item("passfile", o.passfile) in added)
            && forall x :: x in added ==> x.key in {"application_name", "password", "passfile"}
  {
    hide *;
    PrimaryConninfoReadsBack(items, o);
    if "application_name" !in KeysOf(Written(items)) { NameIsAdded(items, o); }
    if o.useConninfoPassword && o.environmentPassword.Str? && "password" !in KeysOf(Written(items)) {
      PasswordIsAdded(items, o);
    }
    if o.libraryHasPassfile && o.passfile != "" { PassfileIsAdded(items, o); }
    AddedKeys(items, o);
    var w, a := Written(items), Added(items, o);
    assert (w + a)[..|w|] == w && (w + a)[|w|..] == a;
  }

  lemma NameIsAdded(items: seq<Item>, o: Options)
    requires "application_name" !in KeysOf(Written(items))
    ensures Item("application_name", if o.nodeName == "" then "repmgr" else o.nodeName) in Added(items, o)
  {
    hide Written, KeysOf, AddedPassword, AddedPassfile;
    assert AddedName(items, o)[0] in Added(items, o);
  }

  lemma PasswordIsAdded(items: seq<Item>, o: Options)
    requires o.useConninfoPassword && o.environmentPassword.Str? && "password" !in KeysOf(Written(items))
    ensures Item("password", o.environmentPassword.s) in Added(items, o)
  {
    hide Written, KeysOf, AddedName, AddedPassfile;
    assert AddedPassword(items, o)[0] in Added(items, o);
  }

  lemma PassfileIsAdded(items: seq<Item>, o: Options)
    requires o.libraryHasPassfile && o.passfile != ""
    ensures Item("passfile", o.passfile) in Added(items, o)
  {
    hide Written, KeysOf, AddedName, AddedPassword;
    assert AddedPassfile(o)[0] in Added(items, o);
  }

  lemma AddedKeys(items: seq<Item>, o: Options)
    ensures forall x :: x in Added(items, o) ==> x.key in {"application_name", "password", "passfile"}
  {
    hide Written, KeysOf;
  }

  // The connection string as the only setting of a settings file is read back exactly when it has no
  // newline.
  lemma AloneInTheFile(k: string, conn: string)
    requires IsName(k) && NulFree(conn)
    requires '\n' !in conn ==> Quotable(Item(k, Escape(conn))) && Stored(Item(k, Escape(conn))) == Item(k, conn)
    ensures Item(k, conn) in Settings(Print([Item(k, Escape(conn))])) <==> '\n' !in conn
  {
    hide Settings, Print, Quotable, Stored, Paired, Escape, IsName;
    var cells := [Item(k, Escape(conn))];
    if '\n' in conn {
      EscapedIsPaired(conn);
      if Item(k, conn) in Settings(Print(cells)) { NoNewlineIsRead(cells, Item(k, conn)); }
    } else {
      PrintedSettingsReadBack(cells);
      StoredKeys(cells);
      assert AllStored(cells)[0] == Item(k, conn);
    }
  }

  /**
    The settings file loses a connection string exactly when some written value has a newline: then
    no setting that is read back has one.
   */
  lemma FileKeepsIffNoNewline(items: seq<Item>, o: Options, k: string)
    requires Sensible(items, o) && IsName(k)
    ensures var conn := ConnInfo(items, o);
            Item(k, conn) in Settings(Print([Item(k, Escape(conn))])) <==> !NewlineIn(Written(items) + Added(items, o))
  {
    hide Joined, Spaced, Written, IsKeyword, NulFree, Escape, IsName, NewlineIn, ReadConn, LineOf;
    hide QuotedString, Settings, Print, Quotable, Stored;
    var conn := ConnInfo(items, o);
    PrimaryConninfoReadsBack(items, o);
    WrittenMembers(items);
    AddedIsSensible(items, o);
    JoinedKeeps(Written(items), Added(items, o));
    AloneInTheFile(k, conn);
  }

  /** With a newline in a value the connection string is lost. */
  lemma NewlineBreaksIt(k: string)
    requires IsName(k)
    ensures var conn := ConnInfo([Item("user", "a\nb")], Options("n", Null, false, "", false));
            !QuotedString(Raw(Escape(conn))) && Item(k, conn) !in Settings(Print([Item(k, Escape(conn))]))
  {
    hide *;
    var items := [Item("user", "a\nb")];
    var o := Options("n", Null, false, "", false);
    NewlineExample(items, o);
    PrimaryConninfoReadsBack(items, o);
    FileKeepsIffNoNewline(items, o, k);
  }

  lemma NewlineExample(items: seq<Item>, o: Options)
    requires items == [Item("user", "a\nb")] && o == Options("n", Null, false, "", false)
    ensures Sensible(items, o) && NewlineIn(Written(items) + Added(items, o))
  {
    assert IsKeyword("user");
    WrittenMembers(items);
    assert items[0] in items && '\n' in items[0].value && !Omitted(items[0]);
    assert items[0] in Written(items) + Added(items, o);
  }
}
