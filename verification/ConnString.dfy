/**
  Connection strings in keyword/value form: the quoting of appendConnStrVal, the text that
  write_primary_conninfo builds, and a reader that follows section 33.1.1.1 of the PostgreSQL 12
  documentation.
 */
module ConnString {
  import opened ConfQuote
  import opened KeyValues
  import opened Params

  // ---- Writing ----

  predicate PlainChar(c: char) {
    'a' <= c <= 'z' || 'A' <= c <= 'Z' || '0' <= c <= '9' || c == '_' || c == '.'
  }

  predicate AllPlain(v: string) { v == [] || (PlainChar(v[0]) && AllPlain(v[1..])) }

  function BackslashChar(c: char): string { if c == '\'' || c == '\\' then ['\\', c] else [c] }

  function Backslashed(v: string): string {
    if v == [] then [] else BackslashChar(v[0]) + Backslashed(v[1..])
  }

  // A value as it is written: bare if it is one or more plain characters, else quoted.
  function ConnValue(v: string): string {
    if v != [] && AllPlain(v) then v else "'" + Backslashed(v) + "'"
  }

  // appendConnStrVal
  method AppendConnStrVal(buf: string, str: string) returns (r: string)
    ensures r == buf + ConnValue(str)
  {
    var needquotes := true;
    var i := 0;
    assert str[0..] == str;
    while i < |str|
      invariant i <= |str|
      invariant needquotes == (i == 0)
      invariant AllPlain(str) == AllPlain(str[i..])
    {
      if !PlainChar(str[i]) {
        assert str[i..] != [] && str[i..][0] == str[i];
        needquotes := true;
        break;
      }
      needquotes := false;
      assert str[i..][1..] == str[i + 1..];
      i := i + 1;
    }
    if needquotes { r := AppendQuoted(buf, str); } else { r := buf + str; }
  }

  // The quoting branch of appendConnStrVal.
  method AppendQuoted(buf: string, str: string) returns (r: string)
    ensures r == buf + ("'" + Backslashed(str) + "'")
  {
    hide Backslashed;
    r := buf + "'";
    var i := 0;
    ghost var done := "";
    assert str[0..] == str && buf + "'" == buf + ("'" + done);
    while i < |str|
      invariant i <= |str| && r == buf + ("'" + done)
      invariant Backslashed(str) == done + Backslashed(str[i..])
    {
      ghost var before := r;
      NextBackslashed(done, str[i..]);
      assert str[i..][1..] == str[i + 1..];
      if str[i] == '\'' || str[i] == '\\' { r := r + "\\"; }
      r := r + [str[i]];
      assert r == before + BackslashChar(str[i]);
      assert before + BackslashChar(str[i]) == buf + ("'" + (done + BackslashChar(str[i])));
      done := done + BackslashChar(str[i]);
      i := i + 1;
    }
    NothingBackslashed(str[i..]);
    assert Backslashed(str) == done;
    assert r + "'" == buf + ("'" + done + "'");
    r := r + "'";
  }

  lemma NextBackslashed(done: string, s: string)
    requires s != []
    ensures done + Backslashed(s) == (done + BackslashChar(s[0])) + Backslashed(s[1..])
  {
    hide BackslashChar;
  }

  lemma NothingBackslashed(s: string)
    requires s == []
    ensures Backslashed(s) == []
  {
  }

  function Pair(item: Item): string { item.key + "=" + ConnValue(item.value) }

  // Each pair behind a blank.
  function Spaced(items: seq<Item>): string {
    if items == [] then [] else " " + Pair(items[0]) + Spaced(items[1..])
  }

  function Joined(items: seq<Item>): string {
    if items == [] then [] else Pair(items[0]) + Spaced(items[1..])
  }

  // The settings that write_primary_conninfo leaves out.
  predicate Omitted(item: Item) { item.key == "dbname" || item.key == "replication" || item.value == "" }

  function Written(items: seq<Item>): seq<Item> {
    if items == [] then []
    else if Omitted(items[0]) then Written(items[1..])
    else [items[0]] + Written(items[1..])
  }

  datatype Options = Options(
    nodeName: string,               // node_name
    environmentPassword: Slot,      // the password that the environment provides
    useConninfoPassword: bool,      // use_primary_conninfo_password
    passfile: string,               // passfile
    libraryHasPassfile: bool        // has_passfile()
  )

  function AddedName(items: seq<Item>, o: Options): seq<Item> {
    if "application_name" in KeysOf(Written(items)) then []
    else [Item("application_name", if o.nodeName != "" then o.nodeName else "repmgr")]
  }

  function AddedPassword(items: seq<Item>, o: Options): seq<Item> {
    if "password" in KeysOf(Written(items)) || !o.useConninfoPassword || o.environmentPassword == Null then []
    else [Item("password", o.environmentPassword.s)]
  }

  function AddedPassfile(o: Options): seq<Item> {
    if o.passfile != "" && o.libraryHasPassfile then [Item("passfile", o.passfile)] else []
  }

  // The settings that are added behind the given ones.
  function Added(items: seq<Item>, o: Options): seq<Item> {
    AddedName(items, o) + AddedPassword(items, o) + AddedPassfile(o)
  }

  // The connection string before it is escaped for the settings file.
  function ConnInfo(items: seq<Item>, o: Options): string { Joined(Written(items)) + Spaced(Added(items, o)) }

  lemma {:induction false} WrittenSnoc(items: seq<Item>, x: Item)
    ensures Written(items + [x]) == Written(items) + if Omitted(x) then [] else [x]
  {
    if items == [] {
      assert items + [x] == [x];
    } else {
      assert (items + [x])[1..] == items[1..] + [x];
      WrittenSnoc(items[1..], x);
    }
  }

  lemma {:induction false} SpacedConcat(a: seq<Item>, b: seq<Item>)
    ensures Spaced(a + b) == Spaced(a) + Spaced(b)
  {
    if a == [] {
      assert a + b == b;
    } else {
      assert (a + b)[1..] == a[1..] + b;
      SpacedConcat(a[1..], b);
    }
  }

  lemma JoinedSnoc(items: seq<Item>, x: Item)
    ensures Joined(items + [x]) == if items == [] then Pair(x) else Joined(items) + " " + Pair(x)
    ensures Joined(items) == "" <==> items == []
  {
    PairIsNotEmpty(x);
    hide Pair, ConnValue;
    SpacedOne(x);
    if items == [] {
      assert items + [x] == [x];
      assert Pair(x) + [] == Pair(x);
    } else {
      PairIsNotEmpty(items[0]);
      assert (items + [x])[1..] == items[1..] + [x];
      SpacedConcat(items[1..], [x]);
    }
  }

  lemma SpacedOne(x: Item)
    ensures Spaced([x]) == " " + Pair(x) && Spaced([]) == []
  {
    hide Pair;
    assert [x][1..] == [];
  }

  lemma PairIsNotEmpty(x: Item)
    ensures Pair(x) != []
  {
    hide ConnValue;
  }

  // The loop of write_primary_conninfo over the parameter list.
  method WriteParams(params: ParamList) returns (buf: string, applicationName: bool, password: bool)
    requires params.Valid()
    ensures buf == Joined(Written(params.items))
    ensures applicationName <==> "application_name" in KeysOf(Written(params.items))
    ensures password <==> "password" in KeysOf(Written(params.items))
  {
    hide Joined, Pair, KeysOf, Written;
    applicationName, password := false, false;
    var c := 0;
    buf := "";
    ghost var items := params.items;
    ghost var written := Written([]);
    assert items[..0] == [];
    NothingWritten();
    while c < params.size && params.keywords[c] != Null
      invariant c <= |items| && written == Written(items[..c])
      invariant buf == Joined(written)
      invariant applicationName <==> "application_name" in KeysOf(written)
      invariant password <==> "password" in KeysOf(written)
    {
      var keyword, value := params.keywords[c].s, params.values[c];
      WrittenSnoc(items[..c], items[c]);
      assert items[..c + 1] == items[..c] + [items[c]];
      if !(keyword == "dbname" || keyword == "replication" || value == Null || value == Str("")) {
        KeysOfSnoc(written, items[c]);
        if keyword == "password" { password := true; }
        if keyword == "application_name" { applicationName := true; }
        buf := WriteParam(buf, keyword, value.s, written);
        written := written + [items[c]];
      }
      c := c + 1;
    }
    assert items[..c] == items;
  }

  // The body of that loop for a parameter that is written.
  method WriteParam(buf: string, keyword: string, value: string, ghost written: seq<Item>) returns (r: string)
    requires buf == Joined(written)
    ensures r == Joined(written + [Item(keyword, value)])
  {
    hide Joined, Pair;
    ghost var item := Item(keyword, value);
    JoinedSnoc(written, item);
    PairIs(item);
    r := buf;
    if |r| != 0 { r := r + " "; }
    ghost var before := r;
    r := r + (keyword + "=");
    r := AppendConnStrVal(r, value);
    assert r == before + Pair(item);
  }

  lemma NothingWritten()
    ensures Written([]) == [] && Joined([]) == "" && KeysOf([]) == {}
  {
  }

  lemma PairIs(item: Item)
    ensures Pair(item) == item.key + "=" + ConnValue(item.value)
  {
  }

  lemma KeysOfSnoc(items: seq<Item>, x: Item)
    ensures KeysOf(items + [x]) == KeysOf(items) + {x.key}
  {
    assert x in items + [x];
  }

  // A further setting behind the ones there are.
  method AppendSetting(buf: string, keyword: string, value: string) returns (r: string)
    ensures r == buf + Spaced([Item(keyword, value)])
  {
    r := buf + " " + keyword + "=";
    r := AppendConnStrVal(r, value);
    PairIs(Item(keyword, value));
    assert r == buf + (" " + Pair(Item(keyword, value)));
    assert Spaced([Item(keyword, value)]) == " " + Pair(Item(keyword, value));
  }

  // write_primary_conninfo: the escaped connection string.
  method WritePrimaryConninfo(params: ParamList, o: Options) returns (dest: string)
    requires params.Valid()
    ensures dest == Escape(ConnInfo(params.items, o))
  {
    hide Joined, Written, Escape, Spaced, KeysOf, ConnValue;
    var buf, applicationName, password := WriteParams(params);
    ghost var start, added := buf, AddedName(params.items, o);
    NothingSpaced();
    if !applicationName {
      if |o.nodeName| > 0 {
        buf := AppendSetting(buf, "application_name", o.nodeName);
      } else {
        buf := AppendSetting(buf, "application_name", "repmgr");
      }
    }
    assert buf == start + Spaced(added);
    if !password && o.useConninfoPassword && o.environmentPassword != Null {
      buf := AppendSetting(buf, "password", o.environmentPassword.s);
    }
    SpacedConcat(added, AddedPassword(params.items, o));
    added := added + AddedPassword(params.items, o);
    assert buf == start + Spaced(added);
    if o.passfile != "" && o.libraryHasPassfile {
      buf := AppendSetting(buf, "passfile", o.passfile);
    }
    SpacedConcat(added, AddedPassfile(o));
    assert buf == start + Spaced(Added(params.items, o));
    dest := Escape(buf);
  }

  lemma NothingSpaced()
    ensures Spaced([]) == []
  {
  }
}
