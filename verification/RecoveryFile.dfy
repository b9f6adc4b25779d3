/**
  create_recovery_file: the replication settings of a standby, written into the settings file from
  version 12 on and into a file of their own before that.
 */
module RecoveryFile {
  import opened ConfRules
  import opened ConfQuote
  import opened ConfParser
  import opened ConfPerLine
  import opened ConfSetting
  import opened KeyValues
  import opened Params
  import opened ConnString
  import opened AutoConf
  import opened PrimaryConninfo

  datatype Recovery = Recovery(
    minApplyDelay: Slot,      // recovery_min_apply_delay, if provided
    useSlots: bool,           // use_replication_slots
    slotName: string,
    restoreCommand: string,
    archiveCleanup: string
  )

  function Setting(on: bool, key: string, value: string): seq<Item> { if on then [Item(key, value)] else [] }

  function Delay(r: Recovery): string { if r.minApplyDelay.Str? then r.minApplyDelay.s else "" }

  function TimelineKey(): string { "recovery_target_timeline" }
  function DelayKey(): string { "recovery_min_apply_delay" }
  function SlotKey(): string { "primary_slot_name" }
  function RestoreKey(): string { "restore_command" }
  function CleanupKey(): string { "archive_cleanup_command" }

  // The settings behind the connection string.
  function OtherSettings(r: Recovery): seq<Item> {
    [Item(TimelineKey(), "latest")]
    + Setting(r.minApplyDelay.Str?, DelayKey(), Delay(r))
    + Setting(r.useSlots, SlotKey(), r.slotName)
    + Setting(r.restoreCommand != "", RestoreKey(), Escape(r.restoreCommand))
    + Setting(r.archiveCleanup != "", CleanupKey(), Escape(r.archiveCleanup))
  }

  // The settings in the order in which they are listed.
  function RecoveryConfig(version: int, conninfo: string, r: Recovery): seq<Item> {
    Setting(version < 120000, "standby_mode", "on")
    + [Item("primary_conninfo", conninfo)]
    + OtherSettings(r)
  }

  // The settings file after create_recovery_file, or the separate file.
  function RecoveryText(file: string, version: int, config: seq<Item>): string {
    if version >= 120000 then Print(PutAll(Settings(file), config)) else Body(config)
  }

  method SetOthers(config: KeyValueList, r: Recovery)
    modifies config
    ensures config.cells == old(config.cells) + OtherSettings(r)
  {
    hide Escape, TimelineKey, DelayKey, SlotKey, RestoreKey, CleanupKey;
    ghost var c0 := config.cells;
    config.Set(false, TimelineKey(), "latest");
    if r.minApplyDelay != Null { config.Set(false, DelayKey(), r.minApplyDelay.s); }
    ghost var s2 := [Item(TimelineKey(), "latest")] + Setting(r.minApplyDelay.Str?, DelayKey(), Delay(r));
    assert config.cells == c0 + s2;
    if r.useSlots { config.Set(false, SlotKey(), r.slotName); }
    ghost var s3 := s2 + Setting(r.useSlots, SlotKey(), r.slotName);
    assert config.cells == c0 + s3;
    if r.restoreCommand != "" { config.Set(false, RestoreKey(), Escape(r.restoreCommand)); }
    ghost var s4 := s3 + Setting(r.restoreCommand != "", RestoreKey(), Escape(r.restoreCommand));
    assert config.cells == c0 + s4;
    if r.archiveCleanup != "" { config.Set(false, CleanupKey(), Escape(r.archiveCleanup)); }
  }

  // create_recovery_file; file is the settings file that is there already.
  method CreateRecoveryFile(file: string, params: ParamList, o: Options, version: int, r: Recovery)
    returns (written: string)
    requires params.Valid() && NulFree(file)
    ensures written == RecoveryText(file, version, RecoveryConfig(version, Escape(ConnInfo(params.items, o)), r))
  {
    hide ConnInfo, Escape, Print, Body, PutAll, Settings, OtherSettings;
    var config := new KeyValueList();
    if version < 120000 { config.Set(false, "standby_mode", "on"); }
    var conninfo := WritePrimaryConninfo(params, o);
    config.Set(false, "primary_conninfo", conninfo);
    SetOthers(config, r);
    assert config.cells == RecoveryConfig(version, conninfo, r);
    if version >= 120000 {
      written := ModifyAutoConf(file, config);
    } else {
      written := PrintLines(config.cells);
    }
  }

  method PrintLines(cells: seq<Item>) returns (written: string)
    ensures written == Body(cells)
  {
    hide Raw;
    written := "";
    var i := 0;
    assert cells[0..] == cells;
    while i < |cells|
      invariant 0 <= i <= |cells|
      invariant Body(cells) == written + Body(cells[i..])
    {
      assert cells[i..][1..] == cells[i + 1..];
      assert Body(cells[i..]) == LineText(cells[i]) + "\n" + Body(cells[i + 1..]);
      written := written + (cells[i].key + " = " + Raw(cells[i].value) + "\n");
      i := i + 1;
    }
    assert Body(cells[i..]) == [];
  }

  // What a reader of the file finds: the settings file, or the separate one.
  lemma WrittenIsRead(file: string, version: int, config: seq<Item>)
    requires NulFree(file) && DistinctKeys(config)
    requires forall c :: c in Merged(file, version, config) ==> Quotable(c)
    ensures Settings(RecoveryText(file, version, config)) == AllStored(Merged(file, version, config))
  {
    hide Settings, Print, Body, PutAll, Quotable, AllStored, DistinctKeys;
    if version >= 120000 {
      SettingsArePrintable(file);
      PutAllKeepsDistinct(Settings(file), config);
      PrintedSettingsReadBack(PutAll(Settings(file), config));
    } else {
      BodyReadsBack(config);
    }
  }

  function Merged(file: string, version: int, config: seq<Item>): seq<Item> {
    if version >= 120000 then PutAll(Settings(file), config) else config
  }

  lemma BodyReadsBack(cells: seq<Item>)
    requires DistinctKeys(cells) && forall c :: c in cells ==> Quotable(c)
    ensures Settings(Body(cells)) == AllStored(cells)
  {
    hide ParseText, LineOf, Lines, FirstLine, Quotable, Body, SettingsOf, ErrorsOf, Stored, AllStored;
    hide PutAll, Reported, CutShort;
    QuotableBody(cells);
    ParsingIsPerLine(Body(cells));
    StoredDistinct(cells);
    hide DistinctKeys;
    assert [] + AllStored(cells) == AllStored(cells);
    PutAllFresh([], AllStored(cells));
  }

  lemma PutAllKeepsLast(cells: seq<Item>, a: seq<Item>, x: Item, b: seq<Item>)
    requires x.key !in KeysOf(b)
    ensures x in PutAll(cells, a + [x] + b)
  {
    PutAllAppend(cells, a + [x], b);
    PutAllAppend(cells, a, [x]);
    var m := PutAll(cells, a);
    assert PutAll(m, [x]) == PutAll(Put(m, x), []) == Put(m, x);
    assert x in Put(m, x);
    PutAllKeepsOthers(Put(m, x), x, b);
  }

  lemma {:induction false} PutAllAppend(cells: seq<Item>, a: seq<Item>, b: seq<Item>)
    ensures PutAll(cells, a + b) == PutAll(PutAll(cells, a), b)
    decreases |a|
  {
    if a == [] {
      assert a + b == b;
    } else {
      assert (a + b)[1..] == a[1..] + b;
      PutAllAppend(Put(cells, a[0]), a[1..], b);
    }
  }

  lemma {:induction false} PutAllKeepsOthers(cells: seq<Item>, x: Item, items: seq<Item>)
    requires x in cells && x.key !in KeysOf(items)
    ensures x in PutAll(cells, items)
    decreases |items|
  {
    if items != [] {
      assert items == [items[0]] + items[1..];
      assert items[0] in items;
      WithoutKeeps(cells, {items[0].key});
      PutAllKeepsOthers(Put(cells, items[0]), x, items[1..]);
    }
  }

  lemma OneMore(a: seq<Item>, on: bool, key: string, value: string, keys: set<string>)
    requires DistinctKeys(a) && KeysOf(a) <= keys && key !in keys
    ensures DistinctKeys(a + Setting(on, key, value)) && KeysOf(a + Setting(on, key, value)) <= keys + {key}
  {
    assert forall i :: 0 <= i < |a| ==> a[i].key in KeysOf(a);
  }

  lemma OthersDiffer(r: Recovery)
    ensures DistinctKeys(OtherSettings(r))
    ensures KeysOf(OtherSettings(r)) <= OtherKeys()
  {
    var c := Item(TimelineKey(), "latest");
    var timeline, delay, slot, restore, cleanup := TimelineKey(), DelayKey(), SlotKey(), RestoreKey(), CleanupKey();
    var s1 := [c];
    var s2 := s1 + Setting(r.minApplyDelay.Str?, delay, Delay(r));
    var s3 := s2 + Setting(r.useSlots, slot, r.slotName);
    var s4 := s3 + Setting(r.restoreCommand != "", restore, Escape(r.restoreCommand));
    var s5 := s4 + Setting(r.archiveCleanup != "", cleanup, Escape(r.archiveCleanup));
    assert OtherSettings(r) == s5 && c.key == timeline;
    KeysDiffer();
    hide Escape, Delay, Setting, TimelineKey, DelayKey, SlotKey, RestoreKey, CleanupKey, OtherSettings;
    assert DistinctKeys(s1) && KeysOf(s1) <= {timeline};
    OneMore(s1, r.minApplyDelay.Str?, delay, Delay(r), {timeline});
    OneMore(s2, r.useSlots, slot, r.slotName, {timeline, delay});
    OneMore(s3, r.restoreCommand != "", restore, Escape(r.restoreCommand), {timeline, delay, slot});
    OneMore(s4, r.archiveCleanup != "", cleanup, Escape(r.archiveCleanup), {timeline, delay, slot, restore});
  }

  function OtherKeys(): set<string> { {TimelineKey(), DelayKey(), SlotKey(), RestoreKey(), CleanupKey()} }

  lemma KeysDiffer()
    ensures DelayKey() !in {TimelineKey()}
    ensures SlotKey() !in {TimelineKey(), DelayKey()}
    ensures RestoreKey() !in {TimelineKey(), DelayKey(), SlotKey()}
    ensures CleanupKey() !in {TimelineKey(), DelayKey(), SlotKey(), RestoreKey()}
    ensures "primary_conninfo" !in OtherKeys() && "standby_mode" !in OtherKeys()
  {
    assert |TimelineKey()| == |DelayKey()| == 24 && |SlotKey()| == 17 && |RestoreKey()| == 15 && |CleanupKey()| == 23;
    assert TimelineKey()[9] == 't' && DelayKey()[9] == 'm';
    assert |"primary_conninfo"| == 16 && |"standby_mode"| == 12;
  }

  lemma ConfigKeysDiffer(version: int, conninfo: string, r: Recovery)
    ensures DistinctKeys(RecoveryConfig(version, conninfo, r))
    ensures "primary_conninfo" !in KeysOf(OtherSettings(r))
  {
    OthersDiffer(r);
    KeysDiffer();
    hide OtherSettings, OtherKeys, Escape;
    assert |"primary_conninfo"| == 16 && |"standby_mode"| == 12;
    var others := OtherSettings(r);
    assert forall i :: 0 <= i < |others| ==> others[i].key in KeysOf(others);
  }

  /**
    A server that reads what create_recovery_file wrote finds, as primary_conninfo, a connection
    string that parses to the written pairs: provided no value contains a newline and everything
    else in the file is one string of the scanner.
   */
  lemma StandbyFindsItsPrimary(file: string, items: seq<Item>, o: Options, version: int, r: Recovery)
    requires NulFree(file) && Sensible(items, o) && !NewlineIn(Written(items) + Added(items, o))
    requires var config := RecoveryConfig(version, Escape(ConnInfo(items, o)), r);
             forall c :: c in Merged(file, version, config) ==> c.key == "primary_conninfo" || Quotable(c)
    ensures var config := RecoveryConfig(version, Escape(ConnInfo(items, o)), r);
            var read := Settings(RecoveryText(file, version, config));
            && DistinctKeys(read)
            && Item("primary_conninfo", ConnInfo(items, o)) in read
    ensures ReadConn(ConnInfo(items, o)) == Conn(Written(items) + Added(items, o))
  {
    hide Settings, PutAll, ConnInfo, Escape, Quotable, Stored, RecoveryText, DistinctKeys, OtherSettings;
    hide Written, Added, NewlineIn, ReadConn, IsName, Sensible;
    var conn := ConnInfo(items, o);
    var item := Item("primary_conninfo", Escape(conn));
    var config := RecoveryConfig(version, Escape(conn), r);
    var merged := Merged(file, version, config);
    PrimaryConninfoReadsBack(items, o);
    PrimaryIsName();
    assert Quotable(item) && Stored(item) == Item("primary_conninfo", conn);
    ConfigKeysDiffer(version, Escape(conn), r);
    var first := Setting(version < 120000, "standby_mode", "on");
    PutAllKeepsLast(Settings(file), first, item, OtherSettings(r));
    assert item in merged;
    MergedIsDistinct(file, version, config);
    forall c | c in merged ensures Quotable(c) { OnlyOnePrimary(merged, item, c); }
    WrittenIsRead(file, version, config);
    StoredKeys(merged);
    var i :| 0 <= i < |merged| && merged[i] == item;
    assert AllStored(merged)[i] == Stored(item);
    StoredDistinct(merged);
  }

  // ---- The other settings ----

  // What is in the file already.
  function Before(file: string, version: int): seq<Item> { if version >= 120000 then Settings(file) else [] }

  // Under the conditions of StandbyFindsItsPrimary everything that is written can be read.
  lemma AllQuotable(file: string, items: seq<Item>, o: Options, version: int, r: Recovery)
    requires NulFree(file) && Sensible(items, o) && !NewlineIn(Written(items) + Added(items, o))
    requires var config := RecoveryConfig(version, Escape(ConnInfo(items, o)), r);
             forall c :: c in Merged(file, version, config) ==> c.key == "primary_conninfo" || Quotable(c)
    ensures var config := RecoveryConfig(version, Escape(ConnInfo(items, o)), r);
            DistinctKeys(config) && forall c :: c in Merged(file, version, config) ==> Quotable(c)
  {
    hide Settings, PutAll, ConnInfo, Escape, Quotable, Stored, DistinctKeys, OtherSettings;
    hide Written, Added, NewlineIn, ReadConn, IsName, Sensible;
    var conn := ConnInfo(items, o);
    var item := Item("primary_conninfo", Escape(conn));
    var config := RecoveryConfig(version, Escape(conn), r);
    PrimaryConninfoReadsBack(items, o);
    PrimaryIsName();
    ConfigKeysDiffer(version, Escape(conn), r);
    var first := Setting(version < 120000, "standby_mode", "on");
    PutAllKeepsLast(Settings(file), first, item, OtherSettings(r));
    MergedIsDistinct(file, version, config);
    forall c | c in Merged(file, version, config) ensures Quotable(c) {
      OnlyOnePrimary(Merged(file, version, config), item, c);
    }
  }

  // Every setting of the configuration is read back, and replaces what was there.
  lemma ConfigIsRead(file: string, version: int, config: seq<Item>, x: Item)
    requires NulFree(file) && DistinctKeys(config) && x in config
    requires forall c :: c in Merged(file, version, config) ==> Quotable(c)
    ensures Quotable(x) && Stored(x) in Settings(RecoveryText(file, version, config))
  {
    hide Settings, PutAll, Quotable, Stored, RecoveryText;
    var merged := Merged(file, version, config);
    var i :| 0 <= i < |config| && config[i] == x;
    var a, b := config[..i], config[i + 1..];
    assert config == a + [x] + b;
    forall k | k in KeysOf(b) ensures k != x.key {
      var j :| 0 <= j < |b| && b[j].key == k;
      assert config[i + 1 + j].key == k;
    }
    PutAllKeepsLast(Settings(file), a, x, b);
    assert x in merged;
    WrittenIsRead(file, version, config);
    StoredKeys(merged);
    var j :| 0 <= j < |merged| && merged[j] == x;
    assert AllStored(merged)[j] == Stored(x);
  }

  // A key is found exactly if it was there or is configured.
  lemma KeysRead(file: string, version: int, config: seq<Item>, key: string)
    requires NulFree(file) && DistinctKeys(config)
    requires forall c :: c in Merged(file, version, config) ==> Quotable(c)
    ensures key in KeysOf(Settings(RecoveryText(file, version, config))) <==>
            key in KeysOf(Before(file, version)) || key in KeysOf(config)
  {
    hide Settings, PutAll, Quotable, Stored, RecoveryText, AllStored;
    var merged := Merged(file, version, config);
    WrittenIsRead(file, version, config);
    StoredHaveKeys(merged);
    hide KeysOf;
    if version >= 120000 { PutAllKeys(Settings(file), config); }
    NoKeys();
  }

  lemma NoKeys()
    ensures KeysOf([]) == {}
  {
  }

  lemma {:induction false} StoredHaveKeys(cells: seq<Item>)
    requires forall c :: c in cells ==> Quotable(c)
    ensures KeysOf(AllStored(cells)) == KeysOf(cells)
  {
    hide Quotable, Stored;
    if cells != [] {
      StoredHaveKeys(cells[1..]);
      StoredKey(cells[0]);
      assert cells == [cells[0]] + cells[1..];
      KeysOfCons(cells);
      KeysOfCons(AllStored(cells));
      assert AllStored(cells)[1..] == AllStored(cells[1..]);
    }
  }

  // How a value is found: as it was before escaping, or as it is if there is nothing to escape.
  lemma EscapedIsStored(key: string, value: string)
    requires Quotable(Item(key, Escape(value)))
    ensures Stored(Item(key, Escape(value))) == Item(key, value)
  {
    EscapeKeepsNuls(value);
    UnescapeUndoesEscape(value);
    UntilNulOfNulFree(value);
    assert Raw(Escape(value))[1..] == Escape(value) + "'";
    hide QuotedString, NulFree, Escape, Unescape, UntilNul;
  }

  lemma StoredAsIsIffClean(c: Item)
    requires Quotable(c)
    ensures Stored(c) == c <==> Clean(c.value)
  {
    hide Quotable, Stored, Clean, IsName, NulFree, LineOf, LineText;
    QuotableMeans(c);
    StoredLine(c);
    ValueInLine(c);
    PrintedLine(c);
  }

  lemma ValueInLine(c: Item)
    ensures '\n' in c.value ==> '\n' in LineText(c)
  {
  }

  lemma QuotableMeans(c: Item)
    requires Quotable(c)
    ensures IsName(c.key) && NulFree(c.value)
  {
    hide IsName, NulFree, QuotedString;
  }

  lemma KeysOfConcat(a: seq<Item>, b: seq<Item>)
    ensures KeysOf(a + b) == KeysOf(a) + KeysOf(b)
  {
    assert forall c :: c in a + b <==> c in a || c in b;
  }

  lemma KeysOfSetting(on: bool, key: string, value: string)
    ensures KeysOf(Setting(on, key, value)) == if on then {key} else {}
    ensures KeysOf([Item(key, value)]) == {key}
    ensures on ==> Item(key, value) in Setting(on, key, value)
  {
    assert Item(key, value) in [Item(key, value)];
  }

  lemma OtherKeysOf(r: Recovery)
    ensures KeysOf(OtherSettings(r)) ==
            {TimelineKey()} + (if r.minApplyDelay.Str? then {DelayKey()} else {})
            + (if r.useSlots then {SlotKey()} else {})
            + (if r.restoreCommand != "" then {RestoreKey()} else {})
            + (if r.archiveCleanup != "" then {CleanupKey()} else {})
  {
    var s1 := [Item(TimelineKey(), "latest")];
    var s2 := Setting(r.minApplyDelay.Str?, DelayKey(), Delay(r));
    var s3 := Setting(r.useSlots, SlotKey(), r.slotName);
    var s4 := Setting(r.restoreCommand != "", RestoreKey(), Escape(r.restoreCommand));
    var s5 := Setting(r.archiveCleanup != "", CleanupKey(), Escape(r.archiveCleanup));
    assert OtherSettings(r) == s1 + s2 + s3 + s4 + s5;
    KeysOfSetting(true, TimelineKey(), "latest");
    KeysOfSetting(r.minApplyDelay.Str?, DelayKey(), Delay(r));
    KeysOfSetting(r.useSlots, SlotKey(), r.slotName);
    KeysOfSetting(r.restoreCommand != "", RestoreKey(), Escape(r.restoreCommand));
    KeysOfSetting(r.archiveCleanup != "", CleanupKey(), Escape(r.archiveCleanup));
    hide *;
    KeysOfConcat(s1, s2);
    KeysOfConcat(s1 + s2, s3);
    KeysOfConcat(s1 + s2 + s3, s4);
    KeysOfConcat(s1 + s2 + s3 + s4, s5);
  }

  // What is configured under a key: the printed value, if the option is given.
  predicate Configures(config: seq<Item>, on: bool, key: string, printed: string) {
    (on ==> Item(key, printed) in config) && (key in KeysOf(config) <==> on)
  }

  lemma OptionsAreConfigured(version: int, conninfo: string, r: Recovery)
    ensures var config := RecoveryConfig(version, conninfo, r);
            && Configures(config, version < 120000, "standby_mode", "on")
            && Configures(config, true, TimelineKey(), "latest")
            && Configures(config, r.minApplyDelay.Str?, DelayKey(), Delay(r))
            && Configures(config, r.useSlots, SlotKey(), r.slotName)
            && Configures(config, r.restoreCommand != "", RestoreKey(), Escape(r.restoreCommand))
            && Configures(config, r.archiveCleanup != "", CleanupKey(), Escape(r.archiveCleanup))
  {
    hide Escape, Delay, TimelineKey, DelayKey, SlotKey, RestoreKey, CleanupKey, KeysOf;
    var first := Setting(version < 120000, "standby_mode", "on");
    KeysDiffer();
    KeysOfSetting(version < 120000, "standby_mode", "on");
    KeysOfSetting(true, "primary_conninfo", conninfo);
    OtherKeysOf(r);
    KeysOfConcat(first, [Item("primary_conninfo", conninfo)]);
    KeysOfConcat(first + [Item("primary_conninfo", conninfo)], OtherSettings(r));
    assert |"primary_conninfo"| == 16 && |"standby_mode"| == 12;
  }

  // What is found under a key: the value, if it is configured, and otherwise what was there.
  predicate Finds(read: seq<Item>, before: seq<Item>, on: bool, key: string, value: string) {
    if on then Item(key, value) in read else key in KeysOf(read) <==> key in KeysOf(before)
  }

  // An escaped value is found as it was before escaping.
  lemma EscapedIsFound(file: string, version: int, config: seq<Item>, on: bool, key: string, value: string)
    requires NulFree(file) && DistinctKeys(config) && Configures(config, on, key, Escape(value))
    requires forall c :: c in Merged(file, version, config) ==> Quotable(c)
    ensures Finds(Settings(RecoveryText(file, version, config)), Before(file, version), on, key, value)
  {
    hide Settings, RecoveryText, Before, Quotable, Stored, Escape, Merged, KeysOf, DistinctKeys;
    if on {
      ConfigIsRead(file, version, config, Item(key, Escape(value)));
      EscapedIsStored(key, value);
    } else {
      KeysRead(file, version, config, key);
    }
  }

  // A value that is not escaped is found as it is exactly if there is nothing to escape.
  lemma PlainIsFound(file: string, version: int, config: seq<Item>, on: bool, key: string, value: string)
    requires NulFree(file) && DistinctKeys(config) && Configures(config, on, key, value)
    requires forall c :: c in Merged(file, version, config) ==> Quotable(c)
    ensures Finds(Settings(RecoveryText(file, version, config)), Before(file, version), on, key, value) <==>
            !on || Clean(value)
  {
    hide Settings, RecoveryText, Before, Quotable, Stored, Clean, Merged, KeysOf, DistinctKeys;
    if on {
      var x := Item(key, value);
      ConfigIsRead(file, version, config, x);
      StoredAsIsIffClean(x);
      StoredKey(x);
      ReadIsDistinct(file, version, config);
      OneOfAKey(Settings(RecoveryText(file, version, config)), x, Stored(x));
    } else {
      KeysRead(file, version, config, key);
    }
  }

  lemma ReadIsDistinct(file: string, version: int, config: seq<Item>)
    requires NulFree(file) && DistinctKeys(config)
    requires forall c :: c in Merged(file, version, config) ==> Quotable(c)
    ensures DistinctKeys(Settings(RecoveryText(file, version, config)))
  {
    hide Settings, RecoveryText, Merged, Quotable, DistinctKeys;
    WrittenIsRead(file, version, config);
    MergedIsDistinct(file, version, config);
    StoredDistinct(Merged(file, version, config));
  }

  lemma OneOfAKey(cells: seq<Item>, a: Item, b: Item)
    requires DistinctKeys(cells) && b in cells && a.key == b.key
    ensures a in cells <==> a == b
  {
  }

  /**
    The server also finds the other settings, each exactly if it is configured or was there before:
    the commands as they are configured, and the name of the slot and the delay, which are not
    escaped, exactly if there is nothing to escape in them.
   */
  lemma StandbyFindsItsSettings(file: string, items: seq<Item>, o: Options, version: int, r: Recovery)
    requires NulFree(file) && Sensible(items, o) && !NewlineIn(Written(items) + Added(items, o))
    requires var config := RecoveryConfig(version, Escape(ConnInfo(items, o)), r);
             forall c :: c in Merged(file, version, config) ==> c.key == "primary_conninfo" || Quotable(c)
    ensures var config := RecoveryConfig(version, Escape(ConnInfo(items, o)), r);
            var read, before := Settings(RecoveryText(file, version, config)), Before(file, version);
            && Finds(read, before, r.restoreCommand != "", "restore_command", r.restoreCommand)
            && Finds(read, before, r.archiveCleanup != "", "archive_cleanup_command", r.archiveCleanup)
            && Finds(read, before, true, "recovery_target_timeline", "latest")
            && Finds(read, before, version < 120000, "standby_mode", "on")
            && (Finds(read, before, r.useSlots, "primary_slot_name", r.slotName) <==> !r.useSlots || Clean(r.slotName))
            && (Finds(read, before, r.minApplyDelay.Str?, "recovery_min_apply_delay", Delay(r)) <==>
                !r.minApplyDelay.Str? || Clean(Delay(r)))
  {
    KeyNames();
    CleanWords();
    hide *;
    AllQuotable(file, items, o, version, r);
    var conninfo := Escape(ConnInfo(items, o));
    OptionsAreConfigured(version, conninfo, r);
    var config := RecoveryConfig(version, conninfo, r);
    EscapedIsFound(file, version, config, r.restoreCommand != "", RestoreKey(), r.restoreCommand);
    EscapedIsFound(file, version, config, r.archiveCleanup != "", CleanupKey(), r.archiveCleanup);
    PlainIsFound(file, version, config, true, TimelineKey(), "latest");
    PlainIsFound(file, version, config, version < 120000, "standby_mode", "on");
    PlainIsFound(file, version, config, r.useSlots, SlotKey(), r.slotName);
    PlainIsFound(file, version, config, r.minApplyDelay.Str?, DelayKey(), Delay(r));
  }

  lemma KeyNames()
    ensures TimelineKey() == "recovery_target_timeline" && DelayKey() == "recovery_min_apply_delay"
    ensures SlotKey() == "primary_slot_name"
    ensures RestoreKey() == "restore_command" && CleanupKey() == "archive_cleanup_command"
  {
  }

  lemma CleanWords()
    ensures Clean("latest") && Clean("on")
  {
  }

  predicate Letters(k: string) { forall i :: 0 <= i < |k| ==> IsUnitLetter(k[i]) || k[i] == '_' }

  lemma PrimaryIsName()
    ensures IsName("primary_conninfo")
  {
    var a, b, c, d := "prim", "ary_", "conn", "info";
    assert Letters(a) && Letters(b) && Letters(c) && Letters(d);
    assert "primary_conninfo" == (a + b) + (c + d);
    LettersAreName((a + b) + (c + d));
  }

  lemma LettersAreName(k: string)
    requires k != [] && Letters(k)
    ensures IsName(k)
  {
    LettersAreTail(k[1..]);
    assert IsLetter(k[0]) && !IsBlank(k[0]) && k[0] != '#' && k[0] != '\n';
    assert Id(k) && !Blanks(k);
    assert RuleOf(k) == 4;
    hide RuleOf;
    assert NulFree(k);
  }

  lemma {:induction false} LettersAreTail(k: string)
    requires Letters(k)
    ensures IdTail(k)
  {
    if k != [] { LettersAreTail(k[1..]); }
  }

  lemma MergedIsDistinct(file: string, version: int, config: seq<Item>)
    requires NulFree(file) && DistinctKeys(config)
    ensures DistinctKeys(Merged(file, version, config))
  {
    hide Settings, PutAll;
    SettingsArePrintable(file);
    PutAllKeepsDistinct(Settings(file), config);
  }

  lemma OnlyOnePrimary(cells: seq<Item>, item: Item, c: Item)
    requires DistinctKeys(cells) && item in cells && c in cells && Quotable(item)
    requires c.key == item.key || Quotable(c)
    ensures Quotable(c)
  {
    hide Quotable;
  }

  lemma StoredDistinct(cells: seq<Item>)
    requires DistinctKeys(cells) && forall c :: c in cells ==> Quotable(c)
    ensures DistinctKeys(AllStored(cells))
  {
    hide Quotable, UntilNul, Unescape;
    StoredKeys(cells);
  }
}
