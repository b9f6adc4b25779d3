/**
  The connection parameter list of dbutils.c: two parallel arrays whose used slots come first. It
  behaves as a map that remembers the order of insertion.
 */
module Params {
  import opened KeyValues

  datatype Slot = Null | Str(s: string)

  // The position of a keyword, the length of the list if it is absent.
  function IndexOf(items: seq<Item>, key: string): (i: nat)
    ensures i <= |items|
    ensures i < |items| ==> items[i].key == key
    ensures forall j :: 0 <= j < i ==> items[j].key != key
  {
    if items == [] || items[0].key == key then 0 else 1 + IndexOf(items[1..], key)
  }

  function SetParam(items: seq<Item>, key: string, value: string): seq<Item> {
    if items == [] then [Item(key, value)]
    else if items[0].key == key then [Item(key, value)] + items[1..]
    else [items[0]] + SetParam(items[1..], key, value)
  }

  lemma {:induction false} SetParamAt(items: seq<Item>, key: string, value: string)
    ensures var i := IndexOf(items, key);
            SetParam(items, key, value) ==
            if i < |items| then items[i := Item(key, value)] else items + [Item(key, value)]
  {
    var i, x := IndexOf(items, key), Item(key, value);
    if items != [] && items[0].key != key {
      SetParamAt(items[1..], key, value);
      if i < |items| {
        assert items[i := x] == [items[0]] + items[1..][i - 1 := x];
      } else {
        assert items + [x] == [items[0]] + (items[1..] + [x]);
      }
    }
  }

  function SetParamIne(items: seq<Item>, key: string, value: string): seq<Item> {
    if IndexOf(items, key) < |items| then items else items + [Item(key, value)]
  }

  function CopyParams(dest: seq<Item>, source: seq<Item>): seq<Item>
    decreases |source|
  {
    if source == [] then dest
    else
      var item := source[0];
      CopyParams(if item.value == "" then dest else SetParam(dest, item.key, item.value), source[1..])
  }

  class ParamList {
    const size: nat
    const keywords: array<Slot>
    const values: array<Slot>
    ghost var items: seq<Item>

    ghost predicate Valid()
      reads this, keywords, values
    {
      && keywords != values
      && keywords.Length == values.Length == size + 1
      && |items| <= size
      && (forall i :: 0 <= i < |items| ==> keywords[i] == Str(items[i].key) && values[i] == Str(items[i].value))
      && (forall i :: |items| <= i <= size ==> keywords[i] == Null)
      && DistinctKeys(items)
    }

    // initialize_conninfo_params without defaults; size is the number of connection options.
    constructor (size: nat)
      ensures Valid() && items == [] && this.size == size && fresh(keywords) && fresh(values)
    {
      this.size := size;
      keywords := new Slot[size + 1](_ => Null);
      values := new Slot[size + 1](_ => Null);
      items := [];
    }

    // The scan at the head of every operation.
    method Find(param: string) returns (c: nat)
      requires Valid()
      ensures c == IndexOf(items, param)
    {
      c := 0;
      assert items[0..] == items;
      while c < size && keywords[c] != Null
        invariant c <= |items| && IndexOf(items, param) == c + IndexOf(items[c..], param)
      {
        if keywords[c] == Str(param) { return; }
        assert items[c..][1..] == items[c + 1..];
        c := c + 1;
      }
    }

    // param_set; the result is whether the assertion that a slot is free holds.
    method Set(param: string, value: string) returns (fits: bool)
      requires Valid()
      modifies this`items, keywords, values
      ensures Valid()
      ensures fits <==> IndexOf(old(items), param) < size
      ensures items == if fits then SetParam(old(items), param, value) else old(items)
    {
      var c := Find(param);
      SetParamAt(items, param, value);
      fits := true;
      if c < size && keywords[c] != Null {
        values[c] := Str(value);
        items := SetParam(items, param, value);
        return;
      }
      fits := c < size;
      if fits {
        keywords[c], values[c] := Str(param), Str(value);
        items := SetParam(items, param, value);
      }
    }

    // param_set_ine
    method SetIne(param: string, value: string) returns (fits: bool)
      requires Valid()
      modifies this`items, keywords, values
      ensures Valid()
      ensures fits <==> IndexOf(old(items), param) < size
      ensures items == if fits then SetParamIne(old(items), param, value) else old(items)
    {
      var c := Find(param);
      fits := true;
      if c < size && keywords[c] != Null { return; }
      fits := c < size;
      if fits {
        keywords[c], values[c] := Str(param), Str(value);
        items := items + [Item(param, value)];
      }
    }

    // param_get: NULL for an unset or empty parameter.
    method Get(param: string) returns (r: Slot)
      requires Valid()
      ensures r == var i := IndexOf(items, param);
                   if i < |items| && items[i].value != "" then Str(items[i].value) else Null
    {
      var c := Find(param);
      r := Null;
      if c < size && keywords[c] != Null {
        r := values[c];
        if r == Str("") { r := Null; }
      }
    }

    // copy_conninfo_params into this list.
    method CopyFrom(source: ParamList, ghost options: set<string>) returns (fits: bool)
      requires Valid() && source.Valid()
      requires {keywords, values} !! {source.keywords, source.values} && source != this
      modifies this`items, keywords, values
      ensures Valid() && source.Valid() && source.items == old(source.items)
      ensures KeysOf(old(items)) + KeysOf(source.items) <= options && |options| <= size ==> fits
      ensures fits ==> items == CopyParams(old(items), source.items)
    {
      fits := true;
      var c := 0;
      assert source.items[0..] == source.items;
      while c < source.size && source.keywords[c] != Null
        invariant Valid() && source.Valid() && source.items == old(source.items) && c <= |source.items|
        invariant CopyParams(old(items), source.items) == CopyParams(items, source.items[c..])
        invariant fits && KeysOf(items) <= KeysOf(old(items)) + KeysOf(source.items)
      {
        assert source.items[c] in source.items;
        assert source.items[c..][1..] == source.items[c + 1..];
        if source.values[c] != Null && source.values[c] != Str("") {
          SetKeepsKeys(items, source.items[c].key, source.items[c].value);
          if KeysOf(old(items)) + KeysOf(source.items) <= options && |options| <= size {
            SlotIsFree(items, source.items[c].key, options);
          }
          fits := Set(source.keywords[c].s, source.values[c].s);
          if !fits { return; }
        }
        c := c + 1;
      }
    }
  }

  // ---- The list as a map ----

  function MapOf(items: seq<Item>): map<string, string> {
    if items == [] then map[] else MapOf(items[1..])[items[0].key := items[0].value]
  }

  function Keywords(items: seq<Item>): seq<string> {
    if items == [] then [] else [items[0].key] + Keywords(items[1..])
  }

  lemma {:induction false} MapKeys(items: seq<Item>)
    ensures MapOf(items).Keys == KeysOf(items)
  {
    if items != [] {
      MapKeys(items[1..]);
      assert items == [items[0]] + items[1..];
    }
  }

  /** param_set overrides: the same keywords in the same order, a new one at the end. */
  lemma {:induction false} SetIsMapUpdate(items: seq<Item>, key: string, value: string)
    ensures var r := SetParam(items, key, value);
            && MapOf(r) == MapOf(items)[key := value]
            && Keywords(r) == if key in KeysOf(items) then Keywords(items) else Keywords(items) + [key]
  {
    hide *;
    SetUpdatesMap(items, key, value);
    SetKeepsKeywords(items, key, value);
  }

  lemma {:induction false} SetUpdatesMap(items: seq<Item>, key: string, value: string)
    ensures MapOf(SetParam(items, key, value)) == MapOf(items)[key := value]
  {
    if items != [] && items[0].key != key {
      SetUpdatesMap(items[1..], key, value);
      assert SetParam(items, key, value)[1..] == SetParam(items[1..], key, value);
    }
  }

  lemma {:induction false} SetKeepsKeywords(items: seq<Item>, key: string, value: string)
    ensures Keywords(SetParam(items, key, value))
            == if key in KeysOf(items) then Keywords(items) else Keywords(items) + [key]
  {
    if items != [] {
      KeysOfCons(items);
      hide KeysOf;
      if items[0].key == key {
        assert SetParam(items, key, value)[1..] == items[1..];
      } else {
        SetKeepsKeywords(items[1..], key, value);
        assert SetParam(items, key, value)[1..] == SetParam(items[1..], key, value);
      }
    }
  }

  lemma KeysOfCons(items: seq<Item>)
    requires items != []
    ensures KeysOf(items) == {items[0].key} + KeysOf(items[1..])
  {
    assert items == [items[0]] + items[1..];
  }

  lemma SetKeepsKeys(items: seq<Item>, key: string, value: string)
    requires DistinctKeys(items)
    ensures DistinctKeys(SetParam(items, key, value))
    ensures KeysOf(SetParam(items, key, value)) == KeysOf(items) + {key}
  {
    hide SetParam, MapOf, KeysOf;
    SetKeepsDistinct(items, key, value);
    SetIsMapUpdate(items, key, value);
    MapKeys(items);
    MapKeys(SetParam(items, key, value));
  }

  lemma SetKeepsDistinct(items: seq<Item>, key: string, value: string)
    requires DistinctKeys(items)
    ensures DistinctKeys(SetParam(items, key, value))
  {
    hide SetParam;
    SetParamAt(items, key, value);
  }

  /** param_set_ine keeps a parameter that is set. */
  lemma {:induction false} SetIneKeeps(items: seq<Item>, key: string, value: string)
    ensures MapOf(SetParamIne(items, key, value)) == map[key := value] + MapOf(items)
  {
    hide SetParam, MapOf;
    SetParamAt(items, key, value);
    SetIsMapUpdate(items, key, value);
    MapKeys(items);
    var i := IndexOf(items, key);
    if i < |items| { assert items[i] in items; }
  }

  function NonEmpty(items: seq<Item>): seq<Item> {
    if items == [] then []
    else if items[0].value == "" then NonEmpty(items[1..])
    else [items[0]] + NonEmpty(items[1..])
  }

  lemma {:induction false} NonEmptyKeys(items: seq<Item>)
    ensures forall c :: c in NonEmpty(items) ==> c in items
  {
    if items != [] {
      NonEmptyKeys(items[1..]);
      assert items == [items[0]] + items[1..];
    }
  }

  lemma UpdatesCommute(a: map<string, string>, b: map<string, string>, key: string, value: string)
    requires key !in b
    ensures a[key := value] + b == a + b[key := value]
  {
  }

  lemma AbsentLater(item: Item, tail: seq<Item>)
    requires DistinctKeys([item] + tail)
    ensures item.key !in MapOf(NonEmpty(tail))
  {
    NonEmptyKeys(tail);
    MapKeys(NonEmpty(tail));
    var all := [item] + tail;
    assert forall j :: 0 <= j < |tail| ==> tail[j] == all[j + 1] && all[0].key != all[j + 1].key;
  }

  lemma DistinctTail(items: seq<Item>)
    requires DistinctKeys(items) && items != []
    ensures DistinctKeys(items[1..])
  {
  }

  /** copy_conninfo_params overrides by the non-empty entries of the source. */
  lemma {:induction false} CopyIsMapOverride(dest: seq<Item>, source: seq<Item>)
    requires DistinctKeys(source)
    decreases |source|
    ensures MapOf(CopyParams(dest, source)) == MapOf(dest) + MapOf(NonEmpty(source))
  {
    hide SetParam, DistinctKeys;
    if source != [] {
      var item, tail := source[0], source[1..];
      assert source == [item] + tail;
      DistinctTail(source);
      if item.value == "" {
        CopyIsMapOverride(dest, tail);
      } else {
        SetIsMapUpdate(dest, item.key, item.value);
        CopyIsMapOverride(SetParam(dest, item.key, item.value), tail);
        assert NonEmpty(source)[1..] == NonEmpty(tail);
        AbsentLater(item, tail);
        UpdatesCommute(MapOf(dest), MapOf(NonEmpty(tail)), item.key, item.value);
      }
    }
  }

  lemma {:induction false} KeysCount(items: seq<Item>)
    requires DistinctKeys(items)
    ensures |KeysOf(items)| == |items|
  {
    if items != [] {
      assert items == [items[0]] + items[1..];
      assert DistinctKeys(items[1..]);
      KeysCount(items[1..]);
      assert forall c :: c in items[1..] ==> c.key != items[0].key;
      assert KeysOf(items) == {items[0].key} + KeysOf(items[1..]);
    } else {
      assert KeysOf(items) == {};
    }
  }

  lemma SubsetCount(a: set<string>, b: set<string>)
    requires a <= b
    ensures |a| <= |b|
  {
    assert b == a + (b - a);
  }

  /**
    The assertion in param_set holds whenever the keywords come from the options that were counted
    when the arrays were allocated.
   */
  lemma SlotIsFree(items: seq<Item>, key: string, options: set<string>)
    requires DistinctKeys(items) && KeysOf(items) + {key} <= options
    ensures IndexOf(items, key) < |options|
  {
    KeysCount(items);
    var i := IndexOf(items, key);
    SubsetCount(KeysOf(items), options);
    if i == |items| {
      assert key !in KeysOf(items);
      SubsetCount(KeysOf(items) + {key}, options);
    }
  }
}
