/**
  The key/value list of strutil.c. Setting with replacement removes every cell with the key and
  appends the new cell, so a replaced key moves to the end.
 */
module KeyValues {

  datatype Item = Item(key: string, value: string)

  function Without(cells: seq<Item>, keys: set<string>): seq<Item> {
    if cells == [] then []
    else if cells[0].key in keys then Without(cells[1..], keys)
    else [cells[0]] + Without(cells[1..], keys)
  }

  function Put(cells: seq<Item>, item: Item): seq<Item> { Without(cells, {item.key}) + [item] }

  function PutAll(cells: seq<Item>, items: seq<Item>): seq<Item>
    decreases |items|
  {
    if items == [] then cells else PutAll(Put(cells, items[0]), items[1..])
  }

  function KeysOf(cells: seq<Item>): set<string> { set c | c in cells :: c.key }

  class KeyValueList {
    var cells: seq<Item>

    constructor ()
      ensures cells == []
    {
      cells := [];
    }

    // _key_value_list_set
    method Set(replace: bool, key: string, value: string)
      modifies this
      ensures cells == (if replace then Without(old(cells), {key}) else old(cells)) + [Item(key, value)]
    {
      if replace {
        var i := 0;
        while i < |cells|
          invariant 0 <= i <= |cells|
          invariant Without(old(cells), {key}) == cells[..i] + Without(cells[i..], {key})
          decreases |cells| - i
        {
          if cells[i].key == key {
            assert cells[i..][1..] == (cells[..i] + cells[i + 1..])[i..];
            cells := cells[..i] + cells[i + 1..];
          } else {
            assert cells[i..][1..] == cells[i + 1..];
            i := i + 1;
          }
        }
        assert cells[..i] == cells;
      }
      cells := cells + [Item(key, value)];
    }
  }

  predicate DistinctKeys(cells: seq<Item>) {
    forall i, j :: 0 <= i < j < |cells| ==> cells[i].key != cells[j].key
  }

  lemma {:induction false} WithoutConcat(a: seq<Item>, b: seq<Item>, keys: set<string>)
    ensures Without(a + b, keys) == Without(a, keys) + Without(b, keys)
  {
    if a == [] {
      assert a + b == b;
    } else {
      assert (a + b)[1..] == a[1..] + b;
      WithoutConcat(a[1..], b, keys);
    }
  }

  lemma {:induction false} WithoutTwice(cells: seq<Item>, k1: set<string>, k2: set<string>)
    ensures Without(Without(cells, k1), k2) == Without(cells, k1 + k2)
  {
    if cells != [] {
      WithoutTwice(cells[1..], k1, k2);
      assert ([cells[0]] + Without(cells[1..], k1))[1..] == Without(cells[1..], k1);
    }
  }

  lemma {:induction false} WithoutAbsent(cells: seq<Item>, keys: set<string>)
    requires KeysOf(cells) !! keys
    ensures Without(cells, keys) == cells
  {
    if cells != [] {
      assert cells[0].key in KeysOf(cells);
      assert KeysOf(cells[1..]) <= KeysOf(cells);
      WithoutAbsent(cells[1..], keys);
    }
  }

  lemma {:induction false} WithoutAllKeys(cells: seq<Item>, keys: set<string>)
    requires KeysOf(cells) <= keys
    ensures Without(cells, keys) == []
  {
    if cells != [] {
      assert cells[0].key in KeysOf(cells);
      assert KeysOf(cells[1..]) <= KeysOf(cells);
      WithoutAllKeys(cells[1..], keys);
    }
  }

  lemma {:induction false} WithoutKeeps(cells: seq<Item>, keys: set<string>)
    ensures forall c :: c in Without(cells, keys) <==> c in cells && c.key !in keys
    ensures DistinctKeys(cells) ==> DistinctKeys(Without(cells, keys))
  {
    if cells != [] {
      WithoutKeeps(cells[1..], keys);
      assert cells == [cells[0]] + cells[1..];
      if DistinctKeys(cells) {
        assert DistinctKeys(cells[1..]);
        assert forall j :: 1 <= j < |cells| ==> cells[0].key != cells[j].key;
      }
    }
  }

  lemma PutKeepsDistinct(cells: seq<Item>, item: Item)
    requires DistinctKeys(cells)
    ensures DistinctKeys(Put(cells, item))
  {
    WithoutKeeps(cells, {item.key});
  }

  lemma {:induction false} PutAllKeepsDistinct(cells: seq<Item>, items: seq<Item>)
    requires DistinctKeys(cells)
    ensures DistinctKeys(PutAll(cells, items))
    decreases |items|
  {
    if items != [] {
      PutKeepsDistinct(cells, items[0]);
      PutAllKeepsDistinct(Put(cells, items[0]), items[1..]);
    }
  }

  // Items with fresh keys are simply appended.
  lemma {:induction false} PutAllFresh(cells: seq<Item>, items: seq<Item>)
    requires DistinctKeys(cells + items)
    ensures PutAll(cells, items) == cells + items
    decreases |items|
  {
    if items == [] {
      assert cells + items == cells;
    } else {
      var item := items[0];
      forall c | c in cells ensures c.key != item.key {
        var i :| 0 <= i < |cells| && cells[i] == c;
        assert (cells + items)[i] == c && (cells + items)[|cells|] == item;
      }
      WithoutAbsent(cells, {item.key});
      assert (cells + [item]) + items[1..] == cells + items;
      PutAllFresh(cells + [item], items[1..]);
    }
  }

  // Cells whose keys are set again disappear, the others stay in front.
  lemma {:induction false} PutAllSplits(a: seq<Item>, b: seq<Item>, items: seq<Item>)
    ensures PutAll(a + b, items) == Without(a, KeysOf(items)) + PutAll(b, items)
    decreases |items|
  {
    if items == [] {
      assert KeysOf(items) == {};
      WithoutAbsent(a, {});
    } else {
      var k := {items[0].key};
      WithoutConcat(a, b, k);
      assert Put(a + b, items[0]) == Without(a, k) + Put(b, items[0]);
      PutAllSplits(Without(a, k), Put(b, items[0]), items[1..]);
      WithoutTwice(a, k, KeysOf(items[1..]));
      assert items == [items[0]] + items[1..];
      assert KeysOf(items) == k + KeysOf(items[1..]);
    }
  }

  lemma {:induction false} PutAllKeys(cells: seq<Item>, items: seq<Item>)
    ensures KeysOf(PutAll(cells, items)) == KeysOf(cells) + KeysOf(items)
    decreases |items|
  {
    if items == [] {
      assert KeysOf(items) == {};
    } else {
      PutAllKeys(Put(cells, items[0]), items[1..]);
      KeysOfPut(cells, items[0]);
      assert items == [items[0]] + items[1..];
      assert KeysOf(items) == {items[0].key} + KeysOf(items[1..]);
    }
  }

  lemma KeysOfPut(cells: seq<Item>, item: Item)
    ensures KeysOf(Put(cells, item)) == KeysOf(cells) + {item.key}
  {
    WithoutKeeps(cells, {item.key});
    forall k | k in KeysOf(cells) + {item.key} ensures k in KeysOf(Put(cells, item)) {
      assert item in Put(cells, item);
      if k != item.key {
        var c :| c in cells && c.key == k;
        assert c in Put(cells, item);
      }
    }
  }

  /** Setting the same items again changes nothing. */
  lemma PutAllIdempotent(cells: seq<Item>, items: seq<Item>)
    ensures PutAll(PutAll(cells, items), items) == PutAll(cells, items)
  {
    var ks, new_ := KeysOf(items), PutAll([], items);
    assert cells + [] == cells;
    PutAllSplits(cells, [], items);
    var once := PutAll(cells, items);
    assert once + [] == once;
    PutAllSplits(once, [], items);
    WithoutConcat(Without(cells, ks), new_, ks);
    WithoutTwice(cells, ks, ks);
    assert ks + ks == ks;
    PutAllKeys([], items);
    WithoutAllKeys(new_, ks);
  }
}
