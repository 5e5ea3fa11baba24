/**
The configuration store as values: sections in order of creation, each with its items in order of
creation. Writing is characterised over whole runs: keys stand in the order of their first write,
values are those of their last write, and sections do not disturb each other.
*/
module ConfigModel {
  import opened Text

  datatype Item = Item(key: string, value: string)

  datatype Section = Section(name: string, items: seq<Item>)

  type Store = seq<Section>

  /** Position of the first item with this key, or the number of items. */
  function FindItem(items: seq<Item>, key: string): (i: nat)
    ensures i <= |items|
    ensures i < |items| ==> items[i].key == key
    ensures forall j :: 0 <= j < i ==> items[j].key != key
  {
    if items == [] || items[0].key == key then 0 else 1 + FindItem(items[1..], key)
  }

  function FindSection(store: Store, name: string): (i: nat)
    ensures i <= |store|
    ensures i < |store| ==> store[i].name == name
    ensures forall j :: 0 <= j < i ==> store[j].name != name
  {
    if store == [] || store[0].name == name then 0 else 1 + FindSection(store[1..], name)
  }

  /** An existing key gets the new value where it stands; a new key goes last. */
  function WriteItem(items: seq<Item>, key: string, value: string): seq<Item> {
    var i := FindItem(items, key);
    if i < |items| then items[i := Item(key, value)] else items + [Item(key, value)]
  }

  /** An existing section is found; a new one goes last, empty. */
  function LoadSection(store: Store, name: string): (r: Store)
    ensures FindSection(r, name) < |r|
  {
    if FindSection(store, name) < |store| then store
    else
      FindAppended(store, Section(name, []));
      store + [Section(name, [])]
  }

  lemma {:induction false} FindAppended(store: Store, s: Section)
    requires FindSection(store, s.name) == |store|
    ensures FindSection(store + [s], s.name) == |store|
  {
    if store != [] {
      assert (store + [s])[1..] == store[1..] + [s];
      FindAppended(store[1..], s);
    }
  }

  function WriteAt(store: Store, i: nat, key: string, value: string): Store
    requires i < |store|
  {
    store[i := Section(store[i].name, WriteItem(store[i].items, key, value))]
  }

  predicate UniqueKeys(items: seq<Item>) {
    forall i, j :: 0 <= i < j < |items| ==> items[i].key != items[j].key
  }

  predicate UniqueNames(store: Store) {
    forall i, j :: 0 <= i < j < |store| ==> store[i].name != store[j].name
  }

  /** What every run keeps: no name and no key stands twice. */
  predicate WellKept(store: Store) {
    UniqueNames(store) && forall i :: 0 <= i < |store| ==> UniqueKeys(store[i].items)
  }

  // ---------- runs of writes into one section ----------

  function WriteAll(items: seq<Item>, writes: seq<Item>): seq<Item>
    decreases |writes|
  {
    if writes == [] then items
    else WriteAll(WriteItem(items, writes[0].key, writes[0].value), writes[1..])
  }

  function Keys(items: seq<Item>): (k: seq<string>)
    ensures |k| == |items| && forall i :: 0 <= i < |k| ==> k[i] == items[i].key
  {
    if items == [] then [] else [items[0].key] + Keys(items[1..])
  }

  /** The value a search for `key` finds. */
  function Lookup(items: seq<Item>, key: string): Option<string> {
    var i := FindItem(items, key);
    if i < |items| then Some(items[i].value) else None
  }

  /** One write: seen by the next search, invisible to a search for any other key, and no key moves. */
  lemma {:induction false} WriteItemEffect(items: seq<Item>, key: string, value: string, other: string)
    requires UniqueKeys(items)
    ensures var r := WriteItem(items, key, value);
      && UniqueKeys(r)
      && Lookup(r, key) == Some(value)
      && (other != key ==> Lookup(r, other) == Lookup(items, other))
      && Keys(r) == if FindItem(items, key) < |items| then Keys(items) else Keys(items) + [key]
  {
    var r := WriteItem(items, key, value);
    WriteItemKeys(items, key, value);
    FindItemIs(r, FindItem(items, key));
    if other != key {
      var j := FindItem(items, other);
      if j < |items| { FindItemIs(r, j); } else { FindItemNone(r, other); }
    }
  }

  lemma {:induction false} WriteItemKeys(items: seq<Item>, key: string, value: string)
    requires UniqueKeys(items)
    ensures var r := WriteItem(items, key, value);
      && UniqueKeys(r)
      && Keys(r) == if FindItem(items, key) < |items| then Keys(items) else Keys(items) + [key]
  {
    var r, i, k := WriteItem(items, key, value), FindItem(items, key), Keys(items);
    if i < |items| {
      assert forall j :: 0 <= j < |r| ==> r[j].key == items[j].key;
      assert Keys(r) == k;
    } else {
      assert forall j :: 0 <= j < |items| ==> r[j] == items[j];
      assert Keys(r) == k + [key];
    }
  }

  lemma FindItemIs(items: seq<Item>, i: nat)
    requires UniqueKeys(items) && i < |items|
    ensures FindItem(items, items[i].key) == i
  {}

  lemma FindItemNone(items: seq<Item>, key: string)
    requires forall i :: 0 <= i < |items| ==> items[i].key != key
    ensures FindItem(items, key) == |items|
  {}

  /** The last value written to `key`, if any. */
  function LastWrite(writes: seq<Item>, key: string): Option<string>
    decreases |writes|
  {
    if writes == [] then None
    else
      var last := writes[|writes| - 1];
      if last.key == key then Some(last.value) else LastWrite(writes[..|writes| - 1], key)
  }

  /** The keys written, each where it first occurs. */
  function FirstWrites(writes: seq<Item>): seq<string>
    decreases |writes|
  {
    if writes == [] then []
    else
      var before := FirstWrites(writes[..|writes| - 1]);
      var last := writes[|writes| - 1];
      if last.key in before then before else before + [last.key]
  }

  lemma {:induction false} WriteAllSnoc(items: seq<Item>, writes: seq<Item>, w: Item)
    ensures WriteAll(items, writes + [w]) == WriteItem(WriteAll(items, writes), w.key, w.value)
    decreases |writes|
  {
    if writes == [] {
      assert ([] + [w])[1..] == [];
    } else {
      assert (writes + [w])[1..] == writes[1..] + [w];
      WriteAllSnoc(WriteItem(items, writes[0].key, writes[0].value), writes[1..], w);
    }
  }

  /** A run of writes into an empty section refines an insertion-ordered map. */
  lemma {:induction false} WritesAreOrderedMap(writes: seq<Item>)
    ensures var r := WriteAll([], writes);
      && UniqueKeys(r)
      && Keys(r) == FirstWrites(writes)
      && forall key :: Lookup(r, key) == LastWrite(writes, key)
    decreases |writes|
  {
    if writes != [] {
      var before, w := writes[..|writes| - 1], writes[|writes| - 1];
      assert writes == before + [w];
      WritesAreOrderedMap(before);
      WriteAllSnoc([], before, w);
      var p := WriteAll([], before);
      forall key ensures Lookup(WriteAll([], writes), key) == LastWrite(writes, key) {
        WriteItemEffect(p, w.key, w.value, key);
      }
      WriteItemEffect(p, w.key, w.value, w.key);
      assert w.key in Keys(p) <==> FindItem(p, w.key) < |p| by {
        if FindItem(p, w.key) < |p| { assert Keys(p)[FindItem(p, w.key)] == w.key; }
      }
    }
  }

  /** A run of writes adds at most one item a write; if it adds one a write, the section is the
      list of writes. */
  lemma {:induction false} WriteAllLength(items: seq<Item>, writes: seq<Item>)
    ensures |WriteAll(items, writes)| <= |items| + |writes|
    ensures |WriteAll(items, writes)| == |items| + |writes| ==> WriteAll(items, writes) == items + writes
    decreases |writes|
  {
    if writes != [] {
      WriteAllLength(WriteItem(items, writes[0].key, writes[0].value), writes[1..]);
      assert (items + [writes[0]]) + writes[1..] == items + writes;
    }
  }

  /** At most as many writes as there are items leave exactly these items only if they are their list. */
  lemma WrittenBack(items: seq<Item>, writes: seq<Item>)
    requires UniqueKeys(items) && |writes| <= |items|
    ensures WriteAll([], writes) == items <==> writes == items
  {
    WriteAllLength([], writes);
    assert [] + writes == writes && [] + items == items;
    WriteAllFresh([], items);
  }

  lemma {:induction false} WriteAllFresh(items: seq<Item>, writes: seq<Item>)
    requires UniqueKeys(items + writes)
    ensures WriteAll(items, writes) == items + writes
    decreases |writes|
  {
    if writes == [] {
      assert items + writes == items;
    } else {
      var w := writes[0];
      forall i | 0 <= i < |items| ensures items[i].key != w.key {
        assert (items + writes)[i] == items[i] && (items + writes)[|items|] == w;
      }
      FindItemNone(items, w.key);
      assert (items + [w]) + writes[1..] == items + writes;
      WriteAllFresh(items + [w], writes[1..]);
    }
  }

  // ---------- runs over the whole store ----------

  /** Load a section by name (creating it), and possibly write one item into it. */
  datatype Op = Op(name: string, write: Option<Item>)

  function Do(store: Store, op: Op): Store {
    var s := LoadSection(store, op.name);
    match op.write
    case None => s
    case Some(w) => WriteAt(s, FindSection(s, op.name), w.key, w.value)
  }

  function RunOps(store: Store, ops: seq<Op>): Store
    decreases |ops|
  {
    if ops == [] then store else RunOps(Do(store, ops[0]), ops[1..])
  }

  function ItemsOf(store: Store, name: string): seq<Item> {
    var i := FindSection(store, name);
    if i < |store| then store[i].items else []
  }

  function WritesTo(ops: seq<Op>, name: string): seq<Item> {
    if ops == [] then []
    else
      (if ops[0].name == name && ops[0].write.Some? then [ops[0].write.value] else []) +
      WritesTo(ops[1..], name)
  }

  lemma FindSectionIs(store: Store, i: nat)
    requires UniqueNames(store) && i < |store|
    ensures FindSection(store, store[i].name) == i
  {}

  lemma FindSectionNone(store: Store, name: string)
    requires forall i :: 0 <= i < |store| ==> store[i].name != name
    ensures FindSection(store, name) == |store|
  {}

  lemma LoadKeeps(store: Store, name: string, other: string)
    requires WellKept(store)
    ensures WellKept(LoadSection(store, name))
    ensures ItemsOf(LoadSection(store, name), other) == ItemsOf(store, other)
  {
    var r := LoadSection(store, name);
    if FindSection(store, name) == |store| {
      var j := FindSection(store, other);
      if j < |store| { assert r[j] == store[j]; FindSectionIs(r, j); }
      else if other == name { FindSectionIs(r, |store|); }
      else { FindSectionNone(r, other); }
    }
  }

  lemma WriteAtKeeps(store: Store, i: nat, w: Item, other: string)
    requires WellKept(store) && i < |store|
    ensures WellKept(WriteAt(store, i, w.key, w.value))
    ensures ItemsOf(WriteAt(store, i, w.key, w.value), other) ==
      if other == store[i].name then WriteItem(store[i].items, w.key, w.value) else ItemsOf(store, other)
  {
    var r := WriteAt(store, i, w.key, w.value);
    WriteItemEffect(store[i].items, w.key, w.value, w.key);
    assert UniqueNames(r);
    var j := FindSection(store, other);
    FindSectionIs(store, i);
    if j < |store| { assert r[j].name == other; FindSectionIs(r, j); } else { FindSectionNone(r, other); }
  }

  lemma DoKeeps(store: Store, op: Op, other: string)
    requires WellKept(store)
    ensures WellKept(Do(store, op))
    ensures ItemsOf(Do(store, op), other) ==
      if op.name == other && op.write.Some? then
        WriteItem(ItemsOf(store, other), op.write.value.key, op.write.value.value)
      else ItemsOf(store, other)
  {
    LoadKeeps(store, op.name, other);
    if op.write.Some? {
      var s := LoadSection(store, op.name);
      WriteAtKeeps(s, FindSection(s, op.name), op.write.value, other);
    }
  }

  /** Over any run the store stays well kept, and each section holds exactly what a run of the
      writes addressed to it alone would have left. */
  lemma {:induction false} RunKeepsSectionsApart(store: Store, ops: seq<Op>, name: string)
    requires WellKept(store)
    ensures WellKept(RunOps(store, ops))
    ensures ItemsOf(RunOps(store, ops), name) == WriteAll(ItemsOf(store, name), WritesTo(ops, name))
    decreases |ops|
  {
    if ops != [] {
      DoKeeps(store, ops[0], name);
      RunKeepsSectionsApart(Do(store, ops[0]), ops[1..], name);
      var w := WritesTo(ops, name);
      if ops[0].name == name && ops[0].write.Some? {
        assert w[0] == ops[0].write.value && w[1..] == WritesTo(ops[1..], name);
      } else {
        assert w == WritesTo(ops[1..], name);
      }
    }
  }

  /** From an empty store: a search in any section after any run finds the last value written to
      that key of that section, and nothing else. */
  lemma {:induction false} RunFindsLastWrite(ops: seq<Op>, name: string, key: string)
    ensures WellKept(RunOps([], ops))
    ensures Lookup(ItemsOf(RunOps([], ops), name), key) == LastWrite(WritesTo(ops, name), key)
    ensures Keys(ItemsOf(RunOps([], ops), name)) == FirstWrites(WritesTo(ops, name))
  {
    RunKeepsSectionsApart([], ops, name);
    WritesAreOrderedMap(WritesTo(ops, name));
  }
}
