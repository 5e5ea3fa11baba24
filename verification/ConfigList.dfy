/**
The configuration store as the daemon keeps it: a chain of sections, each with a chain of items. In
both chains the first element's `head` field caches the last element, so that appending is one step.
Every operation is proved to do to the chains what `ConfigModel` does to values.
*/
module ConfigList {
  import opened Sequences
  import opened Text
  import opened ConfigModel
  import ConfigText
  import ConfigTyped

  class ConfigItem {
    var next: ConfigItem?
    var prev: ConfigItem?
    var head: ConfigItem?
    var key: string
    var value: string
    ghost var owner: ConfigSection?

    constructor (key: string, value: string)
      ensures this.key == key && this.value == value && next == null && head == this
    {
      this.key, this.value := key, value;
      next, head := null, this;
    }
  }

  lemma AfterRemoval<T>(s: seq<T>, i: nat)
    requires Distinct(s) && i < |s|
    ensures var rest := s[..i] + s[i + 1..];
      && Distinct(rest) && |rest| == |s| - 1
      && (forall j :: 0 <= j < |rest| ==> rest[j] == s[if j < i then j else j + 1])
  {}

  /** Without the element at `i`, the one before it (or the new first one) is last. */
  lemma LastAfterRemoval<T>(s: seq<T>, i: nat)
    requires Distinct(s) && |s| > 1 && i < |s|
    ensures var rest := s[..i] + s[i + 1..];
      (if i > 0 then s[i - 1] else rest[0]) == rest[|rest| - 1] <==> i == |s| - 1 || (i == 0 && |s| == 2)
  {
    var rest := s[..i] + s[i + 1..];
    assert rest[|rest| - 1] == s[if i == |s| - 1 then i - 1 else |s| - 1];
    assert i == 0 ==> rest[0] == s[1];
  }

  class ConfigSection {
    var next: ConfigSection?
    var head: ConfigSection?
    var name: string
    var items: ConfigItem?
    ghost var list: seq<ConfigItem>
    ghost var entries: seq<Item>  // the values in the chain

    constructor (name: string)
      ensures this.name == name && next == null && head == this && list == [] && entries == [] && Valid()
    {
      this.name := name;
      next, head, items := null, this, null;
      list, entries := [], [];
    }

    /** The chain, read forwards or backwards, spells out `list`. */
    ghost predicate Chained()
      reads this`items, this`list, list`next, list`prev, list`owner
    {
      && Distinct(list)
      && (forall x :: x in list ==> x.owner == this)
      && items == (if list == [] then null else list[0])
      && (forall i {:trigger list[i].next} :: 0 <= i < |list| ==>
            list[i].next == if i + 1 < |list| then list[i + 1] else null)
      && (forall i {:trigger list[i].prev} :: 0 <= i < |list| ==>
            list[i].prev == if i > 0 then list[i - 1] else null)
    }

    /** The first item knows the last one, every other only itself. */
    ghost predicate Cached()
      reads this`list, list`head
    {
      forall i {:trigger list[i].head} :: 0 <= i < |list| ==>
        list[i].head == if i > 0 then list[i] else list[|list| - 1]
    }

    ghost predicate Linked()
      reads this`items, this`list, list`next, list`prev, list`head, list`owner
    {
      Chained() && Cached()
    }

    ghost predicate Spelled()
      reads this`list, this`entries, list`key, list`value
    {
      && |entries| == |list|
      && forall i :: 0 <= i < |list| ==> entries[i].key == list[i].key && entries[i].value == list[i].value
    }

    ghost predicate Valid()
      reads this`items, this`list, this`entries, list
    {
      Linked() && Spelled()
    }

    /** The item with this key, or null. */
    method Search(key: string) returns (item: ConfigItem?)
      requires Valid()
      ensures var i := FindItem(entries, key);
        item == if i < |list| then list[i] else null
    {
      item := items;
      ghost var i := 0;
      while item != null
        invariant i <= |list| && item == (if i < |list| then list[i] else null)
        invariant forall j :: 0 <= j < i ==> entries[j].key != key
        decreases |list| - i
      {
        if item.key == key { break; }
        item := item.next;
        i := i + 1;
      }
      assert FindItem(entries, key) == i;
    }

    method Replace(item: ConfigItem, ghost i: nat, val: string)
      requires Valid() && i < |list| && item == list[i]
      modifies item`value, this`entries
      ensures Valid() && entries == old(entries)[i := Item(item.key, val)]
    {
      item.value := val;
      entries := entries[i := Item(item.key, val)];
    }

    /** Links a new item in after the cached last one. */
    method Append(item: ConfigItem)
      requires Valid() && item !in list
      requires item.next == null && item.head == item
      modifies this`items, this`list, this`entries, list`next, list`head, item`prev, item`head, item`owner
      ensures Valid() && list == old(list) + [item]
      ensures entries == old(entries) + [Item(item.key, item.value)]
    {
      Link(item);
      entries := entries + [Item(item.key, item.value)];
    }

    method Link(item: ConfigItem)
      requires Linked() && item !in list
      requires item.next == null && item.head == item
      modifies this`items, this`list, list`next, list`head, item`prev, item`head, item`owner
      ensures Linked() && list == old(list) + [item]
    {
      if items == null {
        item.prev := null;
        items := item;
        items.head := item;
      } else {
        item.prev := items.head;
        items.head.next := item;
        items.head := item;
      }
      item.owner := this;
      list := list + [item];
      assert Chained() && Cached();
    }

    /** Leads the pointers around the `i`th of at least two items. */
    method Bypass(item: ConfigItem, ghost i: nat)
      requires Valid() && |list| > 1 && i < |list| && item == list[i]
      modifies this`items, list`next, list`prev, list`head
      ensures items == list[if i == 0 then 1 else 0]
      ensures forall j {:trigger list[j].next} :: 0 <= j < |list| && j != i ==>
        var k := if j + 1 == i then j + 2 else j + 1;
        list[j].next == if k < |list| then list[k] else null
      ensures forall j {:trigger list[j].prev} :: 0 <= j < |list| && j != i ==>
        var k := if j - 1 == i then j - 2 else j - 1;
        list[j].prev == if k >= 0 then list[k] else null
      ensures forall j {:trigger list[j].head} :: 0 <= j < |list| && j != i ==>
        list[j].head == if j == 0 then list[i - 1] else list[j]
    {
      var prev, next := item.prev, item.next;
      if prev != null {
        prev.next := item.next;
      } else {
        items := next;
      }
      if item.head == item && prev != null {
        prev.head := prev;
        items.head := prev;
      }
      if next != null { next.prev := prev; }
    }

    /** Takes the `i`th of at least two items out of the chain. */
    method Unlink(item: ConfigItem, ghost i: nat)
      requires Valid() && |list| > 1 && i < |list| && item == list[i]
      modifies this`items, this`list, this`entries, list`next, list`prev, list`head
      ensures Chained() && Spelled()
      ensures list == old(list)[..i] + old(list)[i + 1..]
      ensures entries == old(entries)[..i] + old(entries)[i + 1..]
      ensures forall j {:trigger list[j].head} :: 0 <= j < |list| ==>
        list[j].head == if 0 == j < i then old(list)[i - 1] else list[j]
    {
      ghost var was := list;
      Bypass(item, i);
      list := list[..i] + list[i + 1..];
      entries := entries[..i] + entries[i + 1..];
      AfterRemoval(was, i);
      forall j {:trigger list[j].next} | 0 <= j < |list|
        ensures list[j].next == if j + 1 < |list| then list[j + 1] else null
      {
        assert list[j] == was[if j < i then j else j + 1];
      }
      forall j {:trigger list[j].prev} | 0 <= j < |list|
        ensures list[j].prev == if j > 0 then list[j - 1] else null
      {
        assert list[j] == was[if j < i then j else j + 1];
      }
      assert Chained();
    }

    /** Removes the item with this key, if there is one. A section's only item is freed twice (`Fault`);
        otherwise the chain is right afterwards, but what its first item takes for the last one is right
        only if the last item or the first of two has gone. */
    method Remove(key: string) returns (r: Result<int>)
      requires Valid()
      modifies this`items, this`list, this`entries, list`next, list`prev, list`head
      ensures var i, n := FindItem(old(entries), key), |old(list)|;
        && (r.Fault? <==> n == 1 && i == 0)
        && (i == n ==> Valid() && list == old(list) && entries == old(entries))
        && (r.Ok? && i < n ==>
             && r.value == 0 && Chained() && Spelled()
             && list == old(list)[..i] + old(list)[i + 1..]
             && entries == old(entries)[..i] + old(entries)[i + 1..]
             && (Valid() <==> i == n - 1 || (i == 0 && n == 2)))
    {
      var item := Search(key);
      if item == null { return Ok(0); }
      if item.prev == null && item.next == null { return Fault; }
      RemoveItem(item, FindItem(entries, key));
      return Ok(0);
    }

    method RemoveItem(item: ConfigItem, ghost i: nat)
      requires Valid() && |list| > 1 && i < |list| && item == list[i]
      modifies this`items, this`list, this`entries, list`next, list`prev, list`head
      ensures Chained() && Spelled()
      ensures list == old(list)[..i] + old(list)[i + 1..]
      ensures entries == old(entries)[..i] + old(entries)[i + 1..]
      ensures Valid() <==> i == |old(list)| - 1 || (i == 0 && |old(list)| == 2)
    {
      ghost var was := list;
      Unlink(item, i);
      LastAfterRemoval(was, i);
      assert Cached() <==> list[0].head == list[|list| - 1];
    }
  }

  /** Adds a key or replaces its value. The section pointer may be null. */
  method WriteString(section: ConfigSection?, key: string, val: string) returns (r: int)
    requires section != null ==> section.Valid()
    modifies (if section == null then {} else {section})`list
    modifies (if section == null then {} else {section})`items
    modifies (if section == null then {} else {section})`entries
    modifies if section == null then [] else section.list
    ensures section == null ==> r == -1
    ensures section != null ==>
      && r == 0 && section.Valid()
      && section.entries == WriteItem(old(section.entries), key, val)
      && forall x :: x in section.list ==> x in old(section.list) || fresh(x)
  {
    if section == null { return -1; }
    var item := section.Search(key);
    if item != null {
      section.Replace(item, FindItem(section.entries, key), val);
    } else {
      item := new ConfigItem(key, val);
      section.Append(item);
    }
    r := 0;
  }

  class ConfigFile {
    var sections: ConfigSection?
    ghost var list: seq<ConfigSection>
    ghost var contents: Store      // the values in the chains
    ghost var repr: set<object>    // the sections and their items

    constructor ()
      ensures Valid() && contents == [] && list == [] && repr == {}
    {
      sections := null;
      list, contents, repr := [], [], {};
    }

    ghost predicate Linked()
      reads this`sections, this`list, list`next, list`head
    {
      && Distinct(list)
      && sections == (if list == [] then null else list[0])
      && (forall i {:trigger list[i].next} :: 0 <= i < |list| ==>
            list[i].next == if i + 1 < |list| then list[i + 1] else null)
      && (list != [] ==> list[0].head == list[|list| - 1])
    }

    ghost predicate Spelled()
      reads this`list, this`contents, list`name, list`entries
    {
      && |contents| == |list|
      && forall i :: 0 <= i < |list| ==> contents[i].name == list[i].name && contents[i].items == list[i].entries
    }

    ghost predicate Holds()
      reads this`list, this`repr, list`list
    {
      forall s :: s in list ==> s in repr && forall x :: x in s.list ==> x in repr
    }

    ghost predicate Valid()
      reads this, list, repr
    {
      Linked() && Spelled() && Holds() && forall s :: s in list ==> s.Valid()
    }

    /** The section with this name, or null. */
    method Search(name: string) returns (section: ConfigSection?)
      requires Valid()
      ensures var i := FindSection(contents, name);
        section == if i < |list| then list[i] else null
    {
      section := sections;
      ghost var i := 0;
      while section != null
        invariant i <= |list| && section == (if i < |list| then list[i] else null)
        invariant forall j :: 0 <= j < i ==> contents[j].name != name
        decreases |list| - i
      {
        if section.name == name { break; }
        section := section.next;
        i := i + 1;
      }
      assert FindSection(contents, name) == i;
    }

    /** Returns the section with this name, which is created at the end of the chain if need be. */
    method Load(name: string) returns (section: ConfigSection)
      requires Valid()
      modifies this, list`next, list`head
      ensures Valid() && fresh(repr - old(repr))
      ensures contents == LoadSection(old(contents), name)
      ensures section in list && section == list[FindSection(contents, name)]
    {
      var found := Search(name);
      if found != null { return found; }
      section := new ConfigSection(name);
      Append(section);
      FindAppended(old(contents), Section(name, []));
    }

    /** Links a new section in after the cached last one. */
    method Link(section: ConfigSection)
      requires Linked() && section !in list && section.next == null && section.head == section
      modifies this`sections, this`list, list`next, list`head, section`head
      ensures Linked() && list == old(list) + [section]
    {
      if sections == null {
        sections := section;
        sections.head := section;
      } else {
        sections.head.next := section;
        sections.head := section;
      }
      list := list + [section];
    }

    method Append(section: ConfigSection)
      requires Valid() && section !in list && section.entries == [] && section.list == [] && section.Valid()
      requires section.next == null && section.head == section
      modifies this, list`next, list`head, section`head
      ensures Valid() && list == old(list) + [section] && repr == old(repr) + {section}
      ensures contents == old(contents) + [Section(section.name, [])]
    {
      label before:
      Link(section);
      contents := contents + [Section(section.name, [])];
      repr := repr + {section};
      forall s | s in list ensures s.Valid() {
        if s != section { assert s in old(list); }
        SameItems@before(s);
      }
      assert Spelled() && Holds();
    }

    /** A section keeps its invariant if its chain of items does not change. */
    twostate lemma SameItems(s: ConfigSection)
      requires old(s.Valid()) && unchanged(s`items) && unchanged(s`list) && unchanged(s`entries)
      requires forall i :: 0 <= i < |s.list| ==> unchanged(s.list[i])
      ensures s.Valid()
    {}

    /** Writes through a section pointer; no other section is touched. */
    method Write(section: ConfigSection, key: string, val: string, ghost i: nat)
      requires Valid() && i < |list| && section == list[i]
      modifies this`repr, this`contents, section`list, section`items, section`entries, section.list
      ensures Valid() && list == old(list) && fresh(repr - old(repr))
      ensures contents == WriteAt(old(contents), i, key, val)
    {
      assert section in list;
      WriteThrough(section, key, val);
      assert Linked();
      Record(section, i);
    }

    /** Brings the ghost view up to date with one section that has changed. */
    ghost method Record(section: ConfigSection, i: nat)
      requires i < |list| && section == list[i] && |contents| == |list|
      requires forall s :: s in list && s != section ==> s in repr && forall x :: x in s.list ==> x in repr
      requires forall j :: 0 <= j < |list| ==>
        contents[j].name == list[j].name && (j != i ==> contents[j].items == list[j].entries)
      modifies this`repr, this`contents
      ensures Spelled() && Holds()
      ensures contents == old(contents)[i := Section(section.name, section.entries)]
      ensures forall x :: x in repr ==> x in old(repr) || x == section || x in section.list
    {
      contents := contents[i := Section(section.name, section.entries)];
      repr := repr + {section} + set x | x in section.list;
    }

    method WriteThrough(section: ConfigSection, key: string, val: string)
      requires section in list && forall s :: s in list ==> s.Valid()
      modifies section`list, section`items, section`entries, section.list
      ensures forall s :: s in list ==> s.Valid()
      ensures forall s :: s in list && s != section ==> s.list == old(s.list) && s.entries == old(s.entries)
      ensures section.entries == WriteItem(old(section.entries), key, val)
      ensures forall x :: x in section.list ==> x in old(section.list) || fresh(x)
    {
      label before:
      var r := WriteString(section, key, val);
      forall s | s in list && s != section ensures s.Valid() {
        assert forall i :: 0 <= i < |s.list| ==> s.list[i] in s.list && s.list[i] !in old@before(section.list);
        Undisturbed@before(s);
      }
    }

    /** A section keeps its invariant if neither it nor its items change. */
    twostate lemma Undisturbed(s: ConfigSection)
      requires old(s.Valid()) && unchanged(s)
      requires forall i :: 0 <= i < |s.list| ==> unchanged(s.list[i])
      ensures s.Valid()
    {}
  }

  // ---------- typed access ----------

  method WriteInt(section: ConfigSection?, key: string, val: int) returns (r: int)
    requires section != null ==> section.Valid()
    modifies (if section == null then {} else {section})`list
    modifies (if section == null then {} else {section})`items
    modifies (if section == null then {} else {section})`entries
    modifies if section == null then [] else section.list
    ensures section == null ==> r == -1
    ensures section != null ==>
      && r == 0 && section.Valid()
      && section.entries == WriteItem(old(section.entries), key, ConfigTyped.PrintInt(val))
  {
    r := WriteString(section, key, ConfigTyped.PrintInt(val));
  }

  method WriteBool(section: ConfigSection?, key: string, val: int) returns (r: int)
    requires section != null ==> section.Valid()
    modifies (if section == null then {} else {section})`list
    modifies (if section == null then {} else {section})`items
    modifies (if section == null then {} else {section})`entries
    modifies if section == null then [] else section.list
    ensures section == null ==> r == -1
    ensures section != null ==>
      && r == 0 && section.Valid()
      && section.entries == WriteItem(old(section.entries), key, if val != 0 then "On" else "Off")
  {
    r := WriteString(section, key, ConfigTyped.PrintBool(val));
  }

  /** The item a read finds; a missing section has none. */
  method SearchItem(section: ConfigSection?, key: string) returns (item: ConfigItem?)
    requires section != null ==> section.Valid()
    ensures section == null ==> item == null
    ensures section != null ==> match Lookup(section.entries, key)
      case None => item == null
      case Some(s) => item != null && item.value == s
  {
    if section == null { return null; }
    item := section.Search(key);
  }

  method ReadInt(section: ConfigSection?, key: string, default: int) returns (v: int)
    requires section != null ==> section.Valid()
    modifies (if section == null then {} else {section})`list
    modifies (if section == null then {} else {section})`items
    modifies (if section == null then {} else {section})`entries
    modifies if section == null then [] else section.list
    ensures section == null ==> v == default
    ensures section != null ==>
      && section.Valid()
      && v == ConfigTyped.Answer(ConfigTyped.Number, old(section.entries), key, default)
      && section.entries == ConfigTyped.AfterRead(ConfigTyped.Number, old(section.entries), key, default)
  {
    var item := SearchItem(section, key);
    if item != null { return ConfigTyped.ReadInt(item.value); }
    var _ := WriteInt(section, key, default);
    v := default;
  }

  method ReadBool(section: ConfigSection?, key: string, default: int) returns (v: int)
    requires section != null ==> section.Valid()
    modifies (if section == null then {} else {section})`list
    modifies (if section == null then {} else {section})`items
    modifies (if section == null then {} else {section})`entries
    modifies if section == null then [] else section.list
    ensures section == null ==> v == default
    ensures section != null ==>
      && section.Valid()
      && v == ConfigTyped.Answer(ConfigTyped.Switch, old(section.entries), key, default)
      && section.entries == ConfigTyped.AfterRead(ConfigTyped.Switch, old(section.entries), key, default)
  {
    var item := SearchItem(section, key);
    if item != null { return ConfigTyped.ReadBool(item.value); }
    var _ := WriteBool(section, key, default);
    v := default;
  }

  method ReadString(section: ConfigSection?, key: string, default: string) returns (v: string)
    requires section != null ==> section.Valid()
    modifies (if section == null then {} else {section})`list
    modifies (if section == null then {} else {section})`items
    modifies (if section == null then {} else {section})`entries
    modifies if section == null then [] else section.list
    ensures section == null ==> v == default
    ensures section != null ==>
      && section.Valid()
      && v == ConfigTyped.AnswerString(old(section.entries), key, default)
      && section.entries == ConfigTyped.AfterReadString(old(section.entries), key, default)
  {
    var item := SearchItem(section, key);
    if item != null { return item.value; }
    var _ := WriteString(section, key, default);
    v := default;
  }

  // ---------- the file ----------

  /** The whitespace cleaner. A null pointer is replaced by a blank first. */
  method RemoveWhitespace(token: Option<string>) returns (r: string)
    ensures r == ConfigText.Cleaned(token)
  {
    var str := if token.None? then " " else token.value;
    var z := 0;
    while z < |str| && IsSpace(str[z])
      invariant z <= |str| && TrimLeft(str[z..]) == TrimLeft(str)
    {
      assert str[z..][1..] == str[z + 1..];
      z := z + 1;
    }
    assert TrimLeft(str[z..]) == str[z..];
    r := str[z..];
  }

  /** The parser's section pointer stands for the section of that name, null for none yet. */
  ghost predicate PointsTo(file: ConfigFile, section: ConfigSection?, name: Option<string>)
    requires file.Valid()
    reads file, file.list, file.repr
  {
    if name.None? then section == null
    else var i := FindSection(file.contents, name.value);
      i < |file.list| && section == file.list[i]
  }

  lemma WriteAtFind(store: Store, i: nat, w: Item, name: string)
    requires i < |store|
    ensures FindSection(WriteAt(store, i, w.key, w.value), name) == FindSection(store, name)
  {
    var r := WriteAt(store, i, w.key, w.value);
    assert forall j :: 0 <= j < |r| ==> r[j].name == store[j].name;
  }

  /** The section for an item line: the current one, or "Global" if there is none yet. */
  method Current(file: ConfigFile, section: ConfigSection?, ghost name: Option<string>)
      returns (current: ConfigSection)
    requires file.Valid() && PointsTo(file, section, name)
    modifies file, file.list`next, file.list`head
    ensures file.Valid() && fresh(file.repr - old(file.repr))
    ensures var target := if name.Some? then name.value else ConfigText.GLOBAL;
      file.contents == LoadSection(old(file.contents), target) && PointsTo(file, current, Some(target))
  {
    if section == null {
      current := file.Load(ConfigText.GLOBAL);
    } else {
      current := section;
    }
  }

  /** A title line. */
  method ReadTitle(file: ConfigFile, title: string) returns (current: ConfigSection)
    requires file.Valid()
    modifies file, file.list`next, file.list`head
    ensures file.Valid() && fresh(file.repr - old(file.repr))
    ensures file.contents == Do(old(file.contents), Op(title, None)) && PointsTo(file, current, Some(title))
  {
    current := file.Load(title);
  }

  /** What an item line asks of the store. */
  ghost function ItemOp(name: Option<string>, start: string): Op {
    var (key, rest) := ConfigText.NextToken(start, ConfigText.SEPARATORS);
    var (val, _) := ConfigText.NextToken(rest, ConfigText.SEPARATORS);
    Op(if name.Some? then name.value else ConfigText.GLOBAL,
       Some(Item(ConfigText.Cleaned(key), ConfigText.Cleaned(val))))
  }

  /** The key and the value of an item line. */
  method SplitItem(start: string) returns (key: string, val: string)
    ensures ItemOp(None, start).write == Some(Item(key, val))
  {
    var foo := ConfigText.NextToken(start, ConfigText.SEPARATORS);
    key := RemoveWhitespace(foo.0);
    foo := ConfigText.NextToken(foo.1, ConfigText.SEPARATORS);
    val := RemoveWhitespace(foo.0);
  }

  /** An item line. */
  method ReadItem(file: ConfigFile, section: ConfigSection?, ghost name: Option<string>, start: string)
      returns (current: ConfigSection)
    requires file.Valid() && PointsTo(file, section, name)
    modifies file, file.repr
    ensures file.Valid() && fresh(file.repr - old(file.repr))
    ensures var op := ItemOp(name, start);
      file.contents == Do(old(file.contents), op) && PointsTo(file, current, Some(op.name))
  {
    current := Current(file, section, name);
    var key, val := SplitItem(start);
    WriteInto(file, current, ItemOp(name, start).name, key, val);
  }

  /** Writes through the pointer to the section of this name. */
  method WriteInto(file: ConfigFile, section: ConfigSection, ghost name: string, key: string, val: string)
    requires file.Valid() && PointsTo(file, section, Some(name))
    modifies file, file.repr
    ensures file.Valid() && fresh(file.repr - old(file.repr))
    ensures var i := FindSection(old(file.contents), name);
      i < |old(file.contents)| && file.contents == WriteAt(old(file.contents), i, key, val)
    ensures PointsTo(file, section, Some(name))
  {
    ghost var loaded, i := file.contents, FindSection(file.contents, name);
    file.Write(section, key, val, i);
    WriteAtFind(loaded, i, Item(key, val), name);
  }

  /** One line of the file; not ok if it would overrun a buffer. */
  method ReadLine(file: ConfigFile, section: ConfigSection?, ghost name: Option<string>, line: string)
      returns (ok: bool, current: ConfigSection?)
    requires file.Valid() && PointsTo(file, section, name)
    modifies file, file.repr
    ensures file.Valid() && fresh(file.repr - old(file.repr))
    ensures var r := ConfigText.ParseLine(ConfigText.State(old(file.contents), name), line);
      && (ok <==> r.Ok?)
      && (ok ==> file.contents == r.value.store && PointsTo(file, current, r.value.section))
  {
    ghost var st := ConfigText.State(file.contents, name);
    var start := RemoveWhitespace(Some(line));
    ok, current := true, section;
    if start != [] && start[0] == '#' {
      assert ConfigText.LineOp(st, line) == Ok(None);
    } else if ']' in start {
      if |start| < 2 || |start| - 2 >= LINE_SIZE { return false, null; }
      assert ConfigText.LineOp(st, line) == Ok(Some(Op(start[1..|start| - 1], None)));
      current := ReadTitle(file, start[1..|start| - 1]);
    } else {
      assert ConfigText.LineOp(st, line) == Ok(Some(ItemOp(name, start)));
      current := ReadItem(file, section, name, start);
    }
  }

  /** Reads a configuration text. A text that would make the parser overrun its buffers is not ok. */
  method Open(text: string) returns (file: ConfigFile, ok: bool)
    ensures fresh(file) && fresh(file.repr) && file.Valid()
    ensures ok <==> ConfigText.Parse(text).Ok?
    ensures ok ==> file.contents == ConfigText.Parse(text).value
  {
    file := new ConfigFile();
    var section: ConfigSection? := null;
    ghost var name: Option<string> := None;
    var token := ConfigText.NextToken(text, ConfigText.NEWLINE);
    var line, bar := token.0, token.1;
    ok := true;
    while line.Some?
      invariant fresh(file) && fresh(file.repr) && file.Valid() && ok
      invariant PointsTo(file, section, name)
      invariant ConfigText.ParseLines(ConfigText.State([], None), ConfigText.Tokens(text, ConfigText.NEWLINE)) ==
        ConfigText.ParseLines(ConfigText.State(file.contents, name), Pending(line, bar))
      decreases |bar| + if line.Some? then 1 else 0
    {
      ghost var st := ConfigText.State(file.contents, name);
      PendingStep(st, line.value, bar);
      ok, section := ReadLine(file, section, name, line.value);
      if !ok { return; }
      name := ConfigText.ParseLine(st, line.value).value.section;
      token := ConfigText.NextToken(bar, ConfigText.NEWLINE);
      line, bar := token.0, token.1;
    }
  }

  /** The lines still to come: the current token and what the rest of the text holds. */
  ghost function Pending(line: Option<string>, bar: string): seq<string> {
    if line.None? then [] else [line.value] + ConfigText.Tokens(bar, ConfigText.NEWLINE)
  }

  lemma PendingStep(st: ConfigText.State, line: string, bar: string)
    ensures var (next, rest) := ConfigText.NextToken(bar, ConfigText.NEWLINE);
      ConfigText.ParseLines(st, Pending(Some(line), bar)) ==
      match ConfigText.ParseLine(st, line)
      case Fault => Fault
      case Ok(st') => ConfigText.ParseLines(st', Pending(next, rest))
  {
    var (next, rest) := ConfigText.NextToken(bar, ConfigText.NEWLINE);
    assert Pending(Some(line), bar)[1..] == ConfigText.Tokens(bar, ConfigText.NEWLINE);
    assert ConfigText.Tokens(bar, ConfigText.NEWLINE) == Pending(next, rest);
  }

  /** Writes every section and every item, in order. */
  method Save(file: ConfigFile) returns (text: string)
    requires file.Valid()
    ensures text == ConfigText.Print(file.contents)
  {
    text := ConfigText.PrintLines(ConfigText.HEADER);
    var foo := file.sections;
    ghost var i := 0;
    while foo != null
      invariant i <= |file.list| && foo == if i < |file.list| then file.list[i] else null
      invariant text + ConfigText.PrintSections(file.contents[i..]) == ConfigText.Print(file.contents)
      decreases |file.list| - i
    {
      text := SaveListed(file, foo, text, i);
      foo := foo.next;
      i := i + 1;
    }
    assert file.contents[i..] == [];
  }

  method SaveListed(file: ConfigFile, section: ConfigSection, text: string, ghost i: nat) returns (r: string)
    requires file.Valid() && i < |file.list| && section == file.list[i]
    ensures r + ConfigText.PrintSections(file.contents[i + 1..]) == text + ConfigText.PrintSections(file.contents[i..])
  {
    assert section in file.list;
    r := SaveSection(section, text, file.contents[i..]);
    assert file.contents[i..][1..] == file.contents[i + 1..];
  }

  method SaveSection(section: ConfigSection, text: string, ghost store: Store) returns (r: string)
    requires section.Valid() && store != [] && store[0] == Section(section.name, section.entries)
    ensures r + ConfigText.PrintSections(store[1..]) == text + ConfigText.PrintSections(store)
  {
    var title := ConfigText.Cut("\n" + ConfigText.TitleLine(section.name) + "\n");
    r := SaveItems(section, text + title);
    ghost var items, rest := ConfigText.PrintItems(section.entries), ConfigText.PrintSections(store[1..]);
    Assoc(text, title + items, rest);
    Assoc(text, title, items);
  }

  method SaveItems(section: ConfigSection, text: string) returns (r: string)
    requires section.Valid()
    ensures r == text + ConfigText.PrintItems(section.entries)
  {
    r := text;
    var item := section.items;
    ghost var j := 0;
    while item != null
      invariant j <= |section.list| && item == if j < |section.list| then section.list[j] else null
      invariant r + ConfigText.PrintItems(section.entries[j..]) == text + ConfigText.PrintItems(section.entries)
      decreases |section.list| - j
    {
      ghost var line := ConfigText.Cut(ConfigText.ItemLine(section.entries[j]) + "\n");
      Assoc(r, line, ConfigText.PrintItems(section.entries[j + 1..]));
      assert section.entries[j..][1..] == section.entries[j + 1..];
      if item.key != [] && item.key[0] == ';' {
        r := r + ConfigText.Cut(item.key + "\n");
      } else {
        r := r + ConfigText.Cut(item.key + ": " + item.value + "\n");
      }
      item := item.next;
      j := j + 1;
    }
    assert section.entries[j..] == [];
  }
}
