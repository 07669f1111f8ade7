/** The stateful reader of SVC list output: a cursor over the lines that looks one id ahead, and
    elements that hold a parameter as a bare value until it repeats and as a list from then on. */
module SvcListReader {
  import opened Options
  import opened SvcListFormat

  const HOST_NAME_PARAM := "name"
  const HOST_ISCSI_NAMES_PARAM := "iscsi_name"
  const HOST_WWPNS_PARAM := "WWPN"

  datatype Value = Scalar(text: string) | Many(texts: seq<string>)

  /** The values given to a name, in order. */
  function ValuesOf(items: seq<Item>, name: string): seq<string> {
    if items == [] then []
    else (if items[0].name == name then [items[0].value] else []) + ValuesOf(items[1..], name)
  }

  lemma {:induction false} ValuesOfAppended(items: seq<Item>, item: Item, name: string)
    ensures ValuesOf(items + [item], name)
         == ValuesOf(items, name) + if item.name == name then [item.value] else []
  {
    if items == [] {
      assert items + [item] == [item];
    } else {
      assert (items + [item])[1..] == items[1..] + [item];
      ValuesOfAppended(items[1..], item, name);
    }
  }

  /** How a list of values is handed out: nothing, the value itself, or the list. */
  function Packed(values: seq<string>): Option<Value> {
    if values == [] then None
    else if |values| == 1 then Some(Scalar(values[0]))
    else Some(Many(values))
  }

  type Dict = map<string, Value>

  /** The values a dictionary holds under a name, whichever way it holds them. */
  function ValuesIn(dict: Dict, name: string): seq<string> {
    if name !in dict then []
    else if dict[name].Scalar? then [dict[name].text]
    else dict[name].texts
  }

  /** A list is only ever made when a second value arrives. */
  ghost predicate ListsRepeat(dict: Dict) {
    forall name | name in dict && dict[name].Many? :: |dict[name].texts| >= 2
  }

  /** The dictionary that gives each name its values, packed. */
  ghost function DictOf(items: seq<Item>): Dict {
    map name | name in NamesOf(items) && ValuesOf(items, name) != [] :: Packed(ValuesOf(items, name)).value
  }

  function NamesOf(items: seq<Item>): set<string> {
    set item | item in items :: item.name
  }

  lemma {:induction false} NamedHasValues(items: seq<Item>, name: string)
    ensures name in NamesOf(items) <==> ValuesOf(items, name) != []
  {
    if items != [] {
      NamedHasValues(items[1..], name);
      assert items == [items[0]] + items[1..];
      assert name in NamesOf(items) <==> items[0].name == name || name in NamesOf(items[1..]);
    }
  }

  lemma DictOfHolds(items: seq<Item>, name: string)
    ensures ListsRepeat(DictOf(items))
    ensures ValuesIn(DictOf(items), name) == ValuesOf(items, name)
  {
    NamedHasValues(items, name);
  }

  /** A dictionary whose lists repeat is determined by the values it holds. */
  lemma DictIsDictOf(dict: Dict, items: seq<Item>)
    requires ListsRepeat(dict) && forall name :: ValuesIn(dict, name) == ValuesOf(items, name)
    ensures dict == DictOf(items)
  {
    forall name
      ensures name in dict <==> name in DictOf(items)
      ensures name in dict ==> dict[name] == Packed(ValuesOf(items, name)).value
    {
      NamedHasValues(items, name);
      assert ValuesIn(dict, name) == ValuesOf(items, name);
    }
  }

  /** Adding to the dictionary of some items gives the dictionary of one item more. */
  lemma DictOfAppended(before: Dict, after: Dict, items: seq<Item>, item: Item)
    requires before == DictOf(items) && ListsRepeat(after)
    requires ValuesIn(after, item.name) == ValuesIn(before, item.name) + [item.value]
    requires forall other | other != item.name :: ValuesIn(after, other) == ValuesIn(before, other)
    ensures after == DictOf(items + [item])
  {
    forall name
      ensures ValuesIn(after, name) == ValuesOf(items + [item], name)
    {
      DictOfHolds(items, name);
      ValuesOfAppended(items, item, name);
    }
    DictIsDictOf(after, items + [item]);
  }

  class Element {
    var dict: Dict

    constructor ()
      ensures dict == DictOf([])
    {
      dict := map[];
    }

    method Get(name: string, defaultValue: Option<Value>) returns (value: Option<Value>)
      requires ListsRepeat(dict)
      ensures value == if ValuesIn(dict, name) == [] then defaultValue else Packed(ValuesIn(dict, name))
    {
      value := if name in dict then Some(dict[name]) else defaultValue;
    }

    method GetAsList(name: string) returns (values: seq<string>)
      ensures values == ValuesIn(dict, name)
    {
      if name in dict {
        var value := dict[name];
        return if value.Many? then value.texts else [value.text];
      }
      return [];
    }

    method Add(name: string, value: string)
      requires ListsRepeat(dict)
      modifies this
      ensures ListsRepeat(dict)
      ensures ValuesIn(dict, name) == ValuesIn(old(dict), name) + [value]
      ensures forall other | other != name :: ValuesIn(dict, other) == ValuesIn(old(dict), other)
    {
      if name in dict {
        var current := dict[name];
        if current.Many? {
          dict := dict[name := Many(current.texts + [value])];
        } else {
          dict := dict[name := Many([current.text, value])];
        }
      } else {
        dict := dict[name := Scalar(value)];
      }
    }

    /** Adds a line of the object described by the group. */
    method AddField(ghost group: Group, item: Item)
      requires dict == DictOf(ItemsOf(group))
      modifies this
      ensures dict == DictOf(ItemsOf(Group(group.id, group.fields + [item])))
    {
      DictOfHolds(ItemsOf(group), item.name);
      Add(item.name, item.value);
      DictOfAppended(old(dict), dict, ItemsOf(group), item);
      assert ItemsOf(group) + [item] == ItemsOf(Group(group.id, group.fields + [item]));
    }
  }

  /** Python's truth test of a value that may be None or empty. */
  predicate Truthy(id: Option<string>) {
    id.Some? && id.value != ""
  }

  /** The items of the lines from a position on. */
  function ItemsFrom(lines: seq<string>, index: nat): seq<Item>
    requires index <= |lines|
    decreases |lines| - index
  {
    if index == |lines| then []
    else
      match ParseLine(lines[index])
      case None => ItemsFrom(lines, index + 1)
      case Some(item) => [item] + ItemsFrom(lines, index + 1)
  }

  lemma {:induction false} ItemsFromIsItems(lines: seq<string>, index: nat)
    requires index <= |lines|
    ensures ItemsFrom(lines, index) == Items(lines[index..])
    decreases |lines| - index
  {
    if index < |lines| {
      ItemsFromIsItems(lines, index + 1);
      assert lines[index..][1..] == lines[index + 1..];
    }
  }

  lemma ItemsFromStart(lines: seq<string>)
    ensures ItemsFrom(lines, 0) == Items(lines)
  {
    ItemsFromIsItems(lines, 0);
    assert lines[0..] == lines;
  }

  class Reader {
    const lines: seq<string>
    var index: nat
    var nextId: Option<string>

    ghost predicate Valid()
      reads this
    {
      index <= |lines|
    }

    /** The items still to come, with the id already looked at. */
    ghost function Ahead(): seq<Item>
      reads this
      requires Valid()
    {
      (if nextId.Some? then [Item(ID_PARAM_NAME, nextId.value)] else []) + ItemsFrom(lines, index)
    }

    /** What iterating from here on will give. */
    ghost function Remaining(): seq<Group>
      reads this
      requires Valid()
    {
      if Truthy(nextId) then Groups(Ahead()) else []
    }

    constructor (lines: seq<string>)
      ensures Valid() && this.lines == lines && index == 0 && nextId == None
    {
      this.lines := lines;
      index, nextId := 0, None;
    }

    method InitFirstObjectId() returns (ok: bool)
      requires Valid() && index == 0 && nextId == None
      modifies this
      ensures Valid()
      ensures ok <==> Read(lines).Some?
      ensures ok ==> Remaining() == Read(lines).value
    {
      ItemsFromStart(lines);
      while !Truthy(nextId) && index < |lines|
        invariant Valid()
        invariant SkipEmptyIds(Items(lines)) ==
                  if Truthy(nextId) then [Item(ID_PARAM_NAME, nextId.value)] + ItemsFrom(lines, index)
                  else SkipEmptyIds(ItemsFrom(lines, index))
        decreases |lines| - index
      {
        var item := ParseLine(lines[index]);
        index := index + 1;
        if item.Some? {
          if item.value.name == ID_PARAM_NAME {
            nextId := Some(item.value.value);
            assert item.value == Item(ID_PARAM_NAME, nextId.value);
            SkipAhead(item.value, ItemsFrom(lines, index));
          } else {
            return false;
          }
        }
      }
      return true;
    }

    /** Null stands for the end of the iteration. */
    method Next() returns (element: Element?)
      requires Valid()
      modifies this
      ensures Valid()
      ensures element == null <==> old(Remaining()) == []
      ensures element == null ==> Remaining() == []
      ensures element != null ==>
                && fresh(element) && element.dict == DictOf(ItemsOf(old(Remaining())[0]))
                && Remaining() == old(Remaining())[1..]
    {
      if !Truthy(nextId) {
        return null;
      }
      var id := nextId.value;
      ghost var before := Remaining();
      var res := new Element();
      DictOfHolds([], id);
      res.Add(ID_PARAM_NAME, id);
      DictOfAppended(DictOf([]), res.dict, [], Item(ID_PARAM_NAME, id));
      assert [] + [Item(ID_PARAM_NAME, id)] == ItemsOf(Group(id, []));
      nextId := None;
      ghost var fields := ReadFields(res, id);
      GroupEnds(id, fields, Ahead());
      assert before == [Group(id, fields)] + Remaining();
      return res;
    }

    /** The rest of the element whose id line has been read, up to the next id line. */
    method ReadFields(res: Element, ghost id: string) returns (ghost fields: seq<Item>)
      requires Valid() && nextId == None
      requires res.dict == DictOf(ItemsOf(Group(id, [])))
      modifies this, res
      ensures Valid()
      ensures res.dict == DictOf(ItemsOf(Group(id, fields)))
      ensures nextId == None ==> Ahead() == []
      ensures NoIds(fields) && ItemsFrom(lines, old(index)) == fields + Ahead()
    {
      fields := [];
      ghost var all, rest := ItemsFrom(lines, index), ItemsFrom(lines, index);
      while index < |lines|
        invariant Valid() && nextId == None
        invariant res.dict == DictOf(ItemsOf(Group(id, fields)))
        invariant NoIds(fields) && rest == ItemsFrom(lines, index) && all == fields + rest
        decreases |lines| - index
      {
        var item := ParseLine(lines[index]);
        index := index + 1;
        ghost var left := rest;
        rest := ItemsFrom(lines, index);
        if item.None? {
          continue;
        }
        assert left == [item.value] + rest;
        if item.value.name == ID_PARAM_NAME {
          nextId := Some(item.value.value);
          return;
        }
        res.AddField(Group(id, fields), item.value);
        assert all == fields + [item.value] + rest;
        fields := fields + [item.value];
      }
    }
  }

  lemma SkipAhead(item: Item, rest: seq<Item>)
    requires IsId(item)
    ensures SkipEmptyIds([item] + rest) == if item.value == "" then SkipEmptyIds(rest) else [item] + rest
  {
    assert ([item] + rest)[1..] == rest;
  }

  lemma GroupEnds(id: string, fields: seq<Item>, rest: seq<Item>)
    requires id != "" && NoIds(fields) && StartsWithId(rest)
    ensures Groups([Item(ID_PARAM_NAME, id)] + (fields + rest)) == [Group(id, fields)] + Groups(rest)
  {
    GroupsOfFirst(Group(id, fields), rest);
    assert ItemsOf(Group(id, fields)) + rest == [Item(ID_PARAM_NAME, id)] + (fields + rest);
  }

  ghost predicate Hold(elements: seq<Element>, groups: seq<Group>)
    reads elements
  {
    |elements| == |groups| && forall k | 0 <= k < |elements| :: elements[k].dict == DictOf(ItemsOf(groups[k]))
  }

  /** Iterating to the end hands out the remaining objects, each once and in order. */
  method Iterate(reader: Reader) returns (elements: seq<Element>)
    requires reader.Valid()
    modifies reader
    ensures Hold(elements, old(reader.Remaining()))
  {
    ghost var groups := reader.Remaining();
    elements := [];
    while true
      invariant reader.Valid()
      invariant forall e | e in elements :: fresh(e)
      invariant |elements| <= |groups| && reader.Remaining() == groups[|elements|..]
      invariant Hold(elements, groups[..|elements|])
      decreases |groups| - |elements|
    {
      var element := reader.Next();
      if element == null {
        break;
      }
      elements := elements + [element];
    }
    assert groups[..|elements|] == groups;
  }

  /** The whole output gives the groups of its lines; None is the error raised when the output does
      not begin with an id line. */
  method ReadAll(lines: seq<string>) returns (elements: Option<seq<Element>>)
    ensures elements.Some? <==> Read(lines).Some?
    ensures elements.Some? ==> Hold(elements.value, Read(lines).value)
  {
    var reader := new Reader(lines);
    var ok := reader.InitFirstObjectId();
    if !ok {
      return None;
    }
    var found := Iterate(reader);
    return Some(found);
  }

  // ---------- the consumer ----------

  datatype Host = Host(id: Option<Value>, name: Option<Value>, iscsiNames: seq<string>, wwns: seq<string>)

  function HostOf(group: Group): Host {
    var items := ItemsOf(group);
    Host(Packed(ValuesOf(items, ID_PARAM_NAME)), Packed(ValuesOf(items, HOST_NAME_PARAM)),
         ValuesOf(items, HOST_ISCSI_NAMES_PARAM), ValuesOf(items, HOST_WWPNS_PARAM))
  }

  /** The host described by one element. */
  method ReadHost(details: Element, ghost group: Group) returns (host: Host)
    requires details.dict == DictOf(ItemsOf(group))
    ensures host == HostOf(group)
  {
    DictOfHolds(ItemsOf(group), ID_PARAM_NAME);
    DictOfHolds(ItemsOf(group), HOST_NAME_PARAM);
    DictOfHolds(ItemsOf(group), HOST_ISCSI_NAMES_PARAM);
    DictOfHolds(ItemsOf(group), HOST_WWPNS_PARAM);
    var id := details.Get(ID_PARAM_NAME, None);
    var name := details.Get(HOST_NAME_PARAM, None);
    var iscsiNames := details.GetAsList(HOST_ISCSI_NAMES_PARAM);
    var wwns := details.GetAsList(HOST_WWPNS_PARAM);
    return Host(id, name, iscsiNames, wwns);
  }

  function HostsOf(groups: seq<Group>): seq<Host> {
    seq(|groups|, k requires 0 <= k < |groups| => HostOf(groups[k]))
  }

  /** The hosts described by the detailed listing, one for each object. */
  method ReadHosts(lines: seq<string>) returns (hosts: Option<seq<Host>>)
    ensures hosts == match Read(lines) case None => None case Some(groups) => Some(HostsOf(groups))
  {
    var elements := ReadAll(lines);
    if elements.None? {
      return None;
    }
    ghost var groups := Read(lines).value;
    var res: seq<Host> := [];
    for k := 0 to |elements.value|
      invariant Hold(elements.value, groups) && res == HostsOf(groups[..k])
    {
      var host := ReadHost(elements.value[k], groups[k]);
      assert groups[..k + 1][..k] == groups[..k];
      res := res + [host];
    }
    assert groups[..|groups|] == groups;
    return Some(res);
  }

  lemma {:induction false} NoValuesForId(fields: seq<Item>)
    requires NoIds(fields)
    ensures ValuesOf(fields, ID_PARAM_NAME) == []
  {
    if fields != [] {
      assert fields[0] in fields;
      NoValuesForId(fields[1..]);
    }
  }

  /** What a host takes from one group. */
  lemma HostOfGroup(group: Group)
    requires WellFormedGroup(group)
    ensures HostOf(group).id == Some(Scalar(group.id))
    ensures HostOf(group).wwns == ValuesOf(group.fields, "WWPN")
    ensures HostOf(group).iscsiNames == ValuesOf(group.fields, "iscsi_name")
    ensures HostOf(group).name == Packed(ValuesOf(group.fields, "name"))
  {
    NoValuesForId(group.fields);
    assert ItemsOf(group)[1..] == group.fields;
    assert ValuesOf(ItemsOf(group), ID_PARAM_NAME) == [group.id] + [];
    assert ValuesOf(ItemsOf(group), HOST_NAME_PARAM) == ValuesOf(group.fields, "name");
  }

  /** Printed host listings come back host by host: the id is the single bare id value, the name the
      bare value or list of what was printed as such, and every port list holds exactly the values
      printed under its name. */
  lemma PrintedHostsReadBack(groups: seq<Group>, k: nat)
    requires WellFormed(groups) && k < |groups|
    ensures Read(Print(groups)).Some? && |Read(Print(groups)).value| == |groups|
    ensures
      var (host, fields) := (HostOf(Read(Print(groups)).value[k]), groups[k].fields);
      var names := ValuesOf(fields, "name");
      && host.id == Some(Scalar(groups[k].id))
      && host.wwns == ValuesOf(fields, "WWPN") && host.iscsiNames == ValuesOf(fields, "iscsi_name")
      && (names == [] ==> host.name == None)
      && (|names| == 1 ==> host.name == Some(Scalar(names[0])))
      && (|names| >= 2 ==> host.name == Some(Many(names)))
  {
    PrintedGroupsReadBack(groups);
    assert WellFormedGroup(groups[k]);
    HostOfGroup(groups[k]);
  }
}
