/** The text format of SVC list commands: one "name value" pair a line, an "id" line opening each
    object. Reading is specified here as a pure grouping of lines, with printing as its inverse. */
module SvcListFormat {
  import opened Options
  import opened Text

  const ID_PARAM_NAME := "id"

  datatype Item = Item(name: string, value: string)

  datatype Group = Group(id: string, fields: seq<Item>)

  // ---------- one line ----------

  /** The position of the first blank, or the length if there is none. */
  function FirstBlank(s: string): (k: nat)
    ensures k <= |s|
    ensures k < |s| ==> s[k] == ' '
  {
    if s == "" || s[0] == ' ' then 0 else 1 + FirstBlank(s[1..])
  }

  lemma {:induction false} NoBlankBefore(s: string)
    ensures ' ' !in s[..FirstBlank(s)]
  {
    if s != "" && s[0] != ' ' {
      NoBlankBefore(s[1..]);
      assert s[..FirstBlank(s)] == [s[0]] + s[1..][..FirstBlank(s[1..])];
    }
  }

  lemma {:induction false} FirstBlankSkips(name: string, rest: string)
    requires ' ' !in name && (rest == "" || rest[0] == ' ')
    ensures FirstBlank(name + rest) == |name|
  {
    if name != "" {
      FirstBlankSkips(name[1..], rest);
      assert (name + rest)[1..] == name[1..] + rest;
    } else {
      assert name + rest == rest;
    }
  }

  /** A blank line says nothing; any other has a name up to its first blank and a stripped rest. */
  function ParseLine(line: string): Option<Item> {
    var text := Strip(line);
    if text == "" then None else Some(Partition(text))
  }

  function Partition(text: string): Item {
    var k := FirstBlank(text);
    Item(text[..k], if k < |text| then Strip(text[k + 1..]) else "")
  }

  function PrintLine(item: Item): string {
    item.name + " " + item.value
  }

  /** The items that some line can say. */
  predicate Printable(item: Item) {
    && item.name != "" && ' ' !in item.name && !IsSpace(item.name[0])
    && Trimmed(item.value)
    && (item.value == "" ==> !IsSpace(item.name[|item.name| - 1]))
  }

  lemma PartitionIsPrintable(text: string)
    requires text != "" && Trimmed(text)
    ensures Printable(Partition(text))
  {
    var k := FirstBlank(text);
    NoBlankBefore(text);
    if k < |text| {
      var rest := text[k + 1..];
      StripTrims(rest);
      if rest != "" {
        assert rest[|rest| - 1] == text[|text| - 1];
        LastCharSurvives(rest);
      }
    }
  }

  lemma ParsedIsPrintable(line: string)
    ensures ParseLine(line).Some? ==> Printable(ParseLine(line).value)
  {
    StripTrims(line);
    if Strip(line) != "" {
      PartitionIsPrintable(Strip(line));
    }
  }

  lemma BareNameReadsBack(name: string)
    requires Printable(Item(name, ""))
    ensures ParseLine(PrintLine(Item(name, ""))) == Some(Item(name, ""))
  {
    var line := PrintLine(Item(name, ""));
    assert line == name + " ";
    assert line[0] == name[0];
    assert line[..|line| - 1] == name;
    assert StripLeft(line) == line && StripRight(line) == StripRight(name);
    assert StripRight(name) == name;
    FirstBlankSkips(name, "");
    assert name + "" == name;
  }

  lemma PairReadsBack(item: Item)
    requires Printable(item) && item.value != ""
    ensures ParseLine(PrintLine(item)) == Some(item)
  {
    var line := PrintLine(item);
    assert line[0] == item.name[0] && line[|line| - 1] == item.value[|item.value| - 1];
    assert Strip(line) == line by {
      StripTrims(line);
    }
    assert line == item.name + (" " + item.value);
    FirstBlankSkips(item.name, " " + item.value);
    assert line[|item.name| + 1..] == item.value;
    StripTrims(item.value);
  }

  /** A printed item reads back as itself exactly when it is printable. */
  lemma LineRoundTrip(item: Item)
    ensures ParseLine(PrintLine(item)) == Some(item) <==> Printable(item)
  {
    ParsedIsPrintable(PrintLine(item));
    if Printable(item) {
      if item.value == "" {
        BareNameReadsBack(item.name);
      } else {
        PairReadsBack(item);
      }
    }
  }

  // ---------- grouping ----------

  /** The items of the non-blank lines, in order. */
  function Items(lines: seq<string>): seq<Item> {
    if lines == [] then []
    else
      var rest := Items(lines[1..]);
      match ParseLine(lines[0])
      case None => rest
      case Some(item) => [item] + rest
  }

  predicate IsId(item: Item) {
    item.name == ID_PARAM_NAME
  }

  /** How many items come before the next id item. */
  function FieldCount(items: seq<Item>): (k: nat)
    ensures k <= |items|
    ensures k < |items| ==> IsId(items[k])
  {
    if items == [] || IsId(items[0]) then 0 else 1 + FieldCount(items[1..])
  }

  predicate NoIds(fields: seq<Item>) {
    forall f | f in fields :: !IsId(f)
  }

  lemma {:induction false} FieldsAreNoIds(items: seq<Item>)
    ensures NoIds(items[..FieldCount(items)])
  {
    if items != [] && !IsId(items[0]) {
      FieldsAreNoIds(items[1..]);
      assert items[..FieldCount(items)] == [items[0]] + items[1..][..FieldCount(items[1..])];
    }
  }

  predicate StartsWithId(items: seq<Item>) {
    items == [] || IsId(items[0])
  }

  /** One group for each id item; an empty id counts as the end of the list. */
  function Groups(items: seq<Item>): seq<Group>
    requires StartsWithId(items)
    decreases |items|
  {
    if items == [] || items[0].value == "" then []
    else
      var k := FieldCount(items[1..]);
      [Group(items[0].value, items[1..1 + k])] + Groups(items[1 + k..])
  }

  /** Leading ids without a value are passed over while looking for the first object. */
  function SkipEmptyIds(items: seq<Item>): seq<Item> {
    if items != [] && items[0] == Item(ID_PARAM_NAME, "") then SkipEmptyIds(items[1..]) else items
  }

  /** None when the first line that counts is not an id line. */
  function Read(lines: seq<string>): Option<seq<Group>> {
    var items := SkipEmptyIds(Items(lines));
    if StartsWithId(items) then Some(Groups(items)) else None
  }

  // ---------- every line is consumed once ----------

  function ItemsOf(group: Group): seq<Item> {
    [Item(ID_PARAM_NAME, group.id)] + group.fields
  }

  function Flatten(groups: seq<Group>): seq<Item> {
    if groups == [] then [] else ItemsOf(groups[0]) + Flatten(groups[1..])
  }

  /** The first group and what is left after it. */
  lemma Peel(items: seq<Item>) returns (group: Group, rest: seq<Item>)
    requires items != [] && IsId(items[0]) && items[0].value != ""
    ensures items == ItemsOf(group) + rest && |rest| < |items|
    ensures group.id == items[0].value && NoIds(group.fields) && StartsWithId(rest)
    ensures Groups(items) == [group] + Groups(rest)
  {
    var k := FieldCount(items[1..]);
    FieldsAreNoIds(items[1..]);
    assert items[1..1 + k] == items[1..][..k];
    group, rest := Group(items[0].value, items[1..1 + k]), items[1 + k..];
    assert items[0] == Item(ID_PARAM_NAME, items[0].value);
    assert items == [items[0]] + group.fields + rest;
  }

  /** The items before the first id that has no value. */
  function BeforeEmptyId(items: seq<Item>): seq<Item> {
    if items == [] || items[0] == Item(ID_PARAM_NAME, "") then [] else [items[0]] + BeforeEmptyId(items[1..])
  }

  lemma {:induction false} FieldsPassBefore(fields: seq<Item>, rest: seq<Item>)
    requires Item(ID_PARAM_NAME, "") !in fields
    ensures BeforeEmptyId(fields + rest) == fields + BeforeEmptyId(rest)
  {
    if fields == [] {
      assert fields + rest == rest;
    } else {
      assert (fields + rest)[1..] == fields[1..] + rest;
      FieldsPassBefore(fields[1..], rest);
    }
  }

  /** The groups, written out one after the other, are exactly the items up to the first empty id:
      none is lost, repeated or reordered. */
  lemma {:induction false} GroupsConsumeEachItemOnce(items: seq<Item>)
    requires StartsWithId(items)
    ensures Flatten(Groups(items)) == BeforeEmptyId(items)
    decreases |items|
  {
    if items != [] && items[0].value != "" {
      var group, rest := Peel(items);
      GroupsConsumeEachItemOnce(rest);
      FieldsPassBefore(ItemsOf(group), rest);
      assert ([group] + Groups(rest))[1..] == Groups(rest);
    }
  }

  lemma {:induction false} BeforeEmptyIdIsAll(items: seq<Item>)
    ensures BeforeEmptyId(items) == items <==> Item(ID_PARAM_NAME, "") !in items
    ensures |BeforeEmptyId(items)| <= |items|
  {
    if items != [] && items[0] != Item(ID_PARAM_NAME, "") {
      BeforeEmptyIdIsAll(items[1..]);
      assert items == [items[0]] + items[1..];
    }
  }

  /** Reading succeeds exactly when the first line that is neither blank nor an empty id is an id
      line or missing. Every non-blank line then ends up in exactly one place, if and only if no
      id is empty. */
  lemma ReadConsumesEveryLine(lines: seq<string>)
    ensures Read(lines) == None <==> !StartsWithId(SkipEmptyIds(Items(lines)))
    ensures Read(lines).Some? ==>
              (Flatten(Read(lines).value) == Items(lines) <==> Item(ID_PARAM_NAME, "") !in Items(lines))
  {
    var items := Items(lines);
    var rest := SkipEmptyIds(items);
    SkipShortens(items);
    if StartsWithId(rest) {
      GroupsConsumeEachItemOnce(rest);
      BeforeEmptyIdIsAll(rest);
    }
  }

  lemma {:induction false} SkipShortens(items: seq<Item>)
    ensures |SkipEmptyIds(items)| <= |items|
    ensures |SkipEmptyIds(items)| == |items| ==> SkipEmptyIds(items) == items
    ensures Item(ID_PARAM_NAME, "") !in items ==> SkipEmptyIds(items) == items
    ensures |SkipEmptyIds(items)| < |items| ==> Item(ID_PARAM_NAME, "") in items
  {
    if items != [] && items[0] == Item(ID_PARAM_NAME, "") {
      SkipShortens(items[1..]);
    }
  }

  // ---------- printing and reading again ----------

  function Print(groups: seq<Group>): seq<string> {
    PrintItems(Flatten(groups))
  }

  function PrintItems(items: seq<Item>): (lines: seq<string>) {
    if items == [] then [] else [PrintLine(items[0])] + PrintItems(items[1..])
  }

  predicate WellFormedGroup(group: Group) {
    && group.id != "" && Trimmed(group.id)
    && forall f | f in group.fields :: Printable(f) && !IsId(f)
  }

  predicate WellFormed(groups: seq<Group>) {
    forall g | g in groups :: WellFormedGroup(g)
  }

  lemma {:induction false} ItemsOfPrinted(items: seq<Item>)
    requires forall i | i in items :: Printable(i)
    ensures Items(PrintItems(items)) == items
  {
    if items != [] {
      assert items[0] in items;
      LineRoundTrip(items[0]);
      ItemsOfPrinted(items[1..]);
    }
  }

  lemma {:induction false} FlattenPrintable(groups: seq<Group>)
    requires WellFormed(groups)
    ensures forall i | i in Flatten(groups) :: Printable(i) && i != Item(ID_PARAM_NAME, "")
  {
    if groups != [] {
      assert WellFormedGroup(groups[0]);
      FlattenPrintable(groups[1..]);
    }
  }

  lemma {:induction false} FieldCountStops(fields: seq<Item>, rest: seq<Item>)
    requires NoIds(fields) && StartsWithId(rest)
    ensures FieldCount(fields + rest) == |fields|
  {
    if fields == [] {
      assert fields + rest == rest;
    } else {
      assert (fields + rest)[1..] == fields[1..] + rest;
      FieldCountStops(fields[1..], rest);
    }
  }

  lemma GroupsOfFirst(first: Group, rest: seq<Item>)
    requires first.id != "" && NoIds(first.fields) && StartsWithId(rest)
    ensures Groups(ItemsOf(first) + rest) == [first] + Groups(rest)
  {
    var items := ItemsOf(first) + rest;
    FieldCountStops(first.fields, rest);
    assert items[1..] == first.fields + rest;
    assert items[1..1 + |first.fields|] == first.fields;
    assert items[1 + |first.fields|..] == rest;
  }

  lemma {:induction false} GroupsOfFlat(groups: seq<Group>)
    requires WellFormed(groups)
    ensures StartsWithId(Flatten(groups)) && Groups(Flatten(groups)) == groups
  {
    if groups != [] {
      assert WellFormedGroup(groups[0]);
      GroupsOfFlat(groups[1..]);
      GroupsOfFirst(groups[0], Flatten(groups[1..]));
    }
  }

  lemma {:induction false} ItemsPrintable(lines: seq<string>)
    ensures forall i | i in Items(lines) :: Printable(i)
  {
    if lines != [] {
      ParsedIsPrintable(lines[0]);
      ItemsPrintable(lines[1..]);
    }
  }

  lemma {:induction false} SkipIsSuffix(items: seq<Item>)
    ensures forall i | i in SkipEmptyIds(items) :: i in items
  {
    if items != [] && items[0] == Item(ID_PARAM_NAME, "") {
      SkipIsSuffix(items[1..]);
    }
  }

  lemma {:induction false} GroupsWellFormed(items: seq<Item>)
    requires StartsWithId(items) && forall i | i in items :: Printable(i)
    ensures WellFormed(Groups(items))
    decreases |items|
  {
    if items != [] && items[0].value != "" {
      var group, rest := Peel(items);
      assert items[0] in items;
      assert forall i | i in group.fields || i in rest :: i in items;
      GroupsWellFormed(rest);
      assert WellFormedGroup(group);
    }
  }

  /** Whatever was read is well formed. */
  lemma ReadIsWellFormed(lines: seq<string>)
    ensures Read(lines).Some? ==> WellFormed(Read(lines).value)
  {
    var items := SkipEmptyIds(Items(lines));
    ItemsPrintable(lines);
    SkipIsSuffix(Items(lines));
    if StartsWithId(items) {
      GroupsWellFormed(items);
    }
  }

  /** Printing groups as lines and reading them again gives the same groups, exactly when they are
      well formed; so reading, printing and reading is reading once. */
  lemma PrintedGroupsReadBack(groups: seq<Group>)
    ensures Read(Print(groups)) == Some(groups) <==> WellFormed(groups)
  {
    ReadIsWellFormed(Print(groups));
    if WellFormed(groups) {
      FlattenPrintable(groups);
      ItemsOfPrinted(Flatten(groups));
      GroupsOfFlat(groups);
      SkipShortens(Flatten(groups));
    }
  }

  // ---------- one group per id line ----------

  function IdValues(items: seq<Item>): seq<string> {
    if items == [] then []
    else if IsId(items[0]) then [items[0].value] + IdValues(items[1..])
    else IdValues(items[1..])
  }

  lemma {:induction false} IdsPassFields(fields: seq<Item>, rest: seq<Item>)
    requires NoIds(fields)
    ensures IdValues(fields + rest) == IdValues(rest)
  {
    if fields == [] {
      assert fields + rest == rest;
    } else {
      assert (fields + rest)[1..] == fields[1..] + rest;
      IdsPassFields(fields[1..], rest);
    }
  }

  function IdsOf(groups: seq<Group>): seq<string> {
    if groups == [] then [] else [groups[0].id] + IdsOf(groups[1..])
  }

  lemma IdsOfFirst(group: Group, rest: seq<Item>, groups: seq<Group>)
    requires NoIds(group.fields)
    ensures IdValues(ItemsOf(group) + rest) == [group.id] + IdValues(rest)
    ensures IdsOf([group] + groups) == [group.id] + IdsOf(groups)
  {
    IdsPassFields(group.fields, rest);
    assert (ItemsOf(group) + rest)[1..] == group.fields + rest;
    assert ([group] + groups)[1..] == groups;
  }

  /** One group for each id line, in order. */
  lemma {:induction false} OneGroupPerId(items: seq<Item>)
    requires StartsWithId(items) && Item(ID_PARAM_NAME, "") !in items
    ensures IdsOf(Groups(items)) == IdValues(items)
    decreases |items|
  {
    if items != [] {
      assert items[0] == Item(ID_PARAM_NAME, items[0].value) && items[0] in items;
      var group, rest := Peel(items);
      assert Item(ID_PARAM_NAME, "") !in rest;
      OneGroupPerId(rest);
      IdsOfFirst(group, rest, Groups(rest));
    }
  }

  // ---------- what a line says, and which lines say nothing ----------

  /** A line says what is left of it without the white space around it: its name is what stands before
      the first blank, its value the rest after that blank, stripped. */
  lemma LineSays(line: string)
    ensures
      var (text, item) := (Strip(line), ParseLine(line));
      && (item == None <==> text == "")
      && (item.Some? ==>
            && ' ' !in item.value.name
            && ((text == item.value.name && item.value.value == "")
                || exists rest :: text == item.value.name + " " + rest && item.value.value == Strip(rest)))
  {
    var text := Strip(line);
    if text != "" {
      var k := FirstBlank(text);
      NoBlankBefore(text);
      if k < |text| {
        assert [text[k]] == " ";
        assert text == text[..k] + [text[k]] + text[k + 1..];
      } else {
        assert text[..k] == text;
      }
    }
  }

  /** A blank line anywhere makes no difference. */
  lemma {:induction false} BlankLinesSayNothing(before: seq<string>, blank: string, after: seq<string>)
    requires Strip(blank) == ""
    ensures Items(before + [blank] + after) == Items(before + after)
    ensures Read(before + [blank] + after) == Read(before + after)
    decreases |before|
  {
    if before == [] {
      assert [] + [blank] + after == [blank] + after && [] + after == after;
    } else {
      BlankLinesSayNothing(before[1..], blank, after);
      assert (before + [blank] + after)[1..] == before[1..] + [blank] + after;
      assert (before + after)[1..] == before[1..] + after;
    }
  }

  /** The first line that says something decides: an id without a value is passed over, another name
      is an error, and an id opens the first object. */
  lemma FirstLineDecides(line: string, lines: seq<string>)
    requires ParseLine(line).Some?
    ensures
      var item := ParseLine(line).value;
      && (item.name == "id" && item.value == "" ==> Read([line] + lines) == Read(lines))
      && (item.name != "id" ==> Read([line] + lines) == None)
      && (item.name == "id" && item.value != "" ==>
            && Read([line] + lines).Some? && Read([line] + lines).value != []
            && Read([line] + lines).value[0].id == item.value)
  {
    assert ([line] + lines)[1..] == lines;
  }
}
