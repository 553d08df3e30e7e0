/** The master-data tabs other than the importer: the personnel manager
    (with its tag input for the regions a person covers) and the generic
    manager used for agents, products and customers. */
module Managers {
  import opened Common
  import opened Entries
  import CsvCodec

  datatype Person = Person(name: string, position: string, area: seq<string>, birthdate: string)

  type PersonEntry = Entry<Person>

  /** An agent, product or customer: a record of named text fields. */
  type Item = Entry<map<string, string>>

  const BlankPerson := Person("", "", [], "")

  /** The tag input's `handleAdd`: a non-empty value not yet present goes at
      the end; anything else leaves the tags alone. */
  function AddTag(tags: seq<string>, newValue: string): (r: seq<string>)
    ensures |tags| <= |r| <= |tags| + 1 && r[..|tags|] == tags
    ensures forall t :: t in r <==> t in tags || (t == newValue && newValue != "")
    ensures newValue == "" || newValue in tags ==> r == tags
    ensures newValue != "" && newValue !in tags ==> r == tags + [newValue]
  {
    if newValue != "" && newValue !in tags then tags + [newValue] else tags
  }

  /** The tag input's `handleRemove`: every copy of the tag goes, the rest
      keep their order. */
  function RemoveTag(tags: seq<string>, tag: string): (r: seq<string>)
    ensures forall t :: t in r <==> t in tags && t != tag
    ensures SubSeq(r, tags)
    ensures forall t :: multiset(r)[t] == if t == tag then 0 else multiset(tags)[t]
  {
    var other := (t: string) => t != tag;
    KeepShape(tags, other);
    Keep(tags, other)
  }

  /** Adding keeps the tags free of duplicates and of `''`. */
  lemma AddTagKeepsDistinct(tags: seq<string>, newValue: string)
    requires NoDuplicates(tags) && "" !in tags
    ensures NoDuplicates(AddTag(tags, newValue)) && "" !in AddTag(tags, newValue)
  {
    if newValue != "" && newValue !in tags {
      assert multiset(tags + [newValue]) == multiset(tags) + multiset{newValue};
    }
  }

  /** Removing a tag just added restores the tags. */
  lemma RemoveUndoesAdd(tags: seq<string>, newValue: string)
    requires newValue != "" && newValue !in tags
    ensures RemoveTag(AddTag(tags, newValue), newValue) == tags
  {
    var p := (t: string) => t != newValue;
    KeepAll(tags, p);
    KeepSnoc(tags, newValue, p);
  }

  /** `PersonnelManager.handleSave` past the open modal: unchanged without a
      name; otherwise the form replaces the edited person under that
      person's id, or is appended under a fresh id. */
  function SavePerson(personnel: seq<PersonEntry>, current: Person, editingItem: Option<PersonEntry>, freshId: string): (r: seq<PersonEntry>)
    ensures current.name == "" ==> r == personnel
    ensures current.name != "" && editingItem.Some? ==> |r| == |personnel| && forall i :: 0 <= i < |personnel| ==>
      r[i] == (if personnel[i].id == editingItem.value.id then Entry(editingItem.value.id, current) else personnel[i])
    ensures current.name != "" && editingItem.None? ==>
      |r| == |personnel| + 1 && r[..|personnel|] == personnel && r[|personnel|] == Entry(freshId, current)
  {
    if current.name == "" then personnel
    else if editingItem.Some? then Update(personnel, editingItem.value.id, (_: Person) => current)
    else personnel + [Entry(freshId, current)]
  }

  /** `CrudManager.handleSave`: there is no guard. An edit puts the form
      (a copy of the edited item's fields) in place of the item with that
      id; an add appends it under a fresh id. */
  function SaveItem(items: seq<Item>, current: map<string, string>, editingItem: Option<Item>, freshId: string): (r: seq<Item>)
    ensures editingItem.Some? ==> |r| == |items| && forall i :: 0 <= i < |items| ==>
      r[i] == (if items[i].id == editingItem.value.id then Entry(editingItem.value.id, current) else items[i])
    ensures editingItem.None? ==> |r| == |items| + 1 && r[..|items|] == items && r[|items|] == Entry(freshId, current)
  {
    if editingItem.Some? then Update(items, editingItem.value.id, (_: map<string, string>) => current)
    else items + [Entry(freshId, current)]
  }

  /** Saving a person keeps ids unique when an added person's id is fresh. */
  lemma SavePersonKeepsIdsUnique(personnel: seq<PersonEntry>, current: Person, editingItem: Option<PersonEntry>, freshId: string)
    requires UniqueIds(personnel) && freshId !in Ids(personnel)
    ensures UniqueIds(SavePerson(personnel, current, editingItem, freshId))
  {
    if current.name != "" {
      if editingItem.Some? {
        UpdateKeepsIds(personnel, editingItem.value.id, (_: Person) => current);
      } else {
        AppendFresh(personnel, Entry(freshId, current));
      }
    }
  }

  /** Saving an item keeps ids unique when an added item's id is fresh. */
  lemma SaveItemKeepsIdsUnique(items: seq<Item>, current: map<string, string>, editingItem: Option<Item>, freshId: string)
    requires UniqueIds(items) && freshId !in Ids(items)
    ensures UniqueIds(SaveItem(items, current, editingItem, freshId))
  {
    if editingItem.Some? {
      UpdateKeepsIds(items, editingItem.value.id, (_: map<string, string>) => current);
    } else {
      AppendFresh(items, Entry(freshId, current));
    }
  }

  class PersonnelManager {
    var personnel: seq<PersonEntry>
    var isModalOpen: bool
    var editingItem: Option<PersonEntry>
    var currentItem: Person
    /** The tag input's text box. The tag input is declared inside the
        manager, so every change of the manager's state remounts it with
        an empty box. */
    var inputValue: string

    ghost predicate Valid()
      reads this
    {
      UniqueIds(personnel)
    }

    constructor(personnel: seq<PersonEntry>)
      requires UniqueIds(personnel)
      ensures Valid() && this.personnel == personnel
      ensures !isModalOpen && editingItem == None && currentItem == BlankPerson && inputValue == ""
    {
      this.personnel := personnel;
      isModalOpen := false;
      editingItem := None;
      currentItem := BlankPerson;
      inputValue := "";
    }

    /** Opens the form on a person, or on a blank form. */
    method HandleOpenModal(item: Option<PersonEntry>)
      modifies this
      ensures editingItem == item && isModalOpen
      ensures currentItem == (if item.Some? then item.value.data else BlankPerson)
      ensures personnel == old(personnel) && inputValue == ""
    {
      editingItem := item;
      currentItem := if item.Some? then item.value.data else BlankPerson;
      isModalOpen := true;
      inputValue := "";
    }

    /** `handleSave`; `freshId` stands for `crypto.randomUUID()`. Without a
        name nothing changes and the modal stays open. */
    method HandleSave(freshId: string)
      requires Valid() && freshId !in Ids(personnel)
      modifies this
      ensures Valid()
      ensures personnel == SavePerson(old(personnel), currentItem, editingItem, freshId)
      ensures isModalOpen == (old(isModalOpen) && currentItem.name == "")
      ensures editingItem == old(editingItem) && currentItem == old(currentItem)
      ensures inputValue == (if currentItem.name == "" then old(inputValue) else "")
    {
      SavePersonKeepsIdsUnique(personnel, currentItem, editingItem, freshId);
      if currentItem.name == "" {
        return;
      }
      var current := currentItem;
      if editingItem.Some? {
        personnel := Update(personnel, editingItem.value.id, (_: Person) => current);
      } else {
        personnel := personnel + [Entry(freshId, current)];
      }
      isModalOpen := false;
      inputValue := "";
    }

    /** The delete button of a row. */
    method HandleDelete(id: string)
      requires Valid()
      modifies this
      ensures Valid()
      ensures personnel == Without(old(personnel), {id})
      ensures isModalOpen == old(isModalOpen) && editingItem == old(editingItem)
      ensures currentItem == old(currentItem) && inputValue == ""
    {
      WithoutKeepsUnique(personnel, {id});
      personnel := Without(personnel, {id});
      inputValue := "";
    }

    /** The tag input's `handleAdd`: the regions of the form grow by the
        value, and the text box is cleared either way. */
    method HandleAdd(newValue: string)
      modifies this
      ensures currentItem == old(currentItem).(area := AddTag(old(currentItem).area, newValue))
      ensures inputValue == ""
      ensures personnel == old(personnel) && isModalOpen == old(isModalOpen) && editingItem == old(editingItem)
    {
      if newValue != "" && newValue !in currentItem.area {
        currentItem := currentItem.(area := currentItem.area + [newValue]);
      }
      inputValue := "";
    }

    /** The tag input's `handleRemove`. */
    method HandleRemove(tag: string)
      modifies this
      ensures currentItem == old(currentItem).(area := RemoveTag(old(currentItem).area, tag))
      ensures inputValue == ""
      ensures personnel == old(personnel) && isModalOpen == old(isModalOpen) && editingItem == old(editingItem)
    {
      currentItem := currentItem.(area := RemoveTag(currentItem.area, tag));
      inputValue := "";
    }

    /** Enter or a comma adds the trimmed text as a region; other keys do
        nothing here. */
    method HandleKeyDown(key: string)
      modifies this
      ensures key == "Enter" || key == "," ==>
        currentItem == old(currentItem).(area := AddTag(old(currentItem).area, CsvCodec.Trim(old(inputValue)))) && inputValue == ""
      ensures key != "Enter" && key != "," ==> currentItem == old(currentItem) && inputValue == old(inputValue)
      ensures personnel == old(personnel) && isModalOpen == old(isModalOpen) && editingItem == old(editingItem)
    {
      if key == "Enter" || key == "," {
        HandleAdd(CsvCodec.Trim(inputValue));
      }
    }
  }

  class CrudManager {
    var items: seq<Item>
    var isModalOpen: bool
    var editingItem: Option<Item>
    var currentItem: map<string, string>
    /** The blank form of this kind of item. */
    const initialState: map<string, string>

    ghost predicate Valid()
      reads this
    {
      UniqueIds(items)
    }

    constructor(items: seq<Item>, initialState: map<string, string>)
      requires UniqueIds(items)
      ensures Valid() && this.items == items && this.initialState == initialState
      ensures !isModalOpen && editingItem == None && currentItem == initialState
    {
      this.items := items;
      this.initialState := initialState;
      isModalOpen := false;
      editingItem := None;
      currentItem := initialState;
    }

    /** Opens the form on a copy of an item, or on the blank form. */
    method HandleOpenModal(item: Option<Item>)
      modifies this
      ensures editingItem == item && isModalOpen
      ensures currentItem == (if item.Some? then item.value.data else initialState)
      ensures items == old(items)
    {
      editingItem := item;
      currentItem := if item.Some? then item.value.data else initialState;
      isModalOpen := true;
    }

    /** `handleSave`; `freshId` stands for `crypto.randomUUID()`. */
    method HandleSave(freshId: string)
      requires Valid() && freshId !in Ids(items)
      modifies this
      ensures Valid()
      ensures items == SaveItem(old(items), currentItem, editingItem, freshId)
      ensures !isModalOpen
      ensures editingItem == old(editingItem) && currentItem == old(currentItem)
    {
      SaveItemKeepsIdsUnique(items, currentItem, editingItem, freshId);
      var current := currentItem;
      if editingItem.Some? {
        items := Update(items, editingItem.value.id, (_: map<string, string>) => current);
      } else {
        items := items + [Entry(freshId, current)];
      }
      isModalOpen := false;
    }

    /** The delete button of a row. */
    method HandleDelete(id: string)
      requires Valid()
      modifies this
      ensures Valid()
      ensures items == Without(old(items), {id})
      ensures isModalOpen == old(isModalOpen) && editingItem == old(editingItem) && currentItem == old(currentItem)
    {
      WithoutKeepsUnique(items, {id});
      items := Without(items, {id});
    }
  }
}
