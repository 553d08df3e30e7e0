/** The contracts (契約) screen: a filterable, selectable list of contracts with an
    add/edit form. The component's state hooks are the fields of one object;
    the handlers are its methods. The filter, option, selection and save
    logic itself is shared with the other list screen and lives in `Facets`. */
module Contracts {
  import opened Common
  import opened Entries
  import opened Facets

  /** The field the form refuses to save empty. */
  const IdField: string := "契約書NO"

  /** The fields with a drop-down filter. */
  const FilterKeys: seq<string> := ["担当", "代理名称", "機種", "契約状態"]

  /** The fields of the blank add form, all `''`. */
  const FormKeys: seq<string> := ["担当", "機種", "区分", "機号", "契約日", "代理名称", "契約状態", "契約書NO", "出荷指示書№", "契約日付", "単価", "台数", "割賦時間", "備考①", "備考②"]

  class ContractList {
    var contracts: seq<Row>
    var view: View
    var editingId: Option<string>
    var currentContract: Fields
    var selectedIds: set<string>
    var filters: map<string, string>

    /** Ids stay unique across every handler. */
    ghost predicate Valid()
      reads this
    {
      UniqueIds(contracts)
    }

    constructor(contracts: seq<Row>)
      requires UniqueIds(contracts)
      ensures Valid()
      ensures this.contracts == contracts && view == List && editingId == None
      ensures currentContract == BlankDraft(FormKeys) && selectedIds == {} && filters == map[]
    {
      this.contracts := contracts;
      view := List;
      editingId := None;
      currentContract := BlankDraft(FormKeys);
      selectedIds := {};
      filters := map[];
    }

    /** `filteredContracts`: the rows every filter lets through, in list order. */
    function FilteredContracts(): (r: seq<Row>)
      reads this
      ensures SubSeq(r, contracts)
      ensures forall e :: e in r <==> e in contracts && Passes(filters, e.data)
    {
      Filtered(contracts, filters)
    }

    /** `filterOptions`: one option list per filter key. */
    method FilterOptions(less: (string, string) -> bool) returns (options: map<string, seq<string>>)
      ensures forall k :: k in options <==> k in FilterKeys
      ensures forall k :: k in options ==> options[k] == Options(contracts, filters, k, less)
    {
      options := BuildOptions(contracts, filters, FilterKeys, less);
    }

    method HandleFilterChange(key: string, value: string)
      modifies this
      ensures filters == old(filters)[key := value]
      ensures contracts == old(contracts) && selectedIds == old(selectedIds)
      ensures view == old(view) && editingId == old(editingId) && currentContract == old(currentContract)
    {
      filters := filters[key := value];
    }

    /** After a reset the list shows every row. */
    method ResetFilters()
      modifies this
      ensures filters == map[] && FilteredContracts() == contracts
      ensures contracts == old(contracts) && selectedIds == old(selectedIds)
      ensures view == old(view) && editingId == old(editingId) && currentContract == old(currentContract)
    {
      filters := map[];
      NoFiltersShowsAll(contracts);
    }

    method HandleSelect(id: string)
      modifies this
      ensures selectedIds == Toggle(old(selectedIds), id)
      ensures contracts == old(contracts) && filters == old(filters)
      ensures view == old(view) && editingId == old(editingId) && currentContract == old(currentContract)
    {
      selectedIds := Toggle(selectedIds, id);
    }

    /** The header checkbox: checked selects exactly the ids of the rows
        shown, unchecked clears the selection. */
    method HandleSelectAll(checked: bool)
      modifies this
      ensures checked ==> selectedIds == Ids(FilteredContracts())
      ensures !checked ==> selectedIds == {}
      ensures contracts == old(contracts) && filters == old(filters)
      ensures view == old(view) && editingId == old(editingId) && currentContract == old(currentContract)
    {
      if checked {
        selectedIds := IdSet(Filtered(contracts, filters));
      } else {
        selectedIds := {};
      }
    }

    method OpenAddView()
      modifies this
      ensures editingId == None && currentContract == BlankDraft(FormKeys) && view == Edit
      ensures contracts == old(contracts) && selectedIds == old(selectedIds) && filters == old(filters)
    {
      editingId := None;
      currentContract := BlankDraft(FormKeys);
      view := Edit;
    }

    /** The form starts from the row's data; its id is kept aside. */
    method OpenEditView(row: Row)
      modifies this
      ensures editingId == Some(row.id) && currentContract == row.data && view == Edit
      ensures contracts == old(contracts) && selectedIds == old(selectedIds) && filters == old(filters)
    {
      editingId := Some(row.id);
      currentContract := row.data;
      view := Edit;
    }

    /** `handleSubmit`: refused while `契約書NO` is empty; otherwise the
        draft replaces the edited row or is appended under `freshId`, and
        the list view returns. `freshId` stands for `crypto.randomUUID()`. */
    method HandleSubmit(freshId: string)
      requires Valid() && freshId !in Ids(contracts)
      modifies this
      ensures Valid()
      ensures FieldOf(currentContract, IdField) == "" ==> contracts == old(contracts) && view == old(view)
      ensures FieldOf(currentContract, IdField) != "" ==> contracts == Saved(old(contracts), currentContract, editingId, freshId) && view == List
      ensures editingId == old(editingId) && currentContract == old(currentContract)
      ensures selectedIds == old(selectedIds) && filters == old(filters)
    {
      if FieldOf(currentContract, IdField) == "" {
        return;
      }
      var draft := currentContract;
      if Truthy(editingId) {
        contracts := Update(contracts, editingId.value, (_: Fields) => draft);
      } else {
        contracts := contracts + [Entry(freshId, draft)];
      }
      SavedKeepsUnique(old(contracts), draft, editingId, freshId);
      view := List;
    }

    /** `handleDeleteSelected`: nothing happens with an empty selection or
        when the user declines; otherwise the selected rows go, the others
        stay in order, and the selection is cleared. */
    method HandleDeleteSelected(confirmed: bool)
      requires Valid()
      modifies this
      ensures Valid()
      ensures old(selectedIds) != {} && confirmed ==> contracts == Without(old(contracts), old(selectedIds)) && selectedIds == {}
      ensures old(selectedIds) == {} || !confirmed ==> contracts == old(contracts) && selectedIds == old(selectedIds)
      ensures filters == old(filters) && view == old(view) && editingId == old(editingId) && currentContract == old(currentContract)
    {
      if |selectedIds| == 0 {
        return;
      }
      if confirmed {
        WithoutKeepsUnique(contracts, selectedIds);
        contracts := Without(contracts, selectedIds);
        selectedIds := {};
      }
    }
  }
}
