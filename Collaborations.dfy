/** The sales leads (引合) screen: a filterable, selectable list of leads with an
    add/edit form. The component's state hooks are the fields of one object;
    the handlers are its methods. The filter, option, selection and save
    logic itself is shared with the other list screen and lives in `Facets`. */
module Collaborations {
  import opened Common
  import opened Entries
  import opened Facets

  /** The field the form refuses to save empty. */
  const IdField: string := "引合番号"

  /** The fields with a drop-down filter. */
  const FilterKeys: seq<string> := ["担当", "地域", "代理", "機種", "最終結果", "出荷日(実際）"]

  /** The fields of the blank add form, all `''`. */
  const FormKeys: seq<string> := ["引合番号", "担当", "地域", "代理", "機種", "台数", "顧客情報", "案件発生年月", "访问方式", "訪問回数", "確度", "確度変更", "確度変更理由", "出荷可能時期", "最終結果", "出荷日(実際）", "備考①引合詳細、補充内容", "備考②引合状況変化記録等", "備考③"]

  class CollaborationList {
    var collaborations: seq<Row>
    var view: View
    var editingId: Option<string>
    var currentCollaboration: Fields
    var selectedIds: set<string>
    var filters: map<string, string>

    /** Ids stay unique across every handler. */
    ghost predicate Valid()
      reads this
    {
      UniqueIds(collaborations)
    }

    constructor(collaborations: seq<Row>)
      requires UniqueIds(collaborations)
      ensures Valid()
      ensures this.collaborations == collaborations && view == List && editingId == None
      ensures currentCollaboration == BlankDraft(FormKeys) && selectedIds == {} && filters == map[]
    {
      this.collaborations := collaborations;
      view := List;
      editingId := None;
      currentCollaboration := BlankDraft(FormKeys);
      selectedIds := {};
      filters := map[];
    }

    /** `filteredCollaborations`: the rows every filter lets through, in list order. */
    function FilteredCollaborations(): (r: seq<Row>)
      reads this
      ensures SubSeq(r, collaborations)
      ensures forall e :: e in r <==> e in collaborations && Passes(filters, e.data)
    {
      Filtered(collaborations, filters)
    }

    /** `filterOptions`: one option list per filter key. */
    method FilterOptions(less: (string, string) -> bool) returns (options: map<string, seq<string>>)
      ensures forall k :: k in options <==> k in FilterKeys
      ensures forall k :: k in options ==> options[k] == Options(collaborations, filters, k, less)
    {
      options := BuildOptions(collaborations, filters, FilterKeys, less);
    }

    method HandleFilterChange(key: string, value: string)
      modifies this
      ensures filters == old(filters)[key := value]
      ensures collaborations == old(collaborations) && selectedIds == old(selectedIds)
      ensures view == old(view) && editingId == old(editingId) && currentCollaboration == old(currentCollaboration)
    {
      filters := filters[key := value];
    }

    /** After a reset the list shows every row. */
    method ResetFilters()
      modifies this
      ensures filters == map[] && FilteredCollaborations() == collaborations
      ensures collaborations == old(collaborations) && selectedIds == old(selectedIds)
      ensures view == old(view) && editingId == old(editingId) && currentCollaboration == old(currentCollaboration)
    {
      filters := map[];
      NoFiltersShowsAll(collaborations);
    }

    method HandleSelect(id: string)
      modifies this
      ensures selectedIds == Toggle(old(selectedIds), id)
      ensures collaborations == old(collaborations) && filters == old(filters)
      ensures view == old(view) && editingId == old(editingId) && currentCollaboration == old(currentCollaboration)
    {
      selectedIds := Toggle(selectedIds, id);
    }

    /** The header checkbox: checked selects exactly the ids of the rows
        shown, unchecked clears the selection. */
    method HandleSelectAll(checked: bool)
      modifies this
      ensures checked ==> selectedIds == Ids(FilteredCollaborations())
      ensures !checked ==> selectedIds == {}
      ensures collaborations == old(collaborations) && filters == old(filters)
      ensures view == old(view) && editingId == old(editingId) && currentCollaboration == old(currentCollaboration)
    {
      if checked {
        selectedIds := IdSet(Filtered(collaborations, filters));
      } else {
        selectedIds := {};
      }
    }

    method OpenAddView()
      modifies this
      ensures editingId == None && currentCollaboration == BlankDraft(FormKeys) && view == Edit
      ensures collaborations == old(collaborations) && selectedIds == old(selectedIds) && filters == old(filters)
    {
      editingId := None;
      currentCollaboration := BlankDraft(FormKeys);
      view := Edit;
    }

    /** The form starts from the row's data; its id is kept aside. */
    method OpenEditView(row: Row)
      modifies this
      ensures editingId == Some(row.id) && currentCollaboration == row.data && view == Edit
      ensures collaborations == old(collaborations) && selectedIds == old(selectedIds) && filters == old(filters)
    {
      editingId := Some(row.id);
      currentCollaboration := row.data;
      view := Edit;
    }

    /** `handleSubmit`: refused while `引合番号` is empty; otherwise the
        draft replaces the edited row or is appended under `freshId`, and
        the list view returns. `freshId` stands for `crypto.randomUUID()`. */
    method HandleSubmit(freshId: string)
      requires Valid() && freshId !in Ids(collaborations)
      modifies this
      ensures Valid()
      ensures FieldOf(currentCollaboration, IdField) == "" ==> collaborations == old(collaborations) && view == old(view)
      ensures FieldOf(currentCollaboration, IdField) != "" ==> collaborations == Saved(old(collaborations), currentCollaboration, editingId, freshId) && view == List
      ensures editingId == old(editingId) && currentCollaboration == old(currentCollaboration)
      ensures selectedIds == old(selectedIds) && filters == old(filters)
    {
      if FieldOf(currentCollaboration, IdField) == "" {
        return;
      }
      var draft := currentCollaboration;
      if Truthy(editingId) {
        collaborations := Update(collaborations, editingId.value, (_: Fields) => draft);
      } else {
        collaborations := collaborations + [Entry(freshId, draft)];
      }
      SavedKeepsUnique(old(collaborations), draft, editingId, freshId);
      view := List;
    }

    /** `handleDeleteSelected`: nothing happens with an empty selection or
        when the user declines; otherwise the selected rows go, the others
        stay in order, and the selection is cleared. */
    method HandleDeleteSelected(confirmed: bool)
      requires Valid()
      modifies this
      ensures Valid()
      ensures old(selectedIds) != {} && confirmed ==> collaborations == Without(old(collaborations), old(selectedIds)) && selectedIds == {}
      ensures old(selectedIds) == {} || !confirmed ==> collaborations == old(collaborations) && selectedIds == old(selectedIds)
      ensures filters == old(filters) && view == old(view) && editingId == old(editingId) && currentCollaboration == old(currentCollaboration)
    {
      if |selectedIds| == 0 {
        return;
      }
      if confirmed {
        WithoutKeepsUnique(collaborations, selectedIds);
        collaborations := Without(collaborations, selectedIds);
        selectedIds := {};
      }
    }
  }
}
