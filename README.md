# Business administration dashboard: verified model of its core

This project models the core of a browser-local business administration
dashboard written in React and TypeScript, in Dafny. The dashboard keeps lists of
business trips, meetings, sales leads ("collaborations"), contracts, and
master data (personnel, agents, products, customers). Its screens edit those
lists in place. The master-data screen also exports lists as CSV and imports
CSV files into them.

The model covers:

- **The CSV codec** (`CsvCodec.dfy`).
  - The tokenizer `parseCSV` is a character scanner specified by a pure
    step function (`Step`/`Run`/`Parse`). `ParseCsv` is the imperative
    loop of the source, proved equal to `Parse`.
  - The exporter (`escapeCSVValue` and the line assembly of `exportToCSV`)
    is modelled as `ExportText`.
  - `ExportRoundTrip` proves that parsing an export gives back the headers
    and the cells, under the conditions that make this true.
- **The importer** (`Importer.dfy`): `DataImporter.handleImport`.
  - The schemas of the five importable lists are modelled, with the header
    map, the missing-column check and the per-cell checks.
  - An import is all or nothing, with the first-ten error report and the
    feedback messages.
  - Each check is a loop method proved against a specification function.
    The properties are lemmas about those functions.
- **Faceted filtering and selection** (`Facets.dfy`, `Collaborations.dfy`,
  `Contracts.dfy`).
  - The filter predicate with its empty-value sentinel is modelled, along
    with the drop-down options that ignore their own filter, the sorted
    distinct option values, the checkbox selection, select-all, and delete
    of the selection.
  - The two list screens are classes whose methods update the same state
    as the source's `useState` hooks.
- **The create/update/delete screens.**
  - `BusinessTrips.dfy`: trips, with the report that completes a trip.
  - `Meetings.dfy`: meetings.
  - `Dashboard.dfy`: the quick links.
  - `Managers.dfy`: the personnel manager with its region tag input, and
    the generic manager for agents, products and customers. The tag input
    is declared inside the personnel manager, so each change of the
    manager's state remounts it and empties its text box.

  Each screen is a class, and its handlers are methods. Each handler's new
  list is given by a function, and lemmas about those functions prove the
  following:
  - ids stay unique;
  - a completed trip is never reopened;
  - removing a tag undoes adding it;
  - deleting a link just added restores the links.

Shared pieces:

- `Common.dfy`: the `Option` type, JavaScript truthiness of an optional
  string, and the order-preserving filter `Keep` with its lemmas.
- `Entries.dfy`: records with an `id`, the `map` that replaces the record
  with an id, and the `filter` that deletes ids, with their id lemmas.

Inputs the source obtains from the environment are parameters of the model:

- `crypto.randomUUID()` is a `freshId`, or a sequence `ids` of distinct
  fresh ids;
- `window.confirm` is a boolean;
- `localeCompare` is a comparison `less`;
- `!isNaN(Number(v))` is a predicate `isNumber`;
- the text of the chosen file is a `string`.

### Edge cases of the importer

- **Files with fewer than two rows.** A file holding only a header row
  imports nothing and reports success (`Importer.HeaderOnlyFile`). A file
  that parses to no row at all makes `header.forEach` throw. The model
  excludes that case by a precondition.
- **Short rows.** `handleImport` does not compare a row's length with the
  header's: a short row reads `''` for the cells it lacks
  (`Importer.CellValue`).
- **Numeric fields.** A numeric field is only checked with
  `isNaN(Number(v))`. The record stores the trimmed string, not a number.
- **Missing columns.** Each missing required column gives an error of its
  own.
- **The error list.** When rows fail, the message gives the total count and
  the first ten errors, with nothing marking that more were left out.

## Model

| member | source | states |
|---|---|---|
| CsvCodec.Trim | components/MasterData.tsx:64 | The result has no white space at either end, is no longer than the input, and a string already trimmed is returned unchanged |
| CsvCodec.TrimStripsEnds | components/MasterData.tsx:64 | The trimmed text is a slice of the input with only white space before and after it, so white space is removed at the two ends and nowhere else |
| CsvCodec.ReadChar | components/MasterData.tsx:48-76 | One turn of the loop reads one character, or two for `""` inside quotes and for CRLF, and leaves the tokenizer where reading the same characters one at a time leaves it |
| CsvCodec.ParseCsv | components/MasterData.tsx:42-84 | The character loop (quotes, `""`, commas, line breaks with the look-behind and the CRLF skip, the final field, the blank-row filter) returns exactly `Parse(text)` |
| CsvCodec.ParsedRowsClean | components/MasterData.tsx:63-83 | Every parsed field is trimmed, and no parsed row is empty or a single empty field |
| CsvCodec.BreaksEndOneRow | components/MasterData.tsx:66-73 | Outside quotes, a CRLF pair or any run of line breaks ends the current row once, exactly as a single break does |
| CsvCodec.LeadingBreaksIgnored | components/MasterData.tsx:66-73 | Line breaks at the start of the text produce no row: parsing is the same as without them |
| CsvCodec.TrimAfterMark | components/MasterData.tsx:27 | A byte-order mark in front of a trimmed first field disappears when the field is trimmed |
| CsvCodec.EscapedFieldScans | components/MasterData.tsx:9-19 | Scanning an escaped field appends exactly the original field to the current value: quoting and doubled quotes are undone |
| CsvCodec.ParseLines | components/MasterData.tsx:21-28 | Portable rows joined with line feeds, with or without the byte-order mark, parse back to the same rows |
| CsvCodec.PlainHeadersUnchanged | components/MasterData.tsx:22 | Headers that need no quoting are written as they are, so the unescaped header line equals the escaped one |
| CsvCodec.LinesScan | components/MasterData.tsx:42-84 | Reading portable lines joined by line feeds stores every line but the last as a row and leaves the last pending, field for field |
| CsvCodec.ExportRoundTrip | components/MasterData.tsx:8-84 | Parsing an export yields the header row followed by each record's cells in header order, provided that no header needs quoting, that cells have no edge white space and no unquoted `\r`, and that no line is blank |
| Importer.HeaderMap | components/MasterData.tsx:127-128 | Every trimmed header cell is a key mapped to a column holding that name, and a repeated name maps to its last column |
| Importer.CellValue | components/MasterData.tsx:149 | The cell is trimmed, is `''` when the column is absent or the row too short, and is otherwise the trimmed cell under that header |
| Importer.MissingColumns | components/MasterData.tsx:130-135 | A header error is reported for a column exactly when the column is required and absent from the header map |
| Importer.MissingColumnsOnce | components/MasterData.tsx:130-135 | With distinct schema headers, each missing column is reported once |
| Importer.MissingColumnReported | components/MasterData.tsx:127-135 | A required column is reported missing exactly when no trimmed header cell names it |
| Importer.HeaderCheckedFirst | components/MasterData.tsx:131-141 | The import stops at the header check exactly when some required column is missing, before any row is examined |
| Importer.RowProblemsExact | components/MasterData.tsx:147-160 | A row has an "empty" error under a header exactly when that column is required and its cell empty, and a "number" error exactly when it is numeric with a non-empty, non-numeric cell; every error carries the row's line |
| Importer.ProblemLinesInRange | components/MasterData.tsx:145-161 | Row errors carry line numbers from 2 to the number of data rows plus 1, so the header is line 1 |
| Importer.RecordShape | components/MasterData.tsx:146-158 | A record maps exactly the schema headers, each to its trimmed cell |
| Importer.AcceptedAll | components/MasterData.tsx:143-161 | Without row errors every data row yields a record, in row order, with the row's fresh id |
| Importer.ImportRows | components/MasterData.tsx:119-180 | A header rejection lists exactly the missing-column errors, at least one. A row rejection reports as its total the number of row errors found, which is positive, and lists the first `min(10, total)` of them in order |
| Importer.ImportAllOrNothing | components/MasterData.tsx:143-176 | The import succeeds exactly when there are no header and no row errors. Then the previous list is kept as a prefix, followed by one record per data row in order; otherwise nothing is added |
| Importer.HeaderOnlyFile | components/MasterData.tsx:119-180 | A file holding only a valid header row succeeds and adds no record |
| Importer.ImportKeepsIdsUnique | components/MasterData.tsx:145-176 | With distinct fresh ids, the list after a successful import has unique ids |
| Importer.BuildHeaderMap | components/MasterData.tsx:127-128 | The header loop builds exactly `HeaderMap(header)` |
| Importer.FindMissing | components/MasterData.tsx:130-135 | The schema loop collects exactly `MissingColumns` |
| Importer.CheckCell | components/MasterData.tsx:150-157 | The two checks on one cell give exactly its errors |
| Importer.CheckRow | components/MasterData.tsx:145-160 | The schema loop over one row yields exactly the row's errors and its record |
| Importer.CheckRows | components/MasterData.tsx:143-161 | The loop over the data rows yields all row errors in order and the records of the rows without errors |
| Importer.RunImport | components/MasterData.tsx:124-175 | The body of the import after parsing computes exactly `ImportRows` |
| Importer.ImportText | components/MasterData.tsx:119-175 | Parsing the file text and importing it computes `ImportRows` of the parsed rows |
| Importer.Decimal | components/MasterData.tsx:151 | A line or count is shown as decimal digits without a leading zero |
| Importer.DecimalRoundTrip | components/MasterData.tsx:151 | Reading the shown digits back gives the number |
| Importer.FeedbackOf | components/MasterData.tsx:137-179 | The feedback reports success exactly when the rows were imported |
| Importer.DataImporter.constructor | components/MasterData.tsx:108-111 | The importer starts on collaborations, with no file, not loading, and no feedback |
| Importer.DataImporter.Conclude | components/MasterData.tsx:137-179 | On success the chosen list becomes the imported list and the file is cleared; on either outcome the matching feedback is shown and loading ends, and nothing else changes |
| Importer.DataImporter.HandleImport | components/MasterData.tsx:113-180 | With no file, only the "choose a file" error is shown. Otherwise the list of the chosen type becomes the import's list on success and stays as it was on failure, the feedback matches the outcome, loading ends, and the file is cleared only on success |
| Common.Keep | components/Collaborations.tsx:56 | The order-preserving filter keeps exactly the elements satisfying the predicate |
| Common.KeepShape | components/Collaborations.tsx:56 | The filter's result is a subsequence, and its multiset is contained in the input's |
| Entries.Update | components/Collaborations.tsx:137 | The record with the id gets the new data, and every other record is unchanged, in place |
| Entries.Without | components/Collaborations.tsx:147 | Deleting keeps, in order, exactly the records whose id is not deleted, so the remaining ids are the old ids minus the deleted ones |
| Entries.UpdateKeepsIds | components/Collaborations.tsx:137 | Replacing by id keeps the sequence of ids, hence their uniqueness |
| Entries.WithoutKeepsUnique | components/Collaborations.tsx:147 | Deleting keeps ids unique |
| Facets.Filtered | components/Collaborations.tsx:55-65 | The shown rows are an order-preserving sub-list holding exactly the rows that pass every filter |
| Facets.Relevant | components/Collaborations.tsx:67-87 | A drop-down's rows are an order-preserving sub-list holding exactly the rows that pass every other filter |
| Facets.NoFiltersShowsAll | components/Collaborations.tsx:94 | After reset (no filters) the whole list is shown |
| Facets.BlankFilterIgnored | components/Collaborations.tsx:58 | A filter set to `''` is the same as no filter on that key |
| Facets.SingleFilterMeaning | components/Collaborations.tsx:58-62 | The empty-value sentinel shows exactly the rows whose field is empty or missing, and any other value shows exactly the rows whose field equals it |
| Facets.OptionsIgnoreOwnFilter | components/Collaborations.tsx:69-78 | A drop-down's options do not depend on its own chosen value, and equal those of the list filtered by the other filters |
| Facets.Values | components/Collaborations.tsx:79 | Each row contributes its field value, `''` when missing |
| Facets.ValuesMembership | components/Collaborations.tsx:79 | A value is among the mapped values exactly when some row carries it |
| Facets.Distinct | components/Collaborations.tsx:79 | The deduplicated values have no repeats and the same members |
| Facets.SortOptions | components/Collaborations.tsx:80-84 | Sorting permutes the values and puts `''` first |
| Facets.SortOrdered | components/Collaborations.tsx:80-84 | Under a total comparison, the sorted distinct values are in order |
| Facets.OptionsShape | components/Collaborations.tsx:67-87 | The options have no repeats, hold exactly the field values of the relevant rows, start with `''` when it occurs, and are ordered when the comparison is total |
| Facets.BuildOptions | components/Collaborations.tsx:67-87 | The loop over the filter keys yields an option list for exactly those keys, each equal to `Options` |
| Facets.Toggle | components/Collaborations.tsx:96-103 | Selecting flips membership of the id and leaves every other id as it was |
| Facets.ToggleTwice | components/Collaborations.tsx:96-103 | Toggling twice restores the selection |
| Facets.IdSet | components/Collaborations.tsx:107 | Select-all selects exactly the ids of the shown rows |
| Facets.SelectAllDeletesShown | components/Collaborations.tsx:105-111 | With unique ids, selecting all and deleting leaves exactly the rows the filters hide |
| Facets.Saved | components/Collaborations.tsx:131-142 | An edit replaces, in place, the rows with the edited id by the draft; an add appends the draft under a fresh id |
| Facets.SavedKeepsUnique | components/Collaborations.tsx:131-142 | Saving keeps ids unique when an added row's id is fresh |
| Facets.BlankDraft | components/Collaborations.tsx:113-117 | The add form's draft has exactly the form's keys, all `''` |
| Collaborations.CollaborationList.constructor | components/Collaborations.tsx:49-53 | The screen starts on the list view with no selection, no filters and no row being edited |
| Collaborations.CollaborationList.FilteredCollaborations | components/Collaborations.tsx:55-65 | The shown rows are exactly the rows of the list that pass the filters, in list order |
| Collaborations.CollaborationList.FilterOptions | components/Collaborations.tsx:67-87 | The options exist for exactly the six filter keys, each given by `Options` |
| Collaborations.CollaborationList.HandleFilterChange | components/Collaborations.tsx:90-92 | One filter is set to the value and nothing else changes |
| Collaborations.CollaborationList.ResetFilters | components/Collaborations.tsx:94 | The filters are cleared, so the whole list is shown |
| Collaborations.CollaborationList.HandleSelect | components/Collaborations.tsx:96-103 | The id's selection is toggled |
| Collaborations.CollaborationList.HandleSelectAll | components/Collaborations.tsx:105-111 | Checking selects exactly the ids of the shown rows, and unchecking clears the selection |
| Collaborations.CollaborationList.OpenAddView | components/Collaborations.tsx:113-117 | The edit view opens on a blank draft with no edited id |
| Collaborations.CollaborationList.OpenEditView | components/Collaborations.tsx:119-124 | The edit view opens on a copy of the row, remembering its id |
| Collaborations.CollaborationList.HandleSubmit | components/Collaborations.tsx:131-142 | Without a lead number nothing changes; otherwise the list becomes `Saved`, ids stay unique and the list view returns |
| Collaborations.CollaborationList.HandleDeleteSelected | components/Collaborations.tsx:144-150 | With a non-empty selection and confirmation, the selected rows are deleted and the selection is cleared; otherwise nothing changes |
| Contracts.ContractList.constructor | components/Contracts.tsx:43-47 | The screen starts on the list view with no selection, no filters and no row being edited |
| Contracts.ContractList.FilteredContracts | components/Contracts.tsx:49-59 | The shown rows are exactly the rows of the list that pass the filters, in list order |
| Contracts.ContractList.FilterOptions | components/Contracts.tsx:61-81 | The options exist for exactly the four filter keys, each given by `Options` |
| Contracts.ContractList.HandleFilterChange | components/Contracts.tsx:84-86 | One filter is set to the value and nothing else changes |
| Contracts.ContractList.ResetFilters | components/Contracts.tsx:88 | The filters are cleared, so the whole list is shown |
| Contracts.ContractList.HandleSelect | components/Contracts.tsx:90-97 | The id's selection is toggled |
| Contracts.ContractList.HandleSelectAll | components/Contracts.tsx:99-105 | Checking selects exactly the ids of the shown rows, and unchecking clears the selection |
| Contracts.ContractList.OpenAddView | components/Contracts.tsx:107-111 | The edit view opens on a blank draft with no edited id |
| Contracts.ContractList.OpenEditView | components/Contracts.tsx:113-118 | The edit view opens on a copy of the row, remembering its id |
| Contracts.ContractList.HandleSubmit | components/Contracts.tsx:125-136 | Without a contract number nothing changes; otherwise the list becomes `Saved`, ids stay unique and the list view returns |
| Contracts.ContractList.HandleDeleteSelected | components/Contracts.tsx:138-144 | With a non-empty selection and confirmation, the selected rows are deleted and the selection is cleared; otherwise nothing changes |
| BusinessTrips.SubmitTrips | components/BusinessTrips.tsx:48-56 | Without destination and both dates nothing changes. An edit changes only the form fields of the edited trip and keeps its id, status and report; an add appends a planned trip without a report under a fresh id |
| BusinessTrips.ReportTrips | components/BusinessTrips.tsx:58-63 | Without a trip being reported on nothing changes; otherwise exactly that trip gets the report and is completed, and its other fields and every other trip are unchanged |
| BusinessTrips.SubmitKeepsCompleted | components/BusinessTrips.tsx:48-56 | Saving the form never turns a completed trip back into a planned one |
| BusinessTrips.ReportKeepsCompleted | components/BusinessTrips.tsx:58-63 | Filing a report never turns a completed trip back into a planned one |
| BusinessTrips.DeleteKeepsCompleted | components/BusinessTrips.tsx:65-67 | The trips a delete keeps keep their status |
| BusinessTrips.TripsScreen.constructor | components/BusinessTrips.tsx:7-16 | The screen starts with both modals closed, a blank form and report draft, and no edited id |
| BusinessTrips.TripsScreen.OpenAddModal | components/BusinessTrips.tsx:30-34 | The form opens blank, with no edited id |
| BusinessTrips.TripsScreen.OpenEditModal | components/BusinessTrips.tsx:36-40 | The form opens on the trip's four fields, remembering its id |
| BusinessTrips.TripsScreen.OpenReportModal | components/BusinessTrips.tsx:42-46 | The report draft opens on the trip's report, or a blank one |
| BusinessTrips.TripsScreen.HandleSubmit | components/BusinessTrips.tsx:48-56 | The trips become `SubmitTrips`, the modal closes only when the form is complete, ids stay unique and no trip is reopened |
| BusinessTrips.TripsScreen.HandleReportSubmit | components/BusinessTrips.tsx:58-63 | The trips become `ReportTrips`; with a trip being reported on the modal closes and the edited id is cleared; no trip is reopened |
| BusinessTrips.TripsScreen.HandleDelete | components/BusinessTrips.tsx:65-67 | The trip with the id is deleted, ids stay unique and no trip is reopened |
| Meetings.SubmitMeetings | components/Meetings.tsx:33-41 | Without title and date nothing changes; an edit replaces the meeting with the edited id in place; an add appends under a fresh id |
| Meetings.SubmitKeepsIdsUnique | components/Meetings.tsx:33-41 | Saving keeps ids unique and introduces no id other than the fresh one |
| Meetings.MeetingsScreen.constructor | components/Meetings.tsx:8-14 | The screen starts with the modal closed, a blank form and no edited id |
| Meetings.MeetingsScreen.OpenAddModal | components/Meetings.tsx:21-25 | The form opens blank, with no edited id |
| Meetings.MeetingsScreen.OpenEditModal | components/Meetings.tsx:27-31 | The form opens on the meeting, remembering its id |
| Meetings.MeetingsScreen.HandleSubmit | components/Meetings.tsx:33-41 | The meetings become `SubmitMeetings`, the modal closes only when title and date are given, and ids stay unique |
| Meetings.MeetingsScreen.HandleDelete | components/Meetings.tsx:43-45 | The meeting with the id is deleted and ids stay unique |
| Dashboard.AddLink | components/Dashboard.tsx:13-19 | Without title and URL nothing changes; otherwise the draft is appended under a fresh id |
| Dashboard.AddThenDelete | components/Dashboard.tsx:13-23 | Deleting a link just added under a fresh id restores the links |
| Dashboard.DashboardScreen.constructor | components/Dashboard.tsx:10-11 | The screen starts with the modal closed and a blank draft |
| Dashboard.DashboardScreen.HandleAddLink | components/Dashboard.tsx:13-19 | The links become `AddLink`; on success the draft is reset and the modal closes, and ids stay unique |
| Dashboard.DashboardScreen.HandleDeleteLink | components/Dashboard.tsx:21-23 | The link with the id is deleted and ids stay unique |
| Managers.AddTag | components/MasterData.tsx:249-254 | A non-empty value not yet present is appended at the end; an empty or already present value leaves the tags exactly as they were |
| Managers.RemoveTag | components/MasterData.tsx:255-257 | Every copy of the tag goes; the other tags remain in their order, each as many times as before |
| Managers.AddTagKeepsDistinct | components/MasterData.tsx:249-254 | Adding keeps the tags free of duplicates and of `''` |
| Managers.RemoveUndoesAdd | components/MasterData.tsx:249-257 | Removing a tag just added restores the tags |
| Managers.SavePerson | components/MasterData.tsx:225-233 | Without a name nothing changes; an edit replaces the person with the edited id in place; an add appends under a fresh id |
| Managers.SaveItem | components/MasterData.tsx:364-371 | An edit replaces the item with the edited id in place; an add appends under a fresh id; there is no guard |
| Managers.SavePersonKeepsIdsUnique | components/MasterData.tsx:225-233 | Saving a person keeps ids unique |
| Managers.SaveItemKeepsIdsUnique | components/MasterData.tsx:364-371 | Saving an item keeps ids unique |
| Managers.PersonnelManager.constructor | components/MasterData.tsx:213-215 | The manager starts with the modal closed, a blank form and an empty tag input |
| Managers.PersonnelManager.HandleOpenModal | components/MasterData.tsx:219-223 | The form opens on the person or a blank one, remembering which, and the tag input starts empty |
| Managers.PersonnelManager.HandleSave | components/MasterData.tsx:225-233 | The personnel become `SavePerson`, and ids stay unique. Without a name nothing else changes; with one the modal closes and the remounted tag input is empty |
| Managers.PersonnelManager.HandleDelete | components/MasterData.tsx:314 | The person with the id is deleted, ids stay unique, and the remounted tag input is empty |
| Managers.PersonnelManager.HandleAdd | components/MasterData.tsx:249-254 | The form's regions become `AddTag` of the value, and the text box is cleared (also what leaving the box does, with the trimmed text) |
| Managers.PersonnelManager.HandleRemove | components/MasterData.tsx:255-257 | The form's regions become `RemoveTag` of the tag, and the remounted tag input is empty |
| Managers.PersonnelManager.HandleKeyDown | components/MasterData.tsx:258-263 | Enter or a comma adds the trimmed text as a region and clears the box; other keys change nothing |
| Managers.CrudManager.constructor | components/MasterData.tsx:354-356 | The manager starts with the modal closed and the blank form |
| Managers.CrudManager.HandleOpenModal | components/MasterData.tsx:358-362 | The form opens on a copy of the item or on the blank form |
| Managers.CrudManager.HandleSave | components/MasterData.tsx:364-371 | The items become `SaveItem`, the modal closes, and ids stay unique |
| Managers.CrudManager.HandleDelete | components/MasterData.tsx:397 | The item with the id is deleted and ids stay unique |

## Left out

- Downloading the export (Blob, object URL, link click) and `handleExport`'s choice of headers are not modelled. The model stops at the exported text `ExportText`.
- Reading the file (`file.text()`), `localStorage` persistence, and `crypto.randomUUID()` are not modelled. The file text and the fresh ids are parameters.
- `Number`/`isNaN` are not modelled. They appear as the parameter `isNumber`, because JavaScript's number grammar is not part of this model.
- `localeCompare` is not modelled. It appears as the parameter `less`.
- Facets.SortOrdered: order is stated between neighbours and only for a comparison that is total on distinct non-empty values. It is not proved that the insertion order matches the browser's `Array.prototype.sort`, which is not specified beyond the comparator.
- Importer.ImportText, Importer.DataImporter.HandleImport: require a file that parses to at least one row. With no row at all, the source throws in `header.forEach`, and that crash is not modelled.
- Importer.MissingColumnsOnce: needs distinct schema headers. Those are not proved for the five schema constants.
- CsvCodec.ExportRoundTrip: holds only for cells without white space at either end and without an unquoted `\r`. The parser trims every field, quoted or not. `escapeCSVValue` does not quote a value whose only line break is `\r`, and the parser breaks lines there. The lemma also needs headers that need no quoting, because the header line is not escaped, and no blank line.
- Floating point is not modelled. Trip expenses are carried as a `real` and never computed on.
- Sorting trips and meetings by date, and age calculation from a birthdate, are display-only and not modelled.
- Form field setters (`handleInputChange`, `handleReportChange`, the combobox, `setImportType`/`setFile`), the expanded-row toggle, the region suggestion list, and all JSX rendering are not modelled: each only copies a typed value into state.
- `alert` and the other user notifications besides the importer's feedback are not modelled.
- Managers.CrudManager.HandleOpenModal, Managers.CrudManager.HandleSave: the form's copy of an item keeps the item's `id` in the source, and saving an edit stores that copy. The model keeps the id apart from the fields, which is the same as long as no form field edits `id`.
- Concurrency between React state updates is not modelled. Each handler runs atomically, and `setX(prev => …)` is applied to the current state.
