/** The data importer of the master-data screen (`DataImporter`,
    components/MasterData.tsx): a parsed CSV file is checked against the
    schema of the chosen entity and its rows are appended to that entity's
    list, all or nothing. */
module Importer {
  import opened Common
  import opened Entries
  import opened CsvCodec

  /** The five lists a file can be imported into. */
  datatype ImportType = Collaborations | Contracts | Agents | Products | Customers

  /** A schema column: its header, whether a value is required, and whether
      a value must be a number. */
  datatype Column = Column(header: string, required: bool, numeric: bool)

  /** An imported record: a fresh id and one trimmed string per schema header. */
  type Record = Entry<map<string, string>>

  function Col(h: string): Column { Column(h, false, false) }
  function Req(h: string): Column { Column(h, true, false) }
  function Num(h: string): Column { Column(h, false, true) }

  /** `validationSchemas`. */
  function Schema(t: ImportType): seq<Column> {
    match t
    case Collaborations =>
      [ Req("引合番号"), Col("担当"), Col("地域"), Col("代理"), Col("機種"), Col("台数"), Col("顧客情報"),
        Col("案件発生年月"), Col("访问方式"), Col("訪問回数"), Col("確度"), Col("確度変更"), Col("確度変更理由"),
        Col("出荷可能時期"), Col("最終結果"), Col("出荷日(実際）"), Col("備考①引合詳細、補充内容"),
        Col("備考②引合状況変化記録等"), Col("備考③") ]
    case Contracts =>
      [ Col("担当"), Col("機種"), Col("区分"), Col("機号"), Col("契約日"), Col("代理名称"), Col("契約状態"),
        Req("契約書NO"), Col("出荷指示書№"), Col("契約日付"), Num("単価"), Num("台数"), Col("割賦時間"),
        Col("備考①"), Col("備考②") ]
    case Agents =>
      [ Col("SS担当"), Col("代理区域"), Req("代理商"), Col("联系人"), Col("电话"), Col("公司地址"), Col("合同日期"),
        Col("代理状态"), Col("备考") ]
    case Products =>
      [ Req("機種"), Col("区分"), Num("代理価格"), Num("仕切り価格"), Col("オプション"), Col("備考") ]
    case Customers =>
      [ Req("name"), Col("contact") ]
  }

  // ---------------------------------------------------------------------
  // Specification of the checks
  // ---------------------------------------------------------------------

  /** `headerMap`: each trimmed header cell names its column; when a name
      occurs twice the later column wins. */
  function HeaderMap(header: seq<string>): (m: map<string, nat>)
    ensures forall h :: h in m ==> m[h] < |header| && Trim(header[m[h]]) == h
    ensures forall i :: 0 <= i < |header| ==> Trim(header[i]) in m && m[Trim(header[i])] >= i
  {
    LastIndex(TrimAll(header))
  }

  function TrimAll(cells: seq<string>): (r: seq<string>)
    ensures |r| == |cells| && forall i :: 0 <= i < |cells| ==> r[i] == Trim(cells[i])
  {
    if cells == [] then [] else [Trim(cells[0])] + TrimAll(cells[1..])
  }

  /** Each name mapped to the last position it occurs at. */
  function LastIndex(names: seq<string>): (m: map<string, nat>)
    ensures forall h :: h in m ==> m[h] < |names| && names[m[h]] == h
    ensures forall i :: 0 <= i < |names| ==> names[i] in m && m[names[i]] >= i
  {
    if names == [] then map[]
    else
      var n := |names| - 1;
      assert forall i :: 0 <= i < n ==> names[..n][i] == names[i];
      LastIndex(names[..n])[names[n] := n]
  }

  /** `row[headerMap[h]]?.trim() || ''`: the trimmed cell under header `h`, or
      '' when the header is absent or the row is too short. */
  function CellValue(row: seq<string>, hm: map<string, nat>, h: string): (v: string)
    ensures Trimmed(v)
    ensures h !in hm || hm[h] >= |row| ==> v == ""
    ensures h in hm && hm[h] < |row| ==> v == Trim(row[hm[h]])
  {
    if h in hm && hm[h] < |row| then Trim(row[hm[h]]) else ""
  }

  /** One reported error. `line` is the row's line in the file: the header is
      line 1, so data row `k` (from 0) is line `k + 2`. */
  datatype Problem =
    | MissingColumn(header: string)
    | EmptyRequired(line: nat, header: string)
    | NotNumber(line: nat, header: string)

  predicate IsMissing(c: Column, hm: map<string, nat>) {
    c.required && c.header !in hm
  }

  /** The header errors, in schema order. */
  function MissingColumns(schema: seq<Column>, hm: map<string, nat>): (r: seq<Problem>)
    ensures |r| <= |schema|
    ensures forall p :: p in r ==> exists c :: c in schema && IsMissing(c, hm) && p == MissingColumn(c.header)
    ensures forall c :: c in schema && IsMissing(c, hm) ==> MissingColumn(c.header) in r
  {
    if schema == [] then []
    else
      var n := |schema| - 1;
      var c := schema[n];
      assert forall d :: d in schema[..n] ==> d in schema;
      assert forall d :: d in schema ==> d in schema[..n] || d == c;
      MissingColumns(schema[..n], hm) + (if IsMissing(c, hm) then [MissingColumn(c.header)] else [])
  }

  /** The errors one cell gives: required and empty, or numeric, non-empty
      and not a number. `isNumber` stands for `!isNaN(Number(v))`. */
  function CellProblems(c: Column, v: string, line: nat, isNumber: string -> bool): seq<Problem> {
    (if c.required && v == "" then [EmptyRequired(line, c.header)] else [])
    + (if c.numeric && v != "" && !isNumber(v) then [NotNumber(line, c.header)] else [])
  }

  /** The errors of one data row, in schema order. */
  function RowProblems(schema: seq<Column>, row: seq<string>, hm: map<string, nat>, line: nat, isNumber: string -> bool): seq<Problem> {
    if schema == [] then []
    else
      var n := |schema| - 1;
      RowProblems(schema[..n], row, hm, line, isNumber) + CellProblems(schema[n], CellValue(row, hm, schema[n].header), line, isNumber)
  }

  /** The errors of all data rows, row by row. */
  function AllRowProblems(schema: seq<Column>, rows: seq<seq<string>>, hm: map<string, nat>, isNumber: string -> bool): seq<Problem> {
    if rows == [] then []
    else
      var n := |rows| - 1;
      AllRowProblems(schema, rows[..n], hm, isNumber) + RowProblems(schema, rows[n], hm, n + 2, isNumber)
  }

  /** `record`: every schema header mapped to its cell. */
  function RecordFields(schema: seq<Column>, row: seq<string>, hm: map<string, nat>): map<string, string> {
    if schema == [] then map[]
    else
      var n := |schema| - 1;
      RecordFields(schema[..n], row, hm)[schema[n].header := CellValue(row, hm, schema[n].header)]
  }

  /** A record maps exactly the schema headers, each to its cell. */
  lemma {:induction false} RecordShape(schema: seq<Column>, row: seq<string>, hm: map<string, nat>)
    ensures forall c :: c in schema ==> c.header in RecordFields(schema, row, hm)
    ensures forall h :: h in RecordFields(schema, row, hm) ==> exists c :: c in schema && c.header == h
    ensures forall h :: h in RecordFields(schema, row, hm) ==> RecordFields(schema, row, hm)[h] == CellValue(row, hm, h)
    decreases |schema|
  {
    if schema != [] {
      var n := |schema| - 1;
      var r := RecordFields(schema, row, hm);
      RecordShape(schema[..n], row, hm);
      forall c | c in schema ensures c.header in r {
        if c != schema[n] {
          var j :| 0 <= j < |schema| && schema[j] == c;
          assert schema[..n][j] == c;
        }
      }
      forall h | h in r ensures exists c :: c in schema && c.header == h {
        if h != schema[n].header {
          var c :| c in schema[..n] && c.header == h;
          assert c in schema;
        }
      }
    }
  }

  /** `newRecords`: a record, with id `ids[k]`, for each data row without
      errors. */
  function Accepted(schema: seq<Column>, rows: seq<seq<string>>, hm: map<string, nat>, ids: seq<string>, isNumber: string -> bool): seq<Record>
    requires |ids| >= |rows|
  {
    if rows == [] then []
    else
      var n := |rows| - 1;
      Accepted(schema, rows[..n], hm, ids, isNumber)
      + (if RowProblems(schema, rows[n], hm, n + 2, isNumber) == [] then [Entry(ids[n], RecordFields(schema, rows[n], hm))] else [])
  }

  /** What an import does. */
  datatype Outcome =
    | HeaderRejected(problems: seq<Problem>)
    | RowsRejected(total: nat, listed: seq<Problem>)
    | Imported(list: seq<Record>, added: nat)

  function Min(a: nat, b: nat): nat { if a < b then a else b }

  /** The checks and the append of `handleImport`, for a parse result with
      at least a header row (the source throws on an empty one). The fresh
      ids are drawn in row order, one per data row. */
  function ImportRows(schema: seq<Column>, parsed: seq<seq<string>>, prev: seq<Record>, ids: seq<string>, isNumber: string -> bool): (o: Outcome)
    requires |parsed| >= 1 && |ids| >= |parsed| - 1
    ensures o.HeaderRejected? ==> o.problems != [] && o.problems == MissingColumns(schema, HeaderMap(parsed[0]))
    ensures o.RowsRejected? ==> 1 <= o.total && |o.listed| == Min(10, o.total)
    ensures o.RowsRejected? ==>
      var p := AllRowProblems(schema, parsed[1..], HeaderMap(parsed[0]), isNumber);
      o.total == |p| && o.listed == p[..Min(10, |p|)]
  {
    var hm := HeaderMap(parsed[0]);
    var missing := MissingColumns(schema, hm);
    if missing != [] then HeaderRejected(missing)
    else
      var rows := parsed[1..];
      var problems := AllRowProblems(schema, rows, hm, isNumber);
      if problems != [] then RowsRejected(|problems|, problems[..Min(10, |problems|)])
      else
        var added := Accepted(schema, rows, hm, ids, isNumber);
        Imported(prev + added, |added|)
  }

  // ---------------------------------------------------------------------
  // Properties
  // ---------------------------------------------------------------------

  /** With distinct schema headers no header error is reported twice: one
      error per missing column. */
  lemma {:induction false} MissingColumnsOnce(schema: seq<Column>, hm: map<string, nat>)
    requires forall i, j :: 0 <= i < j < |schema| ==> schema[i].header != schema[j].header
    ensures forall i, j :: 0 <= i < j < |MissingColumns(schema, hm)| ==> MissingColumns(schema, hm)[i] != MissingColumns(schema, hm)[j]
    decreases |schema|
  {
    if schema != [] {
      var n := |schema| - 1;
      var front := MissingColumns(schema[..n], hm);
      MissingColumnsOnce(schema[..n], hm);
      if IsMissing(schema[n], hm) {
        LastNotInFront(schema, hm);
        var r := MissingColumns(schema, hm);
        assert r == front + [MissingColumn(schema[n].header)];
        forall i, j | 0 <= i < j < |r| ensures r[i] != r[j] {
          if j == |front| {
            assert r[i] in front;
          }
        }
      }
    }
  }

  lemma LastNotInFront(schema: seq<Column>, hm: map<string, nat>)
    requires |schema| >= 1
    requires forall i, j :: 0 <= i < j < |schema| ==> schema[i].header != schema[j].header
    ensures MissingColumn(schema[|schema| - 1].header) !in MissingColumns(schema[..|schema| - 1], hm)
  {
    var n := |schema| - 1;
    forall p | p in MissingColumns(schema[..n], hm) ensures p != MissingColumn(schema[n].header) {
      var d :| d in schema[..n] && IsMissing(d, hm) && p == MissingColumn(d.header);
      var k :| 0 <= k < n && schema[..n][k] == d;
      assert schema[k] == d;
    }
  }

  /** A header error for a column exactly when that column is required and
      no trimmed header cell names it. */
  lemma MissingColumnReported(schema: seq<Column>, header: seq<string>, c: Column)
    requires c in schema && c.required
    ensures MissingColumn(c.header) in MissingColumns(schema, HeaderMap(header))
            <==> forall i :: 0 <= i < |header| ==> Trim(header[i]) != c.header
  {
    var hm := HeaderMap(header);
    if MissingColumn(c.header) in MissingColumns(schema, hm) {
      var d :| d in schema && IsMissing(d, hm) && MissingColumn(c.header) == MissingColumn(d.header);
    }
  }

  /** Without a header error every data row is examined; with one, the
      outcome carries exactly the header errors and no list is produced. */
  lemma HeaderCheckedFirst(schema: seq<Column>, parsed: seq<seq<string>>, prev: seq<Record>, ids: seq<string>, isNumber: string -> bool)
    requires |parsed| >= 1 && |ids| >= |parsed| - 1
    ensures var o := ImportRows(schema, parsed, prev, ids, isNumber);
      o.HeaderRejected? <==> exists c :: c in schema && IsMissing(c, HeaderMap(parsed[0]))
  {
    var hm := HeaderMap(parsed[0]);
    var missing := MissingColumns(schema, hm);
    if exists c :: c in schema && IsMissing(c, hm) {
      var c :| c in schema && IsMissing(c, hm);
      assert MissingColumn(c.header) in missing;
    }
    if missing != [] {
      assert missing[0] in missing;
    }
  }

  /** A row has an error under a column exactly when the column is required
      and its cell is empty, or numeric and its non-empty cell not a number. */
  lemma RowProblemsExact(schema: seq<Column>, row: seq<string>, hm: map<string, nat>, line: nat, isNumber: string -> bool)
    ensures forall h :: (EmptyRequired(line, h) in RowProblems(schema, row, hm, line, isNumber)
      <==> exists c :: c in schema && c.header == h && c.required && CellValue(row, hm, h) == "")
    ensures forall h :: (NotNumber(line, h) in RowProblems(schema, row, hm, line, isNumber)
      <==> exists c :: c in schema && c.header == h && c.numeric && CellValue(row, hm, h) != "" && !isNumber(CellValue(row, hm, h)))
    ensures forall p :: p in RowProblems(schema, row, hm, line, isNumber) ==> !p.MissingColumn? && p.line == line
  {
    forall h ensures (EmptyRequired(line, h) in RowProblems(schema, row, hm, line, isNumber)
      <==> exists c :: c in schema && c.header == h && c.required && CellValue(row, hm, h) == "") {
      EmptyReported(schema, row, hm, line, isNumber, h);
    }
    forall h ensures (NotNumber(line, h) in RowProblems(schema, row, hm, line, isNumber)
      <==> exists c :: c in schema && c.header == h && c.numeric && CellValue(row, hm, h) != "" && !isNumber(CellValue(row, hm, h))) {
      NotNumberReported(schema, row, hm, line, isNumber, h);
    }
    RowProblemsOnLine(schema, row, hm, line, isNumber);
  }

  lemma EmptyReported(schema: seq<Column>, row: seq<string>, hm: map<string, nat>, line: nat, isNumber: string -> bool, h: string)
    ensures EmptyRequired(line, h) in RowProblems(schema, row, hm, line, isNumber)
      <==> exists c :: c in schema && c.header == h && c.required && CellValue(row, hm, h) == ""
  {
    if EmptyRequired(line, h) in RowProblems(schema, row, hm, line, isNumber) {
      EmptyFound(schema, row, hm, line, isNumber, h);
    }
    if exists c :: c in schema && c.header == h && c.required && CellValue(row, hm, h) == "" {
      var c :| c in schema && c.header == h && c.required && CellValue(row, hm, h) == "";
      EmptyListed(schema, row, hm, line, isNumber, c);
    }
  }

  lemma NotNumberReported(schema: seq<Column>, row: seq<string>, hm: map<string, nat>, line: nat, isNumber: string -> bool, h: string)
    ensures NotNumber(line, h) in RowProblems(schema, row, hm, line, isNumber)
      <==> exists c :: c in schema && c.header == h && c.numeric && CellValue(row, hm, h) != "" && !isNumber(CellValue(row, hm, h))
  {
    if NotNumber(line, h) in RowProblems(schema, row, hm, line, isNumber) {
      NotNumberFound(schema, row, hm, line, isNumber, h);
    }
    if exists c :: c in schema && c.header == h && c.numeric && CellValue(row, hm, h) != "" && !isNumber(CellValue(row, hm, h)) {
      var c :| c in schema && c.header == h && c.numeric && CellValue(row, hm, h) != "" && !isNumber(CellValue(row, hm, h));
      NotNumberListed(schema, row, hm, line, isNumber, c);
    }
  }

  /** An "empty" error under `h` comes from a required column `h`. */
  lemma {:induction false} EmptyFound(schema: seq<Column>, row: seq<string>, hm: map<string, nat>, line: nat, isNumber: string -> bool, h: string)
    requires EmptyRequired(line, h) in RowProblems(schema, row, hm, line, isNumber)
    ensures exists c :: c in schema && c.header == h && c.required && CellValue(row, hm, h) == ""
    decreases |schema|
  {
    var n := |schema| - 1;
    if EmptyRequired(line, h) in RowProblems(schema[..n], row, hm, line, isNumber) {
      EmptyFound(schema[..n], row, hm, line, isNumber, h);
      var c :| c in schema[..n] && c.header == h && c.required && CellValue(row, hm, h) == "";
      assert c in schema;
    } else {
      assert schema[n] in schema;
    }
  }

  /** A required column with an empty cell is reported. */
  lemma {:induction false} EmptyListed(schema: seq<Column>, row: seq<string>, hm: map<string, nat>, line: nat, isNumber: string -> bool, c: Column)
    requires c in schema && c.required && CellValue(row, hm, c.header) == ""
    ensures EmptyRequired(line, c.header) in RowProblems(schema, row, hm, line, isNumber)
    decreases |schema|
  {
    var n := |schema| - 1;
    if c != schema[n] {
      assert c in schema[..n] by {
        var i :| 0 <= i < |schema| && schema[i] == c;
        assert schema[..n][i] == c;
      }
      EmptyListed(schema[..n], row, hm, line, isNumber, c);
    }
  }

  /** A "number" error under `h` comes from a numeric column `h`. */
  lemma {:induction false} NotNumberFound(schema: seq<Column>, row: seq<string>, hm: map<string, nat>, line: nat, isNumber: string -> bool, h: string)
    requires NotNumber(line, h) in RowProblems(schema, row, hm, line, isNumber)
    ensures exists c :: c in schema && c.header == h && c.numeric && CellValue(row, hm, h) != "" && !isNumber(CellValue(row, hm, h))
    decreases |schema|
  {
    var n := |schema| - 1;
    if NotNumber(line, h) in RowProblems(schema[..n], row, hm, line, isNumber) {
      NotNumberFound(schema[..n], row, hm, line, isNumber, h);
      var c :| c in schema[..n] && c.header == h && c.numeric && CellValue(row, hm, h) != "" && !isNumber(CellValue(row, hm, h));
      assert c in schema;
    } else {
      assert schema[n] in schema;
    }
  }

  /** A numeric column whose non-empty cell is not a number is reported. */
  lemma {:induction false} NotNumberListed(schema: seq<Column>, row: seq<string>, hm: map<string, nat>, line: nat, isNumber: string -> bool, c: Column)
    requires c in schema && c.numeric && CellValue(row, hm, c.header) != "" && !isNumber(CellValue(row, hm, c.header))
    ensures NotNumber(line, c.header) in RowProblems(schema, row, hm, line, isNumber)
    decreases |schema|
  {
    var n := |schema| - 1;
    if c != schema[n] {
      assert c in schema[..n] by {
        var i :| 0 <= i < |schema| && schema[i] == c;
        assert schema[..n][i] == c;
      }
      NotNumberListed(schema[..n], row, hm, line, isNumber, c);
    }
  }

  lemma {:induction false} RowProblemsOnLine(schema: seq<Column>, row: seq<string>, hm: map<string, nat>, line: nat, isNumber: string -> bool)
    ensures forall p :: p in RowProblems(schema, row, hm, line, isNumber) ==> !p.MissingColumn? && p.line == line
    decreases |schema|
  {
    if schema != [] {
      RowProblemsOnLine(schema[..|schema| - 1], row, hm, line, isNumber);
    }
  }

  /** The lines of the row errors are those of existing data rows. */
  lemma {:induction false} ProblemLinesInRange(schema: seq<Column>, rows: seq<seq<string>>, hm: map<string, nat>, isNumber: string -> bool)
    ensures forall p :: p in AllRowProblems(schema, rows, hm, isNumber) ==> !p.MissingColumn? && 2 <= p.line <= |rows| + 1
    decreases |rows|
  {
    if rows != [] {
      var n := |rows| - 1;
      ProblemLinesInRange(schema, rows[..n], hm, isNumber);
      RowProblemsExact(schema, rows[n], hm, n + 2, isNumber);
    }
  }

  /** Without row errors, the last row's record follows those of the rows
      before it. */
  lemma AcceptedSnoc(schema: seq<Column>, rows: seq<seq<string>>, hm: map<string, nat>, ids: seq<string>, isNumber: string -> bool)
    requires |rows| >= 1 && |ids| >= |rows|
    requires AllRowProblems(schema, rows, hm, isNumber) == []
    ensures AllRowProblems(schema, rows[..|rows| - 1], hm, isNumber) == []
    ensures Accepted(schema, rows, hm, ids, isNumber)
         == Accepted(schema, rows[..|rows| - 1], hm, ids, isNumber) + [Entry(ids[|rows| - 1], RecordFields(schema, rows[|rows| - 1], hm))]
  {
    assert RowProblems(schema, rows[|rows| - 1], hm, |rows| + 1, isNumber) == [];
  }

  /** Without any row error every data row becomes a record, in row order. */
  lemma {:induction false} AcceptedAll(schema: seq<Column>, rows: seq<seq<string>>, hm: map<string, nat>, ids: seq<string>, isNumber: string -> bool)
    requires |ids| >= |rows|
    requires AllRowProblems(schema, rows, hm, isNumber) == []
    ensures |Accepted(schema, rows, hm, ids, isNumber)| == |rows|
    ensures forall k :: 0 <= k < |rows| ==> Accepted(schema, rows, hm, ids, isNumber)[k] == Entry(ids[k], RecordFields(schema, rows[k], hm))
    decreases |rows|
  {
    if rows != [] {
      var n := |rows| - 1;
      var front := rows[..n];
      var last := Entry(ids[n], RecordFields(schema, rows[n], hm));
      AcceptedSnoc(schema, rows, hm, ids, isNumber);
      AcceptedAll(schema, front, hm, ids, isNumber);
      var a := Accepted(schema, front, hm, ids, isNumber);
      forall k | 0 <= k < |rows| ensures (a + [last])[k] == Entry(ids[k], RecordFields(schema, rows[k], hm)) {
        if k < n {
          assert front[k] == rows[k];
        }
      }
    }
  }

  /** All or nothing: an import succeeds exactly when there is no header
      error and no row error; then the previous list is kept as it was and
      is followed by one record per data row, in row order, holding the
      row's id and its cell under every schema header. */
  lemma ImportAllOrNothing(schema: seq<Column>, parsed: seq<seq<string>>, prev: seq<Record>, ids: seq<string>, isNumber: string -> bool)
    requires |parsed| >= 1 && |ids| >= |parsed| - 1
    ensures var o := ImportRows(schema, parsed, prev, ids, isNumber);
      var hm := HeaderMap(parsed[0]);
      && (o.Imported? <==> MissingColumns(schema, hm) == [] && AllRowProblems(schema, parsed[1..], hm, isNumber) == [])
      && (o.Imported? ==>
            && o.added == |parsed| - 1
            && |o.list| == |prev| + |parsed| - 1
            && o.list[..|prev|] == prev
            && forall k :: 0 <= k < |parsed| - 1 ==> o.list[|prev| + k] == Entry(ids[k], RecordFields(schema, parsed[k + 1], hm)))
  {
    var hm := HeaderMap(parsed[0]);
    var rows := parsed[1..];
    if MissingColumns(schema, hm) == [] && AllRowProblems(schema, rows, hm, isNumber) == [] {
      AcceptedAll(schema, rows, hm, ids, isNumber);
    }
  }

  /** A file holding only a header row without header errors imports nothing
      and succeeds. */
  lemma HeaderOnlyFile(schema: seq<Column>, header: seq<string>, prev: seq<Record>, isNumber: string -> bool)
    requires MissingColumns(schema, HeaderMap(header)) == []
    ensures ImportRows(schema, [header], prev, [], isNumber) == Imported(prev, 0)
  {
    assert [header][1..] == [];
  }

  /** Imported records get distinct fresh ids, so ids stay unique. */
  lemma ImportKeepsIdsUnique(schema: seq<Column>, parsed: seq<seq<string>>, prev: seq<Record>, ids: seq<string>, isNumber: string -> bool)
    requires |parsed| >= 1 && |ids| >= |parsed| - 1
    requires UniqueIds(prev)
    requires forall i, j :: 0 <= i < j < |ids| ==> ids[i] != ids[j]
    requires forall i :: 0 <= i < |ids| ==> ids[i] !in Ids(prev)
    ensures var o := ImportRows(schema, parsed, prev, ids, isNumber);
      o.Imported? ==> UniqueIds(o.list)
  {
    var o := ImportRows(schema, parsed, prev, ids, isNumber);
    if o.Imported? {
      ImportAllOrNothing(schema, parsed, prev, ids, isNumber);
      var r := o.list;
      forall i, j | 0 <= i < j < |r| ensures r[i].id != r[j].id {
        if j >= |prev| {
          assert r[j].id == ids[j - |prev|];
          if i >= |prev| {
            assert r[i].id == ids[i - |prev|];
          } else {
            assert r[i] == prev[i];
          }
        } else {
          assert r[i] == prev[i] && r[j] == prev[j];
        }
      }
    }
  }

  // ---------------------------------------------------------------------
  // The import loop
  // ---------------------------------------------------------------------

  lemma LastIndexSnoc(names: seq<string>, i: nat)
    requires i < |names|
    ensures LastIndex(names[..i + 1]) == LastIndex(names[..i])[names[i] := i]
  {
    assert names[..i + 1][..i] == names[..i];
  }

  lemma RowSnoc(schema: seq<Column>, f: nat, row: seq<string>, hm: map<string, nat>, line: nat, isNumber: string -> bool)
    requires f < |schema|
    ensures RowProblems(schema[..f + 1], row, hm, line, isNumber)
         == RowProblems(schema[..f], row, hm, line, isNumber) + CellProblems(schema[f], CellValue(row, hm, schema[f].header), line, isNumber)
    ensures RecordFields(schema[..f + 1], row, hm)
         == RecordFields(schema[..f], row, hm)[schema[f].header := CellValue(row, hm, schema[f].header)]
  {
    assert schema[..f + 1][..f] == schema[..f];
  }

  /** `header.forEach((h, i) => { headerMap[h.trim()] = i; })`. */
  method BuildHeaderMap(header: seq<string>) returns (headerMap: map<string, nat>)
    ensures headerMap == HeaderMap(header)
  {
    ghost var names := TrimAll(header);
    headerMap := map[];
    var i := 0;
    while i < |header|
      invariant 0 <= i <= |header|
      invariant headerMap == LastIndex(names[..i])
    {
      LastIndexSnoc(names, i);
      headerMap := headerMap[Trim(header[i]) := i];
      i := i + 1;
    }
    assert names[..|header|] == names;
  }

  /** The loop over the schema that collects header errors. */
  method FindMissing(schema: seq<Column>, headerMap: map<string, nat>) returns (errors: seq<Problem>)
    ensures errors == MissingColumns(schema, headerMap)
  {
    errors := [];
    var j := 0;
    while j < |schema|
      invariant 0 <= j <= |schema|
      invariant errors == MissingColumns(schema[..j], headerMap)
    {
      assert schema[..j + 1][..j] == schema[..j];
      if schema[j].required && schema[j].header !in headerMap {
        errors := errors + [MissingColumn(schema[j].header)];
      }
      j := j + 1;
    }
    assert schema[..|schema|] == schema;
  }

  /** The two checks the loop body makes on one cell. */
  method CheckCell(field: Column, cellValue: string, line: nat, isNumber: string -> bool) returns (errors: seq<Problem>)
    ensures errors == CellProblems(field, cellValue, line, isNumber)
  {
    errors := [];
    if field.required && cellValue == "" {
      errors := errors + [EmptyRequired(line, field.header)];
    }
    if field.numeric && cellValue != "" && !isNumber(cellValue) {
      errors := errors + [NotNumber(line, field.header)];
    }
  }

  /** The loop over the schema for one data row: its errors and its record. */
  method CheckRow(schema: seq<Column>, row: seq<string>, headerMap: map<string, nat>, line: nat, isNumber: string -> bool)
    returns (rowErrors: seq<Problem>, record: map<string, string>)
    ensures rowErrors == RowProblems(schema, row, headerMap, line, isNumber)
    ensures record == RecordFields(schema, row, headerMap)
  {
    record := map[];
    rowErrors := [];
    var f := 0;
    while f < |schema|
      invariant 0 <= f <= |schema|
      invariant rowErrors == RowProblems(schema[..f], row, headerMap, line, isNumber)
      invariant record == RecordFields(schema[..f], row, headerMap)
    {
      RowSnoc(schema, f, row, headerMap, line, isNumber);
      var field := schema[f];
      var cellValue := CellValue(row, headerMap, field.header);
      var cellErrors := CheckCell(field, cellValue, line, isNumber);
      rowErrors := rowErrors + cellErrors;
      record := record[field.header := cellValue];
      f := f + 1;
    }
    assert schema[..|schema|] == schema;
  }

  /** The loop over the data rows: all row errors and the records of the
      rows without errors. */
  method CheckRows(schema: seq<Column>, rows: seq<seq<string>>, headerMap: map<string, nat>, ids: seq<string>, isNumber: string -> bool)
    returns (errors: seq<Problem>, newRecords: seq<Record>)
    requires |ids| >= |rows|
    ensures errors == AllRowProblems(schema, rows, headerMap, isNumber)
    ensures newRecords == Accepted(schema, rows, headerMap, ids, isNumber)
  {
    errors := [];
    newRecords := [];
    var k := 0;
    while k < |rows|
      invariant 0 <= k <= |rows|
      invariant errors == AllRowProblems(schema, rows[..k], headerMap, isNumber)
      invariant newRecords == Accepted(schema, rows[..k], headerMap, ids, isNumber)
    {
      assert rows[..k + 1][..k] == rows[..k];
      var rowErrors, record := CheckRow(schema, rows[k], headerMap, k + 2, isNumber);
      errors := errors + rowErrors;
      if rowErrors == [] {
        newRecords := newRecords + [Entry(ids[k], record)];
      }
      k := k + 1;
    }
    assert rows[..|rows|] == rows;
  }

  /** The body of `handleImport` after parsing. */
  method RunImport(schema: seq<Column>, parsed: seq<seq<string>>, prev: seq<Record>, ids: seq<string>, isNumber: string -> bool) returns (o: Outcome)
    requires |parsed| >= 1 && |ids| >= |parsed| - 1
    ensures o == ImportRows(schema, parsed, prev, ids, isNumber)
  {
    var headerMap := BuildHeaderMap(parsed[0]);
    var errors := FindMissing(schema, headerMap);
    if |errors| > 0 {
      return HeaderRejected(errors);
    }
    var rowErrors, newRecords := CheckRows(schema, parsed[1..], headerMap, ids, isNumber);
    if |rowErrors| > 0 {
      return RowsRejected(|rowErrors|, rowErrors[..Min(10, |rowErrors|)]);
    }
    o := Imported(prev + newRecords, |newRecords|);
  }

  // ---------------------------------------------------------------------
  // Feedback
  // ---------------------------------------------------------------------

  /** The decimal digits of `n`, as a template literal shows it. */
  function Decimal(n: nat): (s: string)
    ensures |s| >= 1 && forall i :: 0 <= i < |s| ==> '0' <= s[i] <= '9'
    ensures |s| > 1 ==> s[0] != '0'
  {
    if n < 10 then [Digit(n)] else Decimal(n / 10) + [Digit(n % 10)]
  }

  function Digit(d: nat): char
    requires d < 10
  {
    ('0' as int + d) as char
  }

  /** Reads decimal digits back; the inverse of `Decimal`. */
  function DecimalValue(s: string): int
    decreases |s|
  {
    if s == [] then 0 else DecimalValue(s[..|s| - 1]) * 10 + (s[|s| - 1] as int - '0' as int)
  }

  lemma {:induction false} DecimalRoundTrip(n: nat)
    ensures DecimalValue(Decimal(n)) == n
    decreases n
  {
    if n >= 10 {
      DecimalRoundTrip(n / 10);
      var s := Decimal(n);
      assert s[..|s| - 1] == Decimal(n / 10);
    }
  }

  datatype Feedback = Feedback(success: bool, message: string)

  const NoFileMessage := "请选择一个CSV文件。"

  function ProblemText(p: Problem): string {
    match p
    case MissingColumn(h) => "CSV文件缺少必需的列: " + h
    case EmptyRequired(line, h) => "第 " + Decimal(line) + " 行: 必需字段 '" + h + "' 为空。"
    case NotNumber(line, h) => "第 " + Decimal(line) + " 行: 字段 '" + h + "' 必须是数字。"
  }

  function ProblemTexts(ps: seq<Problem>): (r: seq<string>)
    ensures |r| == |ps|
  {
    if ps == [] then [] else [ProblemText(ps[0])] + ProblemTexts(ps[1..])
  }

  /** The message `handleImport` shows for an outcome; it reports success
      exactly when the rows were imported. */
  function FeedbackOf(o: Outcome): (f: Feedback)
    ensures f.success <==> o.Imported?
  {
    match o
    case HeaderRejected(ps) => Feedback(false, JoinWith(ProblemTexts(ps), "\n"))
    case RowsRejected(total, listed) =>
      Feedback(false, "发现 " + Decimal(total) + " 个错误，导入已中止。\n- " + JoinWith(ProblemTexts(listed), "\n- "))
    case Imported(_, added) => Feedback(true, "导入成功。添加了 " + Decimal(added) + " 条记录。")
  }

  /** Parsing the file text and importing its rows into the list of type `t`. */
  method ImportText(t: ImportType, text: string, prev: seq<Record>, ids: seq<string>, isNumber: string -> bool) returns (o: Outcome)
    requires |Parse(text)| >= 1 && |ids| >= |Parse(text)| - 1
    ensures o == ImportRows(Schema(t), Parse(text), prev, ids, isNumber)
  {
    var parsed := ParseCsv(text);
    o := RunImport(Schema(t), parsed, prev, ids, isNumber);
  }

  // ---------------------------------------------------------------------
  // The component
  // ---------------------------------------------------------------------

  /** `DataImporter`'s state, with the five lists its setters replace. */
  class DataImporter {
    var importType: ImportType
    /** The chosen file, as its text. */
    var file: Option<string>
    var isLoading: bool
    var feedback: Option<Feedback>
    var lists: map<ImportType, seq<Record>>

    ghost predicate Valid()
      reads this
    {
      forall t: ImportType :: t in lists
    }

    constructor (lists0: map<ImportType, seq<Record>>)
      requires forall t: ImportType :: t in lists0
      ensures Valid()
      ensures importType == Collaborations && file == None && !isLoading && feedback == None && lists == lists0
    {
      importType := Collaborations;
      file := None;
      isLoading := false;
      feedback := None;
      lists := lists0;
    }

    /** `handleImport`. `ids` are the fresh ids drawn for the data rows and
        `isNumber` stands for `!isNaN(Number(v))`. A chosen file must parse
        to at least one row. */
    method HandleImport(ids: seq<string>, isNumber: string -> bool)
      requires Valid()
      requires file.Some? ==> |Parse(file.value)| >= 1 && |ids| >= |Parse(file.value)| - 1
      modifies this
      ensures Valid() && importType == old(importType)
      ensures old(file).None? ==>
        feedback == Some(Feedback(false, NoFileMessage)) && file == old(file)
        && isLoading == old(isLoading) && lists == old(lists)
      ensures old(file).Some? ==>
        var o := ImportRows(Schema(importType), Parse(old(file).value), old(lists)[importType], ids, isNumber);
        && feedback == Some(FeedbackOf(o))
        && !isLoading
        && lists == (if o.Imported? then old(lists)[importType := o.list] else old(lists))
        && file == (if o.Imported? then None else old(file))
    {
      if file.None? {
        feedback := Some(Feedback(false, NoFileMessage));
        return;
      }
      isLoading := true;
      feedback := None;
      var o := ImportText(importType, file.value, lists[importType], ids, isNumber);
      Conclude(o);
    }

    /** The end of `handleImport` once the outcome is known: the rows go into
        the chosen list and the file is cleared only on success; the
        feedback is shown and loading ends either way. */
    method Conclude(o: Outcome)
      requires Valid()
      modifies this
      ensures Valid() && importType == old(importType)
      ensures feedback == Some(FeedbackOf(o)) && !isLoading
      ensures lists == (if o.Imported? then old(lists)[importType := o.list] else old(lists))
      ensures file == (if o.Imported? then None else old(file))
    {
      if o.Imported? {
        lists := lists[importType := o.list];
        feedback := Some(FeedbackOf(o));
        file := None;
      } else {
        feedback := Some(FeedbackOf(o));
      }
      isLoading := false;
    }
  }
}
