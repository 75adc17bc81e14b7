/** The export transform of the Excel data extension: property records of the
    selected objects become SheetJS-style worksheets (a dictionary of cells
    plus a `'!ref'` range), and one worksheet per object is gathered into a
    workbook (an ordered list of sheet names plus a name-to-sheet dictionary). */
module ExcelDataExtension {
  import opened Js

  /** One property record, as the JavaScript object it is: property name to value. */
  datatype Record = Record(fields: map<string, Value>)

  /** One entry of the bulk-property query result: an object id and its records. */
  datatype Item = Item(dbId: int, properties: seq<Record>)

  /** A cell address `{ c, r }`, both zero-based. Addresses stand for the keys
      `XLSX.utils.encode_cell` produces, which differ for different addresses. */
  datatype Addr = Addr(c: nat, r: nat)

  /** A cell object `{ v, t }`. */
  datatype Cell = Cell(v: string, t: string)

  /** A worksheet: the cells under their encoded addresses and the `'!ref'` entry. */
  datatype Sheet = Sheet(cells: map<Addr, Cell>, ref: string)

  /** A workbook `{ SheetNames, Sheets }`. */
  datatype Workbook = Workbook(sheetNames: seq<string>, sheets: map<string, Sheet>)

  /** The record keys that are exported, in column order. */
  const Columns: seq<string> := ["displayCategory", "displayName", "displayValue", "units"]

  /** The header labels of row 0, in column order. */
  const Headers: seq<string> := ["Category", "Name", "Value", "Units"]

  /** The SheetJS type tag of a text cell. */
  const TextType: string := "s"

  /** Categories that start with this marker are internal and are not exported. */
  const ReservedPrefix: string := "__"

  /** The record has a string `displayCategory`, so `startsWith` can be called on it. */
  predicate HasCategory(rec: Record) {
    "displayCategory" in rec.fields && rec.fields["displayCategory"].Str?
  }

  predicate AllHaveCategory(props: seq<Record>) {
    forall i :: 0 <= i < |props| ==> HasCategory(props[i])
  }

  predicate AllItemsHaveCategory(data: seq<Item>) {
    forall i :: 0 <= i < |data| ==> AllHaveCategory(data[i].properties)
  }

  /** The skip test of the export loop. It is only ever asked of records with a
      string category, since `startsWith` throws on anything else. */
  predicate Skipped(rec: Record) {
    HasCategory(rec) && StartsWith(rec.fields["displayCategory"].s, ReservedPrefix)
  }

  /** The records that get a row, in input order. */
  function Kept(props: seq<Record>): (kept: seq<Record>)
    ensures |kept| <= |props|
  {
    if props == [] then []
    else
      var last := props[|props| - 1];
      Kept(props[..|props| - 1]) + (if Skipped(last) then [] else [last])
  }

  /** The cells one record writes in row `r`: one per exported key it has. */
  function RowCells(fields: map<string, Value>, r: nat): (cells: map<Addr, Cell>)
  {
    map c | 0 <= c < |Columns| && Columns[c] in fields :: Addr(c, r) := Cell(CellText(fields[Columns[c]]), TextType)
  }

  /** The four header cells of row 0. */
  function HeaderCells(): (cells: map<Addr, Cell>)
  {
    map[Addr(0, 0) := Cell(Headers[0], TextType),
        Addr(1, 0) := Cell(Headers[1], TextType),
        Addr(2, 0) := Cell(Headers[2], TextType),
        Addr(3, 0) := Cell(Headers[3], TextType)]
  }

  /** The cells after the header and one row per kept record, written in order. */
  function SheetCells(kept: seq<Record>): (cells: map<Addr, Cell>)
  {
    if kept == [] then HeaderCells()
    else SheetCells(kept[..|kept| - 1]) + RowCells(kept[|kept| - 1].fields, |kept|)
  }

  /** The text of `'!ref'`: columns A to D, rows 1 to `lastRow` (one-based). */
  function RangeText(lastRow: nat): (text: string)
  {
    "A1:D" + NatToDecimal(lastRow)
  }

  /** The worksheet `generateSpreadsheet(props)` returns; `rows` is the value of
      the row counter after the loop. */
  function Spreadsheet(props: seq<Record>): (sheet: Sheet)
  {
    var kept := Kept(props);
    var rows := |kept| + 1;
    Sheet(SheetCells(kept), RangeText(rows + 1))
  }

  /** The name of the sheet for object `dbId`: the template `dbID ${dbId}`. */
  function SheetName(dbId: int): (name: string)
  {
    "dbID " + IntToString(dbId)
  }

  /** The workbook built item by item in order: the item's sheet name is
      appended to the name list and the sheet `build` makes of its properties
      is stored under that name, replacing any earlier sheet of that name. */
  function Assemble(data: seq<Item>, build: seq<Record> -> Sheet): (wb: Workbook)
  {
    if data == [] then Workbook([], map[])
    else
      var wb := Assemble(data[..|data| - 1], build);
      var item := data[|data| - 1];
      var name := SheetName(item.dbId);
      Workbook(wb.sheetNames + [name], wb.sheets[name := build(item.properties)])
  }

  /** The workbook `generateWorkbook(data)` returns. */
  function WorkbookOf(data: seq<Item>): (wb: Workbook)
  {
    Assemble(data, Spreadsheet)
  }

  // ---------------------------------------------------------------------------
  // The two operations, as the loops they are.

  /** The inner loop of `generateSpreadsheet`: walks the record's keys and
      writes the exported ones into row `rows`; other keys are ignored. The
      keys are visited in an arbitrary order, since each exported key has its
      own column and the outcome does not depend on the order. */
  method WriteRow(spreadsheet: map<Addr, Cell>, prop: Record, rows: nat) returns (updated: map<Addr, Cell>)
    ensures updated == spreadsheet + RowCells(prop.fields, rows)
  {
    updated := spreadsheet;
    var keys := prop.fields.Keys;
    ghost var done: map<string, Value> := map[];
    while keys != {}
      invariant forall k :: k in prop.fields <==> k in done || k in keys
      invariant forall k :: k in done ==> k !in keys && done[k] == prop.fields[k]
      invariant updated == spreadsheet + RowCells(done, rows)
      decreases keys
    {
      var key :| key in keys;
      var column := IndexOf(Columns, key);
      var val := prop.fields[key];
      if column != -1 {
        var cell := Cell(CellText(val), TextType);
        assert updated[Addr(column, rows) := cell] == spreadsheet + RowCells(done[key := val], rows) by {
          RowCellsAddExported(done, rows, column, val);
          UpdateAfterUnion(spreadsheet, RowCells(done, rows), Addr(column, rows), cell);
        }
        updated := updated[Addr(column, rows) := cell];
      } else {
        assert RowCells(done[key := val], rows) == RowCells(done, rows) by {
          RowCellsAddIgnored(done, rows, key, val);
        }
      }
      done := done[key := val];
      keys := keys - {key};
    }
    assert done == prop.fields;
  }

  /** Builds the worksheet for one object's property records. */
  method GenerateSpreadsheet(props: seq<Record>) returns (sheet: Sheet)
    requires AllHaveCategory(props)
    ensures sheet == Spreadsheet(props)
  {
    var spreadsheet: map<Addr, Cell> := map[];
    spreadsheet := spreadsheet[Addr(0, 0) := Cell("Category", TextType)];
    spreadsheet := spreadsheet[Addr(1, 0) := Cell("Name", TextType)];
    spreadsheet := spreadsheet[Addr(2, 0) := Cell("Value", TextType)];
    spreadsheet := spreadsheet[Addr(3, 0) := Cell("Units", TextType)];
    HeaderWrites();
    var rows := 1;
    ghost var kept: seq<Record> := [];
    assert props[..0] == [];
    for i := 0 to |props|
      invariant kept == Kept(props[..i])
      invariant rows == |kept| + 1
      invariant spreadsheet == SheetCells(kept)
    {
      var prop := props[i];
      KeptStep(props, i);
      if StartsWith(prop.fields["displayCategory"].s, "__") {
        assert Skipped(prop);
        continue;
      }
      ghost var previous := spreadsheet;
      spreadsheet := WriteRow(spreadsheet, prop, rows);
      SheetCellsStep(kept, prop, previous, spreadsheet);
      kept := kept + [prop];
      rows := rows + 1;
    }
    assert props[..|props|] == props;
    RangeTextOf(rows + 1);
    sheet := Sheet(spreadsheet, "A1:D" + IntToString(rows + 1));
  }

  /** Builds the workbook: one sheet per item, named after its object id. */
  method GenerateWorkbook(data: seq<Item>) returns (workbook: Workbook)
    requires AllItemsHaveCategory(data)
    ensures workbook == WorkbookOf(data)
  {
    var sheetNames: seq<string> := [];
    var sheets: map<string, Sheet> := map[];
    for i := 0 to |data|
      invariant Workbook(sheetNames, sheets) == Assemble(data[..i], Spreadsheet)
    {
      assert data[..i + 1][..i] == data[..i];
      var name := "dbID " + IntToString(data[i].dbId);
      sheetNames := sheetNames + [name];
      var sheet := GenerateSpreadsheet(data[i].properties);
      sheets := sheets[name := sheet];
    }
    assert data[..|data|] == data;
    workbook := Workbook(sheetNames, sheets);
  }

  // ---------------------------------------------------------------------------
  // What the worksheet holds.

  /** The four header writes give the cells of a worksheet with no rows. */
  lemma HeaderWrites()
    ensures map[][Addr(0, 0) := Cell("Category", TextType)][Addr(1, 0) := Cell("Name", TextType)]
      [Addr(2, 0) := Cell("Value", TextType)][Addr(3, 0) := Cell("Units", TextType)] == SheetCells([])
  {
  }

  /** The template `A1:D${n}` is the range text of `n`. */
  lemma RangeTextOf(n: nat)
    ensures "A1:D" + IntToString(n) == RangeText(n)
  {
  }

  /** One more record either is skipped or is kept after the earlier ones. */
  lemma KeptStep(props: seq<Record>, i: nat)
    requires i < |props|
    ensures Skipped(props[i]) ==> Kept(props[..i + 1]) == Kept(props[..i])
    ensures !Skipped(props[i]) ==> Kept(props[..i + 1]) == Kept(props[..i]) + [props[i]]
  {
    assert props[..i + 1][..i] == props[..i];
  }

  /** One more kept record adds its row after the earlier rows. */
  lemma SheetCellsStep(kept: seq<Record>, rec: Record, before: map<Addr, Cell>, after: map<Addr, Cell>)
    requires before == SheetCells(kept)
    requires after == before + RowCells(rec.fields, |kept| + 1)
    ensures after == SheetCells(kept + [rec])
  {
    assert (kept + [rec])[..|kept|] == kept;
  }

  /** A record writes a cell at column `c` of its row exactly when it has the
      `c`-th exported key, and the cell holds that value's text. */
  lemma RowCellsAt(fields: map<string, Value>, r: nat, a: Addr)
    ensures a in RowCells(fields, r) <==> a.r == r && a.c < |Columns| && Columns[a.c] in fields
    ensures a in RowCells(fields, r) ==> RowCells(fields, r)[a] == Cell(CellText(fields[Columns[a.c]]), TextType)
  {
    if a.r == r && a.c < |Columns| && Columns[a.c] in fields {
      assert Addr(a.c, r) == a;
    }
  }

  /** Writing a key after a union is writing it into the right operand. */
  lemma UpdateAfterUnion<K, V>(m: map<K, V>, n: map<K, V>, k: K, v: V)
    ensures (m + n)[k := v] == m + n[k := v]
  {
  }

  /** The four exported keys are different strings. */
  lemma ColumnsDistinct()
    ensures forall i, j :: 0 <= i < j < |Columns| ==> Columns[i] != Columns[j]
  {
    assert |Columns[0]| == 15 && |Columns[1]| == 11 && |Columns[2]| == 12 && |Columns[3]| == 5;
  }

  /** Giving a record an exported key adds (or replaces) the cell of that key's column. */
  lemma RowCellsAddExported(fields: map<string, Value>, r: nat, col: nat, val: Value)
    requires col < |Columns|
    ensures RowCells(fields[Columns[col] := val], r) == RowCells(fields, r)[Addr(col, r) := Cell(CellText(val), TextType)]
  {
    var grown := fields[Columns[col] := val];
    var rhs := RowCells(fields, r)[Addr(col, r) := Cell(CellText(val), TextType)];
    forall a
      ensures a in RowCells(grown, r) <==> a in rhs
      ensures a in rhs ==> RowCells(grown, r)[a] == rhs[a]
    {
      RowCellsAt(grown, r, a);
      RowCellsAt(fields, r, a);
      if a.c < |Columns| && a.c != col {
        ColumnsDistinct();
        assert Columns[a.c] != Columns[col];
      }
    }
  }

  /** Giving a record a key that is not exported changes none of its cells. */
  lemma RowCellsAddIgnored(fields: map<string, Value>, r: nat, key: string, val: Value)
    requires key !in Columns
    ensures RowCells(fields[key := val], r) == RowCells(fields, r)
  {
    var grown := fields[key := val];
    forall a
      ensures a in RowCells(grown, r) <==> a in RowCells(fields, r)
      ensures a in RowCells(fields, r) ==> RowCells(grown, r)[a] == RowCells(fields, r)[a]
    {
      RowCellsAt(grown, r, a);
      RowCellsAt(fields, r, a);
      if a.c < |Columns| {
        assert Columns[a.c] != key;
      }
    }
  }

  /** The whole content of the cell dictionary: row 0 holds the headers, and
      row `k` (from 1) holds the exported keys of the `k`-th kept record. */
  lemma {:induction false} SheetCellsAt(kept: seq<Record>, a: Addr)
    ensures a in SheetCells(kept) <==>
      a.c < |Columns| && (a.r == 0 || (a.r <= |kept| && Columns[a.c] in kept[a.r - 1].fields))
    ensures a in SheetCells(kept) ==>
      SheetCells(kept)[a] == Cell(if a.r == 0 then Headers[a.c] else CellText(kept[a.r - 1].fields[Columns[a.c]]), TextType)
  {
    if kept != [] {
      var init := kept[..|kept| - 1];
      SheetCellsAt(init, a);
      RowCellsAt(kept[|kept| - 1].fields, |kept|, a);
      if 1 <= a.r < |kept| {
        assert kept[a.r - 1] == init[a.r - 1];
      }
    } else {
      HeaderCellsAt(a);
    }
  }

  /** The header cells: columns A to D of row 0, holding the four labels. */
  lemma HeaderCellsAt(a: Addr)
    ensures a in HeaderCells() <==> a.c < |Columns| && a.r == 0
    ensures a in HeaderCells() ==> HeaderCells()[a] == Cell(Headers[a.c], TextType)
  {
  }

  /** Filtering distributes over concatenation. */
  lemma {:induction false} KeptAppend(a: seq<Record>, b: seq<Record>)
    ensures Kept(a + b) == Kept(a) + Kept(b)
  {
    if b != [] {
      var b' := b[..|b| - 1];
      assert (a + b)[..|a + b| - 1] == a + b';
      KeptAppend(a, b');
    } else {
      assert a + b == a;
    }
  }

  /** No kept record is in the reserved category. */
  lemma {:induction false} KeptAreNotSkipped(props: seq<Record>)
    ensures forall k :: 0 <= k < |Kept(props)| ==> !Skipped(Kept(props)[k])
  {
    if props != [] {
      KeptAreNotSkipped(props[..|props| - 1]);
    }
  }

  /** The kept records are records of the input, so they have a string category. */
  lemma {:induction false} KeptHaveCategory(props: seq<Record>)
    requires AllHaveCategory(props)
    ensures forall k :: 0 <= k < |Kept(props)| ==> HasCategory(Kept(props)[k])
  {
    if props != [] {
      var init := props[..|props| - 1];
      KeptHaveCategory(init);
    }
  }

  /** Row 0 always holds the four header labels as text cells. */
  lemma HeaderRow(props: seq<Record>)
    ensures forall c :: 0 <= c < 4 ==>
      Addr(c, 0) in Spreadsheet(props).cells && Spreadsheet(props).cells[Addr(c, 0)] == Cell(Headers[c], TextType)
    ensures Headers == ["Category", "Name", "Value", "Units"]
  {
    forall c | 0 <= c < 4
      ensures Addr(c, 0) in Spreadsheet(props).cells && Spreadsheet(props).cells[Addr(c, 0)] == Cell(Headers[c], TextType)
    {
      SheetCellsAt(Kept(props), Addr(c, 0));
    }
  }

  /** A record in the reserved category leaves the worksheet exactly as if it
      were not there: no cells, no row. */
  lemma SkippedRecordIsInvisible(before: seq<Record>, rec: Record, after: seq<Record>)
    requires Skipped(rec)
    ensures Spreadsheet(before + [rec] + after) == Spreadsheet(before + after)
  {
    assert Kept([rec]) == [] by {
      assert [rec][..0] == [];
    }
    KeptAppend(before, [rec]);
    KeptAppend(before + [rec], after);
    KeptAppend(before, after);
    assert Kept(before + [rec] + after) == Kept(before + after);
  }

  /** Every other record takes exactly one row, whatever keys it has. */
  lemma KeptRecordTakesOneRow(before: seq<Record>, rec: Record)
    requires HasCategory(rec)
    requires !Skipped(rec)
    ensures |Kept(before + [rec])| == |Kept(before)| + 1
  {
    KeptAppend(before, [rec]);
  }

  /** The record at index `i`, when not skipped, owns row `k` = 1 + the number of
      kept records before it: column `c` of that row is written exactly when
      the record has the `c`-th exported key, with the text of its value. */
  lemma RecordOwnsItsRow(props: seq<Record>, i: nat, c: nat)
    requires i < |props| && !Skipped(props[i])
    requires c < 4
    ensures Addr(c, |Kept(props[..i])| + 1) in Spreadsheet(props).cells <==> Columns[c] in props[i].fields
    ensures Columns[c] in props[i].fields ==>
      Spreadsheet(props).cells[Addr(c, |Kept(props[..i])| + 1)] == Cell(CellText(props[i].fields[Columns[c]]), TextType)
  {
    var pre, post := props[..i], props[i + 1..];
    assert props == pre + [props[i]] + post;
    KeptAppend(pre, [props[i]]);
    KeptAppend(pre + [props[i]], post);
    var k := |Kept(pre)| + 1;
    assert Kept(props)[k - 1] == props[i];
    SheetCellsAt(Kept(props), Addr(c, k));
  }

  /** Every cell is a text cell in columns A-D, every data cell holds the text
      of a value its record has, and no record writes outside its own row. */
  lemma CellsAreText(props: seq<Record>)
    ensures forall a :: a in Spreadsheet(props).cells ==>
      a.c < 4 && Spreadsheet(props).cells[a].t == TextType
    ensures forall a :: a in Spreadsheet(props).cells && a.r > 0 ==>
      a.r <= |Kept(props)| && Columns[a.c] in Kept(props)[a.r - 1].fields &&
      Spreadsheet(props).cells[a].v == CellText(Kept(props)[a.r - 1].fields[Columns[a.c]])
  {
    forall a | a in Spreadsheet(props).cells
      ensures a.c < 4 && Spreadsheet(props).cells[a].t == TextType
      ensures a.r > 0 ==>
        (a.r <= |Kept(props)| && Columns[a.c] in Kept(props)[a.r - 1].fields &&
         Spreadsheet(props).cells[a].v == CellText(Kept(props)[a.r - 1].fields[Columns[a.c]]))
    {
      SheetCellsAt(Kept(props), a);
    }
  }

  /** `'!ref'` is `A1:D<n+2>` for `n` kept records, that is zero-based rows 0
      to `n + 1`. The cells occupy rows 0 to `n` and columns A to D, so they
      all lie inside the range; row `n` always holds a cell (every kept record
      has its category), so the range reaches exactly one row past the last
      written row. */
  lemma RangeCoversCells(props: seq<Record>)
    requires AllHaveCategory(props)
    ensures var ref := Spreadsheet(props).ref;
      |ref| > 4 && ref[..4] == "A1:D" && AllDigits(ref[4..]) &&
      DecimalValue(ref[4..]) == |Kept(props)| + 2
    ensures forall a :: a in Spreadsheet(props).cells ==> a.c <= 3 && a.r <= |Kept(props)|
    ensures Addr(0, |Kept(props)|) in Spreadsheet(props).cells
  {
    var kept := Kept(props);
    var n := |kept|;
    var ref := Spreadsheet(props).ref;
    assert ref[4..] == NatToDecimal(n + 2);
    DecimalRoundTrip(n + 2);
    forall a | a in Spreadsheet(props).cells
      ensures a.c <= 3 && a.r <= n
    {
      SheetCellsAt(kept, a);
    }
    if n > 0 {
      KeptHaveCategory(props);
    }
    SheetCellsAt(kept, Addr(0, n));
  }

  /** When every record is skipped (or there are none) there are no data rows
      and the range is `A1:D2`. */
  lemma {:induction false} EmptyRange(props: seq<Record>)
    requires forall i :: 0 <= i < |props| ==> Skipped(props[i])
    ensures Kept(props) == []
    ensures Spreadsheet(props).ref == "A1:D2"
  {
    if props != [] {
      EmptyRange(props[..|props| - 1]);
    }
  }

  // ---------------------------------------------------------------------------
  // What the workbook holds.

  /** Different object ids give different sheet names. */
  lemma SheetNameInjective(a: int, b: int)
    ensures SheetName(a) == SheetName(b) <==> a == b
  {
    if SheetName(a) == SheetName(b) {
      assert SheetName(a)[5..] == IntToString(a);
      assert SheetName(b)[5..] == IntToString(b);
    }
    IntToStringInjective(a, b);
  }

  /** The last item appends its name and stores its sheet under that name. */
  lemma AssembleStep(data: seq<Item>, build: seq<Record> -> Sheet)
    requires data != []
    ensures var wb, last := Assemble(data[..|data| - 1], build), data[|data| - 1];
      Assemble(data, build).sheetNames == wb.sheetNames + [SheetName(last.dbId)] &&
      Assemble(data, build).sheets == wb.sheets[SheetName(last.dbId) := build(last.properties)]
  {
  }

  /** One sheet name per item, in item order, nothing sorted or removed. */
  lemma {:induction false} AssembledNamesInOrder(data: seq<Item>, build: seq<Record> -> Sheet)
    ensures |Assemble(data, build).sheetNames| == |data|
    ensures forall i :: 0 <= i < |data| ==> Assemble(data, build).sheetNames[i] == SheetName(data[i].dbId)
  {
    if data != [] {
      var init := data[..|data| - 1];
      AssembledNamesInOrder(init, build);
      var names := Assemble(data, build).sheetNames;
      assert names == Assemble(init, build).sheetNames + [SheetName(data[|data| - 1].dbId)];
      forall i | 0 <= i < |data|
        ensures names[i] == SheetName(data[i].dbId)
      {
        if i < |data| - 1 {
          assert data[i] == init[i];
        }
      }
    }
  }

  /** The same for the workbook `generateWorkbook` builds. */
  lemma SheetNamesInOrder(data: seq<Item>)
    ensures |WorkbookOf(data).sheetNames| == |data|
    ensures forall i :: 0 <= i < |data| ==> WorkbookOf(data).sheetNames[i] == SheetName(data[i].dbId)
  {
    AssembledNamesInOrder(data, Spreadsheet);
  }

  /** The names in `Sheets` are exactly the names in `SheetNames`. */
  lemma SheetsMatchNames(data: seq<Item>)
    ensures forall name :: name in WorkbookOf(data).sheets <==> name in WorkbookOf(data).sheetNames
  {
    AssembledSheetsMatchNames(data, Spreadsheet);
  }

  /** Every stored sheet is under a listed name, and every listed name has a sheet. */
  lemma {:induction false} AssembledSheetsMatchNames(data: seq<Item>, build: seq<Record> -> Sheet)
    ensures forall name :: name in Assemble(data, build).sheets <==> name in Assemble(data, build).sheetNames
  {
    if data != [] {
      AssembledSheetsMatchNames(data[..|data| - 1], build);
    }
  }

  /** The sheet stored under an item's name is the one built from that item,
      provided no later item has the same id; otherwise the later one has
      overwritten it. */
  lemma {:induction false} AssembledLastItemWins(data: seq<Item>, build: seq<Record> -> Sheet, i: nat)
    requires i < |data|
    requires forall j :: i < j < |data| ==> data[j].dbId != data[i].dbId
    ensures SheetName(data[i].dbId) in Assemble(data, build).sheets
    ensures Assemble(data, build).sheets[SheetName(data[i].dbId)] == build(data[i].properties)
  {
    var init := data[..|data| - 1];
    if i == |data| - 1 {
      AssembleStep(data, build);
    } else {
      assert forall j :: i < j < |init| ==> init[j] == data[j];
      AssembledLastItemWins(init, build, i);
      SheetNameInjective(data[|data| - 1].dbId, data[i].dbId);
      OtherSheetsUntouched(data, build, SheetName(data[i].dbId));
    }
  }

  /** The last item leaves the sheets stored under other names as they were. */
  lemma OtherSheetsUntouched(data: seq<Item>, build: seq<Record> -> Sheet, name: string)
    requires data != [] && name != SheetName(data[|data| - 1].dbId)
    ensures var before := Assemble(data[..|data| - 1], build).sheets;
      name in Assemble(data, build).sheets <==> name in before
    ensures var before := Assemble(data[..|data| - 1], build).sheets;
      name in before ==> Assemble(data, build).sheets[name] == before[name]
  {
    AssembleStep(data, build);
  }

  /** In the workbook `generateWorkbook` builds, the sheet under an item's name
      is that item's worksheet unless a later item has the same id. */
  lemma LastItemWins(data: seq<Item>, i: nat)
    requires i < |data|
    requires forall j :: i < j < |data| ==> data[j].dbId != data[i].dbId
    ensures SheetName(data[i].dbId) in WorkbookOf(data).sheets
    ensures WorkbookOf(data).sheets[SheetName(data[i].dbId)] == Spreadsheet(data[i].properties)
  {
    AssembledLastItemWins(data, Spreadsheet, i);
  }

  /** Two sheet names coincide exactly when the two items have the same id. */
  lemma SheetNamesCollide(data: seq<Item>, i: nat, j: nat)
    requires i < |data| && j < |data|
    ensures |WorkbookOf(data).sheetNames| == |data|
    ensures WorkbookOf(data).sheetNames[i] == WorkbookOf(data).sheetNames[j] <==> data[i].dbId == data[j].dbId
  {
    SheetNamesInOrder(data);
    SheetNameInjective(data[i].dbId, data[j].dbId);
  }
}
