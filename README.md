# Excel data export transform

This project models the export transform of the `ExcelDataExtension` viewer
extension. The transform turns the property records of the selected objects
into SheetJS-style data:

- `generateSpreadsheet` builds one worksheet from one object's property
  records. Row 0 holds the four header labels. Each record whose
  `displayCategory` does not start with `__` gets the next row. Its
  `displayCategory`, `displayName`, `displayValue` and `units` values go into
  columns 0 to 3 as text cells. Finally, `'!ref'` is set to the range
  `A1:D<rows + 1>`.
- `generateWorkbook` walks the `{ dbId, properties }` items in order. For each
  item it appends the sheet name `dbID <dbId>` to `SheetNames` and stores that
  item's worksheet under the name in `Sheets`.

Two Dafny modules make up the model:

- `Js` (`js.dfy`) holds the JavaScript behaviour the transform relies on:
  property values, truthiness, `toString`, integer-to-decimal conversion,
  `startsWith` and `indexOf`.
- `ExcelDataExtension` (`excel_data.dfy`) holds the data model and the two
  operations.

Both operations are methods with the loops of the source:

- `GenerateSpreadsheet` loops over the records.
- `WriteRow` is its inner loop over `Object.keys(prop)`. It visits the keys in
  an arbitrary order.
- `GenerateWorkbook` loops over the items.

Each method is proved equal to a specification function: `Spreadsheet`,
`RowCells`, and `WorkbookOf`. Lemmas about those functions state what the
source promises.

`WorkbookOf` is `Assemble` applied with `Spreadsheet`. `Assemble` takes the
sheet builder as a parameter, so the workbook lemmas are proved once for any
builder and then applied to `Spreadsheet`.

Three behaviours of the code are stated exactly:

- `'!ref'` is `A1:D<n + 2>` for `n` exported records. The range therefore
  reaches one row past the last written row (row `n`, zero-based).
  `RangeCoversCells` states this exactly.
- A known key that is absent from a record writes no cell (a sparse row). It
  does not write an empty-string cell.
- Two items with the same `dbId` raise no error. The name is listed twice, and
  the later worksheet replaces the earlier one in `Sheets` (`LastItemWins`,
  `SheetNamesCollide`).

## Model

| member | source | states |
|---|---|---|
| ExcelDataExtension.GenerateSpreadsheet | public/extensions/ExcelDataExtension/contents/main.js:96-119 | the header writes, the record loop with its skip test and row counter, and the final range give exactly the worksheet `Spreadsheet(props)`, whose meaning the lemmas below state |
| ExcelDataExtension.WriteRow | public/extensions/ExcelDataExtension/contents/main.js:108-114 | visiting the record's keys in any order adds exactly the record's row cells: one text cell per exported key, in that key's column, and nothing for other keys |
| ExcelDataExtension.GenerateWorkbook | public/extensions/ExcelDataExtension/contents/main.js:82-93 | the item loop (push the name, store the generated sheet under it) gives exactly `WorkbookOf(data)` |
| ExcelDataExtension.HeaderRow | public/extensions/ExcelDataExtension/contents/main.js:99-102 | row 0, columns 0 to 3, always holds the text cells `Category`, `Name`, `Value`, `Units`, whatever the records |
| ExcelDataExtension.SkippedRecordIsInvisible | public/extensions/ExcelDataExtension/contents/main.js:104-107 | inserting a record whose category starts with `__` anywhere in the input leaves the worksheet, cells and range, unchanged |
| ExcelDataExtension.KeptAreNotSkipped | public/extensions/ExcelDataExtension/contents/main.js:104-107 | no record that gets a row has a category starting with `__` |
| ExcelDataExtension.KeptRecordTakesOneRow | public/extensions/ExcelDataExtension/contents/main.js:103-115 | a record that is not skipped advances the row count by exactly one, whatever other exported keys it has |
| ExcelDataExtension.RecordOwnsItsRow | public/extensions/ExcelDataExtension/contents/main.js:103-115 | a non-skipped record gets row 1 + (number of earlier non-skipped records); column `c` of that row exists exactly when the record has the `c`-th exported key, and holds that value's text |
| ExcelDataExtension.CellsAreText | public/extensions/ExcelDataExtension/contents/main.js:108-113 | every cell is a text cell in columns 0 to 3; every data cell in row `k` holds the text of an exported value of the `k`-th non-skipped record |
| ExcelDataExtension.SheetCellsAt | public/extensions/ExcelDataExtension/contents/main.js:99-115 | a cell exists exactly at the header positions and at (column of an exported key the `k`-th kept record has, row `k`), with the header label or the value's text |
| ExcelDataExtension.RowCellsAt | public/extensions/ExcelDataExtension/contents/main.js:108-113 | the row written for a record has a cell at column `c` exactly when the record has the `c`-th exported key, holding `(val && val.toString()) \|\| ''` |
| ExcelDataExtension.RangeCoversCells | public/extensions/ExcelDataExtension/contents/main.js:103-117 | `'!ref'` is `A1:D` followed by the decimal digits of `n + 2` for `n` kept records; every cell lies in columns 0 to 3 and rows 0 to `n`, and row `n` holds a cell, so the range ends one row past the last written row |
| ExcelDataExtension.EmptyRange | public/extensions/ExcelDataExtension/contents/main.js:103-117 | when every record is skipped, or there are none, no row is written and `'!ref'` is `A1:D2` |
| ExcelDataExtension.AssembledNamesInOrder | public/extensions/ExcelDataExtension/contents/main.js:87-89 | for any sheet builder, the name list has one entry per item, and entry `i` is `dbID <dbId of item i>`: nothing is sorted or removed |
| ExcelDataExtension.SheetNamesInOrder | public/extensions/ExcelDataExtension/contents/main.js:87-89 | the same for the workbook `generateWorkbook` builds |
| ExcelDataExtension.AssembledSheetsMatchNames | public/extensions/ExcelDataExtension/contents/main.js:87-90 | for any sheet builder, a name is a key of `Sheets` exactly when it is in `SheetNames` |
| ExcelDataExtension.SheetsMatchNames | public/extensions/ExcelDataExtension/contents/main.js:87-90 | the same for the workbook `generateWorkbook` builds |
| ExcelDataExtension.OtherSheetsUntouched | public/extensions/ExcelDataExtension/contents/main.js:90 | storing the last item's sheet leaves every sheet under another name as it was |
| ExcelDataExtension.AssembledLastItemWins | public/extensions/ExcelDataExtension/contents/main.js:87-90 | for any sheet builder, an item's name maps to the sheet built from that item's properties unless a later item has the same `dbId` |
| ExcelDataExtension.LastItemWins | public/extensions/ExcelDataExtension/contents/main.js:87-90 | an item's name maps to `generateSpreadsheet` of that item's properties unless a later item has the same `dbId`, which then overwrites it |
| ExcelDataExtension.SheetNamesCollide | public/extensions/ExcelDataExtension/contents/main.js:88-89 | two entries of `SheetNames` are equal exactly when the two items have the same `dbId`, so duplicate ids are listed twice |
| ExcelDataExtension.SheetNameInjective | public/extensions/ExcelDataExtension/contents/main.js:88 | the template `dbID ${dbId}` gives different names to different ids |
| Js.IndexOf | public/extensions/ExcelDataExtension/contents/main.js:109-110 | `indexOf` returns -1 exactly when the key is not a column name, and otherwise the first index that holds it |
| Js.CellTextMeaning | public/extensions/ExcelDataExtension/contents/main.js:112 | a truthy value's cell text is its `toString()`; the text is `''` exactly for falsy values (`''`, `0`, `false`, `null`, `undefined`) |
| Js.IntToStringInjective | public/extensions/ExcelDataExtension/contents/main.js:88 | the sign-and-digits text of an integer, which is what a template literal writes for a safe integer, is different for different integers |
| Js.DecimalRoundTrip | public/extensions/ExcelDataExtension/contents/main.js:117 | reading back the decimal text of a natural number gives that number, so the digits in `'!ref'` denote `rows + 1` |

## Left out

- The extension's lifecycle and toolbar UI (`load`, `unload`, `onToolbarCreated` and the button handler, main.js:26-69) are host plumbing against the viewer API.
- `collectData` (main.js:72-79) is an asynchronous host query. Its result is the `data` parameter of `GenerateWorkbook`.
- `downloadWorkbook` (main.js:122-129) encodes the workbook with the SheetJS writer and triggers a browser download. This is external library code and browser I/O.
- The block comment at main.js:132-372 never runs.
- Cell addresses are kept abstract as `(c, r)` pairs. This relies on one assumption about `XLSX.utils.encode_cell`: it maps different addresses to different keys, none equal to `'!ref'`. Its actual A1 text is not modelled, so `'!ref'` is a separate field of `Sheet`.
- Property values are strings, integers, booleans, `null` and `undefined`. Floating-point numbers and object values are not modelled, because their `toString` (exponent and fraction formatting) is engine behaviour.
- Js.IntToString, Js.IntToStringInjective, ExcelDataExtension.SheetNameInjective: a JavaScript number is a double, whose text is plain decimal digits only for magnitudes below 1e21 and which holds integers exactly only below 2^53. The model assumes every numeric property value and every `dbId` is a safe integer (magnitude below 2^53); for larger numbers the text (such as `1e+21`) and the injectivity of sheet names are not modelled.
- GenerateSpreadsheet: a record whose `displayCategory` is not a string makes `startsWith` throw a `TypeError`. The button handler catches it and the export is abandoned. The methods therefore require every record to have a string category instead of modelling the exception.
- WriteRow: `Object.keys` visits keys in insertion order. The model visits them in an arbitrary order. Each exported key has its own column, so the result is the same for every order.
- WriteRow: the source calls `indexOf` twice on the same arguments. The model calls it once, since it is a pure lookup.
