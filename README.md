# Excel & CSV parser: text formatting and session logic

This project models the core of the browser component in `src/FileParser.jsx`. The component reads a
CSV or spreadsheet file and shows its cells as a monospace-aligned text block. The user can copy the
block to the clipboard or clear it. The model covers four parts:

- **The column aligner `formatData`** (`formatting.dfy`). A cell is `Option<string>`; `None` is
  JavaScript's `null`/`undefined` and prints as `""`. The first phase is the nested width loop. It is a
  method that grows a `seq<nat>` the way the JavaScript array grows past its end. It is proved to compute,
  for every column index, the longest cell text at that index in any row. The rendering phase is pure
  functions: `padEnd`, joining cells with `"  |  "` and joining rows with `"\n"`. Lemmas give the exact
  layout of the output: where each padded cell sits, where each separator sits, line lengths, pipe and
  line-break counts, and the worked example.
- **The sheet loop of `parseExcel`** (`sheets.dfy`). The workbook is a sequence of (name, rows) sheets.
  The loop is proved equal to a reference definition: a lone sheet's text, or the headed sheet texts
  joined by `"\n"`.
- **Extension dispatch** (`dispatch.dfy`). The text after the last `'.'` is lower-cased and compared with
  `csv`, `xlsx` and `xls`. This is characterised on the file name itself and proved case-insensitive.
- **The session state** (`session.dfy`). A class with the five fields `parsedData`, `fileName`, `error`,
  `copied` and `isDragging`, and one method per handler. Parser, file-reader and clipboard results are
  passed in as arguments.

`joining.dfy` holds `Array.prototype.join` over strings with its layout and counting lemmas.
`wrappers.dfy` holds `Option` and `Result`.

Where the design description and the code differ, the model follows the code:

- The code keeps no per-parse token. A parse that completes late still overwrites the text; the model's
  outcome methods apply in whatever order they are called.
- After a copy failure, both `error` and `parsedData` are non-empty. After a successful parse of an empty
  file, both are empty. So "exactly one of text and error is non-empty" is not an invariant of the code.
- When the Clipboard API is missing and the legacy copy command fails, the outer `catch` runs the legacy
  command a second time (`HandleCopy` reports `legacyRuns == 2`).
- A workbook with no sheets yields `""`. Sheet names are used exactly as the workbook lists them.

## Model

| member | source | states |
|---|---|---|
| Formatting.FormatData | src/FileParser.jsx:80-101 | an absent or empty row list gives `""`; otherwise the result is the aligned text `Format(rows)` |
| Formatting.ColumnWidths | src/FileParser.jsx:84-92 | the width loop produces one entry per column index reached by some row; every cell text at index i fits entry i, and entry i equals the text length of some cell at index i |
| Formatting.ColumnWidthIsMax | src/FileParser.jsx:86-90 | a column's width bounds every cell text in that column and equals one of them, or is 0 when no row reaches the index |
| Formatting.MaxCellsAttained | src/FileParser.jsx:86-89 | the width array is exactly as long as the longest row |
| Formatting.WidthsAreColumnMaxima | src/FileParser.jsx:84-92 | every cell fits its column's width, and every width is the text length of some cell in that column |
| Formatting.PadEnd | src/FileParser.jsx:97-98 | the padded text is as long as the larger of its length and the width; it starts with the text and the rest is spaces |
| Formatting.RowLayout | src/FileParser.jsx:95-99 | in a rendered line, cell j is its text padded to exactly the column width, at an offset fixed by the widths, followed by the separator unless it is the last cell |
| Formatting.CellLayout | src/FileParser.jsx:95-99 | the same for every row of a sheet: an absent cell is all spaces yet still fills the full width |
| Formatting.RowLength | src/FileParser.jsx:95-99 | a line is as long as its own cells and separators; a ragged row is not extended to the widest row |
| Formatting.EqualRowsEqualLines | src/FileParser.jsx:95-100 | rows with the same number of cells render to lines of identical length |
| Formatting.SeparatorsAligned | src/FileParser.jsx:95-99 | the separator after column j sits at the same offset in every line that has one |
| Formatting.SeparatorCount | src/FileParser.jsx:96-99 | a row of k cells, none containing a pipe, renders with exactly k-1 pipes; a one-cell row has none |
| Formatting.LineBreakCount | src/FileParser.jsx:95-100 | a sheet of n rows whose cells hold no line break renders with exactly n-1 line breaks |
| Formatting.LinePlacement | src/FileParser.jsx:95-100 | line r of the output is row r rendered, followed by one `"\n"`, except the last line, which ends the text |
| Formatting.TwoByTwoExample | src/FileParser.jsx:80-101 | `[["a","bb"],["ccc","d"]]` gives widths 3 and 2 and the two lines `a`+4 spaces+separator+`bb` and `ccc`+2 spaces+separator+`d`+1 space |
| Joining.JoinLayout | src/FileParser.jsx:99-100 | in `parts.join(sep)`, part j starts at its offset and is followed by exactly `sep` unless it is the last |
| Joining.JoinCount | src/FileParser.jsx:99-100 | a joined text holds the parts' occurrences of a character plus those of the n-1 separators between n parts |
| Sheets.AggregateSheets | src/FileParser.jsx:53-65 | the loop over the sheets builds the reference workbook text `Aggregate(sheets)` |
| Sheets.PartialStep | src/FileParser.jsx:58-64 | one iteration appends a header only when there are several sheets, then the sheet's text, then `"\n"` unless it is the last sheet |
| Sheets.PartialComplete | src/FileParser.jsx:53-65 | after the last sheet the text built is the reference combination of all sheet texts |
| Sheets.SingleSheet | src/FileParser.jsx:58-64 | a one-sheet workbook gives exactly that sheet's formatted text: no header, no extra line break |
| Sheets.HeadedPlacement | src/FileParser.jsx:58-64 | with several sheets, block i starts at `BlockStart(i)`: its own header, then text i; the next block starts one `"\n"` later, and the last block ends the result |
| Sheets.SheetPlacement | src/FileParser.jsx:54-64 | with several sheets, sheet i appears under its own header, formatted with its own widths; each block starts after the previous one ends, so the sheets keep workbook order |
| Sheets.OneCellSheet | src/FileParser.jsx:80-101 | the one-cell sheet `[["x"]]` formats to `x`, with no padding and no separator |
| Sheets.TwoCellSheet | src/FileParser.jsx:80-101 | the one-row sheet `[["y","z"]]` formats to `y`, separator, `z` |
| Sheets.TwoSheetExample | src/FileParser.jsx:53-65 | sheets `Sheet1 = [["x"]]` and `Sheet2 = [["y","z"]]` give `Sheet1` under its header, `x`, one line break, then `Sheet2` under its header and `y`, separator, `z` |
| Dispatch.LastSegment | src/FileParser.jsx:193 | `split('.').pop()` is a dot-free suffix of the name; it is the whole name or follows a dot |
| Dispatch.SegmentUnique | src/FileParser.jsx:193 | only one suffix has those properties, so the extension is well defined |
| Dispatch.ExtensionIs | src/FileParser.jsx:193 | the extension is `ext` exactly when the name is `ext` or ends in `"." + ext`, in any letter case |
| Dispatch.ExtensionAfterDot | src/FileParser.jsx:193 | for any stem, the extension of `stem + "." + ext` is `ext` lower-cased, whenever `ext` holds no dot |
| Dispatch.RouteByName | src/FileParser.jsx:193-202 | CSV parser if and only if the name ends in `.csv`; spreadsheet parser if and only if it ends in `.xlsx` or `.xls`; otherwise no parser (any case, or the bare extension as the whole name) |
| Dispatch.RouteIgnoresCase | src/FileParser.jsx:193-202 | a name and its lower-cased form select the same parser |
| Dispatch.CsvExamples | src/FileParser.jsx:195-196 | `data.CSV` and `data.csv` both go to the CSV parser |
| Dispatch.ExcelExamples | src/FileParser.jsx:197-198 | `report.xlsx` and `old.XLS` go to the spreadsheet parser |
| Dispatch.OtherExamples | src/FileParser.jsx:193-202 | `data.txt` goes to no parser; the dot-less name `csv` goes to the CSV parser |
| Session.FileParser.constructor | src/FileParser.jsx:6-10 | every field starts empty or false |
| Session.FileParser.ProcessFile | src/FileParser.jsx:188-202 | sets the name and clears error and copy flag; the chosen parser is `Route(name)`; an unsupported name sets the unsupported-type error and clears the text, and otherwise the text is left until an outcome arrives |
| Session.FileParser.HandleFileUpload | src/FileParser.jsx:12-30 | without a file nothing changes; with one, the same effects as processing it |
| Session.FileParser.HandleFileInputChange | src/FileParser.jsx:205-210 | without a file nothing changes; with one, the same effects as processing it |
| Session.FileParser.CsvParsed | src/FileParser.jsx:32-43 | on success the text is replaced by the formatted rows; on failure it is cleared and the error reads `Error parsing CSV: ` plus the detail |
| Session.FileParser.ExcelLoaded | src/FileParser.jsx:47-72 | on success the text is replaced by the aggregated sheets; on failure it is cleared and the error reads `Error parsing Excel: ` plus the detail |
| Session.FileParser.ReadFailed | src/FileParser.jsx:73-76 | a read failure clears the text and sets `Error reading file` |
| Session.FileParser.CopyFallback | src/FileParser.jsx:124-152 | the legacy command sets the copy flag on success and reports failure otherwise |
| Session.FileParser.HandleCopy | src/FileParser.jsx:103-122 | the text reaches the clipboard if the API write or a legacy run succeeds; failure sets the copy error without touching the text; the legacy command runs 0, 1 or 2 times |
| Session.FileParser.HandleClear | src/FileParser.jsx:154-158 | clears text, name, error and copy flag; leaves the drag flag alone |
| Session.FileParser.HandleDragOver | src/FileParser.jsx:164-168 | sets the drag flag |
| Session.FileParser.HandleDragLeave | src/FileParser.jsx:170-174 | clears the drag flag |
| Session.FileParser.HandleDrop | src/FileParser.jsx:176-186 | clears the drag flag; a drop with no files changes nothing else; otherwise the first file is processed |

## Left out

- Rendering and JSX (src/FileParser.jsx:212-267) and the `useState` plumbing. The state is plain class fields.
- `Papa.parse`, `XLSX.read` and `XLSX.utils.sheet_to_json` are foreign library calls. Their results arrive as
  rows, as (name, rows) sheets, or as an error message.
- `FileReader` reads the file asynchronously. Only its two outcomes are modelled, as `ExcelLoaded` and `ReadFailed`.
- Clipboard and DOM work is left out: `navigator.clipboard`, `document.execCommand`, and the temporary
  textarea with its creation and removal. The API's presence and the outcome of each write or legacy run are
  inputs. Resetting the file input in `handleClear` (160-161) is also left out.
- The 2-second `setTimeout` that resets `copied` (109, 144) is timer-driven and is left out.
- `String(cell)` for numbers and booleans: cells arrive as text. Sparse-array holes are left out. Lengths
  are counted in `char`s, not UTF-16 code units.
- `Dispatch.Lower`: `toLowerCase` is modelled for the ASCII letters only; Unicode case mapping is not modelled.
- `formatData` given something other than an array: only an absent row list (`None`) is modelled.
- Superseding of in-flight parses: the code has none, so the model has none.
- `Formatting.SeparatorCount`: counts pipes only for rows whose cells contain none. A cell may itself contain
  `"  |  "`. The exact positions of the k-1 separators are stated for every row by `Formatting.RowLayout`.
- `Formatting.LineBreakCount`: assumes no cell holds a line break. A quoted CSV field can hold one. Line
  placement for every sheet is stated by `Formatting.LinePlacement`.
- src/App.jsx is not part of this model: it only mounts the component and tracks page views.
