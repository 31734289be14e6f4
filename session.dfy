/** The component's session state and the handlers that change it. The parsers, the file reader and the
    clipboard are outside the model: their outcomes arrive as arguments. */
module Session {
  import opened Wrappers
  import opened Formatting
  import opened Sheets
  import opened Dispatch

  const UnsupportedMessage: string := "Unsupported file type. Please upload a CSV or Excel file."
  const ReadErrorMessage: string := "Error reading file"
  const CopyErrorMessage: string := "Failed to copy to clipboard. Please select and copy manually."

  function CsvErrorMessage(detail: string): string { "Error parsing CSV: " + detail }
  function ExcelErrorMessage(detail: string): string { "Error parsing Excel: " + detail }

  /** What the copy handler meets: whether the asynchronous Clipboard API exists, whether its write
      succeeds, and the outcome of each run of the legacy copy command (an exception counts as failure). */
  datatype ClipboardEnv = ClipboardEnv(hasClipboardApi: bool, writeSucceeds: bool, firstLegacyOk: bool, secondLegacyOk: bool)

  class FileParser {
    var parsedData: string
    var fileName: string
    var error: string
    var copied: bool
    var isDragging: bool

    /** The initial state: nothing loaded, no error, nothing copied, no drag in progress. */
    constructor ()
      ensures parsedData == "" && fileName == "" && error == "" && !copied && !isDragging
    {
      parsedData, fileName, error, copied, isDragging := "", "", "", false, false;
    }

    /** `processFile`: records the name, clears the error and the copy flag, and hands the file to the
        parser its extension selects. An unsupported extension fails at once and clears the text; otherwise
        the text stays as it was until the parser reports back. */
    method ProcessFile(name: string) returns (parser: ParserKind)
      modifies this
      ensures parser == Route(name)
      ensures fileName == name && !copied && isDragging == old(isDragging)
      ensures parser == Unsupported ==> error == UnsupportedMessage && parsedData == ""
      ensures parser != Unsupported ==> error == "" && parsedData == old(parsedData)
    {
      fileName := name;
      error := "";
      copied := false;
      parser := Route(name);
      if parser == Unsupported {
        error := UnsupportedMessage;
        parsedData := "";
      }
    }

    /** `handleFileUpload`: nothing happens without a file; otherwise it starts processing it. */
    method HandleFileUpload(file: Option<string>) returns (parser: Option<ParserKind>)
      modifies this
      ensures file.None? ==> parser.None? && unchanged(this)
      ensures file.Some? ==> parser == Some(Route(file.value)) && fileName == file.value && !copied
      ensures file.Some? && Route(file.value) == Unsupported ==> error == UnsupportedMessage && parsedData == ""
      ensures file.Some? && Route(file.value) != Unsupported ==> error == "" && parsedData == old(parsedData)
      ensures isDragging == old(isDragging)
    {
      if file.None? {
        return None;
      }
      var kind := ProcessFile(file.value);
      parser := Some(kind);
    }

    /** `handleFileInputChange`, the handler the file chooser is wired to: the same as `HandleFileUpload`. */
    method HandleFileInputChange(file: Option<string>) returns (parser: Option<ParserKind>)
      modifies this
      ensures file.None? ==> parser.None? && unchanged(this)
      ensures file.Some? ==> parser == Some(Route(file.value)) && fileName == file.value && !copied
      ensures file.Some? && Route(file.value) == Unsupported ==> error == UnsupportedMessage && parsedData == ""
      ensures file.Some? && Route(file.value) != Unsupported ==> error == "" && parsedData == old(parsedData)
      ensures isDragging == old(isDragging)
    {
      parser := None;
      if file.Some? {
        var kind := ProcessFile(file.value);
        parser := Some(kind);
      }
    }

    /** The CSV parser's callbacks: `complete` shows the formatted rows, `error` shows its message and
        clears the text. */
    method CsvParsed(outcome: Result<seq<Row>, string>)
      modifies this`parsedData, this`error
      ensures outcome.Success? ==> parsedData == Format(outcome.value) && error == old(error)
      ensures outcome.Failure? ==> parsedData == "" && error == CsvErrorMessage(outcome.error)
    {
      match outcome
      case Success(rows) =>
        parsedData := FormatData(Some(rows));
      case Failure(detail) =>
        error := CsvErrorMessage(detail);
        parsedData := "";
    }

    /** The reader's `onload` for a workbook: every sheet is formatted into one text, or the spreadsheet
        parser's exception is shown and the text cleared. */
    method ExcelLoaded(outcome: Result<seq<Sheet>, string>)
      modifies this`parsedData, this`error
      ensures outcome.Success? ==> parsedData == Aggregate(outcome.value) && error == old(error)
      ensures outcome.Failure? ==> parsedData == "" && error == ExcelErrorMessage(outcome.error)
    {
      match outcome
      case Success(sheets) =>
        parsedData := AggregateSheets(sheets);
      case Failure(detail) =>
        error := ExcelErrorMessage(detail);
        parsedData := "";
    }

    /** The reader's `onerror`. */
    method ReadFailed()
      modifies this`parsedData, this`error
      ensures parsedData == "" && error == ReadErrorMessage
    {
      error := ReadErrorMessage;
      parsedData := "";
    }

    /** `copyToClipboardFallback`: the legacy copy command sets the copy flag when it succeeds; `ok` is
        false where the original throws. */
    method CopyFallback(legacyOk: bool) returns (ok: bool)
      modifies this`copied
      ensures ok == legacyOk
      ensures copied == (legacyOk || old(copied))
    {
      ok := legacyOk;
      if ok {
        copied := true;
      }
    }

    /** `handleCopy`: the Clipboard API first; if it is missing, the legacy command; if either of those
        fails, the legacy command again; if that fails too, the error message. The text is never touched.
        `clipboard` is what ends up on the clipboard, `legacyRuns` how often the legacy command ran. */
    method HandleCopy(env: ClipboardEnv) returns (clipboard: Option<string>, legacyRuns: nat)
      modifies this`copied, this`error
      ensures var apiOk := env.hasClipboardApi && env.writeSucceeds;
        var ok := apiOk || env.firstLegacyOk || (!env.hasClipboardApi && env.secondLegacyOk);
        && clipboard == (if ok then Some(parsedData) else None)
        && copied == (ok || old(copied))
        && error == (if ok then old(error) else CopyErrorMessage)
        && legacyRuns == (if apiOk then 0 else if env.hasClipboardApi || env.firstLegacyOk then 1 else 2)
    {
      var ok: bool;
      legacyRuns := 0;
      if env.hasClipboardApi {
        ok := env.writeSucceeds;
        if ok {
          copied := true;
        }
      } else {
        ok := CopyFallback(env.firstLegacyOk);
        legacyRuns := 1;
      }
      if !ok {
        // The catch: the legacy command once more, whichever path failed.
        var retry := if env.hasClipboardApi then env.firstLegacyOk else env.secondLegacyOk;
        ok := CopyFallback(retry);
        legacyRuns := legacyRuns + 1;
        if !ok {
          error := CopyErrorMessage;
        }
      }
      clipboard := if ok then Some(parsedData) else None;
    }

    /** `handleClear`: back to the initial state, except that a drag in progress stays in progress. */
    method HandleClear()
      modifies this
      ensures parsedData == "" && fileName == "" && error == "" && !copied
      ensures isDragging == old(isDragging)
    {
      parsedData := "";
      fileName := "";
      error := "";
      copied := false;
    }

    method HandleDragOver()
      modifies this`isDragging
      ensures isDragging
    {
      isDragging := true;
    }

    method HandleDragLeave()
      modifies this`isDragging
      ensures !isDragging
    {
      isDragging := false;
    }

    /** `handleDrop`: ends the drag and processes the first dropped file, if there is one. */
    method HandleDrop(files: seq<string>) returns (parser: Option<ParserKind>)
      modifies this
      ensures !isDragging
      ensures |files| == 0 ==>
        (parser.None? && parsedData == old(parsedData) && fileName == old(fileName)
         && error == old(error) && copied == old(copied))
      ensures |files| > 0 ==> parser == Some(Route(files[0])) && fileName == files[0] && !copied
      ensures |files| > 0 && Route(files[0]) == Unsupported ==> error == UnsupportedMessage && parsedData == ""
      ensures |files| > 0 && Route(files[0]) != Unsupported ==> error == "" && parsedData == old(parsedData)
    {
      isDragging := false;
      if |files| == 0 {
        return None;
      }
      var kind := ProcessFile(files[0]);
      parser := Some(kind);
    }
  }
}
