/** The sheet loop of `parseExcel`: every sheet formatted on its own, under a header when there are several. */
module Sheets {
  import opened Wrappers
  import opened Joining
  import opened Formatting

  /** One worksheet as `sheet_to_json(..., { header: 1 })` returns it, with its name from `SheetNames`. */
  datatype Sheet = Sheet(name: string, rows: seq<Row>)

  /** The banner put before each sheet of a multi-sheet workbook. */
  function Header(name: string): string
  {
    "\n=== Sheet: " + name + " ===\n\n"
  }

  /** The formatted text of every sheet, each with its own widths. */
  function Texts(sheets: seq<Sheet>): (texts: seq<string>)
    ensures |texts| == |sheets|
  {
    if |sheets| == 0 then [] else Texts(sheets[..|sheets| - 1]) + [Format(sheets[|sheets| - 1].rows)]
  }

  /** Each text under the header of its sheet's name. */
  function Headed(names: seq<string>, texts: seq<string>): (blocks: seq<string>)
    requires |names| == |texts|
    ensures |blocks| == |texts|
  {
    if |texts| == 0 then []
    else Headed(names[..|texts| - 1], texts[..|texts| - 1]) + [Header(names[|texts| - 1]) + texts[|texts| - 1]]
  }

  /** A lone text as it is, with no header; several as their headed blocks in order, one `"\n"` between
      neighbours and none after the last. */
  function Combine(names: seq<string>, texts: seq<string>): string
    requires |names| == |texts|
  {
    if |texts| == 1 then texts[0] else Join(Headed(names, texts), "\n")
  }

  function Names(sheets: seq<Sheet>): (names: seq<string>)
    ensures |names| == |sheets|
  {
    if |sheets| == 0 then [] else Names(sheets[..|sheets| - 1]) + [sheets[|sheets| - 1].name]
  }

  lemma {:induction false} TextsAt(sheets: seq<Sheet>, i: nat)
    requires i < |sheets|
    ensures Texts(sheets)[i] == Format(sheets[i].rows)
  {
    if i < |sheets| - 1 {
      TextsAt(sheets[..|sheets| - 1], i);
    }
  }

  lemma {:induction false} NamesAt(sheets: seq<Sheet>, i: nat)
    requires i < |sheets|
    ensures Names(sheets)[i] == sheets[i].name
  {
    if i < |sheets| - 1 {
      NamesAt(sheets[..|sheets| - 1], i);
    }
  }

  lemma {:induction false} HeadedAt(names: seq<string>, texts: seq<string>, i: nat)
    requires |names| == |texts| && i < |texts|
    ensures Headed(names, texts)[i] == Header(names[i]) + texts[i]
  {
    var n := |texts|;
    if i < n - 1 {
      HeadedAt(names[..n - 1], texts[..n - 1], i);
    }
  }

  /** The workbook text. */
  function Aggregate(sheets: seq<Sheet>): string
  {
    Combine(Names(sheets), Texts(sheets))
  }

  /** The text the loop has built after its first `k` sheets. */
  ghost function Partial(names: seq<string>, texts: seq<string>, k: nat): string
    requires |names| == |texts| && k <= |texts|
  {
    if k == 0 then ""
    else if |texts| == 1 then texts[0]
    else Join(Headed(names, texts)[..k], "\n") + (if k < |texts| then "\n" else "")
  }

  /** One iteration appends the header (only when there are several sheets), the text, and `"\n"` unless
      it is the last. */
  lemma {:induction false} PartialStep(names: seq<string>, texts: seq<string>, k: nat)
    requires |names| == |texts| && k < |texts|
    ensures Partial(names, texts, k + 1) ==
      Partial(names, texts, k) + (if |texts| > 1 then Header(names[k]) else "") + texts[k]
      + (if k < |texts| - 1 then "\n" else "")
  {
    if |texts| > 1 {
      var blocks, before := Headed(names, texts), Partial(names, texts, k);
      var h, t := Header(names[k]), texts[k];
      HeadedAt(names, texts, k);
      AppendBlock(blocks, k, before);
      Associative(before, h, t);
      if k < |texts| - 1 {
        assert Partial(names, texts, k + 1) == Join(blocks[..k + 1], "\n") + "\n";
      } else {
        assert blocks[..k + 1] == blocks;
      }
    }
  }

  lemma Associative(a: string, b: string, c: string)
    ensures a + (b + c) == (a + b) + c
  {
  }

  /** One step of the loop over several sheets: appending block `index`, and `"\n"` unless it is the last,
      extends the joined prefix by one block. */
  lemma AppendBlock(blocks: seq<string>, index: nat, before: string)
    requires 1 < |blocks| && index < |blocks|
    requires index == 0 ==> before == ""
    requires index > 0 ==> before == Join(blocks[..index], "\n") + "\n"
    ensures index < |blocks| - 1 ==> before + blocks[index] + "\n" == Join(blocks[..index + 1], "\n") + "\n"
    ensures index == |blocks| - 1 ==> before + blocks[index] == Join(blocks, "\n")
  {
    ExtendPrefix(blocks, index, before);
    if index == |blocks| - 1 {
      assert blocks[..index + 1] == blocks;
    }
  }

  lemma ExtendPrefix(blocks: seq<string>, index: nat, before: string)
    requires index < |blocks|
    requires index == 0 ==> before == ""
    requires index > 0 ==> before == Join(blocks[..index], "\n") + "\n"
    ensures before + blocks[index] == Join(blocks[..index + 1], "\n")
  {
    var done := blocks[..index + 1];
    if index == 0 {
      assert done == [blocks[0]];
      assert before + blocks[index] == blocks[0];
    } else {
      assert done == blocks[..index] + [blocks[index]];
      JoinAppend(blocks[..index], blocks[index], "\n");
    }
  }

  /** After the last sheet the loop has built the workbook text. */
  lemma PartialComplete(names: seq<string>, texts: seq<string>)
    requires |names| == |texts|
    ensures Partial(names, texts, |texts|) == Combine(names, texts)
  {
    assert Headed(names, texts)[..|texts|] == Headed(names, texts);
  }

  /** The loop as written: walks the sheets in order and appends to one string. */
  method AggregateSheets(sheets: seq<Sheet>) returns (allData: string)
    ensures allData == Aggregate(sheets)
  {
    allData := "";
    var n := |sheets|;
    ghost var names, texts := Names(sheets), Texts(sheets);
    var index := 0;
    while index < n
      invariant 0 <= index <= n
      invariant allData == Partial(names, texts, index)
    {
      var sheet := sheets[index];
      var formatted := FormatData(Some(sheet.rows));
      TextsAt(sheets, index);
      NamesAt(sheets, index);
      PartialStep(names, texts, index);
      if n > 1 {
        allData := allData + Header(sheet.name);
      }
      allData := allData + formatted;
      if index < n - 1 {
        allData := allData + "\n";
      }
      index := index + 1;
    }
    PartialComplete(names, texts);
  }

  /** A one-sheet workbook yields that sheet's text alone: no header, whatever its name, no line break added. */
  lemma SingleSheet(sheet: Sheet)
    ensures Aggregate([sheet]) == Format(sheet.rows)
  {
  }

  /** Index in the workbook text at which block `i` (header and text) begins. */
  function BlockStart(names: seq<string>, texts: seq<string>, i: nat): nat
    requires |names| == |texts| && i <= |texts|
  {
    Offset(Headed(names, texts), "\n", i)
  }

  /** With several texts, text `i` appears at its block's start right after its own header; one `"\n"`
      follows it unless it is the last, which ends the result. */
  lemma HeadedPlacement(names: seq<string>, texts: seq<string>, i: nat)
    requires |names| == |texts| && |texts| > 1 && i < |texts|
    ensures BlockStart(names, texts, i) + |Header(names[i])| + |texts[i]| <= |Combine(names, texts)|
    ensures Combine(names, texts)[BlockStart(names, texts, i)..BlockStart(names, texts, i) + |Header(names[i])|]
         == Header(names[i])
    ensures Combine(names, texts)[BlockStart(names, texts, i) + |Header(names[i])|
                                  ..BlockStart(names, texts, i) + |Header(names[i])| + |texts[i]|] == texts[i]
    ensures i + 1 < |texts| ==>
      (BlockStart(names, texts, i + 1) == BlockStart(names, texts, i) + |Header(names[i])| + |texts[i]| + 1
       && BlockStart(names, texts, i + 1) <= |Combine(names, texts)|
       && Combine(names, texts)[BlockStart(names, texts, i + 1) - 1] == '\n')
    ensures i + 1 == |texts| ==>
      BlockStart(names, texts, i) + |Header(names[i])| + |texts[i]| == |Combine(names, texts)|
  {
    var blocks := Headed(names, texts);
    var at, result, h := BlockStart(names, texts, i), Combine(names, texts), Header(names[i]);
    assert result == Join(blocks, "\n");
    HeadedAt(names, texts, i);
    JoinLayout(blocks, "\n", i);
    JoinLength(blocks, "\n");
    SplitSlice(result, at, h, texts[i]);
    if i + 1 < |texts| {
      var next := BlockStart(names, texts, i + 1);
      assert next == at + |blocks[i]| + 1;
      assert result[next - 1..next] == "\n";
    }
  }

  /** A slice holding `a + b` holds `a` and then `b`. */
  lemma SplitSlice(s: string, at: nat, a: string, b: string)
    requires at + |a + b| <= |s| && s[at..at + |a + b|] == a + b
    ensures s[at..at + |a|] == a && s[at + |a|..at + |a| + |b|] == b
  {
    assert s[at..at + |a|] == (a + b)[..|a|];
    assert s[at + |a|..at + |a| + |b|] == (a + b)[|a|..];
  }

  /** In a workbook of several sheets, sheet `i` appears under its own header as its own rows formatted with
      its own widths, in workbook order: each sheet's block starts after the previous one's. */
  lemma SheetPlacement(sheets: seq<Sheet>, i: nat)
    requires |sheets| > 1 && i < |sheets|
    ensures BlockStart(Names(sheets), Texts(sheets), i) + |Header(sheets[i].name)| + |Format(sheets[i].rows)|
         <= |Aggregate(sheets)|
    ensures Aggregate(sheets)[BlockStart(Names(sheets), Texts(sheets), i)
                              ..BlockStart(Names(sheets), Texts(sheets), i) + |Header(sheets[i].name)|]
         == Header(sheets[i].name)
    ensures Aggregate(sheets)[BlockStart(Names(sheets), Texts(sheets), i) + |Header(sheets[i].name)|
                              ..BlockStart(Names(sheets), Texts(sheets), i) + |Header(sheets[i].name)|
                                + |Format(sheets[i].rows)|]
         == Format(sheets[i].rows)
    ensures i + 1 < |sheets| ==>
      BlockStart(Names(sheets), Texts(sheets), i) + |Header(sheets[i].name)| + |Format(sheets[i].rows)|
      < BlockStart(Names(sheets), Texts(sheets), i + 1)
  {
    var names, texts := Names(sheets), Texts(sheets);
    NamesAt(sheets, i);
    TextsAt(sheets, i);
    assert Aggregate(sheets) == Combine(names, texts);
    HeadedPlacement(names, texts, i);
  }

  lemma OneCellSheet()
    ensures Format([[Some("x")]]) == "x"
  {
    var rows: seq<Row> := [[Some("x")]];
    assert rows[..0] == [];
  }

  lemma TwoCellSheet()
    ensures Format([[Some("y"), Some("z")]]) == "y  |  z"
  {
    var rows: seq<Row> := [[Some("y"), Some("z")]];
    assert rows[..0] == [];
  }

  /** The two-sheet workbook: a header before each sheet, one line break between the two blocks. */
  lemma TwoSheetExample()
    ensures Aggregate([Sheet("Sheet1", [[Some("x")]]), Sheet("Sheet2", [[Some("y"), Some("z")]])])
         == Header("Sheet1") + "x" + "\n" + Header("Sheet2") + "y  |  z"
  {
    var sheets := [Sheet("Sheet1", [[Some("x")]]), Sheet("Sheet2", [[Some("y"), Some("z")]])];
    OneCellSheet();
    TwoCellSheet();
    var names, texts := Names(sheets), Texts(sheets);
    assert names == ["Sheet1", "Sheet2"];
    assert texts == ["x", "y  |  z"];
    var blocks := Headed(names, texts);
    assert blocks[..1] == [blocks[0]];
  }
}
