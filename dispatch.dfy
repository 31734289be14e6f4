/** Choosing the parser from a file name: `file.name.split('.').pop().toLowerCase()` compared with
    `csv`, `xlsx` and `xls`. */
module Dispatch {

  /** Which parser a file is handed to; Unsupported means none is invoked. */
  datatype ParserKind = CsvParser | ExcelParser | Unsupported

  /** `toLowerCase` on one character, for the ASCII letters. */
  function LowerChar(c: char): char
  {
    if 'A' <= c <= 'Z' then (c as int + 32) as char else c
  }

  function Lower(s: string): (r: string)
    ensures |r| == |s|
  {
    if |s| == 0 then [] else Lower(s[..|s| - 1]) + [LowerChar(s[|s| - 1])]
  }

  /** `s.split('.').pop()`: the text after the last `'.'`, or the whole of `s` when it has no `'.'`. */
  function LastSegment(s: string): (seg: string)
    ensures '.' !in seg
    ensures |seg| <= |s| && s[|s| - |seg|..] == seg
    ensures |seg| == |s| || s[|s| - |seg| - 1] == '.'
  {
    if |s| == 0 then ""
    else if s[|s| - 1] == '.' then ""
    else LastSegment(s[..|s| - 1]) + [s[|s| - 1]]
  }

  /** The lower-cased extension the component compares. */
  function Extension(name: string): string
  {
    Lower(LastSegment(name))
  }

  /** `csv` goes to the CSV parser, `xlsx` and `xls` to the spreadsheet parser, anything else to none. */
  function Route(name: string): ParserKind
  {
    ParserFor(Extension(name))
  }

  /** The parser for a lower-cased extension. */
  function ParserFor(ext: string): ParserKind
  {
    if ext == "csv" then CsvParser
    else if ext == "xlsx" || ext == "xls" then ExcelParser
    else Unsupported
  }

  lemma ParserForCases(ext: string)
    ensures ParserFor(ext) == CsvParser <==> ext == "csv"
    ensures ParserFor(ext) == ExcelParser <==> ext == "xlsx" || ext == "xls"
  {
  }

  /** `name` ends in `"." + ext` or is `ext` itself, ignoring the case of ASCII letters. */
  ghost predicate HasExtension(name: string, ext: string)
  {
    Lower(name) == ext || (|name| > |ext| && Lower(name[|name| - |ext| - 1..]) == "." + ext)
  }

  /** The dot-free suffix that is the whole text or follows a dot is unique: it is `LastSegment`. */
  lemma SegmentUnique(s: string, t: string)
    requires '.' !in t && |t| <= |s| && s[|s| - |t|..] == t
    requires |t| == |s| || s[|s| - |t| - 1] == '.'
    ensures LastSegment(s) == t
  {
    var seg := LastSegment(s);
    if |seg| != |t| {
      assert false;
    }
  }

  /** Each character is lower-cased where it stands. */
  lemma {:induction false} LowerAt(s: string, k: nat)
    requires k < |s|
    ensures Lower(s)[k] == LowerChar(s[k])
  {
    if k < |s| - 1 {
      LowerAt(s[..|s| - 1], k);
    }
  }

  lemma {:induction false} LowerAppend(a: string, b: string)
    ensures Lower(a + b) == Lower(a) + Lower(b)
  {
    if |b| == 0 {
      assert a + b == a;
    } else {
      var init := b[..|b| - 1];
      assert (a + b)[..|a + b| - 1] == a + init;
      LowerAppend(a, init);
    }
  }

  lemma LowerSlice(s: string, i: nat)
    requires i <= |s|
    ensures Lower(s[i..]) == Lower(s)[i..]
  {
    assert s == s[..i] + s[i..];
    LowerAppend(s[..i], s[i..]);
  }

  /** Lower-casing neither adds nor removes a dot. */
  lemma LowerKeepsDots(s: string)
    ensures '.' in Lower(s) <==> '.' in s
  {
    if '.' in s {
      var k :| 0 <= k < |s| && s[k] == '.';
      LowerAt(s, k);
    }
    if '.' in Lower(s) {
      var k :| 0 <= k < |s| && Lower(s)[k] == '.';
      LowerAt(s, k);
    }
  }

  /** An extension found by the component is the whole name or follows the last dot. */
  lemma ExtensionShape(name: string, ext: string)
    requires Extension(name) == ext
    ensures HasExtension(name, ext)
  {
    var seg, n := LastSegment(name), |name|;
    if |seg| < n {
      assert name[n - |ext| - 1..] == ['.'] + seg;
      LowerAppend(['.'], seg);
    } else {
      assert name[n - |seg|..] == name;
    }
  }

  /** A name ending in a dot and then `t`, where `t` has no dot, has `t` lower-cased as its extension. */
  lemma DotSuffix(name: string, ext: string)
    requires '.' !in ext && |name| > |ext|
    requires Lower(name[|name| - |ext| - 1..]) == "." + ext
    ensures Extension(name) == ext
  {
    var n := |name|;
    var t, c := name[n - |ext|..], name[n - |ext| - 1];
    assert name[n - |ext| - 1..] == [c] + t;
    LowerAppend([c], t);
    var whole := Lower([c]) + Lower(t);
    assert whole == "." + ext;
    assert whole[0] == Lower([c])[0] == LowerChar(c);
    assert ("." + ext)[0] == '.';
    assert whole[1..] == Lower(t);
    assert ("." + ext)[1..] == ext;
    LowerKeepsDots(t);
    SegmentUnique(name, t);
  }

  /** The extension is `ext` exactly when the name is `ext` or ends in `"." + ext`, in any letter case. */
  lemma ExtensionIs(name: string, ext: string)
    requires '.' !in ext
    ensures Extension(name) == ext <==> HasExtension(name, ext)
  {
    if Extension(name) == ext {
      ExtensionShape(name, ext);
    }
    if Lower(name) == ext {
      LowerKeepsDots(name);
      SegmentUnique(name, name);
    } else if |name| > |ext| && Lower(name[|name| - |ext| - 1..]) == "." + ext {
      DotSuffix(name, ext);
    }
  }

  lemma RouteCsv(name: string)
    ensures Route(name) == CsvParser <==> HasExtension(name, "csv")
  {
    ParserForCases(Extension(name));
    ExtensionIs(name, "csv");
  }

  lemma RouteExcel(name: string)
    ensures Route(name) == ExcelParser <==> HasExtension(name, "xlsx") || HasExtension(name, "xls")
  {
    ParserForCases(Extension(name));
    ExtensionIs(name, "xlsx");
    ExtensionIs(name, "xls");
  }

  /** Which parser a name selects, stated on the name itself. */
  lemma RouteByName(name: string)
    ensures Route(name) == CsvParser <==> HasExtension(name, "csv")
    ensures Route(name) == ExcelParser <==> HasExtension(name, "xlsx") || HasExtension(name, "xls")
    ensures Route(name) == Unsupported <==>
      !HasExtension(name, "csv") && !HasExtension(name, "xlsx") && !HasExtension(name, "xls")
  {
    RouteCsv(name);
    RouteExcel(name);
  }

  lemma {:induction false} LowerIdempotent(s: string)
    ensures Lower(Lower(s)) == Lower(s)
  {
    if |s| > 0 {
      var low := Lower(s);
      LowerIdempotent(s[..|s| - 1]);
      assert low[..|low| - 1] == Lower(s[..|s| - 1]);
    }
  }

  /** Lower-casing a name lower-cases its extension, which is already lower case. */
  lemma ExtensionOfLower(name: string)
    ensures Extension(Lower(name)) == Extension(name)
  {
    var seg := LastSegment(name);
    var low := Lower(name);
    var at := |name| - |seg|;
    LowerSlice(name, at);
    assert low[at..] == Lower(seg);
    LowerKeepsDots(seg);
    if at > 0 {
      LowerAt(name, at - 1);
      assert low[at - 1] == '.';
    }
    SegmentUnique(low, Lower(seg));
    assert LastSegment(low) == Lower(seg);
    LowerIdempotent(seg);
  }

  /** Dispatch ignores letter case: a name and its lower-cased form go to the same parser. */
  lemma RouteIgnoresCase(name: string)
    ensures Route(Lower(name)) == Route(name)
  {
    ExtensionOfLower(name);
  }

  /** A text without upper-case ASCII letters is its own lower-cased form. */
  lemma {:induction false} LowerFixed(s: string)
    requires forall k :: 0 <= k < |s| ==> !('A' <= s[k] <= 'Z')
    ensures Lower(s) == s
  {
    if |s| > 0 {
      LowerFixed(s[..|s| - 1]);
    }
  }

  /** The text after the last dot, lower-cased, is the extension. */
  lemma ExtensionAfterDot(stem: string, ext: string)
    requires '.' !in ext
    ensures Extension(stem + "." + ext) == Lower(ext)
  {
    var name := stem + "." + ext;
    assert name[|name| - |ext|..] == ext;
    assert name[|name| - |ext| - 1] == '.';
    SegmentUnique(name, ext);
  }

  /** The lower-cased forms of the extensions in the examples below. */
  lemma LowerWords()
    ensures Lower("csv") == "csv" && Lower("CSV") == "csv" && Lower("txt") == "txt"
    ensures Lower("xlsx") == "xlsx" && Lower("XLS") == "xls"
  {
    LowerFixed("csv");
    LowerFixed("txt");
    LowerFixed("xlsx");
    LowerUpperWords();
  }

  lemma LowerUpperWords()
    ensures Lower("CSV") == "csv" && Lower("XLS") == "xls"
  {
    assert Lower("CSV") == Lower("CS") + "v" && Lower("CS") == Lower("C") + "s";
    assert Lower("XLS") == Lower("XL") + "s" && Lower("XL") == Lower("X") + "l";
  }

  /** The parsers the extensions in the examples below select. */
  lemma ParserForWords()
    ensures ParserFor("csv") == CsvParser && ParserFor("txt") == Unsupported
    ensures ParserFor("xlsx") == ExcelParser && ParserFor("xls") == ExcelParser
  {
    assert "txt"[0] != "csv"[0] && "txt"[0] != "xlsx"[0] && "txt"[0] != "xls"[0];
  }

  /** Upper- and lower-case `.csv` both go to the CSV parser. */
  lemma CsvExamples()
    ensures Route("data.CSV") == CsvParser && Route("data.csv") == CsvParser
  {
    assert "data.CSV" == "data" + "." + "CSV" && "data.csv" == "data" + "." + "csv";
    ExtensionAfterDot("data", "CSV");
    ExtensionAfterDot("data", "csv");
    LowerWords();
    ParserForWords();
  }

  /** `.xlsx` and `.XLS` go to the spreadsheet parser. */
  lemma ExcelExamples()
    ensures Route("report.xlsx") == ExcelParser && Route("old.XLS") == ExcelParser
  {
    assert "report.xlsx" == "report" + "." + "xlsx" && "old.XLS" == "old" + "." + "XLS";
    ExtensionAfterDot("report", "xlsx");
    ExtensionAfterDot("old", "XLS");
    LowerWords();
    ParserForWords();
  }

  /** `.txt` goes to no parser; a name without a dot is its own extension. */
  lemma OtherExamples()
    ensures Route("data.txt") == Unsupported
    ensures Route("csv") == CsvParser
  {
    assert "data.txt" == "data" + "." + "txt";
    ExtensionAfterDot("data", "txt");
    SegmentUnique("csv", "csv");
    LowerWords();
    ParserForWords();
  }
}
