/** The row tokenisers and the extraction pipeline of the backend
    (`src-tauri/src/file_processor.rs`): choose a reader by file extension,
    turn the file into rows, store the rows, and feed them to the extractors
    100 rows at a time, storing one item per extracted value. */
module FileProcessor {
  import opened Text
  import opened Models
  import opened Extractors
  import Database

  // ---------------------------------------------------------------------------
  // Extension dispatch

  /** The text after the last '.', lowercased. */
  function Extension(fileName: string): (ext: string)
    ensures '.' !in ext
  {
    var parts := Split(fileName, '.');
    SplitAvoids(fileName, '.');
    Lower(parts[|parts| - 1])
  }

  lemma ExtensionIsAfterLastDot(fileName: string)
    ensures '.' in fileName ==> Extension(fileName) == Lower(fileName[LastIndexOf(fileName, '.') + 1..])
    ensures '.' !in fileName ==> Extension(fileName) == Lower(fileName)
  {
    LastPieceOfSplit(fileName, '.');
  }

  datatype Reader = CsvReader | ExcelReader | TextReader | HtmlReader

  /** csv, xlsx/xls, txt and html pick their readers; anything else is read as text. */
  function ReaderFor(ext: string): (r: Reader)
    ensures r == CsvReader <==> ext == "csv"
    ensures r == ExcelReader <==> ext == "xlsx" || ext == "xls"
    ensures r == HtmlReader <==> ext == "html"
    ensures r == TextReader <==> ext != "csv" && ext != "xlsx" && ext != "xls" && ext != "html"
  {
    if ext == "csv" then CsvReader
    else if ext == "xlsx" || ext == "xls" then ExcelReader
    else if ext == "txt" then TextReader
    else if ext == "html" then HtmlReader
    else TextReader
  }

  /** What the foreign decoders make of the uploaded bytes: the UTF-8 text, the
      records the csv reader yields after the header (`None` for one it fails
      on), and the workbook as calamine opens it. */
  datatype FileContent = FileContent(text: string, csvRecords: seq<Option<seq<string>>>, workbook: Workbook)

  /** A workbook that cannot be opened, or its sheets in order; a sheet whose
      range cannot be read is `None`, and cells are already rendered as text. */
  datatype Workbook = Unopenable(message: string) | Opened(sheets: seq<Option<seq<seq<string>>>>)

  function JoinEach(rows: seq<seq<string>>, sep: string): (r: seq<string>)
    ensures |r| == |rows|
    ensures forall k :: 0 <= k < |r| ==> r[k] == Join(rows[k], sep)
  {
    seq(|rows|, k requires 0 <= k < |rows| => Join(rows[k], sep))
  }

  // ---------------------------------------------------------------------------
  // process_csv

  /** The records the reader parsed, in order, skipping the ones it failed on. */
  function ParsedRecords(records: seq<Option<seq<string>>>): (r: seq<seq<string>>)
    ensures |r| <= |records|
    ensures forall f :: f in r <==> Some(f) in records
  {
    if |records| == 0 then []
    else
      var init := records[..|records| - 1];
      assert records == init + [records[|records| - 1]];
      ParsedRecords(init) + (if records[|records| - 1].Some? then [records[|records| - 1].value] else [])
  }

  lemma {:induction false} ParsedRecordsAppend(a: seq<Option<seq<string>>>, b: seq<Option<seq<string>>>)
    ensures ParsedRecords(a + b) == ParsedRecords(a) + ParsedRecords(b)
  {
    if |b| > 0 {
      var b' := b[..|b| - 1];
      assert (a + b)[..|a + b| - 1] == a + b';
      ParsedRecordsAppend(a, b');
    } else {
      assert a + b == a;
    }
  }

  /** One row per parsed record, its fields joined by a space. */
  method ProcessCsv(records: seq<Option<seq<string>>>) returns (rows: seq<string>)
    ensures rows == JoinEach(ParsedRecords(records), " ")
  {
    rows := [];
    for i := 0 to |records|
      invariant rows == JoinEach(ParsedRecords(records[..i]), " ")
    {
      assert records[..i + 1][..i] == records[..i];
      if records[i].Some? {
        rows := rows + [Join(records[i].value, " ")];
      }
    }
    assert records[..|records|] == records;
  }

  // ---------------------------------------------------------------------------
  // process_excel

  /** The rows of the readable sheets, in workbook order. */
  function SheetRows(sheets: seq<Option<seq<seq<string>>>>): (rows: seq<seq<string>>)
  {
    if |sheets| == 0 then []
    else
      var last := sheets[|sheets| - 1];
      SheetRows(sheets[..|sheets| - 1]) + (if last.Some? then last.value else [])
  }

  /** Sheets contribute their rows one after another; an unreadable one contributes none. */
  lemma {:induction false} SheetRowsAppend(a: seq<Option<seq<seq<string>>>>, b: seq<Option<seq<seq<string>>>>)
    ensures SheetRows(a + b) == SheetRows(a) + SheetRows(b)
    ensures SheetRows(a + [None] + b) == SheetRows(a + b)
  {
    if |b| > 0 {
      var b' := b[..|b| - 1];
      assert (a + b)[..|a + b| - 1] == a + b';
      assert (a + [None] + b)[..|a + [None] + b| - 1] == a + [None] + b';
      SheetRowsAppend(a, b');
    } else {
      assert a + b == a;
      assert a + [None] + b == a + [None];
      assert (a + [None])[..|a + [None]| - 1] == a;
    }
  }

  lemma JoinEachAppend(a: seq<seq<string>>, b: seq<seq<string>>, sep: string)
    ensures JoinEach(a + b, sep) == JoinEach(a, sep) + JoinEach(b, sep)
  {
  }

  /** One row per sheet row of every readable sheet (blank rows included), its
      cells joined by a space; a workbook that cannot be opened is an `Excel` error. */
  method ProcessExcel(workbook: Workbook) returns (r: Result<seq<string>>)
    ensures workbook.Unopenable? ==> r == Err(Excel(workbook.message))
    ensures workbook.Opened? ==> r == Ok(JoinEach(SheetRows(workbook.sheets), " "))
  {
    if workbook.Unopenable? {
      return Err(Excel(workbook.message));
    }
    var sheets := workbook.sheets;
    var records: seq<string> := [];
    for i := 0 to |sheets|
      invariant records == JoinEach(SheetRows(sheets[..i]), " ")
    {
      assert sheets[..i + 1][..i] == sheets[..i];
      if sheets[i].Some? {
        var range := sheets[i].value;
        for j := 0 to |range|
          invariant records == JoinEach(SheetRows(sheets[..i]), " ") + JoinEach(range[..j], " ")
        {
          assert range[..j + 1] == range[..j] + [range[j]];
          JoinEachAppend(range[..j], [range[j]], " ");
          records := records + [Join(range[j], " ")];
        }
        assert range[..|range|] == range;
        JoinEachAppend(SheetRows(sheets[..i]), range, " ");
      }
    }
    assert sheets[..|sheets|] == sheets;
    return Ok(records);
  }

  // ---------------------------------------------------------------------------
  // process_text

  /** The lines that are not empty after trimming, untrimmed and in order. */
  function KeepNonBlank(lines: seq<string>): (kept: seq<string>)
    ensures |kept| <= |lines|
    ensures forall l :: l in kept <==> l in lines && !IsBlank(Rust, l)
  {
    if |lines| == 0 then []
    else
      TrimSpec(Rust, lines[0]);
      assert lines == [lines[0]] + lines[1..];
      (if Trim(Rust, lines[0]) == [] then [] else [lines[0]]) + KeepNonBlank(lines[1..])
  }

  lemma {:induction false} KeepNonBlankAppend(a: seq<string>, b: seq<string>)
    ensures KeepNonBlank(a + b) == KeepNonBlank(a) + KeepNonBlank(b)
  {
    if |a| > 0 {
      assert a == [a[0]] + a[1..];
      assert a + b == [a[0]] + (a[1..] + b);
      KeepNonBlankUnfold(a + b, a[0], a[1..] + b);
      KeepNonBlankUnfold(a, a[0], a[1..]);
      KeepNonBlankAppend(a[1..], b);
    } else {
      assert a + b == b;
    }
  }

  /** The filter on a first line followed by the rest. */
  lemma KeepNonBlankUnfold(lines: seq<string>, first: string, rest: seq<string>)
    requires lines == [first] + rest
    ensures KeepNonBlank(lines) == (if Trim(Rust, first) == [] then [] else [first]) + KeepNonBlank(rest)
  {
    assert lines[1..] == rest;
  }

  lemma {:induction false} KeepNonBlankOfNonBlank(lines: seq<string>)
    requires forall k :: 0 <= k < |lines| ==> !IsBlank(Rust, lines[k])
    ensures KeepNonBlank(lines) == lines
  {
    if |lines| > 0 {
      TrimSpec(Rust, lines[0]);
      KeepNonBlankOfNonBlank(lines[1..]);
    }
  }

  function ProcessText(text: string): (rows: seq<string>)
    ensures forall l :: l in rows <==> l in Lines(text) && !IsBlank(Rust, l)
  {
    KeepNonBlank(Lines(text))
  }

  /** Non-blank lines written out one per line come back unchanged. */
  lemma TextRowsRoundTrip(rows: seq<string>)
    requires forall k :: 0 <= k < |rows| ==> IsLine(rows[k]) && !IsBlank(Rust, rows[k])
    ensures ProcessText(Join(rows, "\n")) == rows
  {
    if |rows| > 0 { assert |rows[|rows| - 1]| > 0; }
    LinesOfJoin(rows);
    KeepNonBlankOfNonBlank(rows);
  }

  // ---------------------------------------------------------------------------
  // process_html

  /** `str::replace`: every non-overlapping occurrence of `from`, left to right. */
  function ReplaceAll(s: string, from: string, to: string): (r: string)
    requires |from| > 0
    ensures from[0] !in s ==> r == s
    decreases |s|
  {
    if |s| < |from| then s
    else if s[..|from|] == from then to + ReplaceAll(s[|from|..], from, to)
    else [s[0]] + ReplaceAll(s[1..], from, to)
  }

  lemma {:induction false} ReplaceAllPrefix(a: string, b: string, from: string, to: string)
    requires |from| > 0 && from[0] !in a
    ensures ReplaceAll(a + b, from, to) == a + ReplaceAll(b, from, to)
    decreases |a|
  {
    if |a| > 0 {
      var s := a + b;
      if |s| >= |from| {
        assert s[0] == a[0];
        ReplaceAllSkip(s, from, to);
        assert s[1..] == a[1..] + b;
        ReplaceAllPrefix(a[1..], b, from, to);
        assert a == [a[0]] + a[1..];
      }
    } else {
      assert a + b == b;
    }
  }

  /** A text whose first character cannot start `from` keeps that character. */
  lemma ReplaceAllSkip(s: string, from: string, to: string)
    requires |from| > 0 && |s| >= |from| && s[0] != from[0]
    ensures ReplaceAll(s, from, to) == [s[0]] + ReplaceAll(s[1..], from, to)
  {
    assert s[..|from|][0] == s[0];
  }

  /** A separator that starts like `from` but differs from it at `k` is kept. */
  lemma ReplaceAllMiss(sep: string, b: string, from: string, to: string, k: int)
    requires |from| > 0 && 0 <= k < |sep| && k < |from| && sep[k] != from[k]
    requires from[0] !in sep[1..]
    ensures ReplaceAll(sep + b, from, to) == sep + ReplaceAll(b, from, to)
  {
    var s := sep + b;
    if |s| >= |from| {
      assert s[k] == sep[k];
      ReplaceAllMissAt(s, from, to, k);
      assert s[1..] == sep[1..] + b;
      ReplaceAllPrefix(sep[1..], b, from, to);
      assert sep == [sep[0]] + sep[1..];
    } else {
      ReplaceAllShort(s, from, to);
      ReplaceAllShort(b, from, to);
    }
  }

  /** A text that differs from `from` at `k` keeps its first character. */
  lemma ReplaceAllMissAt(s: string, from: string, to: string, k: int)
    requires 0 <= k < |from| <= |s| && s[k] != from[k]
    ensures ReplaceAll(s, from, to) == [s[0]] + ReplaceAll(s[1..], from, to)
  {
    assert s[..|from|][k] == s[k];
  }

  /** A text shorter than `from` is left as it is. */
  lemma ReplaceAllShort(s: string, from: string, to: string)
    requires 0 < |from| && |s| < |from|
    ensures ReplaceAll(s, from, to) == s
  {
  }

  /** Joining by `from` and replacing `from` by `to` is joining by `to`; joining by
      a separator `from` misses leaves the join as it is. */
  lemma {:induction false} ReplaceAllJoin(parts: seq<string>, sep: string, from: string, to: string, k: int)
    requires |from| > 0 && forall i :: 0 <= i < |parts| ==> from[0] !in parts[i]
    requires sep == from || (0 <= k < |sep| && k < |from| && sep[k] != from[k] && from[0] !in sep[1..])
    ensures ReplaceAll(Join(parts, sep), from, to) == Join(parts, if sep == from then to else sep)
  {
    if |parts| > 1 {
      var rest := Join(parts[1..], sep);
      assert Join(parts, sep) == parts[0] + (sep + rest);
      ReplaceAllPrefix(parts[0], sep + rest, from, to);
      if sep == from {
        assert (from + rest)[..|from|] == from && (from + rest)[|from|..] == rest;
      } else {
        ReplaceAllMiss(sep, rest, from, to, k);
      }
      ReplaceAllJoin(parts[1..], sep, from, to, k);
    }
  }

  const BreakTags: seq<string> := ["<br>", "<br/>", "<br />", "</p>", "</div>"]

  /** The five break tags become line breaks, in this order. */
  function ReplaceBreaks(s: string): string
  {
    var s := ReplaceAll(s, BreakTags[0], "\n");
    var s := ReplaceAll(s, BreakTags[1], "\n");
    var s := ReplaceAll(s, BreakTags[2], "\n");
    var s := ReplaceAll(s, BreakTags[3], "\n");
    ReplaceAll(s, BreakTags[4], "\n")
  }

  /** Every break tag opens with '<' and has no other '<'. */
  lemma TagShape(t: int)
    requires 0 <= t < 5
    ensures |BreakTags[t]| >= 4 && BreakTags[t][0] == '<' && '<' !in BreakTags[t][1..]
  {
    if t == 0 {
      assert BreakTags[t][1..] == "br>";
    } else if t == 1 {
      assert BreakTags[t][1..] == "br/>";
    } else if t == 2 {
      assert BreakTags[t][1..] == "br />";
    } else if t == 3 {
      assert BreakTags[t][1..] == "/p>";
    } else {
      assert BreakTags[t][1..] == "/div>";
    }
  }

  /** Two different break tags differ at some position both have. */
  lemma TagsMismatch(b: int, t: int) returns (k: int)
    requires 0 <= b < 5 && 0 <= t < 5 && b != t
    ensures 0 <= k < |BreakTags[b]| && k < |BreakTags[t]| && BreakTags[b][k] != BreakTags[t][k]
  {
    var x, y := BreakTags[b], BreakTags[t];
    assert x == "<br>" || x == "<br/>" || x == "<br />" || x == "</p>" || x == "</div>";
    assert y == "<br>" || y == "<br/>" || y == "<br />" || y == "</p>" || y == "</div>";
    k := if x[1] != y[1] then 1 else if x[2] != y[2] then 2 else 3;
  }

  /** The step for tag `t` on rows still joined by tag `b`. */
  lemma BreakStepPending(rows: seq<string>, b: int, t: int)
    requires 0 <= b < 5 && 0 <= t < 5
    requires forall i :: 0 <= i < |rows| ==> '<' !in rows[i]
    ensures ReplaceAll(Join(rows, BreakTags[b]), BreakTags[t], "\n")
      == Join(rows, if b == t then "\n" else BreakTags[b])
  {
    TagShape(t);
    TagShape(b);
    if b == t {
      ReplaceAllJoin(rows, BreakTags[b], BreakTags[t], "\n", 0);
    } else {
      var k := TagsMismatch(b, t);
      assert BreakTags[b] != BreakTags[t];
      ReplaceAllJoin(rows, BreakTags[b], BreakTags[t], "\n", k);
    }
  }

  /** The step for tag `t` on rows already joined by line breaks. */
  lemma BreakStepDone(rows: seq<string>, t: int)
    requires 0 <= t < 5
    requires forall i :: 0 <= i < |rows| ==> '<' !in rows[i]
    ensures ReplaceAll(Join(rows, "\n"), BreakTags[t], "\n") == Join(rows, "\n")
  {
    LinesAvoidTags(rows);
    TagShape(t);
  }

  /** Rows free of '<' joined by line breaks hold no '<' either. */
  lemma LinesAvoidTags(rows: seq<string>)
    requires forall i :: 0 <= i < |rows| ==> '<' !in rows[i]
    ensures '<' !in Join(rows, "\n")
  {
    JoinAvoids(rows, "\n", '<');
  }

  lemma ReplaceBreaksJoin(rows: seq<string>, b: int)
    requires 0 <= b < 5
    requires forall i :: 0 <= i < |rows| ==> '<' !in rows[i]
    ensures ReplaceBreaks(Join(rows, BreakTags[b])) == Join(rows, "\n")
  {
    var s0 := Join(rows, BreakTags[b]);
    var s1 := ReplaceAll(s0, BreakTags[0], "\n");
    var s2 := ReplaceAll(s1, BreakTags[1], "\n");
    var s3 := ReplaceAll(s2, BreakTags[2], "\n");
    var s4 := ReplaceAll(s3, BreakTags[3], "\n");
    BreakStepPending(rows, b, 0);
    if b < 1 { BreakStepDone(rows, 1); } else { BreakStepPending(rows, b, 1); }
    if b < 2 { BreakStepDone(rows, 2); } else { BreakStepPending(rows, b, 2); }
    if b < 3 { BreakStepDone(rows, 3); } else { BreakStepPending(rows, b, 3); }
    if b < 4 { BreakStepDone(rows, 4); } else { BreakStepPending(rows, b, 4); }
    assert ReplaceBreaks(s0) == ReplaceAll(s4, BreakTags[4], "\n");
  }

  /** Length of the `<[^>]+>` match at the start of `s`, or 0 if there is none:
      the greedy `[^>]+` stops at the first '>', which must not be the next character. */
  function TagLength(s: string): nat
  {
    if |s| > 0 && s[0] == '<' && IndexOf(s[1..], '>') > 0 then IndexOf(s[1..], '>') + 2 else 0
  }

  predicate NoTag(s: string) { forall i :: 0 <= i < |s| ==> TagLength(s[i..]) == 0 }

  /** `<[^>]+>` replaced by a space, leftmost match first. */
  function StripTags(s: string): (r: string)
    ensures |s| > 0 && s[0] != '<' ==> |r| > 0 && r[0] == s[0]
    ensures '<' !in s ==> r == s
    decreases |s|
  {
    if |s| == 0 then []
    else if TagLength(s) > 0 then " " + StripTags(s[TagLength(s)..])
    else [s[0]] + StripTags(s[1..])
  }

  /** Tag stripping brings in no character but the space. */
  lemma {:induction false} StripTagsAvoids(s: string, c: char)
    requires c != ' ' && c !in s
    ensures c !in StripTags(s)
    decreases |s|
  {
    if |s| > 0 {
      if TagLength(s) > 0 {
        StripTagsAvoids(s[TagLength(s)..], c);
      } else {
        StripTagsAvoids(s[1..], c);
      }
    }
  }

  lemma NoTagCons(c: char, t: string)
    requires NoTag(t) && TagLength([c] + t) == 0
    ensures NoTag([c] + t)
  {
    var s := [c] + t;
    forall i | 0 < i < |s| ensures TagLength(s[i..]) == 0 {
      assert s[i..] == t[i - 1..];
    }
  }

  lemma {:induction false} StripTagsLeavesNoTag(s: string)
    ensures NoTag(StripTags(s))
    decreases |s|
  {
    if |s| > 0 {
      if TagLength(s) > 0 {
        StripTagsLeavesNoTag(s[TagLength(s)..]);
        NoTagCons(' ', StripTags(s[TagLength(s)..]));
      } else {
        var rest := StripTags(s[1..]);
        StripTagsLeavesNoTag(s[1..]);
        if s[0] == '<' {
          if IndexOf(s[1..], '>') == 0 {
            assert s[1..][0] == '>' && rest[0] == '>';
            assert IndexOf(rest, '>') == 0;
          } else {
            StripTagsAvoids(s[1..], '>');
          }
          assert ([s[0]] + rest)[1..] == rest;
        }
        NoTagCons(s[0], rest);
      }
    }
  }

  function LetterRun(s: string): (n: nat)
    ensures n <= |s|
    ensures forall i :: 0 <= i < n ==> IsAsciiLetter(s[i])
    ensures n < |s| ==> !IsAsciiLetter(s[n])
  {
    if |s| > 0 && IsAsciiLetter(s[0]) then 1 + LetterRun(s[1..]) else 0
  }

  /** Length of the `&[a-zA-Z]+;` match at the start of `s`, or 0 if there is none. */
  function EntityLength(s: string): nat
  {
    if |s| > 0 && s[0] == '&' && LetterRun(s[1..]) > 0 && LetterRun(s[1..]) + 1 < |s| && s[LetterRun(s[1..]) + 1] == ';'
    then LetterRun(s[1..]) + 2
    else 0
  }

  predicate NoEntity(s: string) { forall i :: 0 <= i < |s| ==> EntityLength(s[i..]) == 0 }

  /** `&[a-zA-Z]+;` replaced by a space, leftmost match first. */
  function StripEntities(s: string): (r: string)
    ensures |s| > 0 ==> |r| > 0 && (r[0] == s[0] || r[0] == ' ')
    ensures |s| > 0 && s[0] != '&' ==> r[0] == s[0]
    ensures '&' !in s ==> r == s
    decreases |s|
  {
    if |s| == 0 then []
    else if EntityLength(s) > 0 then " " + StripEntities(s[EntityLength(s)..])
    else [s[0]] + StripEntities(s[1..])
  }

  lemma {:induction false} StripEntitiesPrefix(a: string, b: string)
    requires forall i :: 0 <= i < |a| ==> IsAsciiLetter(a[i])
    ensures StripEntities(a + b) == a + StripEntities(b)
    decreases |a|
  {
    if |a| > 0 {
      var s := a + b;
      assert s[1..] == a[1..] + b;
      assert EntityLength(s) == 0;
      StripEntitiesPrefix(a[1..], b);
      ConsThen(a, StripEntities(b), StripEntities(s), StripEntities(a[1..] + b));
    } else {
      assert a + b == b;
    }
  }

  /** `x` is `a` followed by `c` when it is `a`'s head followed by `a`'s tail and `c`. */
  lemma ConsThen<T>(a: seq<T>, c: seq<T>, x: seq<T>, y: seq<T>)
    requires |a| > 0 && x == [a[0]] + y && y == a[1..] + c
    ensures x == a + c
  {
    assert a == [a[0]] + a[1..];
  }

  lemma {:induction false} LetterRunOfLetters(a: string, b: string)
    requires forall i :: 0 <= i < |a| ==> IsAsciiLetter(a[i])
    requires |b| == 0 || !IsAsciiLetter(b[0])
    ensures LetterRun(a + b) == |a|
    decreases |a|
  {
    if |a| > 0 {
      assert (a + b)[1..] == a[1..] + b;
      LetterRunOfLetters(a[1..], b);
    } else {
      assert a + b == b;
    }
  }

  lemma NoEntityCons(c: char, t: string)
    requires NoEntity(t) && EntityLength([c] + t) == 0
    ensures NoEntity([c] + t)
  {
    var s := [c] + t;
    forall i | 0 < i < |s| ensures EntityLength(s[i..]) == 0 {
      assert s[i..] == t[i - 1..];
    }
  }

  /** An '&' that does not start an entity still does not after the rest is stripped. */
  lemma KeptAmpersand(t: string)
    requires EntityLength(['&'] + t) == 0
    ensures EntityLength(['&'] + StripEntities(t)) == 0
  {
    var n := LetterRun(t);
    assert (['&'] + t)[1..] == t;
    var u := StripEntities(t);
    var w := StripEntities(t[n..]);
    StripAfterLetters(t);
    LetterRunOfLetters(t[..n], w);
    assert (['&'] + u)[1..] == u;
    if n > 0 && n < |t| {
      assert t[n] != ';';
      assert u[n] == w[0];
    }
  }

  /** Stripping keeps a leading run of letters and goes on after it; what
      follows the run starts with its own first character or a space. */
  lemma StripAfterLetters(t: string)
    ensures var n := LetterRun(t); var w := StripEntities(t[n..]);
      StripEntities(t) == t[..n] + w
      && (n < |t| ==> |w| > 0 && (w[0] == t[n] || w[0] == ' ') && !IsAsciiLetter(w[0]))
  {
    StripSplitAtLetterRun(t, LetterRun(t));
    if LetterRun(t) < |t| {
      StripHeadAfterLetters(t[LetterRun(t)..]);
    }
  }

  /** Stripping passes a prefix of letters through unchanged. */
  lemma StripSplitAtLetterRun(t: string, n: nat)
    requires n == LetterRun(t)
    ensures StripEntities(t) == t[..n] + StripEntities(t[n..])
  {
    var a, b := t[..n], t[n..];
    assert a + b == t;
    StripEntitiesPrefix(a, b);
  }

  /** What stripping makes of a text that does not start with a letter starts
      with that text's first character or a space, never a letter. */
  lemma StripHeadAfterLetters(s: string)
    requires |s| > 0 && !IsAsciiLetter(s[0])
    ensures var w := StripEntities(s); |w| > 0 && (w[0] == s[0] || w[0] == ' ') && !IsAsciiLetter(w[0])
  {
  }

  lemma {:induction false} StripEntitiesLeavesNoEntity(s: string)
    ensures NoEntity(StripEntities(s))
    decreases |s|
  {
    if |s| > 0 {
      if EntityLength(s) > 0 {
        StripEntitiesLeavesNoEntity(s[EntityLength(s)..]);
        NoEntityCons(' ', StripEntities(s[EntityLength(s)..]));
      } else {
        StripEntitiesLeavesNoEntity(s[1..]);
        if s[0] == '&' {
          assert s == ['&'] + s[1..];
          KeptAmpersand(s[1..]);
        }
        NoEntityCons(s[0], StripEntities(s[1..]));
      }
    }
  }

  /** Each line trimmed, empty results dropped. */
  function TrimmedLines(lines: seq<string>): (r: seq<string>)
    ensures |r| <= |lines|
    ensures forall k :: 0 <= k < |r| ==> r[k] != [] && IsTrimmed(Rust, r[k])
  {
    if |lines| == 0 then []
    else
      TrimSpec(Rust, lines[0]);
      var t := Trim(Rust, lines[0]);
      (if t == [] then [] else [t]) + TrimmedLines(lines[1..])
  }

  lemma {:induction false} TrimmedLinesOfTrimmed(lines: seq<string>)
    requires forall k :: 0 <= k < |lines| ==> lines[k] != [] && IsTrimmed(Rust, lines[k])
    ensures TrimmedLines(lines) == lines
  {
    if |lines| > 0 {
      TrimOfTrimmed(Rust, lines[0]);
      TrimmedLinesOfTrimmed(lines[1..]);
    }
  }

  /** The passes after the break tags: tags, then entities, then lines trimmed. */
  function HtmlRows(s: string): (rows: seq<string>)
    ensures forall k :: 0 <= k < |rows| ==> rows[k] != [] && IsTrimmed(Rust, rows[k])
  {
    TrimmedLines(Lines(StripEntities(StripTags(s))))
  }

  function ProcessHtml(text: string): (rows: seq<string>)
    ensures forall k :: 0 <= k < |rows| ==> rows[k] != [] && IsTrimmed(Rust, rows[k])
  {
    HtmlRows(ReplaceBreaks(text))
  }

  /** After the tag pass no tag is left, and after the entity pass no entity is. */
  lemma HtmlMarkupIsStripped(text: string)
    ensures NoTag(StripTags(ReplaceBreaks(text)))
    ensures NoEntity(StripEntities(StripTags(ReplaceBreaks(text))))
  {
    StripTagsLeavesNoTag(ReplaceBreaks(text));
    StripEntitiesLeavesNoEntity(StripTags(ReplaceBreaks(text)));
  }

  /** A row the HTML reader gives back as it is: non-empty, trimmed, and free
      of markup and line breaks. */
  predicate PlainRow(row: string)
  {
    row != [] && IsTrimmed(Rust, row) && '<' !in row && '&' !in row && '\n' !in row
  }

  /** Plain rows separated by any one of the break tags come back as the rows. */
  lemma HtmlBreaksRoundTrip(rows: seq<string>, b: int)
    requires 0 <= b < 5
    requires forall k :: 0 <= k < |rows| ==> PlainRow(rows[k])
    ensures ProcessHtml(Join(rows, BreakTags[b])) == rows
  {
    PlainRowsFacts(rows);
    ReplaceBreaksJoin(rows, b);
    HtmlRowsOfLines(rows);
    ProcessHtmlThen(Join(rows, BreakTags[b]), Join(rows, "\n"), rows);
  }

  lemma ProcessHtmlThen(text: string, lines: string, rows: seq<string>)
    requires ReplaceBreaks(text) == lines && HtmlRows(lines) == rows
    ensures ProcessHtml(text) == rows
  {
  }

  /** Plain rows joined by line breaks come back as the rows. */
  lemma HtmlRowsOfLines(rows: seq<string>)
    requires forall k :: 0 <= k < |rows| ==> PlainRow(rows[k])
    ensures HtmlRows(Join(rows, "\n")) == rows
  {
    PlainRowsFacts(rows);
    PlainTextUnstripped(Join(rows, "\n"));
    LinesOfJoin(rows);
    TrimmedLinesOfTrimmed(rows);
  }

  /** What plain rows and their join by line breaks satisfy. */
  lemma PlainRowsFacts(rows: seq<string>)
    requires forall k :: 0 <= k < |rows| ==> PlainRow(rows[k])
    ensures forall k :: 0 <= k < |rows| ==> '<' !in rows[k]
    ensures forall k :: 0 <= k < |rows| ==> rows[k] != [] && IsTrimmed(Rust, rows[k])
    ensures forall k :: 0 <= k < |rows| ==> IsLine(rows[k])
    ensures '<' !in Join(rows, "\n") && '&' !in Join(rows, "\n")
  {
    assert RustWhitespace('\r');
    JoinAvoids(rows, "\n", '<');
    JoinAvoids(rows, "\n", '&');
  }

  /** Text with neither tags nor entities passes both strip passes unchanged. */
  lemma PlainTextUnstripped(s: string)
    requires '<' !in s && '&' !in s
    ensures StripEntities(StripTags(s)) == s
  {
    assert StripTags(s) == s;
  }

  // ---------------------------------------------------------------------------
  // Chunking

  const ChunkRows: nat := 100

  function Flatten(chunks: seq<seq<string>>): seq<string>
  {
    if |chunks| == 0 then [] else chunks[0] + Flatten(chunks[1..])
  }

  /** `chunks(size)`: consecutive pieces of `size` rows, the last one possibly shorter. */
  function Chunks(rows: seq<string>, size: nat): (chunks: seq<seq<string>>)
    requires size > 0
    ensures Flatten(chunks) == rows
    ensures forall k :: 0 <= k < |chunks| ==> 0 < |chunks[k]| <= size
    ensures forall k :: 0 <= k < |chunks| - 1 ==> |chunks[k]| == size
    decreases |rows|
  {
    if |rows| == 0 then []
    else if |rows| <= size then [rows]
    else
      var rest := Chunks(rows[size..], size);
      assert ([rows[..size]] + rest)[1..] == rest;
      assert rows == rows[..size] + rows[size..];
      [rows[..size]] + rest
  }

  // ---------------------------------------------------------------------------
  // process_file

  /** The rows the chosen reader makes of the file. */
  function ReadRows(content: FileContent, reader: Reader): Result<seq<string>>
  {
    match reader
    case CsvReader => Ok(JoinEach(ParsedRecords(content.csvRecords), " "))
    case ExcelReader =>
      if content.workbook.Unopenable? then Err(Excel(content.workbook.message))
      else Ok(JoinEach(SheetRows(content.workbook.sheets), " "))
    case TextReader => Ok(ProcessText(content.text))
    case HtmlReader => Ok(ProcessHtml(content.text))
  }

  /** `xs` lists every member of `s` exactly once. */
  ghost predicate Enumerates(xs: seq<string>, s: set<string>)
  {
    multiset(xs) == multiset(s)
  }

  /** An enumeration lists exactly the members of the set, each once. */
  lemma EnumeratesEach(xs: seq<string>, s: set<string>)
    requires Enumerates(xs, s)
    ensures forall x :: x in xs <==> x in s
    ensures forall i, j :: 0 <= i < j < |xs| ==> xs[i] != xs[j]
    ensures |xs| == |s|
  {
    forall x ensures x in xs <==> x in s {
      assert x in xs <==> x in multiset(xs);
    }
    forall i, j | 0 <= i < j < |xs| ensures xs[i] != xs[j] {
      var a, b := xs[..i + 1], xs[i + 1..];
      assert xs == a + b;
      assert a[i] == xs[i] && b[j - i - 1] == xs[j];
      assert multiset(xs) == multiset(a) + multiset(b);
      assert xs[i] in multiset(a) && xs[j] in multiset(b);
      assert multiset(xs)[xs[i]] == multiset(a)[xs[i]] + multiset(b)[xs[i]];
      assert multiset(s)[xs[i]] <= 1;
    }
    assert |multiset(xs)| == |xs|;
    assert |multiset(s)| == |s|;
  }

  /** The item rows inserted for `values`, with consecutive ids from `firstId`. */
  function NewItems(firstId: int, values: seq<string>, itemType: string, sourceId: int, fileId: int): seq<Database.ItemRow>
  {
    seq(|values|, k requires 0 <= k < |values| => Database.ItemRow(firstId + k, values[k], itemType, sourceId, fileId))
  }

  /** What one chunk yields: its phones, then its emails, then its IPs, each
      set in the order the set was iterated. */
  datatype ChunkValues = ChunkValues(phones: seq<string>, emails: seq<string>, ips: seq<string>)
  {
    function Values(): seq<string> { phones + emails + ips }

    function Items(firstId: int, sourceId: int, fileId: int): seq<Database.ItemRow>
    {
      NewItems(firstId, phones, "phone", sourceId, fileId)
        + NewItems(firstId + |phones|, emails, "email", sourceId, fileId)
        + NewItems(firstId + |phones| + |emails|, ips, "ip", sourceId, fileId)
    }
  }

  /** The three extractors' results for one chunk's text. */
  ghost predicate ChunkFound(scan: Scan, c: ChunkValues)
  {
    && Enumerates(c.phones, PhonesOfAll(scan.phones))
    && Enumerates(c.emails, LoweredTexts(scan.emails))
    && Enumerates(c.ips, Ipv4Texts(scan.ipv4) + Ipv6Texts(scan.ipv6))
  }

  /** Chunk by chunk, `chunks` holds what the extractors find in each piece joined by spaces. */
  ghost predicate FoundIn(pieces: seq<seq<string>>, scan: string -> Scan, chunks: seq<ChunkValues>)
  {
    Pairwise(pieces, chunks, (p, c) => ChunkFound(scan(Join(p, " ")), c))
  }

  /** `ys` runs alongside `xs`, each pair related by `rel`. */
  ghost predicate Pairwise<A, B>(xs: seq<A>, ys: seq<B>, rel: (A, B) -> bool)
  {
    |xs| == |ys| && forall k :: 0 <= k < |xs| ==> rel(xs[k], ys[k])
  }

  lemma PairwiseSnoc<A, B>(xs: seq<A>, k: int, ys: seq<B>, rel: (A, B) -> bool, y: B)
    requires 0 <= k < |xs|
    requires Pairwise(xs[..k], ys, rel)
    requires rel(xs[k], y)
    ensures Pairwise(xs[..k + 1], ys + [y], rel)
  {
    assert forall i :: 0 <= i < k ==> xs[..k + 1][i] == xs[..k][i];
  }

  lemma FoundInSnoc(pieces: seq<seq<string>>, k: int, scan: string -> Scan, chunks: seq<ChunkValues>, c: ChunkValues)
    requires 0 <= k < |pieces|
    requires FoundIn(pieces[..k], scan, chunks)
    requires ChunkFound(scan(Join(pieces[k], " ")), c)
    ensures FoundIn(pieces[..k + 1], scan, chunks + [c])
  {
    PairwiseSnoc(pieces, k, chunks, (p, c) => ChunkFound(scan(Join(p, " ")), c), c);
  }

  /** Read index by index: chunk `k` enumerates what is found in piece `k`. */
  lemma FoundInEach(pieces: seq<seq<string>>, scan: string -> Scan, chunks: seq<ChunkValues>)
    requires FoundIn(pieces, scan, chunks)
    ensures |chunks| == |pieces|
    ensures forall k :: 0 <= k < |chunks| ==> ChunkFound(scan(Join(pieces[k], " ")), chunks[k])
  {
    var rel := (p, c) => ChunkFound(scan(Join(p, " ")), c);
    forall k | 0 <= k < |chunks|
      ensures ChunkFound(scan(Join(pieces[k], " ")), chunks[k])
    {
      assert rel(pieces[k], chunks[k]);
    }
  }

  function AllValues(cs: seq<ChunkValues>): seq<string>
  {
    if |cs| == 0 then [] else AllValues(cs[..|cs| - 1]) + cs[|cs| - 1].Values()
  }

  function AllItems(firstId: int, cs: seq<ChunkValues>, sourceId: int, fileId: int): seq<Database.ItemRow>
  {
    if |cs| == 0 then []
    else
      var init := cs[..|cs| - 1];
      AllItems(firstId, init, sourceId, fileId) + cs[|cs| - 1].Items(firstId + |AllValues(init)|, sourceId, fileId)
  }

  /** Inserts one item per member of `values`, in an order the set chooses. */
  method InsertAll(db: Database.Database, values: set<string>, itemType: string, sourceId: int, fileId: int)
    returns (inserted: seq<string>)
    requires db.Valid()
    modifies db
    ensures db.Valid()
    ensures Enumerates(inserted, values)
    ensures db.items == old(db.items) + NewItems(old(db.nextItemId), inserted, itemType, sourceId, fileId)
    ensures db.nextItemId == old(db.nextItemId) + |inserted|
    ensures db.files == old(db.files) && db.nextFileId == old(db.nextFileId)
  {
    inserted := [];
    var rest := values;
    while rest != {}
      invariant db.Valid()
      invariant rest <= values
      invariant multiset(inserted) + multiset(rest) == multiset(values)
      invariant db.items == old(db.items) + NewItems(old(db.nextItemId), inserted, itemType, sourceId, fileId)
      invariant db.nextItemId == old(db.nextItemId) + |inserted|
      invariant db.files == old(db.files) && db.nextFileId == old(db.nextFileId)
      decreases rest
    {
      var x :| x in rest;
      db.InsertExtractedItem(x, itemType, sourceId, fileId);
      assert NewItems(old(db.nextItemId), inserted + [x], itemType, sourceId, fileId)
        == NewItems(old(db.nextItemId), inserted, itemType, sourceId, fileId)
           + [Database.ItemRow(old(db.nextItemId) + |inserted|, x, itemType, sourceId, fileId)];
      assert multiset(rest) == multiset(rest - {x}) + multiset{x};
      inserted := inserted + [x];
      rest := rest - {x};
    }
  }

  /** The three extractors on one chunk's text, given the matches the regexes report in it. */
  method ScanChunk(text: string, found: Scan) returns (phones: set<string>, emails: set<string>, ips: set<string>)
    requires ValidScan(text, found)
    ensures phones == PhonesOfAll(found.phones)
    ensures emails == LoweredTexts(found.emails)
    ensures ips == Ipv4Texts(found.ipv4) + Ipv6Texts(found.ipv6)
  {
    phones := ExtractPhones(text, found.phones);
    emails := ExtractEmails(text, found.emails);
    ips := ExtractIps(text, found.ipv4, found.ipv6);
  }

  /** Stores one chunk's findings: the phones, then the emails, then the IPs,
      each set in the order it is iterated. */
  method StoreChunk(db: Database.Database, phones: set<string>, emails: set<string>, ips: set<string>,
                    sourceId: int, fileId: int)
    returns (found: seq<string>, ghost c: ChunkValues)
    requires db.Valid()
    modifies db
    ensures db.Valid()
    ensures Enumerates(c.phones, phones) && Enumerates(c.emails, emails) && Enumerates(c.ips, ips)
    ensures found == c.Values()
    ensures db.items == old(db.items) + c.Items(old(db.nextItemId), sourceId, fileId)
    ensures db.nextItemId == old(db.nextItemId) + |found|
    ensures db.files == old(db.files) && db.nextFileId == old(db.nextFileId)
  {
    ghost var items0, next0 := db.items, db.nextItemId;
    var p := InsertAll(db, phones, "phone", sourceId, fileId);
    ghost var forPhones := NewItems(next0, p, "phone", sourceId, fileId);
    var e := InsertAll(db, emails, "email", sourceId, fileId);
    ghost var forEmails := NewItems(next0 + |p|, e, "email", sourceId, fileId);
    var i := InsertAll(db, ips, "ip", sourceId, fileId);
    ghost var forIps := NewItems(next0 + |p| + |e|, i, "ip", sourceId, fileId);
    assert db.items == items0 + forPhones + forEmails + forIps;
    c := ChunkValues(p, e, i);
    found := p + e + i;
    AppendThree(items0, forPhones, forEmails, forIps);
  }

  /** How far `process_file` has got: the chunks of `pieces` are extracted, their
      values listed in `extracted` and stored after `items0` from id `next0`. */
  ghost predicate Progress(items: seq<Database.ItemRow>, next: int, items0: seq<Database.ItemRow>, next0: int,
                           pieces: seq<seq<string>>, scan: string -> Scan, chunks: seq<ChunkValues>,
                           extracted: seq<string>, sourceId: int, fileId: int)
  {
    && FoundIn(pieces, scan, chunks)
    && extracted == AllValues(chunks)
    && items == items0 + AllItems(next0, chunks, sourceId, fileId)
    && next == next0 + |extracted|
  }

  /** `process_file`'s work on chunk `k`: extract from its rows joined by spaces,
      then store what was found. */
  method ExtractChunk(db: Database.Database, pieces: seq<seq<string>>, k: int, scan: string -> Scan,
                      sourceId: int, fileId: int, extracted: seq<string>,
                      ghost chunks: seq<ChunkValues>, ghost items0: seq<Database.ItemRow>, ghost next0: int)
    returns (found: seq<string>, ghost c: ChunkValues)
    requires db.Valid() && Scanner(scan) && 0 <= k < |pieces|
    requires Progress(db.items, db.nextItemId, items0, next0, pieces[..k], scan, chunks, extracted, sourceId, fileId)
    modifies db
    ensures db.Valid()
    ensures Progress(db.items, db.nextItemId, items0, next0, pieces[..k + 1], scan, chunks + [c],
                     extracted + found, sourceId, fileId)
    ensures db.files == old(db.files) && db.nextFileId == old(db.nextFileId)
  {
    var text := Join(pieces[k], " ");
    var phones, emails, ips := ScanChunk(text, scan(text));
    ghost var before := db.items;
    found, c := StoreChunk(db, phones, emails, ips, sourceId, fileId);
    ChunkStep(items0, next0, chunks, c, sourceId, fileId, before, db.items);
    FoundInSnoc(pieces, k, scan, chunks, c);
  }

  /** Appending three pieces one by one appends their concatenation. */
  lemma AppendThree<T>(x: seq<T>, a: seq<T>, b: seq<T>, c: seq<T>)
    ensures x + a + b + c == x + (a + b + c)
  {
  }

  /** Extracts from each chunk of 100 rows joined by spaces, storing the values
      under `fileId`. `scan` stands for the regex engine, which reports only
      genuine matches. */
  method ExtractAll(db: Database.Database, rows: seq<string>, sourceId: int, fileId: int, scan: string -> Scan)
    returns (extracted: seq<string>, ghost chunks: seq<ChunkValues>)
    requires db.Valid()
    requires Scanner(scan)
    modifies db
    ensures db.Valid()
    ensures FoundIn(Chunks(rows, ChunkRows), scan, chunks)
    ensures extracted == AllValues(chunks)
    ensures db.items == old(db.items) + AllItems(old(db.nextItemId), chunks, sourceId, fileId)
    ensures db.files == old(db.files) && db.nextFileId == old(db.nextFileId)
  {
    var pieces := Chunks(rows, ChunkRows);
    extracted := [];
    chunks := [];
    assert pieces[..0] == [];
    ghost var items0, next0 := db.items, db.nextItemId;
    for k := 0 to |pieces|
      invariant db.Valid()
      invariant Progress(db.items, db.nextItemId, items0, next0, pieces[..k], scan, chunks, extracted, sourceId, fileId)
      invariant db.files == old(db.files) && db.nextFileId == old(db.nextFileId)
    {
      var found, c := ExtractChunk(db, pieces, k, scan, sourceId, fileId, extracted, chunks, items0, next0);
      chunks := chunks + [c];
      extracted := extracted + found;
    }
    assert pieces[..|pieces|] == pieces;
  }

  /** Storing one more chunk extends the stored rows and values by that chunk's. */
  lemma ChunkStep(items0: seq<Database.ItemRow>, next0: int, chunks: seq<ChunkValues>, c: ChunkValues,
                  sourceId: int, fileId: int, before: seq<Database.ItemRow>, after: seq<Database.ItemRow>)
    requires before == items0 + AllItems(next0, chunks, sourceId, fileId)
    requires after == before + c.Items(next0 + |AllValues(chunks)|, sourceId, fileId)
    ensures after == items0 + AllItems(next0, chunks + [c], sourceId, fileId)
    ensures AllValues(chunks + [c]) == AllValues(chunks) + c.Values()
  {
    AllOfSnoc(next0, chunks, c, sourceId, fileId);
    AppendTwo(items0, AllItems(next0, chunks, sourceId, fileId), c.Items(next0 + |AllValues(chunks)|, sourceId, fileId));
  }

  /** One more chunk adds its values and its item rows at the end. */
  lemma AllOfSnoc(firstId: int, cs: seq<ChunkValues>, c: ChunkValues, sourceId: int, fileId: int)
    ensures AllValues(cs + [c]) == AllValues(cs) + c.Values()
    ensures AllItems(firstId, cs + [c], sourceId, fileId)
      == AllItems(firstId, cs, sourceId, fileId) + c.Items(firstId + |AllValues(cs)|, sourceId, fileId)
  {
    assert (cs + [c])[..|cs|] == cs;
  }

  lemma AppendTwo<T>(x: seq<T>, a: seq<T>, b: seq<T>)
    ensures x + a + b == x + (a + b)
  {
  }

  /** The rows the reader chosen by the extension makes of the file. */
  method ReadFile(fileName: string, content: FileContent) returns (read: Result<seq<string>>)
    ensures read == ReadRows(content, ReaderFor(Extension(fileName)))
  {
    match ReaderFor(Extension(fileName)) {
      case CsvReader =>
        var rows := ProcessCsv(content.csvRecords);
        read := Ok(rows);
      case ExcelReader => read := ProcessExcel(content.workbook);
      case TextReader => read := Ok(ProcessText(content.text));
      case HtmlReader => read := Ok(ProcessHtml(content.text));
    }
  }

  /** What `process_file` leaves behind, given the tables before (`files0`,
      `items0`) and the next free ids, and the tables after: a reader error
      changes nothing; otherwise one file row holding the rows joined by
      newlines, and per chunk of rows the values found in it, returned in order
      and stored one item row each under the new file id. */
  ghost predicate ProcessOutcome(fileName: string, content: FileContent, sourceId: int, now: string,
                                 scan: string -> Scan,
                                 files0: seq<Database.FileRow>, items0: seq<Database.ItemRow>, fileId: int, itemId: int,
                                 files: seq<Database.FileRow>, items: seq<Database.ItemRow>,
                                 r: Result<seq<string>>, chunks: seq<ChunkValues>)
  {
    var read := ReadRows(content, ReaderFor(Extension(fileName)));
    && (read.Err? ==> r == Err(read.error) && files == files0 && items == items0)
    && (read.Ok? ==>
          var pieces := Chunks(read.value, ChunkRows);
          && r.Ok?
          && files == files0 + [Database.FileRow(fileId, fileName, sourceId, Join(read.value, "\n"), now)]
          && |chunks| == |pieces|
          && (forall k :: 0 <= k < |pieces| ==> ChunkFound(scan(Join(pieces[k], " ")), chunks[k]))
          && r.value == AllValues(chunks)
          && items == items0 + AllItems(itemId, chunks, sourceId, fileId))
  }

  /** `process_file`: read the rows, store them joined by newlines as one file,
      then extract from them chunk by chunk under the new file id. A reader
      error leaves the database as it was. */
  method ProcessFile(fileName: string, content: FileContent, sourceId: int, db: Database.Database,
                     now: string, scan: string -> Scan)
    returns (r: Result<seq<string>>, ghost chunks: seq<ChunkValues>)
    requires db.Valid()
    requires Scanner(scan)
    modifies db
    ensures db.Valid()
    ensures ProcessOutcome(fileName, content, sourceId, now, scan,
                           old(db.files), old(db.items), old(db.nextFileId), old(db.nextItemId),
                           db.files, db.items, r, chunks)
  {
    var read := ReadFile(fileName, content);
    if read.Err? {
      return Err(read.error), [];
    }
    var fileId := db.InsertFile(fileName, sourceId, Join(read.value, "\n"), now);
    var extracted;
    extracted, chunks := ExtractAll(db, read.value, sourceId, fileId, scan);
    FoundInEach(Chunks(read.value, ChunkRows), scan, chunks);
    return Ok(extracted), chunks;
  }
}
