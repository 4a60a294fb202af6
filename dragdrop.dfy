/** The Electron renderer's handling of dropped files: the dropped files that
    carry a path are read through the main process, spreadsheets are flattened
    to tab-separated text, and each file's extraction is merged into a source
    tile that only ever grows. The extractor itself, the tile registry and the
    page updates are outside this model; the extractor is a parameter. */
module DragDrop {
  import opened Text
  import opened Models

  // ---------------------------------------------------------------------------
  // Values exchanged with the main process and the extractor

  /** The outcome of a step that can throw: the value, or the error message. */
  datatype Outcome<T> = Done(value: T) | Failed(message: string)

  /** One row reference that the extractor attaches to a value. */
  datatype RowRef = RowRef(fileName: string, lineNumber: int, rowData: string)

  /** Value -> the rows it was found in. */
  type RowMap = map<string, seq<RowRef>>

  /** What the extractor reports for one file's text. */
  datatype Extraction = Extraction(
    phones: seq<string>, emails: seq<string>, ips: seq<string>,
    phoneRows: RowMap, emailRows: RowMap, ipRows: RowMap)

  /** A dropped file as the browser describes it. `path` is "" when the file
      carries no path: a missing path and an empty one are both falsy. */
  datatype DroppedFile = DroppedFile(path: string, name: string, fileType: string, size: int)

  /** The record kept for each dropped file that has a path. */
  datatype FileInfo = FileInfo(path: string, name: string, fileType: string, size: int)

  /** A spreadsheet cell as the sheet reader hands it over: `Empty` for null or
      undefined, otherwise the cell's `String(...)` rendering. */
  datatype Cell = Empty | Value(shown: string)

  type SheetRow = seq<Cell>

  type Sheet = seq<SheetRow>

  /** The main process and the page's libraries, as seen from the renderer:
      the text and binary reads by path, whether the spreadsheet library is
      loaded, and its parse of a workbook into sheets of rows. */
  datatype Reader = Reader(
    readText: string -> Outcome<string>,
    readBinary: string -> Outcome<seq<bv8>>,
    xlsxLoaded: bool,
    parseWorkbook: seq<bv8> -> Outcome<seq<Sheet>>)

  // ---------------------------------------------------------------------------
  // Spreadsheet flattening

  /** A null or undefined cell is empty; any other cell is trimmed. */
  function CellText(c: Cell): string
  {
    match c
    case Empty => ""
    case Value(shown) => Trim(Js, shown)
  }

  function CellTexts(row: SheetRow): (r: seq<string>)
    ensures |r| == |row|
  {
    seq(|row|, i requires 0 <= i < |row| => CellText(row[i]))
  }

  /** A row's cells joined with tabs. */
  function RowText(row: SheetRow): string
  {
    Join(CellTexts(row), "\t")
  }

  /** A row is kept when it has cells and its text is not blank. */
  predicate KeptRow(row: SheetRow)
  {
    |row| > 0 && |Trim(Js, RowText(row))| > 0
  }

  /** The texts of a sheet's kept rows, in row order. */
  function SheetRows(sheet: Sheet): seq<string>
  {
    if |sheet| == 0 then []
    else
      var row := sheet[|sheet| - 1];
      SheetRows(sheet[..|sheet| - 1]) + (if KeptRow(row) then [RowText(row)] else [])
  }

  /** The texts of the kept rows of every sheet, sheet after sheet. */
  function KeptRows(book: seq<Sheet>): seq<string>
  {
    if |book| == 0 then [] else KeptRows(book[..|book| - 1]) + SheetRows(book[|book| - 1])
  }

  /** Each row followed by a line break. */
  function Terminated(rows: seq<string>): string
  {
    if |rows| == 0 then [] else rows[0] + "\n" + Terminated(rows[1..])
  }

  /** The text a sheet flattens to: each kept row's text and a line break. */
  function SheetText(sheet: Sheet): string
  {
    if |sheet| == 0 then []
    else
      var row := sheet[|sheet| - 1];
      SheetText(sheet[..|sheet| - 1]) + (if KeptRow(row) then RowText(row) + "\n" else "")
  }

  /** The text a workbook flattens to: its sheets' texts, in workbook order. */
  function ExcelText(book: seq<Sheet>): string
  {
    if |book| == 0 then [] else ExcelText(book[..|book| - 1]) + SheetText(book[|book| - 1])
  }

  lemma {:induction false} TerminatedAppend(a: seq<string>, b: seq<string>)
    ensures Terminated(a + b) == Terminated(a) + Terminated(b)
  {
    if |a| == 0 {
      assert a + b == b;
    } else {
      assert (a + b)[0] == a[0];
      assert (a + b)[1..] == a[1..] + b;
      TerminatedAppend(a[1..], b);
    }
  }

  /** `processExcelData`: every row of every sheet, in workbook order; cells
      trimmed and joined with tabs; blank rows dropped; each kept row ends
      with a line break. The workbook parse is done by the caller. */
  method ProcessExcelData(book: seq<Sheet>) returns (allText: string)
    ensures allText == ExcelText(book)
  {
    allText := "";
    for s := 0 to |book|
      invariant allText == ExcelText(book[..s])
    {
      allText := AppendSheet(allText, book[s]);
      assert book[..s + 1][..s] == book[..s];
    }
    assert book[..|book|] == book;
  }

  /** The per-sheet callback: appends the text of each kept row of one sheet
      and a line break. */
  method AppendSheet(text: string, sheet: Sheet) returns (allText: string)
    ensures allText == text + SheetText(sheet)
  {
    allText := text;
    for r := 0 to |sheet|
      invariant allText == text + SheetText(sheet[..r])
    {
      var row := sheet[r];
      AppendSheetStep(text, sheet, r, allText);
      if KeptRow(row) {
        allText := allText + RowText(row) + "\n";
      }
    }
    assert sheet[..|sheet|] == sheet;
  }

  /** One more row of the sheet appends its text when the row is kept. */
  lemma AppendSheetStep(text: string, sheet: Sheet, r: int, allText: string)
    requires 0 <= r < |sheet| && allText == text + SheetText(sheet[..r])
    ensures (if KeptRow(sheet[r]) then allText + RowText(sheet[r]) + "\n" else allText)
      == text + SheetText(sheet[..r + 1])
  {
    assert sheet[..r + 1][..r] == sheet[..r];
  }

  /** The flattened text is the kept rows, each followed by a line break. */
  lemma {:induction false} ExcelTextRows(book: seq<Sheet>)
    ensures ExcelText(book) == Terminated(KeptRows(book))
  {
    if |book| > 0 {
      var last := |book| - 1;
      ExcelTextRows(book[..last]);
      SheetTextRows(book[last]);
      TerminatedAppend(KeptRows(book[..last]), SheetRows(book[last]));
    }
  }

  lemma {:induction false} SheetTextRows(sheet: Sheet)
    ensures SheetText(sheet) == Terminated(SheetRows(sheet))
  {
    if |sheet| > 0 {
      var last := |sheet| - 1;
      SheetTextRows(sheet[..last]);
      TerminatedStep(SheetRows(sheet[..last]), sheet[last]);
    }
  }

  /** Keeping one more row appends its terminated text. */
  lemma TerminatedStep(kept: seq<string>, row: SheetRow)
    ensures Terminated(kept + (if KeptRow(row) then [RowText(row)] else [])) ==
      Terminated(kept) + (if KeptRow(row) then RowText(row) + "\n" else "")
  {
    if KeptRow(row) {
      TerminatedAppend(kept, [RowText(row)]);
      assert [RowText(row)][1..] == [];
    } else {
      assert kept + [] == kept;
    }
  }

  /** No kept row is blank. */
  lemma {:induction false} KeptRowsNonBlank(book: seq<Sheet>)
    ensures forall k :: 0 <= k < |KeptRows(book)| ==> !IsBlank(Js, KeptRows(book)[k])
  {
    if |book| > 0 {
      KeptRowsNonBlank(book[..|book| - 1]);
      SheetRowsNonBlank(book[|book| - 1]);
    }
  }

  lemma {:induction false} SheetRowsNonBlank(sheet: Sheet)
    ensures forall k :: 0 <= k < |SheetRows(sheet)| ==> !IsBlank(Js, SheetRows(sheet)[k])
  {
    if |sheet| > 0 {
      var row := sheet[|sheet| - 1];
      SheetRowsNonBlank(sheet[..|sheet| - 1]);
      TrimEmpty(Js, RowText(row));
    }
  }

  /** Every row that has cells and a non-blank text shows up in the flattened rows. */
  lemma {:induction false} RowKept(book: seq<Sheet>, s: int, r: int)
    requires 0 <= s < |book| && 0 <= r < |book[s]|
    requires KeptRow(book[s][r])
    ensures RowText(book[s][r]) in KeptRows(book)
  {
    var last := |book| - 1;
    if s == last {
      SheetRowKept(book[s], r);
    } else {
      RowKept(book[..last], s, r);
    }
  }

  lemma {:induction false} SheetRowKept(sheet: Sheet, r: int)
    requires 0 <= r < |sheet| && KeptRow(sheet[r])
    ensures RowText(sheet[r]) in SheetRows(sheet)
  {
    var last := |sheet| - 1;
    var init := sheet[..last];
    if r < last {
      assert init[r] == sheet[r];
      SheetRowKept(init, r);
    } else {
      assert SheetRows(sheet) == SheetRows(init) + [RowText(sheet[r])];
    }
  }

  /** No cell of the workbook shows a line break. */
  predicate SingleLineCells(book: seq<Sheet>)
  {
    forall s, r, c :: 0 <= s < |book| && 0 <= r < |book[s]| && 0 <= c < |book[s][r]| ==>
      book[s][r][c].Value? ==> '\n' !in book[s][r][c].shown
  }

  /** When no cell holds a line break, the flattened text splits back into
      exactly the kept rows, one per line. */
  lemma LinesOfExcelText(book: seq<Sheet>)
    requires SingleLineCells(book)
    ensures Lines(ExcelText(book)) == KeptRows(book)
  {
    ExcelTextRows(book);
    KeptRowsAreLines(book);
    LinesOfTerminated(KeptRows(book));
  }

  lemma {:induction false} LinesOfTerminated(rows: seq<string>)
    requires forall k :: 0 <= k < |rows| ==> IsLine(rows[k])
    ensures Lines(Terminated(rows)) == rows
  {
    if |rows| > 0 {
      LinesOfTerminated(rows[1..]);
      LinesCons(rows[0], Terminated(rows[1..]));
    }
  }

  lemma {:induction false} KeptRowsAreLines(book: seq<Sheet>)
    requires SingleLineCells(book)
    ensures forall k :: 0 <= k < |KeptRows(book)| ==> IsLine(KeptRows(book)[k])
  {
    if |book| > 0 {
      var last := |book| - 1;
      assert SingleLineCells(book[..last]) by {
        forall s, r, c | 0 <= s < last && 0 <= r < |book[s]| && 0 <= c < |book[s][r]|
          ensures book[..last][s][r][c] == book[s][r][c]
        {
        }
      }
      KeptRowsAreLines(book[..last]);
      SheetRowsAreLines(book[last]);
    }
  }

  lemma {:induction false} SheetRowsAreLines(sheet: Sheet)
    requires forall r, c :: 0 <= r < |sheet| && 0 <= c < |sheet[r]| ==>
      sheet[r][c].Value? ==> '\n' !in sheet[r][c].shown
    ensures forall k :: 0 <= k < |SheetRows(sheet)| ==> IsLine(SheetRows(sheet)[k])
  {
    if |sheet| > 0 {
      var last := |sheet| - 1;
      SheetRowsAreLines(sheet[..last]);
      if KeptRow(sheet[last]) {
        RowTextIsLine(sheet[last]);
      }
    }
  }

  /** A row's text is one line when its cells hold no line break. */
  lemma RowTextIsLine(row: SheetRow)
    requires forall c :: 0 <= c < |row| ==> row[c].Value? ==> '\n' !in row[c].shown
    ensures IsLine(RowText(row))
  {
    var texts := CellTexts(row);
    forall c | 0 <= c < |row|
      ensures '\n' !in texts[c] && (|texts[c]| == 0 || texts[c][|texts[c]| - 1] != '\r')
    {
      CellTextClean(row[c]);
    }
    JoinAvoids(texts, "\t", '\n');
    JoinEndsClean(texts, "\t");
  }

  /** A cell's text is trimmed, and holds no line break when the cell shows none. */
  lemma CellTextClean(c: Cell)
    ensures c.Value? && '\n' !in c.shown ==> '\n' !in CellText(c)
    ensures |CellText(c)| == 0 || CellText(c)[|CellText(c)| - 1] != '\r'
  {
    if c.Value? {
      TrimIsTrimmed(Js, c.shown);
      TrimWithin(Js, c.shown);
    }
  }

  /** Every character of a trimmed string comes from the string. */
  lemma TrimWithin(host: Host, s: string)
    ensures forall x :: x in Trim(host, s) ==> x in s
  {
    var a := s[LeadingSpace(host, s)..];
    assert forall x :: x in a[..TrailingStart(host, a)] ==> x in a;
  }

  /** A join whose pieces and separator do not end in a carriage return does
      not end in one either. */
  lemma {:induction false} JoinEndsClean(parts: seq<string>, sep: string)
    requires |sep| > 0 && sep[|sep| - 1] != '\r'
    requires forall k :: 0 <= k < |parts| ==> |parts[k]| == 0 || parts[k][|parts[k]| - 1] != '\r'
    ensures var j := Join(parts, sep); |j| == 0 || j[|j| - 1] != '\r'
  {
    if |parts| > 1 {
      JoinEndsClean(parts[1..], sep);
    }
  }

  /** `processPDFData`: text extraction from PDF is not implemented and gives
      no text. */
  function PdfText(data: seq<bv8>): string
  {
    ""
  }

  // ---------------------------------------------------------------------------
  // Type dispatch

  datatype FileKind = Spreadsheet | Pdf | PlainText

  /** The kind is decided by the lower-cased name's extension. */
  function KindOf(fileName: string): FileKind
  {
    if IsExcelName(fileName) then Spreadsheet
    else if IsPdfName(fileName) then Pdf
    else PlainText
  }

  predicate IsExcelName(fileName: string)
  {
    EndsWith(Lower(fileName), ".xlsx") || EndsWith(Lower(fileName), ".xls")
  }

  predicate IsPdfName(fileName: string)
  {
    EndsWith(Lower(fileName), ".pdf")
  }

  /** What a file reads as: spreadsheets and PDFs are read as bytes (a failed
      read throws); a spreadsheet is flattened only when the spreadsheet library
      is loaded and is otherwise unsupported; a PDF gives no text; anything else
      is read as text. */
  function FileText(reader: Reader, f: FileInfo): Outcome<string>
  {
    var kind := KindOf(f.name);
    if kind == PlainText then reader.readText(f.path)
    else
      match reader.readBinary(f.path)
      case Failed(message) => Failed(message)
      case Done(data) =>
        if kind == Spreadsheet && reader.xlsxLoaded then
          match reader.parseWorkbook(data)
          case Failed(message) => Failed(message)
          case Done(book) => Done(ExcelText(book))
        else if kind == Pdf then Done(PdfText(data))
        else Failed("Unsupported file type: " + f.name)
  }

  /** The dispatch, case by case: a spreadsheet is flattened when its bytes
      read, the library is loaded and the parse succeeds, and fails otherwise. */
  lemma SpreadsheetDispatch(reader: Reader, f: FileInfo)
    requires IsExcelName(f.name)
    ensures FileText(reader, f).Done? <==>
      reader.readBinary(f.path).Done? && reader.xlsxLoaded
      && reader.parseWorkbook(reader.readBinary(f.path).value).Done?
    ensures FileText(reader, f).Done? ==>
      FileText(reader, f).value == ExcelText(reader.parseWorkbook(reader.readBinary(f.path).value).value)
    ensures reader.readBinary(f.path).Done? && !reader.xlsxLoaded ==>
      FileText(reader, f) == Failed("Unsupported file type: " + f.name)
  {
  }

  /** A PDF gives no text once its bytes are read, and the read's error otherwise. */
  lemma PdfDispatch(reader: Reader, f: FileInfo)
    requires IsPdfName(f.name)
    ensures FileText(reader, f) == (if reader.readBinary(f.path).Done? then Done("")
                                    else Failed(reader.readBinary(f.path).message))
  {
    ExtensionsExclusive(f.name);
  }

  /** Any other file is read as text. */
  lemma TextDispatch(reader: Reader, f: FileInfo)
    requires !IsExcelName(f.name) && !IsPdfName(f.name)
    ensures FileText(reader, f) == reader.readText(f.path)
  {
  }

  /** A name cannot end in both a spreadsheet and a PDF extension. */
  lemma ExtensionsExclusive(fileName: string)
    ensures IsPdfName(fileName) ==> !IsExcelName(fileName)
  {
    var lower := Lower(fileName);
    if EndsWith(lower, ".pdf") {
      assert lower[|lower| - 4..] == ".pdf";
      assert lower[|lower| - 1] == 'f';
    }
  }

  /** The dispatch does not depend on the letter case of the name. */
  lemma KindIgnoresCase(fileName: string)
    ensures KindOf(Lower(fileName)) == KindOf(fileName)
  {
    LowerIsLowerIdempotent(fileName);
  }

  /** The `try` block's reading part for one file. */
  method ReadFileText(reader: Reader, f: FileInfo) returns (text: Outcome<string>)
    ensures text == FileText(reader, f)
  {
    // A name cannot be both (ExtensionsExclusive), so the kind decides both flags.
    var kind := KindOf(f.name);
    var isExcel := kind == Spreadsheet;
    var isPdf := kind == Pdf;
    if isExcel || isPdf {
      var result := reader.readBinary(f.path);
      if result.Failed? {
        return Failed(result.message);
      }
      if isExcel && reader.xlsxLoaded {
        var book := reader.parseWorkbook(result.value);
        if book.Failed? {
          return Failed(book.message);
        }
        var flat := ProcessExcelData(book.value);
        text := Done(flat);
      } else if isPdf {
        text := Done(PdfText(result.value));
      } else {
        text := Failed("Unsupported file type: " + f.name);
      }
    } else {
      text := reader.readText(f.path);
    }
  }

  // ---------------------------------------------------------------------------
  // The tile

  /** A snapshot of a tile's collections. */
  datatype TileData = TileData(
    files: seq<string>,
    phones: set<string>, emails: set<string>, ips: set<string>,
    phoneRows: RowMap, emailRows: RowMap, ipRows: RowMap)

  function Elems(xs: seq<string>): set<string>
  {
    set x | x in xs
  }

  function RowsAt(m: RowMap, k: string): seq<RowRef>
  {
    if k in m then m[k] else []
  }

  /** Every value's rows with the added rows appended, keys created as needed. */
  function MergeRows(m: RowMap, add: RowMap): RowMap
  {
    map k | k in m.Keys + add.Keys :: RowsAt(m, k) + RowsAt(add, k)
  }

  /** A tile after one file's extraction is merged into it. */
  function Merged(d: TileData, fileName: string, ex: Extraction): TileData
  {
    TileData(
      d.files + [fileName],
      d.phones + Elems(ex.phones), d.emails + Elems(ex.emails), d.ips + Elems(ex.ips),
      MergeRows(d.phoneRows, ex.phoneRows), MergeRows(d.emailRows, ex.emailRows),
      MergeRows(d.ipRows, ex.ipRows))
  }

  /** Row lists only grow at their end: every value keeps its rows, in order,
      as a prefix. */
  predicate RowsGrow(m: RowMap, n: RowMap)
  {
    forall k :: k in m ==> k in n && m[k] <= n[k]
  }

  /** `e` holds everything `d` holds, with the file list and row lists
      extended at the end only. */
  predicate Grows(d: TileData, e: TileData)
  {
    d.files <= e.files && d.phones <= e.phones && d.emails <= e.emails && d.ips <= e.ips
    && RowsGrow(d.phoneRows, e.phoneRows) && RowsGrow(d.emailRows, e.emailRows)
    && RowsGrow(d.ipRows, e.ipRows)
  }

  /** Merging appends: a key present before keeps its rows as a prefix and
      gets the added rows after them; a key only in the addition gets exactly
      the added rows; no key disappears. */
  lemma MergeRowsAppends(m: RowMap, add: RowMap)
    ensures MergeRows(m, add).Keys == m.Keys + add.Keys
    ensures forall k :: k in m ==> MergeRows(m, add)[k] == m[k] + RowsAt(add, k)
    ensures forall k :: k in add && k !in m ==> MergeRows(m, add)[k] == add[k]
    ensures RowsGrow(m, MergeRows(m, add))
  {
  }

  /** One file's merge appends the file name (even when it is already
      listed), adds exactly the extracted values to the sets and only
      appends rows. */
  lemma MergedGrows(d: TileData, fileName: string, ex: Extraction)
    ensures var e := Merged(d, fileName, ex);
      Grows(d, e) && e.files == d.files + [fileName]
      && e.phones - d.phones <= Elems(ex.phones) && Elems(ex.phones) <= e.phones
      && e.emails - d.emails <= Elems(ex.emails) && Elems(ex.emails) <= e.emails
      && e.ips - d.ips <= Elems(ex.ips) && Elems(ex.ips) <= e.ips
  {
    MergeRowsAppends(d.phoneRows, ex.phoneRows);
    MergeRowsAppends(d.emailRows, ex.emailRows);
    MergeRowsAppends(d.ipRows, ex.ipRows);
  }

  lemma GrowsTransitive(a: TileData, b: TileData, c: TileData)
    requires Grows(a, b) && Grows(b, c)
    ensures Grows(a, c)
  {
  }

  class Tile {
    var name: string
    var files: seq<string>
    var phones: set<string>
    var emails: set<string>
    var ips: set<string>
    var phoneRows: RowMap
    var emailRows: RowMap
    var ipRows: RowMap

    /** A new tile has no files, values or rows. */
    constructor (name: string)
      ensures this.name == name
      ensures Data() == TileData([], {}, {}, {}, map[], map[], map[])
    {
      this.name := name;
      files := [];
      phones := {};
      emails := {};
      ips := {};
      phoneRows := map[];
      emailRows := map[];
      ipRows := map[];
    }

    function Data(): TileData
      reads this
    {
      TileData(files, phones, emails, ips, phoneRows, emailRows, ipRows)
    }

    /** Stores one file's extraction: the name is pushed, the values are added
        to the sets and the rows are appended under their values. */
    method Absorb(fileName: string, ex: Extraction)
      modifies this
      ensures name == old(name)
      ensures Data() == Merged(old(Data()), fileName, ex)
    {
      files := files + [fileName];
      phones := AddAll(phones, ex.phones);
      emails := AddAll(emails, ex.emails);
      ips := AddAll(ips, ex.ips);
      phoneRows := MergeRowsInto(phoneRows, ex.phoneRows);
      emailRows := MergeRowsInto(emailRows, ex.emailRows);
      ipRows := MergeRowsInto(ipRows, ex.ipRows);
    }
  }

  /** `values.forEach(v => set.add(v))`. */
  method AddAll(s: set<string>, values: seq<string>) returns (r: set<string>)
    ensures r == s + Elems(values)
  {
    r := s;
    for i := 0 to |values|
      invariant r == s + Elems(values[..i])
    {
      assert Elems(values[..i + 1]) == Elems(values[..i]) + {values[i]} by {
        assert values[..i + 1] == values[..i] + [values[i]];
      }
      r := r + {values[i]};
    }
    assert values[..|values|] == values;
  }

  /** The part of `add` whose keys are in `done`. */
  function Restrict(add: RowMap, done: set<string>): RowMap
  {
    map k | k in add && k in done :: add[k]
  }

  /** `add.forEach((rows, v) => { if absent set(v, []); get(v).push(...rows) })`,
      in any key order. */
  method MergeRowsInto(m: RowMap, add: RowMap) returns (r: RowMap)
    ensures r == MergeRows(m, add)
  {
    r := m;
    var done: set<string> := {};
    MergeRowsNone(m, add);
    while done != add.Keys
      invariant done <= add.Keys
      invariant r == MergeRows(m, Restrict(add, done))
      decreases |add.Keys - done|
    {
      var k :| k in add.Keys - done;
      MergeRowsStep(m, add, done, k);
      var rows := if k in r then r[k] else [];
      r := r[k := rows + add[k]];
      done := done + {k};
    }
    RestrictAll(add);
  }

  lemma MergeRowsNone(m: RowMap, add: RowMap)
    ensures MergeRows(m, Restrict(add, {})) == m
  {
    var none := Restrict(add, {});
    assert none == map[];
    assert MergeRows(m, none).Keys == m.Keys;
    assert forall k :: k in m ==> MergeRows(m, none)[k] == m[k];
  }

  lemma RestrictAll(add: RowMap)
    ensures Restrict(add, add.Keys) == add
  {
  }

  lemma MergeRowsStep(m: RowMap, add: RowMap, done: set<string>, k: string)
    requires k in add && k !in done
    ensures MergeRows(m, Restrict(add, done + {k})) ==
      MergeRows(m, Restrict(add, done))[k := RowsAt(MergeRows(m, Restrict(add, done)), k) + add[k]]
  {
    var before := Restrict(add, done);
    RestrictStep(add, done, k);
    MergeRowsAdd(m, before, k, add[k]);
    var merged := MergeRows(m, before);
    if k in m {
      assert merged[k] == RowsAt(m, k) + RowsAt(before, k);
      assert RowsAt(m, k) + [] == RowsAt(m, k);
    } else {
      assert k !in merged;
    }
  }

  lemma RestrictStep(add: RowMap, done: set<string>, k: string)
    requires k in add && k !in done
    ensures k !in Restrict(add, done)
    ensures Restrict(add, done + {k}) == Restrict(add, done)[k := add[k]]
  {
    var after := Restrict(add, done + {k});
    var grown := Restrict(add, done)[k := add[k]];
    assert after.Keys == grown.Keys;
  }

  lemma MergeRowsAdd(m: RowMap, before: RowMap, k: string, v: seq<RowRef>)
    requires k !in before
    ensures MergeRows(m, before[k := v]) == MergeRows(m, before)[k := RowsAt(m, k) + v]
  {
    var after := MergeRows(m, before[k := v]);
    var grown := MergeRows(m, before)[k := RowsAt(m, k) + v];
    assert after.Keys == grown.Keys;
    forall j | j in after
      ensures after[j] == grown[j]
    {
      if j != k {
        assert RowsAt(before[k := v], j) == RowsAt(before, j);
      }
    }
  }

  // ---------------------------------------------------------------------------
  // Processing dropped files into a tile

  /** One file: merged when it reads, skipped when reading or parsing throws. */
  function ProcessOne(d: TileData, f: FileInfo, reader: Reader, extract: (string, string) -> Extraction): TileData
  {
    match FileText(reader, f)
    case Done(text) => Merged(d, f.name, extract(text, f.name))
    case Failed(_) => d
  }

  /** The files processed one after the other. */
  function ProcessAll(d: TileData, paths: seq<FileInfo>, reader: Reader, extract: (string, string) -> Extraction): TileData
  {
    if |paths| == 0 then d
    else ProcessOne(ProcessAll(d, paths[..|paths| - 1], reader, extract), paths[|paths| - 1], reader, extract)
  }

  /** `processElectronFiles`: every file is read, dispatched on its type and
      extracted, and the result is merged into the tile; a file that fails is
      reported and skipped, and the loop goes on with the next file. */
  method ProcessElectronFiles(filePaths: seq<FileInfo>, tile: Tile, reader: Reader,
                              extract: (string, string) -> Extraction)
    modifies tile
    ensures tile.name == old(tile.name)
    ensures tile.Data() == ProcessAll(old(tile.Data()), filePaths, reader, extract)
  {
    ghost var d0 := tile.Data();
    for i := 0 to |filePaths|
      invariant tile.name == old(tile.name)
      invariant tile.Data() == ProcessAll(d0, filePaths[..i], reader, extract)
    {
      var f := filePaths[i];
      var text := ReadFileText(reader, f);
      if text.Done? {
        var extracted := extract(text.value, f.name);
        tile.Absorb(f.name, extracted);
      }
      assert filePaths[..i + 1][..i] == filePaths[..i];
    }
    assert filePaths[..|filePaths|] == filePaths;
  }

  /** The names of the files that read successfully, in order. */
  function Processed(paths: seq<FileInfo>, reader: Reader): seq<string>
  {
    if |paths| == 0 then []
    else
      var f := paths[|paths| - 1];
      Processed(paths[..|paths| - 1], reader) + (if FileText(reader, f).Done? then [f.name] else [])
  }

  /** Processing never removes anything: the tile only grows. */
  lemma {:induction false} ProcessAllGrows(d: TileData, paths: seq<FileInfo>, reader: Reader,
                                           extract: (string, string) -> Extraction)
    ensures Grows(d, ProcessAll(d, paths, reader, extract))
  {
    if |paths| > 0 {
      var f := paths[|paths| - 1];
      var before := ProcessAll(d, paths[..|paths| - 1], reader, extract);
      ProcessAllGrows(d, paths[..|paths| - 1], reader, extract);
      if FileText(reader, f).Done? {
        MergedGrows(before, f.name, extract(FileText(reader, f).value, f.name));
        GrowsTransitive(d, before, ProcessAll(d, paths, reader, extract));
      }
    }
  }

  /** The tile's file list gains the name of every file that was processed
      successfully, in order and repeats included, and nothing else. */
  lemma {:induction false} ProcessAllFiles(d: TileData, paths: seq<FileInfo>, reader: Reader,
                                           extract: (string, string) -> Extraction)
    ensures ProcessAll(d, paths, reader, extract).files == d.files + Processed(paths, reader)
  {
    if |paths| > 0 {
      ProcessAllFiles(d, paths[..|paths| - 1], reader, extract);
    }
  }

  lemma {:induction false} ProcessAllAppend(d: TileData, a: seq<FileInfo>, b: seq<FileInfo>,
                                            reader: Reader, extract: (string, string) -> Extraction)
    ensures ProcessAll(d, a + b, reader, extract) == ProcessAll(ProcessAll(d, a, reader, extract), b, reader, extract)
  {
    if |b| == 0 {
      assert a + b == a;
    } else {
      var n := |b| - 1;
      var f := b[n];
      assert b == b[..n] + [f];
      assert a + b == (a + b[..n]) + [f];
      ProcessAllUnfold(d, a + b, a + b[..n], f, reader, extract);
      ProcessAllUnfold(ProcessAll(d, a, reader, extract), b, b[..n], f, reader, extract);
      ProcessAllAppend(d, a, b[..n], reader, extract);
    }
  }

  /** Processing `init` followed by one more file. */
  lemma ProcessAllUnfold(d: TileData, paths: seq<FileInfo>, init: seq<FileInfo>, f: FileInfo,
                         reader: Reader, extract: (string, string) -> Extraction)
    requires paths == init + [f]
    ensures ProcessAll(d, paths, reader, extract) == ProcessOne(ProcessAll(d, init, reader, extract), f, reader, extract)
  {
    assert paths[..|paths| - 1] == init;
  }

  /** A file that fails to read or parse leaves the tile as it was, and the
      files after it are processed as if it had not been dropped. */
  lemma FailedFileSkipped(d: TileData, a: seq<FileInfo>, f: FileInfo, b: seq<FileInfo>,
                          reader: Reader, extract: (string, string) -> Extraction)
    requires FileText(reader, f).Failed?
    ensures ProcessAll(d, a + [f], reader, extract) == ProcessAll(d, a, reader, extract)
    ensures ProcessAll(d, a + [f] + b, reader, extract) == ProcessAll(d, a + b, reader, extract)
  {
    ProcessAllAppend(d, a + [f], b, reader, extract);
    ProcessAllAppend(d, a, b, reader, extract);
    assert (a + [f])[..|a|] == a;
  }

  // ---------------------------------------------------------------------------
  // The drop handler

  /** The dropped files that carry a path, in drop order. */
  function WithPaths(files: seq<DroppedFile>): seq<FileInfo>
  {
    if |files| == 0 then []
    else
      var f := files[|files| - 1];
      WithPaths(files[..|files| - 1])
        + (if f.path != "" then [FileInfo(f.path, f.name, f.fileType, f.size)] else [])
  }

  /** Every kept file has a path, and nothing is kept exactly when no dropped
      file has one. */
  lemma {:induction false} WithPathsSpec(files: seq<DroppedFile>)
    ensures forall k :: 0 <= k < |WithPaths(files)| ==> WithPaths(files)[k].path != ""
    ensures |WithPaths(files)| <= |files|
    ensures WithPaths(files) == [] <==> forall k :: 0 <= k < |files| ==> files[k].path == ""
  {
    WithPathsHavePaths(files);
    WithPathsLength(files);
    WithPathsEmpty(files);
  }

  lemma {:induction false} WithPathsHavePaths(files: seq<DroppedFile>)
    ensures forall k :: 0 <= k < |WithPaths(files)| ==> WithPaths(files)[k].path != ""
  {
    if |files| > 0 {
      WithPathsHavePaths(files[..|files| - 1]);
    }
  }

  lemma {:induction false} WithPathsLength(files: seq<DroppedFile>)
    ensures |WithPaths(files)| <= |files|
  {
    if |files| > 0 {
      WithPathsLength(files[..|files| - 1]);
    }
  }

  lemma {:induction false} WithPathsEmpty(files: seq<DroppedFile>)
    ensures WithPaths(files) == [] <==> forall k :: 0 <= k < |files| ==> files[k].path == ""
  {
    if |files| > 0 {
      var init := files[..|files| - 1];
      WithPathsEmpty(init);
      assert forall k :: 0 <= k < |init| ==> init[k] == files[k];
    }
  }

  /** Where a drop's files go. */
  datatype DropPlan =
    | NoValidFiles
    | Cancelled
    | IntoNewTile(tileName: string, filePaths: seq<FileInfo>)
    | IntoTile(tileId: string, filePaths: seq<FileInfo>)

  /** `handleElectronFileDrop`: keeps the files that carry a path; with none
      left nothing happens; a drop on the "create" tile asks for a name
      (`answer`, `None` when the prompt is dismissed) and an empty or missing
      name cancels; otherwise the files go to the new tile or to the tile they
      were dropped on. */
  method HandleElectronFileDrop(files: seq<DroppedFile>, source: string, answer: Option<string>)
    returns (plan: DropPlan)
    ensures var kept := WithPaths(files);
      if kept == [] then plan == NoValidFiles
      else if source == "create" then
        (if answer.None? || answer.value == "" then plan == Cancelled
         else plan == IntoNewTile(answer.value, kept))
      else plan == IntoTile(source, kept)
  {
    var filePaths: seq<FileInfo> := [];
    for i := 0 to |files|
      invariant filePaths == WithPaths(files[..i])
    {
      var file := files[i];
      if file.path != "" {
        filePaths := filePaths + [FileInfo(file.path, file.name, file.fileType, file.size)];
      }
      assert files[..i + 1][..i] == files[..i];
    }
    assert files[..|files|] == files;
    if |filePaths| == 0 {
      return NoValidFiles;
    }
    if source == "create" {
      if answer.None? || answer.value == "" {
        return Cancelled;
      }
      plan := IntoNewTile(answer.value, filePaths);
    } else {
      plan := IntoTile(source, filePaths);
    }
  }
}
