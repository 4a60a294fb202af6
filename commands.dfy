/** The command layer of the backend (`src-tauri/src/commands.rs`): one
    optional database slot, created on first use by `process_file`, replaced
    by `clear_all` and `load_database`, and required by the queries; plus the
    per-source listing of `get_database_info` and the row layout of
    `export_csv`. */
module Commands {
  import opened Text
  import opened Models
  import opened Extractors
  import Database
  import FileProcessor

  const NotInitialized: string := "Database not initialized"

  /** The records the command returns, one per extracted value, in order. */
  function Records(values: seq<string>): (r: seq<Record>)
    ensures |r| == |values|
    ensures forall k :: 0 <= k < |r| ==> r[k].content == values[k]
  {
    seq(|values|, k requires 0 <= k < |values| => Record(values[k]))
  }

  /** The values a command result carries, or its error. */
  function Values(r: Result<ProcessResult>): Result<seq<string>>
  {
    match r
    case Err(e) => Err(e)
    case Ok(p) => Ok(seq(|p.records|, k requires 0 <= k < |p.records| => p.records[k].content))
  }

  /** The records of a result give back the values they were made from. */
  lemma RecordsValues(fileName: string, values: seq<string>)
    ensures Values(Ok(ProcessResult(fileName, Records(values)))) == Ok(values)
  {
    assert Values(Ok(ProcessResult(fileName, Records(values)))).value == values;
  }

  /** Each line of a stored file's content as one record. */
  function LineRecords(content: string): seq<Record>
  {
    Records(Lines(content))
  }

  // ---------------------------------------------------------------------------
  // get_database_info: files of source 1 on one side, all other sources on the other

  /** One side of the listing with one more file appended. */
  function AddFile(side: SourceInfo, f: FileRecord): SourceInfo
  {
    SourceInfo(side.files + [f.fileName], side.records + LineRecords(f.content))
  }

  /** The listing `get_database_info` builds from the files in the order given. */
  function Info(files: seq<FileRecord>): DatabaseInfo
  {
    if |files| == 0 then DatabaseInfo(SourceInfo([], []), SourceInfo([], []))
    else
      var prev := Info(files[..|files| - 1]);
      var f := files[|files| - 1];
      if f.sourceId == 1 then DatabaseInfo(AddFile(prev.source1, f), prev.source2)
      else DatabaseInfo(prev.source1, AddFile(prev.source2, f))
  }

  /** Every record of every file, in file order. */
  function AllRecords(files: seq<FileRecord>): seq<Record>
  {
    if |files| == 0 then [] else AllRecords(files[..|files| - 1]) + LineRecords(files[|files| - 1].content)
  }

  /** Every file is listed once: the two sides together hold as many names
      as there are files. */
  lemma {:induction false} InfoCounts(files: seq<FileRecord>)
    ensures |Info(files).source1.files| + |Info(files).source2.files| == |files|
  {
    if |files| > 0 {
      InfoCounts(files[..|files| - 1]);
    }
  }

  /** The two sides' records are exactly the lines of all files. */
  lemma {:induction false} InfoRecords(files: seq<FileRecord>)
    ensures multiset(Info(files).source1.records) + multiset(Info(files).source2.records)
         == multiset(AllRecords(files))
  {
    if |files| > 0 {
      InfoRecords(files[..|files| - 1]);
    }
  }

  /** Each file is listed on the side its source picks. */
  lemma {:induction false} InfoListsEach(files: seq<FileRecord>, k: int)
    requires 0 <= k < |files|
    ensures files[k].sourceId == 1 ==> files[k].fileName in Info(files).source1.files
    ensures files[k].sourceId != 1 ==> files[k].fileName in Info(files).source2.files
  {
    var n := |files| - 1;
    if k < n {
      InfoListsEach(files[..n], k);
    }
  }

  /** Only files of source 1 are listed in source1, and only files of other
      sources in source2. */
  lemma {:induction false} InfoSides(files: seq<FileRecord>, name: string)
    ensures name in Info(files).source1.files ==>
      exists k :: 0 <= k < |files| && files[k].sourceId == 1 && files[k].fileName == name
    ensures name in Info(files).source2.files ==>
      exists k :: 0 <= k < |files| && files[k].sourceId != 1 && files[k].fileName == name
  {
    if |files| > 0 {
      var n := |files| - 1;
      var init := files[..n];
      InfoSides(init, name);
      if name in Info(init).source1.files {
        var k :| 0 <= k < n && init[k].sourceId == 1 && init[k].fileName == name;
        assert files[k] == init[k];
      }
      if name in Info(init).source2.files {
        var k :| 0 <= k < n && init[k].sourceId != 1 && init[k].fileName == name;
        assert files[k] == init[k];
      }
    }
  }

  /** The listing of a concatenation is the concatenation of the listings, side
      by side: file order is kept within each side. */
  lemma InfoAppend(a: seq<FileRecord>, b: seq<FileRecord>)
    ensures Info(a + b).source1.files == Info(a).source1.files + Info(b).source1.files
    ensures Info(a + b).source1.records == Info(a).source1.records + Info(b).source1.records
    ensures Info(a + b).source2.files == Info(a).source2.files + Info(b).source2.files
    ensures Info(a + b).source2.records == Info(a).source2.records + Info(b).source2.records
  {
    InfoAppendSource1(a, b);
    InfoAppendSource2(a, b);
  }

  /** The source1 side of InfoAppend. */
  lemma {:induction false} InfoAppendSource1(a: seq<FileRecord>, b: seq<FileRecord>)
    ensures Info(a + b).source1 == SourceInfo(Info(a).source1.files + Info(b).source1.files,
                                              Info(a).source1.records + Info(b).source1.records)
    decreases |b|
  {
    if |b| == 0 {
      assert a + b == a;
    } else {
      var n := |b| - 1;
      var f := b[n];
      assert b == b[..n] + [f];
      assert a + b == (a + b[..n]) + [f];
      InfoUnfold(a + b, a + b[..n], f);
      InfoUnfold(b, b[..n], f);
      InfoAppendSource1(a, b[..n]);
    }
  }

  /** The source2 side of InfoAppend. */
  lemma {:induction false} InfoAppendSource2(a: seq<FileRecord>, b: seq<FileRecord>)
    ensures Info(a + b).source2 == SourceInfo(Info(a).source2.files + Info(b).source2.files,
                                              Info(a).source2.records + Info(b).source2.records)
    decreases |b|
  {
    if |b| == 0 {
      assert a + b == a;
    } else {
      var n := |b| - 1;
      var f := b[n];
      assert b == b[..n] + [f];
      assert a + b == (a + b[..n]) + [f];
      InfoUnfold(a + b, a + b[..n], f);
      InfoUnfold(b, b[..n], f);
      InfoAppendSource2(a, b[..n]);
    }
  }

  /** The listing of `init` followed by one more file. */
  lemma InfoUnfold(files: seq<FileRecord>, init: seq<FileRecord>, f: FileRecord)
    requires files == init + [f]
    ensures Info(files) ==
      if f.sourceId == 1 then DatabaseInfo(AddFile(Info(init).source1, f), Info(init).source2)
      else DatabaseInfo(Info(init).source1, AddFile(Info(init).source2, f))
  {
    assert files[..|files| - 1] == init;
  }

  // ---------------------------------------------------------------------------
  // export_csv

  const ByTypeHeader: seq<string> := ["Value", "Source", "Count"]
  const CrossRefHeader: seq<string> := ["Value", "Status", "Total Count"]
  const BothSources: string := "Found in both sources"

  predicate IsByTypeKind(dataType: string) { dataType == "phones" || dataType == "emails" || dataType == "ips" }

  function SourceRow(item: ExtractedItem): seq<string>
  {
    [item.value, "Source " + IntToString(item.source), IntToString(item.count)]
  }

  function CrossRefRow(item: ExtractedItem): seq<string>
  {
    [item.value, BothSources, IntToString(item.count)]
  }

  /** The rows `export_csv` writes for a data type, header first. */
  function CsvRows(dataType: string, data: seq<ExtractedItem>): seq<seq<string>>
  {
    if IsByTypeKind(dataType) then [ByTypeHeader] + seq(|data|, k requires 0 <= k < |data| => SourceRow(data[k]))
    else if dataType == "cross-ref" then [CrossRefHeader] + seq(|data|, k requires 0 <= k < |data| => CrossRefRow(data[k]))
    else []
  }

  /** Any other data type writes no rows at all. */
  lemma CsvRowsOther(dataType: string, data: seq<ExtractedItem>)
    ensures CsvRows(dataType, data) == [] <==> !IsByTypeKind(dataType) && dataType != "cross-ref"
  {
  }

  /** "phones", "emails" and "ips": the header, then per item its value, its
      source and its count, the count cell reading back as the count. */
  lemma CsvRowsByType(dataType: string, data: seq<ExtractedItem>, k: int)
    requires IsByTypeKind(dataType) && 0 <= k < |data| && data[k].count >= 0
    ensures var rows := CsvRows(dataType, data);
      && |rows| == |data| + 1 && rows[0] == ["Value", "Source", "Count"]
      && |rows[k + 1]| == 3 && rows[k + 1][0] == data[k].value
      && rows[k + 1][1] == "Source " + IntToString(data[k].source)
      && AllDigits(rows[k + 1][2]) && ParseNat(rows[k + 1][2]) == data[k].count
  {
    ParseNatToString(data[k].count);
  }

  /** "cross-ref": the header, then per item its value, the fixed status and
      its total count, the count cell reading back as the count. */
  lemma CsvRowsCrossRef(data: seq<ExtractedItem>, k: int)
    requires 0 <= k < |data| && data[k].count >= 0
    ensures var rows := CsvRows("cross-ref", data);
      && |rows| == |data| + 1 && rows[0] == ["Value", "Status", "Total Count"]
      && |rows[k + 1]| == 3 && rows[k + 1][0] == data[k].value
      && rows[k + 1][1] == "Found in both sources"
      && AllDigits(rows[k + 1][2]) && ParseNat(rows[k + 1][2]) == data[k].count
  {
    ParseNatToString(data[k].count);
  }

  /** The source cell names the source by its number. */
  lemma SourceCellReadsBack(item: ExtractedItem)
    requires item.source >= 0
    ensures var cell := SourceRow(item)[1];
      StartsWith(cell, "Source ") && AllDigits(cell[7..]) && ParseNat(cell[7..]) == item.source
  {
    var cell := SourceRow(item)[1];
    assert cell[7..] == NatToString(item.source);
    ParseNatToString(item.source);
  }

  // ---------------------------------------------------------------------------
  // The application state

  class AppState {
    /** The database slot; empty until the first processed file. */
    var db: Database.Database?

    ghost predicate Valid()
      reads this, db
    {
      db != null ==> db.Valid()
    }

    constructor ()
      ensures db == null
    {
      db := null;
    }

    /** `process_file`: create an empty in-memory database if the slot is empty,
        then run the processor on it and return the file name with one record
        per extracted value, in the processor's order. */
    method ProcessFile(fileName: string, content: FileProcessor.FileContent, sourceId: int,
                       now: string, scan: string -> Scan)
      returns (r: Result<ProcessResult>, ghost chunks: seq<FileProcessor.ChunkValues>)
      requires Valid()
      requires Scanner(scan)
      modifies this, db
      ensures Valid() && db != null
      ensures old(db) != null ==> db == old(db)
      ensures old(db) == null ==> fresh(db)
      ensures r.Ok? ==> r.value.fileName == fileName
      ensures FileProcessor.ProcessOutcome(fileName, content, sourceId, now, scan,
                old(if db == null then [] else db.files), old(if db == null then [] else db.items),
                old(if db == null then 1 else db.nextFileId), old(if db == null then 1 else db.nextItemId),
                db.files, db.items, Values(r), chunks)
    {
      if db == null {
        db := new Database.Database.NewMemory();
      }
      var items;
      items, chunks := FileProcessor.ProcessFile(fileName, content, sourceId, db, now, scan);
      if items.Err? {
        r := Err(items.error);
      } else {
        r := Ok(ProcessResult(fileName, Records(items.value)));
        RecordsValues(fileName, items.value);
      }
    }

    /** `get_analysis`: the per-type listings for phones, emails and IPs. */
    method GetAnalysis() returns (r: Result<AnalysisResult>)
      requires Valid()
      ensures db == null ==> r == Err(General(NotInitialized))
      ensures db != null ==>
        && r.Ok?
        && Database.ByTypeResult(db.items, "phone", r.value.phones)
        && Database.ByTypeResult(db.items, "email", r.value.emails)
        && Database.ByTypeResult(db.items, "ip", r.value.ips)
    {
      if db == null {
        return Err(General(NotInitialized));
      }
      var phones := db.GetExtractedItemsByType("phone");
      var emails := db.GetExtractedItemsByType("email");
      var ips := db.GetExtractedItemsByType("ip");
      r := Ok(AnalysisResult(phones, emails, ips));
    }

    /** `analyze_cross_reference`: the values seen in more than one source. */
    method AnalyzeCrossReference() returns (r: Result<seq<ExtractedItem>>)
      requires Valid()
      ensures db == null ==> r == Err(General(NotInitialized))
      ensures db != null ==> r.Ok? && Database.CrossReferenceResult(db.items, r.value)
    {
      if db == null {
        return Err(General(NotInitialized));
      }
      var items := db.GetCrossReferenceItems();
      r := Ok(items);
    }

    /** `load_database`: the opened database replaces the slot; an open error
        leaves the slot as it was. */
    method LoadDatabase(loaded: Result<Database.Database>) returns (r: Result<()>)
      requires Valid()
      requires loaded.Ok? ==> loaded.value.Valid()
      modifies this
      ensures Valid()
      ensures loaded.Ok? ==> r == Ok(()) && db == loaded.value
      ensures loaded.Err? ==> r == Err(loaded.error) && db == old(db)
    {
      if loaded.Err? {
        return Err(loaded.error);
      }
      db := loaded.value;
      r := Ok(());
    }

    /** `save_database`: needs a database in the slot; the backup's own outcome
        is given. */
    method SaveDatabase(saved: Result<()>) returns (r: Result<()>)
      requires Valid()
      ensures db == null ==> r == Err(General(NotInitialized))
      ensures db != null ==> r == saved
    {
      if db == null {
        return Err(General(NotInitialized));
      }
      r := saved;
    }

    /** `clear_all`: a fresh empty in-memory database replaces whatever the
        slot held. */
    method ClearAll() returns (r: Result<()>)
      modifies this
      ensures Valid() && r == Ok(())
      ensures db != null && fresh(db) && db.files == [] && db.items == []
    {
      db := new Database.Database.NewMemory();
      r := Ok(());
    }

    /** `get_database_info`: walk the files in id order, listing each under
        source1 when its source is 1 and under source2 otherwise. */
    method GetDatabaseInfo() returns (r: Result<DatabaseInfo>)
      requires Valid()
      ensures db == null ==> r == Err(General(NotInitialized))
      ensures db != null ==> r == Ok(Info(db.GetAllFiles()))
    {
      if db == null {
        return Err(General(NotInitialized));
      }
      var allFiles := db.GetAllFiles();
      var source1 := SourceInfo([], []);
      var source2 := SourceInfo([], []);
      for k := 0 to |allFiles|
        invariant DatabaseInfo(source1, source2) == Info(allFiles[..k])
      {
        var file := allFiles[k];
        var records := LineRecords(file.content);
        assert allFiles[..k + 1][..k] == allFiles[..k];
        if file.sourceId == 1 {
          source1 := SourceInfo(source1.files + [file.fileName], source1.records + records);
        } else {
          source2 := SourceInfo(source2.files + [file.fileName], source2.records + records);
        }
      }
      assert allFiles[..|allFiles|] == allFiles;
      r := Ok(DatabaseInfo(source1, source2));
    }

    /** `export_csv`: the rows written for the data type, header first. Creating
        and writing the file are left out. */
    method ExportCsv(dataType: string, data: seq<ExtractedItem>) returns (rows: seq<seq<string>>)
      ensures rows == CsvRows(dataType, data)
    {
      rows := [];
      if IsByTypeKind(dataType) {
        rows := [ByTypeHeader];
        for k := 0 to |data|
          invariant rows == [ByTypeHeader] + seq(k, i requires 0 <= i < k => SourceRow(data[i]))
        {
          rows := rows + [SourceRow(data[k])];
        }
      } else if dataType == "cross-ref" {
        rows := [CrossRefHeader];
        for k := 0 to |data|
          invariant rows == [CrossRefHeader] + seq(k, i requires 0 <= i < k => CrossRefRow(data[i]))
        {
          rows := rows + [CrossRefRow(data[k])];
        }
      }
    }
  }
}
