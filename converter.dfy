/** The legacy converter: a database from the older SQLite-based tool is
    turned into the tile document the current front end loads. Each row of
    the `sources` table becomes a tile "tile-1", "tile-2", ... holding that
    source's distinct phones, emails and IPs, each value's rows in fetch
    order, and the source's files. Reading the database and writing the
    document are outside this model: the tables arrive as sequences of rows. */
module Converter {
  import opened Text
  import opened Models

  // ---------------------------------------------------------------------------
  // The legacy tables

  /** A row of `sources`; `None` for a column the table does not have. */
  datatype SourceRow = SourceRow(sourceId: int, sourceName: string,
                                 createdDate: Option<string>, fileCount: Option<int>)

  /** A row of `phone_numbers`, `email_addresses` or `ip_addresses`: the value
      column and the optional ones (`None` for a missing column). `detail` is
      `imsi` for phones and `ip_type` for IPs. */
  datatype ItemRow = ItemRow(sourceId: int, value: string, id: Option<int>, fileName: Option<string>,
                             recordData: Option<string>, extractionDate: Option<string>,
                             detail: Option<string>)

  /** A row of `files`. */
  datatype FileRow = FileRow(sourceId: int, fileName: string)

  /** The legacy database: each table's rows in query order, `None` for a
      table the database does not have. */
  datatype Legacy = Legacy(
    sources: Option<seq<SourceRow>>,
    phoneNumbers: Option<seq<ItemRow>>,
    emailAddresses: Option<seq<ItemRow>>,
    ipAddresses: Option<seq<ItemRow>>,
    files: Option<seq<FileRow>>)

  /** A JSON object whose members are strings. */
  type JsonObject = map<string, string>

  /** The JSON decoder: `None` when the text does not parse to an object. */
  type JsonParser = string -> Option<JsonObject>

  function GetOr<T>(o: Option<T>, fallback: T): T
  {
    match o
    case None => fallback
    case Some(v) => v
  }

  /** `extract_provider_from_record_data`: the record's "Provider_Detected"
      member; "" for an empty record, one that does not parse to an object,
      or one without the member. */
  function ExtractProvider(recordData: string, parse: JsonParser): string
  {
    if recordData == "" then ""
    else
      match parse(recordData)
      case None => ""
      case Some(record) => if "Provider_Detected" in record then record["Provider_Detected"] else ""
  }

  lemma ExtractProviderSpec(recordData: string, parse: JsonParser)
    ensures recordData == "" || parse(recordData).None? ==> ExtractProvider(recordData, parse) == ""
    ensures ExtractProvider(recordData, parse) != "" ==>
      parse(recordData).Some? && "Provider_Detected" in parse(recordData).value
      && ExtractProvider(recordData, parse) == parse(recordData).value["Provider_Detected"]
  {
  }

  // ---------------------------------------------------------------------------
  // Row data kept for each value

  datatype ItemKind = PhoneKind | EmailKind | IpKind

  /** The legacy columns carried along with each row. */
  datatype LegacyMeta =
    | PhoneMeta(imsi: string, extractionDate: string, providerDetected: string, original: ItemRow)
    | EmailMeta(extractionDate: string, original: ItemRow)
    | IpMeta(ipType: string, extractionDate: string, original: ItemRow)

  datatype RowData = RowData(fileName: string, lineNumber: int, rowData: string,
                             extractionMethod: string, legacyMetadata: LegacyMeta)

  /** One legacy row as the document keeps it; missing columns default to
      'Unknown', 0 and ''. */
  function RowDataOf(kind: ItemKind, row: ItemRow, parse: JsonParser): RowData
  {
    var record := GetOr(row.recordData, "");
    var date := GetOr(row.extractionDate, "");
    var meta :=
      match kind
      case PhoneKind => PhoneMeta(GetOr(row.detail, ""), date, ExtractProvider(record, parse), row)
      case EmailKind => EmailMeta(date, row)
      case IpKind => IpMeta(GetOr(row.detail, ""), date, row);
    RowData(GetOr(row.fileName, "Unknown"), GetOr(row.id, 0), record, "Legacy_SQLite_Data", meta)
  }

  lemma RowDataDefaults(kind: ItemKind, row: ItemRow, parse: JsonParser)
    ensures var d := RowDataOf(kind, row, parse);
      (row.fileName.None? ==> d.fileName == "Unknown")
      && (row.id.None? ==> d.lineNumber == 0)
      && (row.recordData.None? ==> d.rowData == "")
      && (row.fileName.Some? ==> d.fileName == row.fileName.value)
      && (row.id.Some? ==> d.lineNumber == row.id.value)
      && (row.recordData.Some? ==> d.rowData == row.recordData.value)
      && d.legacyMetadata.original == row
  {
  }

  // ---------------------------------------------------------------------------
  // Grouping one source's rows by value

  type Grouped = map<string, seq<RowData>>

  /** `WHERE source_id = ?`, in fetch order. */
  function ForSource(rows: seq<ItemRow>, sourceId: int): seq<ItemRow>
  {
    if |rows| == 0 then []
    else
      var row := rows[|rows| - 1];
      ForSource(rows[..|rows| - 1], sourceId) + (if row.sourceId == sourceId then [row] else [])
  }

  function FileNames(rows: seq<FileRow>, sourceId: int): seq<string>
  {
    if |rows| == 0 then []
    else
      var row := rows[|rows| - 1];
      FileNames(rows[..|rows| - 1], sourceId) + (if row.sourceId == sourceId then [row.fileName] else [])
  }

  /** The distinct values of the rows. */
  function Values(rows: seq<ItemRow>): set<string>
  {
    set i | 0 <= i < |rows| :: rows[i].value
  }

  /** The rows of one value, kept as row data, in fetch order. */
  function RowsOf(rows: seq<ItemRow>, v: string, kind: ItemKind, parse: JsonParser): seq<RowData>
  {
    if |rows| == 0 then []
    else
      var row := rows[|rows| - 1];
      RowsOf(rows[..|rows| - 1], v, kind, parse) + (if row.value == v then [RowDataOf(kind, row, parse)] else [])
  }

  function RowsAt(g: Grouped, v: string): seq<RowData>
  {
    if v in g then g[v] else []
  }

  /** Row after row: the value's list is created when absent and extended. */
  function GroupBy(rows: seq<ItemRow>, kind: ItemKind, parse: JsonParser): Grouped
  {
    if |rows| == 0 then map[]
    else
      var g := GroupBy(rows[..|rows| - 1], kind, parse);
      var row := rows[|rows| - 1];
      g[row.value := RowsAt(g, row.value) + [RowDataOf(kind, row, parse)]]
  }

  /** The grouping has exactly the distinct values as keys, and each value's
      list is that value's rows in fetch order. */
  lemma {:induction false} GroupBySpec(rows: seq<ItemRow>, kind: ItemKind, parse: JsonParser)
    ensures GroupBy(rows, kind, parse).Keys == Values(rows)
    ensures forall v :: v in GroupBy(rows, kind, parse) ==> GroupBy(rows, kind, parse)[v] == RowsOf(rows, v, kind, parse)
    ensures forall v :: v !in Values(rows) ==> RowsOf(rows, v, kind, parse) == []
  {
    if |rows| > 0 {
      var init := rows[..|rows| - 1];
      GroupBySpec(init, kind, parse);
      ValuesSnoc(rows);
    }
  }

  lemma ValuesSnoc(rows: seq<ItemRow>)
    requires |rows| > 0
    ensures Values(rows) == Values(rows[..|rows| - 1]) + {rows[|rows| - 1].value}
  {
    var init := rows[..|rows| - 1];
    assert forall i :: 0 <= i < |init| ==> init[i] == rows[i];
  }

  /** The inner loop of each kind: the set of values and the value -> rows map. */
  method GroupRows(rows: seq<ItemRow>, kind: ItemKind, parse: JsonParser)
    returns (values: set<string>, byValue: Grouped)
    ensures values == Values(rows)
    ensures byValue == GroupBy(rows, kind, parse)
  {
    values := {};
    byValue := map[];
    for i := 0 to |rows|
      invariant values == Values(rows[..i])
      invariant byValue == GroupBy(rows[..i], kind, parse)
    {
      var row := rows[i];
      assert rows[..i + 1][..i] == rows[..i];
      ValuesSnoc(rows[..i + 1]);
      values := values + {row.value};
      var data := RowDataOf(kind, row, parse);
      var list := if row.value in byValue then byValue[row.value] else [];
      byValue := byValue[row.value := list + [data]];
    }
    assert rows[..|rows|] == rows;
  }

  // ---------------------------------------------------------------------------
  // Tiles

  datatype TileMeta = TileMeta(createdDate: string, fileCount: int, extractionMethods: seq<string>,
                               legacySourceId: int, legacyMetadata: SourceRow)

  datatype JsonTile = JsonTile(
    name: string, files: seq<string>,
    phones: set<string>, emails: set<string>, ips: set<string>,
    phoneRows: Grouped, emailRows: Grouped, ipRows: Grouped,
    metadata: TileMeta)

  /** One kind's values and rows for a source: phones are taken whenever the
      table exists, emails and IPs only when the source has rows of them. */
  function Collected(table: Option<seq<ItemRow>>, sourceId: int, kind: ItemKind,
                     parse: JsonParser): (set<string>, Grouped)
  {
    if table.None? then ({}, map[])
    else
      var rows := ForSource(table.value, sourceId);
      if kind != PhoneKind && |rows| == 0 then ({}, map[])
      else (Values(rows), GroupBy(rows, kind, parse))
  }

  /** The tile a source becomes; `now` stands for the clock. */
  function BuildTile(src: SourceRow, legacy: Legacy, now: string, parse: JsonParser): JsonTile
  {
    var id := src.sourceId;
    var p := Collected(legacy.phoneNumbers, id, PhoneKind, parse);
    var e := Collected(legacy.emailAddresses, id, EmailKind, parse);
    var i := Collected(legacy.ipAddresses, id, IpKind, parse);
    JsonTile(
      src.sourceName,
      if legacy.files.None? then [] else FileNames(legacy.files.value, id),
      p.0, e.0, i.0, p.1, e.1, i.1,
      TileMeta(GetOr(src.createdDate, now), GetOr(src.fileCount, 0),
               ["Legacy_SQLite_Conversion"], id, src))
  }

  /** A kind's values are exactly the keys of its row map, each list holds
      that value's rows of this source in fetch order, and without rows (or
      without the table) both stay empty. */
  lemma CollectedSpec(table: Option<seq<ItemRow>>, sourceId: int, kind: ItemKind, parse: JsonParser)
    ensures var c := Collected(table, sourceId, kind, parse);
      c.0 == c.1.Keys
      && (table.Some? ==>
            c.0 == Values(ForSource(table.value, sourceId))
            && forall v :: v in c.1 ==> c.1[v] == RowsOf(ForSource(table.value, sourceId), v, kind, parse))
      && (table.None? || ForSource(table.value, sourceId) == [] ==> c.0 == {} && c.1 == map[])
  {
    if table.Some? {
      var rows := ForSource(table.value, sourceId);
      GroupBySpec(rows, kind, parse);
      if rows == [] {
        assert Values(rows) == {};
      }
    }
  }

  /** The body of the sources loop: the tile is filled kind by kind. */
  method LoadTile(src: SourceRow, legacy: Legacy, now: string, parse: JsonParser) returns (tile: JsonTile)
    ensures tile == BuildTile(src, legacy, now, parse)
  {
    var id := src.sourceId;
    tile := JsonTile(src.sourceName, [], {}, {}, {}, map[], map[], map[],
                     TileMeta(GetOr(src.createdDate, now), GetOr(src.fileCount, 0),
                              ["Legacy_SQLite_Conversion"], id, src));
    if legacy.phoneNumbers.Some? {
      var rows := ForSource(legacy.phoneNumbers.value, id);
      var phoneSet, phoneRows := GroupRows(rows, PhoneKind, parse);
      tile := tile.(phones := phoneSet, phoneRows := phoneRows);
    }
    if legacy.emailAddresses.Some? {
      var rows := ForSource(legacy.emailAddresses.value, id);
      if |rows| > 0 {
        var emailSet, emailRows := GroupRows(rows, EmailKind, parse);
        tile := tile.(emails := emailSet, emailRows := emailRows);
      }
    }
    if legacy.ipAddresses.Some? {
      var rows := ForSource(legacy.ipAddresses.value, id);
      if |rows| > 0 {
        var ipSet, ipRows := GroupRows(rows, IpKind, parse);
        tile := tile.(ips := ipSet, ipRows := ipRows);
      }
    }
    if legacy.files.Some? {
      tile := tile.(files := FileNames(legacy.files.value, id));
    }
  }

  // ---------------------------------------------------------------------------
  // The document

  function TileId(k: nat): string
  {
    "tile-" + NatToString(k)
  }

  lemma TileIdInjective(j: nat, k: nat)
    requires TileId(j) == TileId(k)
    ensures j == k
  {
    assert TileId(j)[5..] == NatToString(j);
    assert TileId(k)[5..] == NatToString(k);
    NatToStringInjective(j, k);
  }

  /** The sources in order, the n-th under "tile-n". */
  function TilesOf(sources: seq<SourceRow>, legacy: Legacy, now: string, parse: JsonParser): map<string, JsonTile>
  {
    if |sources| == 0 then map[]
    else
      TilesOf(sources[..|sources| - 1], legacy, now, parse)[TileId(|sources|) := BuildTile(sources[|sources| - 1], legacy, now, parse)]
  }

  function TileIds(n: nat): set<string>
  {
    set k: nat | 1 <= k <= n :: TileId(k)
  }

  /** The tiles are keyed "tile-1" to "tile-n", one per source, the k-th
      source's tile under "tile-k". */
  lemma TilesOfSpec(sources: seq<SourceRow>, legacy: Legacy, now: string, parse: JsonParser)
    ensures TilesOf(sources, legacy, now, parse).Keys == TileIds(|sources|)
    ensures |TilesOf(sources, legacy, now, parse)| == |sources|
    ensures forall k :: 1 <= k <= |sources| ==>
      TilesOf(sources, legacy, now, parse)[TileId(k)] == BuildTile(sources[k - 1], legacy, now, parse)
  {
    TilesOfKeys(sources, legacy, now, parse);
    forall k | 1 <= k <= |sources|
      ensures TilesOf(sources, legacy, now, parse)[TileId(k)] == BuildTile(sources[k - 1], legacy, now, parse)
    {
      TilesOfAt(sources, legacy, now, parse, k);
    }
  }

  lemma {:induction false} TilesOfKeys(sources: seq<SourceRow>, legacy: Legacy, now: string, parse: JsonParser)
    ensures TilesOf(sources, legacy, now, parse).Keys == TileIds(|sources|)
    ensures |TilesOf(sources, legacy, now, parse)| == |sources|
  {
    var n := |sources|;
    if n == 0 {
      assert TileIds(0) == {};
    } else {
      var before := TilesOf(sources[..n - 1], legacy, now, parse);
      TilesOfKeys(sources[..n - 1], legacy, now, parse);
      TileIdsSnoc(n);
      assert TileId(n) !in before;
    }
  }

  /** The ids up to `n` are those up to `n - 1` and a new one. */
  lemma TileIdsSnoc(n: nat)
    requires n > 0
    ensures TileIds(n) == TileIds(n - 1) + {TileId(n)}
    ensures TileId(n) !in TileIds(n - 1)
  {
    if TileId(n) in TileIds(n - 1) {
      var k: nat :| 1 <= k <= n - 1 && TileId(k) == TileId(n);
      TileIdInjective(k, n);
    }
  }

  lemma {:induction false} TilesOfAt(sources: seq<SourceRow>, legacy: Legacy, now: string, parse: JsonParser, k: int)
    requires 1 <= k <= |sources|
    ensures TileId(k) in TilesOf(sources, legacy, now, parse)
    ensures TilesOf(sources, legacy, now, parse)[TileId(k)] == BuildTile(sources[k - 1], legacy, now, parse)
  {
    var n := |sources|;
    if k < n {
      var init := sources[..n - 1];
      TilesOfAt(init, legacy, now, parse, k);
      assert init[k - 1] == sources[k - 1];
      if TileId(k) == TileId(n) {
        TileIdInjective(k, n);
      }
    }
  }

  datatype ConversionInfo = ConversionInfo(sourceFormat: string, sourceFile: string,
                                           conversionDate: string, converterVersion: string)

  datatype Metadata = Metadata(applicationVersion: string, totalTiles: int,
                               totalPhones: int, totalEmails: int, totalIps: int)

  datatype JsonDoc = JsonDoc(version: string, format: string, timestamp: string,
                             conversion: ConversionInfo, metadata: Metadata,
                             tileCounter: int, tiles: map<string, JsonTile>)

  /** The number of distinct values of a kind in a tile. */
  function Count(tile: JsonTile, kind: ItemKind): nat
  {
    match kind
    case PhoneKind => |tile.phones|
    case EmailKind => |tile.emails|
    case IpKind => |tile.ips|
  }

  /** A kind's total: the sum of the tiles' distinct counts. */
  function Total(tiles: seq<JsonTile>, kind: ItemKind): nat
  {
    if |tiles| == 0 then 0 else Total(tiles[..|tiles| - 1], kind) + Count(tiles[|tiles| - 1], kind)
  }

  /** The sources' tiles, in source order. */
  function Built(sources: seq<SourceRow>, legacy: Legacy, now: string, parse: JsonParser): seq<JsonTile>
  {
    seq(|sources|, i requires 0 <= i < |sources| => BuildTile(sources[i], legacy, now, parse))
  }

  /** The document before any source is read. */
  function EmptyDocument(flavour: PathFlavour, sqlitePath: string, now: string): JsonDoc
  {
    JsonDoc("2.0", "CAST_JSON", now,
            ConversionInfo("SQLite", BaseName(flavour, sqlitePath), now, "1.0"),
            Metadata("CAST Database Analyzer v2.0 (Converted)", 0, 0, 0, 0),
            0, map[])
  }

  /** The converted document; without a `sources` table it stays empty. */
  function Document(flavour: PathFlavour, sqlitePath: string, legacy: Legacy, now: string, parse: JsonParser): JsonDoc
  {
    var empty := EmptyDocument(flavour, sqlitePath, now);
    if legacy.sources.None? then empty
    else
      var sources := legacy.sources.value;
      var tiles := TilesOf(sources, legacy, now, parse);
      empty.(
        tileCounter := |sources|,
        tiles := tiles,
        metadata := empty.metadata.(
          totalTiles := |tiles|,
          totalPhones := Total(Built(sources, legacy, now, parse), PhoneKind),
          totalEmails := Total(Built(sources, legacy, now, parse), EmailKind),
          totalIps := Total(Built(sources, legacy, now, parse), IpKind)))
  }

  /** The counter and the tile total both equal the number of sources, and
      the tiles are "tile-1" to "tile-n"; without a `sources` table there are
      no tiles and both stay 0. */
  lemma DocumentCounters(flavour: PathFlavour, sqlitePath: string, legacy: Legacy, now: string, parse: JsonParser)
    ensures var doc := Document(flavour, sqlitePath, legacy, now, parse);
      var n := if legacy.sources.None? then 0 else |legacy.sources.value|;
      doc.tileCounter == n && doc.metadata.totalTiles == n && doc.tiles.Keys == TileIds(n)
  {
    if legacy.sources.Some? {
      TilesOfSpec(legacy.sources.value, legacy, now, parse);
    } else {
      assert TileIds(0) == {};
    }
  }

  // ---------------------------------------------------------------------------
  // Paths

  /** The host's `os.path`: `posixpath`, or `ntpath` on Windows, where the
      tool is packaged as an executable. */
  datatype PathFlavour = Posix | Windows

  /** A path separator: '/', and on Windows '\' as well. */
  predicate IsSep(flavour: PathFlavour, c: char) { c == '/' || (flavour == Windows && c == '\\') }

  /** The drive `ntpath.splitdrive` takes off a path whose second character is ':'. */
  function DriveLength(flavour: PathFlavour, path: string): nat
  {
    if flavour == Windows && |path| >= 2 && path[1] == ':' then 2 else 0
  }

  /** The index of the last separator in `s`, or -1 when there is none. */
  function LastSep(flavour: PathFlavour, s: string): (i: int)
    ensures -1 <= i < |s|
    ensures i >= 0 ==> IsSep(flavour, s[i])
    ensures forall j :: i < j < |s| ==> !IsSep(flavour, s[j])
    decreases |s|
  {
    if |s| == 0 then -1
    else if IsSep(flavour, s[|s| - 1]) then |s| - 1
    else LastSep(flavour, s[..|s| - 1])
  }

  /** `os.path.basename`: what follows the drive and the last separator. */
  function BaseName(flavour: PathFlavour, path: string): string
  {
    var rest := path[DriveLength(flavour, path)..];
    rest[LastSep(flavour, rest) + 1..]
  }

  predicate AllDots(s: string) { forall k :: 0 <= k < |s| ==> s[k] == '.' }

  /** `os.path.splitext(name)[0]` for a name without '/': the text before the
      last '.', unless only dots precede it (a leading-dot name has no extension). */
  function Stem(name: string): string
  {
    var i := LastIndexOf(name, '.');
    if i >= 0 && !AllDots(name[..i]) then name[..i] else name
  }

  function DefaultOutputPath(flavour: PathFlavour, sqlitePath: string): string
  {
    Stem(BaseName(flavour, sqlitePath)) + "_converted.db"
  }

  /** The base name holds no separator and ends the path, and it is the
      longest such end after the drive: the whole rest of the path, or what
      follows a separator. */
  lemma BaseNameSpec(flavour: PathFlavour, path: string)
    ensures var b := BaseName(flavour, path);
      && (forall k :: 0 <= k < |b| ==> !IsSep(flavour, b[k]))
      && EndsWith(path, b)
      && (|b| == |path| - DriveLength(flavour, path) || IsSep(flavour, path[|path| - |b| - 1]))
  {
    BaseNameHasNoSep(flavour, path);
    BaseNameEndsPath(flavour, path);
  }

  lemma BaseNameHasNoSep(flavour: PathFlavour, path: string)
    ensures var b := BaseName(flavour, path); forall k :: 0 <= k < |b| ==> !IsSep(flavour, b[k])
  {
    var rest := path[DriveLength(flavour, path)..];
    var i := LastSep(flavour, rest) + 1;
    assert forall j :: 0 <= j < |rest| - i ==> rest[i..][j] == rest[i + j];
  }

  lemma BaseNameEndsPath(flavour: PathFlavour, path: string)
    ensures var b := BaseName(flavour, path);
      && EndsWith(path, b)
      && (|b| == |path| - DriveLength(flavour, path) || IsSep(flavour, path[|path| - |b| - 1]))
  {
    var d := DriveLength(flavour, path);
    var rest := path[d..];
    var i := LastSep(flavour, rest) + 1;
    assert rest[i..] == path[d + i..];
    if i > 0 {
      assert path[d + i - 1] == rest[i - 1];
    }
  }

  /** A name after a separator is the base name, whatever precedes it. */
  lemma BaseNameAfterSeparator(flavour: PathFlavour, dir: string, name: string)
    requires DriveLength(flavour, dir + name) < |dir| && IsSep(flavour, dir[|dir| - 1])
    requires forall k :: 0 <= k < |name| ==> !IsSep(flavour, name[k])
    ensures BaseName(flavour, dir + name) == name
  {
    var p := dir + name;
    var d := DriveLength(flavour, p);
    var rest := p[d..];
    var i := |dir| - 1 - d;
    assert rest[i] == dir[|dir| - 1];
    assert forall j :: i < j < |rest| ==> rest[j] == name[j - i - 1];
    assert rest[i + 1..] == name;
  }

  /** A path without drive or separator is its own base name. */
  lemma BaseNameWithoutSeparator(flavour: PathFlavour, path: string)
    requires DriveLength(flavour, path) == 0
    requires forall k :: 0 <= k < |path| ==> !IsSep(flavour, path[k])
    ensures BaseName(flavour, path) == path
  {
    assert path[0..] == path;
  }

  /** The two flavours part on Windows paths: "C:\\cdr\\x.db" has the base
      name "x.db" under `ntpath`, so the default output is "x_converted.db",
      while `posixpath` keeps the whole path as one name. */
  lemma WindowsBaseName(p: string)
    requires p == "C:\\cdr\\x.db"
    ensures BaseName(Windows, p) == "x.db"
    ensures DefaultOutputPath(Windows, p) == "x" + "_converted.db"
    ensures BaseName(Posix, p) == p
  {
    NtpathBaseName(p);
    PosixpathBaseName(p);
  }

  lemma NtpathBaseName(p: string)
    requires p == "C:\\cdr\\x.db"
    ensures BaseName(Windows, p) == "x.db"
    ensures DefaultOutputPath(Windows, p) == "x" + "_converted.db"
  {
    var dir, name := p[..7], p[7..];
    assert p == dir + name;
    assert name == "x.db";
    assert dir[6] == '\\' && p[1] == ':';
    BaseNameAfterSeparator(Windows, dir, name);
    assert forall k :: 0 <= k < |name| ==> name[k] in "x.db";
    StemOfName(name);
  }

  lemma PosixpathBaseName(p: string)
    requires p == "C:\\cdr\\x.db"
    ensures BaseName(Posix, p) == p
  {
    assert '/' !in p;
    BaseNameWithoutSeparator(Posix, p);
  }

  lemma StemOfName(name: string)
    requires name == "x.db"
    ensures Stem(name) == "x"
  {
    assert name[1] == '.' && name[2] != '.' && name[3] != '.';
    assert LastIndexOf(name, '.') == 1;
    assert name[..1] == "x" && name[..1][0] != '.';
  }

  /** The stem is a prefix of the name, and what it drops is empty or one
      extension: a '.' followed by no other '.'. */
  lemma StemSpec(name: string)
    ensures var st := Stem(name);
      |st| <= |name| && name[..|st|] == st
      && (|st| == |name| || (name[|st|] == '.' && '.' !in name[|st| + 1..]))
  {
    var i := LastIndexOf(name, '.');
    if i >= 0 && !AllDots(name[..i]) {
      assert forall j :: i + 1 <= j < |name| ==> name[i + 1..][j - i - 1] == name[j];
    }
  }

  /** The default output sits in the working directory and is named after the
      input's stem. */
  lemma DefaultOutputPathSpec(flavour: PathFlavour, sqlitePath: string)
    ensures var out := DefaultOutputPath(flavour, sqlitePath);
      && EndsWith(out, "_converted.db")
      && (forall k :: 0 <= k < |out| - 13 ==> !IsSep(flavour, out[k]))
      && StartsWith(BaseName(flavour, sqlitePath), out[..|out| - 13])
  {
    var base := BaseName(flavour, sqlitePath);
    var st := Stem(base);
    BaseNameHasNoSep(flavour, sqlitePath);
    StemKeepsNoSep(flavour, base);
    var out := st + "_converted.db";
    assert out[..|out| - 13] == st;
    assert out[|out| - 13..] == "_converted.db";
  }

  lemma StemKeepsNoSep(flavour: PathFlavour, name: string)
    requires forall k :: 0 <= k < |name| ==> !IsSep(flavour, name[k])
    ensures StartsWith(name, Stem(name))
    ensures forall k :: 0 <= k < |Stem(name)| ==> !IsSep(flavour, Stem(name)[k])
  {
    StemSpec(name);
    var st := Stem(name);
    assert forall k :: 0 <= k < |st| ==> st[k] == name[k];
  }

  // ---------------------------------------------------------------------------
  // The conversion

  datatype Conversion = NotFound(path: string) | Converted(outputPath: string, doc: JsonDoc)

  /** `convert_sqlite_to_json`: a missing input raises FileNotFoundError;
      otherwise the output defaults to the input's stem + "_converted.db", every
      source becomes the next tile, and the counters and totals are filled in
      afterwards. `fileExists` stands for the file-system check. */
  method ConvertSqliteToJson(flavour: PathFlavour, sqlitePath: string, fileExists: bool, outputJsonPath: Option<string>,
                             legacy: Legacy, now: string, parse: JsonParser)
    returns (r: Conversion)
    ensures !fileExists ==> r == NotFound(sqlitePath)
    ensures fileExists ==>
      r == Converted(GetOr(outputJsonPath, DefaultOutputPath(flavour, sqlitePath)), Document(flavour, sqlitePath, legacy, now, parse))
  {
    if !fileExists {
      return NotFound(sqlitePath);
    }
    var outputPath := if outputJsonPath.None? then DefaultOutputPath(flavour, sqlitePath) else outputJsonPath.value;
    var doc := BuildDocument(flavour, sqlitePath, legacy, now, parse);
    r := Converted(outputPath, doc);
  }

  /** The document itself: the sources loop, then the counters and totals. */
  method BuildDocument(flavour: PathFlavour, sqlitePath: string, legacy: Legacy, now: string, parse: JsonParser)
    returns (doc: JsonDoc)
    ensures doc == Document(flavour, sqlitePath, legacy, now, parse)
  {
    doc := EmptyDocument(flavour, sqlitePath, now);
    if legacy.sources.Some? {
      var sources := legacy.sources.value;
      var tiles, tileCounter := LoadTiles(sources, legacy, now, parse);
      TilesMatchBuilt(sources, legacy, now, parse);
      var totalPhones, totalEmails, totalIps := SumCounts(tiles, tileCounter - 1, Built(sources, legacy, now, parse));
      doc := doc.(
        tileCounter := tileCounter - 1,
        tiles := tiles,
        metadata := doc.metadata.(totalTiles := |tiles|, totalPhones := totalPhones,
                                  totalEmails := totalEmails, totalIps := totalIps));
    }
  }

  /** The sources loop: each source becomes the tile under the next id. */
  method LoadTiles(sources: seq<SourceRow>, legacy: Legacy, now: string, parse: JsonParser)
    returns (tiles: map<string, JsonTile>, tileCounter: nat)
    ensures tiles == TilesOf(sources, legacy, now, parse)
    ensures tileCounter == |sources| + 1
  {
    tiles := map[];
    tileCounter := 1;
    for i := 0 to |sources|
      invariant tileCounter == i + 1
      invariant tiles == TilesOf(sources[..i], legacy, now, parse)
    {
      var tile := LoadTile(sources[i], legacy, now, parse);
      assert sources[..i + 1][..i] == sources[..i];
      tiles := tiles[TileId(tileCounter) := tile];
      tileCounter := tileCounter + 1;
    }
    assert sources[..|sources|] == sources;
  }

  lemma TilesMatchBuilt(sources: seq<SourceRow>, legacy: Legacy, now: string, parse: JsonParser)
    ensures |TilesOf(sources, legacy, now, parse)| == |Built(sources, legacy, now, parse)|
    ensures forall k :: 1 <= k <= |sources| ==>
      TileId(k) in TilesOf(sources, legacy, now, parse)
      && TilesOf(sources, legacy, now, parse)[TileId(k)] == Built(sources, legacy, now, parse)[k - 1]
  {
    TilesOfKeys(sources, legacy, now, parse);
    forall k | 1 <= k <= |sources|
      ensures TileId(k) in TilesOf(sources, legacy, now, parse)
      ensures TilesOf(sources, legacy, now, parse)[TileId(k)] == Built(sources, legacy, now, parse)[k - 1]
    {
      TilesOfAt(sources, legacy, now, parse, k);
    }
  }

  /** The three sums over the tiles "tile-1" to "tile-n", in that order. */
  method SumCounts(tiles: map<string, JsonTile>, n: nat, ghost built: seq<JsonTile>)
    returns (phones: nat, emails: nat, ips: nat)
    requires |built| == n
    requires forall k :: 1 <= k <= n ==> TileId(k) in tiles && tiles[TileId(k)] == built[k - 1]
    ensures phones == Total(built, PhoneKind)
    ensures emails == Total(built, EmailKind)
    ensures ips == Total(built, IpKind)
  {
    phones, emails, ips := 0, 0, 0;
    for k := 0 to n
      invariant phones == Total(built[..k], PhoneKind)
      invariant emails == Total(built[..k], EmailKind)
      invariant ips == Total(built[..k], IpKind)
    {
      var tile := tiles[TileId(k + 1)];
      assert built[..k + 1][..k] == built[..k];
      phones := phones + |tile.phones|;
      emails := emails + |tile.emails|;
      ips := ips + |tile.ips|;
    }
    assert built[..n] == built;
  }
}
