# CAST Database Analyzer — extraction and cross-reference engine in Dafny

This project models the engine of the CAST Database Analyzer. The engine
scans uploaded files for phone numbers, email addresses and IP addresses,
stores what it finds, and reports which values occur in more than one source.
Three parts of the repository do this work:

- **The Tauri backend** (`src-tauri/src`):
  - `extractors.rs` holds the regex scanners and phone normalisation.
  - `file_processor.rs` picks a reader by file extension and turns the file
    into rows. It stores the rows, then feeds them to the extractors 100 rows
    at a time.
  - `database.rs` holds the two SQLite tables and the two aggregation queries.
  - `commands.rs` holds the command layer around one optional database slot.
- **The Electron renderer helper** (`electron-dragdrop-fix.js`). It filters
  dropped files, dispatches them on their type, and flattens spreadsheets to
  text. It then merges each file's extraction into a source tile.
- **The legacy converter** (`sqlite_to_json_converter.py`). It regroups an
  older SQLite database into the tile document of the current tool.

## Modules

| file | module | models |
|---|---|---|
| `models.dfy` | `Models` | The records of `models.rs` and the error variants of `error.rs`. |
| `text.dfy` | `Text` | The string library behaviour the sources rely on: `split`, `str::lines`, `trim` (Rust and JavaScript whitespace), ASCII lowercasing, integer formatting and lexicographic order. |
| `extractors.dfy` | `Extractors` | Each regex as a predicate over the matches the engine may report. |
| `file_processor.dfy` | `FileProcessor` | The extension dispatch; the CSV, Excel, text and HTML readers; 100-row chunking; the `process_file` insert loop. |
| `database.dfy` | `Database` | `class Database` over two row sequences with AUTOINCREMENT counters; both queries as pure aggregations. |
| `commands.dfy` | `Commands` | `class AppState` with the optional database slot; the `get_database_info` partition; the `export_csv` row layout. |
| `dragdrop.dfy` | `DragDrop` | The drop filter, the type dispatch, spreadsheet flattening, and `class Tile` with its append-only merge. |
| `converter.dfy` | `Converter` | Grouping legacy rows into tiles, tile ids, the counter, metadata totals and the output path. |

The methods follow the source's loops. Each method is proved equal to a
specification function, and the lemmas state that function's properties.
For example, `ProcessExcelData` ≡ `ExcelText`, `MergeRowsInto` ≡ `MergeRows`,
`GroupRows` ≡ `GroupBy`, and `ExtractAll` ≡ `AllItems`.

Inputs from outside the model are passed in as parameters:

- the matches the regex engine reports (`Scan`, constrained by `Scanner`);
- what the decoders and library parsers produce (`FileContent`, `Reader`);
- the JSON decoder (`JsonParser`);
- the clock (`now`);
- the host's `os.path` flavour, `posixpath` or `ntpath` (`PathFlavour`);
- the file-system checks (`fileExists`, `loaded`, `saved`);
- the renderer's `extractData` (`extract`) and the prompt's answer (`answer`).

## Model

| member | source | states |
|---|---|---|
| Extractors.Digits | src-tauri/src/extractors.rs:69 | The digits kept are all decimal digits and no more than the input's characters. |
| Extractors.DigitsOfDigits | src-tauri/src/extractors.rs:69 | Filtering a string that is all digits returns it unchanged. |
| Extractors.NormalizePhoneSpec | src-tauri/src/extractors.rs:68-76 | The output is all digits. It drops the first digit exactly when the digit string has 11 characters and starts with '1'; otherwise it is the digit string. |
| Extractors.NormalizePhoneIdempotent | src-tauri/src/extractors.rs:68-76 | Normalising twice gives the same result as normalising once. |
| Extractors.CandidateOfShaped | src-tauri/src/extractors.rs:14-39 | A capture whose three groups are 3, 3 and 4 digits yields their concatenation. It is 10 digits long, passes the length test, and normalises to itself. |
| Extractors.PhonesOfShaped | src-tauri/src/extractors.rs:29-41 | The phones from one regex's captures are exactly the captures' candidates (both directions). |
| Extractors.PhonesOfThree | src-tauri/src/extractors.rs:28-44 | The result over the three regexes is the union of each regex's phones. |
| Extractors.CapturedInOne | src-tauri/src/extractors.rs:29-41 | A value is among one regex's phones iff one of that regex's captures yields it. |
| Extractors.PhonesAreTenDigitCaptures | src-tauri/src/extractors.rs:25-45 | A value is returned iff some capture of some regex yields it. Every returned phone is exactly 10 digits. |
| Extractors.ExtractPhones | src-tauri/src/extractors.rs:25-45 | For valid matches, the loop returns the phones of all three regexes. Each one is a capture's candidate and is 10 digits. |
| Extractors.CollectPhones | src-tauri/src/extractors.rs:28-42 | The nested loops over regexes and captures build the union of the kept, normalised candidates. |
| Extractors.JoinGroups | src-tauri/src/extractors.rs:30-36 | Pushing the groups one after another builds their in-order concatenation. |
| Extractors.PhoneAfterNonAscii | src-tauri/src/extractors.rs:15 | "(555)123-4567" right after 'é' is a match of the first phone regex: `\b` holds between the word character 'é' and '('. |
| Extractors.EmailTldAdmitsBar | src-tauri/src/extractors.rs:19 | As written, the TLD class lets the engine report "john@example.com\|" in "john@example.com\|2023". The letters-only shape rejects that match, and its lowercase text is no '\|'-free address. |
| Extractors.DomainPart | src-tauri/src/extractors.rs:19 | A domain run, a dot and a TLD of two or more letters form a domain part. |
| Extractors.EmailAddressParts | src-tauri/src/extractors.rs:19 | local '@' domain '.' tld, each drawn from its class as written (the TLD class holding '\|'), is an email address of the written shape. Its '@' is the only one and its last dot is the TLD's dot. |
| Extractors.AddressTldIsLetters | src-tauri/src/extractors.rs:19 | An address of the written shape without '\|' has a top-level domain of letters only. |
| Extractors.LoweredMatchIsAddressAsWritten | src-tauri/src/extractors.rs:19-50 | Lowercasing a match of the regex as written gives a lowercase address of the written shape. |
| Extractors.LoweredMatchIsAddress | src-tauri/src/extractors.rs:19-50 | With the letters-only TLD class, lowercasing a match gives a lowercase email address without '\|'. |
| Extractors.ExtractEmails | src-tauri/src/extractors.rs:47-52 | The result is the set of lowercased match texts (both directions). Each one is a lowercase address of the regex's written shape. |
| Extractors.LoweredMatchesAreAddresses | src-tauri/src/extractors.rs:47-52 | The lowercased text of every reported match is a lowercase address of the regex's written shape. |
| Extractors.ParseNatThree | src-tauri/src/extractors.rs:20 | A three-digit string is worth 100·d0 + 10·d1 + d2. |
| Extractors.OctetRegexIsByteValue | src-tauri/src/extractors.rs:20 | The octet alternation accepts exactly the 1-3 digit strings whose value is at most 255; leading zeros are allowed. |
| Extractors.Ipv4MatchIsAddress | src-tauri/src/extractors.rs:20 | An IPv4 match is four dot-separated octets, each worth at most 255. |
| Extractors.Ipv4TextShape | src-tauri/src/extractors.rs:20 | The text of four octets has 1-3 digits per octet, dots right after the first three octets and digits everywhere else. |
| Extractors.Ipv4MatchInText | src-tauri/src/extractors.rs:20 | In text positions, a match has its three dots, digits everywhere else, its first and last octet, and no word character on either side. |
| Extractors.Ipv4MatchStandsAlone | src-tauri/src/extractors.rs:20 | `\b` on both ends keeps a word character from touching an IPv4 match on either side. |
| Extractors.Ipv4RejectsOutOfRange | src-tauri/src/extractors.rs:20 | No match of any shape or position exists in "10.0.0.256" or in "999.168.1.1". |
| Extractors.Ipv6MatchIsAddress | src-tauri/src/extractors.rs:21 | An IPv6 match is eight ':'-separated groups of 1-4 hex digits, with no `::`. |
| Extractors.IpTextsAreAddresses | src-tauri/src/extractors.rs:54-66 | Every verbatim IPv4 result is an IPv4 address, and every IPv6 result is an IPv6 address. |
| Extractors.ExtractIps | src-tauri/src/extractors.rs:54-66 | The result is the set of IPv4 match texts plus IPv6 match texts. Each is an IPv4 or IPv6 address. |
| Extractors.CollectIps | src-tauri/src/extractors.rs:55-65 | The two loops insert every IPv4, then every IPv6 match text into one set. |
| Extractors.Ipv4TextsSnoc | src-tauri/src/extractors.rs:57-59 | One more IPv4 match adds exactly its text to the set. |
| Extractors.Ipv6TextsSnoc | src-tauri/src/extractors.rs:61-63 | One more IPv6 match adds exactly its text to the set. |
| FileProcessor.Extension | src-tauri/src/file_processor.rs:29-33 | The extension contains no '.'. |
| FileProcessor.ExtensionIsAfterLastDot | src-tauri/src/file_processor.rs:29-33 | The extension is the lowercased text after the last '.'. A name without '.' gives the whole name lowercased. |
| FileProcessor.ReaderFor | src-tauri/src/file_processor.rs:35-41 | csv picks the CSV reader, xlsx/xls the Excel reader, html the HTML reader; anything else (txt included) the text reader. Each is an iff. |
| FileProcessor.JoinEach | src-tauri/src/file_processor.rs:80-101 | Each row becomes its fields joined by the separator, one output row per input row. |
| FileProcessor.ParsedRecords | src-tauri/src/file_processor.rs:78-83 | Failed records are skipped. A record is kept iff the reader yielded it, and there are no more rows than records. |
| FileProcessor.ParsedRecordsAppend | src-tauri/src/file_processor.rs:78-83 | Skipping failed records distributes over concatenation: record order is kept. |
| FileProcessor.ProcessCsv | src-tauri/src/file_processor.rs:69-86 | One row per successfully parsed record, in order, with its fields joined by a space. |
| FileProcessor.SheetRowsAppend | src-tauri/src/file_processor.rs:95-105 | Sheets contribute their rows in order. An unreadable sheet contributes none. |
| FileProcessor.JoinEachAppend | src-tauri/src/file_processor.rs:97-103 | Joining rows distributes over concatenation. |
| FileProcessor.ProcessExcel | src-tauri/src/file_processor.rs:88-108 | An unopenable workbook fails with `Excel`. Otherwise there is one row per sheet row of each readable sheet, blank rows included, with cells joined by a space. |
| FileProcessor.KeepNonBlank | src-tauri/src/file_processor.rs:117 | A line is kept iff it is not blank after trimming. It is kept untrimmed. |
| FileProcessor.KeepNonBlankAppend | src-tauri/src/file_processor.rs:114-118 | The filter distributes over concatenation: line order is kept. |
| FileProcessor.KeepNonBlankOfNonBlank | src-tauri/src/file_processor.rs:117 | Lines that are all non-blank pass the filter unchanged. |
| FileProcessor.ProcessText | src-tauri/src/file_processor.rs:110-121 | A row appears iff it is a decoded line that is not blank. |
| FileProcessor.TextRowsRoundTrip | src-tauri/src/file_processor.rs:110-121 | Non-blank lines joined by "\n" are read back exactly, in order. |
| FileProcessor.ReplaceAll | src-tauri/src/file_processor.rs:126-130 | Text that cannot contain the pattern is left unchanged. |
| FileProcessor.ReplaceAllPrefix | src-tauri/src/file_processor.rs:126-130 | A prefix without the pattern's first character is kept. Replacement continues after it. |
| FileProcessor.ReplaceAllMiss | src-tauri/src/file_processor.rs:126-130 | A separator that differs from the pattern at some position is kept. |
| FileProcessor.ReplaceAllJoin | src-tauri/src/file_processor.rs:126-130 | Replacing the separator of a join re-joins the same parts by the replacement. A non-matching separator is kept. |
| FileProcessor.TagShape | src-tauri/src/file_processor.rs:126-130 | Each of the five break tags starts with '<' and has no other '<'. |
| FileProcessor.TagsMismatch | src-tauri/src/file_processor.rs:126-130 | Two different break tags differ at a position both have. |
| FileProcessor.BreakStepPending | src-tauri/src/file_processor.rs:126-130 | One replace pass turns rows joined by its own tag into rows joined by "\n", and leaves rows joined by another tag unchanged. |
| FileProcessor.BreakStepDone | src-tauri/src/file_processor.rs:126-130 | A replace pass leaves rows already joined by "\n" unchanged. |
| FileProcessor.ReplaceBreaksJoin | src-tauri/src/file_processor.rs:126-130 | Rows joined by any one of `<br>`, `<br/>`, `<br />`, `</p>`, `</div>` come out of the five passes joined by "\n". |
| FileProcessor.StripTags | src-tauri/src/file_processor.rs:132-134 | Text without '<' is unchanged, and a first character other than '<' is kept. |
| FileProcessor.StripTagsAvoids | src-tauri/src/file_processor.rs:132-134 | Tag stripping introduces no character except the space. |
| FileProcessor.NoTagCons | src-tauri/src/file_processor.rs:132 | A tag-free tail after a character that starts no tag is tag-free. |
| FileProcessor.StripTagsLeavesNoTag | src-tauri/src/file_processor.rs:132-134 | After replacing `<[^>]+>` by spaces, no position starts a tag. |
| FileProcessor.LetterRun | src-tauri/src/file_processor.rs:136 | Measures the maximal run of ASCII letters at the start. |
| FileProcessor.StripEntities | src-tauri/src/file_processor.rs:136-138 | Text without '&' is unchanged. The first character is kept, or becomes a space when an entity starts there. |
| FileProcessor.StripEntitiesPrefix | src-tauri/src/file_processor.rs:136-138 | A leading run of letters is kept by entity stripping. |
| FileProcessor.LetterRunOfLetters | src-tauri/src/file_processor.rs:136 | Letters followed by a non-letter give a run of exactly their length. |
| FileProcessor.NoEntityCons | src-tauri/src/file_processor.rs:136 | An entity-free tail after a character that starts no entity is entity-free. |
| FileProcessor.KeptAmpersand | src-tauri/src/file_processor.rs:136-138 | An '&' that starts no entity still starts none after the rest is stripped. |
| FileProcessor.StripAfterLetters | src-tauri/src/file_processor.rs:136-138 | Stripping keeps the leading letter run. What follows it starts with its own first character or a space, never a letter. |
| FileProcessor.StripEntitiesLeavesNoEntity | src-tauri/src/file_processor.rs:136-138 | After replacing `&[a-zA-Z]+;` by spaces, no position starts an entity. |
| FileProcessor.TrimmedLines | src-tauri/src/file_processor.rs:140-145 | Every row kept is non-empty and trimmed. |
| FileProcessor.TrimmedLinesOfTrimmed | src-tauri/src/file_processor.rs:140-145 | Lines already trimmed and non-empty pass unchanged. |
| FileProcessor.HtmlRows | src-tauri/src/file_processor.rs:132-145 | After tags and entities are stripped, every row is non-empty and trimmed. |
| FileProcessor.ProcessHtml | src-tauri/src/file_processor.rs:123-148 | Every returned row is non-empty and trimmed. |
| FileProcessor.HtmlMarkupIsStripped | src-tauri/src/file_processor.rs:126-138 | After the tag pass no tag is left, and after the entity pass no entity is left. |
| FileProcessor.HtmlBreaksRoundTrip | src-tauri/src/file_processor.rs:123-148 | Plain rows separated by any one break tag come back as exactly those rows, in order. |
| FileProcessor.ProcessHtmlThen | src-tauri/src/file_processor.rs:123-148 | The HTML reader is the break passes followed by the strip and line passes. |
| FileProcessor.HtmlRowsOfLines | src-tauri/src/file_processor.rs:132-145 | Plain rows joined by "\n" pass the strip and line passes unchanged. |
| FileProcessor.PlainRowsFacts | src-tauri/src/file_processor.rs:140-145 | Plain rows are lines with no '<' and no '&', non-empty and trimmed, and so is their join. |
| FileProcessor.PlainTextUnstripped | src-tauri/src/file_processor.rs:132-138 | Text with neither '<' nor '&' passes both strip passes unchanged. |
| FileProcessor.Chunks | src-tauri/src/file_processor.rs:47 | The chunks concatenate back to the rows. Each holds 1 to `size` rows, and all but the last hold exactly `size`. |
| FileProcessor.EnumeratesEach | src-tauri/src/file_processor.rs:50-63 | Iterating a set lists each member exactly once and nothing else. |
| FileProcessor.InsertAll | src-tauri/src/file_processor.rs:50-63 | One item row per set member, with consecutive fresh ids, the given type, source and file. Nothing else changes. |
| FileProcessor.ScanChunk | src-tauri/src/file_processor.rs:48-63 | A chunk's phones, emails and IPs are what the three extractors return for its text. |
| FileProcessor.StoreChunk | src-tauri/src/file_processor.rs:50-63 | Stores phones, then emails, then IPs, each set enumerated once. The returned values and the appended item rows correspond one to one. |
| FileProcessor.ExtractChunk | src-tauri/src/file_processor.rs:47-64 | Extracting chunk k extends the progress invariant from chunks 0..k-1 to 0..k. |
| FileProcessor.ExtractAll | src-tauri/src/file_processor.rs:45-66 | Each chunk of 100 rows joined by a space is scanned. The returned list is, chunk by chunk, its phones, emails and IPs. Each value has exactly one item row under the source and file id. |
| FileProcessor.ChunkStep | src-tauri/src/file_processor.rs:47-64 | Storing one more chunk appends its values and its item rows. |
| FileProcessor.AllOfSnoc | src-tauri/src/file_processor.rs:47-64 | The values and item rows of chunks+[c] are those of chunks followed by c's. |
| FileProcessor.ReadFile | src-tauri/src/file_processor.rs:29-41 | The rows are what the reader picked by the extension makes of the file. |
| FileProcessor.ProcessFile | src-tauri/src/file_processor.rs:22-67 | A reader error changes nothing. Otherwise exactly one file row holds the rows joined by "\n", and the chunked extraction's values are returned and stored under that file's id. |
| Database.BeforeIrreflexive | src-tauri/src/database.rs:168 | No entry sorts before itself. |
| Database.BeforeTotal | src-tauri/src/database.rs:168 | Entries with different keys are ordered one way or the other. |
| Database.BeforeTransitive | src-tauri/src/database.rs:168 | The order is transitive. |
| Database.Insert | src-tauri/src/database.rs:168 | Insertion keeps the sequence sorted and adds exactly one element (as a multiset). |
| Database.SortItems | src-tauri/src/database.rs:168 | The result is sorted and a permutation of the input. |
| Database.SortedByCountThenValue | src-tauri/src/database.rs:168 | A sorted sequence has counts descending, and equal counts have values ascending. |
| Database.Label | src-tauri/src/database.rs:180-185 | "email" gives Email and "ip" gives Ip; any other type string gives Phone. Each is an iff. |
| Database.CountGroupPositive | src-tauri/src/database.rs:164-167 | Every row's own group has a positive count. |
| Database.GroupKeys | src-tauri/src/database.rs:167 | The keys are exactly the (value, source_id) pairs present among rows of the type, each once. |
| Database.GroupEntries | src-tauri/src/database.rs:175-187 | Each entry carries its key, its group's COUNT(*) and the type's label. |
| Database.ItemsByTypeIsGrouping | src-tauri/src/database.rs:161-190 | One entry per distinct (value, source_id) of the type (both directions), with count = number of such rows, ordered count DESC, value ASC. |
| Database.Passing | src-tauri/src/database.rs:197-200 | The EXISTS filter keeps only rows of the table. |
| Database.Values | src-tauri/src/database.rs:201 | The distinct values of the table, each once. |
| Database.Having | src-tauri/src/database.rs:195-216 | Exactly the values with more than one source are listed, each as (value, 0, total count, Phone), with distinct keys. |
| Database.SpansWitness | src-tauri/src/database.rs:197-200 | Two rows of a value with different sources make it span two sources. |
| Database.SpanningRowPasses | src-tauri/src/database.rs:197-200 | Every row of a value spanning two sources passes EXISTS. |
| Database.PassingRowSpans | src-tauri/src/database.rs:197-200 | A passing row's value spans two sources. |
| Database.PassingKeepsSpanning | src-tauri/src/database.rs:195-201 | A spanning value keeps all its rows through the filter, so its COUNT(*) is its total count. |
| Database.PassingDropsOthers | src-tauri/src/database.rs:197-201 | A value that does not span two sources loses all its rows. |
| Database.PassingHolds | src-tauri/src/database.rs:197-200 | A row passing EXISTS is in the filtered table. |
| Database.CrossReferenceEntries | src-tauri/src/database.rs:195-216 | Each listed value spans two sources and carries source 0, type Phone and the count of all its rows, of every type. |
| Database.CrossReferenceComplete | src-tauri/src/database.rs:197-202 | Every value spanning two sources is listed. |
| Database.CrossReferenceOrder | src-tauri/src/database.rs:203 | Listed values are distinct, ordered by total count DESC, then value ASC. |
| Database.CrossReferenceIsSpanning | src-tauri/src/database.rs:192-219 | A value is listed iff its rows span two sources; type is not filtered; count, source, label and order as above. |
| Database.Database.InsertFile | src-tauri/src/database.rs:134-145 | Appends one file row. Its returned id exceeds every earlier id. The items table is unchanged. |
| Database.Database.InsertExtractedItem | src-tauri/src/database.rs:147-159 | Appends exactly one item row with a fresh id. Nothing else changes. |
| Database.Database.ClearAll | src-tauri/src/database.rs:241-251 | Both tables are empty afterwards. AUTOINCREMENT counters are kept. |
| Database.Database.GetAllFiles | src-tauri/src/database.rs:221-239 | Every file row, with its fields, in strictly increasing id order. |
| Database.Database.GetExtractedItemsByType | src-tauri/src/database.rs:161-190 | The per-type grouping result described for ItemsByTypeIsGrouping. |
| Database.Database.GetCrossReferenceItems | src-tauri/src/database.rs:192-219 | The cross-reference result described for CrossReferenceIsSpanning. |
| Commands.Records | src-tauri/src/commands.rs:33 | One record per value, in order, holding that value. |
| Commands.InfoCounts | src-tauri/src/commands.rs:142-155 | Every file is listed on exactly one side. |
| Commands.InfoRecords | src-tauri/src/commands.rs:142-155 | Together, the two sides' records are the lines of all files. |
| Commands.InfoListsEach | src-tauri/src/commands.rs:148-154 | A file of source 1 is listed in source1, and any other file in source2. |
| Commands.InfoSides | src-tauri/src/commands.rs:148-154 | source1 lists only files of source 1, and source2 only files of other sources. |
| Commands.InfoAppend | src-tauri/src/commands.rs:142-155 | The listing of a concatenation is the concatenation of the listings, side by side: file order is kept. |
| Commands.CsvRowsOther | src-tauri/src/commands.rs:87-109 | Exactly the unknown data types write no rows. |
| Commands.CsvRowsByType | src-tauri/src/commands.rs:88-97 | Header [Value, Source, Count], then per item [value, "Source n", count]; the count cell reads back as the count. |
| Commands.CsvRowsCrossRef | src-tauri/src/commands.rs:98-107 | Header [Value, Status, Total Count], then per item [value, "Found in both sources", count]. |
| Commands.SourceCellReadsBack | src-tauri/src/commands.rs:93 | The "Source n" cell reads back as the source number. |
| Commands.AppState.ProcessFile | src-tauri/src/commands.rs:5-38 | An empty slot gets a fresh empty database; an existing one is reused. Returns the file name and one record per processed value in order, with the processor's outcome. |
| Commands.AppState.GetAnalysis | src-tauri/src/commands.rs:40-54 | An empty slot gives "Database not initialized". Otherwise the result is the phone, email and ip groupings. |
| Commands.AppState.AnalyzeCrossReference | src-tauri/src/commands.rs:56-62 | An empty slot gives "Database not initialized". Otherwise the result is the cross-reference. |
| Commands.AppState.LoadDatabase | src-tauri/src/commands.rs:64-70 | An opened database replaces the slot. An open error is returned and leaves the slot as it was. |
| Commands.AppState.SaveDatabase | src-tauri/src/commands.rs:72-77 | An empty slot gives "Database not initialized". Otherwise the backup's own outcome is returned. |
| Commands.AppState.ClearAll | src-tauri/src/commands.rs:115-123 | The slot always holds a fresh, empty database afterwards. |
| Commands.AppState.GetDatabaseInfo | src-tauri/src/commands.rs:125-158 | An empty slot gives "Database not initialized". Otherwise the loop builds the listing of the files in id order. |
| Commands.AppState.ExportCsv | src-tauri/src/commands.rs:79-113 | The loop writes exactly the rows of the data type's layout. |
| DragDrop.CellTexts | electron-dragdrop-fix.js:205-208 | One text per cell. |
| DragDrop.TerminatedAppend | electron-dragdrop-fix.js:211 | Terminating rows distributes over concatenation. |
| DragDrop.ProcessExcelData | electron-dragdrop-fix.js:182-219 | The accumulated text is the workbook's flattening: for each sheet in order, each kept row's trimmed cells joined by tabs, then "\n". |
| DragDrop.AppendSheet | electron-dragdrop-fix.js:188-215 | One sheet's callback appends that sheet's text. |
| DragDrop.ExcelTextRows | electron-dragdrop-fix.js:188-218 | The flattened text is the kept rows, each followed by a line break. |
| DragDrop.SheetTextRows | electron-dragdrop-fix.js:203-214 | A sheet's text is its kept rows, each followed by a line break. |
| DragDrop.TerminatedStep | electron-dragdrop-fix.js:210-212 | A kept row appends its text and "\n"; a dropped row appends nothing. |
| DragDrop.KeptRowsNonBlank | electron-dragdrop-fix.js:210 | No kept row is blank. |
| DragDrop.SheetRowsNonBlank | electron-dragdrop-fix.js:210 | No kept row of a sheet is blank. |
| DragDrop.RowKept | electron-dragdrop-fix.js:204-212 | Every row with cells and a non-blank text shows up in the output. |
| DragDrop.SheetRowKept | electron-dragdrop-fix.js:204-212 | Every such row of a sheet shows up in the sheet's rows. |
| DragDrop.LinesOfExcelText | electron-dragdrop-fix.js:182-219 | When no cell holds a line break, the text splits back into exactly the kept rows. |
| DragDrop.LinesOfTerminated | electron-dragdrop-fix.js:211 | Rows each followed by "\n" split back into the rows. |
| DragDrop.KeptRowsAreLines | electron-dragdrop-fix.js:205-211 | Kept rows hold no line break when no cell does. |
| DragDrop.SheetRowsAreLines | electron-dragdrop-fix.js:205-211 | A sheet's kept rows hold no line break when no cell does. |
| DragDrop.RowTextIsLine | electron-dragdrop-fix.js:205-208 | A row's tab-joined text is one line when its cells hold no line break. |
| DragDrop.CellTextClean | electron-dragdrop-fix.js:206-207 | A cell's text ends in no '\r'. It holds no '\n' when the cell shows none. |
| DragDrop.TrimWithin | electron-dragdrop-fix.js:207 | Trimming only keeps characters of the string. |
| DragDrop.JoinEndsClean | electron-dragdrop-fix.js:208 | A join of pieces not ending in '\r' does not end in '\r'. |
| DragDrop.SpreadsheetDispatch | electron-dragdrop-fix.js:79-107 | .xlsx/.xls read as bytes. With XLSX loaded and a parsable workbook, the result is the flattened text. Without XLSX it fails as unsupported. A read failure is the error. |
| DragDrop.PdfDispatch | electron-dragdrop-fix.js:222-227 | A .pdf yields "" once its bytes are read, and the read error otherwise. |
| DragDrop.TextDispatch | electron-dragdrop-fix.js:108-115 | Any other file is read as text, with the read's own outcome. |
| DragDrop.ExtensionsExclusive | electron-dragdrop-fix.js:79-80 | A name cannot be both a spreadsheet and a PDF. |
| DragDrop.KindIgnoresCase | electron-dragdrop-fix.js:79-80 | The dispatch ignores letter case. |
| DragDrop.ReadFileText | electron-dragdrop-fix.js:78-115 | The try block's read gives the dispatch's text or error. |
| DragDrop.MergeRowsAppends | electron-dragdrop-fix.js:128-149 | Keys become old ∪ new. Old keys get the added rows appended; new keys get the added rows. Nothing is removed or reordered. |
| DragDrop.MergedGrows | electron-dragdrop-fix.js:120-149 | A merge appends the file name (even a repeat), adds exactly the extracted values to the sets, and only appends rows. |
| DragDrop.GrowsTransitive | electron-dragdrop-fix.js:76-175 | Growth composes across files. |
| DragDrop.Tile.constructor | electron-dragdrop-fix.js:45 | The tile that `createSourceTile(tileName)` is taken to return: its name and no files, values or rows. |
| DragDrop.Tile.Absorb | electron-dragdrop-fix.js:120-149 | The tile's state becomes the merge of one file's extraction, and its name is unchanged. |
| DragDrop.AddAll | electron-dragdrop-fix.js:122-124 | `forEach(add)` gives the set plus exactly the values. |
| DragDrop.MergeRowsInto | electron-dragdrop-fix.js:128-149 | The forEach over the added map, in any key order, produces the merged map. |
| DragDrop.MergeRowsNone | electron-dragdrop-fix.js:128 | Before any key is visited, the map is unchanged. |
| DragDrop.RestrictAll | electron-dragdrop-fix.js:128 | After every key is visited, the whole map is merged. |
| DragDrop.MergeRowsStep | electron-dragdrop-fix.js:129-132 | Visiting one more key creates or extends exactly that key's list. |
| DragDrop.ProcessElectronFiles | electron-dragdrop-fix.js:72-179 | The tile's state becomes the files folded in order: readable ones merged, failing ones skipped. The name is unchanged. |
| DragDrop.ProcessAllGrows | electron-dragdrop-fix.js:76-175 | Processing only ever grows the tile. |
| DragDrop.ProcessAllFiles | electron-dragdrop-fix.js:120 | The file list gains the names of the successfully read files, in order, repeats included. |
| DragDrop.ProcessAllAppend | electron-dragdrop-fix.js:76-175 | Processing a+b is processing a, then b. |
| DragDrop.FailedFileSkipped | electron-dragdrop-fix.js:93-174 | A file whose read or parse fails leaves the tile as it was, and later files are processed as if it were absent. |
| DragDrop.WithPathsSpec | electron-dragdrop-fix.js:23-33 | Only files with a path are kept, in order. Nothing is kept iff no file has a path. |
| DragDrop.HandleElectronFileDrop | electron-dragdrop-fix.js:19-54 | No path: nothing happens. "create" with no or an empty name: cancelled. Otherwise the kept files go to the new tile or to the target tile. |
| Converter.ExtractProviderSpec | sqlite_to_json_converter.py:250-259 | Empty or unparsable data gives "". A non-empty result is the record's "Provider_Detected" member. |
| Converter.RowDataDefaults | sqlite_to_json_converter.py:121-131 | Missing columns default to "Unknown", 0 and ''. Present ones are copied, and the original row is kept. |
| Converter.GroupBySpec | sqlite_to_json_converter.py:112-139 | The keys are exactly the distinct values. Each list is that value's rows in fetch order, and absent values have none. |
| Converter.ValuesSnoc | sqlite_to_json_converter.py:118 | One more row adds its value to the set. |
| Converter.GroupRows | sqlite_to_json_converter.py:112-139 | The loop builds the distinct-value set and the value → rows map. |
| Converter.CollectedSpec | sqlite_to_json_converter.py:104-209 | Values = row-map keys = distinct values of the source's rows. Without a table or rows, both are empty. |
| Converter.LoadTile | sqlite_to_json_converter.py:79-216 | The loop body builds the source's tile: name, files, the three kinds and the metadata defaults. |
| Converter.TileIdInjective | sqlite_to_json_converter.py:83 | Different counters give different tile ids. |
| Converter.TilesOfSpec | sqlite_to_json_converter.py:77-219 | The tiles are keyed "tile-1" … "tile-n", and the k-th holds the k-th source's tile. |
| Converter.TilesOfKeys | sqlite_to_json_converter.py:83-218 | The keys are exactly "tile-1" … "tile-n". |
| Converter.TileIdsSnoc | sqlite_to_json_converter.py:83-219 | The next counter gives a new id. |
| Converter.TilesOfAt | sqlite_to_json_converter.py:78-219 | Tile "tile-k" is the k-th source's tile. |
| Converter.DocumentCounters | sqlite_to_json_converter.py:45-223 | tileCounter = totalTiles = number of sources, and tiles are "tile-1" … "tile-n"; without a sources table, 0 and no tiles. |
| Converter.BaseNameSpec | sqlite_to_json_converter.py:28-51 | For `posixpath` ('/') and `ntpath` ('/' and '\\', drive letter split off): the base name holds no separator, ends the path, and is either everything after the drive or what follows the last separator. |
| Converter.BaseNameAfterSeparator | sqlite_to_json_converter.py:28-51 | A separator-free name after a separator is the base name, whatever precedes it. |
| Converter.BaseNameWithoutSeparator | sqlite_to_json_converter.py:28-51 | A path without drive or separator is its own base name. |
| Converter.WindowsBaseName | sqlite_to_json_converter.py:28-51 | Under `ntpath`, "C:\\cdr\\x.db" has base name "x.db" and default output "x_converted.db"; under `posixpath` it is its own base name. |
| Converter.StemSpec | sqlite_to_json_converter.py:28 | The stem is a prefix. What it drops is empty or one '.'-extension. |
| Converter.DefaultOutputPathSpec | sqlite_to_json_converter.py:27-29 | For either flavour, the default ends in "_converted.db", its name part holds no separator (it lies in the working directory), and that name part begins the base name. |
| Converter.ConvertSqliteToJson | sqlite_to_json_converter.py:14-248 | A missing input gives FileNotFound. Otherwise the output path (given or default) and the document. |
| Converter.BuildDocument | sqlite_to_json_converter.py:45-226 | The skeleton, the sources loop, then the counter and the totals, as the document specifies. |
| Converter.LoadTiles | sqlite_to_json_converter.py:77-219 | The loop stores the k-th source under "tile-k", and the counter ends at n+1. |
| Converter.TilesMatchBuilt | sqlite_to_json_converter.py:218-226 | The stored tiles are the built tiles, in source order. |
| Converter.SumCounts | sqlite_to_json_converter.py:224-226 | The totals are the sums over tiles of each tile's distinct phones, emails and IPs. |
| Text.LinesOfJoin | src-tauri/src/commands.rs:143-146 | `str::lines` of rows joined by "\n" gives back the rows. |
| Text.SplitJoin | src-tauri/src/file_processor.rs:29-31 | Splitting a join by a character absent from the parts gives back the parts. |
| Text.LastPieceOfSplit | src-tauri/src/file_processor.rs:29-32 | The last piece of a split is the text after the last separator. |
| Text.TrimSpec | src-tauri/src/file_processor.rs:117-142 | The result is trimmed, and it is empty iff the input is blank. |
| Text.TrimOfTrimmed | src-tauri/src/file_processor.rs:142 | Trimming a trimmed string changes nothing. |
| Text.LowerIsLowerIdempotent | src-tauri/src/extractors.rs:50 | Lowercasing yields a lowercase string and is idempotent. |
| Text.ParseNatToString | src-tauri/src/commands.rs:94 | A formatted count parses back to itself. |
| Text.NatToStringInjective | sqlite_to_json_converter.py:83 | Different numbers format differently. |
| Text.LexLessTransitive | src-tauri/src/database.rs:168 | The value order used by ORDER BY is transitive. |
| Text.LexLessTotal | src-tauri/src/database.rs:168 | Any two different values are ordered one way or the other. |

## Left out

- Regex search. The regex engine's search order (leftmost-first, non-overlapping, backtracking) is not modelled. The extractors receive the matches the engine reports, constrained by each regex's shape exactly as written (for emails, a top-level domain class that holds '|'), by occurrence in the text and by `\b` on both ends. Which of several overlapping matches the engine chooses is therefore open.
- Decoding and parsing. UTF-8 decoding, the csv crate, calamine, SheetJS and `json.loads` are given outputs: decoded text, parsed records, sheets of rendered cells, and a parsed object or `None`. Invalid UTF-8 replacement and cell rendering rules are not modelled.
- Lowercasing. Rust `to_lowercase` and JavaScript `toLowerCase` are modelled on ASCII letters only. Lowercasing of other scripts is not modelled.
- Persistence. `Database::from_file`, `save_to_file` and the converter's file write are file I/O. `load_database` and `save_database` take the open or backup outcome as a parameter.
- `Database::new_memory` failure and the `General("Database initialization failed")` branch of `process_file`. Creating an in-memory database is taken to succeed.
- The async `Mutex` around the database slot. The slot is one owned field. The in-memory pool is taken to be one connection.
- `export_csv` file creation and flushing. ExportCsv returns the rows it would write.
- Commands.AppState.ExportCsv: I/O errors from creating or writing the file are not modelled.
- Logging, status messages and DOM updates. `println!`, `console.log`, `updateStatus`, the file-list and counter updates at electron-dragdrop-fix.js:151-169, and `updateAllAnalysis` are left out.
- DragDrop.ProcessElectronFiles: an exception thrown by the DOM code after the merge (lines 151-169) would leave the merged tile and continue with the next file, just as a success does. The model has no such throw.
- Foreign renderer calls. `extractData`, `sourceTiles`, `createSourceTile` and `createNewCreateTile` are not part of this model. `extract` is a parameter. The target tile is passed in. HandleElectronFileDrop returns where the files go, not the call to `processElectronFiles`.
- Other drop paths. `handleFileDrop`, `handleBrowserFileDrop` and `setupDropZoneListenersElectron` are the browser path and event wiring, outside the modelled core.
- Converter.LoadTile: Python `list(set)` order is not modelled. A tile's phones, emails and IPs are sets.
- Converter.ConvertSqliteToJson: one `now` stands for each `datetime.now()` call. In the source these may differ by the time the calls take.
- Converter.RowDataOf: a column that exists but holds NULL becomes Python `None`, not the default. The model only distinguishes present from absent columns.
- JSON record members whose values are not strings are not modelled. `Provider_Detected` is taken to be a string.
- `sqlite3` errors during conversion are re-raised after a message. The model assumes the queries succeed.
- `main.js`, `electron-main.js`, `preload.js`, `src-tauri/src/main.rs` and the build and icon scripts are not part of this model: they are UI wiring, IPC and packaging.
- Error message texts beyond the variant names in `error.rs` are left out.
- Extractors.IsBoundary: the Unicode tables of the regex crate's `\w` are not modelled. Next to a non-ASCII character a boundary is admitted either way, so the model admits some matches the engine would not report, such as "5551234567" right after 'é' in "é5551234567". Between ASCII neighbours it is exact.
- Converter.BaseName: of `ntpath.splitdrive`, only the drive letter ("C:") is split off. UNC prefixes such as "\\\\server\\share" are not modelled: for a bare share the model gives the share name, where `ntpath` gives "".
- Database.Database.GetExtractedItemsByType: SQL leaves the order of entries with equal count and value but different sources open. The model breaks such ties by source id. The contract promises only the SQL order.

## Findings

| source | as written | input that shows it | evidently intended | confidence | as-written member | corrected member |
|---|---|---|---|---|---|---|
| src-tauri/src/extractors.rs:19 | The TLD class `[A-Z\|a-z]{2,}` also admits the character '\|', since '\|' is literal inside a class. | The text "john@example.com\|2023" yields the email "john@example.com\|". | A TLD of two or more letters, `[A-Za-z]{2,}`. | not executed | Extractors.EmailTldAdmitsBar | Extractors.LoweredMatchIsAddress |
