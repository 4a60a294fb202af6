/** The records exchanged between the backend and the front end, and the
    backend's error variants. */
module Models {

  datatype Option<T> = None | Some(value: T)

  /** The variants of the backend's error type; the message texts are left out. */
  datatype AppError =
    | Database(message: string)
    | Io(message: string)
    | Csv(message: string)
    | Excel(message: string)
    | Parse(message: string)
    | InvalidFormat
    | FileNotFound
    | General(message: string)

  datatype Result<T> = Ok(value: T) | Err(error: AppError)

  datatype ItemType = Phone | Email | Ip

  /** One aggregated value: how often it was seen, and in which source. */
  datatype ExtractedItem = ExtractedItem(value: string, source: int, count: int, itemType: ItemType)

  datatype FileRecord = FileRecord(
    id: Option<int>, fileName: string, sourceId: int, content: string, processedAt: Option<string>)

  datatype Record = Record(content: string)

  datatype ProcessResult = ProcessResult(fileName: string, records: seq<Record>)

  datatype AnalysisResult = AnalysisResult(
    phones: seq<ExtractedItem>, emails: seq<ExtractedItem>, ips: seq<ExtractedItem>)

  datatype SourceInfo = SourceInfo(files: seq<string>, records: seq<Record>)

  datatype DatabaseInfo = DatabaseInfo(source1: SourceInfo, source2: SourceInfo)
}
