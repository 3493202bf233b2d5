/** `read_attachment`: decoding an attachment into a dataset, dispatching
    purely on the (already lower-cased) file name's extension. */
module Attachments {
  import opened Base
  import opened Text

  datatype FileType = Csv | Excel

  /** What `read_attachment` can raise. */
  datatype ReadError =
    | NoFileName               // `None.endswith(...)`: AttributeError
    | Unsupported(message: string)  // ValueError for an unknown extension
    | ParseFailed(reason: string)   // pandas could not read the bytes

  /** pandas' `read_csv` / `read_excel`, chosen by file type. */
  type Parser = (FileType, Bytes) -> Result<Dataset, string>

  const CsvSuffix := ".csv"
  const XlsxSuffix := ".xlsx"
  const XlsSuffix := ".xls"
  const UnsupportedPrefix := "Unsupported file type: "

  /** The extension test, `.csv` first, then the two Excel suffixes. */
  function Classify(name: string): (kind: Option<FileType>)
    ensures kind == Some(Csv) <==> EndsWith(name, CsvSuffix)
    ensures kind == Some(Excel) <==>
              !EndsWith(name, CsvSuffix) && (EndsWith(name, XlsxSuffix) || EndsWith(name, XlsSuffix))
    ensures kind == None <==>
              !EndsWith(name, CsvSuffix) && !EndsWith(name, XlsxSuffix) && !EndsWith(name, XlsSuffix)
  {
    if EndsWith(name, CsvSuffix) then Some(Csv)
    else if EndsWith(name, XlsxSuffix) || EndsWith(name, XlsSuffix) then Some(Excel)
    else None
  }

  /** The three suffixes exclude one another, so testing `.csv` first never
      hides an Excel name: Excel is chosen exactly for the Excel suffixes. */
  lemma SuffixesExclusive(name: string)
    ensures EndsWith(name, XlsxSuffix) || EndsWith(name, XlsSuffix) ==> !EndsWith(name, CsvSuffix)
    ensures !(EndsWith(name, XlsxSuffix) && EndsWith(name, XlsSuffix))
    ensures Classify(name) == Some(Excel) <==> EndsWith(name, XlsxSuffix) || EndsWith(name, XlsSuffix)
  {
    if EndsWith(name, CsvSuffix) {
      assert name[|name| - 1] == 'v';
    }
    if EndsWith(name, XlsxSuffix) {
      assert name[|name| - 1] == 'x';
    }
  }

  /** `read_attachment(filename, attachment_bytes)`: the dataset and its
      file type, or the error the source raises. */
  function ReadAttachment(fileName: Option<string>, bytes: Bytes, parse: Parser)
    : (r: Result<(Dataset, FileType), ReadError>)
    ensures fileName.None? ==> r == Err(NoFileName)
    ensures fileName.Some? && Classify(fileName.value).None? ==>
              r.Err? && r.error.Unsupported? && EndsWith(r.error.message, fileName.value)
    ensures r.Ok? <==>
              fileName.Some? && Classify(fileName.value).Some?
              && parse(Classify(fileName.value).value, bytes).Ok?
    ensures r.Ok? ==> Some(r.value.1) == Classify(fileName.value)
                      && parse(r.value.1, bytes) == Ok(r.value.0)
    ensures r.Err? && r.error.ParseFailed? ==>
              fileName.Some? && Classify(fileName.value).Some?
              && parse(Classify(fileName.value).value, bytes) == Err(r.error.reason)
  {
    match fileName
    case None => Err(NoFileName)
    case Some(name) =>
      match Classify(name)
      case None => Err(Unsupported(UnsupportedPrefix + name))
      case Some(kind) =>
        match parse(kind, bytes)
        case Err(e) => Err(ParseFailed(e))
        case Ok(df) => Ok((df, kind))
  }

  /** A name ending in `.txt` is refused with an error naming the file. */
  lemma TextFileRefused(name: string, bytes: Bytes, parse: Parser)
    requires EndsWith(name, ".txt")
    ensures ReadAttachment(Some(name), bytes, parse) == Err(Unsupported(UnsupportedPrefix + name))
  {
    assert name[|name| - 1] == 't';
  }
}
