/** The document record every stage passes along: page text plus a mutable
    metadata dictionary whose values are strings or integers. */
module Documents {
  import opened Strings

  datatype Option<T> = None | Some(value: T)

  /** A metadata value: text (titles, file names, types) or an integer (chunk_index). */
  datatype Value = Str(s: string) | Num(n: int)

  /** How a value is rendered inside an f-string. */
  function Show(v: Value): string
  {
    match v
    case Str(s) => s
    case Num(n) => IntToString(n)
  }

  /** `metadata.get(key, default)`. */
  function Get(metadata: map<string, Value>, key: string, default: Value): Value
  {
    if key in metadata then metadata[key] else default
  }

  class Document {
    var pageContent: string
    var metadata: map<string, Value>

    constructor (pageContent: string, metadata: map<string, Value>)
      ensures this.pageContent == pageContent && this.metadata == metadata
    {
      this.pageContent := pageContent;
      this.metadata := metadata;
    }
  }

  /** `doc.metadata.get('doc_type', 'unknown')`. */
  function DocTypeOf(d: Document): Value
    reads d
  {
    Get(d.metadata, "doc_type", Str("unknown"))
  }
}
