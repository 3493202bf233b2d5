/** Shared vocabulary of the mailbox agent: optional values, results, bytes
    and the tabular dataset that travels through the pipeline. */
module Base {

  /** Python's `None` / a present value. */
  datatype Option<+T> = None | Some(value: T)

  /** A computation that either produces a value or raises an exception,
      the exception being described by `error`. */
  datatype Result<+T, +E> = Ok(value: T) | Err(error: E)

  /** One octet of a `bytes` object. */
  newtype Byte = x: int | 0 <= x < 256

  type Bytes = seq<Byte>

  /** A cell is kept as its text; the pipeline never inspects cell values. */
  type Cell = string

  /** A pandas DataFrame reduced to what the pipeline observes of it: the
      ordered column names (`df.columns.tolist()`) and the rows. */
  datatype Dataset = Dataset(columns: seq<string>, rows: seq<seq<Cell>>)

  /** Python truthiness of an optional string: `None` and `""` are false. */
  predicate TruthyText(s: Option<string>) {
    s.Some? && s.value != []
  }

  /** Python truthiness of optional bytes: `None` and `b""` are false. */
  predicate TruthyBytes(b: Option<Bytes>) {
    b.Some? && b.value != []
  }
}
