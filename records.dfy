/** Records: one input row, read-only, mapping column names to raw field values. */
module Records {

  /** A raw field value. Text read from the table is `Str`; anything else the table reader
      produces (a number, or the float NaN of an empty cell) is `NonStr`, carrying the text
      Python's `str()` gives for it. Only `Str` values support string replacement. */
  datatype Value = Str(text: string) | NonStr(shown: string)

  /** One record: column name to value. Reading a name that is not a key is a `KeyError`. */
  type Record = map<string, Value>

  /** Python's `str(v)`, which is also what an f-string inserts for `v`. */
  function Show(v: Value): string
  {
    match v
    case Str(t) => t
    case NonStr(s) => s
  }
}
