/** Document-level and column-level settings: an enumeration and two records, all plain values. */
module Settings {
  import opened Wrappers

  /** How a field's raw value is interpreted: as text, or as a base64 image payload.
      The type is closed: these two are the only column types. */
  datatype ColumnType = String | Image

  /** Document-level settings. The identifier column and the title have no default;
      the picture size used in the per-row documents defaults to 4 x 3 (inches). */
  datatype DocumentSettings = DocumentSettings(
    idCol: string,
    title: string,
    imageWidth: int := 4,
    imageHeight: int := 3
  )

  /** One column: `name` is the key into a record, `displayName` the optional human label,
      `columnType` selects the rendering branch. */
  datatype ColumnSettings = ColumnSettings(
    name: string,
    displayName: Option<string>,
    columnType: ColumnType
  )

  /** Every column type is STRING or IMAGE, so a two-way dispatch on it covers every column. */
  lemma ColumnTypeIsClosed(t: ColumnType)
    ensures t == String || t == Image
    ensures t.String? != t.Image?
  {
  }

  /** Settings built from the two required fields get the default 4 x 3 picture size. */
  lemma DefaultImageSize(idCol: string, title: string)
    ensures DocumentSettings(idCol, title).idCol == idCol
    ensures DocumentSettings(idCol, title).title == title
    ensures DocumentSettings(idCol, title).imageWidth == 4
    ensures DocumentSettings(idCol, title).imageHeight == 3
  {
  }
}
