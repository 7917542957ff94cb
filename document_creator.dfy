/** The two renderers: one document per record (a title heading, then one block per column),
    and one summary document (a title heading, then a table with a header row and one row per
    record). Both dispatch on the column type; an image that cannot be decoded falls back to
    the field's text. A record that lacks a key the renderer reads aborts the document with a
    `KeyError`, and nothing is saved. */
module DocumentCreator {
  import opened Wrappers
  import opened Settings
  import opened Records
  import opened ImagePayload
  import opened Docx

  /** The side of the square picture in a summary-table cell, in inches; the document
      settings' picture size does not apply to the table. */
  const TableImageInches: real := 2.0

  /** The only failure that escapes a renderer: reading a key the record does not have. */
  datatype KeyError = KeyError(key: string)

  // ---------------------------------------------------------------------------------------
  // Missing keys

  /** The record has a value for every column. */
  predicate HasColumns(row: Record, columns: seq<ColumnSettings>)
  {
    forall k :: 0 <= k < |columns| ==> columns[k].name in row
  }

  /** The name of the first column, in column order, that the record lacks. */
  function MissingColumn(row: Record, columns: seq<ColumnSettings>): (r: Option<string>)
    ensures r.None? <==> HasColumns(row, columns)
    ensures r.Some? ==> r.value !in row
    decreases |columns|
  {
    if |columns| == 0 then None
    else if columns[0].name !in row then Some(columns[0].name)
    else
      var r := MissingColumn(row, columns[1..]);
      assert HasColumns(row, columns[1..]) ==> HasColumns(row, columns) by {
        if HasColumns(row, columns[1..]) {
          forall k | 0 <= k < |columns| ensures columns[k].name in row {
            if k > 0 { assert columns[k] == columns[1..][k - 1]; }
          }
        }
      }
      r
  }

  /** When the columns before `i` are present and column `i` is not, column `i` is the one
      reported: keys are read in column order. */
  lemma {:induction false} MissingColumnAt(row: Record, columns: seq<ColumnSettings>, i: nat)
    requires i < |columns|
    requires forall k :: 0 <= k < i ==> columns[k].name in row
    requires columns[i].name !in row
    ensures MissingColumn(row, columns) == Some(columns[i].name)
    decreases i
  {
    if i > 0 {
      assert columns[0].name in row;
      forall k | 0 <= k < i - 1 ensures columns[1..][k].name in row {
        assert columns[1..][k] == columns[k + 1];
      }
      MissingColumnAt(row, columns[1..], i - 1);
    }
  }

  /** The key error a per-record document ends with: the first missing column, else the
      identifier column when it is missing (it is read only when saving). */
  function RowKeyError(row: Record, columns: seq<ColumnSettings>, idCol: string): (r: Option<KeyError>)
    ensures r.None? <==> HasColumns(row, columns) && idCol in row
    ensures r.Some? ==> r.value.key !in row
  {
    match MissingColumn(row, columns)
    case Some(k) => Some(KeyError(k))
    case None => if idCol in row then None else Some(KeyError(idCol))
  }

  /** Every record has a value for every column. */
  predicate RecordsHaveColumns(records: seq<Record>, columns: seq<ColumnSettings>)
  {
    forall j :: 0 <= j < |records| ==> HasColumns(records[j], columns)
  }

  /** The key error the summary ends with: the first missing column of the first record, in
      record order, that lacks one. */
  function TableKeyError(records: seq<Record>, columns: seq<ColumnSettings>): (r: Option<KeyError>)
    ensures r.None? <==> RecordsHaveColumns(records, columns)
    ensures r.Some? ==> exists j :: 0 <= j < |records| && r.value.key !in records[j]
    decreases |records|
  {
    if |records| == 0 then None
    else
      match MissingColumn(records[0], columns)
      case Some(k) => Some(KeyError(k))
      case None =>
        var r := TableKeyError(records[1..], columns);
        assert RecordsHaveColumns(records[1..], columns) ==> RecordsHaveColumns(records, columns) by {
          if RecordsHaveColumns(records[1..], columns) {
            forall j | 0 <= j < |records| ensures HasColumns(records[j], columns) {
              if j > 0 { assert records[j] == records[1..][j - 1]; }
            }
          }
        }
        assert r.Some? ==> exists j :: 0 <= j < |records| && r.value.key !in records[j] by {
          if r.Some? {
            var j :| 0 <= j < |records[1..]| && r.value.key !in records[1..][j];
            assert records[1..][j] == records[j + 1];
          }
        }
        r
  }

  /** When the records before `j` are complete and record `j` first lacks column `i`, that
      column is the key reported: records are rendered in order, each in column order. */
  lemma {:induction false} TableKeyErrorAt(records: seq<Record>, columns: seq<ColumnSettings>, j: nat, i: nat)
    requires j < |records| && i < |columns|
    requires forall m :: 0 <= m < j ==> HasColumns(records[m], columns)
    requires forall k :: 0 <= k < i ==> columns[k].name in records[j]
    requires columns[i].name !in records[j]
    ensures TableKeyError(records, columns) == Some(KeyError(columns[i].name))
    decreases j
  {
    if j == 0 {
      MissingColumnAt(records[0], columns, i);
    } else {
      assert MissingColumn(records[0], columns) == None;
      forall m | 0 <= m < j - 1 ensures HasColumns(records[1..][m], columns) {
        assert records[1..][m] == records[m + 1];
      }
      assert records[1..][j - 1] == records[j];
      TableKeyErrorAt(records[1..], columns, j - 1, i);
    }
  }

  // ---------------------------------------------------------------------------------------
  // Per-record document

  /** The label an f-string prints for a column: its display name, or `None`. */
  function Label(c: ColumnSettings): string
  {
    match c.displayName
    case Some(d) => d
    case None => "None"
  }

  /** The text rendering of a field in a per-record document: `<label>: <value>`. */
  function FieldText(c: ColumnSettings, v: Value): string
  {
    Label(c) + ": " + Show(v)
  }

  /** The block one column contributes to a per-record document. */
  function ColumnBlock(row: Record, c: ColumnSettings, settings: DocumentSettings, decode: Decoder): Block
    requires c.name in row
  {
    match c.columnType
    case String => Paragraph(FieldText(c, row[c.name]))
    case Image =>
      match DecodeField(row[c.name], decode)
      case Some(image) => Picture(image, settings.imageWidth as real, settings.imageHeight as real)
      case None => Paragraph(FieldText(c, row[c.name]))
  }

  /** The content of a per-record document: the title as a level-0 heading, then the block of
      each column in column order. */
  function RowBlocks(row: Record, columns: seq<ColumnSettings>, settings: DocumentSettings, decode: Decoder): seq<Block>
    requires HasColumns(row, columns)
  {
    [Heading(settings.title, 0)]
      + seq(|columns|, k requires 0 <= k < |columns| => ColumnBlock(row, columns[k], settings, decode))
  }

  /** Where a per-record document is saved: `<folder>/<identifier>.docx`. */
  function RowDocPath(folderPath: string, id: Value): string
  {
    folderPath + "/" + Show(id) + ".docx"
  }

  /** Renders one record as a document and saves it under the record's identifier. The title
      comes first; each column then adds one paragraph or one picture, in column order. */
  method CreateSingleDoc(row: Record, folderPath: string, columns: seq<ColumnSettings>,
                         settings: DocumentSettings, decode: Decoder)
    returns (doc: Document, err: Option<KeyError>)
    ensures fresh(doc)
    ensures err == RowKeyError(row, columns, settings.idCol)
    ensures err.None? ==> doc.blocks == RowBlocks(row, columns, settings, decode)
    ensures err.None? ==> doc.savedAs == Some(RowDocPath(folderPath, row[settings.idCol]))
    ensures err.Some? ==> doc.savedAs == None
  {
    doc := new Document();
    doc.AddHeading(settings.title, 0);
    var i := 0;
    while i < |columns|
      invariant 0 <= i <= |columns|
      invariant HasColumns(row, columns[..i])
      invariant doc.blocks == RowBlocks(row, columns[..i], settings, decode)
      invariant doc.savedAs == None
    {
      var column := columns[i];
      if column.name !in row {
        // the STRING branch raises at once; the IMAGE branch raises again from its handler
        MissingColumnAt(row, columns, i);
        return doc, Some(KeyError(column.name));
      }
      var value := row[column.name];
      match column.columnType {
        case String =>
          doc.AddParagraph(FieldText(column, value));
        case Image =>
          match DecodeField(value, decode) {
            case Some(image) =>
              doc.AddPicture(image, settings.imageWidth as real, settings.imageHeight as real);
            case None =>
              doc.AddParagraph(FieldText(column, value));
          }
      }
      assert columns[..i + 1] == columns[..i] + [column];
      i := i + 1;
    }
    assert columns[..i] == columns;
    if settings.idCol !in row {
      return doc, Some(KeyError(settings.idCol));
    }
    doc.Save(RowDocPath(folderPath, row[settings.idCol]));
    err := None;
  }

  /** The layout of a per-record document: the title heading, then exactly one block per
      column in column order; a STRING column gives its `<label>: <value>` paragraph, an IMAGE
      column its picture at the settings' size when the value decodes and otherwise the same
      paragraph a STRING column would give. */
  lemma RowDocumentLayout(row: Record, columns: seq<ColumnSettings>, settings: DocumentSettings, decode: Decoder)
    requires HasColumns(row, columns)
    ensures |RowBlocks(row, columns, settings, decode)| == 1 + |columns|
    ensures RowBlocks(row, columns, settings, decode)[0] == Heading(settings.title, 0)
    ensures forall k :: 0 <= k < |columns| && columns[k].columnType.String? ==>
      RowBlocks(row, columns, settings, decode)[k + 1] == Paragraph(Label(columns[k]) + ": " + Show(row[columns[k].name]))
    ensures forall k :: 0 <= k < |columns| && columns[k].columnType.Image? && DecodeField(row[columns[k].name], decode).Some? ==>
      RowBlocks(row, columns, settings, decode)[k + 1]
        == Picture(DecodeField(row[columns[k].name], decode).value, settings.imageWidth as real, settings.imageHeight as real)
    ensures forall k :: 0 <= k < |columns| && columns[k].columnType.Image? && DecodeField(row[columns[k].name], decode).None? ==>
      RowBlocks(row, columns, settings, decode)[k + 1] == Paragraph(Label(columns[k]) + ": " + Show(row[columns[k].name]))
  {
  }

  /** A per-record document has no heading but the title, and a picture only where an IMAGE
      column's value decoded to that very image, always at the settings' size. */
  lemma RowPicturesComeFromDecodedImages(row: Record, columns: seq<ColumnSettings>, settings: DocumentSettings, decode: Decoder)
    requires HasColumns(row, columns)
    ensures forall k :: 1 <= k < |RowBlocks(row, columns, settings, decode)| ==>
      !RowBlocks(row, columns, settings, decode)[k].Heading?
    ensures forall k :: 1 <= k < |RowBlocks(row, columns, settings, decode)| && RowBlocks(row, columns, settings, decode)[k].Picture? ==>
      && columns[k - 1].columnType.Image?
      && DecodeField(row[columns[k - 1].name], decode) == Some(RowBlocks(row, columns, settings, decode)[k].image)
      && RowBlocks(row, columns, settings, decode)[k].width == settings.imageWidth as real
      && RowBlocks(row, columns, settings, decode)[k].height == settings.imageHeight as real
  {
  }

  /** An IMAGE column whose value does not decode renders exactly as a STRING column would:
      a non-string value, a payload the decoder rejects, and so on. */
  lemma ImageFallbackIsStringRendering(row: Record, c: ColumnSettings, settings: DocumentSettings, decode: Decoder)
    requires c.name in row && c.columnType.Image?
    requires DecodeField(row[c.name], decode).None?
    ensures ColumnBlock(row, c, settings, decode) == ColumnBlock(row, c.(columnType := String), settings, decode)
    ensures BodyCell(row, c, decode) == BodyCell(row, c.(columnType := String), decode)
  {
  }

  /** A value that is not a string never yields a picture: it cannot go through `.replace`. */
  lemma NonStringValueFallsBack(row: Record, c: ColumnSettings, settings: DocumentSettings, decode: Decoder)
    requires c.name in row && row[c.name].NonStr?
    ensures ColumnBlock(row, c, settings, decode) == Paragraph(Label(c) + ": " + row[c.name].shown)
    ensures BodyCell(row, c, decode) == TextCell(row[c.name].shown)
  {
  }

  /** Two per-record documents in one folder go to the same file exactly when their identifiers
      print the same. */
  lemma {:induction false} RowDocPathInjective(folderPath: string, a: Value, b: Value)
    ensures RowDocPath(folderPath, a) == RowDocPath(folderPath, b) <==> Show(a) == Show(b)
  {
    var x, y := Show(a), Show(b);
    var n := |folderPath| + 1;
    if RowDocPath(folderPath, a) == RowDocPath(folderPath, b) {
      var pa, pb := RowDocPath(folderPath, a), RowDocPath(folderPath, b);
      assert |x| == |y|;
      assert pa[n..n + |x|] == x;
      assert pb[n..n + |y|] == y;
    }
  }

  /** A record whose identifier prints as `summary` has its document at the summary's path. */
  lemma {:induction false} RowDocPathMeetsSummary(folderPath: string, id: Value)
    ensures RowDocPath(folderPath, id) == SummaryPath(folderPath) <==> Show(id) == "summary"
  {
    var n := |folderPath| + 1;
    var p, q := RowDocPath(folderPath, id), SummaryPath(folderPath);
    assert q == folderPath + "/" + "summary" + ".docx";
    if p == q {
      assert |Show(id)| == 7;
      assert p[n..n + 7] == Show(id);
      assert q[n..n + 7] == "summary";
    }
  }

  // ---------------------------------------------------------------------------------------
  // Summary document

  /** Every column has a display name, the text its header cell receives. */
  predicate AllLabelled(columns: seq<ColumnSettings>)
  {
    forall k :: 0 <= k < |columns| ==> columns[k].displayName.Some?
  }

  /** The header row: the display names, in column order. */
  function HeaderRow(columns: seq<ColumnSettings>): seq<Cell>
    requires AllLabelled(columns)
  {
    seq(|columns|, k requires 0 <= k < |columns| => TextCell(columns[k].displayName.value))
  }

  /** The content of one body cell: the bare value as text, or a fixed-size picture. */
  function BodyCell(row: Record, c: ColumnSettings, decode: Decoder): Cell
    requires c.name in row
  {
    match c.columnType
    case String => TextCell(Show(row[c.name]))
    case Image =>
      match DecodeField(row[c.name], decode)
      case Some(image) => PictureCell(image, TableImageInches, TableImageInches)
      case None => TextCell(Show(row[c.name]))
  }

  /** The body row of one record: one cell per column, in column order. */
  function BodyRow(row: Record, columns: seq<ColumnSettings>, decode: Decoder): seq<Cell>
    requires HasColumns(row, columns)
  {
    seq(|columns|, k requires 0 <= k < |columns| => BodyCell(row, columns[k], decode))
  }

  /** The rows of the summary table: the header, then one body row per record in order. */
  function SummaryRows(records: seq<Record>, columns: seq<ColumnSettings>, decode: Decoder): seq<seq<Cell>>
    requires AllLabelled(columns) && RecordsHaveColumns(records, columns)
  {
    [HeaderRow(columns)]
      + seq(|records|, j requires 0 <= j < |records| => BodyRow(records[j], columns, decode))
  }

  /** Where the summary document is saved. */
  function SummaryPath(folderPath: string): string
  {
    folderPath + "/summary.docx"
  }

  /** Writes the display names into the empty header row of `table`. */
  method WriteHeader(table: Table, columns: seq<ColumnSettings>)
    requires AllLabelled(columns)
    requires table.Valid() && table.cols == |columns| && table.rows == [BlankRow(|columns|)]
    modifies table
    ensures table.Valid() && table.rows == [HeaderRow(columns)]
  {
    var idx := 0;
    while idx < |columns|
      invariant 0 <= idx <= |columns|
      invariant table.Valid() && |table.rows| == 1
      invariant forall k :: 0 <= k < |columns| ==>
        table.rows[0][k] == if k < idx then TextCell(columns[k].displayName.value) else Blank
    {
      table.SetText(0, idx, columns[idx].displayName.value);
      idx := idx + 1;
    }
    assert table.rows[0] == HeaderRow(columns);
  }

  /** Fills the empty row `r` of `table` with the cells of one record, column by column. On a
      missing key it stops and reports the index of that column. */
  method WriteBodyRow(table: Table, r: nat, row: Record, columns: seq<ColumnSettings>, decode: Decoder)
    returns (missing: Option<nat>)
    requires table.Valid() && table.cols == |columns|
    requires r < |table.rows| && table.rows[r] == BlankRow(|columns|)
    modifies table
    ensures table.Valid() && |table.rows| == |old(table.rows)|
    ensures forall m :: 0 <= m < |table.rows| && m != r ==> table.rows[m] == old(table.rows)[m]
    ensures missing.None? ==> HasColumns(row, columns) && table.rows[r] == BodyRow(row, columns, decode)
    ensures missing.Some? ==> missing.value < |columns| && columns[missing.value].name !in row
    ensures missing.Some? ==> forall k :: 0 <= k < missing.value ==> columns[k].name in row
  {
    var idx := 0;
    while idx < |columns|
      invariant 0 <= idx <= |columns|
      invariant forall k :: 0 <= k < idx ==> columns[k].name in row
      invariant table.Valid() && |table.rows| == |old(table.rows)|
      invariant forall m :: 0 <= m < |table.rows| && m != r ==> table.rows[m] == old(table.rows)[m]
      invariant forall k :: 0 <= k < |columns| ==>
        table.rows[r][k] == if k < idx then BodyCell(row, columns[k], decode) else Blank
    {
      var column := columns[idx];
      if column.name !in row {
        return Some(idx);
      }
      var value := row[column.name];
      match column.columnType {
        case String =>
          table.SetText(r, idx, Show(value));
        case Image =>
          match DecodeField(value, decode) {
            case Some(image) =>
              table.AddPicture(r, idx, image, TableImageInches, TableImageInches);
            case None =>
              table.SetText(r, idx, Show(value));
          }
      }
      idx := idx + 1;
    }
    assert table.rows[r] == BodyRow(row, columns, decode);
    missing := None;
  }

  /** Renders all records as one table, under the title heading, and saves it as the summary. */
  method CreateDocWithTable(records: seq<Record>, folderPath: string, columns: seq<ColumnSettings>,
                            settings: DocumentSettings, decode: Decoder)
    returns (doc: Document, table: Table, err: Option<KeyError>)
    requires AllLabelled(columns)
    ensures fresh(doc) && fresh(table)
    ensures doc.blocks == [Heading(settings.title, 0), Grid(table)]
    ensures table.Valid() && table.cols == |columns|
    ensures err == TableKeyError(records, columns)
    ensures err.None? ==> table.rows == SummaryRows(records, columns, decode)
    ensures err.None? ==> doc.savedAs == Some(SummaryPath(folderPath))
    ensures err.Some? ==> doc.savedAs == None
  {
    doc := new Document();
    doc.AddHeading(settings.title, 0);
    table := doc.AddTable(1, |columns|);
    WriteHeader(table, columns);

    var j := 0;
    while j < |records|
      invariant 0 <= j <= |records|
      invariant RecordsHaveColumns(records[..j], columns)
      invariant table.Valid() && table.cols == |columns|
      invariant table.rows == SummaryRows(records[..j], columns, decode)
      invariant doc.blocks == [Heading(settings.title, 0), Grid(table)] && doc.savedAs == None
    {
      ghost var before := table.rows;
      var r := table.AddRow();
      var missing := WriteBodyRow(table, r, records[j], columns, decode);
      if missing.Some? {
        TableKeyErrorAt(records, columns, j, missing.value);
        return doc, table, Some(KeyError(columns[missing.value].name));
      }
      assert table.rows == before + [BodyRow(records[j], columns, decode)];
      assert records[..j + 1] == records[..j] + [records[j]];
      j := j + 1;
    }
    assert records[..j] == records;
    doc.Save(SummaryPath(folderPath));
    err := None;
  }

  /** The layout of the summary table: one header row and one body row per record, in record
      order; every row has one cell per column; header cells hold the display names and body
      cells the rendering of the record's value for that column. */
  lemma SummaryLayout(records: seq<Record>, columns: seq<ColumnSettings>, decode: Decoder)
    requires AllLabelled(columns) && RecordsHaveColumns(records, columns)
    ensures |SummaryRows(records, columns, decode)| == 1 + |records|
    ensures forall m :: 0 <= m < |SummaryRows(records, columns, decode)| ==>
      |SummaryRows(records, columns, decode)[m]| == |columns|
    ensures forall k :: 0 <= k < |columns| ==>
      SummaryRows(records, columns, decode)[0][k] == TextCell(columns[k].displayName.value)
    ensures forall j, k :: 0 <= j < |records| && 0 <= k < |columns| ==>
      SummaryRows(records, columns, decode)[j + 1][k] == BodyCell(records[j], columns[k], decode)
  {
  }

  /** A body cell: a STRING value as bare text, without the label; a decoded image as one picture
      of the fixed table size, whatever the settings say; an undecodable one as bare text. */
  lemma BodyCellDispatch(row: Record, c: ColumnSettings, decode: Decoder)
    requires c.name in row
    ensures c.columnType.String? ==> BodyCell(row, c, decode) == TextCell(Show(row[c.name]))
    ensures c.columnType.Image? && DecodeField(row[c.name], decode).Some? ==>
      BodyCell(row, c, decode) == PictureCell(DecodeField(row[c.name], decode).value, 2.0, 2.0)
    ensures c.columnType.Image? && DecodeField(row[c.name], decode).None? ==>
      BodyCell(row, c, decode) == TextCell(Show(row[c.name]))
  {
  }

  /** The two renderers make the same choice for a field: a picture of the same image in both
      or text in both, the per-record text being the table text behind the column's label. */
  lemma RowAndTableAgree(row: Record, c: ColumnSettings, settings: DocumentSettings, decode: Decoder)
    requires c.name in row
    ensures ColumnBlock(row, c, settings, decode).Picture? <==> BodyCell(row, c, decode).PictureCell?
    ensures ColumnBlock(row, c, settings, decode).Paragraph? <==> BodyCell(row, c, decode).TextCell?
    ensures ColumnBlock(row, c, settings, decode).Picture? ==>
      ColumnBlock(row, c, settings, decode).image == BodyCell(row, c, decode).image
    ensures ColumnBlock(row, c, settings, decode).Paragraph? ==>
      ColumnBlock(row, c, settings, decode).text == Label(c) + ": " + BodyCell(row, c, decode).text
  {
  }
}
