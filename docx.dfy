/** The document-build API the renderers drive: a document is a sequence of blocks that only
    grows at its end, and a table is a grid of cells that grows by whole rows and whose cells
    are written in place. Sizes are lengths in inches. */
module Docx {
  import opened Wrappers
  import opened ImagePayload

  /** What a table cell holds: nothing yet, text, or one inline picture. */
  datatype Cell = Blank | TextCell(text: string) | PictureCell(image: Image, width: real, height: real)

  /** One block of a document's body. */
  datatype Block =
    | Heading(text: string, level: nat)
    | Paragraph(text: string)
    | Picture(image: Image, width: real, height: real)
    | Grid(table: Table)

  /** A row of `n` empty cells. */
  function BlankRow(n: nat): (r: seq<Cell>)
    ensures |r| == n
    ensures forall k :: 0 <= k < n ==> r[k] == Blank
  {
    seq(n, _ => Blank)
  }

  class Table {
    const cols: nat
    var rows: seq<seq<Cell>>

    /** Every row has one cell per column. */
    ghost predicate Valid()
      reads this
    {
      forall k :: 0 <= k < |rows| ==> |rows[k]| == cols
    }

    /** A table of `rowCount` empty rows of `cols` cells. */
    constructor (rowCount: nat, cols: nat)
      ensures Valid()
      ensures this.cols == cols
      ensures rows == seq(rowCount, _ => BlankRow(cols))
    {
      this.cols := cols;
      rows := seq(rowCount, _ => BlankRow(cols));
    }

    /** Appends one empty row and returns its index. */
    method AddRow() returns (k: nat)
      requires Valid()
      modifies this
      ensures Valid()
      ensures k == |old(rows)|
      ensures rows == old(rows) + [BlankRow(cols)]
    {
      k := |rows|;
      rows := rows + [BlankRow(cols)];
    }

    /** Replaces the content of cell (`k`, `idx`) by `text`; nothing else changes. */
    method SetText(k: nat, idx: nat, text: string)
      requires Valid()
      requires k < |rows| && idx < cols
      modifies this
      ensures Valid()
      ensures rows == old(rows)[k := old(rows)[k][idx := TextCell(text)]]
    {
      rows := rows[k := rows[k][idx := TextCell(text)]];
    }

    /** Adds a picture to the empty cell (`k`, `idx`); nothing else changes. */
    method AddPicture(k: nat, idx: nat, image: Image, width: real, height: real)
      requires Valid()
      requires k < |rows| && idx < cols
      requires rows[k][idx] == Blank
      modifies this
      ensures Valid()
      ensures rows == old(rows)[k := old(rows)[k][idx := PictureCell(image, width, height)]]
    {
      rows := rows[k := rows[k][idx := PictureCell(image, width, height)]];
    }
  }

  class Document {
    var blocks: seq<Block>
    /** The path the document was last saved to, if any. */
    var savedAs: Option<string>

    /** An empty, unsaved document. */
    constructor ()
      ensures blocks == [] && savedAs == None
    {
      blocks := [];
      savedAs := None;
    }

    method AddHeading(text: string, level: nat)
      modifies this
      ensures blocks == old(blocks) + [Heading(text, level)]
      ensures savedAs == old(savedAs)
    {
      blocks := blocks + [Heading(text, level)];
    }

    method AddParagraph(text: string)
      modifies this
      ensures blocks == old(blocks) + [Paragraph(text)]
      ensures savedAs == old(savedAs)
    {
      blocks := blocks + [Paragraph(text)];
    }

    method AddPicture(image: Image, width: real, height: real)
      modifies this
      ensures blocks == old(blocks) + [Picture(image, width, height)]
      ensures savedAs == old(savedAs)
    {
      blocks := blocks + [Picture(image, width, height)];
    }

    /** Appends a new table of `rowCount` empty rows of `cols` cells and returns it. */
    method AddTable(rowCount: nat, cols: nat) returns (t: Table)
      modifies this
      ensures fresh(t) && t.Valid()
      ensures t.cols == cols && t.rows == seq(rowCount, _ => BlankRow(cols))
      ensures blocks == old(blocks) + [Grid(t)]
      ensures savedAs == old(savedAs)
    {
      t := new Table(rowCount, cols);
      blocks := blocks + [Grid(t)];
    }

    /** Writes the document to `path`; its content is unchanged. */
    method Save(path: string)
      modifies this
      ensures savedAs == Some(path)
      ensures blocks == old(blocks)
    {
      savedAs := Some(path);
    }
  }
}
