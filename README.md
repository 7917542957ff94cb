# PavloviaSignReport rendering core, modelled in Dafny

PavloviaSignReport turns tabular records, such as experiment sign-up rows with a phone number
and a drawn signature, into Word documents. It writes one document per record and one summary
document holding a table of all records. This project models the rendering core
(`document_creator.py`) and the settings it consumes (`settings.py`), and proves what these
documents look like.

- `settings.dfy` (`Settings`): the two column types STRING and IMAGE, the document settings
  (identifier column, title, picture size defaulting to 4 x 3), and the column settings
  (record key, optional display name, type).
- `records.dfy` (`Records`): a record maps column names to values. A value is either text or a
  non-string value (a number, or NaN for an empty cell) shown through Python's `str()`.
- `image_payload.dfy` (`ImagePayload`): cuts the PNG data-URI marker out of a field's text,
  modelling Python's `str.replace(marker, "")`. The scan is proved equal to a find-based
  reference definition. The payload is then handed to the decoder. Base64 decoding, opening
  the bytes with PIL and staging the picture are foreign code, so the decoder is a function
  parameter (`Decoder = string -> Option<Image>`) that the model assumes nothing about.
- `docx.dfy` (`Docx`): the document-build API as two classes. A `Document` holds a sequence of
  blocks (heading, paragraph, picture, table) plus the path it was saved to. A `Table` holds
  rows of cells that are written in place.
- `document_creator.dfy` (`DocumentCreator`): the two renderers as methods whose loops append
  to a `Document` or `Table`. Each is proved equal to a specification function: `RowBlocks`
  for a record's document and `SummaryRows` for the summary table. Lemmas state the layout,
  the dispatch and the fallbacks, the error behaviour and the output paths.

The code has a few behaviours worth noting:

- `str.replace` removes every occurrence of the marker, not only a leading one. It makes a
  single pass, so a marker nested inside another one can survive.
- A payload with any other scheme prefix reaches the decoder unchanged.
- A record that lacks a column's key aborts that document with `KeyError`, and nothing is
  saved. In an IMAGE column the `KeyError` is caught and then raised again by the handler's
  own read. The model returns this as `err`.
- A missing display name prints as `None` in a record's paragraph, because of the f-string.

## Model

| member | source | states |
|---|---|---|
| `Settings.ColumnTypeIsClosed` | settings.py:8-12 | every column type is STRING or IMAGE and never both, so the two-way dispatch covers every column |
| `Settings.DefaultImageSize` | settings.py:15-22 | settings built from the identifier column and title alone keep those two and get a 4 x 3 picture size |
| `ImagePayload.RemoveAll` | document_creator.py:38-40 | removing the marker never makes the text longer |
| `ImagePayload.Find` | document_creator.py:38-40 | the search returns an occurrence with no earlier one, and it returns none exactly when the text does not contain the marker |
| `ImagePayload.RemoveAllWithoutOccurrence` | document_creator.py:38-40 | text with no occurrence passes through unchanged |
| `ImagePayload.RemoveAllSkipsToFirst` | document_creator.py:38-40 | the text before the first occurrence is kept, the occurrence is dropped, and removal continues after it |
| `ImagePayload.RemoveAllMatchesFind` | document_creator.py:38-40 | the character scan equals the find-based reference definition ("keep the text before the leftmost occurrence, drop it, repeat") on every input |
| `ImagePayload.RemoveAllUnchangedIff` | document_creator.py:38-40 | removal leaves the text unchanged if and only if the pattern does not occur in it |
| `ImagePayload.StripMarkerUnchangedIff` | document_creator.py:37-41 | bare base64, or a payload with another scheme prefix, reaches the decoder unchanged; a payload with the PNG marker anywhere does not |
| `ImagePayload.StripMarkerAtFirstOccurrence` | document_creator.py:38-40 | a marker in the middle is cut too: the text before it is kept, stripping continues after it, and the result is shorter |
| `ImagePayload.StripMarkerLeading` | document_creator.py:38-40 | a leading marker is removed |
| `Docx.Table.AddRow` | document_creator.py:78 | appends one empty row of one cell per column and returns its index |
| `Docx.Table.SetText` | document_creator.py:81 | replaces one cell by text and changes nothing else |
| `Docx.Table.AddPicture` | document_creator.py:94-98 | puts one picture into one empty cell and changes nothing else |
| `Docx.Document.AddHeading` | document_creator.py:30 | appends one heading block at the end |
| `Docx.Document.AddParagraph` | document_creator.py:34 | appends one paragraph block at the end |
| `Docx.Document.AddPicture` | document_creator.py:47-51 | appends one picture block of the given size at the end |
| `Docx.Document.AddTable` | document_creator.py:70 | appends a fresh table of the given number of empty rows and columns |
| `Docx.Document.Save` | document_creator.py:58 | records the path written to; the content is unchanged |
| `DocumentCreator.MissingColumn` | document_creator.py:32-34 | reports no key exactly when the record has every column; a reported key is not in the record |
| `DocumentCreator.MissingColumnAt` | document_creator.py:32-56 | keys are read in column order: the first absent column is the one reported |
| `DocumentCreator.RowKeyError` | document_creator.py:32-58 | a record's document fails exactly when a column key or the identifier key is missing, and it names a missing key |
| `DocumentCreator.TableKeyError` | document_creator.py:77-103 | the summary fails exactly when some record lacks some column, and it names a key that record lacks |
| `DocumentCreator.TableKeyErrorAt` | document_creator.py:77-103 | records are read in order, each in column order: the first gap is the key reported |
| `DocumentCreator.CreateSingleDoc` | document_creator.py:22-58 | the document built is `RowBlocks`, saved at `<folder>/<identifier>.docx`; a missing key is reported as the first missing key, and then nothing is saved |
| `DocumentCreator.RowDocumentLayout` | document_creator.py:29-56 | title as a level-0 heading, then exactly one block per column in order: `<label>: <value>` for STRING; for IMAGE, a picture at the settings' size or else that same paragraph |
| `DocumentCreator.RowPicturesComeFromDecodedImages` | document_creator.py:41-51 | no heading but the title; every picture belongs to an IMAGE column whose value decoded to that image, at the settings' width and height |
| `DocumentCreator.ImageFallbackIsStringRendering` | document_creator.py:36-56 | an IMAGE field that does not decode renders exactly as a STRING field, in both renderers |
| `DocumentCreator.NonStringValueFallsBack` | document_creator.py:37-40 | a non-string value, where `.replace` fails, falls back to its `str()` text in both renderers |
| `DocumentCreator.RowDocPathInjective` | document_creator.py:58 | two records go to the same file in a folder if and only if their identifiers print the same |
| `DocumentCreator.RowDocPathMeetsSummary` | document_creator.py:58 | a record's document lands on the summary's path if and only if its identifier prints as `summary` |
| `DocumentCreator.WriteHeader` | document_creator.py:73-75 | the header row ends up holding the display names in column order |
| `DocumentCreator.WriteBodyRow` | document_creator.py:78-103 | the new row ends up holding each column's body cell in order, other rows are untouched, and a missing key is reported at its column |
| `DocumentCreator.CreateDocWithTable` | document_creator.py:61-105 | the document is the title heading followed by the table; the table has `len(columns)` columns and its rows are `SummaryRows`, saved at `<folder>/summary.docx`; a missing key is reported as the first gap, and then nothing is saved |
| `DocumentCreator.SummaryLayout` | document_creator.py:70-81 | `1 + len(records)` rows, each with one cell per column: the display names first, then each record's cells in record order |
| `DocumentCreator.BodyCellDispatch` | document_creator.py:79-103 | a STRING cell holds `str(value)` with no label; a decoded image gives one 2.0 x 2.0 picture, whatever the settings say; a failed image gives `str(value)` |
| `DocumentCreator.RowAndTableAgree` | document_creator.py:79-103 | for the same field, both renderers give a picture of the same image or both give text, and the record's paragraph is the table text behind the label |

## Left out

- Base64 decoding, `Image.open` and the PNG re-encoding are foreign code. They are the `Decoder` parameter, and no claim is made about their bit-level behaviour (RFC 4648 or PNG).
- File-system effects are not modelled: `img.save` and `os.remove` of the temporary picture, and the bytes `doc.save` writes. Only the output path is modelled. The temporary file is not removed when embedding fails, and the model makes no claim about it.
- `os.remove` raising after the picture was added (which leaves a picture and also the fallback paragraph) is not modelled. The decoder stands for every step up to and including `add_picture`, and removal is taken to succeed.
- Failures of the document-build API itself and of saving (for example an unwritable folder) are not modelled. The only failure the model propagates is the `KeyError` of a missing key.
- `print(e)` logging, the "Table Grid" style and the `Inches` unit conversion are left out. Sizes are real numbers of inches.
- DocumentCreator.CreateDocWithTable: requires every column to have a display name, because python-docx's handling of `None` as cell text is not part of this model.
- Docx.Table.AddPicture: requires an empty cell. python-docx appends a run to the cell's first paragraph; the renderers only ever add a picture to a freshly added, empty row.
- `CreateSingleDoc` and `CreateDocWithTable` also return the partly built document when a key is missing. The program drops that document, and the model only promises that it was not saved.
- Records are maps from names to values. pandas' other lookups, such as positional fallback on a `Series`, are not modelled, and each non-string value carries its `str()` text.
- main.py (CSV loading, progress bar, folder creation and opening, module-level configuration) is not part of this model.
