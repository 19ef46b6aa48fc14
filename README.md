# Product registry (Sistema de armazenamento), modelled in Dafny

The system is a browser page that keeps a list of products, `produtos`, each
a record `{id, nome, preco, barcode, qrcode}`. A form registers a product
under a timestamp id, with a barcode and a QR code rendered from that id. A
table lists every product with an edit and a delete button, and a button
exports the list as a PDF report. This project models the list and the
logic acting on it:

- `Text` holds `trim` over the ECMAScript whitespace set and `toLowerCase`,
  the two string built-ins the validation relies on.
- `Products` holds the record and the list queries the handlers use: the two
  duplicate-name `some` checks, the `find` by id and the deleting `filter`.
  It also holds the lemmas that each change keeps the names (up to case)
  and the ids pairwise distinct.
- `Handlers.Registry` is a class whose field `produtos` is the page's list.
  Its methods are the form's submit handler (append through `gerarCodigo`),
  `editarProduto` and `deletarProduto`. Each states its full outcome and
  new list, and that it keeps distinct names distinct.
- `Table` holds `renderTabela` as the list of rows it produces, and what
  the buttons in a row address.
- `Pdf` holds `gerarPDF` as the sequence of drawing calls it makes, with
  the positions produced by its vertical cursor.

Inputs from the user and the browser are parameters: the two form fields,
the answers to `prompt` (`None` for cancel) and `confirm`, the `Date.now()`
id, and the barcode and QR data URIs.

Behaviour of the code worth knowing, which the model keeps:
- `deletarProduto` removes every record carrying the id. With distinct ids
  that is exactly one record (`Products.WithoutRemovesExactlyOne`).
- `editarProduto` on an id not in the list dereferences `undefined` and
  throws before any prompt, so nothing changes. The model returns
  `NotFound` for this call and leaves the list as it was.
- `editarProduto` neither trims its answers nor rejects a blank name such
  as `"  "`; only `null` and `""` abort it. The submit handler's trimming
  and emptiness checks are not applied to edits.
- Name uniqueness survives an edit only when ids are distinct. The edit
  check skips every record with the edited id, while `find` updates only
  the first one. `Products.RenameWithSharedIdBreaksNames` shows the case.

## Model

| member | source | states |
|---|---|---|
| `Text.IsWhitespace` | sistema/main.js:95-96 | the characters `trim` strips; among ASCII they are exactly space and U+0009..U+000D, and no letter or digit is one |
| `Text.TextStart` | sistema/main.js:95-96 | the index returned is at or after the start index, everything skipped is whitespace, and the character there is not whitespace (or the string has ended) |
| `Text.TextEnd` | sistema/main.js:95-96 | going back from the end index, everything skipped is whitespace, and the character before the index returned is not whitespace unless the lower bound was reached |
| `Text.Trim` | sistema/main.js:95-96 | `trim` returns the slice of the input between a whitespace prefix and a whitespace suffix, with neither end whitespace |
| `Text.TrimEmptyIffBlank` | sistema/main.js:95-102 | a field is empty after trimming exactly when it held only whitespace, so the "fill all fields" check rejects exactly the blank fields |
| `Text.TrimOfTrimmed` | sistema/main.js:95-96 | trimming a string with no whitespace at either end returns it unchanged |
| `Text.TrimIdempotent` | sistema/main.js:95-96 | trimming twice gives the same string as trimming once |
| `Text.LowerChar` | sistema/main.js:106 | a capital letter (Basic Latin or Latin-1) maps to the letter 0x20 above it, which is not a capital; every other character is unchanged |
| `Text.Lower` | sistema/main.js:106 | `toLowerCase` keeps the length, leaves no capital letter, lowers each capital by 0x20 and keeps every other character |
| `Text.LowerIdempotent` | sistema/main.js:106 | lower-casing a lower-cased string changes nothing |
| `Text.SameName` | sistema/main.js:106 | the lower-cased `===` holds exactly when both names have the same length and the characters at each position have the same lower case |
| `Handlers.Answered` | sistema/main.js:132-138 | a `prompt` answer lets the edit go on exactly when it is neither `null` (cancel) nor the empty string; blank answers do go on |
| `Products.HasName` | sistema/main.js:104-107 | the create-time check is true exactly when some stored name equals the new name up to case |
| `Products.HasNameOtherThan` | sistema/main.js:140-142 | the edit-time check is true exactly when some record with a different id has a name equal to the new one up to case |
| `Products.FindFirst` | sistema/main.js:129 | `find` by id gives the first record with that id, and nothing exactly when no record has it |
| `Products.Without` | sistema/main.js:162 | the `filter` keeps exactly the records whose id differs, and never grows the list |
| `Products.AppendKeepsNamesDistinct` | sistema/main.js:104-112 | appending a record that passed the duplicate check keeps stored names pairwise distinct up to case |
| `Products.AppendKeepsIdsDistinct` | sistema/main.js:56-80 | appending a record under an id no stored record has keeps ids pairwise distinct |
| `Products.RenameKeepsNamesDistinct` | sistema/main.js:140-148 | an edit that passed the duplicate check keeps names distinct up to case when ids are distinct, and leaves ids distinct |
| `Products.RenameWithSharedIdBreaksNames` | sistema/main.js:140-148 | when two records share an id, renaming the first to the other's name passes the edit check and leaves two names equal up to case |
| `Products.WithoutConcat` | sistema/main.js:162 | deleting from a concatenation is the concatenation of the deletions, so the kept records keep their relative order |
| `Products.WithoutAbsent` | sistema/main.js:162 | deleting an id no record has leaves the list unchanged |
| `Products.WithoutRemovesExactlyOne` | sistema/main.js:162 | with distinct ids, deleting record k's id gives the list without record k, one shorter, with the rest in order |
| `Products.WithoutKeepsNamesDistinct` | sistema/main.js:157-166 | deleting keeps stored names pairwise distinct up to case |
| `Products.WithoutKeepsIdsDistinct` | sistema/main.js:157-166 | deleting keeps ids pairwise distinct |
| `Table.Rows` | sistema/main.js:28-47 | one row per product, in list order; row k shows product k's id, name, price and both images, and both its buttons pass product k's id |
| `Table.EditButtonFindsItsRecord` | sistema/main.js:41 | with distinct ids, the id passed by row k's edit button is found at index k |
| `Table.DeleteButtonRemovesItsRecord` | sistema/main.js:42 | with distinct ids, row k's delete button removes record k and nothing else |
| `Table.RowsAppend` | sistema/main.js:30-47 | the table of a list with one product appended is the old table plus that product's row at the end |
| `Pdf.GeneratePdf` | sistema/main.js:170-212 | the report has a title at (60, 15) in size 16; product i's id, name and price lines are at y = 30+50i, +6 and +12; its 60x20 barcode is at +18 and its 25x25 QR code at +15; the report ends with saving `equipamentos.pdf` |
| `Handlers.Registry.constructor` | sistema/main.js:22 | the list starts as the stored list, or empty when nothing is stored |
| `Handlers.Registry.Submit` | sistema/main.js:90-118 | an empty trimmed field or a name stored up to case leaves the list unchanged with the matching alert; otherwise exactly one record with the trimmed name and price is appended; distinct names stay distinct |
| `Handlers.Registry.EditProduct` | sistema/main.js:127-153 | an unknown id, a cancelled or empty answer, or a name held by another id leaves every record unchanged; otherwise only name and price of the first record with the id change; distinct names stay distinct when ids are distinct |
| `Handlers.Registry.DeleteProduct` | sistema/main.js:157-166 | without confirmation nothing changes; with it the list is exactly the records with another id, in their order; distinctness is kept |

## Left out

- DOM access, the `innerHTML` markup, `alert`, event listeners and the "Gerar ID" button. The button re-dispatches submit, so it is the same handler. Prompt and confirm answers and the outcome of each handler stand for them.
- `localStorage` and `JSON.parse`/`JSON.stringify`. The constructor takes the stored list as a parameter, and the save after each render is not modelled. The save-then-load round trip is a property of the browser and the serialiser, not of this code.
- JsBarcode, QRCodeJS, the canvas `toDataURL` calls and the jsPDF drawing and saving. Images are opaque strings, and the PDF is the list of calls made on the document.
- The 150 ms `setTimeout` before the append and the `await Promise.all` image-load waits. Create is modelled as one atomic step that validates and appends, and export as one sequential pass. What the model therefore does not capture:
  - In the code, a second submit or an `editarProduto` call inside the 150 ms window checks names against a list that does not yet hold the pending record. Two names equal up to case can then result. The distinct-names guarantees of `Handlers.Registry.Submit` and `Handlers.Registry.EditProduct` hold only for create as one step.
  - `gerarPDF` walks the live array across its `await`s, so a record appended during an image wait is exported too. `Pdf.GeneratePdf` lays out a fixed list.
  - If an image never fires `onload` (for example an empty `qrcode` left by the 150 ms wait), `gerarPDF` waits forever and the file is never saved. `Pdf.GeneratePdf` always ends with the save.
- `Number(preco).toFixed(2)` in the table and the report. This is floating-point formatting, so rows and report lines carry the price as stored.
- `Date.now()`. The id is a parameter. Distinct ids after a create are guaranteed only when the id is new (`Handlers.Registry.Submit`), because the code never checks this.
- `Text.LowerChar`: every character other than U+0041-U+005A, U+00C0-U+00D6 and U+00D8-U+00DE is its own lower case. `toLowerCase` also lowers the other Unicode capitals: Latin Extended letters such as U+0100, U+0141, U+0152 and U+0178, Greek, Cyrillic, and signs such as U+212A and U+212B. So names differing only in those letters' case are duplicates in the code but not in the model.
- `Text.Lower`: has the same mapping and always keeps the length. `toLowerCase` lengthens U+0130, which the model keeps as it is.
- `Pdf.GeneratePdf`: has no pagination, as in the code. Products past the page end get coordinates beyond it.
