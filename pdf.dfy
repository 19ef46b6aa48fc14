/** `gerarPDF`: the report as the list of drawing calls it makes on the
    document, in order. The rendering itself, the image-load waits and the
    price formatting belong to the PDF library and are not modelled. */
module Pdf {
  import opened Products

  /** The text drawn by one `doc.text` call. */
  datatype Line = Title | IdLine(id: int) | NameLine(nome: string) | PriceLine(preco: string)

  /** One call on the document: `setFontSize`, `text`, `addImage` or `save`. */
  datatype Op =
    | FontSize(size: int)
    | Text(line: Line, x: int, y: int)
    | Image(data: string, format: string, x: int, y: int, width: int, height: int)
    | Save(fileName: string)

  /** The calls made for a product list `ps`: the title once, then for the
      i-th product its three text lines at 30 + 50i, +6 and +12, its barcode
      (60 by 20) at +18 and its QR code (25 by 25) at +15; then the save. */
  method GeneratePdf(ps: seq<Product>) returns (doc: seq<Op>)
    ensures |doc| == 3 + 5 * |ps|
    ensures doc[0] == FontSize(16) && doc[1] == Text(Title, 60, 15)
    ensures doc[|doc| - 1] == Save("equipamentos.pdf")
    ensures forall i :: 0 <= i < |ps| ==>
              doc[2 + 5 * i] == Text(IdLine(ps[i].id), 10, 30 + 50 * i) &&
              doc[3 + 5 * i] == Text(NameLine(ps[i].nome), 10, 36 + 50 * i) &&
              doc[4 + 5 * i] == Text(PriceLine(ps[i].preco), 10, 42 + 50 * i) &&
              doc[5 + 5 * i] == Image(ps[i].barcode, "PNG", 10, 48 + 50 * i, 60, 20) &&
              doc[6 + 5 * i] == Image(ps[i].qrcode, "PNG", 80, 45 + 50 * i, 25, 25)
  {
    doc := [FontSize(16), Text(Title, 60, 15)];
    var y := 30;
    for n := 0 to |ps|
      invariant y == 30 + 50 * n
      invariant |doc| == 2 + 5 * n
      invariant doc[0] == FontSize(16) && doc[1] == Text(Title, 60, 15)
      invariant forall i :: 0 <= i < n ==>
                  doc[2 + 5 * i] == Text(IdLine(ps[i].id), 10, 30 + 50 * i) &&
                  doc[3 + 5 * i] == Text(NameLine(ps[i].nome), 10, 36 + 50 * i) &&
                  doc[4 + 5 * i] == Text(PriceLine(ps[i].preco), 10, 42 + 50 * i) &&
                  doc[5 + 5 * i] == Image(ps[i].barcode, "PNG", 10, 48 + 50 * i, 60, 20) &&
                  doc[6 + 5 * i] == Image(ps[i].qrcode, "PNG", 80, 45 + 50 * i, 25, 25)
    {
      var p := ps[n];
      doc := doc + [Text(IdLine(p.id), 10, y), Text(NameLine(p.nome), 10, y + 6),
                    Text(PriceLine(p.preco), 10, y + 12),
                    Image(p.barcode, "PNG", 10, y + 18, 60, 20),
                    Image(p.qrcode, "PNG", 80, y + 15, 25, 25)];
      y := y + 50;
    }
    doc := doc + [Save("equipamentos.pdf")];
  }
}
