/** `renderTabela`: one table row per product, in list order, each with an
    edit and a delete button that pass the product's id to the handlers. */
module Table {
  import opened Wrappers
  import opened Products

  /** One `<tr>`: the cells shown and the argument each button passes. */
  datatype Row = Row(id: int, nome: string, preco: string, barcode: string, qrcode: string,
                     editArg: int, deleteArg: int)

  /** The rows of the table for the list `ps`. */
  function Rows(ps: seq<Product>): (r: seq<Row>)
    ensures |r| == |ps|
    ensures forall k :: 0 <= k < |ps| ==>
              r[k].id == ps[k].id && r[k].nome == ps[k].nome && r[k].preco == ps[k].preco &&
              r[k].barcode == ps[k].barcode && r[k].qrcode == ps[k].qrcode
    ensures forall k :: 0 <= k < |ps| ==> r[k].editArg == ps[k].id && r[k].deleteArg == ps[k].id
  {
    if ps == [] then []
    else
      var p := ps[0];
      [Row(p.id, p.nome, p.preco, p.barcode, p.qrcode, p.id, p.id)] + Rows(ps[1..])
  }

  /** With distinct ids, the edit button of row `k` edits record `k`: the
      `find` on the id it passes lands on that record. */
  lemma EditButtonFindsItsRecord(ps: seq<Product>, k: nat)
    requires IdsDistinct(ps) && k < |ps|
    ensures FindFirst(ps, Rows(ps)[k].editArg) == Some(k)
  {
  }

  /** With distinct ids, the delete button of row `k` removes exactly record
      `k` and nothing else. */
  lemma DeleteButtonRemovesItsRecord(ps: seq<Product>, k: nat)
    requires IdsDistinct(ps) && k < |ps|
    ensures Without(ps, Rows(ps)[k].deleteArg) == ps[..k] + ps[k + 1..]
  {
    WithoutRemovesExactlyOne(ps, k);
  }

  /** After a product is appended the table has one more row, the new one
      last, and the earlier rows are as before. */
  lemma {:induction false} RowsAppend(ps: seq<Product>, p: Product)
    ensures Rows(ps + [p]) == Rows(ps) + Rows([p])
  {
    if ps == [] {
      assert ps + [p] == [p];
    } else {
      assert (ps + [p])[1..] == ps[1..] + [p];
      RowsAppend(ps[1..], p);
    }
  }
}
