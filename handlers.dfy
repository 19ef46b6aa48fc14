/** The page's state, the list `produtos`, and the three handlers that change
    it: the form's submit handler (with `gerarCodigo`, which appends),
    `editarProduto` and `deletarProduto`. What the user types, answers to
    `prompt` and `confirm`, the `Date.now()` id and the rendered image data
    URIs are parameters. */
module Handlers {
  import opened Text
  import opened Wrappers
  import opened Products

  /** How the submit handler ends: an alert for an empty field, an alert
      for a name already registered, or a new record appended. */
  datatype SubmitOutcome = MissingField | AlreadyRegistered | Registered

  /** How `editarProduto` ends: no record has the id (the lookup result is
      dereferenced and the handler throws before prompting), a prompt was
      cancelled or left empty, the name belongs to a record with another id
      (alert), or record `index` was updated. */
  datatype EditOutcome = NotFound | Cancelled | NameTaken | Updated(index: nat)

  /** JavaScript truthiness of a `prompt` answer: `null` (cancel) and the
      empty string are falsy; anything else, blanks included, is truthy. */
  predicate Answered(a: Option<string>)
    ensures !Answered(a) <==> a == None || a == Some("")
  {
    a.Some? && a.value != []
  }

  class Registry {
    var produtos: seq<Product>

    /** Page load: the list saved in storage, or the empty list when
        nothing is stored. */
    constructor (saved: Option<seq<Product>>)
      ensures produtos == (if saved.Some? then saved.value else [])
    {
      produtos := if saved.Some? then saved.value else [];
    }

    /** The form's submit handler: trim both fields, refuse an empty one,
        refuse a name already stored (up to case), otherwise append the new
        record at the end. */
    method Submit(nomeField: string, precoField: string, id: int, barcode: string, qrcode: string)
      returns (outcome: SubmitOutcome)
      modifies this
      ensures outcome == MissingField <==> Trim(nomeField) == [] || Trim(precoField) == []
      ensures outcome == AlreadyRegistered <==>
                Trim(nomeField) != [] && Trim(precoField) != [] &&
                exists k :: 0 <= k < |old(produtos)| && SameName(old(produtos)[k].nome, Trim(nomeField))
      ensures outcome == Registered ==>
                produtos == old(produtos) + [Product(id, Trim(nomeField), Trim(precoField), barcode, qrcode)]
      ensures outcome != Registered ==> produtos == old(produtos)
      ensures NamesDistinct(old(produtos)) ==> NamesDistinct(produtos)
      ensures IdsDistinct(old(produtos)) && !HasId(old(produtos), id) ==> IdsDistinct(produtos)
    {
      var nome := Trim(nomeField);
      var preco := Trim(precoField);
      if nome == [] || preco == [] {
        return MissingField;
      }
      if HasName(produtos, nome) {
        return AlreadyRegistered;
      }
      var p := Product(id, nome, preco, barcode, qrcode);
      if NamesDistinct(produtos) {
        AppendKeepsNamesDistinct(produtos, p);
      }
      if IdsDistinct(produtos) && !HasId(produtos, id) {
        AppendKeepsIdsDistinct(produtos, p);
      }
      produtos := produtos + [p];
      outcome := Registered;
    }

    /** `editarProduto(id)`: find the first record with the id, take the new
        name and then the new price from the prompts (stopping at the first
        empty or cancelled answer), refuse a name that a record with another
        id has (up to case), otherwise overwrite that record's name and price
        and nothing else. Neither answer is trimmed. */
    method EditProduct(id: int, novoNome: Option<string>, novoPreco: Option<string>)
      returns (outcome: EditOutcome)
      modifies this
      ensures outcome == NotFound <==> !HasId(old(produtos), id)
      ensures outcome == Cancelled <==>
                HasId(old(produtos), id) && (!Answered(novoNome) || !Answered(novoPreco))
      ensures outcome == NameTaken <==>
                HasId(old(produtos), id) && Answered(novoNome) && Answered(novoPreco) &&
                exists k :: 0 <= k < |old(produtos)| && old(produtos)[k].id != id &&
                            SameName(old(produtos)[k].nome, novoNome.value)
      ensures outcome.Updated? ==>
                var i := outcome.index;
                i < |old(produtos)| && old(produtos)[i].id == id &&
                (forall k :: 0 <= k < i ==> old(produtos)[k].id != id) &&
                produtos == old(produtos)[i := old(produtos)[i].(nome := novoNome.value, preco := novoPreco.value)]
      ensures !outcome.Updated? ==> produtos == old(produtos)
      ensures NamesDistinct(old(produtos)) && IdsDistinct(old(produtos)) ==>
                NamesDistinct(produtos) && IdsDistinct(produtos)
    {
      var found := FindFirst(produtos, id);
      if found.None? {
        return NotFound;
      }
      var i := found.value;
      if !Answered(novoNome) {
        return Cancelled;
      }
      if !Answered(novoPreco) {
        return Cancelled;
      }
      var nome, preco := novoNome.value, novoPreco.value;
      if HasNameOtherThan(produtos, nome, id) {
        return NameTaken;
      }
      if NamesDistinct(produtos) && IdsDistinct(produtos) {
        RenameKeepsNamesDistinct(produtos, i, nome, preco);
      }
      produtos := produtos[i := produtos[i].(nome := nome, preco := preco)];
      outcome := Updated(i);
    }

    /** `deletarProduto(id)`: without confirmation nothing happens; with it
        the list becomes the records whose id differs, in their order. */
    method DeleteProduct(id: int, confirmed: bool)
      modifies this
      ensures produtos == if confirmed then Without(old(produtos), id) else old(produtos)
      ensures NamesDistinct(old(produtos)) ==> NamesDistinct(produtos)
      ensures IdsDistinct(old(produtos)) ==> IdsDistinct(produtos)
    {
      if !confirmed {
        return;
      }
      if NamesDistinct(produtos) {
        WithoutKeepsNamesDistinct(produtos, id);
      }
      if IdsDistinct(produtos) {
        WithoutKeepsIdsDistinct(produtos, id);
      }
      produtos := Without(produtos, id);
    }
  }
}
