/** The product records kept in `produtos` and the three list queries the
    handlers run over them: the duplicate-name `some` checks, the `find` by
    id and the `filter` that deletes. */
module Products {
  import opened Text
  import opened Wrappers

  /** One entry of `produtos`. `id` is the creation timestamp; `barcode` and
      `qrcode` are the PNG data URIs rendered from it, kept as opaque text. */
  datatype Product = Product(id: int, nome: string, preco: string, barcode: string, qrcode: string)

  /** No two records carry names equal up to case: the invariant both
      duplicate checks exist to keep. */
  predicate NamesDistinct(ps: seq<Product>) {
    forall i, j :: 0 <= i < j < |ps| ==> !SameName(ps[i].nome, ps[j].nome)
  }

  /** No two records share an id. The timestamp ids make this likely, but
      nothing in the handlers checks it. */
  predicate IdsDistinct(ps: seq<Product>) {
    forall i, j :: 0 <= i < j < |ps| ==> ps[i].id != ps[j].id
  }

  /** Some record carries the id `id`. */
  predicate HasId(ps: seq<Product>, id: int) {
    exists k :: 0 <= k < |ps| && ps[k].id == id
  }

  /** The create-time duplicate check: some stored name equals `nome` once
      both are lower-cased. */
  function HasName(ps: seq<Product>, nome: string): (r: bool)
    ensures r <==> exists k :: 0 <= k < |ps| && SameName(ps[k].nome, nome)
  {
    if ps == [] then false
    else SameName(ps[0].nome, nome) || HasName(ps[1..], nome)
  }

  /** The edit-time duplicate check: some record whose id differs from `id`
      has a name equal to `nome` up to case. */
  function HasNameOtherThan(ps: seq<Product>, nome: string, id: int): (r: bool)
    ensures r <==> exists k :: 0 <= k < |ps| && SameName(ps[k].nome, nome) && ps[k].id != id
  {
    if ps == [] then false
    else (SameName(ps[0].nome, nome) && ps[0].id != id) || HasNameOtherThan(ps[1..], nome, id)
  }

  /** Position of the record `find` returns for `id`: the first one with
      that id, or none when no record has it. */
  function FindFirst(ps: seq<Product>, id: int): (r: Option<nat>)
    ensures r.None? <==> !HasId(ps, id)
    ensures r.Some? ==> r.value < |ps| && ps[r.value].id == id &&
                        forall k :: 0 <= k < r.value ==> ps[k].id != id
  {
    if ps == [] then None
    else if ps[0].id == id then Some(0)
    else match FindFirst(ps[1..], id)
      case None => None
      case Some(i) => Some(i + 1)
  }

  /** The list after deletion: every record whose id differs from `id`. */
  function Without(ps: seq<Product>, id: int): (r: seq<Product>)
    ensures |r| <= |ps|
    ensures forall p :: p in r <==> p in ps && p.id != id
  {
    if ps == [] then []
    else if ps[0].id == id then Without(ps[1..], id)
    else [ps[0]] + Without(ps[1..], id)
  }

  /** Appending a record whose name no stored name matches keeps the names
      distinct. */
  lemma AppendKeepsNamesDistinct(ps: seq<Product>, p: Product)
    requires NamesDistinct(ps) && !HasName(ps, p.nome)
    ensures NamesDistinct(ps + [p])
  {
    var qs := ps + [p];
    forall i, j | 0 <= i < j < |qs|
      ensures !SameName(qs[i].nome, qs[j].nome)
    {
      if j == |ps| {
        assert !SameName(ps[i].nome, p.nome);
      }
    }
  }

  /** Appending a record with an id no stored record has keeps the ids
      distinct. */
  lemma AppendKeepsIdsDistinct(ps: seq<Product>, p: Product)
    requires IdsDistinct(ps) && !HasId(ps, p.id)
    ensures IdsDistinct(ps + [p])
  {
    var qs := ps + [p];
    forall i, j | 0 <= i < j < |qs|
      ensures qs[i].id != qs[j].id
    {
      if j == |ps| {
        assert qs[i] == ps[i];
      }
    }
  }

  /** Giving record `i` a name that no record with another id matches keeps
      the names distinct, provided the ids are distinct (so that "another
      id" means "another record"), and leaves the ids as they were. */
  lemma RenameKeepsNamesDistinct(ps: seq<Product>, i: nat, nome: string, preco: string)
    requires NamesDistinct(ps) && IdsDistinct(ps)
    requires i < |ps| && !HasNameOtherThan(ps, nome, ps[i].id)
    ensures NamesDistinct(ps[i := ps[i].(nome := nome, preco := preco)])
    ensures IdsDistinct(ps[i := ps[i].(nome := nome, preco := preco)])
  {
    var qs := ps[i := ps[i].(nome := nome, preco := preco)];
    forall a, b | 0 <= a < b < |qs|
      ensures !SameName(qs[a].nome, qs[b].nome)
    {
      if a == i {
        assert ps[b].id != ps[i].id;
      } else if b == i {
        assert ps[a].id != ps[i].id;
      }
    }
  }

  /** Why the rename lemma needs distinct ids: two records sharing id 1,
      named "Mouse" and "Teclado"; renaming the first to "teclado" passes
      the edit-time check (the only match has the same id) and leaves two
      names equal up to case. */
  lemma RenameWithSharedIdBreaksNames()
    ensures var ps := [Product(1, "Mouse", "49.9", "b", "q"), Product(1, "Teclado", "120", "b", "q")];
            NamesDistinct(ps) && !HasNameOtherThan(ps, "teclado", 1) &&
            !NamesDistinct(ps[0 := ps[0].(nome := "teclado")])
  {
    var ps := [Product(1, "Mouse", "49.9", "b", "q"), Product(1, "Teclado", "120", "b", "q")];
    assert Lower("Mouse")[0] == 'm';
    assert Lower("Teclado")[0] == 't';
    assert Lower("teclado") == Lower("Teclado");
    var qs := ps[0 := ps[0].(nome := "teclado")];
    assert SameName(qs[0].nome, qs[1].nome);
  }

  /** Deleting distributes over concatenation: filtering keeps the order of
      what it keeps. */
  lemma {:induction false} WithoutConcat(a: seq<Product>, b: seq<Product>, id: int)
    ensures Without(a + b, id) == Without(a, id) + Without(b, id)
  {
    if a == [] {
      assert a + b == b;
    } else {
      assert (a + b)[1..] == a[1..] + b;
      WithoutConcat(a[1..], b, id);
    }
  }

  /** Deleting an id no record has changes nothing. */
  lemma {:induction false} WithoutAbsent(ps: seq<Product>, id: int)
    requires !HasId(ps, id)
    ensures Without(ps, id) == ps
  {
    if ps != [] {
      WithoutAbsent(ps[1..], id);
    }
  }

  /** With distinct ids, deleting the id of record `k` removes exactly that
      record: the others stay, in their order, and the list is one shorter. */
  lemma WithoutRemovesExactlyOne(ps: seq<Product>, k: nat)
    requires IdsDistinct(ps) && k < |ps|
    ensures Without(ps, ps[k].id) == ps[..k] + ps[k + 1..]
    ensures |Without(ps, ps[k].id)| == |ps| - 1
  {
    var id := ps[k].id;
    assert ps == ps[..k] + ([ps[k]] + ps[k + 1..]);
    WithoutConcat(ps[..k], [ps[k]] + ps[k + 1..], id);
    WithoutConcat([ps[k]], ps[k + 1..], id);
    WithoutAbsent(ps[..k], id);
    var after := ps[k + 1..];
    forall j | 0 <= j < |after| ensures after[j].id != id {
      assert after[j] == ps[k + 1 + j];
    }
    WithoutAbsent(after, id);
  }

  /** Deleting keeps the names distinct: what it keeps is a sub-list of
      what was there. */
  lemma {:induction false} WithoutKeepsNamesDistinct(ps: seq<Product>, id: int)
    requires NamesDistinct(ps)
    ensures NamesDistinct(Without(ps, id))
  {
    if ps != [] {
      var tail := ps[1..];
      forall i, j | 0 <= i < j < |tail| ensures !SameName(tail[i].nome, tail[j].nome) {
        assert tail[i] == ps[i + 1] && tail[j] == ps[j + 1];
      }
      WithoutKeepsNamesDistinct(tail, id);
      if ps[0].id != id {
        var rest := Without(tail, id);
        var r := [ps[0]] + rest;
        forall i, j | 0 <= i < j < |r| ensures !SameName(r[i].nome, r[j].nome) {
          if i == 0 {
            assert r[j] == rest[j - 1] && rest[j - 1] in tail;
            var m :| 0 <= m < |tail| && tail[m] == rest[j - 1];
            assert ps[m + 1] == r[j];
          } else {
            assert r[i] == rest[i - 1] && r[j] == rest[j - 1];
          }
        }
      }
    }
  }

  /** Deleting keeps the ids distinct. */
  lemma {:induction false} WithoutKeepsIdsDistinct(ps: seq<Product>, id: int)
    requires IdsDistinct(ps)
    ensures IdsDistinct(Without(ps, id))
  {
    if ps != [] {
      var tail := ps[1..];
      forall i, j | 0 <= i < j < |tail| ensures tail[i].id != tail[j].id {
        assert tail[i] == ps[i + 1] && tail[j] == ps[j + 1];
      }
      WithoutKeepsIdsDistinct(tail, id);
      if ps[0].id != id {
        var rest := Without(tail, id);
        var r := [ps[0]] + rest;
        forall i, j | 0 <= i < j < |r| ensures r[i].id != r[j].id {
          if i == 0 {
            assert r[j] == rest[j - 1] && rest[j - 1] in tail;
            var m :| 0 <= m < |tail| && tail[m] == rest[j - 1];
            assert ps[m + 1] == r[j];
          } else {
            assert r[i] == rest[i - 1] && r[j] == rest[j - 1];
          }
        }
      }
    }
  }
}
