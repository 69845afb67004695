/** Category service: find/insert/update/delete with no authorization check. */
module CategoriaService {
  import opened Wrappers
  import opened Exceptions
  import opened Repository
  import opened Domain

  const POSSUI_PRODUTOS := "Não é possivel excluir uma categoria que possui produtos"

  /** Every row sits under its own id and the generator is ahead of every key. */
  ghost predicate Valid(t: Table<Categoria>) {
    KeysBelowNext(t) && forall k :: k in t.rows ==> t.rows[k].id == k
  }

  /** Some product still lists the category: deleting it would break the join table's
      foreign key. */
  predicate HasProdutos(produtos: Table<Produto>, id: int) {
    exists k :: k in produtos.rows && id in produtos.rows[k].categorias
  }

  /** find: the stored category, or not-found naming the id and the class. */
  function Find(t: Table<Categoria>, id: int): (r: Result<Categoria>)
    ensures r.Ok? <==> id in t.rows
    ensures r.Ok? ==> r.value == t.rows[id]
    ensures r.Err? ==> r.error == ObjectNotFound(id, CATEGORIA_CLASS)
  {
    match FindById(t, id)
    case Some(c) => Ok(c)
    case None => Err(ObjectNotFound(id, CATEGORIA_CLASS))
  }

  /** insert: the client-supplied id is cleared and the generator picks the key; exactly one
      new row appears and the existing ones are untouched. */
  function Insert(t: Table<Categoria>, obj: Categoria): (r: Reply<Categoria, Categoria>)
    ensures r.result.Ok? && r.result.value.nome == obj.nome
    ensures KeysBelowNext(t) ==> r.result.value.id !in t.rows
    ensures r.table.rows.Keys == t.rows.Keys + {r.result.value.id}
    ensures r.table.rows[r.result.value.id] == r.result.value
    ensures KeysBelowNext(t) ==> forall k :: k in t.rows ==> r.table.rows[k] == t.rows[k]
    ensures Valid(t) ==> Valid(r.table)
  {
    var saved := obj.(id := t.next);
    Reply(SaveNew(t, saved), Ok(saved))
  }

  /** The field update copies onto the stored category: the name. */
  function UpdateData(categoria: Categoria, obj: Categoria): (r: Categoria)
    ensures r.nome == obj.nome && r.id == categoria.id
  {
    categoria.(nome := obj.nome)
  }

  /** update as written: find checks the id exists and the stored category receives the
      incoming name, but it is the incoming object, not that merged copy, that is saved.
      UpdateSavesMergedCopy relates the two. */
  function Update(t: Table<Categoria>, obj: Categoria): (r: Reply<Categoria, Categoria>)
    ensures obj.id !in t.rows <==> r.result == Err(ObjectNotFound(obj.id, CATEGORIA_CLASS))
    ensures r.result.Err? ==> r.table == t
    ensures r.result.Ok? <==> obj.id in t.rows
    ensures r.result.Ok? ==>
      && r.result.value == obj
      && r.table.rows.Keys == t.rows.Keys
      && r.table.rows[obj.id] == obj
      && (forall k :: k in t.rows && k != obj.id ==> r.table.rows[k] == t.rows[k])
    ensures Valid(t) ==> Valid(r.table)
  {
    match Find(t, obj.id)
    case Err(e) => Reply(t, Err(e))
    case Ok(_) =>
      Reply(SaveExisting(t, obj.id, obj), Ok(obj))
  }

  /** delete: find first, then the delete, which fails with a data integrity error while a
      product still belongs to the category. */
  function Delete(t: Table<Categoria>, produtos: Table<Produto>, id: int): (r: Reply<Categoria, ()>)
    ensures id !in t.rows <==> r.result == Err(ObjectNotFound(id, CATEGORIA_CLASS))
    ensures id in t.rows && HasProdutos(produtos, id) <==> r.result == Err(DataIntegrity(POSSUI_PRODUTOS))
    ensures r.result.Err? ==> r.table == t
    ensures r.result.Ok? <==> id in t.rows && !HasProdutos(produtos, id)
    ensures r.result.Ok? ==> r.table.rows == t.rows - {id} && r.table.next == t.next
    ensures Valid(t) ==> Valid(r.table)
  {
    match Find(t, id)
    case Err(e) => Reply(t, Err(e))
    case Ok(_) =>
      if HasProdutos(produtos, id) then Reply(t, Err(DataIntegrity(POSSUI_PRODUTOS)))
      else Reply(DeleteById(t, id), Ok(()))
  }

  /** fromDTO: copies the id and the name. */
  function FromDto(dto: CategoriaDto): (c: Categoria)
    ensures c.id == dto.id && c.nome == dto.nome
  {
    Categoria(dto.id, dto.nome)
  }

  /** For a successful update the saved object and the merged copy coincide on every field a
      category has, so saving the incoming object loses nothing here. */
  lemma UpdateSavesMergedCopy(t: Table<Categoria>, obj: Categoria)
    requires obj.id in t.rows && Valid(t)
    ensures Update(t, obj).table.rows[obj.id] == UpdateData(t.rows[obj.id], obj)
  {
  }

  /** Once a category has been deleted no later delete of it can succeed: the second call
      reports it missing. */
  lemma DeleteTwiceNotFound(t: Table<Categoria>, produtos: Table<Produto>, id: int)
    requires Delete(t, produtos, id).result.Ok?
    ensures Delete(Delete(t, produtos, id).table, produtos, id).result == Err(ObjectNotFound(id, CATEGORIA_CLASS))
  {
  }

  /** insert discards the client-supplied id: two requests that differ only in it have the
      same effect. */
  lemma InsertIgnoresClientId(t: Table<Categoria>, obj: Categoria, clientId: int)
    ensures Insert(t, obj.(id := clientId)) == Insert(t, obj)
  {
  }

  /** Updating from a DTO whose id is stored succeeds and leaves the DTO's name under that id,
      returned and stored. */
  lemma UpdateFromDtoStoresName(t: Table<Categoria>, dto: CategoriaDto)
    requires dto.id in t.rows
    ensures var r := Update(t, FromDto(dto));
      && r.result == Ok(Categoria(dto.id, dto.nome))
      && r.table.rows[dto.id].nome == dto.nome
      && r.table.rows[dto.id].id == dto.id
  {
  }
}
