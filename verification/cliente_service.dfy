/** Customer service: the admin-or-owner guard and the find/insert/update/delete operations
    over the customer table. The authenticated principal is an explicit parameter. */
module ClienteService {
  import opened Wrappers
  import opened Exceptions
  import opened Repository
  import opened Domain

  const ACESSO_NEGADO := "Acesso negado"
  const PEDIDOS_RELACIONADOS := "Não é possivel excluir porque há pedidos relacionads"

  /** Every row sits under its own id and the generator is ahead of every key. */
  ghost predicate Valid(t: Table<Cliente>) {
    KeysBelowNext(t) && forall k :: k in t.rows ==> t.rows[k].id == k
  }

  /** The intended rule: an authenticated principal may see customer `id` when it is an
      administrator or that customer. */
  predicate AdminOrOwner(user: Option<UserSS>, id: int) {
    user.Some? && (ADMIN in user.value.perfis || user.value.id == id)
  }

  /** The same rule keyed by email, which is the principal's username. */
  predicate AdminOrSelf(user: Option<UserSS>, email: string) {
    user.Some? && (ADMIN in user.value.perfis || user.value.username == email)
  }

  /** The guard of find as written: `&&` binds tighter than `||`, so this denies when there
      is no principal or when the principal is neither administrator nor owner. */
  function Denied(user: Option<UserSS>, id: int): (denied: bool)
    ensures denied <==> !AdminOrOwner(user, id)
    ensures user.None? ==> denied
  {
    user.None? || (!HasRole(user.value, ADMIN) && id != user.value.id)
  }

  /** The guard of findByEmail as written, comparing the email with the username. */
  function DeniedByEmail(user: Option<UserSS>, email: string): (denied: bool)
    ensures denied <==> !AdminOrSelf(user, email)
    ensures user.None? ==> denied
  {
    user.None? || (!HasRole(user.value, ADMIN) && email != user.value.username)
  }

  /** find: the guard runs before the lookup, so a denied caller learns nothing about
      whether the customer exists. */
  function Find(user: Option<UserSS>, t: Table<Cliente>, id: int): (r: Result<Cliente>)
    ensures user.None? ==> r == Err(Authorization(ACESSO_NEGADO))
    ensures !AdminOrOwner(user, id) <==> r == Err(Authorization(ACESSO_NEGADO))
    ensures AdminOrOwner(user, id) && id in t.rows <==> r.Ok?
    ensures r.Ok? ==> r.value == t.rows[id]
    ensures AdminOrOwner(user, id) && id !in t.rows <==> r == Err(ObjectNotFound(id, CLIENTE_CLASS))
  {
    if Denied(user, id) then Err(Authorization(ACESSO_NEGADO))
    else match FindById(t, id)
      case Some(c) => Ok(c)
      case None => Err(ObjectNotFound(id, CLIENTE_CLASS))
  }

  /** insert: the client-supplied id is cleared and the generator picks the key. */
  function Insert(t: Table<Cliente>, obj: Cliente): (r: Reply<Cliente, Cliente>)
    ensures r.result.Ok?
    ensures r.result.value == obj.(id := r.result.value.id)
    ensures r.table.rows == t.rows[r.result.value.id := r.result.value]
    ensures KeysBelowNext(t) ==> r.result.value.id !in t.rows
    ensures KeysBelowNext(t) ==> |r.table.rows| == |t.rows| + 1
    ensures Valid(t) ==> Valid(r.table)
  {
    var saved := obj.(id := t.next);
    Reply(SaveNew(t, saved), Ok(saved))
  }

  /** The fields update copies from the incoming object: name and email. */
  function UpdateData(cliente: Cliente, obj: Cliente): (r: Cliente)
    ensures r.nome == obj.nome && r.email == obj.email
    ensures r.id == cliente.id && r.cpfOuCnpj == cliente.cpfOuCnpj
    ensures r.tipo == cliente.tipo && r.senha == cliente.senha
  {
    cliente.(nome := obj.nome, email := obj.email)
  }

  /** update: re-finds the stored customer (guard included), copies name and email onto it
      and saves it; every other field and every other row stays as it was. */
  function Update(user: Option<UserSS>, t: Table<Cliente>, obj: Cliente): (r: Reply<Cliente, Cliente>)
    ensures r.result.Err? ==> r.table == t && r.result == Find(user, t, obj.id)
    ensures r.result.Ok? <==> AdminOrOwner(user, obj.id) && obj.id in t.rows
    ensures r.result.Ok? ==>
      var stored, saved := t.rows[obj.id], r.result.value;
      && saved.id == stored.id && saved.nome == obj.nome && saved.email == obj.email
      && saved.cpfOuCnpj == stored.cpfOuCnpj && saved.tipo == stored.tipo && saved.senha == stored.senha
      && r.table.rows.Keys == t.rows.Keys
      && r.table.rows[obj.id] == saved
      && (forall k :: k in t.rows && k != obj.id ==> r.table.rows[k] == t.rows[k])
    ensures Valid(t) ==> Valid(r.table)
  {
    match Find(user, t, obj.id)
    case Err(e) => Reply(t, Err(e))
    case Ok(cliente) =>
      var merged := UpdateData(cliente, obj);
      Reply(SaveExisting(t, obj.id, merged), Ok(merged))
  }

  /** delete: find first (guard and existence), then the delete, which fails with a data
      integrity error while orders still reference the customer. `referenced` holds the ids
      of customers that have orders. */
  function Delete(user: Option<UserSS>, t: Table<Cliente>, id: int, referenced: set<int>): (r: Reply<Cliente, ()>)
    ensures r.result.Err? ==> r.table == t
    ensures Find(user, t, id).Err? ==> r.result == Err(Find(user, t, id).error)
    ensures Find(user, t, id).Ok? && id in referenced ==> r.result == Err(DataIntegrity(PEDIDOS_RELACIONADOS))
    ensures r.result.Ok? <==> AdminOrOwner(user, id) && id in t.rows && id !in referenced
    ensures r.result.Ok? ==> r.table.rows == t.rows - {id} && r.table.next == t.next
    ensures Valid(t) ==> Valid(r.table)
  {
    match Find(user, t, id)
    case Err(e) => Reply(t, Err(e))
    case Ok(_) =>
      if id in referenced then Reply(t, Err(DataIntegrity(PEDIDOS_RELACIONADOS)))
      else Reply(DeleteById(t, id), Ok(()))
  }

  /** findByEmail: the email guard, then a lookup by email. When no customer has the email
      the error names the principal's id, as the exception message does. When several
      customers share it, any one of them may come back. */
  method FindByEmail(user: Option<UserSS>, t: Table<Cliente>, email: string) returns (r: Result<Cliente>)
    ensures !AdminOrSelf(user, email) <==> r == Err(Authorization(ACESSO_NEGADO))
    ensures AdminOrSelf(user, email) ==>
      (r.Ok? <==> exists k :: k in t.rows && t.rows[k].email == email)
    ensures r.Ok? ==> r.value in t.rows.Values && r.value.email == email
    ensures AdminOrSelf(user, email) && r.Err? ==> r == Err(ObjectNotFound(user.value.id, CLIENTE_CLASS))
  {
    if DeniedByEmail(user, email) {
      return Err(Authorization(ACESSO_NEGADO));
    }
    if k :| k in t.rows && t.rows[k].email == email {
      r := Ok(t.rows[k]);
    } else {
      r := Err(ObjectNotFound(user.value.id, CLIENTE_CLASS));
    }
  }

  /** fromDTO for the update DTO: the fields the DTO lacks are null. */
  function FromDto(dto: ClienteDto): (c: Cliente)
    ensures c.id == dto.id && c.nome == dto.nome && c.email == dto.email
    ensures c.cpfOuCnpj.None? && c.tipo.None? && c.senha.None?
  {
    Cliente(dto.id, dto.nome, dto.email, None, None, None)
  }

  /** Updating from a DTO never wipes the fields the DTO leaves null: the stored document,
      type and password survive. */
  lemma UpdateFromDtoKeepsStoredFields(user: Option<UserSS>, t: Table<Cliente>, dto: ClienteDto)
    requires AdminOrOwner(user, dto.id) && dto.id in t.rows
    ensures var r := Update(user, t, FromDto(dto));
      && r.result.Ok?
      && r.table.rows[dto.id].cpfOuCnpj == t.rows[dto.id].cpfOuCnpj
      && r.table.rows[dto.id].tipo == t.rows[dto.id].tipo
      && r.table.rows[dto.id].senha == t.rows[dto.id].senha
  {
  }

  /** insert ignores the client-supplied id entirely: two requests that differ only in it
      have the same effect. */
  lemma InsertIgnoresClientId(t: Table<Cliente>, obj: Cliente, clientId: int)
    ensures Insert(t, obj.(id := clientId)) == Insert(t, obj)
  {
  }

  /** A principal that is neither administrator nor owner is refused even for an id that is
      not stored: authorization is decided before the table is consulted. */
  lemma ForbiddenBeforeNotFound(user: UserSS, t: Table<Cliente>, id: int)
    requires ADMIN !in user.perfis && user.id != id && id !in t.rows
    ensures Find(Some(user), t, id) == Err(Authorization(ACESSO_NEGADO))
    ensures Update(Some(user), t, Cliente(id, "", "", None, None, None)).result == Err(Authorization(ACESSO_NEGADO))
  {
  }

  /** Customer 5 may read record 5 but not record 6; an administrator may read record 6. */
  lemma OwnerAndAdminScenario(t: Table<Cliente>)
    requires 5 in t.rows && 6 in t.rows
    ensures Find(Some(UserSS(5, "maria@gmail.com", {CLIENTE})), t, 5) == Ok(t.rows[5])
    ensures Find(Some(UserSS(5, "maria@gmail.com", {CLIENTE})), t, 6) == Err(Authorization(ACESSO_NEGADO))
    ensures Find(Some(UserSS(1, "admin@gmail.com", {CLIENTE, ADMIN})), t, 6) == Ok(t.rows[6])
  {
  }

  /** The phone numbers fromDTO(ClienteNewDTO) adds to a new customer, in the order added, as
      written: the third is guarded by a test of the second. None stands for a null added to
      the phone set. */
  function TelefonesAsWritten(t1: string, t2: Option<string>, t3: Option<string>): (added: seq<Option<string>>)
    ensures |added| >= 1 && added[0] == Some(t1)
    ensures t2.None? ==> added == [Some(t1)]
    ensures t2.Some? ==> added == [Some(t1), t2, t3]
  {
    [Some(t1)] + (if t2.Some? then [t2] else []) + (if t2.Some? then [t3] else [])
  }

  /** The guard on the third phone tests the second: with a second phone and no third a null
      is added, and with a third phone but no second the third is lost. */
  lemma TelefonesAsWrittenMisplacesThird()
    ensures None in TelefonesAsWritten("1111", Some("2222"), None)
    ensures Some("3333") !in TelefonesAsWritten("1111", None, Some("3333"))
  {
  }

  /** The intended phone set: the first phone and each optional phone that is present. */
  function Telefones(t1: string, t2: Option<string>, t3: Option<string>): (phones: set<string>)
    ensures forall p :: p in phones <==> p == t1 || t2 == Some(p) || t3 == Some(p)
  {
    {t1} + (if t2.Some? then {t2.value} else {}) + (if t3.Some? then {t3.value} else {})
  }

  /** The phone numbers among the values added, nulls left out. */
  function Present(added: seq<Option<string>>): (phones: set<string>)
    ensures forall p :: p in phones <==> Some(p) in added
  {
    set i | 0 <= i < |added| && added[i].Some? :: added[i].value
  }

  /** The code as written adds no null and the same phones as intended exactly when the second
      phone is present whenever the third is, or the lost third phone repeats the first. */
  lemma TelefonesAsWrittenAgreement(t1: string, t2: Option<string>, t3: Option<string>)
    ensures var added := TelefonesAsWritten(t1, t2, t3);
      (None !in added && Present(added) == Telefones(t1, t2, t3)) <==>
      (t2.Some? == t3.Some? || (t2.None? && t3 == Some(t1)))
  {
  }
}
