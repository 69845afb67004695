/** The persistence collaborator behind every service: one table per entity, keyed by the
    primary key, with the database's identity generator made explicit. */
module Repository {
  import opened Wrappers
  import opened Exceptions

  /** The rows of one table and the next value the identity generator hands out. */
  datatype Table<T> = Table(rows: map<int, T>, next: int)

  /** The outcome of a service call that may write: the table afterwards and what the call
      returned or threw. */
  datatype Reply<T, R> = Reply(table: Table<T>, result: Result<R>)

  /** Every stored key was handed out by the generator before `next`. */
  ghost predicate KeysBelowNext<T>(t: Table<T>) {
    forall k :: k in t.rows ==> k < t.next
  }

  /** findById */
  function FindById<T>(t: Table<T>, id: int): Option<T> {
    if id in t.rows then Some(t.rows[id]) else None
  }

  /** save of an entity whose id is null: the row goes under a freshly generated key. */
  function SaveNew<T>(t: Table<T>, e: T): Table<T> {
    Table(t.rows[t.next := e], t.next + 1)
  }

  /** save of an entity whose id is already stored: the row under that key is replaced. */
  function SaveExisting<T>(t: Table<T>, id: int, e: T): Table<T> {
    Table(t.rows[id := e], t.next)
  }

  /** deleteById once the delete is known to violate no foreign key. */
  function DeleteById<T>(t: Table<T>, id: int): Table<T> {
    Table(t.rows - {id}, t.next)
  }
}
