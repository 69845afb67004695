/** The exceptions the services throw, as values a caller inspects instead of catching. */
module Exceptions {

  /** ObjectNotFoundException, AuthorizationException, DataIntegrityException, and the
      IllegalArgumentException that Spring's page request raises for bad paging arguments and
      the JWT builder raises for an empty signing key, and the PropertyReferenceException the
      query engine raises for a sort property the entity type does not have. */
  datatype Error =
    | ObjectNotFound(id: int, tipo: string)
    | Authorization(message: string)
    | DataIntegrity(message: string)
    | IllegalArgument
    | PropertyReference(property: string, tipo: string)

  /** A service call either returns a value or throws one of the errors above. */
  datatype Result<+T> = Ok(value: T) | Err(error: Error)
}
