/**
  Outcomes shared by both services: the failure kinds the services raise
  (Nest's BadRequestException, NotFoundException, ConflictException and
  InternalServerErrorException, plus a repository error that reaches the
  caller uncaught), a result type carrying either a value or one of them, and
  an option type for fields an update object may leave out.
 */
module Errors {

  datatype ServiceError =
    | BadRequest   // a blank id or email argument
    | NotFound     // no record matches the key
    | Conflict     // the email is already held by another user
    | Internal     // a database or hashing failure caught and rethrown by the user service
    | SaveFailed   // the repository's own error, which OAuth client creation does not catch

  datatype Result<T> = Ok(value: T) | Err(error: ServiceError)

  datatype Option<T> = None | Some(value: T)

  /** JavaScript truthiness of an optional string field: present and not "". */
  predicate IsTruthy(o: Option<string>) {
    o.Some? && o.value != ""
  }
}
