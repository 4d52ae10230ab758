/** Identifiers, roles, timestamps and the error-carrying result type shared
    by the schemas and the route handlers of the lexicon store. */
module Common {

  /** Document identifiers (MongoDB ObjectIds), modelled as naturals. */
  type EntryId = nat
  type LanguageId = nat
  type DefinitionId = nat
  type UserId = nat

  /** A point in time in milliseconds; the clock is always passed in by the caller. */
  type Time = int

  /** The role of the authenticated caller, as the authentication layer supplies it. */
  datatype Role = Contributor | Moderator | Admin

  datatype Option<+T> = None | Some(value: T)

  /** Why a request failed:
      NotFound     - an entry, definition or language lookup came back empty (HTTP 404);
      Forbidden    - the caller's role does not allow the operation (HTTP 403);
      Invalid      - a document failed schema validation on save (HTTP 500);
      Duplicate    - a save broke the unique index on a language name or code (HTTP 500);
      StoreFailure - the store refused the query itself, e.g. a negative skip (HTTP 500). */
  datatype Error = NotFound | Forbidden | Invalid | Duplicate | StoreFailure

  datatype Result<+T> = Ok(value: T) | Err(error: Error)
}
