/**
 * The outcomes of the backend's route handlers: a value (HTTP 200) or one of
 * the client errors they answer with (400, 403, 404). Each 400 carries the
 * guard that produced it.
 */
module Http {

  datatype Option<T> = None | Some(value: T)

  /** The guard behind a 400 answer. */
  datatype Reason =
    | BadId               // "Złe ID": a path id is not a finite number
    | EmptyBody           // the trimmed comment body is empty
    | BodyTooLong         // the trimmed comment body is over 5000 characters
    | BadKind             // read mark kind other than "points"
    | BadReadIds          // entity_id / comment_id of a read mark not finite
    | BadWarehouse        // in storage, but not one of the known warehouses
    | BadCoordinates      // not in storage, but lat/lng not finite
    | TitleRequired       // device update without a name
    | PriorityNotBoolean  // priority flag that is not a JSON boolean

  /** What a 404 answer says is missing. */
  datatype Missing = NoDevice | NoComment

  datatype Failure = BadRequest(reason: Reason) | Forbidden | NotFound(missing: Missing) {
    function Status(): (code: nat)
      ensures code in {400, 403, 404}
    {
      match this
      case BadRequest(_) => 400
      case Forbidden => 403
      case NotFound(_) => 404
    }
  }

  datatype Result<T> = Ok(value: T) | Err(failure: Failure)
}
