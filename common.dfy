/** Values shared by every part of the model: optional values and HTTP replies. */
module Common {

  /** A value that may be absent (JavaScript `undefined`/`null`, SQL NULL). */
  datatype Option<T> = None | Some(value: T)

  /**
   * What a route handler sends back: a status code and either a body or an
   * error message. `Ok` is 200, `Created` 201, `BadRequest` 400,
   * `NotFound` 404 and `ServerError` 500.
   */
  datatype Reply<T> =
    | Ok(body: T)
    | Created(body: T)
    | BadRequest(error: string)
    | NotFound(error: string)
    | ServerError(error: string)
  {
    function Status(): int {
      match this
      case Ok(_) => 200
      case Created(_) => 201
      case BadRequest(_) => 400
      case NotFound(_) => 404
      case ServerError(_) => 500
    }
  }
}
