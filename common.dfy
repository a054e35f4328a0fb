/** Outcome types shared by every part of the model. */
module Common {

  /** A value that may be absent (a Java null or an empty Optional). */
  datatype Option<+T> = None | Some(value: T)

  /**
   * The result of a service or repository call. The three failure variants stand for the
   * exceptions the services throw: NotFoundException, BadRequestException and
   * BadEmailException.
   */
  datatype Result<+T> = Ok(value: T) | NotFound | BadRequest | BadEmail
  {
    /** The same failure, carried over to another value type. */
    function Propagate<U>(): (r: Result<U>)
      requires !Ok?
      ensures r.NotFound? == NotFound? && r.BadRequest? == BadRequest? && r.BadEmail? == BadEmail?
    {
      match this
      case NotFound => NotFound
      case BadRequest => BadRequest
      case BadEmail => BadEmail
    }
  }
}
