/** Small building blocks shared by every module of the model. */
module Base {

  /** A value that may be absent: an omitted request field, a lookup that found nothing. */
  datatype Option<+T> = None | Some(value: T)

  /** Identity of a stored document (a MongoDB ObjectId, abstracted to a number). */
  type Id = nat
}
