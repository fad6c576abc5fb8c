/** Values shared by every part of the model: nullable values, the two
    exception types the services throw, and globally unique identifiers. */
module Common {

  /** A nullable value (`T?` in the source). */
  datatype Option<+T> = None | Some(value: T)

  /** The exceptions the services raise. */
  datatype Error =
    | ArgumentNull(paramName: string)   // ArgumentNullException
    | Argument(message: string)         // ArgumentException

  /** Either the value an operation returns or the exception it throws. */
  datatype Result<+T> = Success(value: T) | Failure(error: Error)

  /** A GUID, abstracted to a natural number; 0 plays the part of Guid.Empty. */
  type Guid = nat

  const EmptyGuid: Guid := 0

  /** Guid.NewGuid(): an identifier that is not Guid.Empty and is not already in use. */
  method NewGuid(used: set<Guid>) returns (g: Guid)
    ensures g != EmptyGuid && g !in used
  {
    var rest, bound := used, 0;
    while rest != {}
      invariant rest <= used
      invariant forall x :: x in used && x !in rest ==> x <= bound
      decreases |rest|
    {
      var x :| x in rest;
      if x > bound {
        bound := x;
      }
      rest := rest - {x};
    }
    g := bound + 1;
  }
}
