/** The failure kinds of the route calculator, one per message constant of its exception class. */
module Exception {

  datatype Error = PersonNameNotValid | FileReadError | RouteNotFound

  /** The message text the exception carries for each failure kind. */
  function Message(e: Error): string
  {
    match e
    case PersonNameNotValid => "INVALID PERSON NAME"
    case FileReadError => "ERROR WHILE READING CSV FILE"
    case RouteNotFound => "ROUTE_NOT_AVAILABLE"
  }

  /** Distinct failure kinds carry distinct messages, so a message identifies its kind. */
  lemma MessageIdentifiesError(a: Error, b: Error)
    ensures Message(a) == Message(b) <==> a == b
  {
  }
}
