/** The reference-data rows and the result record of the route calculator. */
module Model {

  /** A person and the exchange the person is attached to. */
  datatype Person = Person(person: string, exchange: string)

  /** One candidate path (comma-separated element names) for an exchange-pair key. */
  datatype Route = Route(exchange: string, path: string)

  /** A network element with its processing time. */
  datatype NetworkElement = NetworkElement(name: string, processingTime: int, exchange: string)

  /** An undirected edge between two network elements, labelled with a link name. */
  datatype Network = Network(sourceNetworkElement: string, link: string, destinationNetworkElement: string)

  /** A link and the price of traversing it. */
  datatype Link = Link(name: string, price: int)

  /** The reported result: the arrow-joined winning path and its cost. */
  datatype LeastCostRoute = LeastCostRoute(route: string, price: int)

  /** One entry of the route-to-cost table: a split candidate path and its cost. */
  datatype Candidate = Candidate(path: seq<string>, cost: int)
}
