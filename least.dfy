/**
 * The least-cost route calculator: person validation, the pipeline from two
 * person names to the cheapest candidate route, and the calculator object
 * whose fields carry the intermediate state between its steps.
 */
module LeastCostRouting {
  import opened Wrappers
  import opened Exception
  import opened Model
  import opened Strings
  import opened RouteCost
  import opened Candidates
  import opened Selection

  /** Row `i` is the first person row, in table order, with the given name. */
  ghost predicate IsFirstPerson(persons: seq<Person>, personName: string, i: int)
  {
    && 0 <= i < |persons|
    && persons[i].person == personName
    && forall j :: 0 <= j < i ==> persons[j].person != personName
  }

  /** The exchange of the first person with that name, or the invalid-person failure when nobody has it. */
  function ValidatePersonAndFindExchange(personName: string, persons: seq<Person>): (r: Result<string, Error>)
    ensures r.Failure? <==> forall i :: 0 <= i < |persons| ==> persons[i].person != personName
    ensures r.Failure? ==> r.error == PersonNameNotValid
    ensures forall i :: IsFirstPerson(persons, personName, i) ==> r == Success(persons[i].exchange)
  {
    if persons == [] then Failure(PersonNameNotValid)
    else if persons[0].person == personName then Success(persons[0].exchange)
    else
      var r := ValidatePersonAndFindExchange(personName, persons[1..]);
      assert forall i :: IsFirstPerson(persons, personName, i) ==> IsFirstPerson(persons[1..], personName, i - 1);
      r
  }

  /** A path's elements joined by arrows, the form in which the winning route is reported. */
  function ArrayToString(parts: seq<string>): (r: string)
    ensures parts == [] ==> r == ""
    ensures parts != [] ==> parts[0] <= r
  {
    Join(parts, "->")
  }

  /**
   * The reported route is the route table's path string with every comma
   * written as an arrow, for any path that does not end in a comma.
   */
  lemma FormattedRouteIsArrowedPath(path: string)
    requires path == [] || path[|path| - 1] != ','
    ensures ArrayToString(Split(path)) == ReplaceCommas(path, "->")
  {
    JoinSplit(path, "->");
  }

  /** The cost step: RouteNotFound without candidates, otherwise the cheapest candidate, arrow-formatted. */
  function LeastCostOf(routes: Option<seq<string>>, networkElements: seq<NetworkElement>, links: seq<Link>, networks: seq<Network>)
    : (r: Result<LeastCostRoute, Error>)
    requires routes.Some? && routes.value != [] ==> UniqueNames(networkElements)
    ensures r.Failure? <==> routes.None? || routes.value == []
    ensures r.Failure? ==> r.error == RouteNotFound
  {
    if routes.None? || routes.value == [] then Failure(RouteNotFound)
    else
      var routeAndCost := RouteAndCost(routes.value, ProcessingTimeMap(networkElements), links, networks);
      var minCost := FindMinimumCost(routeAndCost).value;
      Success(LeastCostRoute(ArrayToString(minCost.path), minCost.cost))
  }

  /** The whole pipeline for two person names, as a value. */
  function LeastCostRouteFor(sourcePersonName: string, destinationPersonName: string, persons: seq<Person>,
                             route: seq<Route>, exchangeKey: (string, string) -> string,
                             networkElements: seq<NetworkElement>, links: seq<Link>, networks: seq<Network>)
    : (r: Result<LeastCostRoute, Error>)
    requires ReachesCosting(sourcePersonName, destinationPersonName, persons, route, exchangeKey) ==> UniqueNames(networkElements)
    ensures r.Failure? ==> r.error == PersonNameNotValid || r.error == RouteNotFound
  {
    match ValidatePersonAndFindExchange(sourcePersonName, persons)
    case Failure(e) => Failure(e)
    case Success(sourceExchange) =>
      match ValidatePersonAndFindExchange(destinationPersonName, persons)
      case Failure(e) => Failure(e)
      case Success(destinationExchange) =>
        LeastCostOf(Lookup(route, exchangeKey(sourceExchange, destinationExchange)), networkElements, links, networks)
  }

  /** Both persons are valid and their exchange pair has candidates, so the element table is read. */
  ghost predicate ReachesCosting(sourcePersonName: string, destinationPersonName: string, persons: seq<Person>,
                                 route: seq<Route>, exchangeKey: (string, string) -> string)
  {
    && ValidatePersonAndFindExchange(sourcePersonName, persons).Success?
    && ValidatePersonAndFindExchange(destinationPersonName, persons).Success?
    && PathsFor(route, exchangeKey(ValidatePersonAndFindExchange(sourcePersonName, persons).value,
                                   ValidatePersonAndFindExchange(destinationPersonName, persons).value)) != []
  }

  /** An unknown source or destination name fails with the invalid-person error, whatever the other tables hold. */
  lemma InvalidPersonFails(sourcePersonName: string, destinationPersonName: string, persons: seq<Person>,
                           route: seq<Route>, exchangeKey: (string, string) -> string,
                           networkElements: seq<NetworkElement>, links: seq<Link>, networks: seq<Network>)
    requires (forall i :: 0 <= i < |persons| ==> persons[i].person != sourcePersonName)
          || (forall i :: 0 <= i < |persons| ==> persons[i].person != destinationPersonName)
    ensures LeastCostRouteFor(sourcePersonName, destinationPersonName, persons, route, exchangeKey, networkElements, links, networks)
         == Failure(PersonNameNotValid)
  {
  }

  /** For valid persons, the route-not-found failure happens exactly when no route row has their exchange key. */
  lemma RouteNotFoundExactly(sourcePersonName: string, destinationPersonName: string, persons: seq<Person>,
                             route: seq<Route>, exchangeKey: (string, string) -> string,
                             networkElements: seq<NetworkElement>, links: seq<Link>, networks: seq<Network>)
    requires ValidatePersonAndFindExchange(sourcePersonName, persons).Success?
    requires ValidatePersonAndFindExchange(destinationPersonName, persons).Success?
    requires ReachesCosting(sourcePersonName, destinationPersonName, persons, route, exchangeKey) ==> UniqueNames(networkElements)
    ensures var key := exchangeKey(ValidatePersonAndFindExchange(sourcePersonName, persons).value,
                                   ValidatePersonAndFindExchange(destinationPersonName, persons).value);
            LeastCostRouteFor(sourcePersonName, destinationPersonName, persons, route, exchangeKey, networkElements, links, networks)
              == Failure(RouteNotFound)
            <==> forall i :: 0 <= i < |route| ==> route[i].exchange != key
  {
    var key := exchangeKey(ValidatePersonAndFindExchange(sourcePersonName, persons).value,
                           ValidatePersonAndFindExchange(destinationPersonName, persons).value);
    PathsForEmpty(route, key);
  }

  /**
   * A successful answer is the cheapest candidate: it is the arrow-formatted
   * split of some candidate path string, its price is that path's cost, and
   * no candidate costs less.
   */
  lemma LeastCostIsCheapestCandidate(routes: seq<string>, networkElements: seq<NetworkElement>, links: seq<Link>, networks: seq<Network>)
    requires routes != []
    requires UniqueNames(networkElements)
    ensures LeastCostOf(Some(routes), networkElements, links, networks).Success?
    ensures exists i :: 0 <= i < |routes| &&
              LeastCostOf(Some(routes), networkElements, links, networks).value
                == LeastCostRoute(ArrayToString(Split(routes[i])),
                                  CostOfRoute(Split(routes[i]), ProcessingTimeMap(networkElements), links, networks))
    ensures forall i :: 0 <= i < |routes| ==>
              LeastCostOf(Some(routes), networkElements, links, networks).value.price
                <= CostOfRoute(Split(routes[i]), ProcessingTimeMap(networkElements), links, networks)
  {
    var m := ProcessingTimeMap(networkElements);
    var table := RouteAndCost(routes, m, links, networks);
    var k := MinIndex(table);
    var winner := table[k];
    assert FindMinimumCost(table) == Some(winner);
    assert LeastCostOf(Some(routes), networkElements, links, networks) == Success(LeastCostRoute(ArrayToString(winner.path), winner.cost));
    assert winner == Evaluate(routes[k], m, links, networks);
    forall i | 0 <= i < |routes| ensures winner.cost <= CostOfRoute(Split(routes[i]), m, links, networks) {
      assert table[i] == Evaluate(routes[i], m, links, networks);
    }
  }

  /** With a symmetric exchange key, swapping the two persons gives the same answer. */
  lemma LeastCostRouteSymmetric(sourcePersonName: string, destinationPersonName: string, persons: seq<Person>,
                                route: seq<Route>, exchangeKey: (string, string) -> string,
                                networkElements: seq<NetworkElement>, links: seq<Link>, networks: seq<Network>)
    requires forall x, y :: exchangeKey(x, y) == exchangeKey(y, x)
    requires ReachesCosting(sourcePersonName, destinationPersonName, persons, route, exchangeKey) ==> UniqueNames(networkElements)
    ensures LeastCostRouteFor(sourcePersonName, destinationPersonName, persons, route, exchangeKey, networkElements, links, networks)
         == LeastCostRouteFor(destinationPersonName, sourcePersonName, persons, route, exchangeKey, networkElements, links, networks)
  {
  }

  /**
   * The calculator object. Its fields start out null (None) and are filled in
   * by the two steps of a calculation.
   */
  class Least {
    var leastCostRoute: Option<LeastCostRoute>
    var sourceExchange: Option<string>
    var destinationExchange: Option<string>
    var routes: Option<seq<string>>

    constructor ()
      ensures leastCostRoute == None && sourceExchange == None
      ensures destinationExchange == None && routes == None
    {
      leastCostRoute := None;
      sourceExchange := None;
      destinationExchange := None;
      routes := None;
    }

    /**
     * Validate both persons (source first) and look up the candidate paths of
     * their exchange pair. A failed validation stops at once, leaving the
     * fields it has not reached unchanged.
     */
    method InitializeDataStructures(sourcePersonName: string, destinationPersonName: string, persons: seq<Person>,
                                    route: seq<Route>, exchangeKey: (string, string) -> string)
      returns (outcome: Outcome<Error>)
      modifies this
      ensures leastCostRoute == old(leastCostRoute)
      ensures ValidatePersonAndFindExchange(sourcePersonName, persons).Failure? ==>
        && outcome == Fail(PersonNameNotValid)
        && sourceExchange == old(sourceExchange)
        && destinationExchange == old(destinationExchange)
        && routes == old(routes)
      ensures ValidatePersonAndFindExchange(sourcePersonName, persons).Success? ==>
        sourceExchange == Some(ValidatePersonAndFindExchange(sourcePersonName, persons).value)
      ensures ValidatePersonAndFindExchange(sourcePersonName, persons).Success? &&
              ValidatePersonAndFindExchange(destinationPersonName, persons).Failure? ==>
        && outcome == Fail(PersonNameNotValid)
        && destinationExchange == old(destinationExchange)
        && routes == old(routes)
      ensures ValidatePersonAndFindExchange(sourcePersonName, persons).Success? &&
              ValidatePersonAndFindExchange(destinationPersonName, persons).Success? ==>
        && outcome == Pass
        && destinationExchange == Some(ValidatePersonAndFindExchange(destinationPersonName, persons).value)
        && routes == Lookup(route, exchangeKey(ValidatePersonAndFindExchange(sourcePersonName, persons).value,
                                               ValidatePersonAndFindExchange(destinationPersonName, persons).value))
    {
      var source := ValidatePersonAndFindExchange(sourcePersonName, persons);
      if source.Failure? {
        return Fail(source.error);
      }
      sourceExchange := Some(source.value);
      var destination := ValidatePersonAndFindExchange(destinationPersonName, persons);
      if destination.Failure? {
        return Fail(destination.error);
      }
      destinationExchange := Some(destination.value);
      routes := GetRoute(route, source.value, destination.value, exchangeKey);
      outcome := Pass;
    }

    /**
     * Cost every candidate path and record the cheapest; fail with
     * RouteNotFound, leaving the recorded result alone, when there are none.
     */
    method CalculateLeastCostRoute(networkElements: seq<NetworkElement>, links: seq<Link>, networks: seq<Network>)
      returns (outcome: Outcome<Error>)
      requires routes.Some? && routes.value != [] ==> UniqueNames(networkElements)
      modifies this`leastCostRoute
      ensures LeastCostOf(routes, networkElements, links, networks).Failure? ==>
        && outcome == Fail(RouteNotFound)
        && leastCostRoute == old(leastCostRoute)
      ensures LeastCostOf(routes, networkElements, links, networks).Success? ==>
        && outcome == Pass
        && leastCostRoute == Some(LeastCostOf(routes, networkElements, links, networks).value)
    {
      if routes.Some? && routes.value != [] {
        var routeAndCost := CalculateRouteAndCost(routes.value, networkElements, links, networks);
        var minCost := FindMinimumCost(routeAndCost);
        // one entry per candidate path, so the minimum exists
        leastCostRoute := Some(LeastCostRoute(ArrayToString(minCost.value.path), minCost.value.cost));
        outcome := Pass;
      } else {
        outcome := Fail(RouteNotFound);
      }
    }

    /** Run both steps for two person names and report the recorded least-cost route. */
    method FindLeastCostRoute(sourcePersonName: string, destinationPersonName: string, persons: seq<Person>,
                              route: seq<Route>, exchangeKey: (string, string) -> string,
                              networkElements: seq<NetworkElement>, links: seq<Link>, networks: seq<Network>)
      returns (result: Result<LeastCostRoute, Error>)
      requires ReachesCosting(sourcePersonName, destinationPersonName, persons, route, exchangeKey) ==> UniqueNames(networkElements)
      modifies this
      ensures result == LeastCostRouteFor(sourcePersonName, destinationPersonName, persons, route, exchangeKey,
                                          networkElements, links, networks)
      ensures result.Success? ==> leastCostRoute == Some(result.value)
      ensures result.Failure? ==> leastCostRoute == old(leastCostRoute)
      ensures ValidatePersonAndFindExchange(sourcePersonName, persons).Failure? ==>
        && sourceExchange == old(sourceExchange)
        && destinationExchange == old(destinationExchange)
        && routes == old(routes)
      ensures ValidatePersonAndFindExchange(sourcePersonName, persons).Success? ==>
        sourceExchange == Some(ValidatePersonAndFindExchange(sourcePersonName, persons).value)
      ensures ValidatePersonAndFindExchange(sourcePersonName, persons).Success? &&
              ValidatePersonAndFindExchange(destinationPersonName, persons).Failure? ==>
        && destinationExchange == old(destinationExchange)
        && routes == old(routes)
      ensures ValidatePersonAndFindExchange(sourcePersonName, persons).Success? &&
              ValidatePersonAndFindExchange(destinationPersonName, persons).Success? ==>
        && destinationExchange == Some(ValidatePersonAndFindExchange(destinationPersonName, persons).value)
        && routes == Lookup(route, exchangeKey(ValidatePersonAndFindExchange(sourcePersonName, persons).value,
                                               ValidatePersonAndFindExchange(destinationPersonName, persons).value))
    {
      var initialized := InitializeDataStructures(sourcePersonName, destinationPersonName, persons, route, exchangeKey);
      if initialized.Fail? {
        return Failure(initialized.error);
      }
      var calculated := CalculateLeastCostRoute(networkElements, links, networks);
      if calculated.Fail? {
        return Failure(calculated.error);
      }
      result := Success(leastCostRoute.value);
    }
  }
}
