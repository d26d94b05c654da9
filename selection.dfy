/** Evaluation of every candidate path and selection of the cheapest one. */
module Selection {
  import opened Wrappers
  import opened Model
  import opened Strings
  import opened RouteCost

  /**
   * Index of the cheapest entry, scanning left to right and keeping the
   * earlier entry on a tie (the reduction `Stream.min` performs).
   */
  function MinIndex(entries: seq<Candidate>): (k: nat)
    requires entries != []
    ensures k < |entries|
    ensures forall j :: 0 <= j < |entries| ==> entries[k].cost <= entries[j].cost
    ensures forall j :: 0 <= j < k ==> entries[j].cost > entries[k].cost
  {
    if |entries| == 1 then 0
    else
      var init := entries[..|entries| - 1];
      var k := MinIndex(init);
      assert forall j :: 0 <= j < |init| ==> init[j] == entries[j];
      if entries[k].cost <= entries[|entries| - 1].cost then k else |entries| - 1
  }

  /** The entry of least cost, the first such in table order; None for an empty table. */
  function FindMinimumCost(routeAndCost: seq<Candidate>): (r: Option<Candidate>)
    ensures r.None? <==> routeAndCost == []
    ensures r.Some? ==> r.value in routeAndCost
    ensures r.Some? ==> forall e :: e in routeAndCost ==> r.value.cost <= e.cost
  {
    if routeAndCost == [] then None else Some(routeAndCost[MinIndex(routeAndCost)])
  }

  /** On ties the winner is the first entry, in table order, that reaches the minimum cost. */
  lemma MinimumIsFirstOfTies(routeAndCost: seq<Candidate>, j: nat)
    requires j < |routeAndCost|
    requires forall i :: 0 <= i < |routeAndCost| ==> routeAndCost[j].cost <= routeAndCost[i].cost
    requires forall i :: 0 <= i < j ==> routeAndCost[i].cost > routeAndCost[j].cost
    ensures FindMinimumCost(routeAndCost) == Some(routeAndCost[j])
  {
  }

  /** Two candidates costing 160 and 140: the one costing 140 is selected. */
  lemma TwoCandidateExample(a: seq<string>, b: seq<string>)
    ensures FindMinimumCost([Candidate(a, 160), Candidate(b, 140)]) == Some(Candidate(b, 140))
  {
  }

  /** The evaluated candidate for one path string: its elements and the cost of travelling them. */
  function Evaluate(route: string, processingTimeMap: map<string, int>, links: seq<Link>, networks: seq<Network>): Candidate
  {
    var path := Split(route);
    Candidate(path, CostOfRoute(path, processingTimeMap, links, networks))
  }

  /** The route-to-cost table: one evaluated entry per candidate path, in candidate order. */
  function RouteAndCost(routes: seq<string>, processingTimeMap: map<string, int>, links: seq<Link>, networks: seq<Network>): (r: seq<Candidate>)
    ensures |r| == |routes|
    ensures forall i :: 0 <= i < |routes| ==> r[i] == Evaluate(routes[i], processingTimeMap, links, networks)
  {
    if routes == [] then []
    else [Evaluate(routes[0], processingTimeMap, links, networks)] + RouteAndCost(routes[1..], processingTimeMap, links, networks)
  }

  /** Evaluating one more path string appends its entry to the table. */
  lemma RouteAndCostExtend(routes: seq<string>, n: nat, processingTimeMap: map<string, int>,
                           links: seq<Link>, networks: seq<Network>)
    requires n < |routes|
    ensures RouteAndCost(routes[..n + 1], processingTimeMap, links, networks)
         == RouteAndCost(routes[..n], processingTimeMap, links, networks) + [Evaluate(routes[n], processingTimeMap, links, networks)]
  {
    var l := RouteAndCost(routes[..n + 1], processingTimeMap, links, networks);
    var r := RouteAndCost(routes[..n], processingTimeMap, links, networks) + [Evaluate(routes[n], processingTimeMap, links, networks)];
    forall i | 0 <= i < n + 1 ensures l[i] == r[i] {
      assert routes[..n + 1][i] == routes[i];
      if i < n {
        assert routes[..n][i] == routes[i];
      }
    }
  }

  /**
   * The source's loop: build the processing-time table, split every path
   * string on commas, and record each split path with its cost.
   */
  method CalculateRouteAndCost(routes: seq<string>, networkElements: seq<NetworkElement>, links: seq<Link>, networks: seq<Network>)
    returns (routeAndCost: seq<Candidate>)
    requires UniqueNames(networkElements)
    ensures routeAndCost == RouteAndCost(routes, ProcessingTimeMap(networkElements), links, networks)
  {
    var processingTimeMap := ProcessingTimeMap(networkElements);
    var networksInEachRoute := seq(|routes|, i requires 0 <= i < |routes| => Split(routes[i]));
    routeAndCost := [];
    var n := 0;
    while n < |networksInEachRoute|
      invariant 0 <= n <= |routes|
      invariant routeAndCost == RouteAndCost(routes[..n], processingTimeMap, links, networks)
    {
      var path := networksInEachRoute[n];
      assert path == Split(routes[n]);
      var costOfRoute := CalculateCostOfRoute(path, processingTimeMap, links, networks);
      RouteAndCostExtend(routes, n, processingTimeMap, links, networks);
      routeAndCost := routeAndCost + [Candidate(path, costOfRoute)];
      n := n + 1;
    }
    assert routes[..n] == routes;
  }
}
