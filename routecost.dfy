/**
 * Cost of one candidate route: processing time of its elements plus the
 * price of the link behind each hop, weighted 5 and 2.
 */
module RouteCost {
  import opened Wrappers
  import opened Model

  // ---------------------------------------------------------------- links

  /** Row `n` is the edge between `a` and `b`, in either direction. */
  predicate Connects(n: Network, a: string, b: string)
  {
    || (n.sourceNetworkElement == a && n.destinationNetworkElement == b)
    || (n.sourceNetworkElement == b && n.destinationNetworkElement == a)
  }

  /** Row `i` is the first row of `networks`, in table order, that connects `a` and `b`. */
  ghost predicate IsFirstConnecting(networks: seq<Network>, a: string, b: string, i: int)
  {
    && 0 <= i < |networks|
    && Connects(networks[i], a, b)
    && forall j :: 0 <= j < i ==> !Connects(networks[j], a, b)
  }

  /** The link of the first network row joining the two elements, or None (Java `null`) when none does. */
  function FindLinkForNetworks(sourceNetwork: string, destinationNetwork: string, networks: seq<Network>): (r: Option<string>)
    ensures r.None? <==> forall i :: 0 <= i < |networks| ==> !Connects(networks[i], sourceNetwork, destinationNetwork)
    ensures forall i :: IsFirstConnecting(networks, sourceNetwork, destinationNetwork, i) ==> r == Some(networks[i].link)
  {
    if networks == [] then None
    else if Connects(networks[0], sourceNetwork, destinationNetwork) then Some(networks[0].link)
    else
      var r := FindLinkForNetworks(sourceNetwork, destinationNetwork, networks[1..]);
      assert forall i :: IsFirstConnecting(networks, sourceNetwork, destinationNetwork, i) ==>
        IsFirstConnecting(networks[1..], sourceNetwork, destinationNetwork, i - 1);
      r
  }

  /** Link lookup does not depend on the direction in which the hop is taken. */
  lemma {:induction false} FindLinkSymmetric(a: string, b: string, networks: seq<Network>)
    ensures FindLinkForNetworks(a, b, networks) == FindLinkForNetworks(b, a, networks)
  {
    if networks != [] {
      FindLinkSymmetric(a, b, networks[1..]);
    }
  }

  // ---------------------------------------------------------------- prices

  /** Link row `l` carries the looked-up name; an absent name (Java `null`) matches no row. */
  predicate Named(l: Link, link: Option<string>)
  {
    link.Some? && l.name == link.value
  }

  /** Row `i` is the first row of `links` with the looked-up name. */
  ghost predicate IsFirstNamed(links: seq<Link>, link: Option<string>, i: int)
  {
    && 0 <= i < |links|
    && Named(links[i], link)
    && forall j :: 0 <= j < i ==> !Named(links[j], link)
  }

  /** All prices in the link table are non-negative. */
  ghost predicate NonNegativePrices(links: seq<Link>)
  {
    forall i :: 0 <= i < |links| ==> links[i].price >= 0
  }

  /** The price of the first link row with the given name, 0 when no row has it. */
  function FindPriceForLink(links: seq<Link>, link: Option<string>): (r: int)
    ensures (forall i :: 0 <= i < |links| ==> !Named(links[i], link)) ==> r == 0
    ensures forall i :: IsFirstNamed(links, link, i) ==> r == links[i].price
    ensures NonNegativePrices(links) ==> r >= 0
  {
    if links == [] then 0
    else if Named(links[0], link) then links[0].price
    else
      var r := FindPriceForLink(links[1..], link);
      assert forall i :: IsFirstNamed(links, link, i) ==> IsFirstNamed(links[1..], link, i - 1);
      r
  }

  /** An unmatched hop (no link found) costs nothing, whatever the link table holds. */
  lemma MissingLinkIsFree(links: seq<Link>)
    ensures FindPriceForLink(links, None) == 0
  {
  }

  /** The price charged for the hop from `a` to `b`. */
  function HopPrice(a: string, b: string, links: seq<Link>, networks: seq<Network>): int
  {
    FindPriceForLink(links, FindLinkForNetworks(a, b, networks))
  }

  /** One price per consecutive pair of the path, in path order. */
  function HopPrices(path: seq<string>, links: seq<Link>, networks: seq<Network>): (r: seq<int>)
    ensures |r| == if path == [] then 0 else |path| - 1
    ensures forall k :: 0 <= k < |r| ==> r[k] == HopPrice(path[k], path[k + 1], links, networks)
  {
    if |path| < 2 then []
    else [HopPrice(path[0], path[1], links, networks)] + HopPrices(path[1..], links, networks)
  }

  // ---------------------------------------------------------------- processing time

  /** No two network elements share a name (`Collectors.toMap` throws otherwise). */
  ghost predicate UniqueNames(elements: seq<NetworkElement>)
  {
    forall i, j :: 0 <= i < j < |elements| ==> elements[i].name != elements[j].name
  }

  /** The processing-time table keyed by element name; built only from a table with unique names. */
  function ProcessingTimeMap(elements: seq<NetworkElement>): (m: map<string, int>)
    requires UniqueNames(elements)
    ensures m.Keys == set e | e in elements :: e.name
    ensures forall i :: 0 <= i < |elements| ==> m[elements[i].name] == elements[i].processingTime
  {
    if elements == [] then map[]
    else
      var init := elements[..|elements| - 1];
      var last := elements[|elements| - 1];
      assert elements == init + [last];
      assert forall i :: 0 <= i < |init| ==> init[i] == elements[i];
      ProcessingTimeMap(init)[last.name := last.processingTime]
  }

  /** All processing times in the table are non-negative. */
  ghost predicate NonNegativeTimes(processingTimeMap: map<string, int>)
  {
    forall e :: e in processingTimeMap ==> processingTimeMap[e] >= 0
  }

  /**
   * The path's elements that have a processing time, in path order: every
   * occurrence of a known element is kept, every occurrence of an unknown one
   * dropped.
   */
  function PresentElements(path: seq<string>, processingTimeMap: map<string, int>): (r: seq<string>)
    ensures forall i :: 0 <= i < |r| ==> r[i] in processingTimeMap
    ensures forall e :: e in r <==> e in path && e in processingTimeMap
    ensures forall e :: multiset(r)[e] == if e in processingTimeMap then multiset(path)[e] else 0
  {
    if path == [] then []
    else
      var rest := PresentElements(path[1..], processingTimeMap);
      assert path == [path[0]] + path[1..];
      assert forall e :: e in path <==> e == path[0] || e in path[1..];
      assert multiset(path) == multiset([path[0]]) + multiset(path[1..]);
      if path[0] in processingTimeMap then
        assert multiset([path[0]] + rest) == multiset([path[0]]) + multiset(rest);
        [path[0]] + rest
      else rest
  }

  /** Filtering distributes over splitting the path in two, so the filter keeps path order. */
  lemma {:induction false} PresentElementsAppend(a: seq<string>, b: seq<string>, processingTimeMap: map<string, int>)
    ensures PresentElements(a + b, processingTimeMap) == PresentElements(a, processingTimeMap) + PresentElements(b, processingTimeMap)
  {
    if a == [] {
      assert a + b == b;
    } else {
      assert (a + b)[1..] == a[1..] + b;
      PresentElementsAppend(a[1..], b, processingTimeMap);
    }
  }

  /** Sum of the processing times of elements that all have one. */
  function SumOfTimes(elements: seq<string>, processingTimeMap: map<string, int>): int
    requires forall i :: 0 <= i < |elements| ==> elements[i] in processingTimeMap
  {
    if elements == [] then 0
    else processingTimeMap[elements[0]] + SumOfTimes(elements[1..], processingTimeMap)
  }

  /** The source's pipeline: keep the elements that have a time, take their times, sum them. */
  function TotalProcessingTime(path: seq<string>, processingTimeMap: map<string, int>): (r: int)
    ensures NonNegativeTimes(processingTimeMap) ==> r >= 0
    ensures (forall i :: 0 <= i < |path| ==> path[i] !in processingTimeMap) ==> r == 0
  {
    var present := PresentElements(path, processingTimeMap);
    SumOfTimesNonNegative(present, processingTimeMap);
    SumOfTimes(present, processingTimeMap)
  }

  /** Lookup with default: the element's processing time, or 0 when it has none. */
  function TimeOf(element: string, processingTimeMap: map<string, int>): int
  {
    if element in processingTimeMap then processingTimeMap[element] else 0
  }

  /** Reference definition: every element counted, unknown ones as 0. */
  function DefaultedTime(path: seq<string>, processingTimeMap: map<string, int>): int
  {
    if path == [] then 0 else TimeOf(path[0], processingTimeMap) + DefaultedTime(path[1..], processingTimeMap)
  }

  /** Skipping the unknown elements is the same as counting them as 0. */
  lemma {:induction false} TotalProcessingTimeDefaults(path: seq<string>, processingTimeMap: map<string, int>)
    ensures TotalProcessingTime(path, processingTimeMap) == DefaultedTime(path, processingTimeMap)
  {
    if path != [] {
      TotalProcessingTimeDefaults(path[1..], processingTimeMap);
    }
  }

  lemma {:induction false} DefaultedTimeAppend(a: seq<string>, b: seq<string>, processingTimeMap: map<string, int>)
    ensures DefaultedTime(a + b, processingTimeMap) == DefaultedTime(a, processingTimeMap) + DefaultedTime(b, processingTimeMap)
  {
    if a != [] {
      assert (a + b)[1..] == a[1..] + b;
      DefaultedTimeAppend(a[1..], b, processingTimeMap);
    } else {
      assert a + b == b;
    }
  }

  /** Processing time is additive over splitting a path in two. */
  lemma TotalProcessingTimeAppend(a: seq<string>, b: seq<string>, processingTimeMap: map<string, int>)
    ensures TotalProcessingTime(a + b, processingTimeMap)
         == TotalProcessingTime(a, processingTimeMap) + TotalProcessingTime(b, processingTimeMap)
  {
    TotalProcessingTimeDefaults(a + b, processingTimeMap);
    TotalProcessingTimeDefaults(a, processingTimeMap);
    TotalProcessingTimeDefaults(b, processingTimeMap);
    DefaultedTimeAppend(a, b, processingTimeMap);
  }

  /** An element without a processing time contributes 0 wherever it stands in the path. */
  lemma UnknownElementContributesNothing(a: seq<string>, e: string, b: seq<string>, processingTimeMap: map<string, int>)
    requires e !in processingTimeMap
    ensures TotalProcessingTime(a + [e] + b, processingTimeMap) == TotalProcessingTime(a + b, processingTimeMap)
  {
    TotalProcessingTimeAppend(a + [e], b, processingTimeMap);
    TotalProcessingTimeAppend(a, [e], processingTimeMap);
    TotalProcessingTimeAppend(a, b, processingTimeMap);
  }

  lemma {:induction false} SumOfTimesNonNegative(elements: seq<string>, processingTimeMap: map<string, int>)
    requires forall i :: 0 <= i < |elements| ==> elements[i] in processingTimeMap
    ensures NonNegativeTimes(processingTimeMap) ==> SumOfTimes(elements, processingTimeMap) >= 0
  {
    if elements != [] {
      SumOfTimesNonNegative(elements[1..], processingTimeMap);
    }
  }

  // ---------------------------------------------------------------- cost

  function Sum(s: seq<int>): int
  {
    if s == [] then 0 else s[0] + Sum(s[1..])
  }

  lemma {:induction false} SumAppend(a: seq<int>, b: seq<int>)
    ensures Sum(a + b) == Sum(a) + Sum(b)
  {
    if a != [] {
      assert (a + b)[1..] == a[1..] + b;
      SumAppend(a[1..], b);
    } else {
      assert a + b == b;
    }
  }

  lemma {:induction false} SumNonNegative(s: seq<int>)
    requires forall i :: 0 <= i < |s| ==> s[i] >= 0
    ensures Sum(s) >= 0
  {
    if s != [] {
      SumNonNegative(s[1..]);
    }
  }

  /** Cost of a route = 5 x total processing time + 2 x total hop price. */
  function CostOfRoute(path: seq<string>, processingTimeMap: map<string, int>, links: seq<Link>, networks: seq<Network>): (r: int)
    ensures r == 5 * DefaultedTime(path, processingTimeMap) + 2 * Sum(HopPrices(path, links, networks))
  {
    TotalProcessingTimeDefaults(path, processingTimeMap);
    5 * TotalProcessingTime(path, processingTimeMap) + 2 * Sum(HopPrices(path, links, networks))
  }

  /** Extending a path by its next element adds that hop's price at the end. */
  lemma HopPricesExtend(path: seq<string>, i: nat, links: seq<Link>, networks: seq<Network>)
    requires i + 1 < |path|
    ensures HopPrices(path[..i + 2], links, networks)
         == HopPrices(path[..i + 1], links, networks) + [HopPrice(path[i], path[i + 1], links, networks)]
  {
    assert path[..i + 2] == path[..i + 1] + [path[i + 1]];
    HopPricesAppend(path[..i + 1], [path[i + 1]], links, networks);
  }

  /**
   * The loop of the source: one price per hop appended to `calPrice`, then
   * the weighted sum of processing time and prices.
   */
  method CalculateCostOfRoute(path: seq<string>, processingTimeMap: map<string, int>, links: seq<Link>, networks: seq<Network>)
    returns (cost: int)
    ensures cost == CostOfRoute(path, processingTimeMap, links, networks)
  {
    var calPrice: seq<int> := [];
    var i := 0;
    while i < |path| - 1
      invariant path == [] ==> i == 0 && calPrice == []
      invariant path != [] ==> 0 <= i <= |path| - 1 && calPrice == HopPrices(path[..i + 1], links, networks)
    {
      var link := FindLinkForNetworks(path[i], path[i + 1], networks);
      var price := FindPriceForLink(links, link);
      HopPricesExtend(path, i, links, networks);
      calPrice := calPrice + [price];
      i := i + 1;
    }
    assert path != [] ==> path[..i + 1] == path;
    var totalProcessingTime := TotalProcessingTime(path, processingTimeMap);
    var totalPrice := Sum(calPrice);
    cost := 5 * totalProcessingTime + 2 * totalPrice;
  }

  /** A one-element path has no hop: its cost is five times its processing time, whatever the tables hold. */
  lemma SingleElementCost(e: string, processingTimeMap: map<string, int>, links: seq<Link>, networks: seq<Network>)
    ensures CostOfRoute([e], processingTimeMap, links, networks) == 5 * TimeOf(e, processingTimeMap)
  {
    TotalProcessingTimeDefaults([e], processingTimeMap);
  }

  /** The hops of a joined path: those of each half plus the hop across the seam. */
  lemma HopPricesAppend(a: seq<string>, b: seq<string>, links: seq<Link>, networks: seq<Network>)
    requires a != [] && b != []
    ensures HopPrices(a + b, links, networks)
         == HopPrices(a, links, networks) + [HopPrice(a[|a| - 1], b[0], links, networks)] + HopPrices(b, links, networks)
  {
    var l := HopPrices(a + b, links, networks);
    var r := HopPrices(a, links, networks) + [HopPrice(a[|a| - 1], b[0], links, networks)] + HopPrices(b, links, networks);
    assert |l| == |r|;
    forall k | 0 <= k < |l| ensures l[k] == r[k] {
      if k < |a| - 1 {
        assert (a + b)[k] == a[k] && (a + b)[k + 1] == a[k + 1];
      } else if k == |a| - 1 {
        assert (a + b)[k] == a[k] && (a + b)[k + 1] == b[0];
      } else {
        assert (a + b)[k] == b[k - |a|] && (a + b)[k + 1] == b[k - |a| + 1];
      }
    }
  }

  /** Joining two paths costs what they cost apart plus twice the price of the hop that joins them. */
  lemma CostOfJoinedRoute(a: seq<string>, b: seq<string>, processingTimeMap: map<string, int>, links: seq<Link>, networks: seq<Network>)
    requires a != [] && b != []
    ensures CostOfRoute(a + b, processingTimeMap, links, networks)
         == CostOfRoute(a, processingTimeMap, links, networks) + CostOfRoute(b, processingTimeMap, links, networks)
            + 2 * HopPrice(a[|a| - 1], b[0], links, networks)
  {
    TotalProcessingTimeAppend(a, b, processingTimeMap);
    HopPricesAppend(a, b, links, networks);
    var h := HopPrice(a[|a| - 1], b[0], links, networks);
    SumAppend(HopPrices(a, links, networks) + [h], HopPrices(b, links, networks));
    SumAppend(HopPrices(a, links, networks), [h]);
  }

  /** With non-negative times and prices every route has a non-negative cost. */
  lemma CostNonNegative(path: seq<string>, processingTimeMap: map<string, int>, links: seq<Link>, networks: seq<Network>)
    requires NonNegativeTimes(processingTimeMap)
    requires NonNegativePrices(links)
    ensures CostOfRoute(path, processingTimeMap, links, networks) >= 0
  {
    SumOfTimesNonNegative(PresentElements(path, processingTimeMap), processingTimeMap);
    var prices := HopPrices(path, links, networks);
    forall k | 0 <= k < |prices| ensures prices[k] >= 0 {
      assert prices[k] == FindPriceForLink(links, FindLinkForNetworks(path[k], path[k + 1], networks));
    }
    SumNonNegative(prices);
  }

  function Reverse(path: seq<string>): (r: seq<string>)
    ensures |r| == |path|
    ensures forall k :: 0 <= k < |path| ==> r[k] == path[|path| - 1 - k]
  {
    if path == [] then [] else Reverse(path[1..]) + [path[0]]
  }

  /** Travelling a route backwards costs the same: times are order-free and link lookup is symmetric. */
  lemma {:induction false} CostOfReversedRoute(path: seq<string>, processingTimeMap: map<string, int>, links: seq<Link>, networks: seq<Network>)
    ensures CostOfRoute(Reverse(path), processingTimeMap, links, networks) == CostOfRoute(path, processingTimeMap, links, networks)
  {
    if |path| == 1 {
      assert Reverse(path) == path;
    } else if |path| > 1 {
      var rest := path[1..];
      var back := Reverse(rest);
      var first := [path[0]];
      assert Reverse(path) == back + first;
      assert back[|back| - 1] == rest[0];
      assert first + rest == path;
      CostOfReversedRoute(rest, processingTimeMap, links, networks);
      CostOfJoinedRoute(back, first, processingTimeMap, links, networks);
      CostOfJoinedRoute(first, rest, processingTimeMap, links, networks);
      FindLinkSymmetric(rest[0], path[0], networks);
    }
  }

  /** Example: elements of time 10 and 20 joined by a link of price 5 cost 5 x 30 + 2 x 5. */
  lemma TwoElementExample()
    ensures CostOfRoute(["P1", "P2"], map["P1" := 10, "P2" := 20], [Link("L1", 5)], [Network("P1", "L1", "P2")]) == 160
  {
    var m := map["P1" := 10, "P2" := 20];
    TotalProcessingTimeDefaults(["P1", "P2"], m);
    assert DefaultedTime(["P2"], m) == 20;
    assert HopPrices(["P1", "P2"], [Link("L1", 5)], [Network("P1", "L1", "P2")]) == [5];
  }
}
