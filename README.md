# Least-cost route calculator, modelled in Dafny

This project models the route-costing and selection core of the least-cost
route calculator (`org.bt.Least`). Two person names are resolved to their
exchanges. The route table gives the candidate paths for that exchange pair.
Each path is a comma-separated list of network-element names. Every candidate
is costed as `5 x total processing time + 2 x total link price`, and the
cheapest candidate is reported as its elements joined by `->`, with its cost.

Modules, one per component of `Least.java` and its record classes:

- `Wrappers` (wrappers.dfy): `Option` stands in for Java `null`; `Result` and `Outcome` stand in for thrown exceptions.
- `Exception` (exception.dfy): the three failure kinds of `LeastCostRouteException` and their messages.
- `Model` (model.dfy): the records `Person`, `Route`, `NetworkElement`, `Network`, `Link` and `LeastCostRoute`, plus `Candidate`, one entry of the route-to-cost table.
- `Strings` (strings.dfy): Java's `String.split(",")` (trailing empty pieces dropped; a string without a comma is its own only piece) and `String.join`.
- `RouteCost` (routecost.dfy): link lookup, price lookup, the processing-time table, total processing time, hop prices, the cost formula, and the costing loop as a method.
- `Candidates` (candidates.dfy): grouping of the route table by exchange key, as a method with a loop, and lookup of one key.
- `Selection` (selection.dfy): minimum selection, and the loop that costs every candidate.
- `LeastCostRouting` (least.dfy): person validation, route formatting, the pipeline as a function, and the class `Least` with the four fields the source updates.

The tables are sequences given as parameters. `ExchangeMapping.getExchange` is
the function parameter `exchangeKey`. The Java map with array keys becomes a
sequence of candidates in candidate order. Its keys are compared by identity,
so every split path is its own entry even when two path strings are equal.
`Stream.min` keeps the earlier of two equal entries. The model therefore picks
the first cheapest candidate in candidate order.

Three behaviours of the code that a reader might not expect, all modelled as written:

- For an exchange pair with no routes, the lookup yields `null` (`None`), not an empty list.
- When several network rows join a hop, the first such row counts.
- A path string is split with Java's rules, so trailing empty pieces are dropped.

## Model

| member | source | states |
|---|---|---|
| Exception.MessageIdentifiesError | btassignment/least-cost-route-bt/src/main/java/org/bt/exception/LeastCostRouteException.java:5-7 | the three failure kinds carry three distinct message constants |
| Strings.Fields | btassignment/least-cost-route-bt/src/main/java/org/bt/Least.java:109 | splitting on every comma gives at least one piece; no piece holds a comma; a comma-free string is its own only piece; a string with a comma gives at least two pieces |
| Strings.DropTrailingEmpty | btassignment/least-cost-route-bt/src/main/java/org/bt/Least.java:109 | the result is a prefix of the input that does not end in an empty piece, and everything cut off is empty |
| Strings.Split | btassignment/least-cost-route-bt/src/main/java/org/bt/Least.java:109 | no element name produced by the path split contains a comma |
| Strings.FieldsLastEmpty | btassignment/least-cost-route-bt/src/main/java/org/bt/Least.java:109 | the last comma-separated piece is empty exactly when the string is empty or ends in a comma |
| Strings.JoinFields | btassignment/least-cost-route-bt/src/main/java/org/bt/Least.java:197-199 | joining the comma-separated pieces with a separator equals the string with each comma replaced by that separator |
| Strings.FieldsOfJoin | btassignment/least-cost-route-bt/src/main/java/org/bt/Least.java:109 | splitting comma-joined comma-free names on every comma gives the names back |
| Strings.SplitJoin | btassignment/least-cost-route-bt/src/main/java/org/bt/Least.java:109 | Split undoes a comma join of comma-free names whose last name is non-empty (or that is a single name) |
| Strings.JoinSplit | btassignment/least-cost-route-bt/src/main/java/org/bt/Least.java:109 | for a path string not ending in a comma, re-joining its split restores it, and joining with another separator rewrites each comma |
| Strings.Join | btassignment/least-cost-route-bt/src/main/java/org/bt/Least.java:198 | the joined string starts with the first part |
| Strings.FieldsAppendComma | btassignment/least-cost-route-bt/src/main/java/org/bt/Least.java:109 | a comma appended to a string closes its last piece and adds an empty one |
| Strings.SplitTrailingComma | btassignment/least-cost-route-bt/src/main/java/org/bt/Least.java:109 | a trailing comma after a non-empty path string does not change its split |
| RouteCost.FindLinkForNetworks | btassignment/least-cost-route-bt/src/main/java/org/bt/Least.java:145-152 | None exactly when no network row joins the two elements in either direction; otherwise the link of the first such row in table order |
| RouteCost.FindLinkSymmetric | btassignment/least-cost-route-bt/src/main/java/org/bt/Least.java:145-152 | link lookup gives the same answer for (a, b) and (b, a) |
| RouteCost.FindPriceForLink | btassignment/least-cost-route-bt/src/main/java/org/bt/Least.java:154-160 | the price of the first link row with the name; 0 when no row has it; non-negative when all prices are |
| RouteCost.MissingLinkIsFree | btassignment/least-cost-route-bt/src/main/java/org/bt/Least.java:154-160 | a hop with no link (null) is priced 0 whatever the link table holds |
| RouteCost.HopPrices | btassignment/least-cost-route-bt/src/main/java/org/bt/Least.java:129-137 | a path of n elements has n-1 hop prices, the k-th being the price of the link between elements k and k+1 |
| RouteCost.ProcessingTimeMap | btassignment/least-cost-route-bt/src/main/java/org/bt/Least.java:106-107 | the table's keys are exactly the element names, and with unique names each maps to its element's processing time |
| RouteCost.PresentElements | btassignment/least-cost-route-bt/src/main/java/org/bt/Least.java:162-165 | every element kept has a processing time, and every occurrence of an element with a processing time is kept (as a multiset, the path restricted to the known names) |
| RouteCost.PresentElementsAppend | btassignment/least-cost-route-bt/src/main/java/org/bt/Least.java:162-165 | the filter keeps path order: filtering a joined path is filtering each half and joining the results |
| RouteCost.TotalProcessingTime | btassignment/least-cost-route-bt/src/main/java/org/bt/Least.java:162-167 | the total time is non-negative when every time is, and 0 when no element of the path has a time |
| RouteCost.TotalProcessingTimeDefaults | btassignment/least-cost-route-bt/src/main/java/org/bt/Least.java:162-167 | summing only the known elements equals summing every element with unknown ones counted as 0 |
| RouteCost.TotalProcessingTimeAppend | btassignment/least-cost-route-bt/src/main/java/org/bt/Least.java:162-167 | total processing time is additive over splitting a path in two |
| RouteCost.UnknownElementContributesNothing | btassignment/least-cost-route-bt/src/main/java/org/bt/Least.java:162-167 | inserting an element with no processing time anywhere in a path leaves its total time unchanged |
| RouteCost.CalculateCostOfRoute | btassignment/least-cost-route-bt/src/main/java/org/bt/Least.java:123-143 | the loop's hop-price list is the path's hop prices, and the cost is 5 x total time + 2 x their sum |
| RouteCost.CostOfRoute | btassignment/least-cost-route-bt/src/main/java/org/bt/Least.java:139-142 | the cost is 5 x the processing time of every element (0 for an element without one) + 2 x the sum of the hop prices |
| RouteCost.HopPricesExtend | btassignment/least-cost-route-bt/src/main/java/org/bt/Least.java:129-137 | one more loop iteration appends the price of the next hop to the hop-price list of the prefix |
| RouteCost.SingleElementCost | btassignment/least-cost-route-bt/src/main/java/org/bt/Least.java:129-142 | a one-element path costs 5 x its processing time (0 if unknown), whatever the network and link tables hold |
| RouteCost.HopPricesAppend | btassignment/least-cost-route-bt/src/main/java/org/bt/Least.java:129-137 | the hops of a joined path are those of each half plus the one hop across the join |
| RouteCost.CostOfJoinedRoute | btassignment/least-cost-route-bt/src/main/java/org/bt/Least.java:123-143 | the cost of a joined path is the two costs plus twice the price of the joining hop |
| RouteCost.CostNonNegative | btassignment/least-cost-route-bt/src/main/java/org/bt/Least.java:139-142 | with non-negative times and prices every path's cost is non-negative |
| RouteCost.CostOfReversedRoute | btassignment/least-cost-route-bt/src/main/java/org/bt/Least.java:123-152 | a path travelled backwards costs the same as the path |
| RouteCost.TwoElementExample | btassignment/least-cost-route-bt/src/main/java/org/bt/Least.java:123-143 | elements of time 10 and 20 joined by a link of price 5 cost 160 |
| Candidates.PathsForAppend | btassignment/least-cost-route-bt/src/main/java/org/bt/Least.java:67-73 | grouping the route table distributes over splitting the table in two, keeping table order |
| Candidates.PathsForMembers | btassignment/least-cost-route-bt/src/main/java/org/bt/Least.java:67-73 | a path is listed under a key exactly when some route row with that key carries it |
| Candidates.PathsForEmpty | btassignment/least-cost-route-bt/src/main/java/org/bt/Least.java:67-75 | a key has no paths exactly when no route row has that key |
| Candidates.PathsFor | btassignment/least-cost-route-bt/src/main/java/org/bt/Least.java:67-73 | a key's list never has more paths than the route table has rows |
| Candidates.PathsForExtend | btassignment/least-cost-route-bt/src/main/java/org/bt/Least.java:67-73 | one more route row appends its path to its own key's list and changes no other key's list |
| Candidates.Lookup | btassignment/least-cost-route-bt/src/main/java/org/bt/Least.java:74-75 | a looked-up key is either absent (None) or has a non-empty list, never an empty one |
| Candidates.GetRoute | btassignment/least-cost-route-bt/src/main/java/org/bt/Least.java:65-76 | None exactly when no row has the pair's key; otherwise the non-empty list of that key's paths in table order |
| Candidates.LookupSymmetric | btassignment/least-cost-route-bt/src/main/java/org/bt/Least.java:74-75 | with a symmetric key function, the candidates for (a, b) and (b, a) are the same |
| Selection.MinIndex | btassignment/least-cost-route-bt/src/main/java/org/bt/Least.java:97-101 | the chosen entry costs no more than any entry, and every earlier entry costs strictly more |
| Selection.FindMinimumCost | btassignment/least-cost-route-bt/src/main/java/org/bt/Least.java:97-101 | None exactly for an empty table; otherwise an entry of the table whose cost is at most every entry's cost |
| Selection.MinimumIsFirstOfTies | btassignment/least-cost-route-bt/src/main/java/org/bt/Least.java:97-101 | among equal minimum costs the first entry in table order is chosen |
| Selection.TwoCandidateExample | btassignment/least-cost-route-bt/src/main/java/org/bt/Least.java:97-101 | of candidates costing 160 and 140 the one costing 140 is chosen |
| Selection.RouteAndCost | btassignment/least-cost-route-bt/src/main/java/org/bt/Least.java:103-121 | one entry per candidate path string, in order: its split elements and their cost |
| Selection.RouteAndCostExtend | btassignment/least-cost-route-bt/src/main/java/org/bt/Least.java:113-118 | costing one more path string appends its entry to the table of the earlier ones |
| Selection.CalculateRouteAndCost | btassignment/least-cost-route-bt/src/main/java/org/bt/Least.java:103-121 | the loop builds the route-to-cost table of all candidates, given unique element names |
| LeastCostRouting.ValidatePersonAndFindExchange | btassignment/least-cost-route-bt/src/main/java/org/bt/Least.java:170-176 | the exchange of the first person row with the name; PersonNameNotValid exactly when no row has it |
| LeastCostRouting.FormattedRouteIsArrowedPath | btassignment/least-cost-route-bt/src/main/java/org/bt/Least.java:197-199 | the reported route is the path string with each comma written as `->` (for paths not ending in a comma) |
| LeastCostRouting.ArrayToString | btassignment/least-cost-route-bt/src/main/java/org/bt/Least.java:197-199 | the empty array formats as the empty string; otherwise the text starts with the first element |
| LeastCostRouting.LeastCostOf | btassignment/least-cost-route-bt/src/main/java/org/bt/Least.java:78-95 | fails exactly when the routes are absent or empty, and then with RouteNotFound |
| LeastCostRouting.LeastCostRouteFor | btassignment/least-cost-route-bt/src/main/java/org/bt/Least.java:31-95 | the pipeline fails only with PersonNameNotValid or RouteNotFound, never with FileReadError |
| LeastCostRouting.InvalidPersonFails | btassignment/least-cost-route-bt/src/main/java/org/bt/Least.java:47-58 | an unknown source or destination name fails with PersonNameNotValid whatever the other tables hold |
| LeastCostRouting.RouteNotFoundExactly | btassignment/least-cost-route-bt/src/main/java/org/bt/Least.java:78-93 | for valid persons the answer is RouteNotFound exactly when no route row has their exchange key |
| LeastCostRouting.LeastCostIsCheapestCandidate | btassignment/least-cost-route-bt/src/main/java/org/bt/Least.java:78-101 | with candidates, the answer is the arrow-formatted split of one candidate with its cost, and no candidate costs less |
| LeastCostRouting.LeastCostRouteSymmetric | btassignment/least-cost-route-bt/src/main/java/org/bt/Least.java:47-76 | with a symmetric exchange key, swapping the two persons gives the same answer |
| LeastCostRouting.Least.constructor | btassignment/least-cost-route-bt/src/main/java/org/bt/Least.java:25-29 | all four fields start out null |
| LeastCostRouting.Least.InitializeDataStructures | btassignment/least-cost-route-bt/src/main/java/org/bt/Least.java:47-63 | source is validated first, then destination, then the routes are looked up; each failure stops with PersonNameNotValid and leaves the later fields unchanged |
| LeastCostRouting.Least.CalculateLeastCostRoute | btassignment/least-cost-route-bt/src/main/java/org/bt/Least.java:78-95 | RouteNotFound for absent or empty routes; otherwise it records the cheapest candidate, arrow-formatted, with its cost |
| LeastCostRouting.Least.FindLeastCostRoute | btassignment/least-cost-route-bt/src/main/java/org/bt/Least.java:31-37 | the result is the pipeline's answer for the two names, and on success it is the recorded route; the source exchange is set once the source is valid, the destination exchange and routes once both are, and the fields not reached keep their values |

## Left out

- CSV ingestion (`readCsvFile`, `initializeDataStructures`' file paths): the tables are sequence parameters. So the model never produces `FileReadError`, although the error kind is declared.
- `ExchangeMapping.getExchange` is not part of this model. It is the parameter `exchangeKey`, and its symmetry appears only as a precondition of the symmetry lemmas.
- `LeastCostRoutingMain` (argument indexing), all logging, and the second `findLeastCostRoute` overload taking `Person` objects, which only reads their names.
- Hash-map iteration order: the minimum is chosen in candidate order, and ties go to the first candidate. The source's winner among equal-cost candidates depends on the hash map's order.
- `Collectors.toMap` throwing on duplicate element names: unique names are a precondition of `ProcessingTimeMap` and of every function, lemma and method that builds the table through it (`LeastCostOf` and `LeastCostRouteFor` require them only when costing is reached).
- Null fields in table rows (which would throw `NullPointerException`) and 64-bit `Long` overflow: strings are never null, and integers are unbounded.
- The log statement after minimum selection, which would dereference a null result if no minimum existed: in the source this cannot happen, since a non-empty route list gives a non-empty cost table.
