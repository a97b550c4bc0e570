/** The route planner of src/tms/service.py: builds the graph and the price table, then keeps the
    cheapest answer over every pair of an origin-city hub and a destination-city hub. */
module RoutePlanner {
  import opened Common
  import opened HubGraph
  import opened Dijkstra

  datatype HubRow = HubRow(code: Hub, city: City)

  datatype CarrierRoute = CarrierRoute(originCity: City, destCity: City, carrier: string, pricePerKg: real)

  function PriceKey(cr: CarrierRoute): (City, City, string) {
    (cr.originCity, cr.destCity, cr.carrier)
  }

  /** The price of a key is that of the last route loaded for it. */
  ghost predicate IsPriceTable(routes: seq<CarrierRoute>, prices: PriceMap) {
    (forall k | k in prices :: exists i :: 0 <= i < |routes| && PriceKey(routes[i]) == k) &&
    forall i | 0 <= i < |routes| && (forall j | i < j < |routes| :: PriceKey(routes[j]) != PriceKey(routes[i])) ::
      PriceKey(routes[i]) in prices && prices[PriceKey(routes[i])] == routes[i].pricePerKg
  }

  method BuildPriceMap(routes: seq<CarrierRoute>) returns (prices: PriceMap)
    ensures IsPriceTable(routes, prices)
    ensures (forall i | 0 <= i < |routes| :: routes[i].pricePerKg >= 0.0) ==> forall k | k in prices :: prices[k] >= 0.0
  {
    prices := map[];
    for n := 0 to |routes|
      invariant PricedBy(routes, n, prices)
    {
      PriceOneMore(routes, n, prices);
      prices := prices[PriceKey(routes[n]) := routes[n].pricePerKg];
    }
  }

  /** The route among the first `n` that set the price of a key. */
  ghost predicate Sets(routes: seq<CarrierRoute>, n: nat, k: (City, City, string), i: nat)
    requires n <= |routes|
  {
    i < n && PriceKey(routes[i]) == k && forall j | i < j < n :: PriceKey(routes[j]) != k
  }

  ghost predicate IsPriced(routes: seq<CarrierRoute>, n: nat, k: (City, City, string))
    requires n <= |routes|
  {
    exists i: nat :: Sets(routes, n, k, i)
  }

  /** Every key is priced by the last of the first `n` routes that has it. */
  ghost predicate PricedBy(routes: seq<CarrierRoute>, n: nat, prices: PriceMap)
    requires n <= |routes|
  {
    (forall k | k in prices :: IsPriced(routes, n, k)) &&
    forall k, i: nat | Sets(routes, n, k, i) :: k in prices && prices[k] == routes[i].pricePerKg
  }

  function Price(prices: PriceMap, cr: CarrierRoute): PriceMap {
    prices[PriceKey(cr) := cr.pricePerKg]
  }

  lemma KeyIsPriced(routes: seq<CarrierRoute>, n: nat, prices: PriceMap, k: (City, City, string))
    requires n < |routes| && PricedBy(routes, n, prices) && k in Price(prices, routes[n])
    ensures IsPriced(routes, n + 1, k)
  {
    if k == PriceKey(routes[n]) {
      assert Sets(routes, n + 1, k, n);
    } else {
      assert IsPriced(routes, n, k);
      var i: nat :| Sets(routes, n, k, i);
      assert Sets(routes, n + 1, k, i);
    }
  }

  lemma PriceOneMore(routes: seq<CarrierRoute>, n: nat, prices: PriceMap)
    requires n < |routes| && PricedBy(routes, n, prices)
    ensures PricedBy(routes, n + 1, Price(prices, routes[n]))
  {
    forall k | k in Price(prices, routes[n]) ensures IsPriced(routes, n + 1, k) {
      KeyIsPriced(routes, n, prices, k);
    }
    forall k, i: nat | Sets(routes, n + 1, k, i)
      ensures k in Price(prices, routes[n]) && Price(prices, routes[n])[k] == routes[i].pricePerKg
    {
    }
  }

  /** The codes of the hubs in a city, in table order. */
  function HubsIn(hubs: seq<HubRow>, city: City): (codes: seq<Hub>)
    ensures forall h :: h in codes <==> HubRow(h, city) in hubs
  {
    if hubs == [] then []
    else
      assert hubs == hubs[..|hubs| - 1] + [hubs[|hubs| - 1]];
      HubsIn(hubs[..|hubs| - 1], city) + (if hubs[|hubs| - 1].city == city then [hubs[|hubs| - 1].code] else [])
  }

  /** A walk from some hub of one city to some hub of the other. */
  ghost predicate CityWalk(g: Graph, os: seq<Hub>, ds: seq<Hub>, o: Hub, w: seq<Edge>) {
    o in os && End(o, w) in ds && IsWalk(g, o, w)
  }

  /** `route` answers some origin/destination hub pair. */
  ghost predicate AnswersSomePair(g: Graph, flat: Option<real>, os: seq<Hub>, ds: seq<Hub>, route: Route) {
    exists o, d :: o in os && d in ds && GoodAnswer(Problem(g, o, flat), d, route)
  }

  /** `route` is the planner's answer for the cheapest origin/destination hub pair. */
  ghost predicate IsBestPlan(g: Graph, flat: Option<real>, os: seq<Hub>, ds: seq<Hub>, route: Route) {
    AnswersSomePair(g, flat, os, ds, route) &&
    forall o, w | CityWalk(g, os, ds, o, w) :: route.totalCost <= WalkCost(flat, w)
  }

  ghost predicate NoCityWalk(g: Graph, os: seq<Hub>, ds: seq<Hub>) {
    forall o, w :: !CityWalk(g, os, ds, o, w)
  }

  /** No walk between these two hubs is cheaper than the best answer so far. */
  ghost predicate Covers(g: Graph, flat: Option<real>, o: Hub, d: Hub, best: Option<Route>) {
    forall w | Connects(g, o, w, d) :: best.Some? && best.value.totalCost <= WalkCost(flat, w)
  }

  /** The best answer so far covers the first `i` origin hubs and, for the next one, `j` destinations. */
  ghost predicate BestOver(g: Graph, flat: Option<real>, os: seq<Hub>, ds: seq<Hub>, i: nat, j: nat, best: Option<Route>) {
    (best.Some? ==> AnswersSomePair(g, flat, os, ds, best.value)) &&
    forall a, b | 0 <= a < |os| && 0 <= b < |ds| && (a < i || (a == i && b < j)) :: Covers(g, flat, os[a], ds[b], best)
  }

  lemma BestOverAll(g: Graph, flat: Option<real>, os: seq<Hub>, ds: seq<Hub>, best: Option<Route>)
    requires BestOver(g, flat, os, ds, |os|, 0, best)
    ensures best.Some? ==> IsBestPlan(g, flat, os, ds, best.value)
    ensures best.None? ==> NoCityWalk(g, os, ds)
  {
    forall o, w | CityWalk(g, os, ds, o, w)
      ensures best.Some? && best.value.totalCost <= WalkCost(flat, w)
    {
      var a :| 0 <= a < |os| && os[a] == o;
      var b :| 0 <= b < |ds| && ds[b] == End(o, w);
      assert Covers(g, flat, os[a], ds[b], best) && Connects(g, o, w, ds[b]);
    }
  }

  /** Searching one more pair and keeping the cheaper answer covers that pair too. */
  lemma PairStep(g: Graph, flat: Option<real>, os: seq<Hub>, ds: seq<Hub>, i: nat, j: nat,
                 best: Option<Route>, r: Option<Route>, best': Option<Route>)
    requires i < |os| && j < |ds| && BestOver(g, flat, os, ds, i, j, best)
    requires r.None? <==> !Reachable(g, os[i], ds[j])
    requires r.Some? ==> GoodAnswer(Problem(g, os[i], flat), ds[j], r.value)
    requires best' == if r.Some? && (best.None? || r.value.totalCost < best.value.totalCost) then r else best
    ensures BestOver(g, flat, os, ds, i, j + 1, best')
  {
    if r.Some? {
      var o, d := os[i], ds[j];
      assert o in os && d in ds && GoodAnswer(Problem(g, o, flat), d, r.value);
    }
    assert Covers(g, flat, os[i], ds[j], best') by {
      forall w | Connects(g, os[i], w, ds[j]) ensures best'.Some? && best'.value.totalCost <= WalkCost(flat, w) {
        assert Reachable(g, os[i], ds[j]);
      }
    }
    forall a, b | 0 <= a < |os| && 0 <= b < |ds| && (a < i || (a == i && b < j)) ensures Covers(g, flat, os[a], ds[b], best') {
      assert Covers(g, flat, os[a], ds[b], best);
    }
  }

  // ---- The answer in terms of the tables -------------------------------------

  /** The price of route `i` applies to the city pair: no later route of the same carrier replaces it. */
  ghost predicate InForce(routes: seq<CarrierRoute>, oc: City, dc: City, i: nat) {
    i < |routes| && routes[i].originCity == oc && routes[i].destCity == dc &&
    forall j | i < j < |routes| :: routes[j].originCity != oc || routes[j].destCity != dc || routes[j].carrier != routes[i].carrier
  }

  ghost predicate IsLowestPrice(routes: seq<CarrierRoute>, oc: City, dc: City, price: real) {
    (exists i: nat :: InForce(routes, oc, dc, i) && routes[i].pricePerKg == price) &&
    forall i: nat | InForce(routes, oc, dc, i) :: price <= routes[i].pricePerKg
  }

  /** `flat` is the weight times the lowest price in force for the city pair; None without a carrier. */
  ghost predicate IsCharge(routes: seq<CarrierRoute>, oc: City, dc: City, weight: real, flat: Option<real>) {
    (flat.None? ==> forall i | 0 <= i < |routes| :: routes[i].originCity != oc || routes[i].destCity != dc) &&
    (flat.Some? ==> exists price :: IsLowestPrice(routes, oc, dc, price) && flat.value == weight * price)
  }

  lemma {:induction false} LastOfKey(routes: seq<CarrierRoute>, i: nat) returns (j: nat)
    requires i < |routes|
    ensures InForce(routes, routes[i].originCity, routes[i].destCity, j) && PriceKey(routes[i]) == PriceKey(routes[j])
    decreases |routes| - i
  {
    if k: nat :| i < k < |routes| && PriceKey(routes[k]) == PriceKey(routes[i]) {
      j := LastOfKey(routes, k);
    } else {
      j := i;
    }
  }

  lemma PriceOfRoute(routes: seq<CarrierRoute>, prices: PriceMap, oc: City, dc: City, i: nat)
    requires IsPriceTable(routes, prices) && InForce(routes, oc, dc, i)
    ensures (oc, dc, routes[i].carrier) in prices && prices[(oc, dc, routes[i].carrier)] == routes[i].pricePerKg
  {
    assert PriceKey(routes[i]) == (oc, dc, routes[i].carrier);
  }

  lemma RouteOfPrice(routes: seq<CarrierRoute>, prices: PriceMap, k: (City, City, string)) returns (i: nat)
    requires IsPriceTable(routes, prices) && k in prices
    ensures InForce(routes, k.0, k.1, i) && prices[k] == routes[i].pricePerKg
  {
    var j: nat :| 0 <= j < |routes| && PriceKey(routes[j]) == k;
    i := LastOfKey(routes, j);
    PriceOfRoute(routes, prices, k.0, k.1, i);
  }

  lemma NoPriceNoRoute(routes: seq<CarrierRoute>, prices: PriceMap, oc: City, dc: City, i: nat)
    requires IsPriceTable(routes, prices) && i < |routes| && forall k | k in prices :: !ServesPair(k, oc, dc)
    ensures routes[i].originCity != oc || routes[i].destCity != dc
  {
    var j := LastOfKey(routes, i);
    PriceOfRoute(routes, prices, routes[i].originCity, routes[i].destCity, j);
    assert !ServesPair((routes[i].originCity, routes[i].destCity, routes[j].carrier), oc, dc);
  }

  lemma CheapestIsLowest(routes: seq<CarrierRoute>, prices: PriceMap, oc: City, dc: City, cheapest: Option<real>)
    requires IsPriceTable(routes, prices) && IsCheapest(prices, oc, dc, cheapest) && cheapest.Some?
    ensures IsLowestPrice(routes, oc, dc, cheapest.value)
  {
    var k :| k in prices && ServesPair(k, oc, dc) && prices[k] == cheapest.value;
    var i := RouteOfPrice(routes, prices, k);
    forall j: nat | InForce(routes, oc, dc, j) ensures cheapest.value <= routes[j].pricePerKg {
      PriceOfRoute(routes, prices, oc, dc, j);
      assert ServesPair((oc, dc, routes[j].carrier), oc, dc);
    }
  }

  lemma LowestPriceCharge(routes: seq<CarrierRoute>, prices: PriceMap, oc: City, dc: City, weight: real,
                          cheapest: Option<real>, flat: Option<real>)
    requires IsPriceTable(routes, prices) && cheapest.Some? && IsCheapest(prices, oc, dc, cheapest)
    requires flat.Some? && flat.value == weight * cheapest.value
    ensures IsCharge(routes, oc, dc, weight, flat)
  {
    CheapestIsLowest(routes, prices, oc, dc, cheapest);
  }

  lemma NoPriceNoCharge(routes: seq<CarrierRoute>, prices: PriceMap, oc: City, dc: City, weight: real)
    requires IsPriceTable(routes, prices) && forall k | k in prices :: !ServesPair(k, oc, dc)
    ensures IsCharge(routes, oc, dc, weight, None)
  {
    forall i | 0 <= i < |routes| ensures routes[i].originCity != oc || routes[i].destCity != dc {
      NoPriceNoRoute(routes, prices, oc, dc, i);
    }
  }

  lemma FlatChargeParts(prices: PriceMap, oc: City, dc: City, weight: real) returns (cheapest: Option<real>, flat: Option<real>)
    ensures flat == FlatCharge(prices, oc, dc, weight) && IsCheapest(prices, oc, dc, cheapest) && (cheapest.Some? <==> flat.Some?)
    ensures cheapest.Some? ==> flat.value == weight * cheapest.value
  {
    cheapest, flat := Cheapest(prices, oc, dc), FlatCharge(prices, oc, dc, weight);
  }

  lemma ChargeIsFlatCharge(routes: seq<CarrierRoute>, prices: PriceMap, oc: City, dc: City, weight: real) returns (flat: Option<real>)
    requires IsPriceTable(routes, prices)
    ensures flat == FlatCharge(prices, oc, dc, weight) && IsCharge(routes, oc, dc, weight, flat)
  {
    var cheapest;
    cheapest, flat := FlatChargeParts(prices, oc, dc, weight);
    if cheapest.Some? {
      LowestPriceCharge(routes, prices, oc, dc, weight, cheapest, flat);
    } else {
      NoPriceNoCharge(routes, prices, oc, dc, weight);
    }
  }

  /** A chain of connections from some hub of one city to some hub of the other. */
  ghost predicate CityChain(hubs: seq<HubRow>, conns: seq<Connection>, oc: City, dc: City, o: Hub, chain: seq<Connection>) {
    HubRow(o, oc) in hubs && HubRow(ChainEnd(o, chain), dc) in hubs && IsChain(conns, o, chain)
  }

  ghost predicate IsLeastChainCost(hubs: seq<HubRow>, conns: seq<Connection>, flat: Option<real>, oc: City, dc: City, cost: real) {
    (exists o, chain :: CityChain(hubs, conns, oc, dc, o, chain) && ChainCost(flat, chain) == cost) &&
    forall o, chain | CityChain(hubs, conns, oc, dc, o, chain) :: cost <= ChainCost(flat, chain)
  }

  lemma CityWalkIsChain(hubs: seq<HubRow>, conns: seq<Connection>, g: Graph, flat: Option<real>, oc: City, dc: City,
                        o: Hub, w: seq<Edge>)
    returns (chain: seq<Connection>)
    requires IsGraphOf(conns, g) && CityWalk(g, HubsIn(hubs, oc), HubsIn(hubs, dc), o, w)
    ensures CityChain(hubs, conns, oc, dc, o, chain) && ChainCost(flat, chain) == WalkCost(flat, w)
  {
    chain := WalkIsChain(conns, g, flat, o, w);
  }

  lemma CityChainIsWalk(hubs: seq<HubRow>, conns: seq<Connection>, g: Graph, flat: Option<real>, oc: City, dc: City,
                        o: Hub, chain: seq<Connection>)
    returns (w: seq<Edge>)
    requires IsGraphOf(conns, g) && CityChain(hubs, conns, oc, dc, o, chain)
    ensures CityWalk(g, HubsIn(hubs, oc), HubsIn(hubs, dc), o, w) && WalkCost(flat, w) == ChainCost(flat, chain)
  {
    w := ChainIsWalk(conns, g, flat, o, chain);
  }

  lemma NoWalkMeansNoChain(hubs: seq<HubRow>, conns: seq<Connection>, g: Graph, flat: Option<real>, oc: City, dc: City)
    requires IsGraphOf(conns, g)
    ensures NoCityWalk(g, HubsIn(hubs, oc), HubsIn(hubs, dc)) <==> forall o, chain :: !CityChain(hubs, conns, oc, dc, o, chain)
  {
    if o, chain :| CityChain(hubs, conns, oc, dc, o, chain) {
      var w := CityChainIsWalk(hubs, conns, g, flat, oc, dc, o, chain);
    }
    if o, w :| CityWalk(g, HubsIn(hubs, oc), HubsIn(hubs, dc), o, w) {
      var chain := CityWalkIsChain(hubs, conns, g, flat, oc, dc, o, w);
    }
  }

  lemma PlanIsLeastChain(hubs: seq<HubRow>, conns: seq<Connection>, g: Graph, flat: Option<real>, oc: City, dc: City, route: Route)
    requires IsGraphOf(conns, g) && IsBestPlan(g, flat, HubsIn(hubs, oc), HubsIn(hubs, dc), route)
    ensures IsLeastChainCost(hubs, conns, flat, oc, dc, route.totalCost)
  {
    var o, d :| o in HubsIn(hubs, oc) && d in HubsIn(hubs, dc) && GoodAnswer(Problem(g, o, flat), d, route);
    var w := LeastWalk(Problem(g, o, flat), d, route.totalCost);
    var least := CityWalkIsChain(hubs, conns, g, flat, oc, dc, o, w);
    forall a, chain | CityChain(hubs, conns, oc, dc, a, chain) ensures route.totalCost <= ChainCost(flat, chain) {
      var v := CityChainIsWalk(hubs, conns, g, flat, oc, dc, a, chain);
    }
  }

  method FindBestRoutePlan(pickupCity: City, deliveryCity: City, weight: real, hubs: seq<HubRow>,
                           conns: seq<Connection>, routes: seq<CarrierRoute>)
    returns (r: Result<Route, ServiceError>, ghost g: Graph, ghost flat: Option<real>)
    requires weight >= 0.0
    requires forall i | 0 <= i < |conns| :: conns[i].dist >= 0.0
    requires forall i | 0 <= i < |routes| :: routes[i].pricePerKg >= 0.0
    ensures IsGraphOf(conns, g)
    ensures IsCharge(routes, pickupCity, deliveryCity, weight, flat)
    ensures exists prices :: IsPriceTable(routes, prices) && flat == FlatCharge(prices, pickupCity, deliveryCity, weight)
    ensures r == Err(Validation) <==> pickupCity == "" || deliveryCity == ""
    ensures r.Ok? ==> IsBestPlan(g, flat, HubsIn(hubs, pickupCity), HubsIn(hubs, deliveryCity), r.value)
    ensures pickupCity != "" && deliveryCity != "" ==>
              (r == Err(NotFound) <==> NoCityWalk(g, HubsIn(hubs, pickupCity), HubsIn(hubs, deliveryCity)))
    ensures r.Ok? ==> IsLeastChainCost(hubs, conns, flat, pickupCity, deliveryCity, r.value.totalCost)
    ensures pickupCity != "" && deliveryCity != "" ==>
              (r == Err(NotFound) <==> forall o, chain :: !CityChain(hubs, conns, pickupCity, deliveryCity, o, chain))
    ensures r.Err? ==> r.error in {NotFound, Validation}
  {
    var graph := BuildGraph(conns);
    g := graph;
    var prices := BuildPriceMap(routes);
    flat := ChargeIsFlatCharge(routes, prices, pickupCity, deliveryCity, weight);
    NoWalkMeansNoChain(hubs, conns, g, flat, pickupCity, deliveryCity);
    if pickupCity == "" || deliveryCity == "" {
      return Err(Validation), g, flat;
    }
    var originHubs, destHubs := HubsIn(hubs, pickupCity), HubsIn(hubs, deliveryCity);
    if originHubs == [] || destHubs == [] {
      return Err(NotFound), g, flat;
    }
    FlatChargeNonNegative(prices, pickupCity, deliveryCity, weight);
    CostsNonNegative(conns, graph, flat);
    var best: Option<Route> := None;
    for i := 0 to |originHubs|
      invariant BestOver(graph, flat, originHubs, destHubs, i, 0, best)
    {
      for j := 0 to |destHubs|
        invariant BestOver(graph, flat, originHubs, destHubs, i, j, best)
      {
        var result, log, left := Search(originHubs[i], destHubs[j], graph, prices, pickupCity, deliveryCity, weight);
        ghost var before := best;
        if result.Some? && (best.None? || result.value.totalCost < best.value.totalCost) {
          best := result;
        }
        assert Problem(graph, originHubs[i], flat).flat == FlatCharge(prices, pickupCity, deliveryCity, weight);
        PairStep(graph, flat, originHubs, destHubs, i, j, before, result, best);
      }
    }
    BestOverAll(graph, flat, originHubs, destHubs, best);
    match best
    case None => r := Err(NotFound);
    case Some(route) =>
      PlanNeedsWalk(graph, flat, originHubs, destHubs, route);
      PlanIsLeastChain(hubs, conns, graph, flat, pickupCity, deliveryCity, route);
      r := Ok(route);
  }

  lemma PlanNeedsWalk(g: Graph, flat: Option<real>, os: seq<Hub>, ds: seq<Hub>, route: Route)
    requires AnswersSomePair(g, flat, os, ds, route)
    ensures !NoCityWalk(g, os, ds)
  {
    var o, d :| o in os && d in ds && GoodAnswer(Problem(g, o, flat), d, route);
    var w := LeastWalk(Problem(g, o, flat), d, route.totalCost);
    assert CityWalk(g, os, ds, o, w);
  }

  lemma FlatChargeNonNegative(prices: PriceMap, oc: City, dc: City, weight: real)
    requires weight >= 0.0 && forall k | k in prices :: prices[k] >= 0.0
    ensures FlatCharge(prices, oc, dc, weight).Some? ==> FlatCharge(prices, oc, dc, weight).value >= 0.0
  {
    var c := Cheapest(prices, oc, dc);
    if c.Some? {
      assert weight * c.value >= 0.0 by { assert c.value >= 0.0; }
    }
  }

  lemma CostsNonNegative(conns: seq<Connection>, g: Graph, flat: Option<real>)
    requires forall i | 0 <= i < |conns| :: conns[i].dist >= 0.0
    requires IsGraphOf(conns, g)
    requires flat.Some? ==> flat.value >= 0.0
    ensures NonNegative(g, flat)
  {
    forall h, i | h in g && 0 <= i < |g[h]| ensures SegCost(flat, g[h][i]) >= 0.0 {
      assert g[h][i] in EdgesFrom(g, h);
      EdgeIsConnection(conns, g, h, g[h][i]);
    }
  }

  // ---- Consequences ------------------------------------------------------

  /** Two connections A to B to C and no direct one: the cost reported for A to C is right, but no
      walk along the reported path has that cost. */
  lemma ReportedPathCanBeWrong(r: Route)
    requires GoodAnswer(Problem(map["A" := [Edge("B", 2.0, 1.0)], "B" := [Edge("C", 2.0, 1.0)]], "A", None), "C", r)
    ensures !Realises(Problem(map["A" := [Edge("B", 2.0, 1.0)], "B" := [Edge("C", 2.0, 1.0)]], "A", None), r.path, r.totalCost)
  {
    var p := Problem(map["A" := [Edge("B", 2.0, 1.0)], "B" := [Edge("C", 2.0, 1.0)]], "A", None);
    assert EdgesFrom(p.g, "A") == [Edge("B", 2.0, 1.0)];
    assert UniqueEdges(p.g);
    assert "B"[0] != "C"[0];
    assert !DirectConnection(p, "C", r.totalCost);
  }

  ghost predicate IsFewestHops(g: Graph, o: Hub, d: Hub, hops: nat) {
    (exists w :: Connects(g, o, w, d) && |w| == hops) &&
    forall w | Connects(g, o, w, d) :: hops <= |w|
  }

  lemma {:induction false} FewestHopsExists(g: Graph, o: Hub, d: Hub, w: seq<Edge>) returns (hops: nat)
    requires Connects(g, o, w, d)
    ensures IsFewestHops(g, o, d, hops)
    decreases |w|
  {
    if v: seq<Edge> :| Connects(g, o, v, d) && |v| < |w| {
      hops := FewestHopsExists(g, o, d, v);
    } else {
      hops := |w|;
    }
  }

  /** With a carrier price for the city pair, distance no longer matters: the least cost is the
      flat charge times the fewest hops. */
  lemma FlatPriceMinimisesHops(p: Problem, d: Hub, cost: real) returns (hops: nat)
    requires p.flat.Some? && p.flat.value >= 0.0 && IsLeastCost(p, d, cost)
    ensures IsFewestHops(p.g, p.origin, d, hops) && cost == p.flat.value * (hops as real)
  {
    var w := LeastWalk(p, d, cost);
    hops := FewestHopsExists(p.g, p.origin, d, w);
    CostOfFewestHops(p, d, cost, hops, w);
  }

  lemma CostOfFewestHops(p: Problem, d: Hub, cost: real, hops: nat, w: seq<Edge>)
    requires p.flat.Some? && p.flat.value >= 0.0 && IsLeastCost(p, d, cost)
    requires IsFewestHops(p.g, p.origin, d, hops)
    requires Connects(p.g, p.origin, w, d) && WalkCost(p.flat, w) == cost
    ensures cost == HopCharge(p.flat.value, hops)
  {
    var v := FewestWalk(p.g, p.origin, d, hops);
    HopsOrderCosts(p.flat, v, w);
  }

  function HopCharge(charge: real, hops: nat): real {
    charge * (hops as real)
  }

  lemma HopsOrderCosts(flat: Option<real>, v: seq<Edge>, w: seq<Edge>)
    requires flat.Some? && flat.value >= 0.0 && |v| <= |w|
    ensures WalkCost(flat, v) == HopCharge(flat.value, |v|)
    ensures WalkCost(flat, v) <= WalkCost(flat, w)
  {
    FlatCostCountsHops(flat.value, v);
    FlatCostCountsHops(flat.value, w);
    MulMonotone(flat.value, |v| as real, |w| as real);
  }

  lemma FewestWalk(g: Graph, o: Hub, d: Hub, hops: nat) returns (w: seq<Edge>)
    requires IsFewestHops(g, o, d, hops)
    ensures Connects(g, o, w, d) && |w| == hops
  {
    w :| Connects(g, o, w, d) && |w| == hops;
  }

  lemma LeastWalk(p: Problem, d: Hub, cost: real) returns (w: seq<Edge>)
    requires IsLeastCost(p, d, cost)
    ensures Connects(p.g, p.origin, w, d) && WalkCost(p.flat, w) == cost
  {
    w :| Connects(p.g, p.origin, w, d) && WalkCost(p.flat, w) == cost;
  }

  lemma MulMonotone(c: real, x: real, y: real)
    requires c >= 0.0 && x <= y
    ensures c * x <= c * y
  {
    assert c * (y - x) >= 0.0;
  }

  // ---- Work bound in terms of the connection table -------------------------

  function OutgoingSum(conns: seq<Connection>, hubs: seq<Hub>): nat {
    if hubs == [] then 0 else OutgoingSum(conns, hubs[..|hubs| - 1]) + |Outgoing(conns, hubs[|hubs| - 1])|
  }

  lemma {:induction false} OneMoreConnection(conns: seq<Connection>, hubs: seq<Hub>)
    requires conns != [] && Distinct(hubs)
    ensures OutgoingSum(conns, hubs) ==
            OutgoingSum(conns[..|conns| - 1], hubs) + (if conns[|conns| - 1].from in hubs then 1 else 0)
    decreases |hubs|
  {
    if hubs != [] {
      var init, h := hubs[..|hubs| - 1], hubs[|hubs| - 1];
      OneMoreConnection(conns, init);
      assert hubs == init + [h] && h !in init;
    }
  }

  lemma {:induction false} NoConnections(hubs: seq<Hub>)
    ensures OutgoingSum([], hubs) == 0
  {
    if hubs != [] { NoConnections(hubs[..|hubs| - 1]); }
  }

  lemma {:induction false} OutgoingSumBound(conns: seq<Connection>, hubs: seq<Hub>)
    requires Distinct(hubs)
    ensures OutgoingSum(conns, hubs) <= |conns|
  {
    if conns == [] {
      NoConnections(hubs);
    } else {
      OneMoreConnection(conns, hubs);
      OutgoingSumBound(conns[..|conns| - 1], hubs);
    }
  }

  lemma {:induction false} DegreeSumIsOutgoingSum(g: Graph, conns: seq<Connection>, hubs: seq<Hub>)
    requires IsGraphOf(conns, g)
    ensures DegreeSum(g, hubs) == OutgoingSum(conns, hubs)
  {
    if hubs != [] {
      DegreeSumIsOutgoingSum(g, conns, hubs[..|hubs| - 1]);
      IsListedIff(conns, hubs[|hubs| - 1], EdgesFrom(g, hubs[|hubs| - 1]));
    }
  }

  /** One search never puts more than one entry per connection, and the start, on the heap. */
  lemma PushesBoundedByConnections(p: Problem, conns: seq<Connection>, log: RunLog, left: nat, cost: Option<real>)
    requires IsGraphOf(conns, p.g)
    requires IsLogOf(p, log, left, cost)
    ensures |log.popped| + left == log.pushes <= |conns| + 1
  {
    DegreeSumIsOutgoingSum(p.g, conns, log.expanded);
    OutgoingSumBound(conns, log.expanded);
  }

  /** With a carrier price and two different hubs, the reported path has the reported cost exactly
      when a direct connection exists. */
  lemma FlatPathIsRightIff(p: Problem, d: Hub, r: Route)
    requires p.flat.Some? && p.flat.value >= 0.0 && p.origin != d && UniqueEdges(p.g) && GoodAnswer(p, d, r)
    ensures Realises(p, r.path, r.totalCost) <==> exists e :: e in EdgesFrom(p.g, p.origin) && e.to == d
  {
    FlatDirectIsCheapestIff(p, d);
  }
}
