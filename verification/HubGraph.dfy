/** The hub network of src/tms/service.py: adjacency lists, walks and their totals,
    and the pricing rule that turns a connection into a cost. */
module HubGraph {
  import opened Common

  type Hub = string
  type City = string

  /** One row of the hub-connection table. */
  datatype Connection = Connection(from: Hub, to: Hub, dist: real, hours: real)

  datatype Edge = Edge(to: Hub, dist: real, hours: real)

  type Graph = map<Hub, seq<Edge>>

  /** (origin city, destination city, carrier) to price per kilogram. */
  type PriceMap = map<(City, City, string), real>

  function EdgesFrom(g: Graph, h: Hub): seq<Edge> {
    if h in g then g[h] else []
  }

  // ---- Walks -------------------------------------------------------------

  /** The hub a walk from `o` ends on. */
  function End(o: Hub, w: seq<Edge>): Hub {
    if w == [] then o else w[|w| - 1].to
  }

  ghost predicate IsWalk(g: Graph, o: Hub, w: seq<Edge>) {
    w == [] ||
    (IsWalk(g, o, w[..|w| - 1]) && w[|w| - 1] in EdgesFrom(g, End(o, w[..|w| - 1])))
  }

  ghost predicate Connects(g: Graph, o: Hub, w: seq<Edge>, d: Hub) {
    IsWalk(g, o, w) && End(o, w) == d
  }

  ghost predicate Reachable(g: Graph, o: Hub, d: Hub) {
    exists w :: Connects(g, o, w, d)
  }

  /** The hubs a walk visits, its starting hub included. */
  function HubsOf(o: Hub, w: seq<Edge>): (p: seq<Hub>)
    ensures |p| == |w| + 1
    ensures p[0] == o && p[|w|] == End(o, w)
  {
    if w == [] then [o] else HubsOf(o, w[..|w| - 1]) + [w[|w| - 1].to]
  }

  function TotalDist(w: seq<Edge>): real {
    if w == [] then 0.0 else TotalDist(w[..|w| - 1]) + w[|w| - 1].dist
  }

  function TotalHours(w: seq<Edge>): real {
    if w == [] then 0.0 else TotalHours(w[..|w| - 1]) + w[|w| - 1].hours
  }

  // ---- Pricing -----------------------------------------------------------

  /** What one connection costs: the flat carrier charge when a carrier serves the city
      pair, half a currency unit per kilometre otherwise. */
  function SegCost(flat: Option<real>, e: Edge): real {
    match flat
    case Some(charge) => charge
    case None => e.dist * 0.5
  }

  function WalkCost(flat: Option<real>, w: seq<Edge>): real {
    if w == [] then 0.0 else WalkCost(flat, w[..|w| - 1]) + SegCost(flat, w[|w| - 1])
  }

  ghost predicate NonNegative(g: Graph, flat: Option<real>) {
    forall h, i | h in g && 0 <= i < |g[h]| :: SegCost(flat, g[h][i]) >= 0.0
  }

  /** Following one more edge out of a walk's last hub gives a walk with one more edge. */
  lemma WalkExtend(g: Graph, o: Hub, w: seq<Edge>, e: Edge)
    requires IsWalk(g, o, w) && e in EdgesFrom(g, End(o, w))
    ensures IsWalk(g, o, w + [e]) && End(o, w + [e]) == e.to
    ensures (w + [e])[..|w|] == w
  {
    assert (w + [e])[..|w|] == w;
  }

  // ---- Flat carrier pricing ----------------------------------------------

  ghost predicate ServesPair(key: (City, City, string), oc: City, dc: City) {
    key.0 == oc && key.1 == dc
  }

  /** `r` is the lowest price among the listed keys for the city pair, if there is one. */
  ghost predicate IsCheapestAmong(prices: PriceMap, keys: set<(City, City, string)>, oc: City, dc: City, r: Option<real>)
    requires keys <= prices.Keys
  {
    match r
    case None => forall k | k in keys :: !ServesPair(k, oc, dc)
    case Some(p) =>
      (exists k :: k in keys && ServesPair(k, oc, dc) && prices[k] == p) &&
      forall k | k in keys && ServesPair(k, oc, dc) :: p <= prices[k]
  }

  /** `r` is the lowest price any carrier offers for the city pair, if there is one. */
  ghost predicate IsCheapest(prices: PriceMap, oc: City, dc: City, r: Option<real>) {
    IsCheapestAmong(prices, prices.Keys, oc, dc, r)
  }

  lemma CheapestUnique(prices: PriceMap, oc: City, dc: City, a: Option<real>, b: Option<real>)
    requires IsCheapest(prices, oc, dc, a) && IsCheapest(prices, oc, dc, b)
    ensures a == b
  {
    if a.Some? && b.Some? {
      var k :| k in prices && ServesPair(k, oc, dc) && prices[k] == a.value;
      var l :| l in prices && ServesPair(l, oc, dc) && prices[l] == b.value;
      assert a.value <= prices[l] && b.value <= prices[k];
    }
  }

  lemma {:induction false} CheapestExists(prices: PriceMap, keys: set<(City, City, string)>, oc: City, dc: City)
    returns (r: Option<real>)
    requires keys <= prices.Keys
    ensures IsCheapestAmong(prices, keys, oc, dc, r)
    decreases keys
  {
    if keys == {} {
      return None;
    }
    var k :| k in keys;
    r := CheapestExists(prices, keys - {k}, oc, dc);
    assert keys == (keys - {k}) + {k};
    if ServesPair(k, oc, dc) && (r.None? || prices[k] < r.value) {
      r := Some(prices[k]);
    }
  }

  ghost function Cheapest(prices: PriceMap, oc: City, dc: City): (r: Option<real>)
    ensures IsCheapest(prices, oc, dc, r)
  {
    assert exists r :: IsCheapest(prices, oc, dc, r) by {
      var r := CheapestExists(prices, prices.Keys, oc, dc);
      assert IsCheapest(prices, oc, dc, r);
    }
    var r :| IsCheapest(prices, oc, dc, r);
    r
  }

  /** The flat charge the search uses for every connection of a shipment. */
  ghost function FlatCharge(prices: PriceMap, oc: City, dc: City, weight: real): Option<real> {
    match Cheapest(prices, oc, dc)
    case None => None
    case Some(p) => Some(weight * p)
  }

  /** The carrier scan inside the relaxation loop: a single pass over the price table that
      keeps the lowest price seen for the city pair. */
  method CheapestPrice(prices: PriceMap, oc: City, dc: City) returns (bestPrice: Option<real>)
    ensures bestPrice == Cheapest(prices, oc, dc)
  {
    bestPrice := None;
    var todo := prices.Keys;
    while todo != {}
      invariant todo <= prices.Keys
      invariant IsCheapestAmong(prices, prices.Keys - todo, oc, dc, bestPrice)
      decreases todo
    {
      var k :| k in todo;
      assert prices.Keys - (todo - {k}) == (prices.Keys - todo) + {k};
      todo := todo - {k};
      if k.0 == oc && k.1 == dc {
        if bestPrice.None? || prices[k] < bestPrice.value {
          bestPrice := Some(prices[k]);
        }
      }
    }
    assert prices.Keys - todo == prices.Keys;
    CheapestUnique(prices, oc, dc, bestPrice, Cheapest(prices, oc, dc));
  }

  /** With a flat charge every walk costs that charge times its number of hops. */
  lemma {:induction false} FlatCostCountsHops(charge: real, w: seq<Edge>)
    ensures WalkCost(Some(charge), w) == charge * (|w| as real)
  {
    if w != [] {
      FlatCostCountsHops(charge, w[..|w| - 1]);
      assert charge * (|w| as real) == charge * ((|w| - 1) as real) + charge;
    }
  }

  // ---- Building the graph ------------------------------------------------

  /** The connections leaving `h`, in table order. */
  function Outgoing(conns: seq<Connection>, h: Hub): seq<Edge> {
    if conns == [] then []
    else
      var c := conns[|conns| - 1];
      var before := Outgoing(conns[..|conns| - 1], h);
      if c.from == h then before + [Edge(c.to, c.dist, c.hours)] else before
  }

  /** `es` lists the connections out of `h`: all the table's rows from `h`, in table order. */
  ghost predicate IsListing(conns: seq<Connection>, h: Hub, es: seq<Edge>, rows: seq<nat>) {
    |rows| == |es| &&
    (forall i, j | 0 <= i < j < |rows| :: rows[i] < rows[j]) &&
    (forall i | 0 <= i < |rows| :: rows[i] < |conns| && conns[rows[i]] == Connection(h, es[i].to, es[i].dist, es[i].hours)) &&
    forall k | 0 <= k < |conns| && conns[k].from == h :: k in rows
  }

  ghost predicate IsListed(conns: seq<Connection>, h: Hub, es: seq<Edge>) {
    exists rows :: IsListing(conns, h, es, rows)
  }

  /** The adjacency lists hold exactly the connections of the table. */
  ghost predicate IsGraphOf(conns: seq<Connection>, g: Graph) {
    forall h :: IsListed(conns, h, EdgesFrom(g, h))
  }

  lemma {:induction false} OutgoingIsListing(conns: seq<Connection>, h: Hub) returns (rows: seq<nat>)
    ensures IsListing(conns, h, Outgoing(conns, h), rows)
  {
    if conns == [] {
      rows := [];
    } else {
      var n := |conns| - 1;
      rows := OutgoingIsListing(conns[..n], h);
      if conns[n].from == h {
        rows := rows + [n];
        assert rows[|rows| - 1] == n;
      }
      assert forall k | 0 <= k < n && conns[k].from == h :: conns[..n][k].from == h;
    }
  }

  lemma LastRow(conns: seq<Connection>, h: Hub, es: seq<Edge>, rows: seq<nat>)
    requires IsListing(conns, h, es, rows) && conns != [] && conns[|conns| - 1].from == h
    ensures rows != [] && rows[|rows| - 1] == |conns| - 1
  {
    var i :| 0 <= i < |rows| && rows[i] == |conns| - 1;
    assert rows[i] <= rows[|rows| - 1] < |conns|;
  }

  lemma ListingWithoutLast(conns: seq<Connection>, h: Hub, es: seq<Edge>, rows: seq<nat>)
    requires IsListing(conns, h, es, rows) && conns != [] && conns[|conns| - 1].from == h
    ensures es != [] && es[|es| - 1] == Edge(conns[|conns| - 1].to, conns[|conns| - 1].dist, conns[|conns| - 1].hours)
    ensures IsListing(conns[..|conns| - 1], h, es[..|es| - 1], rows[..|rows| - 1])
  {
    LastRow(conns, h, es, rows);
    var n, m := |conns| - 1, |rows| - 1;
    forall k | 0 <= k < n && conns[..n][k].from == h ensures k in rows[..m] {
      var i :| 0 <= i < |rows| && rows[i] == k;
      assert rows[..m][i] == k;
    }
  }

  lemma {:induction false} ListingIsOutgoing(conns: seq<Connection>, h: Hub, es: seq<Edge>, rows: seq<nat>)
    requires IsListing(conns, h, es, rows)
    ensures es == Outgoing(conns, h)
  {
    if conns != [] {
      if conns[|conns| - 1].from == h {
        ListingWithoutLast(conns, h, es, rows);
        ListingIsOutgoing(conns[..|conns| - 1], h, es[..|es| - 1], rows[..|rows| - 1]);
      } else {
        ListingIsOutgoing(conns[..|conns| - 1], h, es, rows);
      }
    }
  }

  lemma IsListedIff(conns: seq<Connection>, h: Hub, es: seq<Edge>)
    ensures IsListed(conns, h, es) <==> es == Outgoing(conns, h)
  {
    if rows :| IsListing(conns, h, es, rows) {
      ListingIsOutgoing(conns, h, es, rows);
    }
    var rows := OutgoingIsListing(conns, h);
  }

  lemma RowIsListed(conns: seq<Connection>, h: Hub, es: seq<Edge>, rows: seq<nat>, e: Edge)
    requires IsListing(conns, h, es, rows) && Connection(h, e.to, e.dist, e.hours) in conns
    ensures e in es
  {
    var k :| 0 <= k < |conns| && conns[k] == Connection(h, e.to, e.dist, e.hours);
    var i :| 0 <= i < |rows| && rows[i] == k;
    assert es[i] == e;
  }

  lemma ListedIsRow(conns: seq<Connection>, h: Hub, es: seq<Edge>, rows: seq<nat>, e: Edge)
    requires IsListing(conns, h, es, rows) && e in es
    ensures Connection(h, e.to, e.dist, e.hours) in conns
  {
    var i :| 0 <= i < |es| && es[i] == e;
    assert conns[rows[i]] in conns;
  }

  /** A graph's lists leave out no connection and hold nothing else. */
  lemma EdgeIsConnection(conns: seq<Connection>, g: Graph, h: Hub, e: Edge)
    requires IsGraphOf(conns, g)
    ensures e in EdgesFrom(g, h) <==> Connection(h, e.to, e.dist, e.hours) in conns
  {
    var es := EdgesFrom(g, h);
    assert IsListed(conns, h, es);
    var rows :| IsListing(conns, h, es, rows);
    if e in es {
      ListedIsRow(conns, h, es, rows, e);
    }
    if Connection(h, e.to, e.dist, e.hours) in conns {
      RowIsListed(conns, h, es, rows, e);
    }
  }

  method BuildGraph(conns: seq<Connection>) returns (g: Graph)
    ensures IsGraphOf(conns, g)
    ensures forall h :: h in g ==> g[h] != []
  {
    g := map[];
    for i := 0 to |conns|
      invariant forall h :: EdgesFrom(g, h) == Outgoing(conns[..i], h)
      invariant forall h :: h in g ==> g[h] != []
    {
      var c := conns[i];
      assert conns[..i + 1][..i] == conns[..i];
      assert EdgesFrom(g, c.from) == Outgoing(conns[..i], c.from);
      g := g[c.from := (if c.from in g then g[c.from] else []) + [Edge(c.to, c.dist, c.hours)]];
    }
    assert conns[..|conns|] == conns;
    forall h ensures IsListed(conns, h, EdgesFrom(g, h)) {
      IsListedIff(conns, h, EdgesFrom(g, h));
    }
  }

  /** At most one connection per (from, to), as the table's unique index demands. */
  ghost predicate UniqueEdges(g: Graph) {
    forall h, i, j | h in g && 0 <= i < j < |g[h]| :: g[h][i].to != g[h][j].to
  }

  ghost predicate UniqueConnections(conns: seq<Connection>) {
    forall i, j | 0 <= i < j < |conns| :: conns[i].from != conns[j].from || conns[i].to != conns[j].to
  }

  lemma TableGivesUniqueEdges(conns: seq<Connection>, g: Graph)
    requires UniqueConnections(conns) && IsGraphOf(conns, g)
    ensures UniqueEdges(g)
  {
    forall h | h in g ensures forall i, j | 0 <= i < j < |g[h]| :: g[h][i].to != g[h][j].to {
      assert IsListed(conns, h, EdgesFrom(g, h));
      var rows :| IsListing(conns, h, g[h], rows);
      forall i, j | 0 <= i < j < |g[h]| ensures g[h][i].to != g[h][j].to {
        assert rows[i] < rows[j];
        assert conns[rows[i]].from == conns[rows[j]].from;
      }
    }
  }

  // ---- Chains of connections -----------------------------------------------

  /** The hub a chain of connections from `o` ends on. */
  function ChainEnd(o: Hub, chain: seq<Connection>): Hub {
    if chain == [] then o else chain[|chain| - 1].to
  }

  /** Each connection of the chain is a row of the table and leaves the hub the one before reached. */
  ghost predicate IsChain(conns: seq<Connection>, o: Hub, chain: seq<Connection>) {
    forall k | 0 <= k < |chain| :: chain[k] in conns && chain[k].from == ChainEnd(o, chain[..k])
  }

  /** What shipping along a chain costs: the carrier's charge for each connection, or half a unit per
      kilometre where no carrier serves the city pair. */
  function ChainCost(flat: Option<real>, chain: seq<Connection>): real {
    if chain == [] then 0.0
    else
      var c := chain[|chain| - 1];
      ChainCost(flat, chain[..|chain| - 1]) + (if flat.Some? then flat.value else c.dist / 2.0)
  }

  lemma PrefixIsChain(conns: seq<Connection>, o: Hub, chain: seq<Connection>, n: nat)
    requires IsChain(conns, o, chain) && n <= |chain|
    ensures IsChain(conns, o, chain[..n])
  {
    forall k | 0 <= k < n ensures chain[..n][k] in conns && chain[..n][k].from == ChainEnd(o, chain[..n][..k]) {
      assert chain[..n][..k] == chain[..k];
    }
  }

  lemma ChainLast(conns: seq<Connection>, flat: Option<real>, o: Hub, chain: seq<Connection>)
    returns (before: seq<Connection>, c: Connection)
    requires IsChain(conns, o, chain) && chain != []
    ensures |before| < |chain| && IsChain(conns, o, before) && c in conns && c.from == ChainEnd(o, before)
    ensures ChainEnd(o, chain) == c.to
    ensures ChainCost(flat, chain) == ChainCost(flat, before) + if flat.Some? then flat.value else c.dist / 2.0
  {
    PrefixIsChain(conns, o, chain, |chain| - 1);
    before, c := chain[..|chain| - 1], chain[|chain| - 1];
  }

  /** Walks of the graph and chains of the table are the same routes at the same cost. */
  lemma {:induction false} ChainIsWalk(conns: seq<Connection>, g: Graph, flat: Option<real>, o: Hub, chain: seq<Connection>)
    returns (w: seq<Edge>)
    requires IsGraphOf(conns, g) && IsChain(conns, o, chain)
    ensures Connects(g, o, w, ChainEnd(o, chain)) && WalkCost(flat, w) == ChainCost(flat, chain)
    decreases |chain|
  {
    if chain == [] {
      w := [];
    } else {
      var before, c := ChainLast(conns, flat, o, chain);
      w := ChainIsWalk(conns, g, flat, o, before);
      var e := Edge(c.to, c.dist, c.hours);
      EdgeIsConnection(conns, g, c.from, e);
      WalkExtend(g, o, w, e);
      w := w + [e];
    }
  }

  lemma {:induction false} WalkIsChain(conns: seq<Connection>, g: Graph, flat: Option<real>, o: Hub, w: seq<Edge>)
    returns (chain: seq<Connection>)
    requires IsGraphOf(conns, g) && IsWalk(g, o, w)
    ensures IsChain(conns, o, chain) && ChainEnd(o, chain) == End(o, w) && WalkCost(flat, w) == ChainCost(flat, chain)
    decreases |w|
  {
    if w == [] {
      chain := [];
    } else {
      var n := |w| - 1;
      chain := WalkIsChain(conns, g, flat, o, w[..n]);
      var e, h := w[n], End(o, w[..n]);
      EdgeIsConnection(conns, g, h, e);
      chain := ChainExtend(conns, flat, o, chain, Connection(h, e.to, e.dist, e.hours));
    }
  }

  lemma ChainExtend(conns: seq<Connection>, flat: Option<real>, o: Hub, chain: seq<Connection>, c: Connection)
    returns (chain': seq<Connection>)
    requires IsChain(conns, o, chain) && c in conns && c.from == ChainEnd(o, chain)
    ensures IsChain(conns, o, chain') && ChainEnd(o, chain') == c.to
    ensures ChainCost(flat, chain') == ChainCost(flat, chain) + if flat.Some? then flat.value else c.dist / 2.0
  {
    chain' := chain + [c];
    assert chain'[..|chain|] == chain;
    forall k | 0 <= k < |chain'| ensures chain'[k] in conns && chain'[k].from == ChainEnd(o, chain'[..k]) {
      if k < |chain| {
        assert chain'[..k] == chain[..k] && chain'[k] == chain[k];
      }
    }
  }
}
