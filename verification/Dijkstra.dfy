/** The shortest-path search of src/tms/service.py: a heap search with lazy deletion and an
    early exit. Decimal amounts are exact reals. */
module Dijkstra {
  import opened Common
  import opened HubGraph

  /** A heap entry; only the priority takes part in comparisons. */
  datatype PriorityNode = PriorityNode(priority: real, hub: Hub, path: seq<Hub>, dist: real, hours: real)

  datatype Route = Route(path: seq<Hub>, totalDist: real, totalHours: real, totalCost: real,
                         segDists: seq<real>, segHours: seq<real>)

  /** What one run did: popped priorities, expanded hubs, number of entries ever put on the heap. */
  datatype RunLog = RunLog(popped: seq<real>, expanded: seq<Hub>, pushes: nat)

  datatype Problem = Problem(g: Graph, origin: Hub, flat: Option<real>)

  type Best = map<Hub, real>
  type Heap = multiset<PriorityNode>

  // ---- What the answer means ---------------------------------------------

  ghost predicate IsLeastCost(p: Problem, d: Hub, cost: real) {
    (exists w :: Connects(p.g, p.origin, w, d) && WalkCost(p.flat, w) == cost) &&
    forall w | Connects(p.g, p.origin, w, d) :: cost <= WalkCost(p.flat, w)
  }

  /** `w` is the walk an entry's path, priority and totals describe. */
  ghost predicate Describes(p: Problem, n: PriorityNode, w: seq<Edge>) {
    Connects(p.g, p.origin, w, n.hub) && HubsOf(p.origin, w) == n.path &&
    WalkCost(p.flat, w) == n.priority && TotalDist(w) == n.dist && TotalHours(w) == n.hours
  }

  ghost predicate IsRealWalk(p: Problem, n: PriorityNode) {
    exists w :: Describes(p, n, w)
  }

  /** Some walk along exactly these hubs costs exactly this much. */
  ghost predicate Realises(p: Problem, path: seq<Hub>, cost: real) {
    exists w :: IsWalk(p.g, p.origin, w) && HubsOf(p.origin, w) == path && WalkCost(p.flat, w) == cost
  }

  ghost predicate DirectConnection(p: Problem, d: Hub, cost: real) {
    exists e :: e in EdgesFrom(p.g, p.origin) && e.to == d && SegCost(p.flat, e) == cost
  }

  // ---- Rendering of a path -----------------------------------------------

  function LegEdges(es: seq<Edge>, to: Hub): seq<Edge> {
    if es == [] then []
    else
      var before := LegEdges(es[..|es| - 1], to);
      if es[|es| - 1].to == to then before + [es[|es| - 1]] else before
  }

  /** Every connection between consecutive hubs of a path, leg by leg. */
  function PathEdges(g: Graph, path: seq<Hub>): seq<Edge> {
    if |path| < 2 then []
    else PathEdges(g, path[..|path| - 1]) + LegEdges(EdgesFrom(g, path[|path| - 2]), path[|path| - 1])
  }

  function Dists(es: seq<Edge>): (r: seq<real>) { seq(|es|, i requires 0 <= i < |es| => es[i].dist) }

  function Hours(es: seq<Edge>): (r: seq<real>) { seq(|es|, i requires 0 <= i < |es| => es[i].hours) }

  /** The route taken from an entry left in the heap. */
  function LeftoverRoute(g: Graph, n: PriorityNode, cost: real): Route {
    Route(n.path, n.dist, n.hours, cost, Dists(PathEdges(g, n.path)), Hours(PathEdges(g, n.path)))
  }

  /** The route reported when no destination entry is left: origin and destination only. */
  function FallbackRoute(g: Graph, o: Hub, d: Hub, cost: real): Route {
    var legs := LegEdges(EdgesFrom(g, o), d);
    Route([o, d], TotalDist(legs), TotalHours(legs), cost, [TotalDist(legs)], [TotalHours(legs)])
  }

  lemma {:induction false} LegIsTheEdge(es: seq<Edge>, e: Edge)
    requires forall i, j | 0 <= i < j < |es| :: es[i].to != es[j].to
    ensures e in es ==> LegEdges(es, e.to) == [e]
    ensures (forall i | 0 <= i < |es| :: es[i].to != e.to) ==> LegEdges(es, e.to) == []
  {
    if es != [] {
      LegIsTheEdge(es[..|es| - 1], e);
      assert es == es[..|es| - 1] + [es[|es| - 1]];
      if e in es && e != es[|es| - 1] {
        assert e in es[..|es| - 1];
      }
    }
  }

  ghost predicate LegsAre(g: Graph, o: Hub, w: seq<Edge>) {
    PathEdges(g, HubsOf(o, w)) == w
  }

  /** With at most one connection per hub pair, the legs listed for a walk's hubs are its edges:
      one per leg, adding up to the walk's totals. */
  lemma {:induction false} PathEdgesRecoverWalk(g: Graph, o: Hub, w: seq<Edge>)
    requires UniqueEdges(g) && IsWalk(g, o, w)
    ensures LegsAre(g, o, w)
    decreases |w|
  {
    if w == [] {
      NoLegs(g, o);
    } else {
      var v, e := LastStep(g, o, w);
      PathEdgesRecoverWalk(g, o, v);
      PathEdgesStep(g, o, v, e);
    }
  }

  lemma NoLegs(g: Graph, o: Hub)
    ensures LegsAre(g, o, [])
  {
  }

  lemma LastStep(g: Graph, o: Hub, w: seq<Edge>) returns (v: seq<Edge>, e: Edge)
    requires IsWalk(g, o, w) && w != []
    ensures w == v + [e] && |v| < |w| && IsWalk(g, o, v) && e in EdgesFrom(g, End(o, v))
  {
    v, e := w[..|w| - 1], w[|w| - 1];
  }

  lemma OutgoingIsTheEdge(g: Graph, h: Hub, e: Edge)
    requires UniqueEdges(g) && e in EdgesFrom(g, h)
    ensures LegEdges(EdgesFrom(g, h), e.to) == [e]
  {
    var es := EdgesFrom(g, h);
    assert forall i, j | 0 <= i < j < |es| :: es[i].to != es[j].to;
    LegIsTheEdge(es, e);
  }

  lemma PathEdgesStep(g: Graph, o: Hub, v: seq<Edge>, e: Edge)
    requires UniqueEdges(g) && LegsAre(g, o, v) && e in EdgesFrom(g, End(o, v))
    ensures LegsAre(g, o, v + [e])
  {
    assert (v + [e])[..|v|] == v;
    var hubs := HubsOf(o, v);
    assert HubsOf(o, v + [e]) == hubs + [e.to];
    OutgoingIsTheEdge(g, End(o, v), e);
  }

  function Sum(s: seq<real>): real {
    if s == [] then 0.0 else Sum(s[..|s| - 1]) + s[|s| - 1]
  }

  lemma {:induction false} SumsOfSegments(w: seq<Edge>)
    ensures Sum(Dists(w)) == TotalDist(w) && Sum(Hours(w)) == TotalHours(w)
  {
    if w != [] {
      var v := w[..|w| - 1];
      SumsOfSegments(v);
      assert Dists(w)[..|v|] == Dists(v) && Hours(w)[..|v|] == Hours(v);
    }
  }

  /** A route taken from a leftover entry lists one segment per leg, and the segments add up to
      its totals. */
  lemma LeftoverSegmentsAddUp(p: Problem, n: PriorityNode, cost: real)
    requires UniqueEdges(p.g) && IsRealWalk(p, n)
    ensures var r := LeftoverRoute(p.g, n, cost);
            |r.segDists| == |r.segHours| == |r.path| - 1 &&
            Sum(r.segDists) == r.totalDist && Sum(r.segHours) == r.totalHours
  {
    var w :| Describes(p, n, w);
    PathEdgesRecoverWalk(p.g, p.origin, w);
    SumsOfSegments(w);
  }

  /** The fallback reports the direct connection if there is one, and zeros otherwise. */
  lemma FallbackDescribesDirect(p: Problem, d: Hub, cost: real)
    requires UniqueEdges(p.g)
    ensures forall e | e in EdgesFrom(p.g, p.origin) && e.to == d ::
              FallbackRoute(p.g, p.origin, d, cost) == Route([p.origin, d], e.dist, e.hours, cost, [e.dist], [e.hours])
    ensures (forall e | e in EdgesFrom(p.g, p.origin) :: e.to != d) ==>
              FallbackRoute(p.g, p.origin, d, cost) == Route([p.origin, d], 0.0, 0.0, cost, [0.0], [0.0])
  {
    var es := EdgesFrom(p.g, p.origin);
    forall e | e in es && e.to == d ensures LegEdges(es, d) == [e] && TotalDist([e]) == e.dist && TotalHours([e]) == e.hours {
      LegIsTheEdge(es, e);
      assert [e][..0] == [];
    }
    if forall e | e in es :: e.to != d {
      LegIsTheEdge(es, Edge(d, 0.0, 0.0));
    }
  }

  // ---- The search invariant ----------------------------------------------

  ghost function AllHubs(p: Problem): set<Hub> {
    {p.origin} + set h, i | h in p.g && 0 <= i < |p.g[h]| :: p.g[h][i].to
  }

  ghost predicate HasBestEntry(best: Best, heap: Heap, h: Hub)
    requires h in best
  {
    exists n :: n in heap && n.hub == h && n.priority == best[h]
  }

  ghost predicate EntryOk(best: Best, heap: Heap, cur: real, n: PriorityNode) {
    n.hub in best && best[n.hub] <= n.priority && cur <= n.priority && heap[n] == 1
  }

  /** Holds whenever control is at a loop head: `done` are the hubs already expanded, `cur` the
      priority popped last. */
  ghost predicate Inv(o: Hub, best: Best, heap: Heap, done: set<Hub>, cur: real) {
    && o in best && best[o] == 0.0 && cur >= 0.0 && done <= best.Keys
    && (o in done || (done == {} && forall n | n in heap :: n.hub == o))
    && EntriesOk(best, heap, cur) && Apart(heap) && BestWaits(best, heap, done)
    && (forall h | h in done :: best[h] <= cur)
    && (forall n | n in heap && n.hub in done :: best[n.hub] < n.priority)
  }

  /** Every entry's path is a walk from the origin with the entry's priority and totals. */
  ghost predicate RealWalks(p: Problem, heap: Heap) {
    forall n {:trigger IsRealWalk(p, n)} | n in heap :: IsRealWalk(p, n) && n.hub in AllHubs(p)
  }

  ghost predicate Relaxed(p: Problem, best: Best, u: Hub, e: Edge)
    requires u in best
  {
    e.to in best && best[e.to] <= best[u] + SegCost(p.flat, e)
  }

  ghost predicate AllRelaxed(p: Problem, best: Best, done: set<Hub>)
    requires done <= best.Keys
  {
    forall h, e | h in done && e in EdgesFrom(p.g, h) :: Relaxed(p, best, h, e)
  }

  /** No entry for a hub next to the origin is dearer than the direct connection. */
  ghost predicate DirectBound(p: Problem, heap: Heap) {
    UniqueEdges(p.g) ==>
      forall n, e | n in heap && e in EdgesFrom(p.g, p.origin) && e.to == n.hub ::
        n.priority <= SegCost(p.flat, e)
  }

  ghost predicate IsLeastEntry(heap: Heap, n: PriorityNode) {
    n in heap && forall m | m in heap :: n.priority <= m.priority
  }

  /** The state at the head of the main loop. */
  ghost predicate AtHead(p: Problem, best: Best, heap: Heap, done: set<Hub>, cur: real) {
    Inv(p.origin, best, heap, done, cur) && AllRelaxed(p, best, done) && RealWalks(p, heap) && DirectBound(p, heap)
  }

  /** The state in the middle of expanding `node`: its first `i` connections are relaxed. */
  ghost predicate Expanding(p: Problem, best: Best, heap: Heap, done: set<Hub>, node: PriorityNode, i: nat)
    requires i <= |EdgesFrom(p.g, node.hub)|
  {
    && Inv(p.origin, best, heap, done, node.priority) && p.origin in done
    && node.hub in done && best[node.hub] == node.priority && IsRealWalk(p, node)
    && RealWalks(p, heap) && DirectBound(p, heap) && AllRelaxed(p, best, done - {node.hub})
    && forall j | 0 <= j < i :: Relaxed(p, best, node.hub, EdgesFrom(p.g, node.hub)[j])
  }

  // ---- Steps keep the invariant ------------------------------------------

  lemma StartInv(p: Problem, start: PriorityNode)
    requires NonNegative(p.g, p.flat)
    requires start == PriorityNode(0.0, p.origin, [p.origin], 0.0, 0.0)
    ensures AtHead(p, map[p.origin := 0.0], multiset{start}, {}, 0.0)
  {
    assert Describes(p, start, []) && IsRealWalk(p, start);
    assert start in multiset{start} && start.hub in AllHubs(p);
    assert EntryOk(map[p.origin := 0.0], multiset{start}, 0.0, start);
    assert HasBestEntry(map[p.origin := 0.0], multiset{start}, p.origin);
  }

  /** Popping an entry that a cheaper one has overtaken loses nothing. */
  lemma PopStaleInv(o: Hub, best: Best, heap: Heap, done: set<Hub>, cur: real, n: PriorityNode)
    requires Inv(o, best, heap, done, cur) && IsLeastEntry(heap, n)
    requires n.hub in best && n.priority > best[n.hub]
    ensures Inv(o, best, heap - multiset{n}, done, n.priority)
  {
    assert EntryOk(best, heap, cur, n);
    var rest := heap - multiset{n};
    forall h | h in best && h !in done ensures HasBestEntry(best, rest, h) {
      assert HasBestEntry(best, heap, h);
      var m :| m in heap && m.hub == h && m.priority == best[h];
      assert m in rest;
    }
    forall m | m in rest ensures EntryOk(best, rest, n.priority, m) {
      assert EntryOk(best, heap, cur, m);
    }
  }

  /** An entry that is not stale carries the best cost of a hub never expanded before. */
  lemma PopFreshInv(o: Hub, best: Best, heap: Heap, done: set<Hub>, cur: real, n: PriorityNode)
    requires Inv(o, best, heap, done, cur) && IsLeastEntry(heap, n)
    requires n.hub in best && n.priority <= best[n.hub]
    ensures n.hub !in done && n.priority == best[n.hub]
    ensures Inv(o, best, heap - multiset{n}, done + {n.hub}, n.priority)
  {
    assert EntryOk(best, heap, cur, n);
    var rest, done' := heap - multiset{n}, done + {n.hub};
    forall h | h in best && h !in done' ensures HasBestEntry(best, rest, h) {
      assert HasBestEntry(best, heap, h);
      var m :| m in heap && m.hub == h && m.priority == best[h];
      assert m in rest;
    }
    forall m | m in rest ensures EntryOk(best, rest, n.priority, m) {
      assert EntryOk(best, heap, cur, m);
    }
    assert n !in rest;
    forall m | m in rest && m.hub in done' ensures best[m.hub] < m.priority {
      assert EntryOk(best, heap, cur, m) && m != n;
    }
  }

  /** The entry pushed for an edge describes the walk extended by that edge. */
  lemma PushedIsRealWalk(p: Problem, heap: Heap, n: PriorityNode, e: Edge, m: PriorityNode)
    requires RealWalks(p, heap) && IsRealWalk(p, n) && e in EdgesFrom(p.g, n.hub)
    requires m == PriorityNode(n.priority + SegCost(p.flat, e), e.to, n.path + [e.to], n.dist + e.dist, n.hours + e.hours)
    ensures RealWalks(p, heap + multiset{m})
  {
    var w :| Describes(p, n, w);
    OneMoreLeg(p, n, w, e, m);
    assert IsRealWalk(p, m);
  }

  lemma OneMoreLeg(p: Problem, n: PriorityNode, w: seq<Edge>, e: Edge, m: PriorityNode)
    requires Describes(p, n, w) && e in EdgesFrom(p.g, n.hub)
    requires m == PriorityNode(n.priority + SegCost(p.flat, e), e.to, n.path + [e.to], n.dist + e.dist, n.hours + e.hours)
    ensures Describes(p, m, w + [e])
  {
    WalkExtend(p.g, p.origin, w, e);
  }

  ghost predicate Improves(best: Best, h: Hub, cost: real) {
    h !in best || cost < best[h]
  }

  /** No two entries for one hub have the same priority. */
  ghost predicate Apart(heap: Heap) {
    forall m, n | m in heap && n in heap && m.hub == n.hub && m.priority == n.priority :: m == n
  }

  ghost predicate EntriesOk(best: Best, heap: Heap, cur: real) {
    forall n {:trigger EntryOk(best, heap, cur, n)} | n in heap :: EntryOk(best, heap, cur, n)
  }

  ghost predicate BestWaits(best: Best, heap: Heap, done: set<Hub>) {
    forall h {:trigger HasBestEntry(best, heap, h)} | h in best && h !in done :: HasBestEntry(best, heap, h)
  }

  lemma PushKeepsEntries(best: Best, heap: Heap, cur: real, m: PriorityNode)
    requires EntriesOk(best, heap, cur) && Apart(heap)
    requires cur <= m.priority && Improves(best, m.hub, m.priority)
    ensures m !in heap
    ensures EntriesOk(best[m.hub := m.priority], heap + multiset{m}, cur) && Apart(heap + multiset{m})
  {
    forall a | a in heap ensures a.hub != m.hub || a.priority != m.priority {
      assert EntryOk(best, heap, cur, a);
    }
    forall k | k in heap + multiset{m} ensures EntryOk(best[m.hub := m.priority], heap + multiset{m}, cur, k) {
      assert k != m ==> EntryOk(best, heap, cur, k);
    }
  }

  lemma PushKeepsBest(best: Best, heap: Heap, done: set<Hub>, m: PriorityNode)
    requires BestWaits(best, heap, done)
    ensures BestWaits(best[m.hub := m.priority], heap + multiset{m}, done)
  {
    var best', heap' := best[m.hub := m.priority], heap + multiset{m};
    forall h | h in best' && h !in done ensures HasBestEntry(best', heap', h) {
      if h == m.hub {
        assert m in heap';
      } else {
        assert HasBestEntry(best, heap, h);
        var k :| k in heap && k.hub == h && k.priority == best[h];
        assert k in heap';
      }
    }
  }

  /** Pushing an entry that improves on a hub's best cost keeps the invariant; such a hub was not
      expanded before and such an entry is new. */
  lemma PushInv(o: Hub, best: Best, heap: Heap, done: set<Hub>, cur: real, m: PriorityNode)
    requires Inv(o, best, heap, done, cur) && o in done
    requires cur <= m.priority && Improves(best, m.hub, m.priority)
    ensures m.hub !in done && m !in heap
    ensures Inv(o, best[m.hub := m.priority], heap + multiset{m}, done, cur)
  {
    PushKeepsEntries(best, heap, cur, m);
    PushKeepsBest(best, heap, done, m);
  }

  // ---- Optimality --------------------------------------------------------

  /** Every walk is bounded below: by the recorded cost of its last hub if that hub was expanded,
      by some waiting entry otherwise. */
  lemma {:induction false} LowerBound(p: Problem, best: Best, heap: Heap, done: set<Hub>, cur: real, w: seq<Edge>)
    requires NonNegative(p.g, p.flat)
    requires AtHead(p, best, heap, done, cur)
    requires IsWalk(p.g, p.origin, w)
    ensures End(p.origin, w) in done ==> best[End(p.origin, w)] <= WalkCost(p.flat, w)
    ensures End(p.origin, w) !in done ==> exists n :: n in heap && n.priority <= WalkCost(p.flat, w)
  {
    if w != [] {
      var v, e := w[..|w| - 1], w[|w| - 1];
      LowerBound(p, best, heap, done, cur, v);
      assert SegCost(p.flat, e) >= 0.0;
      if End(p.origin, v) in done {
        assert Relaxed(p, best, End(p.origin, v), e);
        if e.to !in done {
          assert HasBestEntry(best, heap, e.to);
        }
      } else {
        var n :| n in heap && n.priority <= WalkCost(p.flat, v);
        assert EntryOk(best, heap, cur, n);
      }
    } else if p.origin !in done {
      assert HasBestEntry(best, heap, p.origin);
    }
  }

  /** The early exit is right: a popped destination entry carries the least cost, and every
      destination entry it leaves behind is strictly dearer. */
  lemma PoppedDestinationIsOptimal(p: Problem, best: Best, heap: Heap, done: set<Hub>, cur: real, n: PriorityNode)
    requires NonNegative(p.g, p.flat)
    requires AtHead(p, best, heap, done, cur)
    requires IsLeastEntry(heap, n) && n.hub !in done && IsRealWalk(p, n)
    ensures n.hub in best && best[n.hub] == n.priority && IsLeastCost(p, n.hub, best[n.hub])
    ensures Reachable(p.g, p.origin, n.hub)
    ensures forall m | m in heap - multiset{n} && m.hub == n.hub :: m.priority > best[n.hub]
  {
    assert EntryOk(best, heap, cur, n);
    assert HasBestEntry(best, heap, n.hub);
    var w :| Describes(p, n, w);
    forall v | Connects(p.g, p.origin, v, n.hub) ensures n.priority <= WalkCost(p.flat, v) {
      LowerBound(p, best, heap, done, cur, v);
    }
    forall m | m in heap - multiset{n} && m.hub == n.hub ensures m.priority > best[n.hub] {
      assert EntryOk(best, heap, cur, m) && m != n;
    }
  }

  lemma ExhaustedMeansUnreachable(p: Problem, best: Best, done: set<Hub>, cur: real, d: Hub)
    requires NonNegative(p.g, p.flat)
    requires AtHead(p, best, multiset{}, done, cur)
    requires d !in done
    ensures d !in best && !Reachable(p.g, p.origin, d)
  {
    assert d in best ==> HasBestEntry(best, multiset{}, d);
    forall w ensures !Connects(p.g, p.origin, w, d) {
      if IsWalk(p.g, p.origin, w) { LowerBound(p, best, multiset{}, done, cur, w); }
    }
  }

  // ---- The reported path -------------------------------------------------

  /** With unique connections, an entry dearer than the least cost is not a path of that cost. */
  lemma LeftoverNeverRealises(p: Problem, n: PriorityNode, cost: real)
    requires UniqueEdges(p.g) && IsRealWalk(p, n) && n.priority != cost
    ensures !Realises(p, n.path, cost)
  {
    var w :| Describes(p, n, w);
    if Realises(p, n.path, cost) {
      var v :| IsWalk(p.g, p.origin, v) && HubsOf(p.origin, v) == n.path && WalkCost(p.flat, v) == cost;
      PathEdgesRecoverWalk(p.g, p.origin, w);
      PathEdgesRecoverWalk(p.g, p.origin, v);
    }
  }

  lemma FallbackRealises(p: Problem, d: Hub, cost: real)
    ensures Realises(p, [p.origin, d], cost) <==> DirectConnection(p, d, cost)
  {
    if DirectConnection(p, d, cost) {
      var e :| e in EdgesFrom(p.g, p.origin) && e.to == d && SegCost(p.flat, e) == cost;
      WalkExtend(p.g, p.origin, [], e);
      assert [] + [e] == [e];
      assert [e][..0] == [];
      assert HubsOf(p.origin, [e]) == [p.origin, d];
      assert WalkCost(p.flat, [e]) == cost;
    }
    if Realises(p, [p.origin, d], cost) {
      var w: seq<Edge> :| IsWalk(p.g, p.origin, w) && HubsOf(p.origin, w) == [p.origin, d] && WalkCost(p.flat, w) == cost;
      assert |w| == 1 && w[..0] == [];
      assert End(p.origin, []) == p.origin;
      assert w[0] in EdgesFrom(p.g, p.origin) && w[0].to == d;
      assert WalkCost(p.flat, w) == WalkCost(p.flat, []) + SegCost(p.flat, w[0]);
    }
  }

  /** What the caller gets: `r` reports the least cost, along with either the direct path or an
      entry that lost. */
  ghost predicate IsReport(p: Problem, d: Hub, r: Route) {
    r == FallbackRoute(p.g, p.origin, d, r.totalCost) ||
    exists n :: IsRealWalk(p, n) && n.hub == d && n.priority > r.totalCost && r == LeftoverRoute(p.g, n, r.totalCost)
  }

  /** Some direct connection is a cheapest walk. */
  ghost predicate DirectIsCheapest(p: Problem, d: Hub) {
    exists e :: e in EdgesFrom(p.g, p.origin) && e.to == d && IsLeastCost(p, d, SegCost(p.flat, e))
  }

  /** The reported path has the reported cost if and only if a direct connection is a cheapest walk. */
  ghost predicate GoodAnswer(p: Problem, d: Hub, r: Route) {
    IsLeastCost(p, d, r.totalCost) && IsReport(p, d, r) &&
    (UniqueEdges(p.g) ==> (Realises(p, r.path, r.totalCost) <==> DirectIsCheapest(p, d)))
  }

  /** Under a carrier price, for two different hubs, that is just a direct connection being there. */
  lemma FlatDirectIsCheapestIff(p: Problem, d: Hub)
    requires p.flat.Some? && p.flat.value >= 0.0 && p.origin != d
    ensures DirectIsCheapest(p, d) <==> exists e :: e in EdgesFrom(p.g, p.origin) && e.to == d
  {
    if e :| e in EdgesFrom(p.g, p.origin) && e.to == d {
      WalkExtend(p.g, p.origin, [], e);
      assert [] + [e] == [e] && [e][..0] == [];
      assert Connects(p.g, p.origin, [e], d) && WalkCost(p.flat, [e]) == p.flat.value;
      forall w | Connects(p.g, p.origin, w, d) ensures p.flat.value <= WalkCost(p.flat, w) {
        FlatCostNonNegative(p.flat, w[..|w| - 1]);
      }
      assert IsLeastCost(p, d, SegCost(p.flat, e));
    }
  }

  lemma {:induction false} FlatCostNonNegative(flat: Option<real>, w: seq<Edge>)
    requires flat.Some? && flat.value >= 0.0
    ensures WalkCost(flat, w) >= 0.0
  {
    if w != [] { FlatCostNonNegative(flat, w[..|w| - 1]); }
  }

  lemma LeftoverIsGood(p: Problem, n: PriorityNode, cost: real, heap: Heap)
    requires IsLeastCost(p, n.hub, cost) && DirectBound(p, heap) && n in heap
    requires IsRealWalk(p, n) && n.priority > cost
    ensures GoodAnswer(p, n.hub, LeftoverRoute(p.g, n, cost))
  {
    if UniqueEdges(p.g) {
      LeftoverNeverRealises(p, n, cost);
    }
  }

  // ---- Bounds on the work done -------------------------------------------

  function DegreeSum(g: Graph, hubs: seq<Hub>): nat {
    if hubs == [] then 0 else DegreeSum(g, hubs[..|hubs| - 1]) + |EdgesFrom(g, hubs[|hubs| - 1])|
  }

  ghost predicate Ascending(s: seq<real>) {
    forall i, j | 0 <= i < j < |s| :: s[i] <= s[j]
  }

  ghost predicate GoodLog(g: Graph, log: RunLog) {
    Ascending(log.popped) && Distinct(log.expanded) && log.pushes <= 1 + DegreeSum(g, log.expanded)
  }

  // ---- The algorithm -----------------------------------------------------

  lemma PushStep(p: Problem, best: Best, heap: Heap, done: set<Hub>, node: PriorityNode, i: nat, next: PriorityNode)
    requires NonNegative(p.g, p.flat)
    requires i < |EdgesFrom(p.g, node.hub)| && Expanding(p, best, heap, done, node, i)
    requires var e := EdgesFrom(p.g, node.hub)[i];
             next == PriorityNode(node.priority + SegCost(p.flat, e), e.to, node.path + [e.to], node.dist + e.dist, node.hours + e.hours)
    requires Improves(best, next.hub, next.priority)
    ensures Expanding(p, best[next.hub := next.priority], heap + multiset{next}, done, node, i + 1)
  {
    var e := EdgesFrom(p.g, node.hub)[i];
    var best' := best[next.hub := next.priority];
    assert SegCost(p.flat, e) >= 0.0 by { assert p.g[node.hub][i] == e; }
    PushedIsRealWalk(p, heap, node, e, next);
    PushInv(p.origin, best, heap, done, node.priority, next);
    forall j | 0 <= j < i + 1 ensures Relaxed(p, best', node.hub, EdgesFrom(p.g, node.hub)[j]) {
      assert j < i ==> Relaxed(p, best, node.hub, EdgesFrom(p.g, node.hub)[j]);
    }
  }

  lemma PopStale(p: Problem, best: Best, heap: Heap, done: set<Hub>, cur: real, n: PriorityNode)
    requires AtHead(p, best, heap, done, cur) && IsLeastEntry(heap, n)
    requires n.hub in best && n.priority > best[n.hub]
    ensures AtHead(p, best, heap - multiset{n}, done, n.priority)
    ensures cur <= n.priority
  {
    PopStaleInv(p.origin, best, heap, done, cur, n);
    RestKeeps(p, heap, n);
    assert EntryOk(best, heap, cur, n);
  }

  lemma PopFresh(p: Problem, best: Best, heap: Heap, done: set<Hub>, cur: real, n: PriorityNode)
    requires AtHead(p, best, heap, done, cur) && IsLeastEntry(heap, n)
    requires n.hub in best && n.priority <= best[n.hub]
    ensures n.hub !in done && n.hub in AllHubs(p) && cur <= n.priority
    ensures Expanding(p, best, heap - multiset{n}, done + {n.hub}, n, 0)
  {
    PopFreshInv(p.origin, best, heap, done, cur, n);
    RestKeeps(p, heap, n);
    assert done + {n.hub} - {n.hub} == done;
    assert EntryOk(best, heap, cur, n) && IsRealWalk(p, n);
  }

  lemma LeastEntryFacts(p: Problem, best: Best, heap: Heap, done: set<Hub>, cur: real, n: PriorityNode)
    requires AtHead(p, best, heap, done, cur) && IsLeastEntry(heap, n)
    ensures n.hub in best && IsRealWalk(p, n) && cur <= n.priority
    ensures RealWalks(p, heap - multiset{n}) && DirectBound(p, heap - multiset{n})
  {
    assert EntryOk(best, heap, cur, n) && IsRealWalk(p, n);
    RestKeeps(p, heap, n);
  }

  lemma RestKeeps(p: Problem, heap: Heap, n: PriorityNode)
    requires RealWalks(p, heap) && DirectBound(p, heap)
    ensures RealWalks(p, heap - multiset{n}) && DirectBound(p, heap - multiset{n})
  {
    forall m | m in heap - multiset{n} ensures IsRealWalk(p, m) && m.hub in AllHubs(p) {
      assert m in heap && IsRealWalk(p, m);
    }
  }

  lemma {:induction false} LeastEntryExists(heap: Heap) returns (n: PriorityNode)
    requires heap != multiset{}
    ensures IsLeastEntry(heap, n)
    decreases |heap|
  {
    n :| n in heap;
    var rest := heap - multiset{n};
    if rest != multiset{} {
      var m := LeastEntryExists(rest);
      assert forall k | k in heap :: k == n || k in rest;
      if m.priority < n.priority {
        n := m;
      }
    } else {
      assert forall k | k in heap :: k == n || k in rest;
    }
  }

  /** heappop: some entry of least priority leaves the heap; ties are broken arbitrarily. */
  method HeapPop(heap: Heap) returns (node: PriorityNode, rest: Heap)
    requires heap != multiset{}
    ensures IsLeastEntry(heap, node) && rest == heap - multiset{node} && |rest| < |heap|
  {
    ghost var least := LeastEntryExists(heap);
    assert least in heap && forall m | m in heap :: least.priority <= m.priority;
    node :| node in heap && forall m | m in heap :: node.priority <= m.priority;
    rest := heap - multiset{node};
  }

  /** The cost the loop charges for one connection. */
  method EdgeCost(e: Edge, prices: PriceMap, originCity: City, destCity: City, weight: real) returns (segCost: real)
    ensures segCost == SegCost(FlatCharge(prices, originCity, destCity, weight), e)
  {
    segCost := e.dist * 0.5;
    var bestPrice := CheapestPrice(prices, originCity, destCity);
    if bestPrice.Some? {
      segCost := weight * bestPrice.value;
    }
  }

  /** The relaxation loop for one popped hub: every connection out of it is priced and, where it
      improves on the best cost known, pushed. */
  method ExpandHub(ghost p: Problem, node: PriorityNode, g: Graph, prices: PriceMap, originCity: City, destCity: City,
                   weight: real, best0: Best, heap0: Heap, ghost done: set<Hub>)
    returns (best: Best, heap: Heap, ghost pushes: nat)
    requires p.g == g && p.flat == FlatCharge(prices, originCity, destCity, weight)
    requires NonNegative(p.g, p.flat)
    requires Expanding(p, best0, heap0, done, node, 0)
    ensures AtHead(p, best, heap, done, node.priority)
    ensures pushes <= |EdgesFrom(g, node.hub)| && |heap| == |heap0| + pushes
  {
    best, heap, pushes := best0, heap0, 0;
    var edges := EdgesFrom(g, node.hub);
    for i := 0 to |edges|
      invariant Expanding(p, best, heap, done, node, i)
      invariant pushes <= i && |heap| == |heap0| + pushes
    {
      var e := edges[i];
      var segCost := EdgeCost(e, prices, originCity, destCity, weight);
      var newCost := node.priority + segCost;
      if e.to !in best || newCost < best[e.to] {
        var next := PriorityNode(newCost, e.to, node.path + [e.to], node.dist + e.dist, node.hours + e.hours);
        PushStep(p, best, heap, done, node, i, next);
        best := best[e.to := newCost];
        heap := heap + multiset{next};
        pushes := pushes + 1;
      }
    }
  }

  /** What the main loop leaves behind, whether it stopped early or ran out of entries. */
  ghost predicate Finished(p: Problem, best: Best, heap: Heap, d: Hub) {
    RealWalks(p, heap) &&
    if d in best then
      IsLeastCost(p, d, best[d]) && DirectBound(p, heap) &&
      forall m | m in heap && m.hub == d :: m.priority > best[d]
    else
      !Reachable(p.g, p.origin, d)
  }

  lemma FinishedAtDestination(p: Problem, best: Best, heap: Heap, done: set<Hub>, cur: real, n: PriorityNode)
    requires NonNegative(p.g, p.flat)
    requires AtHead(p, best, heap, done, cur) && IsLeastEntry(heap, n) && n.hub !in done
    ensures Finished(p, best, heap - multiset{n}, n.hub)
  {
    LeastEntryFacts(p, best, heap, done, cur, n);
    PoppedDestinationIsOptimal(p, best, heap, done, cur, n);
  }

  lemma FinishedEmpty(p: Problem, best: Best, done: set<Hub>, cur: real, d: Hub)
    requires NonNegative(p.g, p.flat)
    requires AtHead(p, best, multiset{}, done, cur) && d !in done
    ensures Finished(p, best, multiset{}, d)
  {
    ExhaustedMeansUnreachable(p, best, done, cur, d);
  }

  /** Some walk to the hub costs at most this much, if a limit is given. */
  ghost predicate ReachedWithin(p: Problem, h: Hub, limit: Option<real>) {
    exists w :: Connects(p.g, p.origin, w, h) && (limit.Some? ==> WalkCost(p.flat, w) <= limit.value)
  }

  /** The expanded hubs are those the search had to expand: every hub nearer than the destination, and
      none farther; without a way to the destination, every reachable hub. */
  ghost predicate Explored(p: Problem, log: RunLog, cost: Option<real>) {
    (forall w | IsWalk(p.g, p.origin, w) && (cost.Some? ==> WalkCost(p.flat, w) < cost.value) :: End(p.origin, w) in log.expanded) &&
    forall h | h in log.expanded :: ReachedWithin(p, h, cost)
  }

  /** The log of a run: what was popped and what is left was pushed, and the last entry popped is the
      destination's. */
  ghost predicate IsLogOf(p: Problem, log: RunLog, left: nat, cost: Option<real>) {
    GoodLog(p.g, log) && Explored(p, log, cost) && |log.popped| + left == log.pushes &&
    (cost.Some? ==> log.popped != [] && log.popped[|log.popped| - 1] == cost.value)
  }

  ghost predicate LogOk(p: Problem, log: RunLog, done: set<Hub>, left: nat, cur: real) {
    GoodLog(p.g, log) && |log.popped| + left == log.pushes &&
    (forall h :: h in log.expanded <==> h in done) &&
    (forall h | h in done :: ReachedWithin(p, h, Some(cur))) &&
    forall i | 0 <= i < |log.popped| :: log.popped[i] <= cur
  }

  lemma ReachedFarther(p: Problem, done: set<Hub>, a: real, b: real)
    requires a <= b && forall h | h in done :: ReachedWithin(p, h, Some(a))
    ensures forall h | h in done :: ReachedWithin(p, h, Some(b))
  {
    forall h | h in done ensures ReachedWithin(p, h, Some(b)) {
      assert ReachedWithin(p, h, Some(a));
    }
  }

  function LogPop(log: RunLog, priority: real): RunLog {
    log.(popped := log.popped + [priority])
  }

  function LogExpand(log: RunLog, h: Hub, pushes: nat): RunLog {
    log.(expanded := log.expanded + [h], pushes := log.pushes + pushes)
  }

  lemma LogPopOk(p: Problem, log: RunLog, done: set<Hub>, left: nat, cur: real, priority: real)
    requires left > 0 && LogOk(p, log, done, left, cur) && cur <= priority
    ensures LogOk(p, LogPop(log, priority), done, left - 1, priority)
  {
    ReachedFarther(p, done, cur, priority);
  }

  lemma LogExpandOk(p: Problem, log: RunLog, done: set<Hub>, left: nat, node: PriorityNode, pushes: nat)
    requires LogOk(p, log, done, left, node.priority) && node.hub !in done && IsRealWalk(p, node)
    requires pushes <= |EdgesFrom(p.g, node.hub)|
    ensures LogOk(p, LogExpand(log, node.hub, pushes), done + {node.hub}, left + pushes, node.priority)
  {
    assert (log.expanded + [node.hub])[..|log.expanded|] == log.expanded;
    assert ReachedWithin(p, node.hub, Some(node.priority));
  }

  /** At the early exit every hub nearer than the destination has been expanded. */
  lemma LogAtDestination(p: Problem, best: Best, heap: Heap, done: set<Hub>, cur: real, log: RunLog, n: PriorityNode)
    requires NonNegative(p.g, p.flat)
    requires AtHead(p, best, heap, done, cur) && IsLeastEntry(heap, n)
    requires LogOk(p, LogPop(log, n.priority), done, |heap| - 1, n.priority)
    ensures IsLogOf(p, LogPop(log, n.priority), |heap| - 1, Some(n.priority))
  {
    forall w | IsWalk(p.g, p.origin, w) && WalkCost(p.flat, w) < n.priority ensures End(p.origin, w) in log.expanded {
      LowerBound(p, best, heap, done, cur, w);
      assert End(p.origin, w) in done;
    }
  }

  /** When the heap runs empty every reachable hub has been expanded. */
  lemma LogAtEnd(p: Problem, best: Best, done: set<Hub>, cur: real, log: RunLog)
    requires NonNegative(p.g, p.flat)
    requires AtHead(p, best, multiset{}, done, cur) && LogOk(p, log, done, 0, cur)
    ensures IsLogOf(p, log, 0, None)
  {
    forall w | IsWalk(p.g, p.origin, w) ensures End(p.origin, w) in log.expanded {
      LowerBound(p, best, multiset{}, done, cur, w);
    }
    forall h | h in log.expanded ensures ReachedWithin(p, h, None) {
      assert ReachedWithin(p, h, Some(cur));
    }
  }

  ghost function Unexpanded(p: Problem, done: set<Hub>): set<Hub> {
    AllHubs(p) - done
  }

  /** The state at the head of the main loop, with its log. */
  ghost predicate Searching(p: Problem, best: Best, heap: Heap, done: set<Hub>, cur: real, log: RunLog) {
    AtHead(p, best, heap, done, cur) && LogOk(p, log, done, |heap|, cur) && done <= AllHubs(p)
  }

  lemma SearchStarts(p: Problem, start: PriorityNode)
    requires NonNegative(p.g, p.flat)
    requires start == PriorityNode(0.0, p.origin, [p.origin], 0.0, 0.0)
    ensures Searching(p, map[p.origin := 0.0], multiset{start}, {}, 0.0, RunLog([], [], 1))
  {
    StartInv(p, start);
  }

  lemma SearchStops(p: Problem, best: Best, heap: Heap, done: set<Hub>, cur: real, log: RunLog, n: PriorityNode)
    requires NonNegative(p.g, p.flat)
    requires Searching(p, best, heap, done, cur, log) && IsLeastEntry(heap, n) && n.hub !in done
    ensures n.hub in best && Finished(p, best, heap - multiset{n}, n.hub)
    ensures IsLogOf(p, LogPop(log, n.priority), |heap - multiset{n}|, Some(best[n.hub]))
  {
    LeastEntryFacts(p, best, heap, done, cur, n);
    LogPopOk(p, log, done, |heap|, cur, n.priority);
    LogAtDestination(p, best, heap, done, cur, log, n);
    FinishedAtDestination(p, best, heap, done, cur, n);
    PoppedDestinationIsOptimal(p, best, heap, done, cur, n);
  }

  lemma SearchSkips(p: Problem, best: Best, heap: Heap, done: set<Hub>, cur: real, log: RunLog, n: PriorityNode)
    requires Searching(p, best, heap, done, cur, log) && IsLeastEntry(heap, n)
    requires n.hub in best && n.priority > best[n.hub]
    ensures Searching(p, best, heap - multiset{n}, done, n.priority, LogPop(log, n.priority))
  {
    PopStale(p, best, heap, done, cur, n);
    LogPopOk(p, log, done, |heap|, cur, n.priority);
  }

  lemma SearchExpands(p: Problem, best: Best, heap: Heap, done: set<Hub>, cur: real, log: RunLog, n: PriorityNode)
    requires Searching(p, best, heap, done, cur, log) && IsLeastEntry(heap, n)
    requires !(n.hub in best && n.priority > best[n.hub])
    ensures n.hub !in done && done + {n.hub} <= AllHubs(p) && IsRealWalk(p, n)
    ensures Unexpanded(p, done + {n.hub}) < Unexpanded(p, done)
    ensures Expanding(p, best, heap - multiset{n}, done + {n.hub}, n, 0)
    ensures LogOk(p, LogPop(log, n.priority), done, |heap| - 1, n.priority)
  {
    LeastEntryFacts(p, best, heap, done, cur, n);
    PopFresh(p, best, heap, done, cur, n);
    LogPopOk(p, log, done, |heap|, cur, n.priority);
  }

  lemma SearchGoesOn(p: Problem, best: Best, heap: Heap, done: set<Hub>, n: PriorityNode, log: RunLog, pushes: nat)
    requires AtHead(p, best, heap, done + {n.hub}, n.priority) && n.hub !in done && done + {n.hub} <= AllHubs(p) && IsRealWalk(p, n)
    requires pushes <= |EdgesFrom(p.g, n.hub)| && pushes <= |heap| && LogOk(p, log, done, |heap| - pushes, n.priority)
    ensures Searching(p, best, heap, done + {n.hub}, n.priority, LogExpand(log, n.hub, pushes))
  {
    LogExpandOk(p, log, done, |heap| - pushes, n, pushes);
  }

  lemma SearchEnds(p: Problem, best: Best, done: set<Hub>, cur: real, log: RunLog, d: Hub)
    requires NonNegative(p.g, p.flat)
    requires Searching(p, best, multiset{}, done, cur, log) && d !in done
    ensures d !in best && Finished(p, best, multiset{}, d) && IsLogOf(p, log, 0, None)
  {
    LogAtEnd(p, best, done, cur, log);
    FinishedEmpty(p, best, done, cur, d);
    ExhaustedMeansUnreachable(p, best, done, cur, d);
  }

  /** The main loop: pop the least entry, stop at the destination, skip stale entries, expand the rest. */
  method RunSearch(ghost p: Problem, origin: Hub, destination: Hub, g: Graph, prices: PriceMap,
                   originCity: City, destCity: City, weight: real)
    returns (best: Best, heap: Heap, ghost log: RunLog)
    requires p == Problem(g, origin, FlatCharge(prices, originCity, destCity, weight))
    requires NonNegative(p.g, p.flat)
    ensures Finished(p, best, heap, destination)
    ensures IsLogOf(p, log, |heap|, if destination in best then Some(best[destination]) else None)
  {
    best := map[origin := 0.0];
    var start := PriorityNode(0.0, origin, [origin], 0.0, 0.0);
    heap := multiset{start};
    ghost var done: set<Hub>, cur := {}, 0.0;
    log := RunLog([], [], 1);
    SearchStarts(p, start);

    while heap != multiset{}
      invariant Searching(p, best, heap, done, cur, log) && destination !in done
      decreases Unexpanded(p, done), |heap|
    {
      ghost var before, logBefore := heap, log;
      var node;
      node, heap := HeapPop(heap);
      log := LogPop(log, node.priority);
      if node.hub == destination {
        SearchStops(p, best, before, done, cur, logBefore, node);
        return;
      }
      if node.hub in best && node.priority > best[node.hub] {
        SearchSkips(p, best, before, done, cur, logBefore, node);
        cur := node.priority;
        continue;
      }
      SearchExpands(p, best, before, done, cur, logBefore, node);
      ghost var pushes: nat;
      best, heap, pushes := ExpandHub(p, node, g, prices, originCity, destCity, weight, best, heap, done + {node.hub});
      SearchGoesOn(p, best, heap, done, node, log, pushes);
      log := LogExpand(log, node.hub, pushes);
      done, cur := done + {node.hub}, node.priority;
    }
    SearchEnds(p, best, done, cur, log, destination);
  }

  /** The route is that of some destination entry left in the heap, or the fallback if none is left. */
  ghost predicate IsTakenFrom(g: Graph, o: Hub, d: Hub, left: Heap, r: Route) {
    if exists n :: n in left && n.hub == d then exists n :: n in left && n.hub == d && r == LeftoverRoute(g, n, r.totalCost)
    else r == FallbackRoute(g, o, d, r.totalCost)
  }

  /** The whole search. It answers None exactly when the destination cannot be reached, and the
      reported cost is the least over all walks; the reported path has that cost only when a
      direct connection is a cheapest walk. The log is that of the search: the last entry popped is
      the destination's, and every hub nearer than it was expanded, and none farther; `left` are the
      entries still in the heap, from which the path is taken. */
  method Search(origin: Hub, destination: Hub, g: Graph, prices: PriceMap,
                originCity: City, destCity: City, weight: real)
    returns (r: Option<Route>, ghost log: RunLog, ghost left: Heap)
    requires NonNegative(g, FlatCharge(prices, originCity, destCity, weight))
    ensures r.None? <==> !Reachable(g, origin, destination)
    ensures r.Some? ==> GoodAnswer(Problem(g, origin, FlatCharge(prices, originCity, destCity, weight)), destination, r.value)
    ensures r.Some? ==> IsTakenFrom(g, origin, destination, left, r.value)
    ensures RealWalks(Problem(g, origin, FlatCharge(prices, originCity, destCity, weight)), left)
    ensures IsLogOf(Problem(g, origin, FlatCharge(prices, originCity, destCity, weight)), log, |left|,
                    if r.Some? then Some(r.value.totalCost) else None)
  {
    ghost var p := Problem(g, origin, FlatCharge(prices, originCity, destCity, weight));
    var best, heap;
    best, heap, log := RunSearch(p, origin, destination, g, prices, originCity, destCity, weight);
    left := heap;
    if destination !in best {
      return None, log, left;
    }
    assert Reachable(g, origin, destination) by {
      var w :| Connects(g, origin, w, destination) && WalkCost(p.flat, w) == best[destination];
    }
    if item :| item in heap && item.hub == destination {
      assert IsRealWalk(p, item);
      LeftoverIsGood(p, item, best[destination], heap);
      r := Some(LeftoverRoute(g, item, best[destination]));
    } else {
      FallbackRealises(p, destination, best[destination]);
      r := Some(FallbackRoute(g, origin, destination, best[destination]));
    }
  }
}
