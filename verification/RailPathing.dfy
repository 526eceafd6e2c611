/**
 The host's path search (host/src/host/rail_network/rail_pathing.hpp): a breadth-first search over the graph in
 which a rail leads to its next rail and to the branch of that next rail, and a walk back through the parents.
 */
module RailPathing {
  import opened Wrappers
  import opened RailStorage

  /** For every stored rail, the up to two rails it leads to. */
  type Graph = map<RailId, (Option<RailId>, Option<RailId>)>

  /** Every rail that some rail leads to is itself stored. */
  ghost predicate Closed(g: Graph) {
    forall u :: u in g ==> (g[u].0.Some? ==> g[u].0.value in g) && (g[u].1.Some? ==> g[u].1.value in g)
  }

  /** The graph that `get_connections` spans over a storage. */
  function GraphOf(net: Network): (g: Graph)
    requires net.Valid()
    ensures Closed(g) && g.Keys == net.lookup.Keys
    ensures forall u :: u in g ==> g[u] == Connections(net, u)
  {
    map id | id in net.lookup :: Connections(net, id)
  }

  /** What the edges mean: the next rail, and the rail at the branch of a next rail stored as a junction. */
  lemma EdgeIff(net: Network, u: RailId, v: RailId)
    requires net.Valid()
    ensures Edge(GraphOf(net), u, v) <==>
            var next := net.Next(u);
            next.Some? &&
            var rail := net.At(net.lookup[next.value]);
            || next == Some(v)
            || ((rail.rtype == LeftJunction || rail.rtype == RightJunction) && net.IdAt(rail.branch) == Some(v))
  {
  }

  ghost predicate Edge(g: Graph, u: RailId, v: RailId) {
    u in g && (g[u].0 == Some(v) || g[u].1 == Some(v))
  }

  /** A walk in travel order. */
  ghost predicate Walk(g: Graph, w: seq<RailId>, start: RailId, end: RailId)
  {
    && w != [] && w[0] == start && w[|w| - 1] == end
    && forall i :: 0 <= i < |w| - 1 ==> Edge(g, w[i], w[i + 1])
  }

  ghost predicate Reachable(g: Graph, start: RailId, end: RailId)
  {
    exists w :: Walk(g, w, start, end)
  }

  /** A path as the search returns it: the end comes first and the start last. */
  ghost predicate BackwardWalk(g: Graph, path: seq<RailId>, start: RailId, end: RailId)
  {
    && path != [] && path[0] == end && path[|path| - 1] == start
    && forall i :: 0 <= i < |path| - 1 ==> Edge(g, path[i + 1], path[i])
  }

  /** A returned path in travel order. */
  lemma Forward(g: Graph, path: seq<RailId>, start: RailId, end: RailId) returns (w: seq<RailId>)
    requires BackwardWalk(g, path, start, end)
    ensures Walk(g, w, start, end) && |w| == |path|
    ensures forall i :: 0 <= i < |w| ==> w[i] == path[|path| - 1 - i]
  {
    w := seq(|path|, i requires 0 <= i < |path| => path[|path| - 1 - i]);
    forall i | 0 <= i < |w| - 1 ensures Edge(g, w[i], w[i + 1]) {
      var j := |path| - 2 - i;
      assert Edge(g, path[j + 1], path[j]);
    }
  }

  lemma BackwardWalkReaches(g: Graph, path: seq<RailId>, start: RailId, end: RailId)
    requires BackwardWalk(g, path, start, end)
    ensures Reachable(g, start, end)
  {
    var w := Forward(g, path, start, end);
  }

  // ----- the search invariant; `dist` is the number of steps at which a rail was first seen -----

  /** Everything seen was reached from its parent, one step further from the start. */
  ghost predicate Rooted(g: Graph, start: RailId, parent: map<RailId, RailId>, dist: map<RailId, nat>)
  {
    && start in dist && dist[start] == 0 && start in g
    && parent.Keys == dist.Keys - {start}
    && dist.Keys <= g.Keys
    && forall v :: v in parent ==>
         parent[v] in dist && Edge(g, parent[v], v) && dist[v] == dist[parent[v]] + 1
  }

  /** All ways out of `u` have been seen, at most one step beyond `u`. */
  ghost predicate Explored(g: Graph, dist: map<RailId, nat>, u: RailId)
    requires u in dist
  {
    forall v :: Edge(g, u, v) ==> v in dist && dist[v] <= dist[u] + 1
  }

  /** The queue is sorted and spans at most the distances `d` and `d + 1`, and nothing was seen beyond those. */
  ghost predicate Layered(open: seq<RailId>, dist: map<RailId, nat>, d: nat) {
    && (forall u :: u in dist ==> dist[u] <= d + 1)
    && (forall i :: 0 <= i < |open| ==> open[i] in dist && d <= dist[open[i]])
    && (forall i, j :: 0 <= i < j < |open| ==> open[i] in dist && open[j] in dist && dist[open[i]] <= dist[open[j]])
  }

  /** Only queued rails and the ones in `busy` still have ways out to explore. */
  ghost predicate Frontier(g: Graph, open: seq<RailId>, dist: map<RailId, nat>, busy: set<RailId>)
  {
    forall u :: u in dist ==> u in open || u in busy || Explored(g, dist, u)
  }

  /** If every rail nearer than `horizon` is explored, a walk of at most `horizon` steps ends at a seen rail. */
  lemma {:induction false} WalkWithinHorizon(g: Graph, start: RailId, dist: map<RailId, nat>, horizon: nat,
                                             w: seq<RailId>, end: RailId)
    requires start in dist && dist[start] == 0
    requires forall u :: u in dist && dist[u] < horizon ==> Explored(g, dist, u)
    requires Walk(g, w, start, end) && |w| - 1 <= horizon
    ensures end in dist && dist[end] <= |w| - 1
    decreases |w|
  {
    if |w| > 1 {
      var mid := w[|w| - 2];
      assert Walk(g, w[..|w| - 1], start, mid);
      WalkWithinHorizon(g, start, dist, horizon, w[..|w| - 1], mid);
      assert Edge(g, w[|w| - 2], w[|w| - 2 + 1]);
    }
  }

  /** The walk back through the parents, which cannot run forever because distances shrink. */
  method Reconstruct(g: Graph, start: RailId, end: RailId, parent: map<RailId, RailId>,
                     ghost dist: map<RailId, nat>)
    returns (path: seq<RailId>)
    requires Rooted(g, start, parent, dist) && end in dist
    ensures BackwardWalk(g, path, start, end)
    ensures |path| == dist[end] + 1
  {
    path := [];
    var current := end;
    while current != start
      invariant current in dist && |path| + dist[current] == dist[end]
      invariant (path + [current])[0] == end
      invariant forall i :: 0 <= i < |path| ==> Edge(g, (path + [current])[i + 1], path[i])
      decreases dist[current]
    {
      path := path + [current];
      current := parent[current];
    }
    path := path + [start];
  }

  /** One newly seen rail keeps the search invariant. */
  lemma SeenKeepsInvariant(g: Graph, start: RailId, open: seq<RailId>, parent: map<RailId, RailId>,
                           dist: map<RailId, nat>, current: RailId, rail: RailId)
    requires Rooted(g, start, parent, dist) && current in dist
    requires Layered(open, dist, dist[current]) && Frontier(g, open, dist, {current})
    requires Edge(g, current, rail) && rail !in dist && rail in g
    ensures var dist' := dist[rail := dist[current] + 1];
            && Rooted(g, start, parent[rail := current], dist')
            && Layered(open + [rail], dist', dist[current])
            && Frontier(g, open + [rail], dist', {current})
  {
    var dist' := dist[rail := dist[current] + 1];
    forall u | u in dist' ensures u in open + [rail] || u == current || Explored(g, dist', u) {
      if u in dist && u !in open && u != current {
        assert Explored(g, dist, u);
      }
    }
  }

  /** What the search keeps between two pops. */
  ghost predicate Searching(g: Graph, start: RailId, open: seq<RailId>, parent: map<RailId, RailId>,
                            dist: map<RailId, nat>) {
    && Rooted(g, start, parent, dist)
    && Frontier(g, open, dist, {})
    && (open != [] ==> open[0] in dist && Layered(open, dist, dist[open[0]]))
  }

  /** The inner loop: look at both ways out of the rail just popped. */
  method Expand(g: Graph, ghost start: RailId, current: RailId, open0: seq<RailId>, visited0: set<RailId>,
                parent0: map<RailId, RailId>, ghost dist0: map<RailId, nat>)
    returns (open: seq<RailId>, visited: set<RailId>, parent: map<RailId, RailId>, ghost dist: map<RailId, nat>)
    requires Closed(g) && visited0 == dist0.Keys && Rooted(g, start, parent0, dist0) && current in dist0
    requires Layered(open0, dist0, dist0[current]) && Frontier(g, open0, dist0, {current})
    ensures visited == dist.Keys && Searching(g, start, open, parent, dist)
    ensures visited0 <= visited && (visited0 == visited ==> open == open0)
    ensures forall u :: u in open0 || (u in visited && u !in visited0) ==> u in open
  {
    open, visited, parent, dist := open0, visited0, parent0, dist0;
    var ways := g[current];
    for k := 0 to 2
      invariant visited == dist.Keys && Rooted(g, start, parent, dist)
      invariant current in dist && dist[current] == dist0[current]
      invariant Layered(open, dist, dist[current]) && Frontier(g, open, dist, {current})
      invariant k > 0 && ways.0.Some? ==> ways.0.value in dist
      invariant k > 1 && ways.1.Some? ==> ways.1.value in dist
      invariant visited0 <= visited && (visited0 == visited ==> open == open0)
      invariant forall u :: u in open0 || (u in visited && u !in visited0) ==> u in open
    {
      var way := if k == 0 then ways.0 else ways.1;
      if way.Some? && way.value !in visited {
        SeenKeepsInvariant(g, start, open, parent, dist, current, way.value);
        visited := visited + {way.value};
        parent := parent[way.value := current];
        open := open + [way.value];
        dist := dist[way.value := dist[current] + 1];
      }
    }
    assert Explored(g, dist, current);
  }

  /** When the end is popped, no walk can be shorter than the way back through the parents. */
  lemma PoppedIsNearest(g: Graph, start: RailId, end: RailId, open: seq<RailId>, parent: map<RailId, RailId>,
                        dist: map<RailId, nat>, w: seq<RailId>)
    requires Searching(g, start, open, parent, dist) && open != [] && open[0] == end
    requires Walk(g, w, start, end)
    ensures dist[end] + 1 <= |w|
  {
    if |w| - 1 < dist[end] {
      forall u | u in dist && dist[u] < dist[end] ensures Explored(g, dist, u) {
        assert u !in open;
      }
      WalkWithinHorizon(g, start, dist, dist[end], w, end);
    }
  }

  lemma ExhaustedIsComplete(g: Graph, start: RailId, end: RailId, parent: map<RailId, RailId>,
                            dist: map<RailId, nat>)
    requires Searching(g, start, [], parent, dist) && end !in dist
    ensures !Reachable(g, start, end)
  {
    forall w | Walk(g, w, start, end) ensures false {
      WalkWithinHorizon(g, start, dist, |w|, w, end);
    }
  }

  /** Taking the front rail off the queue leaves it as the only rail with unexplored ways out. */
  lemma PopKeepsInvariant(g: Graph, start: RailId, open: seq<RailId>, parent: map<RailId, RailId>,
                          dist: map<RailId, nat>)
    requires Searching(g, start, open, parent, dist) && open != []
    ensures Layered(open[1..], dist, dist[open[0]]) && Frontier(g, open[1..], dist, {open[0]})
  {
    assert open == [open[0]] + open[1..];
  }

  lemma FewerUnseen(all: set<RailId>, seen: set<RailId>, visited: set<RailId>)
    requires seen <= visited <= all
    ensures seen == visited || all - visited < all - seen
  {
    if seen != visited {
      var found :| found in visited && found !in seen;
      assert found in all - seen;
    }
  }

  method Search(g: Graph, start: RailId, end: RailId) returns (path: seq<RailId>)
    requires Closed(g)
    ensures path == [] <==> start !in g || end !in g || !Reachable(g, start, end)
    ensures path != [] ==> BackwardWalk(g, path, start, end)
    ensures path != [] ==> forall w :: Walk(g, w, start, end) ==> |path| <= |w|
  {
    if start !in g || end !in g {
      return [];
    }
    var open := [start];
    var visited := {start};
    var parent: map<RailId, RailId> := map[];
    ghost var dist: map<RailId, nat> := map[start := 0];
    while open != []
      invariant visited == dist.Keys && Searching(g, start, open, parent, dist)
      invariant end in dist ==> end in open
      decreases g.Keys - visited, |open|
    {
      var current := open[0];
      if current == end {
        path := Reconstruct(g, start, end, parent, dist);
        BackwardWalkReaches(g, path, start, end);
        forall w | Walk(g, w, start, end) ensures |path| <= |w| {
          PoppedIsNearest(g, start, end, open, parent, dist, w);
        }
        return;
      }
      PopKeepsInvariant(g, start, open, parent, dist);
      ghost var seen := visited;
      open, visited, parent, dist := Expand(g, start, current, open[1..], visited, parent, dist);
      FewerUnseen(g.Keys, seen, visited);
    }
    ExhaustedIsComplete(g, start, end, parent, dist);
    path := [];
  }

  /** `generate_path` over the rails of a storage. */
  method GeneratePath(net: Network, start: RailId, end: RailId) returns (path: seq<RailId>)
    requires net.Valid()
    ensures path == [] <==> start !in net.lookup || end !in net.lookup || !Reachable(GraphOf(net), start, end)
    ensures path != [] ==> BackwardWalk(GraphOf(net), path, start, end)
    ensures path != [] ==> forall w :: Walk(GraphOf(net), w, start, end) ==> |path| <= |w|
  {
    path := Search(GraphOf(net), start, end);
  }

  // ----- a row of plain rails -----

  predicate Plain(rails: seq<Endpoint>) {
    forall i :: 0 <= i < |rails| ==> rails[i].rtype != LeftJunction && rails[i].rtype != RightJunction
  }

  predicate Distinct(ids: seq<RailId>) {
    forall i, j :: 0 <= i < j < |ids| ==> ids[i] != ids[j]
  }

  /** Different rails, each of which leads to the next one only, and the last one nowhere. */
  ghost predicate Chain(g: Graph, ids: seq<RailId>) {
    && Distinct(ids)
    && forall i, v :: 0 <= i < |ids| ==> (Edge(g, ids[i], v) <==> Follows(ids, i, v))
  }

  predicate Follows(ids: seq<RailId>, i: int, v: RailId) {
    0 <= i < |ids| - 1 && v == ids[i + 1]
  }

  /** A walk that starts on a chain stays on it, one rail at a time. */
  lemma {:induction false} ChainWalks(g: Graph, ids: seq<RailId>, i: nat, w: seq<RailId>, v: RailId)
    requires Chain(g, ids) && i < |ids| && Walk(g, w, ids[i], v)
    ensures i + |w| <= |ids| && w == ids[i..i + |w|]
    decreases |w|
  {
    if |w| > 1 {
      assert Edge(g, w[0], w[0 + 1]);
      assert Follows(ids, i, w[1]);
      var rest := w[1..];
      forall k | 0 <= k < |rest| - 1 ensures Edge(g, rest[k], rest[k + 1]) {
        assert Edge(g, w[k + 1], w[k + 1 + 1]);
      }
      ChainWalks(g, ids, i + 1, rest, v);
      assert w == [ids[i]] + ids[i + 1..i + |w|];
    }
  }

  lemma SamePlace(ids: seq<RailId>, i: nat, j: nat)
    requires Distinct(ids) && i < |ids| && j < |ids| && ids[i] == ids[j]
    ensures i == j
  {
  }

  /** On a chain there is one way from a rail to a later one, and none to an earlier one. */
  lemma ChainPaths(g: Graph, ids: seq<RailId>, i: nat, j: nat)
    requires Chain(g, ids) && i < |ids| && j < |ids|
    ensures Reachable(g, ids[i], ids[j]) <==> i <= j
    ensures forall path :: BackwardWalk(g, path, ids[i], ids[j]) ==>
              |path| == j - i + 1 && forall k :: 0 <= k < |path| ==> path[k] == ids[j - k]
  {
    forall w | Walk(g, w, ids[i], ids[j]) ensures |w| == j - i + 1 {
      ChainWalks(g, ids, i, w, ids[j]);
      SamePlace(ids, i + |w| - 1, j);
    }
    if i <= j {
      var w := ids[i..j + 1];
      forall k | 0 <= k < |w| - 1 ensures Edge(g, w[k], w[k + 1]) {
        assert Follows(ids, i + k, w[k + 1]);
      }
      assert Walk(g, w, ids[i], ids[j]);
    }
    forall path | BackwardWalk(g, path, ids[i], ids[j])
      ensures |path| == j - i + 1 && forall k :: 0 <= k < |path| ==> path[k] == ids[j - k]
    {
      var w := Forward(g, path, ids[i], ids[j]);
      ChainWalks(g, ids, i, w, ids[j]);
      forall k | 0 <= k < |path| ensures path[k] == ids[j - k] {
        assert path[k] == w[|path| - 1 - k];
      }
    }
  }

  function IdsOf(rails: seq<Endpoint>): (ids: seq<RailId>)
    ensures |ids| == |rails| && forall i :: 0 <= i < |rails| ==> ids[i] == rails[i].id
  {
    seq(|rails|, i requires 0 <= i < |rails| => rails[i].id)
  }

  /** The only edge out of a rail of the row goes to the rail behind it. */
  lemma RowEdges(net: Network, n: Network, rails: seq<Endpoint>, i: nat, v: RailId)
    requires Laid(net, n, rails) && Plain(rails) && i < |rails|
    ensures Edge(GraphOf(n), rails[i].id, v) <==> i + 1 < |rails| && v == rails[i + 1].id
  {
    EdgeIff(n, rails[i].id, v);
    RowLeadsOn(net, n, rails, i);
    if i + 1 < |rails| {
      RowIsFound(net, n, rails, i + 1);
    }
  }

  lemma RowIsChain(net: Network, n: Network, rails: seq<Endpoint>)
    requires Laid(net, n, rails) && Plain(rails) && Layable(net, rails)
    ensures Chain(GraphOf(n), IdsOf(rails))
  {
    var g, ids := GraphOf(n), IdsOf(rails);
    forall i, j | 0 <= i < j < |ids| ensures ids[i] != ids[j] {
      assert rails[i].id != rails[j].id;
    }
    forall i, v | 0 <= i < |ids| ensures Edge(g, ids[i], v) <==> Follows(ids, i, v) {
      RowEdges(net, n, rails, i, v);
    }
  }

  /**
   Lay any number of plain rails in a row on any network: the i-th reaches the j-th if and only if it is not behind it,
   and the only path is the j - i + 1 rails from one to the other.
   */
  lemma RowPaths(net: Network, rails: seq<Endpoint>, i: nat, j: nat)
    requires net.Valid() && Layable(net, rails) && Plain(rails) && i < |rails| && j < |rails|
    ensures AppendAll(net, Row(rails)).Valid()
    ensures var g := GraphOf(AppendAll(net, Row(rails)));
            && (Reachable(g, rails[i].id, rails[j].id) <==> i <= j)
            && forall path :: BackwardWalk(g, path, rails[i].id, rails[j].id) ==>
                 |path| == j - i + 1 && forall k :: 0 <= k < |path| ==> path[k] == rails[j - k].id
  {
    RowIsLaid(net, rails);
    var n, ids := AppendAll(net, Row(rails)), IdsOf(rails);
    RowIsChain(net, n, rails);
    ChainPaths(GraphOf(n), ids, i, j);
  }
}
