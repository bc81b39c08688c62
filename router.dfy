/// The router shared by the three graph variants: Dijkstra's algorithm with
/// unit edge costs, a linear-scan minimum over the unmarked nodes, an early
/// stop when the destination is selected and a walk back over the
/// predecessors. The model proves that, whatever node the minimum scan picks
/// among equal distances, the route is a shortest channel path.
module Router {
  import opened Errors
  import opened Channels

  /** A tentative distance: a hop count or infinity. */
  datatype Cost = Finite(hops: nat) | Infinite

  /** Addition in which infinity absorbs, as inf + 1 == inf. */
  function Plus(a: Cost, b: Cost): Cost {
    if a.Finite? && b.Finite? then Finite(a.hops + b.hops) else Infinite
  }

  /** a < b, with every hop count below infinity. */
  predicate Below(a: Cost, b: Cost) {
    a.Finite? && (b.Infinite? || a.hops < b.hops)
  }

  /** c is a hop count of at most n. */
  predicate AtMost(c: Cost, n: int) {
    c.Finite? && c.hops <= n
  }

  /** edgecost: 1 when the directed entry u->v exists, infinity otherwise. */
  function EdgeCost(g: ChannelMap, u: NodeId, v: NodeId): Cost {
    if u in g && v in g[u] then Finite(1) else Infinite
  }

  /** The edge cost tells channels apart from non-channels, and relaxing from
      an infinite distance can never improve a distance. */
  lemma EdgeCostMeaning(g: ChannelMap, u: NodeId, v: NodeId, d: Cost)
    ensures EdgeCost(g, u, v).Finite? <==> HasChannel(g, u, v)
    ensures HasChannel(g, u, v) ==> EdgeCost(g, u, v) == Finite(1)
    ensures !Below(Plus(Infinite, EdgeCost(g, u, v)), d)
  {
  }

  /** A sequence of nodes whose consecutive pairs are channels. */
  ghost predicate IsWalk(g: ChannelMap, w: seq<NodeId>) {
    |w| >= 1 && forall i :: 0 <= i < |w| - 1 ==> HasChannel(g, w[i], w[i + 1])
  }

  ghost predicate WalkBetween(g: ChannelMap, w: seq<NodeId>, src: NodeId, dst: NodeId) {
    IsWalk(g, w) && w[0] == src && w[|w| - 1] == dst
  }

  /** No node occurs twice. */
  predicate Distinct(w: seq<NodeId>) {
    forall i, j :: 0 <= i < j < |w| ==> w[i] != w[j]
  }

  /** The pair dijkstra returns: the path and its cost. */
  datatype Route = Route(path: seq<NodeId>, cost: Cost)

  /** What dijkstra promises about the route it returns from src to dst: with
      a finite cost, a simple channel path from src to dst of cost - 1 hops
      that no channel walk beats; with an infinite cost, the path [dst] and
      no channel walk from src to dst at all. */
  ghost predicate IsShortestRoute(g: ChannelMap, src: NodeId, dst: NodeId, r: Route) {
    && (r.cost.Finite? ==>
          && WalkBetween(g, r.path, src, dst)
          && Distinct(r.path)
          && r.cost.hops == |r.path| - 1
          && forall w :: WalkBetween(g, w, src, dst) ==> |r.path| <= |w|)
    && (r.cost.Infinite? ==>
          && r.path == [dst]
          && forall w :: !WalkBetween(g, w, src, dst))
  }

  /** The route from a node to itself is the node alone, at cost 0. */
  lemma ShortestRouteToSelf(g: ChannelMap, src: NodeId, r: Route)
    requires IsShortestRoute(g, src, src, r)
    ensures r == Route([src], Finite(0))
  {
    assert WalkBetween(g, [src], src, src);
  }

  // ---------------------------------------------------------------------
  // Invariants of the main loop
  // ---------------------------------------------------------------------

  /** Every marked node's distance is at most the hop count of every walk
      from src to it (so a reachable marked node has a finite distance). */
  ghost predicate Settled(g: ChannelMap, src: NodeId, unmarked: set<NodeId>, dist: map<NodeId, Cost>) {
    forall w :: IsWalk(g, w) && w[0] == src && w[|w| - 1] in g && w[|w| - 1] !in unmarked ==>
      w[|w| - 1] in dist && AtMost(dist[w[|w| - 1]], |w| - 1)
  }

  /** Every channel from a marked node to an unmarked one has been relaxed. */
  ghost predicate Relaxed(g: ChannelMap, unmarked: set<NodeId>, dist: map<NodeId, Cost>) {
    forall y, x :: HasChannel(g, y, x) && y !in unmarked && x in unmarked ==>
      y in dist && x in dist && !Below(Plus(dist[y], Finite(1)), dist[x])
  }

  /** Each predecessor is a marked node one hop nearer to src over a channel. */
  ghost predicate Chained(g: ChannelMap, unmarked: set<NodeId>, dist: map<NodeId, Cost>, prev: map<NodeId, NodeId>) {
    forall v :: v in prev ==>
      && v in dist && prev[v] in g && prev[v] !in unmarked && prev[v] in dist
      && HasChannel(g, prev[v], v)
      && dist[prev[v]].Finite?
      && dist[v] == Finite(dist[prev[v]].hops + 1)
  }

  /** The only node with a finite distance and no predecessor is src. */
  ghost predicate Rooted(src: NodeId, dist: map<NodeId, Cost>, prev: map<NodeId, NodeId>) {
    forall v :: v in dist && dist[v].Finite? && v !in prev ==> v == src
  }

  // ---------------------------------------------------------------------
  // The two loops inside the main loop
  // ---------------------------------------------------------------------

  /** min(unmarked, key=dist.__getitem__): a linear scan that keeps the first
      strictly smaller node it meets; the scan order is left open, so the
      node returned is any node of minimal distance. */
  method SelectMin(unmarked: set<NodeId>, dist: map<NodeId, Cost>) returns (u: NodeId)
    requires unmarked != {} && unmarked <= dist.Keys
    ensures u in unmarked
    ensures forall w :: w in unmarked ==> !Below(dist[w], dist[u])
  {
    u :| u in unmarked;
    var rest := unmarked - {u};
    while rest != {}
      invariant rest <= unmarked && u in unmarked
      invariant forall w :: w in unmarked && w !in rest ==> !Below(dist[w], dist[u])
      decreases |rest|
    {
      var w :| w in rest;
      rest := rest - {w};
      if Below(dist[w], dist[u]) {
        u := w;
      }
    }
  }

  /** Whether relaxing the channel u->x improves x's tentative distance. */
  predicate Improves(g: ChannelMap, u: NodeId, unmarked: set<NodeId>, dist: map<NodeId, Cost>, x: NodeId)
    requires u in dist
  {
    HasChannel(g, u, x) && x in unmarked && x in dist && Below(Plus(dist[u], EdgeCost(g, u, x)), dist[x])
  }

  /** The relaxation loop so far: every neighbour outside todo has been
      relaxed, nothing else has changed. */
  ghost predicate RelaxedBut(
    g: ChannelMap, u: NodeId, unmarked: set<NodeId>,
    dist: map<NodeId, Cost>, prev: map<NodeId, NodeId>,
    dist': map<NodeId, Cost>, prev': map<NodeId, NodeId>, todo: set<NodeId>)
    requires u in g && u in dist
  {
    && todo <= g[u].Keys * unmarked
    && dist'.Keys == dist.Keys && dist'[u] == dist[u]
    && (forall x :: x in dist ==>
          dist'[x] == if x !in todo && Improves(g, u, unmarked, dist, x) then Plus(dist[u], Finite(1)) else dist[x])
    && (forall x :: x in prev' <==> x in prev || (x !in todo && Improves(g, u, unmarked, dist, x)))
    && (forall x :: x in prev' ==>
          prev'[x] == if x !in todo && Improves(g, u, unmarked, dist, x) then u else prev[x])
  }

  /** Relaxing u->v for one v of todo. */
  lemma RelaxOne(
    g: ChannelMap, u: NodeId, unmarked: set<NodeId>,
    dist: map<NodeId, Cost>, prev: map<NodeId, NodeId>,
    dist': map<NodeId, Cost>, prev': map<NodeId, NodeId>, todo: set<NodeId>, v: NodeId)
    requires u in g && u in dist && v in todo
    requires RelaxedBut(g, u, unmarked, dist, prev, dist', prev', todo)
    ensures u in dist'
    ensures v in dist' && Below(Plus(dist'[u], EdgeCost(g, u, v)), dist'[v]) ==>
      RelaxedBut(g, u, unmarked, dist, prev, dist'[v := Plus(dist'[u], EdgeCost(g, u, v))], prev'[v := u], todo - {v})
    ensures !(v in dist' && Below(Plus(dist'[u], EdgeCost(g, u, v)), dist'[v])) ==>
      RelaxedBut(g, u, unmarked, dist, prev, dist', prev', todo - {v})
  {
    assert HasChannel(g, u, v) && v in unmarked && EdgeCost(g, u, v) == Finite(1);
    if v in dist' && Below(Plus(dist'[u], Finite(1)), dist'[v]) {
      RelaxSet(g, u, unmarked, dist, prev, dist', prev', todo, v);
    } else {
      RelaxSkip(g, u, unmarked, dist, prev, dist', prev', todo, v);
    }
  }

  /** v's distance improves: it gets dist[u] + 1 and predecessor u. */
  lemma RelaxSet(
    g: ChannelMap, u: NodeId, unmarked: set<NodeId>,
    dist: map<NodeId, Cost>, prev: map<NodeId, NodeId>,
    dist': map<NodeId, Cost>, prev': map<NodeId, NodeId>, todo: set<NodeId>, v: NodeId)
    requires u in g && u in dist && v in todo
    requires RelaxedBut(g, u, unmarked, dist, prev, dist', prev', todo)
    requires v in dist' && Below(Plus(dist'[u], Finite(1)), dist'[v])
    ensures RelaxedBut(g, u, unmarked, dist, prev, dist'[v := Plus(dist'[u], Finite(1))], prev'[v := u], todo - {v})
  {
    assert HasChannel(g, u, v) && v in unmarked && EdgeCost(g, u, v) == Finite(1);
    assert dist'[v] == dist[v] && Improves(g, u, unmarked, dist, v);
  }

  /** v's distance does not improve: nothing changes. */
  lemma RelaxSkip(
    g: ChannelMap, u: NodeId, unmarked: set<NodeId>,
    dist: map<NodeId, Cost>, prev: map<NodeId, NodeId>,
    dist': map<NodeId, Cost>, prev': map<NodeId, NodeId>, todo: set<NodeId>, v: NodeId)
    requires u in g && u in dist && v in todo
    requires RelaxedBut(g, u, unmarked, dist, prev, dist', prev', todo)
    requires !(v in dist' && Below(Plus(dist'[u], Finite(1)), dist'[v]))
    ensures RelaxedBut(g, u, unmarked, dist, prev, dist', prev', todo - {v})
  {
    assert HasChannel(g, u, v) && v in unmarked && EdgeCost(g, u, v) == Finite(1);
    assert !Improves(g, u, unmarked, dist, v);
  }

  /** Before the loop nothing has been relaxed. */
  lemma RelaxedNone(g: ChannelMap, u: NodeId, unmarked: set<NodeId>, dist: map<NodeId, Cost>, prev: map<NodeId, NodeId>)
    requires u in g && u in dist
    ensures RelaxedBut(g, u, unmarked, dist, prev, dist, prev, g[u].Keys * unmarked)
  {
  }

  /** With todo empty, the loop has done what Relax promises. */
  lemma RelaxedAll(
    g: ChannelMap, u: NodeId, unmarked: set<NodeId>,
    dist: map<NodeId, Cost>, prev: map<NodeId, NodeId>,
    dist': map<NodeId, Cost>, prev': map<NodeId, NodeId>)
    requires u in g && u in dist
    requires RelaxedBut(g, u, unmarked, dist, prev, dist', prev', {})
    ensures RelaxStep(g, u, unmarked, dist, prev, dist', prev')
  {
  }

  /** for v in neighbours & unmarked: relax u->v. Each unmarked neighbour
      whose distance improves gets distance dist[u] + 1 and predecessor u;
      nothing else changes. */
  method Relax(g: ChannelMap, u: NodeId, unmarked: set<NodeId>, dist: map<NodeId, Cost>, prev: map<NodeId, NodeId>)
    returns (dist': map<NodeId, Cost>, prev': map<NodeId, NodeId>)
    requires u in g && u in dist
    ensures RelaxStep(g, u, unmarked, dist, prev, dist', prev')
  {
    dist', prev' := dist, prev;
    var todo := g[u].Keys * unmarked;
    RelaxedNone(g, u, unmarked, dist, prev);
    while todo != {}
      invariant RelaxedBut(g, u, unmarked, dist, prev, dist', prev', todo)
      decreases |todo|
    {
      var v :| v in todo;
      RelaxOne(g, u, unmarked, dist, prev, dist', prev', todo, v);
      Shrinks(todo, v);
      todo := todo - {v};
      if v in dist' {
        var alt := Plus(dist'[u], EdgeCost(g, u, v));
        if Below(alt, dist'[v]) {
          dist' := dist'[v := alt];
          prev' := prev'[v := u];
        }
      }
    }
    RelaxedAll(g, u, unmarked, dist, prev, dist', prev');
  }

  // ---------------------------------------------------------------------
  // Why the selected node is settled
  // ---------------------------------------------------------------------

  /** On a walk from src to an unmarked node there is an unmarked node whose
      distance is at most its position on the walk: the first unmarked node
      is src itself (distance 0) or follows a marked node over a relaxed
      channel. */
  lemma {:induction false} FirstUnmarked(g: ChannelMap, src: NodeId, unmarked: set<NodeId>, dist: map<NodeId, Cost>, w: seq<NodeId>)
    returns (i: nat)
    requires unmarked <= g.Keys && src in dist && dist[src] == Finite(0)
    requires Relaxed(g, unmarked, dist) && Settled(g, src, unmarked, dist)
    requires IsWalk(g, w) && w[0] == src && w[|w| - 1] in unmarked
    ensures i < |w| && w[i] in unmarked && w[i] in dist && AtMost(dist[w[i]], i)
    decreases |w|
  {
    if |w| == 1 {
      i := 0;
    } else {
      var n := |w|;
      var pre := w[..n - 1];
      assert IsWalk(g, pre) by {
        forall j | 0 <= j < |pre| - 1 ensures HasChannel(g, pre[j], pre[j + 1]) {
          assert pre[j] == w[j] && pre[j + 1] == w[j + 1];
        }
      }
      assert HasChannel(g, w[n - 2], w[n - 1]);
      if w[n - 2] in unmarked {
        i := FirstUnmarked(g, src, unmarked, dist, pre);
      } else {
        assert pre[|pre| - 1] == w[n - 2];
        assert AtMost(dist[w[n - 2]], n - 2);
        i := n - 1;
      }
    }
  }

  /** Removing a node of minimal distance from the unmarked set keeps every
      marked node settled. */
  lemma SelectedIsSettled(g: ChannelMap, src: NodeId, unmarked: set<NodeId>, dist: map<NodeId, Cost>, u: NodeId)
    requires unmarked <= g.Keys && src in dist && dist[src] == Finite(0) && unmarked <= dist.Keys
    requires Relaxed(g, unmarked, dist) && Settled(g, src, unmarked, dist)
    requires u in unmarked && forall x :: x in unmarked ==> !Below(dist[x], dist[u])
    ensures Settled(g, src, unmarked - {u}, dist)
  {
    forall w | IsWalk(g, w) && w[0] == src && w[|w| - 1] in g && w[|w| - 1] !in unmarked - {u}
      ensures w[|w| - 1] in dist && AtMost(dist[w[|w| - 1]], |w| - 1)
    {
      if w[|w| - 1] == u {
        var i := FirstUnmarked(g, src, unmarked, dist, w);
        assert !Below(dist[w[i]], dist[u]);
      }
    }
  }

  /** The state change Relax promises, as one predicate for the lemmas below. */
  ghost predicate RelaxStep(
    g: ChannelMap, u: NodeId, unmarked: set<NodeId>,
    dist: map<NodeId, Cost>, prev: map<NodeId, NodeId>,
    dist': map<NodeId, Cost>, prev': map<NodeId, NodeId>)
    requires u in dist
  {
    && dist'.Keys == dist.Keys
    && (forall x :: x in dist ==>
          dist'[x] == if Improves(g, u, unmarked, dist, x) then Plus(dist[u], Finite(1)) else dist[x])
    && (forall x :: x in prev' <==> x in prev || Improves(g, u, unmarked, dist, x))
    && (forall x :: x in prev' ==>
          prev'[x] == if Improves(g, u, unmarked, dist, x) then u else prev[x])
  }

  /** Relaxing the selected node's channels re-establishes that every channel
      from a marked node to an unmarked one is relaxed. */
  lemma RelaxKeepsRelaxed(
    g: ChannelMap, unmarked: set<NodeId>, u: NodeId,
    dist: map<NodeId, Cost>, prev: map<NodeId, NodeId>,
    dist': map<NodeId, Cost>, prev': map<NodeId, NodeId>)
    requires u in g && u in dist && u !in unmarked && unmarked <= dist.Keys
    requires Relaxed(g, unmarked + {u}, dist)
    requires RelaxStep(g, u, unmarked, dist, prev, dist', prev')
    ensures Relaxed(g, unmarked, dist')
  {
    forall y, x | HasChannel(g, y, x) && y !in unmarked && x in unmarked
      ensures y in dist' && x in dist' && !Below(Plus(dist'[y], Finite(1)), dist'[x])
    {
      if y != u {
        assert y !in unmarked + {u};
        assert !Below(Plus(dist[y], Finite(1)), dist[x]);
      }
    }
  }

  /** Relaxation adds no key, keeps src at distance 0 and sets predecessors
      only of unmarked nodes. */
  lemma RelaxKeepsKeys(
    g: ChannelMap, src: NodeId, unmarked: set<NodeId>, u: NodeId,
    dist: map<NodeId, Cost>, prev: map<NodeId, NodeId>,
    dist': map<NodeId, Cost>, prev': map<NodeId, NodeId>)
    requires u in dist && src in dist && dist[src] == Finite(0)
    requires prev.Keys <= g.Keys && unmarked <= g.Keys
    requires RelaxStep(g, u, unmarked, dist, prev, dist', prev')
    ensures dist'.Keys == dist.Keys && dist'[src] == Finite(0) && prev'.Keys <= g.Keys
  {
    assert !Improves(g, u, unmarked, dist, src);
  }

  /** Relaxation changes no marked node's distance, so marked nodes stay
      settled. */
  lemma RelaxKeepsSettled(
    g: ChannelMap, src: NodeId, unmarked: set<NodeId>, u: NodeId,
    dist: map<NodeId, Cost>, prev: map<NodeId, NodeId>,
    dist': map<NodeId, Cost>, prev': map<NodeId, NodeId>)
    requires u in dist
    requires Settled(g, src, unmarked, dist)
    requires RelaxStep(g, u, unmarked, dist, prev, dist', prev')
    ensures Settled(g, src, unmarked, dist')
  {
  }

  /** A node that gets a new predecessor gets it from the just-marked node at
      one hop further; every other predecessor link is untouched. */
  lemma RelaxKeepsChained(
    g: ChannelMap, src: NodeId, unmarked: set<NodeId>, u: NodeId,
    dist: map<NodeId, Cost>, prev: map<NodeId, NodeId>,
    dist': map<NodeId, Cost>, prev': map<NodeId, NodeId>)
    requires u in g && u in dist && u !in unmarked
    requires Chained(g, unmarked, dist, prev) && Rooted(src, dist, prev)
    requires RelaxStep(g, u, unmarked, dist, prev, dist', prev')
    ensures Chained(g, unmarked, dist', prev') && Rooted(src, dist', prev')
  {
    assert !Improves(g, u, unmarked, dist, u);
    forall v | v in prev'
      ensures v in dist' && prev'[v] in g && prev'[v] !in unmarked && prev'[v] in dist'
      ensures HasChannel(g, prev'[v], v) && dist'[prev'[v]].Finite?
      ensures dist'[v] == Finite(dist'[prev'[v]].hops + 1)
    {
      if !Improves(g, u, unmarked, dist, v) {
        assert !Improves(g, u, unmarked, dist, prev[v]);
      }
    }
  }

  /** Along the path, each node's distance is one less than the next one's,
      ending at distance top. */
  ghost predicate Descending(dist: map<NodeId, Cost>, path: seq<NodeId>, top: nat) {
    forall i :: 0 <= i < |path| ==>
      path[i] in dist && dist[path[i]].Finite? && dist[path[i]].hops + (|path| - 1 - i) == top
  }

  /** Nodes at different distances are different nodes. */
  lemma DescendingIsDistinct(dist: map<NodeId, Cost>, path: seq<NodeId>, top: nat)
    requires Descending(dist, path, top)
    ensures Distinct(path)
  {
    forall i, j | 0 <= i < j < |path| ensures path[i] != path[j] {
      assert dist[path[i]].hops != dist[path[j]].hops;
    }
  }

  /** What walking back from dst has built so far: a channel walk ending at
      dst whose distances fall by one per hop towards dst. */
  ghost predicate BackFrom(g: ChannelMap, dist: map<NodeId, Cost>, path: seq<NodeId>, dst: NodeId) {
    && |path| >= 1 && path[|path| - 1] == dst
    && IsWalk(g, path)
    && (|path| > 1 ==> dst in dist && dist[dst].Finite?)
    && (dst in dist && dist[dst].Finite? ==> Descending(dist, path, dist[dst].hops))
  }

  /** One step back over the predecessor of the first node. */
  lemma StepBack(g: ChannelMap, unmarked: set<NodeId>, dist: map<NodeId, Cost>, prev: map<NodeId, NodeId>, path: seq<NodeId>, dst: NodeId)
    requires Chained(g, unmarked, dist, prev) && BackFrom(g, dist, path, dst) && path[0] in prev
    ensures BackFrom(g, dist, [prev[path[0]]] + path, dst)
  {
    var p := prev[path[0]];
    var w := [p] + path;
    assert |w| == |path| + 1;
    assert forall i :: 1 <= i < |w| ==> w[i] == path[i - 1];
    assert HasChannel(g, p, path[0]);
  }

  /** Walking back over the predecessors from dst: the path ends at dst, is a
      channel walk, and when dst has a finite distance it starts at src, has
      distance + 1 nodes and repeats none. */
  method WalkBack(g: ChannelMap, src: NodeId, unmarked: set<NodeId>, dist: map<NodeId, Cost>, prev: map<NodeId, NodeId>, dst: NodeId)
    returns (path: seq<NodeId>)
    requires Chained(g, unmarked, dist, prev) && Rooted(src, dist, prev)
    requires src in dist && dist[src] == Finite(0)
    ensures IsWalk(g, path) && path[|path| - 1] == dst
    ensures dst in dist && dist[dst].Finite? ==>
      path[0] == src && dist[dst].hops == |path| - 1 && Distinct(path)
    ensures !(dst in dist && dist[dst].Finite?) ==> path == [dst]
  {
    path := [dst];
    var pred := dst;
    while pred in prev
      invariant BackFrom(g, dist, path, dst) && path[0] == pred
      decreases if pred in prev then dist[pred].hops + 1 else 0
    {
      StepBack(g, unmarked, dist, prev, path, dst);
      var p := prev[pred];
      path := [p] + path;
      pred := p;
    }
    if dst in dist && dist[dst].Finite? {
      assert pred == src;
      DescendingIsDistinct(dist, path, dist[dst].hops);
    }
  }

  /** The invariant of the main loop of dijkstra. */
  ghost predicate Frontier(g: ChannelMap, src: NodeId, unmarked: set<NodeId>, dist: map<NodeId, Cost>, prev: map<NodeId, NodeId>) {
    && unmarked <= g.Keys
    && dist.Keys == g.Keys + {src} && dist[src] == Finite(0) && prev.Keys <= g.Keys
    && Relaxed(g, unmarked, dist) && Settled(g, src, unmarked, dist)
    && Chained(g, unmarked, dist, prev) && Rooted(src, dist, prev)
  }

  /** One round of the main loop after the minimum u has been marked: relax
      its channels, keeping every loop invariant. */
  method RelaxMarked(g: ChannelMap, src: NodeId, before: set<NodeId>, u: NodeId, dist: map<NodeId, Cost>, prev: map<NodeId, NodeId>)
    returns (dist': map<NodeId, Cost>, prev': map<NodeId, NodeId>)
    requires u in before && Frontier(g, src, before, dist, prev) && Settled(g, src, before - {u}, dist)
    ensures Frontier(g, src, before - {u}, dist', prev')
  {
    var unmarked := before - {u};
    assert unmarked + {u} == before;
    dist', prev' := Relax(g, u, unmarked, dist, prev);
    RelaxKeepsKeys(g, src, unmarked, u, dist, prev, dist', prev');
    RelaxKeepsRelaxed(g, unmarked, u, dist, prev, dist', prev');
    RelaxKeepsSettled(g, src, unmarked, u, dist, prev, dist', prev');
    RelaxKeepsChained(g, src, unmarked, u, dist, prev, dist', prev');
  }

  // ---------------------------------------------------------------------
  // dijkstra
  // ---------------------------------------------------------------------

  /** dijkstra(src, dst) over a snapshot of the channel map. Raises KeyError
      (dist[dst]) when dst is neither a node nor src; otherwise returns a
      shortest route, or ([dst], infinity) when dst cannot be reached. */
  method ShortestPath(g: ChannelMap, src: NodeId, dst: NodeId) returns (r: Result<Route>)
    ensures r.Err? <==> dst !in g && dst != src
    ensures r.Err? ==> r.error == MissingKey
    ensures r.Ok? ==> IsShortestRoute(g, src, dst, r.value)
  {
    var unmarked, dist, prev := Explore(g, src, dst);
    var path := WalkBack(g, src, unmarked, dist, prev, dst);
    if dst !in dist {
      return Err(MissingKey);
    }
    r := Ok(Route(path, dist[dst]));
    RouteIsShortest(g, src, dst, unmarked, dist, path);
  }

  /** The main loop of dijkstra: mark nodes in order of distance until dst is
      marked or no node is left. On exit dst, if it is a node, is marked,
      every marked node is settled and the predecessors form chains back to
      src. */
  method Explore(g: ChannelMap, src: NodeId, dst: NodeId)
    returns (unmarked: set<NodeId>, dist: map<NodeId, Cost>, prev: map<NodeId, NodeId>)
    ensures dist.Keys == g.Keys + {src} && dist[src] == Finite(0) && prev.Keys <= g.Keys
    ensures Settled(g, src, unmarked, dist) && (dst in g ==> dst !in unmarked)
    ensures Chained(g, unmarked, dist, prev) && Rooted(src, dist, prev)
  {
    dist := map n | n in g.Keys :: Infinite;
    prev := map[];
    dist := dist[src := Finite(0)];
    unmarked := g.Keys;
    while unmarked != {}
      invariant Frontier(g, src, unmarked, dist, prev)
      decreases |unmarked|
    {
      var u := SelectMin(unmarked, dist);
      SelectedIsSettled(g, src, unmarked, dist, u);
      var before := unmarked;
      unmarked := unmarked - {u};
      Shrinks(before, u);
      if u == dst {
        ChainedShrinks(g, before, unmarked, dist, prev);
        break;
      }
      dist, prev := RelaxMarked(g, src, before, u, dist, prev);
    }
  }

  lemma Shrinks(s: set<NodeId>, x: NodeId)
    requires x in s
    ensures |s - {x}| < |s|
  {
  }

  /** Marking more nodes keeps predecessor chains (their links are marked). */
  lemma ChainedShrinks(g: ChannelMap, before: set<NodeId>, unmarked: set<NodeId>, dist: map<NodeId, Cost>, prev: map<NodeId, NodeId>)
    requires unmarked <= before && Chained(g, before, dist, prev)
    ensures Chained(g, unmarked, dist, prev)
  {
  }

  /** Once dst is marked (or is src outside the graph), the walked-back path
      with dst's distance is a shortest route. */
  lemma RouteIsShortest(g: ChannelMap, src: NodeId, dst: NodeId, unmarked: set<NodeId>, dist: map<NodeId, Cost>, path: seq<NodeId>)
    requires dist.Keys == g.Keys + {src} && dist[src] == Finite(0) && dst in dist
    requires Settled(g, src, unmarked, dist) && (dst in g ==> dst !in unmarked)
    requires IsWalk(g, path) && path[|path| - 1] == dst
    requires dist[dst].Finite? ==> path[0] == src && dist[dst].hops == |path| - 1 && Distinct(path)
    requires !dist[dst].Finite? ==> path == [dst]
    ensures IsShortestRoute(g, src, dst, Route(path, dist[dst]))
  {
    if dst !in g {
      assert dst == src;
    }
  }
}
