/// main.py: the channel graph as a plain dictionary passed to free
/// functions that update it in place. Its send raises instead of returning
/// a record, and its reset is keyed on the fixed node names "abcdefgh".
module DictGraph {
  import opened Errors
  import opened Channels
  import opened Router
  import opened Payments

  /** NODES */
  const NodeNames: string := "abcdefgh"

  /** The one-character names spelled by NODES. */
  function NodeSet(): (ns: set<NodeId>)
    ensures forall c :: c in NodeNames ==> [c] in ns
    ensures forall n :: n in ns ==> |n| == 1 && n[0] in NodeNames
  {
    set c | c in NodeNames :: [c]
  }

  /** The dictionary the functions receive and update. */
  class Dict {
    var graph: ChannelMap

    constructor(g: ChannelMap)
      ensures graph == g
    {
      graph := g;
    }
  }

  /** create(nodes): a new dictionary mapping every node to no channel. */
  method Create(nodes: seq<NodeId>) returns (d: Dict)
    ensures fresh(d)
    ensures d.graph.Keys == set n | n in nodes
    ensures forall u, v :: !HasChannel(d.graph, u, v)
    ensures Valid(d.graph)
  {
    d := new Dict(Empty(set n | n in nodes));
  }

  /** reset(graph): graph |= {node: {} for node in NODES}. The eight names
      lose their channels; any other key keeps its own, so the invariant
      survives when every key is one of the eight (ResetOverPartial shows a
      map where it does not). */
  method Reset(d: Dict)
    modifies d
    ensures d.graph == ResetOver(old(d.graph), NodeSet())
    ensures d.graph.Keys == old(d.graph).Keys + NodeSet()
    ensures old(d.graph).Keys <= NodeSet() ==>
      && Valid(d.graph)
      && (forall u, v :: !HasChannel(d.graph, u, v))
      && forall n :: n in d.graph ==> Sum(d.graph[n]) == 0
  {
    d.graph := ResetOver(d.graph, NodeSet());
    if old(d.graph).Keys <= NodeSet() {
      ResetOverValid(old(d.graph), NodeSet());
    }
  }

  /** open_channel(graph, u, v, x=1, y=1) */
  method OpenChannel(d: Dict, u: NodeId, v: NodeId, x: int := 1, y: int := 1) returns (r: Outcome)
    modifies d
    ensures r == OpenCheck(old(d.graph), old(d.graph).Keys, u, v, x, y)
    ensures r.Pass? ==> d.graph == Opened(old(d.graph), u, v, x, y)
    ensures r.Fail? ==> d.graph == old(d.graph)
    ensures old(Valid(d.graph)) ==> Valid(d.graph)
  {
    if u !in d.graph || v !in d.graph {
      return Fail(UnknownNode);
    }
    if u == v {
      return Fail(SelfChannel);
    }
    if x < 0 || y < 0 {
      return Fail(NegativeAmount);
    }
    if v in d.graph[u] {
      return Fail(ChannelExists);
    }
    d.graph := d.graph[u := d.graph[u][v := x]];
    d.graph := d.graph[v := d.graph[v][u := y]];
    if old(Valid(d.graph)) {
      OpenedValid(old(d.graph), u, v, x, y);
    }
    return Pass;
  }

  /** close_channel(graph, u, v) */
  method CloseChannel(d: Dict, u: NodeId, v: NodeId) returns (r: Outcome)
    requires Valid(d.graph)
    modifies d
    ensures r == CloseCheck(old(d.graph), u, v)
    ensures r.Pass? ==> d.graph == Closed(old(d.graph), u, v)
    ensures r.Fail? ==> d.graph == old(d.graph)
    ensures Valid(d.graph)
  {
    if u !in d.graph || v !in d.graph {
      return Fail(UnknownNode);
    }
    if v !in d.graph[u] {
      return Fail(ChannelNotOpen);
    }
    d.graph := d.graph[u := d.graph[u] - {v}];
    d.graph := d.graph[v := d.graph[v] - {u}];
    ClosedValid(old(d.graph), u, v);
    return Pass;
  }

  /** transfer(graph, u, v, amount) */
  method Transfer(d: Dict, u: NodeId, v: NodeId, amount: int) returns (r: Outcome)
    requires Valid(d.graph)
    modifies d
    ensures r == TransferCheck(old(d.graph), u, v, amount)
    ensures r.Pass? ==> HasChannel(old(d.graph), v, u) && u != v
    ensures r.Pass? ==> d.graph == Moved(old(d.graph), u, v, amount)
    ensures r.Fail? ==> d.graph == old(d.graph)
    ensures Valid(d.graph)
  {
    if u !in d.graph || v !in d.graph {
      return Fail(UnknownNode);
    }
    if amount < 0 {
      return Fail(NegativeAmount);
    }
    if v !in d.graph[u] {
      return Fail(ChannelNotOpen);
    }
    if amount > d.graph[u][v] {
      return Fail(InsufficientFunds);
    }
    MovedValid(d.graph, u, v, amount);
    var before := d.graph;
    var debited := before[u := before[u][v := before[u][v] - amount]];
    d.graph := debited[v := debited[v][u := debited[v][u] + amount]];
    return Pass;
  }

  /** dijkstra(graph, src, dst) */
  method Dijkstra(d: Dict, src: NodeId, dst: NodeId) returns (r: Result<Route>)
    ensures r.Err? <==> dst !in d.graph && dst != src
    ensures r.Err? ==> r.error == MissingKey
    ensures r.Ok? ==> IsShortestRoute(d.graph, src, dst, r.value)
  {
    r := ShortestPath(d.graph, src, dst);
  }

  /** for u, v in pairwise(path): transfer(graph, u, v, amount), where
      states lists the maps the loop passes through (see Payments.Hops):
      either every hop moves the amount, or the amount is negative and the
      first transfer rejects it. */
  method TransferAlong(d: Dict, path: seq<NodeId>, amount: int, ghost states: seq<ChannelMap>) returns (r: Outcome)
    requires Hops(states, path, amount) && d.graph == states[0]
    modifies d
    ensures Valid(d.graph)
    ensures r.Fail? ==> r.error == NegativeAmount && amount < 0 && |path| >= 2 && d.graph == old(d.graph)
    ensures r.Pass? ==> d.graph == states[|path| - 1]
    ensures r.Pass? && amount < 0 ==> |path| == 1
  {
    var i := 0;
    while i < |path| - 1
      invariant 0 <= i <= |path| - 1
      invariant d.graph == states[i]
      invariant amount < 0 ==> i == 0
      decreases |path| - 1 - i
    {
      assert HopAt(states, path, amount, i);
      var o := Transfer(d, path[i], path[i + 1], amount);
      if o.Fail? {
        assert amount < 0 && i == 0;
        return o;
      }
      assert d.graph == states[i + 1];
      i := i + 1;
    }
    return Pass;
  }

  /** p is a shortest route from src to dst with a hop short of the amount. */
  ghost predicate ShortRoute(g: ChannelMap, src: NodeId, dst: NodeId, amount: int, p: seq<NodeId>) {
    && |p| >= 1
    && IsShortestRoute(g, src, dst, Route(p, Finite(|p| - 1)))
    && IsWalk(g, p)
    && !Liquid(g, p, amount)
  }

  /** h is g after the amount moved along p, a shortest route from src to
      dst on which every hop had the amount. */
  ghost predicate PaidAlong(g: ChannelMap, h: ChannelMap, src: NodeId, dst: NodeId, amount: int, p: seq<NodeId>) {
    && |p| >= 1
    && IsShortestRoute(g, src, dst, Route(p, Finite(|p| - 1)))
    && IsWalk(g, p)
    && Liquid(g, p, amount)
    && (amount >= 0 || p == [src])
    && h == SendAlong(g, p, amount)
  }

  /** send(graph, src, dst, amount=1): raises ValueError when dst cannot be
      reached and Exception when a hop is short, in both cases before any
      change; otherwise transfers the amount along a shortest route, where
      the first transfer rejects a negative amount. */
  method Send(d: Dict, src: NodeId, dst: NodeId, amount: int := 1) returns (r: Outcome)
    requires Valid(d.graph)
    modifies d
    ensures Valid(d.graph)
    ensures r == Fail(MissingKey) <==> dst !in old(d.graph) && dst != src
    ensures r == Fail(NoRoute) <==> dst in old(d.graph) && forall w :: !WalkBetween(old(d.graph), w, src, dst)
    ensures r.Fail? ==> d.graph == old(d.graph)
    ensures r.Fail? ==> r.error in {MissingKey, NoRoute, InsufficientFunds, NegativeAmount}
    ensures r == Fail(NegativeAmount) ==> amount < 0
    ensures r == Fail(InsufficientFunds) ==> exists p :: ShortRoute(old(d.graph), src, dst, amount, p)
    ensures r == Pass ==> exists p :: PaidAlong(old(d.graph), d.graph, src, dst, amount, p)
  {
    ghost var g0 := d.graph;
    var found := ShortestPath(d.graph, src, dst);
    if found.Err? {
      return Fail(found.error);
    }
    var path := found.value.path;
    if found.value.cost.Infinite? {
      assert src == dst ==> WalkBetween(g0, [src], src, dst);
      return Fail(NoRoute);
    }
    assert WalkBetween(g0, path, src, dst);
    var short := AnyShort(d.graph, path, amount);
    if short {
      assert ShortRoute(g0, src, dst, amount, path);
      return Fail(InsufficientFunds);
    }
    TraceHops(g0, path, amount);
    r := TransferAlong(d, path, amount, Trace(g0, path, amount));
    if r.Pass? {
      assert PaidAlong(g0, d.graph, src, dst, amount, path);
    }
  }

  // ---------------------------------------------------------------------
  // The chain a - b - c - d
  // ---------------------------------------------------------------------

  /** The eight nodes with channels a-b, b-c and c-d of balance 1 each way. */
  function Chain(): (g: ChannelMap)
    ensures Valid(g)
  {
    map["a" := map["b" := 1], "b" := map["a" := 1, "c" := 1], "c" := map["b" := 1, "d" := 1],
        "d" := map["c" := 1], "e" := map[], "f" := map[], "g" := map[], "h" := map[]]
  }

  /** The channels of the chain. */
  lemma ChainLinks()
    ensures HasChannel(Chain(), "a", "b") && HasChannel(Chain(), "b", "c") && HasChannel(Chain(), "c", "d")
  {
    var g := Chain();
    assert g["a"] == map["b" := 1];
    assert g["b"] == map["a" := 1, "c" := 1];
    assert g["c"] == map["b" := 1, "d" := 1];
  }

  /** The neighbours of a, b and c on the chain. */
  lemma ChainNeighbours(x: NodeId)
    ensures HasChannel(Chain(), "a", x) ==> x == "b"
    ensures HasChannel(Chain(), "b", x) ==> x == "a" || x == "c"
    ensures HasChannel(Chain(), "c", x) ==> x == "b" || x == "d"
  {
    var g := Chain();
    assert g["a"] == map["b" := 1];
    assert g["b"] == map["a" := 1, "c" := 1];
    assert g["c"] == map["b" := 1, "d" := 1];
  }

  /** On any graph where a - b - c - d is the only way on from a, b and c,
      every route dijkstra may return from a to d is that chain at cost 3. */
  lemma ChainOfFour(g: ChannelMap, a: NodeId, b: NodeId, c: NodeId, d: NodeId, r: Route)
    requires a != d && b != d && c != d
    requires HasChannel(g, a, b) && HasChannel(g, b, c) && HasChannel(g, c, d)
    requires forall x :: HasChannel(g, a, x) ==> x == b
    requires forall x :: HasChannel(g, b, x) ==> x == a || x == c
    requires forall x :: HasChannel(g, c, x) ==> x == b || x == d
    requires IsShortestRoute(g, a, d, r)
    ensures r == Route([a, b, c, d], Finite(3))
  {
    var w: seq<NodeId> := [a, b, c, d];
    assert WalkBetween(g, w, a, d);
    var p := r.path;
    assert |p| <= 4 && p[0] == a && p[|p| - 1] == d;
    assert HasChannel(g, p[0], p[1]);
    assert HasChannel(g, p[1], p[2]);
    assert p[2] != p[0];
    assert HasChannel(g, p[2], p[3]);
    assert p[3] != p[1];
    assert p == w;
  }

  /** On the chain, every route dijkstra may return from a to d is the whole
      chain at cost 3. */
  lemma ChainRoute(r: Route)
    requires IsShortestRoute(Chain(), "a", "d", r)
    ensures r == Route(["a", "b", "c", "d"], Finite(3))
  {
    forall x | true
      ensures HasChannel(Chain(), "a", x) ==> x == "b"
      ensures HasChannel(Chain(), "b", x) ==> x == "a" || x == "c"
      ensures HasChannel(Chain(), "c", x) ==> x == "b" || x == "d"
    {
      ChainNeighbours(x);
    }
    ChainLinks();
    assert "a" != "d" && "b" != "d" && "c" != "d";
    ChainOfFour(Chain(), "a", "b", "c", "d", r);
  }
}
