/// graph.py: the variant of the channel graph that keeps its own set of node
/// names beside the nested map. open_channel, get_node and the Node facade
/// look names up in that set; close_channel, transfer and get_balance look
/// them up among the keys of the map.
module DecimalGraph {
  import opened Errors
  import opened Channels
  import opened Router
  import opened Payments
  import opened Names
  import SrcUtils

  const MinTransactionValue: int := 5
  const MaxTransactionValue: int := 250
  const DefaultTransactionValue: int := MinTransactionValue
  const DefaultChannelCapacity: int := MaxTransactionValue * 2
  const DefaultChannelBalance: int := MaxTransactionValue

  /** The checks of open_channel as they should be: the four checks of the
      other variants, with the node-existence check made against the node
      set, and then both names looked up among the keys (KeyError) before
      anything is written. */
  function OpenCheckKeyed(g: ChannelMap, nodeset: set<NodeId>, u: NodeId, v: NodeId, x: int, y: int): (r: Outcome)
    ensures r.Pass? ==> u in g && v in g && u != v
    ensures r == Pass <==> OpenCheck(g, nodeset, u, v, x, y) == Pass && u in g && v in g
  {
    if u !in nodeset || v !in nodeset then Fail(UnknownNode)
    else if u == v then Fail(SelfChannel)
    else if x < 0 || y < 0 then Fail(NegativeAmount)
    else if u !in g || v !in g then Fail(MissingKey)
    else if HasChannel(g, u, v) then Fail(ChannelExists)
    else Pass
  }

  /** open_channel as written: after the node-set checks, self[u].get(v)
      raises KeyError when u is no key; otherwise u->v is written, and only
      then does self[v][u] raise KeyError when v is no key, leaving u->v in
      place. Returns the map the call leaves behind and its outcome. */
  function OpenAsWritten(g: ChannelMap, nodeset: set<NodeId>, u: NodeId, v: NodeId, x: int, y: int): (res: (ChannelMap, Outcome))
    ensures res.1 == Pass <==> OpenCheckKeyed(g, nodeset, u, v, x, y) == Pass
    ensures res.1 == Pass ==> u in g && v in g && u != v && res.0 == Opened(g, u, v, x, y)
    ensures res.1 != Pass && res.0 != g ==> res.1 == Fail(MissingKey) && u in g && v !in g
  {
    if u !in nodeset || v !in nodeset then (g, Fail(UnknownNode))
    else if u == v then (g, Fail(SelfChannel))
    else if x < 0 || y < 0 then (g, Fail(NegativeAmount))
    else if u !in g then (g, Fail(MissingKey))
    else if v in g[u] then (g, Fail(ChannelExists))
    else
      var g1 := g[u := g[u][v := x]];
      if v !in g1 then (g1, Fail(MissingKey))
      else (g1[v := g1[v][u := y]], Pass)
  }

  /** Where the written code and the corrected checks differ: a name of the
      node set that is not a key, on the v side, fails only after u->v has
      been written. A node set {a, b} over the keys {a} (the nodes setter
      allows it) turns a valid map into an asymmetric one. */
  lemma OpenAsWrittenHalfOpens()
    ensures var g: ChannelMap := map["a" := map[]];
      var res := OpenAsWritten(g, {"a", "b"}, "a", "b", 250, 250);
      && Channels.Valid(g)
      && res.1 == Fail(MissingKey)
      && res.0 != g
      && !Symmetric(res.0)
  {
    var g: ChannelMap := map["a" := map[]];
    var res := OpenAsWritten(g, {"a", "b"}, "a", "b", 250, 250);
    assert res.0 == map["a" := map["b" := 250]];
    assert HasChannel(res.0, "a", "b") && !HasChannel(res.0, "b", "a");
  }

  /** Whenever the names are keys, the written code does what the corrected
      method does: the same outcome, and the map opened or untouched. */
  lemma OpenAsWrittenAgrees(g: ChannelMap, nodeset: set<NodeId>, u: NodeId, v: NodeId, x: int, y: int)
    requires u in g && v in g
    ensures var res := OpenAsWritten(g, nodeset, u, v, x, y);
      && res.1 == OpenCheckKeyed(g, nodeset, u, v, x, y)
      && (res.1 == Pass ==> res.0 == Opened(g, u, v, x, y))
      && (res.1 != Pass ==> res.0 == g)
  {
  }

  class Graph {
    /** node -> (peer -> outbound balance) */
    var graph: ChannelMap
    /** The names the nodes property reports and assigns. */
    var nodeset: set<NodeId>

    /** Channels come in symmetric pairs between distinct nodes, with
        non-negative balances. */
    ghost predicate Valid()
      reads this
    {
      Channels.Valid(graph)
    }

    /** Graph(nodes): the names become the node set and the keys, with no
        channel yet. */
    constructor(nodes: seq<NodeId>)
      ensures nodeset == set n | n in nodes
      ensures graph.Keys == nodeset
      ensures forall u, v :: !HasChannel(graph, u, v)
      ensures Valid()
    {
      nodeset := set n | n in nodes;
      graph := Empty(set n | n in nodes);
    }

    /** The nodes setter: replaces the node set and leaves the map alone. */
    method SetNodes(nodes: seq<NodeId>)
      modifies this
      ensures nodeset == set n | n in nodes
      ensures graph == old(graph)
    {
      nodeset := set n | n in nodes;
    }

    /** nodes: the node set, sorted. */
    method Nodes() returns (ns: seq<NodeId>)
      ensures Ascending(ns)
      ensures forall x :: x in ns <==> x in nodeset
    {
      ns := Sorted(nodeset);
    }

    /** reset: every name of the node set maps to no channel (becoming a key
        if it was not one); other keys keep their channels, so the invariant
        survives when every key is in the node set. */
    method Reset()
      modifies this
      ensures nodeset == old(nodeset)
      ensures graph == ResetOver(old(graph), nodeset)
      ensures graph.Keys == old(graph).Keys + nodeset
      ensures old(graph).Keys <= nodeset ==>
        && Valid()
        && (forall u, v :: !HasChannel(graph, u, v))
        && forall n :: n in graph ==> Sum(graph[n]) == 0
    {
      var ns := Nodes();
      graph := ResetOver(graph, set n | n in ns);
      if old(graph).Keys <= nodeset {
        ResetOverValid(old(graph), nodeset);
      }
    }

    /** open_channel(u, v, x, y) with the node-set check, and both names
        looked up among the keys before anything is written (see
        OpenAsWritten for the code that writes u->v first). */
    method OpenChannel(u: NodeId, v: NodeId, x: int := DefaultChannelBalance, y: int := DefaultChannelBalance)
      returns (r: Outcome)
      modifies this
      ensures nodeset == old(nodeset)
      ensures r == OpenCheckKeyed(old(graph), nodeset, u, v, x, y)
      ensures r.Pass? ==> graph == Opened(old(graph), u, v, x, y)
      ensures r.Fail? ==> graph == old(graph)
      ensures old(Valid()) ==> Valid()
    {
      if u !in nodeset || v !in nodeset {
        return Fail(UnknownNode);
      }
      if u == v {
        return Fail(SelfChannel);
      }
      if x < 0 || y < 0 {
        return Fail(NegativeAmount);
      }
      if u !in graph || v !in graph {
        return Fail(MissingKey);
      }
      if v in graph[u] {
        return Fail(ChannelExists);
      }
      graph := graph[u := graph[u][v := x]];
      graph := graph[v := graph[v][u := y]];
      if old(Valid()) {
        OpenedValid(old(graph), u, v, x, y);
      }
      return Pass;
    }

    /** close_channel(u, v): after the two checks, both directed entries are
        deleted. */
    method CloseChannel(u: NodeId, v: NodeId) returns (r: Outcome)
      requires Valid()
      modifies this
      ensures r == CloseCheck(old(graph), u, v)
      ensures r.Pass? ==> graph == Closed(old(graph), u, v)
      ensures r.Fail? ==> graph == old(graph)
      ensures Valid()
    {
      if u !in graph || v !in graph {
        return Fail(UnknownNode);
      }
      if v !in graph[u] {
        return Fail(ChannelNotOpen);
      }
      graph := graph[u := graph[u] - {v}];
      graph := graph[v := graph[v] - {u}];
      ClosedValid(old(graph), u, v);
      return Pass;
    }

    /** transfer(u, v, amount): after the four checks, the amount moves from
        u->v to v->u. */
    method Transfer(u: NodeId, v: NodeId, amount: int) returns (r: Outcome)
      requires Valid()
      modifies this
      ensures r == TransferCheck(old(graph), u, v, amount)
      ensures r.Pass? ==> HasChannel(old(graph), v, u) && u != v
      ensures r.Pass? ==> graph == Moved(old(graph), u, v, amount)
      ensures r.Fail? ==> graph == old(graph)
      ensures Valid()
    {
      if u !in graph || v !in graph {
        return Fail(UnknownNode);
      }
      if amount < 0 {
        return Fail(NegativeAmount);
      }
      if v !in graph[u] {
        return Fail(ChannelNotOpen);
      }
      if amount > graph[u][v] {
        return Fail(InsufficientFunds);
      }
      MovedValid(graph, u, v, amount);
      var before := graph;
      var debited := before[u := before[u][v := before[u][v] - amount]];
      graph := debited[v := debited[v][u := debited[v][u] + amount]];
      return Pass;
    }

    /** dijkstra(src, dst) on the current channels. */
    method Dijkstra(src: NodeId, dst: NodeId) returns (r: Result<Route>)
      ensures r.Err? <==> dst !in graph && dst != src
      ensures r.Err? ==> r.error == MissingKey
      ensures r.Ok? ==> IsShortestRoute(graph, src, dst, r.value)
    {
      r := ShortestPath(graph, src, dst);
    }

    /** send(src, dst, amount): route, look ahead at every hop, then
        transfer hop by hop. An unreachable destination or a short hop
        leaves the graph as it was; so does a negative amount, which the
        first transfer rejects. Otherwise every hop moves the amount. */
    method Send(src: NodeId, dst: NodeId, amount: int := DefaultTransactionValue) returns (r: Result<SrcUtils.TxData>)
      requires Valid()
      modifies this
      ensures Valid()
      ensures r == Err(MissingKey) <==> dst !in old(graph) && dst != src
      ensures r.Err? ==> graph == old(graph)
      ensures r.Err? && r.error != MissingKey ==> r.error == NegativeAmount && amount < 0
      ensures r.Ok? ==> r.value.sender == src && r.value.receiver == dst
      ensures r.Ok? && r.value.status == SrcUtils.Unreachable ==>
        && IsShortestRoute(old(graph), src, dst, Route(r.value.path, Infinite))
        && r.value.amount == 0 && r.value.hops == 0
        && graph == old(graph)
      ensures r.Ok? && r.value.status != SrcUtils.Unreachable ==>
        && |r.value.path| >= 1
        && IsShortestRoute(old(graph), src, dst, Route(r.value.path, Finite(|r.value.path| - 1)))
        && r.value.hops == |r.value.path| - 1
      ensures r.Ok? && r.value.status == SrcUtils.TxStatus.InsufficientFunds ==>
        && IsWalk(old(graph), r.value.path)
        && !Liquid(old(graph), r.value.path, amount)
        && r.value.amount == 0
        && graph == old(graph)
      ensures r.Ok? && r.value.status == SrcUtils.Success ==>
        && IsWalk(old(graph), r.value.path)
        && Liquid(old(graph), r.value.path, amount)
        && (amount >= 0 || r.value.path == [src])
        && r.value.amount == amount
        && graph == SendAlong(old(graph), r.value.path, amount)
    {
      ghost var g0 := graph;
      var found := ShortestPath(graph, src, dst);
      if found.Err? {
        return Err(found.error);
      }
      var path := found.value.path;
      if found.value.cost.Infinite? {
        return Ok(SrcUtils.TxData(path, src, dst, 0, 0, SrcUtils.Unreachable));
      }
      var short := AnyShort(graph, path, amount);
      if short {
        return Ok(SrcUtils.TxData(path, src, dst, 0, |path| - 1, SrcUtils.TxStatus.InsufficientFunds));
      }
      TraceHops(g0, path, amount);
      var o := TransferAlong(path, amount, Trace(g0, path, amount));
      if o.Fail? {
        return Err(o.error);
      }
      assert amount < 0 ==> path == [src];
      return Ok(SrcUtils.TxData(path, src, dst, amount, |path| - 1, SrcUtils.Success));
    }

    /** for u, v in pairwise(path): self.transfer(u, v, amount), where states
        lists the maps the loop passes through (see Payments.Hops): either
        every hop moves the amount, or the amount is negative and the first
        transfer rejects it. */
    method TransferAlong(path: seq<NodeId>, amount: int, ghost states: seq<ChannelMap>) returns (r: Outcome)
      requires Hops(states, path, amount) && graph == states[0]
      modifies this
      ensures Valid()
      ensures r.Fail? ==> r.error == NegativeAmount && amount < 0 && |path| >= 2 && graph == old(graph)
      ensures r.Pass? ==> graph == states[|path| - 1]
      ensures r.Pass? && amount < 0 ==> |path| == 1
    {
      var i := 0;
      while i < |path| - 1
        invariant 0 <= i <= |path| - 1
        invariant graph == states[i]
        invariant amount < 0 ==> i == 0
        decreases |path| - 1 - i
      {
        assert HopAt(states, path, amount, i);
        var o := Transfer(path[i], path[i + 1], amount);
        if o.Fail? {
          assert amount < 0 && i == 0;
          return o;
        }
        assert graph == states[i + 1];
        i := i + 1;
      }
      return Pass;
    }

    /** get_balance(node): the sum of the node's outbound balances; a node
        that is not a key raises KeyError. */
    method GetBalance(node: NodeId) returns (r: Result<int>)
      ensures r.Err? <==> node !in graph
      ensures r.Err? ==> r.error == MissingKey
      ensures r.Ok? ==> r.value == Sum(graph[node])
      ensures r.Ok? && Valid() ==> r.value >= 0
    {
      if node !in graph {
        return Err(MissingKey);
      }
      var total := SumValues(graph[node]);
      if Valid() {
        SumNonNegative(graph[node]);
      }
      return Ok(total);
    }

    /** get_node(node): the facade of a name of the node set; any other name
        raises KeyError. */
    method GetNode(node: NodeId) returns (r: Result<Node>)
      ensures r.Err? <==> node !in nodeset
      ensures r.Err? ==> r.error == MissingKey
      ensures r.Ok? ==> fresh(r.value) && r.value.name == node && r.value.graph == this
    {
      if node !in nodeset {
        return Err(MissingKey);
      }
      var n := new Node(node, this);
      return Ok(n);
    }

    /** max_sendable(src, dst): the smallest hop balance on a shortest route,
        which is the largest amount send can move along it. A route with no
        hop (src == dst, or no route at all) makes min() raise ValueError. */
    method MaxSendable(src: NodeId, dst: NodeId) returns (r: Result<int>)
      ensures r == Err(MissingKey) <==> dst !in graph && dst != src
      ensures r == Err(EmptyRoute) <==>
        (dst in graph || dst == src) && (src == dst || forall w :: !WalkBetween(graph, w, src, dst))
      ensures r.Err? ==> r.error == MissingKey || r.error == EmptyRoute
      ensures r.Ok? ==> exists p ::
        && |p| >= 2
        && IsShortestRoute(graph, src, dst, Route(p, Finite(|p| - 1)))
        && IsWalk(graph, p)
        && r.value == MinHop(graph, p)
        && forall a :: Liquid(graph, p, a) <==> a <= r.value
    {
      var found := ShortestPath(graph, src, dst);
      if found.Err? {
        return Err(found.error);
      }
      var path := found.value.path;
      if |path| < 2 {
        return Err(EmptyRoute);
      }
      if src == dst {
        ShortestRouteToSelf(graph, src, found.value);
      }
      assert found.value.cost.Finite? && WalkBetween(graph, path, src, dst);
      var m := MinHopOf(graph, path);
      forall a ensures Liquid(graph, path, a) <==> a <= m {
        LiquidIffWithinMin(graph, path, a);
      }
      assert IsShortestRoute(graph, src, dst, Route(path, Finite(|path| - 1)));
      return Ok(m);
    }
  }

  /** The facade of one node of a graph. */
  class Node {
    const name: NodeId
    const graph: Graph

    /** Node(name, graph) once __post_init__ has accepted the name. */
    constructor(name: NodeId, graph: Graph)
      requires name in graph.nodeset
      ensures this.name == name && this.graph == graph
    {
      this.name := name;
      this.graph := graph;
    }

    /** Node(name, graph): a name outside the graph's node set raises
        ValueError. */
    static method New(name: NodeId, graph: Graph) returns (r: Result<Node>)
      ensures r.Err? <==> name !in graph.nodeset
      ensures r.Err? ==> r.error == NotInGraph
      ensures r.Ok? ==> fresh(r.value) && r.value.name == name && r.value.graph == graph
    {
      if name !in graph.nodeset {
        return Err(NotInGraph);
      }
      var n := new Node(name, graph);
      return Ok(n);
    }

    /** balance: the node's outbound total in its graph. */
    method Balance() returns (r: Result<int>)
      ensures r.Err? <==> name !in graph.graph
      ensures r.Err? ==> r.error == MissingKey
      ensures r.Ok? ==> r.value == Sum(graph.graph[name])
      ensures r.Ok? && graph.Valid() ==> r.value >= 0
    {
      r := graph.GetBalance(name);
    }

    /** channels: a read-only view of the node's peer -> balance map. */
    function Channels(): (r: Result<map<NodeId, int>>)
      reads graph
      ensures r.Err? <==> name !in graph.graph
      ensures r.Ok? ==> name in graph.graph && r.value == graph.graph[name]
    {
      if name in graph.graph then Ok(graph.graph[name]) else Err(MissingKey)
    }

    /** send(node, amount): the graph's send from this node. */
    method Send(node: NodeId, amount: int := DefaultTransactionValue) returns (r: Result<SrcUtils.TxData>)
      requires graph.Valid()
      modifies graph
      ensures graph.Valid()
      ensures r == Err(MissingKey) <==> node !in old(graph.graph) && node != name
      ensures r.Err? ==> graph.graph == old(graph.graph)
      ensures r.Err? && r.error != MissingKey ==> r.error == NegativeAmount && amount < 0
      ensures r.Ok? ==> r.value.sender == name && r.value.receiver == node
      ensures r.Ok? && r.value.status == SrcUtils.Unreachable ==>
        && IsShortestRoute(old(graph.graph), name, node, Route(r.value.path, Infinite))
        && r.value.amount == 0 && r.value.hops == 0
        && graph.graph == old(graph.graph)
      ensures r.Ok? && r.value.status != SrcUtils.Unreachable ==>
        && |r.value.path| >= 1
        && IsShortestRoute(old(graph.graph), name, node, Route(r.value.path, Finite(|r.value.path| - 1)))
        && r.value.hops == |r.value.path| - 1
      ensures r.Ok? && r.value.status == SrcUtils.TxStatus.InsufficientFunds ==>
        && IsWalk(old(graph.graph), r.value.path)
        && !Liquid(old(graph.graph), r.value.path, amount)
        && r.value.amount == 0
        && graph.graph == old(graph.graph)
      ensures r.Ok? && r.value.status == SrcUtils.Success ==>
        && IsWalk(old(graph.graph), r.value.path)
        && Liquid(old(graph.graph), r.value.path, amount)
        && (amount >= 0 || r.value.path == [name])
        && r.value.amount == amount
        && graph.graph == SendAlong(old(graph.graph), r.value.path, amount)
    {
      r := graph.Send(name, node, amount);
    }

    /** open_channel(node, outbound, inbound): the graph's open_channel from
        this node. */
    method OpenChannel(node: NodeId, outbound: int := DefaultChannelBalance, inbound: int := DefaultChannelBalance)
      returns (r: Outcome)
      modifies graph
      ensures r == OpenCheckKeyed(old(graph.graph), old(graph.nodeset), name, node, outbound, inbound)
      ensures r.Pass? ==> graph.graph == Opened(old(graph.graph), name, node, outbound, inbound)
      ensures r.Fail? ==> graph.graph == old(graph.graph)
      ensures old(graph.Valid()) ==> graph.Valid()
    {
      r := graph.OpenChannel(name, node, outbound, inbound);
    }

    /** close_channel(node): the graph's close_channel from this node. */
    method CloseChannel(node: NodeId) returns (r: Outcome)
      requires graph.Valid()
      modifies graph
      ensures r == CloseCheck(old(graph.graph), name, node)
      ensures r.Pass? ==> graph.graph == Closed(old(graph.graph), name, node)
      ensures r.Fail? ==> graph.graph == old(graph.graph)
      ensures graph.Valid()
    {
      r := graph.CloseChannel(name, node);
    }
  }
}
