/// The channel graph every variant of the simulator keeps: a nested map
/// node -> (peer -> outbound balance). This module holds the invariants of
/// that map, the checks each mutating operation makes before it touches the
/// map, and the effect of each operation once its checks pass.
module Channels {
  import opened Errors

  type NodeId = string

  /** graph[u][v] is the amount u can currently send to v over their channel. */
  type ChannelMap = map<NodeId, map<NodeId, int>>

  /** The directed entry graph[u][v] exists. */
  predicate HasChannel(g: ChannelMap, u: NodeId, v: NodeId) {
    u in g && v in g[u]
  }

  /** graph[u] has key v iff graph[v] has key u. */
  ghost predicate Symmetric(g: ChannelMap) {
    forall u, v :: HasChannel(g, u, v) ==> HasChannel(g, v, u)
  }

  /** No node holds a channel with itself (open_channel refuses u == v). */
  ghost predicate Loopless(g: ChannelMap) {
    forall u :: !HasChannel(g, u, u)
  }

  /** Every directed balance is non-negative. */
  ghost predicate NonNegative(g: ChannelMap) {
    forall u, v :: HasChannel(g, u, v) ==> g[u][v] >= 0
  }

  /** The class invariant of every graph variant. */
  ghost predicate Valid(g: ChannelMap) {
    Symmetric(g) && Loopless(g) && NonNegative(g)
  }

  /** The same directed entries, possibly with other balances. */
  ghost predicate SameChannels(g: ChannelMap, h: ChannelMap) {
    g.Keys == h.Keys && forall u, v :: HasChannel(g, u, v) <==> HasChannel(h, u, v)
  }

  /** Every directed entry other than u->v and v->u is the same in g and h. */
  ghost predicate OthersUnchanged(g: ChannelMap, h: ChannelMap, u: NodeId, v: NodeId) {
    forall a, b ::
      HasChannel(g, a, b) && !(a == u && b == v) && !(a == v && b == u) ==>
        HasChannel(h, a, b) && h[a][b] == g[a][b]
  }

  // ---------------------------------------------------------------------
  // Construction and reset
  // ---------------------------------------------------------------------

  /** {node: {} for node in nodes} */
  function Empty(nodes: set<NodeId>): (g: ChannelMap)
    ensures g.Keys == nodes
    ensures forall u, v :: !HasChannel(g, u, v)
  {
    map n | n in nodes :: map[]
  }

  /** g.update((node, {}) for node in nodes): each listed node gets an empty
      channel map (a node that was not a key becomes one); other keys keep
      theirs. */
  function ResetOver(g: ChannelMap, nodes: set<NodeId>): (h: ChannelMap)
    ensures h.Keys == g.Keys + nodes
    ensures forall n :: n in nodes ==> h[n] == map[]
    ensures forall n :: n in g && n !in nodes ==> h[n] == g[n]
  {
    map n | n in g.Keys + nodes :: if n in nodes then map[] else g[n]
  }

  /** A map whose every listed node has no channel keeps the invariant when
      every node is listed, that is when nothing outside the list still
      points at a listed node; every node's balance is then 0. */
  lemma ResetOverValid(g: ChannelMap, nodes: set<NodeId>)
    requires g.Keys <= nodes
    ensures Valid(ResetOver(g, nodes))
    ensures forall u, v :: !HasChannel(ResetOver(g, nodes), u, v)
    ensures forall n :: n in ResetOver(g, nodes) ==> Sum(ResetOver(g, nodes)[n]) == 0
  {
  }

  /** Resetting only some of the nodes can leave half a channel behind: with
      a channel between a and b and only a reset, b still lists a. */
  lemma ResetOverPartial()
    ensures var g := map["a" := map["b" := 1], "b" := map["a" := 1]];
      Valid(g) && !Symmetric(ResetOver(g, {"a"}))
  {
    var g := map["a" := map["b" := 1], "b" := map["a" := 1]];
    var h := ResetOver(g, {"a"});
    assert HasChannel(h, "b", "a") && !HasChannel(h, "a", "b");
  }

  // ---------------------------------------------------------------------
  // open_channel
  // ---------------------------------------------------------------------

  /** The four checks of open_channel, in the order the source makes them;
      `members` is the set the node-existence check looks in. */
  function OpenCheck(g: ChannelMap, members: set<NodeId>, u: NodeId, v: NodeId, x: int, y: int): Outcome {
    if u !in members || v !in members then Fail(UnknownNode)
    else if u == v then Fail(SelfChannel)
    else if x < 0 || y < 0 then Fail(NegativeAmount)
    else if HasChannel(g, u, v) then Fail(ChannelExists)
    else Pass
  }

  /** self[u][v] = x; self[v][u] = y */
  function Opened(g: ChannelMap, u: NodeId, v: NodeId, x: int, y: int): ChannelMap
    requires u in g && v in g && u != v
  {
    var g1 := g[u := g[u][v := x]];
    g1[v := g1[v][u := y]]
  }

  /** Opening a channel on two distinct known nodes sets exactly the two new
      directed entries and keeps every other entry. */
  lemma OpenedEffect(g: ChannelMap, u: NodeId, v: NodeId, x: int, y: int)
    requires u in g && v in g && u != v
    ensures var h := Opened(g, u, v, x, y);
      && h.Keys == g.Keys
      && HasChannel(h, u, v) && h[u][v] == x
      && HasChannel(h, v, u) && h[v][u] == y
      && OthersUnchanged(g, h, u, v)
      && (forall a, b :: HasChannel(h, a, b) ==> HasChannel(g, a, b) || (a == u && b == v) || (a == v && b == u))
  {
  }

  /** Because the graph is symmetric, the one-directional duplicate check of
      open_channel also rules out an entry in the other direction, so a
      successful open keeps the invariant. */
  lemma OpenedValid(g: ChannelMap, u: NodeId, v: NodeId, x: int, y: int)
    requires Valid(g)
    requires OpenCheck(g, g.Keys, u, v, x, y) == Pass
    ensures Valid(Opened(g, u, v, x, y))
  {
    OpenedEffect(g, u, v, x, y);
  }

  // ---------------------------------------------------------------------
  // close_channel
  // ---------------------------------------------------------------------

  /** The checks of close_channel, in source order. */
  function CloseCheck(g: ChannelMap, u: NodeId, v: NodeId): Outcome {
    if u !in g || v !in g then Fail(UnknownNode)
    else if !HasChannel(g, u, v) then Fail(ChannelNotOpen)
    else Pass
  }

  /** del self[u][v]; del self[v][u] */
  function Closed(g: ChannelMap, u: NodeId, v: NodeId): ChannelMap
    requires u in g && v in g
  {
    var g1 := g[u := g[u] - {v}];
    g1[v := g1[v] - {u}]
  }

  /** Closing removes exactly the two directed entries of the channel. */
  lemma ClosedEffect(g: ChannelMap, u: NodeId, v: NodeId)
    requires Valid(g) && CloseCheck(g, u, v) == Pass
    ensures var h := Closed(g, u, v);
      && h.Keys == g.Keys
      && !HasChannel(h, u, v) && !HasChannel(h, v, u)
      && OthersUnchanged(g, h, u, v)
      && (forall a, b :: HasChannel(h, a, b) ==> HasChannel(g, a, b))
  {
  }

  lemma ClosedValid(g: ChannelMap, u: NodeId, v: NodeId)
    requires Valid(g) && CloseCheck(g, u, v) == Pass
    ensures Valid(Closed(g, u, v))
  {
    ClosedEffect(g, u, v);
  }

  // ---------------------------------------------------------------------
  // transfer
  // ---------------------------------------------------------------------

  /** The checks of transfer, in source order. */
  function TransferCheck(g: ChannelMap, u: NodeId, v: NodeId, amount: int): Outcome {
    if u !in g || v !in g then Fail(UnknownNode)
    else if amount < 0 then Fail(NegativeAmount)
    else if !HasChannel(g, u, v) then Fail(ChannelNotOpen)
    else if amount > g[u][v] then Fail(InsufficientFunds)
    else Pass
  }

  /** self[u][v] -= amount; self[v][u] += amount */
  function Moved(g: ChannelMap, u: NodeId, v: NodeId, amount: int): (h: ChannelMap)
    requires HasChannel(g, u, v) && HasChannel(g, v, u) && u != v
  {
    var g1 := g[u := g[u][v := g[u][v] - amount]];
    g1[v := g1[v][u := g1[v][u] + amount]]
  }

  /** A transfer debits u->v, credits v->u by the same amount (so the
      channel's total is conserved), touches no other entry and opens or
      closes no channel. */
  lemma MovedEffect(g: ChannelMap, u: NodeId, v: NodeId, amount: int)
    requires HasChannel(g, u, v) && HasChannel(g, v, u) && u != v
    ensures var h := Moved(g, u, v, amount);
      && h[u][v] == g[u][v] - amount
      && h[v][u] == g[v][u] + amount
      && h[u][v] + h[v][u] == g[u][v] + g[v][u]
      && OthersUnchanged(g, h, u, v)
      && SameChannels(g, h)
  {
  }

  /** The two entries of the channel a transfer moves. */
  lemma MovedHop(g: ChannelMap, u: NodeId, v: NodeId, amount: int)
    requires HasChannel(g, u, v) && HasChannel(g, v, u) && u != v
    ensures var h := Moved(g, u, v, amount);
      && HasChannel(h, u, v) && HasChannel(h, v, u)
      && h[u][v] == g[u][v] - amount && h[v][u] == g[v][u] + amount
  {
  }

  /** A transfer leaves a single entry off its channel as it was. */
  lemma MovedElsewhere(g: ChannelMap, u: NodeId, v: NodeId, amount: int, a: NodeId, b: NodeId)
    requires HasChannel(g, u, v) && HasChannel(g, v, u) && u != v
    requires HasChannel(g, a, b) && !(a == u && b == v) && !(a == v && b == u)
    ensures HasChannel(Moved(g, u, v, amount), a, b) && Moved(g, u, v, amount)[a][b] == g[a][b]
  {
  }

  /** A transfer that passed its checks keeps every invariant. */
  lemma MovedValid(g: ChannelMap, u: NodeId, v: NodeId, amount: int)
    requires Valid(g) && TransferCheck(g, u, v, amount) == Pass
    ensures HasChannel(g, v, u) && u != v
    ensures Valid(Moved(g, u, v, amount))
  {
    MovedEffect(g, u, v, amount);
  }

  // ---------------------------------------------------------------------
  // get_balance: sum of a node's outbound balances
  // ---------------------------------------------------------------------

  /** Some key of a non-empty map. */
  ghost function Pick(m: map<NodeId, int>): (k: NodeId)
    requires m != map[]
    ensures k in m
  {
    var k :| k in m; k
  }

  /** sum(m.values()) */
  ghost function Sum(m: map<NodeId, int>): int
    decreases |m|
  {
    if m == map[] then 0
    else
      var k := Pick(m);
      assert |m - {k}| < |m| by { assert m.Keys - {k} < m.Keys; }
      m[k] + Sum(m - {k})
  }

  /** The sum does not depend on which key is taken first. */
  lemma {:induction false} SumRemove(m: map<NodeId, int>, k: NodeId)
    requires k in m
    ensures Sum(m) == m[k] + Sum(m - {k})
    decreases |m|
  {
    var j := Pick(m);
    if j != k {
      assert m.Keys - {j} < m.Keys && m.Keys - {k} < m.Keys;
      SumRemove(m - {j}, k);
      SumRemove(m - {k}, j);
      assert m - {j} - {k} == m - {k} - {j};
    }
  }

  /** Changing one value changes the sum by the difference. */
  lemma SumUpdate(m: map<NodeId, int>, k: NodeId, x: int)
    requires k in m
    ensures Sum(m[k := x]) == Sum(m) - m[k] + x
  {
    SumRemove(m, k);
    SumRemove(m[k := x], k);
    assert m[k := x] - {k} == m - {k};
  }

  /** A sum of non-negative balances is non-negative. */
  lemma {:induction false} SumNonNegative(m: map<NodeId, int>)
    requires forall k :: k in m ==> m[k] >= 0
    ensures Sum(m) >= 0
    decreases |m|
  {
    if m != map[] {
      var k :| k in m;
      SumRemove(m, k);
      assert m.Keys - {k} < m.Keys;
      SumNonNegative(m - {k});
    }
  }

  /** A transfer lowers the sender's outbound total by the amount, raises the
      receiver's by the same amount, and leaves every other node's total. */
  lemma MovedShiftsSums(g: ChannelMap, u: NodeId, v: NodeId, amount: int)
    requires HasChannel(g, u, v) && HasChannel(g, v, u) && u != v
    ensures var h := Moved(g, u, v, amount);
      && Sum(h[u]) == Sum(g[u]) - amount
      && Sum(h[v]) == Sum(g[v]) + amount
      && forall n :: n in g && n != u && n != v ==> Sum(h[n]) == Sum(g[n])
  {
    SumUpdate(g[u], v, g[u][v] - amount);
    SumUpdate(g[v], u, g[v][u] + amount);
  }

  /** sum(m.values()), computed one key at a time. */
  method SumValues(m: map<NodeId, int>) returns (total: int)
    ensures total == Sum(m)
  {
    total := 0;
    var rest := m;
    while rest != map[]
      invariant total + Sum(rest) == Sum(m)
      decreases |rest|
    {
      var k :| k in rest;
      SumRemove(rest, k);
      total := total + rest[k];
      assert rest.Keys - {k} < rest.Keys;
      rest := rest - {k};
    }
  }
}
