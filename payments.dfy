/// The multi-hop payment shared by the graph variants' send: the liquidity
/// look-ahead over every hop of the route, the effect of transferring the
/// amount hop by hop, and why the look-ahead makes that sequence of
/// transfers all-or-nothing on a route that repeats no node.
module Payments {
  import opened Errors
  import opened Channels
  import opened Router

  /** Every consecutive pair of p is a channel in both directions between two
      distinct nodes. */
  ghost predicate Channelled(g: ChannelMap, p: seq<NodeId>) {
    forall i :: 0 <= i < |p| - 1 ==>
      HasChannel(g, p[i], p[i + 1]) && HasChannel(g, p[i + 1], p[i]) && p[i] != p[i + 1]
  }

  /** In a valid graph every channel walk is channelled both ways. */
  lemma WalkIsChannelled(g: ChannelMap, p: seq<NodeId>)
    requires Valid(g) && IsWalk(g, p)
    ensures Channelled(g, p)
  {
  }

  lemma PrefixChannelled(g: ChannelMap, p: seq<NodeId>, k: nat)
    requires Channelled(g, p) && 1 <= k <= |p|
    ensures Channelled(g, p[..k])
  {
    forall i | 0 <= i < k - 1
      ensures HasChannel(g, p[..k][i], p[..k][i + 1]) && HasChannel(g, p[..k][i + 1], p[..k][i]) && p[..k][i] != p[..k][i + 1]
    {
      assert p[..k][i] == p[i] && p[..k][i + 1] == p[i + 1];
    }
  }

  /** The balance of hop i of a route. */
  function HopBalance(g: ChannelMap, p: seq<NodeId>, i: nat): int
    requires i < |p| - 1 && HasChannel(g, p[i], p[i + 1])
  {
    g[p[i]][p[i + 1]]
  }

  /** not any(self[u][v] < amount for (u, v) in pairwise(path)) */
  predicate Liquid(g: ChannelMap, p: seq<NodeId>, amount: int)
    requires forall i :: 0 <= i < |p| - 1 ==> HasChannel(g, p[i], p[i + 1])
  {
    forall i :: 0 <= i < |p| - 1 ==> HasBalanceFor(g, p, i, amount)
  }

  predicate HasBalanceFor(g: ChannelMap, p: seq<NodeId>, i: nat, amount: int)
    requires i < |p| - 1 && HasChannel(g, p[i], p[i + 1])
  {
    HopBalance(g, p, i) >= amount
  }

  /** min(self[u][v] for u, v in pairwise(path)): the smallest hop balance,
      which is the balance of one of the hops. */
  function MinHop(g: ChannelMap, p: seq<NodeId>): (m: int)
    requires |p| >= 2
    requires forall i :: 0 <= i < |p| - 1 ==> HasChannel(g, p[i], p[i + 1])
    ensures forall i :: 0 <= i < |p| - 1 ==> m <= HopBalance(g, p, i)
    ensures exists i :: 0 <= i < |p| - 1 && m == HopBalance(g, p, i)
    decreases |p|
  {
    if |p| == 2 then HopBalance(g, p, 0)
    else
      var rest := MinHop(g, p[1..]);
      assert forall i :: 1 <= i < |p| - 1 ==> HopBalance(g, p, i) == HopBalance(g, p[1..], i - 1);
      assert forall i :: 0 <= i < |p| - 2 ==> HopBalance(g, p[1..], i) == HopBalance(g, p, i + 1);
      if HopBalance(g, p, 0) <= rest then HopBalance(g, p, 0) else rest
  }

  /** An amount passes the look-ahead exactly when it is at most the route's
      smallest hop balance, so max_sendable is the largest amount send can
      move along the route. */
  lemma LiquidIffWithinMin(g: ChannelMap, p: seq<NodeId>, amount: int)
    requires |p| >= 2
    requires forall i :: 0 <= i < |p| - 1 ==> HasChannel(g, p[i], p[i + 1])
    ensures Liquid(g, p, amount) <==> amount <= MinHop(g, p)
  {
    var m := MinHop(g, p);
    if amount <= m {
      forall i | 0 <= i < |p| - 1 ensures HasBalanceFor(g, p, i, amount) {
        assert m <= HopBalance(g, p, i);
      }
    } else {
      var i :| 0 <= i < |p| - 1 && m == HopBalance(g, p, i);
      assert !HasBalanceFor(g, p, i, amount);
    }
  }

  /** One transfer of the payment loop: where u and v share a channel, the
      amount moves from u->v to v->u; the loop only reaches a hop once the
      look-ahead has shown it open (see LookAheadSuffices). */
  function Step(g: ChannelMap, u: NodeId, v: NodeId, amount: int): (h: ChannelMap)
  {
    if HasChannel(g, u, v) && HasChannel(g, v, u) && u != v then Moved(g, u, v, amount) else g
  }

  /** for u, v in pairwise(path): transfer(u, v, amount): the channel map
      after the amount has moved across every hop, first hop first. */
  function SendAlong(g: ChannelMap, p: seq<NodeId>, amount: int): (h: ChannelMap)
    decreases |p|
  {
    if |p| < 2 then g
    else Step(SendAlong(g, p[..|p| - 1], amount), p[|p| - 2], p[|p| - 1], amount)
  }

  /** Sending opens or closes no channel: every step only moves balances. */
  lemma {:induction false} SendAlongSameChannels(g: ChannelMap, p: seq<NodeId>, amount: int)
    ensures SameChannels(g, SendAlong(g, p, amount))
    decreases |p|
  {
    if |p| >= 2 {
      var q := p[..|p| - 1];
      var h := SendAlong(g, q, amount);
      SendAlongSameChannels(g, q, amount);
      var u, v := p[|p| - 2], p[|p| - 1];
      if HasChannel(h, u, v) && HasChannel(h, v, u) && u != v {
        MovedEffect(h, u, v, amount);
      }
    }
  }

  /** (x, y) is not a hop of p in either direction. */
  ghost predicate OffRoute(p: seq<NodeId>, x: NodeId, y: NodeId) {
    forall j :: 0 <= j < |p| - 1 ==> !(p[j] == x && p[j + 1] == y) && !(p[j] == y && p[j + 1] == x)
  }

  lemma PrefixOffRoute(p: seq<NodeId>, k: nat, x: NodeId, y: NodeId)
    requires OffRoute(p, x, y) && k <= |p|
    ensures OffRoute(p[..k], x, y)
  {
    var q := p[..k];
    forall j | 0 <= j < |q| - 1 ensures !(q[j] == x && q[j + 1] == y) && !(q[j] == y && q[j + 1] == x) {
      assert q[j] == p[j] && q[j + 1] == p[j + 1];
    }
  }

  /** One more hop is one more step. */
  lemma SendAlongUnfold(g: ChannelMap, p: seq<NodeId>, amount: int)
    requires |p| >= 2
    ensures SendAlong(g, p, amount) == Step(SendAlong(g, p[..|p| - 1], amount), p[|p| - 2], p[|p| - 1], amount)
  {
  }

  /** A step leaves every entry off its channel as it was. */
  lemma StepElsewhere(g: ChannelMap, u: NodeId, v: NodeId, amount: int, x: NodeId, y: NodeId)
    requires HasChannel(g, x, y) && !(x == u && y == v) && !(x == v && y == u)
    ensures HasChannel(Step(g, u, v, amount), x, y) && Step(g, u, v, amount)[x][y] == g[x][y]
  {
    if HasChannel(g, u, v) && HasChannel(g, v, u) && u != v {
      MovedElsewhere(g, u, v, amount, x, y);
    }
  }

  /** Sending along a route leaves every entry off the route as it was. */
  lemma {:induction false} SendAlongOffRoute(g: ChannelMap, p: seq<NodeId>, amount: int, x: NodeId, y: NodeId)
    requires HasChannel(g, x, y) && OffRoute(p, x, y)
    ensures HasChannel(SendAlong(g, p, amount), x, y)
    ensures SendAlong(g, p, amount)[x][y] == g[x][y]
    decreases |p|
  {
    if |p| >= 2 {
      var n := |p|;
      var q := p[..n - 1];
      PrefixOffRoute(p, n - 1, x, y);
      SendAlongOffRoute(g, q, amount, x, y);
      assert !(p[n - 2] == x && p[n - 1] == y) && !(p[n - 2] == y && p[n - 1] == x);
      StepElsewhere(SendAlong(g, q, amount), p[n - 2], p[n - 1], amount, x, y);
    }
  }

  /** The last hop of a route that repeats no node is untouched by the hops
      before it, so the final step debits and credits it by the amount. */
  lemma LastHopEffect(g: ChannelMap, p: seq<NodeId>, amount: int)
    requires Channelled(g, p) && Distinct(p) && |p| >= 2
    ensures var h := SendAlong(g, p, amount); var u, v := p[|p| - 2], p[|p| - 1];
      && HasChannel(h, u, v) && HasChannel(h, v, u)
      && h[u][v] == g[u][v] - amount && h[v][u] == g[v][u] + amount
  {
    var n := |p|;
    var q := p[..n - 1];
    var u, v := p[n - 2], p[n - 1];
    assert HasChannel(g, u, v) && HasChannel(g, v, u) && u != v;
    assert OffRoute(q, u, v) by {
      forall k | 0 <= k < |q| - 1 ensures !(q[k] == u && q[k + 1] == v) && !(q[k] == v && q[k + 1] == u) {
        assert q[k] == p[k] && q[k + 1] == p[k + 1];
      }
    }
    SendAlongOffRoute(g, q, amount, u, v);
    SendAlongOffRoute(g, q, amount, v, u);
    var h := SendAlong(g, q, amount);
    assert HasChannel(h, u, v) && HasChannel(h, v, u);
    SendAlongUnfold(g, p, amount);
    MovedHop(h, u, v, amount);
  }

  /** On a route that repeats no node, sending debits every hop u->v by the
      amount and credits its reverse v->u by the same amount. */
  lemma {:induction false} SendAlongHop(g: ChannelMap, p: seq<NodeId>, amount: int, j: nat)
    requires Channelled(g, p) && Distinct(p) && j < |p| - 1
    ensures HasChannel(SendAlong(g, p, amount), p[j], p[j + 1])
    ensures HasChannel(SendAlong(g, p, amount), p[j + 1], p[j])
    ensures SendAlong(g, p, amount)[p[j]][p[j + 1]] == g[p[j]][p[j + 1]] - amount
    ensures SendAlong(g, p, amount)[p[j + 1]][p[j]] == g[p[j + 1]][p[j]] + amount
    decreases |p|
  {
    var n := |p|;
    if j == n - 2 {
      LastHopEffect(g, p, amount);
    } else {
      var q := p[..n - 1];
      PrefixChannelled(g, p, n - 1);
      assert |q| == n - 1 && Distinct(q);
      SendAlongHop(g, q, amount, j);
      EarlierHop(g, p, amount, j);
    }
  }

  /** The step of SendAlongHop for a hop before the last: the hop's effect on
      the route without its last node is kept by the last transfer. */
  lemma EarlierHop(g: ChannelMap, p: seq<NodeId>, amount: int, j: nat)
    requires Channelled(g, p) && Distinct(p) && j < |p| - 2
    requires var h := SendAlong(g, p[..|p| - 1], amount);
      HasChannel(h, p[j], p[j + 1]) && HasChannel(h, p[j + 1], p[j])
      && h[p[j]][p[j + 1]] == g[p[j]][p[j + 1]] - amount
      && h[p[j + 1]][p[j]] == g[p[j + 1]][p[j]] + amount
    ensures HasChannel(SendAlong(g, p, amount), p[j], p[j + 1])
    ensures HasChannel(SendAlong(g, p, amount), p[j + 1], p[j])
    ensures SendAlong(g, p, amount)[p[j]][p[j + 1]] == g[p[j]][p[j + 1]] - amount
    ensures SendAlong(g, p, amount)[p[j + 1]][p[j]] == g[p[j + 1]][p[j]] + amount
  {
    var n := |p|;
    var a, b := p[j], p[j + 1];
    var u, v := p[n - 2], p[n - 1];
    var h := SendAlong(g, p[..n - 1], amount);
    SendAlongUnfold(g, p, amount);
    assert a != v && b != v;
    StepElsewhere(h, u, v, amount, a, b);
    StepElsewhere(h, u, v, amount, b, a);
  }

  /** The total of every channel is the same after sending as before. */
  lemma SendAlongConserves(g: ChannelMap, p: seq<NodeId>, amount: int, x: NodeId, y: NodeId)
    requires Channelled(g, p) && Distinct(p) && Symmetric(g) && HasChannel(g, x, y)
    ensures var h := SendAlong(g, p, amount);
      HasChannel(h, x, y) && HasChannel(h, y, x) && h[x][y] + h[y][x] == g[x][y] + g[y][x]
  {
    SendAlongSameChannels(g, p, amount);
    if OffRoute(p, x, y) {
      SendAlongOffRoute(g, p, amount, x, y);
      assert OffRoute(p, y, x);
      SendAlongOffRoute(g, p, amount, y, x);
    } else {
      var j :| 0 <= j < |p| - 1 && ((p[j] == x && p[j + 1] == y) || (p[j] == y && p[j + 1] == x));
      SendAlongHop(g, p, amount, j);
    }
  }

  /** A send that passed the look-ahead with a non-negative amount keeps the
      graph valid: debited hops had at least the amount, credited ones only
      grow. */
  lemma SendAlongValid(g: ChannelMap, p: seq<NodeId>, amount: int)
    requires Valid(g) && IsWalk(g, p) && Distinct(p) && amount >= 0 && Liquid(g, p, amount)
    ensures Channelled(g, p) && Valid(SendAlong(g, p, amount))
  {
    var h := SendAlong(g, p, amount);
    SendAlongSameChannels(g, p, amount);
    forall x, y | HasChannel(h, x, y) ensures h[x][y] >= 0 {
      SendAlongEntry(g, p, amount, x, y);
    }
  }

  /** One entry after a send that passed the look-ahead: off the route it is
      as it was, on it it lost at most its balance or gained. */
  lemma SendAlongEntry(g: ChannelMap, p: seq<NodeId>, amount: int, x: NodeId, y: NodeId)
    requires Valid(g) && IsWalk(g, p) && Distinct(p) && amount >= 0 && Liquid(g, p, amount)
    requires HasChannel(g, x, y)
    ensures HasChannel(SendAlong(g, p, amount), x, y) && SendAlong(g, p, amount)[x][y] >= 0
  {
    if OffRoute(p, x, y) {
      SendAlongOffRoute(g, p, amount, x, y);
    } else {
      var j :| 0 <= j < |p| - 1 && ((p[j] == x && p[j + 1] == y) || (p[j] == y && p[j + 1] == x));
      SendAlongHop(g, p, amount, j);
      assert HasBalanceFor(g, p, j, amount);
    }
  }

  /** The atomicity of send. On a route that repeats no node, once the
      look-ahead has passed with a non-negative amount, the transfer of hop i
      made after hops 0..i-1 finds its channel open with at least the amount
      on it, so every transfer of the loop succeeds and none is left half
      done. */
  lemma LookAheadSuffices(g: ChannelMap, p: seq<NodeId>, amount: int, i: nat)
    requires Valid(g) && IsWalk(g, p) && Distinct(p) && Liquid(g, p, amount)
    requires amount >= 0 && i < |p| - 1
    ensures Channelled(g, p[..i + 1])
    ensures TransferCheck(SendAlong(g, p[..i + 1], amount), p[i], p[i + 1], amount) == Pass
  {
    PrefixChannelled(g, p, i + 1);
    var q := p[..i + 1];
    assert OffRoute(q, p[i], p[i + 1]) by {
      forall k | 0 <= k < |q| - 1 ensures !(q[k] == p[i] && q[k + 1] == p[i + 1]) && !(q[k] == p[i + 1] && q[k + 1] == p[i]) {
        assert q[k] == p[k] && q[k + 1] == p[k + 1];
      }
    }
    SendAlongOffRoute(g, q, amount, p[i], p[i + 1]);
    SendAlongSameChannels(g, q, amount);
    assert HasBalanceFor(g, p, i, amount);
  }

  /** Sending along the route one hop further is one more transfer. */
  lemma SendAlongStep(g: ChannelMap, p: seq<NodeId>, amount: int, i: nat)
    requires Channelled(g, p) && i < |p| - 1
    ensures Channelled(g, p[..i + 1]) && Channelled(g, p[..i + 2])
    ensures HasChannel(SendAlong(g, p[..i + 1], amount), p[i], p[i + 1])
    ensures HasChannel(SendAlong(g, p[..i + 1], amount), p[i + 1], p[i])
    ensures SendAlong(g, p[..i + 2], amount) == Moved(SendAlong(g, p[..i + 1], amount), p[i], p[i + 1], amount)
  {
    PrefixChannelled(g, p, i + 1);
    PrefixChannelled(g, p, i + 2);
    SendAlongSameChannels(g, p[..i + 1], amount);
    assert p[..i + 2][..i + 1] == p[..i + 1];
  }

  /** The sends of the loop so far keep the graph valid: a prefix of a
      route that passed the look-ahead passes it too. */
  lemma PrefixSendValid(g: ChannelMap, p: seq<NodeId>, amount: int, i: nat)
    requires Valid(g) && IsWalk(g, p) && Distinct(p) && amount >= 0 && Liquid(g, p, amount)
    requires i < |p|
    ensures Valid(SendAlong(g, p[..i + 1], amount))
  {
    var q := p[..i + 1];
    forall k | 0 <= k < |q| - 1 ensures HasChannel(g, q[k], q[k + 1]) && HasBalanceFor(g, q, k, amount) {
      assert q[k] == p[k] && q[k + 1] == p[k + 1];
      assert HasBalanceFor(g, p, k, amount);
    }
    SendAlongValid(g, q, amount);
  }

  /** any(self[u][v] < amount for (u, v) in pairwise(path)): whether some hop
      is short of the amount. */
  method AnyShort(g: ChannelMap, p: seq<NodeId>, amount: int) returns (short: bool)
    requires forall i :: 0 <= i < |p| - 1 ==> HasChannel(g, p[i], p[i + 1])
    ensures short <==> !Liquid(g, p, amount)
  {
    var i := 0;
    while i < |p| - 1
      invariant 0 <= i <= |p| - 1 || (|p| == 0 && i == 0)
      invariant forall j :: 0 <= j < i ==> HasBalanceFor(g, p, j, amount)
    {
      assert HasChannel(g, p[i], p[i + 1]);
      if g[p[i]][p[i + 1]] < amount {
        assert !HasBalanceFor(g, p, i, amount);
        return true;
      }
      i := i + 1;
    }
    return false;
  }

  /** min(self[u][v] for u, v in pairwise(path)), scanning the hops in
      order. */
  method MinHopOf(g: ChannelMap, p: seq<NodeId>) returns (m: int)
    requires |p| >= 2
    requires forall i :: 0 <= i < |p| - 1 ==> HasChannel(g, p[i], p[i + 1])
    ensures m == MinHop(g, p)
  {
    assert HasChannel(g, p[0], p[1]);
    m := g[p[0]][p[1]];
    ghost var at := 0;
    var i := 1;
    while i < |p| - 1
      invariant 1 <= i <= |p| - 1
      invariant forall j :: 0 <= j < i ==> m <= HopBalance(g, p, j)
      invariant 0 <= at < i && m == HopBalance(g, p, at)
    {
      assert HasChannel(g, p[i], p[i + 1]);
      if g[p[i]][p[i + 1]] < m {
        m, at := g[p[i]][p[i + 1]], i;
      }
      i := i + 1;
    }
    ghost var least := MinHop(g, p);
    ghost var k :| 0 <= k < |p| - 1 && least == HopBalance(g, p, k);
    assert m <= least && least <= m;
  }

  /** Hop i of the payment loop, with the earlier hops done: a non-negative
      amount passes the transfer's checks and moves one hop further; a
      negative one (met only at the first hop, on the untouched map) is
      rejected by them. */
  lemma HopOfSend(g: ChannelMap, p: seq<NodeId>, amount: int, i: nat)
    requires Valid(g) && IsWalk(g, p) && Distinct(p) && Liquid(g, p, amount)
    requires i < |p| - 1 && (amount < 0 ==> i == 0)
    ensures HopGoes(SendAlong(g, p[..i + 1], amount), SendAlong(g, p[..i + 2], amount), p[i], p[i + 1], amount)
  {
    WalkIsChannelled(g, p);
    if amount >= 0 {
      LookAheadSuffices(g, p, amount, i);
      SendAlongStep(g, p, amount, i);
      PrefixSendValid(g, p, amount, i);
    } else {
      assert |p[..i + 1]| == 1;
      assert HasChannel(g, p[0], p[1]) && HasChannel(g, p[1], p[0]);
    }
    assert p[i] != p[i + 1];
  }

  /** The channel map before each hop of p and the one after the last:
      Trace(g, p, amount)[k] is g after the first k hops (see TraceAt). */
  ghost function Trace(g: ChannelMap, p: seq<NodeId>, amount: int): (t: seq<ChannelMap>)
    ensures |t| == |p|
    decreases |p|
  {
    if p == [] then [] else Trace(g, p[..|p| - 1], amount) + [SendAlong(g, p, amount)]
  }

  lemma {:induction false} TraceAt(g: ChannelMap, p: seq<NodeId>, amount: int, k: nat)
    requires k < |p|
    ensures Trace(g, p, amount)[k] == SendAlong(g, p[..k + 1], amount)
    decreases |p|
  {
    var q := p[..|p| - 1];
    if k < |p| - 1 {
      TraceAt(g, q, amount, k);
      assert q[..k + 1] == p[..k + 1];
    } else {
      assert p[..k + 1] == p;
    }
  }

  /** Hop k of p from map h to map next goes through: the map is valid, and
      transfer(u, v, amount) passes and leaves next behind, or rejects a
      negative amount. */
  ghost predicate HopGoes(h: ChannelMap, next: ChannelMap, u: NodeId, v: NodeId, amount: int) {
    && Valid(h)
    && TransferCheck(h, u, v, amount) == (if amount >= 0 then Pass else Fail(NegativeAmount))
    && (amount >= 0 ==> HasChannel(h, u, v) && HasChannel(h, v, u) && u != v && next == Moved(h, u, v, amount))
  }

  /** states lists the maps a transfer loop over p passes through: each hop
      goes through (only the first matters for a negative amount, which it
      rejects), and the map it ends with is valid. */
  ghost predicate Hops(states: seq<ChannelMap>, p: seq<NodeId>, amount: int) {
    && |states| == |p| >= 1
    && Valid(states[0])
    && (amount >= 0 ==> Valid(states[|p| - 1]))
    && forall k :: 0 <= k < |p| - 1 && (amount >= 0 || k == 0) ==> HopAt(states, p, amount, k)
  }

  /** Hop k of the loop over p goes through from states[k] to states[k + 1]. */
  ghost predicate HopAt(states: seq<ChannelMap>, p: seq<NodeId>, amount: int, k: int)
    requires 0 <= k < |p| - 1 && |states| == |p|
  {
    HopGoes(states[k], states[k + 1], p[k], p[k + 1], amount)
  }

  /** Hop k of the trace goes through (see HopOfSend). */
  lemma TraceHop(g: ChannelMap, p: seq<NodeId>, amount: int, k: nat)
    requires Valid(g) && IsWalk(g, p) && Distinct(p) && Liquid(g, p, amount)
    requires k < |p| - 1 && (amount < 0 ==> k == 0)
    ensures HopGoes(Trace(g, p, amount)[k], Trace(g, p, amount)[k + 1], p[k], p[k + 1], amount)
  {
    var t := Trace(g, p, amount);
    TraceAt(g, p, amount, k);
    TraceAt(g, p, amount, k + 1);
    var before, after := SendAlong(g, p[..k + 1], amount), SendAlong(g, p[..k + 2], amount);
    assert t[k] == before && t[k + 1] == after;
    HopOfSend(g, p, amount, k);
  }

  /** The trace starts at g and ends at SendAlong(g, p, amount). */
  lemma TraceEnds(g: ChannelMap, p: seq<NodeId>, amount: int)
    requires |p| >= 1
    ensures Trace(g, p, amount)[0] == g
    ensures Trace(g, p, amount)[|p| - 1] == SendAlong(g, p, amount)
  {
    TraceAt(g, p, amount, 0);
    TraceAt(g, p, amount, |p| - 1);
    assert |p[..1]| == 1;
    assert p[..|p|] == p;
  }

  /** On a walk with distinct nodes that passed the look-ahead, the transfer
      loop goes through hop after hop from g to SendAlong(g, p, amount). */
  lemma TraceHops(g: ChannelMap, p: seq<NodeId>, amount: int)
    requires Valid(g) && IsWalk(g, p) && Distinct(p) && Liquid(g, p, amount)
    ensures Hops(Trace(g, p, amount), p, amount)
    ensures Trace(g, p, amount)[0] == g
    ensures Trace(g, p, amount)[|p| - 1] == SendAlong(g, p, amount)
  {
    var t := Trace(g, p, amount);
    TraceEnds(g, p, amount);
    forall k | 0 <= k < |p| - 1 && (amount >= 0 || k == 0)
      ensures HopAt(t, p, amount, k)
    {
      TraceHop(g, p, amount, k);
    }
    if amount >= 0 {
      PrefixSendValid(g, p, amount, |p| - 1);
      assert p[..|p| - 1 + 1] == p;
    }
  }
}
