# Lightning-style payment-channel simulator, modelled in Dafny

The simulator keeps a network of nodes joined by payment channels. Each
channel has a balance in each direction, and the whole network is a nested
map `node -> (peer -> outbound balance)`. On that map the simulator can
open, close and reset channels and transfer an amount over one channel. It
finds routes with Dijkstra's algorithm (every channel costs one hop) and
sends a payment along a route:
- it first looks ahead at every hop's balance;
- then it transfers hop by hop.

The same component exists three times:
- `src/graph.py` is a `Graph` class with int amounts that returns a
  transaction record;
- `graph.py` is the same class with Decimal amounts and a separate set of
  node names;
- `main.py` has free functions over a plain dictionary, and its `send`
  raises instead of returning a record.

Two utility files add these helpers:
- the transaction records;
- a generator of node names, and the set of names spelled from an alphabet;
- `nth_combination`, which unranks combinations.

The model has one shared core and a thin layer per variant:

- `Channels` (channels.dfy) is the channel map and its invariant:
  - the invariant is symmetric channels, no self-channel and non-negative
    balances;
  - it holds the checks each operation makes, in source order;
  - it gives each operation's effect once its checks pass;
  - it defines the balance sum.
- `Router` (router.dfy) is `dijkstra`.
  - The minimum scan may return any node of least distance, since the
    source's choice depends on set iteration order.
  - It is proved to return a shortest simple channel path whose cost is
    its hop count, or `([dst], infinity)` when `dst` cannot be reached.
- `Payments` (payments.dfy) covers the look-ahead, the hop-by-hop transfer
  (`SendAlong`) and the atomicity argument: once the look-ahead passes on a
  route that repeats no node, every transfer of the loop succeeds.
- `Names` (names.dfy) is Python's string order and `sorted()` of the node
  names.
- `IntGraph` (src_graph.dfy) models `src/graph.py`: a `Graph` class whose
  field `graph` the methods update in place, and the `Node` facade.
- `DecimalGraph` (decimal_graph.dfy) models `graph.py`. It adds the `nodeset`
  field, which `open_channel`, `get_node` and `Node` consult.
- `DictGraph` (main_graph.dfy) models `main.py`: a `Dict` object holding the
  map, passed to free methods.
- `Itertools` (itertools.dfy) holds reference definitions of `math.comb`,
  `itertools.combinations` and `itertools.product`.
- `SrcUtils` (src_utils.dfy) models `src/utils.py`: `TxStatus`, `TxData`,
  `SubstringSet`, `generate_node_names` and `nth_combination`, whose nested
  loops are kept as loops.
- `Utils` (utils.dfy) models `utils.py`: `TransactionStatus` (two values),
  `TxData` with `hops` derived from the path, and `generate_node_names`.
- `Errors` (errors.dfy) lists the error kinds. A call that raises is
  modelled as an `Outcome` or `Result` carrying the kind; each kind's
  comment names the Python exception class.

`open_channel` in src/graph.py (src/graph.py:78-88) and in main.py
(main.py:29-39) makes every check before it writes, so a failed call changes
nothing. `graph.py`'s code as written can leave half a channel behind
(graph.py:83-87).
`DecimalGraph.OpenAsWritten` follows that code, and
`DecimalGraph.OpenAsWrittenHalfOpens` exhibits the half-open map.
`DecimalGraph.Graph.OpenChannel` and `DecimalGraph.Node.OpenChannel` implement
the corrected checks, which look up both keys before writing anything. See
"Findings".

`send` in src/graph.py and graph.py records `hops = len(path) - 1`, the
number of channels on the route (src/graph.py:158-163, graph.py:157-162).
`utils.py`'s `TxData` sets `hops = len(path)` (utils.py:21-25), which counts
nodes, and the model follows that code (`Utils.MakeTxData`).

## Model

| member | source | states |
|---|---|---|
| Channels.Empty | src/graph.py:33-34 | the new map has exactly the given nodes as keys and no channel |
| Channels.ResetOver | src/graph.py:70-72 | every listed node maps to no channel; other keys keep their channels; the keys are the old keys plus the listed nodes |
| Channels.ResetOverValid | src/graph.py:70-72 | when every key is listed, the reset map keeps the invariant, has no channel, and every node's balance sum is 0 |
| Channels.ResetOverPartial | main.py:22-24 | a reset that lists only one end of a channel leaves the other end's entry, so a valid map becomes asymmetric |
| Channels.OpenedEffect | src/graph.py:87-88 | opening sets u->v to x and v->u to y, keeps the keys and every other entry, and adds no other entry |
| Channels.OpenedValid | src/graph.py:74-88 | on a valid map, once the four checks pass, the opened map is valid; the duplicate check looks one way only, and symmetry covers the other way |
| Channels.ClosedEffect | src/graph.py:90-98 | closing removes exactly the two directed entries, keeps the keys and every other entry, and adds none |
| Channels.ClosedValid | src/graph.py:90-98 | closing a channel that passed the checks keeps the invariant |
| Channels.MovedEffect | src/graph.py:111-112 | a transfer debits u->v and credits v->u by the amount, conserves the channel total, keeps every other entry, and opens or closes no channel |
| Channels.MovedHop | src/graph.py:111-112 | the two entries of the moved channel are present, debited and credited by the amount |
| Channels.MovedElsewhere | src/graph.py:111-112 | an entry off the moved channel is unchanged |
| Channels.MovedValid | src/graph.py:100-112 | once the checks pass on a valid map: the reverse entry exists, u != v, and the moved map is valid (no balance goes negative) |
| Channels.SumRemove | src/graph.py:165-167 | the balance sum does not depend on the order the keys are added in |
| Channels.SumUpdate | src/graph.py:165-167 | changing one balance changes the sum by the difference |
| Channels.SumNonNegative | src/graph.py:165-167 | non-negative balances have a non-negative sum |
| Channels.MovedShiftsSums | src/graph.py:111-112 | a transfer lowers the sender's outbound sum by the amount, raises the receiver's by the amount, and leaves every other node's sum alone |
| Channels.SumValues | src/graph.py:167 | the loop over the values computes the balance sum |
| Router.EdgeCostMeaning | src/graph.py:114-120 | the edge cost is finite iff the entry exists, and is then 1; inf + cost never improves a distance |
| Router.ShortestRouteToSelf | src/graph.py:122-150 | the route from a node to itself is ([src], 0) |
| Router.SelectMin | src/graph.py:135 | the selected node is unmarked and no unmarked node has a smaller distance |
| Router.Relax | src/graph.py:139-144 | each unmarked neighbour whose distance improves gets dist[u] + 1 and predecessor u; nothing else changes |
| Router.RelaxOne | src/graph.py:140-144 | relaxing one more neighbour extends the loop's progress predicate |
| Router.RelaxSet | src/graph.py:141-144 | an improving neighbour gets the new distance and predecessor |
| Router.RelaxSkip | src/graph.py:141-142 | a neighbour that does not improve is left as it was |
| Router.RelaxedNone | src/graph.py:139-140 | before the loop, every unmarked neighbour is still to do |
| Router.RelaxedAll | src/graph.py:140-144 | when none is left to do, the loop has made exactly Relax's change |
| Router.FirstUnmarked | src/graph.py:134-144 | on a walk from src to an unmarked node, some unmarked node has distance at most its position on the walk |
| Router.SelectedIsSettled | src/graph.py:135-136 | removing a node of least distance keeps every marked node's distance at most the length of every walk to it |
| Router.RelaxKeepsRelaxed | src/graph.py:139-144 | after relaxing, every channel from a marked node to an unmarked one is relaxed |
| Router.RelaxKeepsKeys | src/graph.py:139-144 | relaxing adds no key, keeps src at distance 0, and sets predecessors only of nodes |
| Router.RelaxKeepsSettled | src/graph.py:139-144 | relaxing changes no marked node's distance |
| Router.RelaxKeepsChained | src/graph.py:139-144 | every predecessor stays a marked node one hop nearer to src over a channel, and only src has a finite distance and no predecessor |
| Router.DescendingIsDistinct | src/graph.py:145-149 | nodes at strictly falling distances are pairwise distinct |
| Router.StepBack | src/graph.py:147-149 | prepending the predecessor keeps a channel walk ending at dst whose distances fall by one per hop |
| Router.WalkBack | src/graph.py:145-149 | the walked-back path is a channel walk ending at dst; when dst has a finite distance it starts at src, has distance + 1 nodes and repeats none; otherwise it is [dst] |
| Router.RelaxMarked | src/graph.py:134-144 | one round of the main loop keeps every loop invariant |
| Router.Explore | src/graph.py:130-144 | on exit dst, if a node, is marked; marked nodes are settled; predecessor chains lead back to src |
| Router.ChainedShrinks | src/graph.py:136-138 | the early break keeps predecessor chains valid |
| Router.RouteIsShortest | src/graph.py:145-150 | the walked-back path with dst's distance is a shortest route |
| Router.ShortestPath | src/graph.py:122-150 | KeyError iff dst is neither a node nor src; otherwise a route that is either a shortest simple channel path of cost len(path) - 1 or ([dst], infinity) with no walk to dst |
| Payments.WalkIsChannelled | src/graph.py:159-162 | on a valid map every hop of a channel walk is a channel both ways between distinct nodes |
| Payments.MinHop | src/graph.py:179 | the minimum is at most every hop balance and equal to one of them |
| Payments.LiquidIffWithinMin | src/graph.py:175-179 | an amount passes the look-ahead iff it is at most the route's least hop balance |
| Payments.AnyShort | src/graph.py:159 | the scan reports a short hop iff the look-ahead fails |
| Payments.MinHopOf | src/graph.py:179 | the scan computes the least hop balance |
| Payments.SendAlongSameChannels | src/graph.py:161-162 | sending opens and closes no channel |
| Payments.SendAlongUnfold | src/graph.py:161-162 | one more hop is one more transfer step |
| Payments.StepElsewhere | src/graph.py:161-162 | a step leaves every entry off its channel as it was |
| Payments.SendAlongOffRoute | src/graph.py:161-162 | sending leaves every entry off the route as it was |
| Payments.LastHopEffect | src/graph.py:161-162 | on a route repeating no node, the last hop is debited and credited by exactly the amount |
| Payments.SendAlongHop | src/graph.py:161-162 | on a route repeating no node, every hop u->v is debited by the amount and v->u credited by it |
| Payments.EarlierHop | src/graph.py:161-162 | the last transfer keeps the effect of every earlier hop |
| Payments.SendAlongConserves | src/graph.py:161-162 | every channel's total is the same after sending |
| Payments.SendAlongValid | src/graph.py:159-162 | a send that passed the look-ahead with a non-negative amount keeps the map valid |
| Payments.SendAlongEntry | src/graph.py:159-162 | after such a send every entry is present and non-negative |
| Payments.LookAheadSuffices | src/graph.py:159-162 | after the earlier hops, each hop's transfer passes all four checks (atomicity) |
| Payments.SendAlongStep | src/graph.py:161-162 | the send one hop further is one more transfer on the channel of that hop |
| Payments.PrefixSendValid | src/graph.py:159-162 | every intermediate map of the loop is valid |
| Payments.HopOfSend | src/graph.py:159-162 | hop i passes its checks and moves the amount; a negative amount is rejected at the first hop on the untouched map |
| Payments.TraceAt | src/graph.py:161-162 | entry k of the trace is the map after the first k hops |
| Payments.TraceHop | src/graph.py:161-162 | each hop of the trace goes through |
| Payments.TraceEnds | src/graph.py:161-162 | the trace starts at the original map and ends at the sent one |
| Payments.TraceHops | src/graph.py:159-162 | the transfer loop goes hop by hop from the original map to the sent one |
| Names.StrLessIrreflexive | src/graph.py:68 | no name sorts before itself |
| Names.StrLessTransitive | src/graph.py:68 | the string order is transitive |
| Names.StrLessTotal | src/graph.py:68 | any two different names are ordered |
| Names.LeastExists | src/graph.py:68 | every non-empty set of names has a least one |
| Names.Sorted | src/graph.py:66-68 | the result is strictly ascending and holds exactly the given names |
| IntGraph.Graph.constructor | src/graph.py:33-34 | every node is a key with no channel; the graph is valid |
| IntGraph.Graph.Nodes | src/graph.py:66-68 | the node names, strictly ascending |
| IntGraph.Graph.Reset | src/graph.py:70-72 | every key stays and loses all channels; every balance is 0; the graph stays valid |
| IntGraph.Graph.OpenChannel | src/graph.py:74-88 | the outcome is the four checks in order; on success exactly the two entries are set, on failure nothing changes; validity is kept |
| IntGraph.Graph.CloseChannel | src/graph.py:90-98 | the two checks in order; on success both entries are deleted, on failure nothing changes; validity is kept |
| IntGraph.Graph.Transfer | src/graph.py:100-112 | the four checks in order; on success the amount moves from u->v to v->u, on failure nothing changes; validity is kept |
| IntGraph.Graph.Dijkstra | src/graph.py:122-150 | KeyError iff dst is neither a node nor src; otherwise a shortest route |
| IntGraph.Graph.Send | src/graph.py:152-163 | UNREACHABLE gives amount 0 and hops 0 on ([dst], infinity); INSUFFICIENT_FUNDS gives amount 0 and hops len(path) - 1 on a shortest route with a short hop; SUCCESS gives every hop moved by the amount; a negative amount on a real route raises before any change; failures never change the graph |
| IntGraph.Graph.TransferAlong | src/graph.py:161-162 | the loop passes through the traced maps and ends at the last; only a negative amount makes it fail, at the first hop, with nothing changed |
| IntGraph.Graph.GetBalance | src/graph.py:165-167 | KeyError iff the node is no key; otherwise the sum of its outbound balances, non-negative on a valid graph |
| IntGraph.Graph.GetNode | src/graph.py:169-173 | KeyError iff the name is no node; otherwise a new facade of that node on this graph |
| IntGraph.Graph.MaxSendable | src/graph.py:175-179 | the least hop balance of a shortest route, which is the largest amount the look-ahead lets through; ValueError iff the route has no hop; KeyError as dijkstra |
| IntGraph.Node.constructor | src/graph.py:192-194 | a facade of a name of the graph |
| IntGraph.Node.New | src/graph.py:192-194 | ValueError iff the name is not a node of the graph |
| IntGraph.Node.Balance | src/graph.py:199-201 | the graph's balance sum of this node; KeyError iff it is no key; non-negative on a valid graph |
| IntGraph.Node.Channels | src/graph.py:203-205 | the node's peer -> balance map, or KeyError |
| IntGraph.Node.Send | src/graph.py:207-208 | the graph's send with this node as src, with all of its outcomes: KeyError iff the receiver is unknown; any other error is a negative amount; UNREACHABLE, INSUFFICIENT_FUNDS and SUCCESS with their routes, amounts and hops; failures leave the graph unchanged |
| IntGraph.Node.OpenChannel | src/graph.py:210-216 | the graph's open_channel with this node as u |
| IntGraph.Node.CloseChannel | src/graph.py:218-219 | the graph's close_channel with this node as u |
| DecimalGraph.OpenCheckKeyed | graph.py:77-87 | success iff the four checks pass against the node set and both names are keys |
| DecimalGraph.OpenAsWritten | graph.py:69-87 | as written, it succeeds exactly when the corrected checks do, and then opens the channel; a failure that changed the map is the KeyError on a v that is no key |
| DecimalGraph.OpenAsWrittenHalfOpens | graph.py:83-87 | with node set {a, b} over keys {a}, the call writes a->b and then raises KeyError, leaving a valid map asymmetric |
| DecimalGraph.OpenAsWrittenAgrees | graph.py:77-87 | when both names are keys, the code as written matches the corrected method |
| DecimalGraph.Graph.constructor | graph.py:34-36 | the names become the node set and the keys, with no channel |
| DecimalGraph.Graph.SetNodes | graph.py:61-63 | the setter replaces the node set and leaves the map alone |
| DecimalGraph.Graph.Nodes | graph.py:57-59 | the node set, strictly ascending |
| DecimalGraph.Graph.Reset | graph.py:65-67 | every name of the node set maps to no channel and others keep theirs; when the keys lie in the node set the graph is valid and every balance is 0 |
| DecimalGraph.Graph.OpenChannel | graph.py:69-87 | the checks against the node set, then both keys, in order; on success exactly the two entries are set, on failure nothing changes |
| DecimalGraph.Graph.CloseChannel | graph.py:89-97 | like src/graph.py, checking the keys of the map |
| DecimalGraph.Graph.Transfer | graph.py:99-111 | like src/graph.py, checking the keys of the map |
| DecimalGraph.Graph.Dijkstra | graph.py:121-149 | KeyError iff dst is neither a key nor src; otherwise a shortest route |
| DecimalGraph.Graph.Send | graph.py:151-162 | the same three outcomes as src/graph.py's send, with cost == inf as UNREACHABLE |
| DecimalGraph.Graph.TransferAlong | graph.py:160-161 | the transfer loop passes through the traced maps |
| DecimalGraph.Graph.GetBalance | graph.py:164-166 | KeyError iff no key; otherwise the balance sum |
| DecimalGraph.Graph.GetNode | graph.py:168-172 | KeyError iff the name is not in the node set |
| DecimalGraph.Graph.MaxSendable | graph.py:174-178 | the least hop balance of a shortest route; ValueError iff the route has no hop |
| DecimalGraph.Node.constructor | graph.py:191-193 | a facade of a name of the node set |
| DecimalGraph.Node.New | graph.py:191-193 | ValueError iff the name is not in the node set |
| DecimalGraph.Node.Balance | graph.py:198-200 | the graph's balance sum of this node; KeyError iff it is no key; non-negative on a valid graph |
| DecimalGraph.Node.Channels | graph.py:202-204 | a value copy of the node's peer -> balance map, or KeyError |
| DecimalGraph.Node.Send | graph.py:206-207 | the graph's send with this node as src, with all of its outcomes: KeyError iff the receiver is unknown; any other error is a negative amount; UNREACHABLE, INSUFFICIENT_FUNDS and SUCCESS with their routes, amounts and hops; failures leave the graph unchanged |
| DecimalGraph.Node.OpenChannel | graph.py:209-215 | the graph's open_channel with this node as u |
| DecimalGraph.Node.CloseChannel | graph.py:217-218 | the graph's close_channel with this node as u |
| DictGraph.NodeSet | main.py:10 | the one-character names spelled by "abcdefgh" |
| DictGraph.Create | main.py:18-19 | a new dictionary mapping every node to no channel |
| DictGraph.Reset | main.py:22-24 | the eight names lose their channels and other keys keep theirs; when every key is one of the eight, the map is valid and every balance is 0 |
| DictGraph.OpenChannel | main.py:27-39 | the four checks in order, with defaults 1 and 1; on success exactly the two entries are set |
| DictGraph.CloseChannel | main.py:42-50 | the two checks in order; on success both entries are deleted |
| DictGraph.Transfer | main.py:53-65 | the four checks in order; on success the amount moves over the channel |
| DictGraph.Dijkstra | main.py:77-101 | KeyError iff dst is neither a key nor src; otherwise a shortest route |
| DictGraph.TransferAlong | main.py:113-114 | the transfer loop passes through the traced maps |
| DictGraph.Send | main.py:104-114 | ValueError iff no walk reaches dst; Exception only when the shortest route dijkstra chose has a short hop; both leave the map unchanged; otherwise the amount moves along a shortest route |
| DictGraph.Chain | test_graph.py:111-119 | the test's chain a-b-c-d on the eight nodes is a valid map |
| DictGraph.ChainLinks | test_graph.py:114-119 | the chain has the channels a-b, b-c and c-d |
| DictGraph.ChainNeighbours | test_graph.py:114-119 | a, b and c have no other neighbours |
| DictGraph.ChainOfFour | main.py:77-101 | on any map where a-b-c-d is the only way on, every shortest route from a to d is [a, b, c, d] at cost 3 |
| DictGraph.ChainRoute | test_graph.py:111-124 | dijkstra on the test's chain returns ([a, b, c, d], 3) |
| Itertools.CombPositive | src/utils.py:99-103 | comb(n, r) > 0 iff r <= n, so every index fails when r > n |
| Itertools.CombOne | src/utils.py:99 | comb(n, 1) == n |
| Itertools.AbsorbStep | src/utils.py:106 | the arithmetic step of the absorption identity |
| Itertools.CombAbsorb | src/utils.py:106 | r * comb(n, r) == n * comb(n - 1, r - 1) |
| Itertools.AbsorbRestStep | src/utils.py:109 | the arithmetic step of the second absorption identity |
| Itertools.CombAbsorbRest | src/utils.py:109 | (n - r) * comb(n, r) == n * comb(n - 1, r) |
| Itertools.Combinations | src/utils.py:96 | there are comb(len(s), r) combinations |
| Itertools.CombinationAt | src/utils.py:104-110 | the first comb(n - 1, r - 1) combinations take s[0]; the others are those of s[1..] |
| Itertools.CombinationShape | src/utils.py:104-111 | every r-combination has r elements at strictly increasing positions |
| Itertools.ShapeTakes | src/utils.py:104-111 | a combination taking s[0] has that shape |
| Itertools.ShapeSkips | src/utils.py:104-111 | a combination skipping s[0] has that shape |
| Itertools.CombinationsOfOne | src/utils.py:96 | the 1-combinations are the single elements in order |
| Itertools.PairsOfTwo | src/utils.py:96 | the combinations of two elements |
| Itertools.PairsOfThree | src/utils.py:96 | the combinations of three elements |
| Itertools.PairsOfFour | src/utils.py:96 | combinations of four elements taken two at a time come in the order AB AC AD BC BD CD |
| Itertools.PrefixEach | src/utils.py:86-88 | prefixing every word by every character gives len(chars) * len(words) words |
| Itertools.ProductLength | src/utils.py:86-88 | product(chars, repeat=n) has len(chars) ** n strings |
| Itertools.ProductSound | src/utils.py:86-88 | every product string has length n and only characters of chars |
| Itertools.ProductComplete | src/utils.py:86-88 | every string of length n over chars is in the product |
| SrcUtils.NodeNamesCount | src/utils.py:46-48 | there are sum(len(chars) ** i for i in 1..maxlen) generated names |
| SrcUtils.NodeNamesSound | src/utils.py:72-88 | every generated name is non-empty, at most maxlen long and spelled from chars |
| SrcUtils.NodeNamesComplete | src/utils.py:72-88 | every such name is generated |
| SrcUtils.NodeNamesExample | src/utils.py:81-82 | the doctest: "ab", maxlen 2 gives a, b, aa, ab, ba, bb |
| SrcUtils.CharSetSize | src/utils.py:43 | len(set(chars)) <= len(chars), with equality iff no character repeats |
| SrcUtils.NewSubstringSet | src/utils.py:42-44 | ValueError iff a character repeats |
| SrcUtils.LenCountsIter | src/utils.py:46-51 | len() equals the number of names the iterator yields |
| SrcUtils.ContainsIffIterated | src/utils.py:50-54 | membership holds iff the name is iterated, or it is the empty string (when maxlen >= 0), which is never iterated |
| SrcUtils.NextCount | src/utils.py:106 | c * r // n is exactly comb(n - 1, r - 1) |
| SrcUtils.SkipCount | src/utils.py:109 | c * (n - r) // n is exactly comb(n - 1, r) |
| SrcUtils.Narrowed | src/utils.py:106 | the outer update yields comb(n - 1, r - 1) |
| SrcUtils.Skipped | src/utils.py:109 | the inner update yields comb(n - 1, r) |
| SrcUtils.UnrankIsCombination | src/utils.py:95-111 | unranking by cases on the first element gives the index-th combination in lexicographic order |
| SrcUtils.UnrankTakes | src/utils.py:104-110 | the case that takes the first element |
| SrcUtils.UnrankSkips | src/utils.py:104-110 | the case that skips it |
| SrcUtils.OuterStep | src/utils.py:105-106 | at the top of the outer loop, 1 <= n and r <= n |
| SrcUtils.InnerStep | src/utils.py:107-109 | skipping an element keeps the loop's progress invariant |
| SrcUtils.TakeFirst | src/utils.py:110 | appending pool[-1 - n] keeps the progress invariant |
| SrcUtils.TracksDone | src/utils.py:105-111 | when r reaches 0 the result is the combination sought |
| SrcUtils.PickCombination | src/utils.py:104-111 | the nested loops compute the index-th combination |
| SrcUtils.NthCombination | src/utils.py:95-111 | equals list(combinations(pool, r))[index]; a negative index is wrapped by comb(n, r); an index still out of range raises IndexError; a negative r raises ValueError |
| SrcUtils.NthCombinationShape | src/utils.py:104-111 | the result has r elements from strictly increasing pool positions |
| Utils.MakeTxData | utils.py:16-25 | the record keeps its four arguments and hops is len(path) |
| Utils.NamesFromRest | utils.py:47-48 | the shorter names followed by the loop from length lo on give all names up to maxlen |
| Utils.NamesFromStep | utils.py:47-48 | moving one length block from the loop to the shorter names |
| Utils.GenerateIsNodeNames | utils.py:37-48 | the generator yields exactly src/utils.py's names, and nothing when maxlen < 1 |
| Utils.GeneratedIff | utils.py:37-48 | a string is generated iff it is non-empty, at most maxlen long and spelled from chars |
| Utils.Layout | utils.py:47-48 | the names split into the shorter ones, the block of length i and the longer ones, with their counts |
| Utils.LengthBlock | utils.py:47-48 | for each length i, right after the shorter names come exactly len(chars) ** i strings of length i, in product order |
| Utils.GenerateExample | utils.py:44-45 | the doctest: "ab", maxlen 2 gives a, b, aa, ab, ba, bb |

## Left out

- Decimal amounts: graph.py and main.py use `Decimal`; the model uses
  integers throughout. Fractional balances are not modelled, such as the
  test where 1/1 becomes 0.5/1.5 after a transfer of 0.5. Neither are
  Decimal's 28-digit rounding or `Decimal("inf")` arithmetic beyond
  `inf + 1 == inf`.
- The `INFINITY = 2**64 - 1` sentinel of src/graph.py is modelled as the
  `Infinite` cost. The two differ only on a graph with at least 2**64 - 1
  nodes on one route.
- The tie-break among nodes of equal distance depends on set iteration
  order. `Router.SelectMin` may return any node of least distance, and
  every property is proved for every such choice.
- Formatting: `__repr__`, `__str__`, `pformat` and `textwrap`.
- Randomness: `rand` and `rand_between`.
- The `main()` demos and `__main__` blocks.
- The unused constants `BITCOIN_PRICE` and `SATOSHIS_PER_BITCOIN`.
- The `MutableMapping` plumbing (`__getitem__`, `__iter__`, `update`, …):
  the model works on the map directly.
- `Graph.from_dict` aliases the caller's dictionary, and src/graph.py's
  `Node.channels` returns a live reference into the map. The model has no
  aliasing of the inner maps: `IntGraph.Node.Channels` returns the map as a
  value.
- The `Node` dataclass's `__post_init__` check is modelled by the static
  `Node.New`, which reports the error instead of raising from a
  constructor.
- graph.py imports `TxData` and `TxStatus` from utils.py, which does not
  define `TxStatus`. graph.py's `send` is modelled with src/utils.py's
  record and statuses.
- The generator's laziness: names are produced as one sequence.
- `SrcUtils.NthCombination` takes the pool as a sequence. Consuming an
  arbitrary iterable is not modelled.
- IntGraph.Graph.CloseChannel, IntGraph.Graph.Transfer, IntGraph.Graph.Send,
  IntGraph.Node.Send and IntGraph.Node.CloseChannel require a valid graph.
  The source relies on symmetry without checking it, so their effect on an
  asymmetric map is not modelled. In src/graph.py every reset covers every
  key, so the class never reaches such a map.
- DecimalGraph.Graph.CloseChannel requires a valid graph. The `nodes` setter
  followed by `reset` can leave an asymmetric map (graph.py:61-67). On such
  a map graph.py's `close_channel` deletes u->v and then raises KeyError on
  the missing v->u (graph.py:96-97). That partial effect is not modelled.
- DecimalGraph.Graph.Transfer requires a valid graph. A transfer on the
  asymmetric map left by the `nodes` setter and `reset` is not modelled.
- DecimalGraph.Graph.Send requires a valid graph. A send on the asymmetric
  map left by the `nodes` setter and `reset` is not modelled.
- DecimalGraph.Node.Send requires a valid graph, as DecimalGraph.Graph.Send
  does.
- DecimalGraph.Node.CloseChannel requires a valid graph, as
  DecimalGraph.Graph.CloseChannel does.
- DictGraph.CloseChannel requires a valid map. main.py's `reset` covers only
  the eight names (main.py:22-24), so it leaves an asymmetric map when other
  names are keys. On such a map `close_channel` deletes u->v and then raises
  KeyError on the missing v->u (main.py:49-50). That is not modelled.
- DictGraph.Transfer requires a valid map. A transfer on the asymmetric map
  left by a partial `reset` is not modelled.
- DictGraph.Send requires a valid map. A send on the asymmetric map left by a
  partial `reset` is not modelled.
- DecimalGraph.Graph.Reset, DictGraph.Reset: validity after a reset is
  stated only when every key is a reset name. `Channels.ResetOverPartial`
  shows why no more can be promised.
- The test files that target a different `main.py` interface, and their
  expectation that closing a channel zeroes balances, are not modelled.

## Findings

| source | as written | input that shows it | evidently intended | confidence | as-written member | corrected member |
|---|---|---|---|---|---|---|
| graph.py:83-87 | `open_channel` checks names against `nodeset`, then reads `self[u]`, writes `self[u][v] = x`, and only then reads `self[v]`, which raises KeyError when `v` is not a key of the map | `nodes` setter gives node set {a, b} while the map's keys are {a}; `open_channel("a", "b")` writes a->b = 250 and then raises KeyError, leaving a->b without b->a | no partial effect on failure: both names are looked up before anything is written | not executed; the node set and the keys diverge only through the `nodes` setter | DecimalGraph.OpenAsWrittenHalfOpens | DecimalGraph.Graph.OpenChannel |
