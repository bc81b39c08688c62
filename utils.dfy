/// utils.py: the two-valued transaction status, the transaction record whose
/// hop count is derived from its route, and the generator of node names.
module Utils {
  import opened Itertools
  import SrcUtils

  /** The two outcomes of a transaction. */
  datatype TransactionStatus = Success | Failure

  /** The transaction record; hops is not a constructor argument but is
      derived from the route when the record is made. */
  datatype TxData = TxData(
    path: seq<string>,
    sender: string,
    receiver: string,
    hops: int,
    status: TransactionStatus)

  /** TxData(path, sender, receiver, status), with __post_init__ setting
      hops to len(path). */
  function MakeTxData(path: seq<string>, sender: string, receiver: string, status: TransactionStatus): (t: TxData)
    ensures t.path == path && t.sender == sender && t.receiver == receiver && t.status == status
    ensures t.hops == |path|
  {
    TxData(path, sender, receiver, |path|, status)
  }

  // ---------------------------------------------------------------------
  // generate_node_names
  // ---------------------------------------------------------------------

  /** The names the loop `for i in range(lo, maxlen + 1)` yields: the
      product of each length in turn, from lo upwards. */
  function NamesFrom(chars: string, lo: nat, maxlen: int): seq<string>
    decreases maxlen - lo
  {
    if lo > maxlen then [] else Product(chars, lo) + NamesFrom(chars, lo + 1, maxlen)
  }

  /** generate_node_names(chars, maxlen=2) */
  function GenerateNodeNames(chars: string, maxlen: int := 2): seq<string> {
    NamesFrom(chars, 1, maxlen)
  }

  /** The names of lengths below lo followed by those the loop yields from lo
      on are the names of all lengths up to maxlen. */
  lemma {:induction false} NamesFromRest(chars: string, lo: nat, maxlen: int)
    requires 1 <= lo <= maxlen + 1
    ensures SrcUtils.NodeNames(chars, lo - 1) + NamesFrom(chars, lo, maxlen) == SrcUtils.NodeNames(chars, maxlen)
    decreases maxlen - lo
  {
    if lo <= maxlen {
      var next := lo + 1;
      NamesFromRest(chars, next, maxlen);
      assert next - 1 == lo;
      NamesFromStep(chars, lo, maxlen);
    } else {
      NamesFromEnd(chars, lo, maxlen);
    }
  }

  /** Past maxlen the loop yields nothing. */
  lemma NamesFromEnd(chars: string, lo: nat, maxlen: int)
    requires 1 <= lo == maxlen + 1
    ensures SrcUtils.NodeNames(chars, lo - 1) + NamesFrom(chars, lo, maxlen) == SrcUtils.NodeNames(chars, maxlen)
  {
    assert NamesFrom(chars, lo, maxlen) == [];
  }

  /** The step of NamesFromRest: moving the block of length lo from the
      loop's part to the shorter names. */
  lemma NamesFromStep(chars: string, lo: nat, maxlen: int)
    requires 1 <= lo <= maxlen
    requires SrcUtils.NodeNames(chars, lo) + NamesFrom(chars, lo + 1, maxlen) == SrcUtils.NodeNames(chars, maxlen)
    ensures SrcUtils.NodeNames(chars, lo - 1) + NamesFrom(chars, lo, maxlen) == SrcUtils.NodeNames(chars, maxlen)
  {
    var before, block, after := SrcUtils.NodeNames(chars, lo - 1), Product(chars, lo), NamesFrom(chars, lo + 1, maxlen);
    assert SrcUtils.NodeNames(chars, lo) == before + block;
    assert NamesFrom(chars, lo, maxlen) == block + after;
    Regroup(SrcUtils.NodeNames(chars, lo), before, block, after, NamesFrom(chars, lo, maxlen));
  }

  lemma Regroup<T>(x: seq<T>, a: seq<T>, b: seq<T>, c: seq<T>, y: seq<T>)
    requires x == a + b && y == b + c
    ensures a + y == x + c
  {
  }

  /** The generator of utils.py yields exactly the names of src/utils.py's
      generator: every non-empty string of at most maxlen characters of
      chars, shorter ones first; nothing when maxlen < 1. */
  lemma GenerateIsNodeNames(chars: string, maxlen: int)
    ensures GenerateNodeNames(chars, maxlen) == SrcUtils.NodeNames(chars, maxlen)
    ensures maxlen < 1 ==> GenerateNodeNames(chars, maxlen) == []
  {
    if maxlen >= 0 {
      NamesFromRest(chars, 1, maxlen);
    }
  }

  /** A string is generated iff it is non-empty, at most maxlen long and
      spelled from chars. */
  lemma GeneratedIff(chars: string, maxlen: int, w: string)
    ensures w in GenerateNodeNames(chars, maxlen) <==> 1 <= |w| <= maxlen && forall j :: 0 <= j < |w| ==> w[j] in chars
  {
    GenerateIsNodeNames(chars, maxlen);
    if w in SrcUtils.NodeNames(chars, maxlen) {
      SrcUtils.NodeNamesSound(chars, maxlen, w);
    }
    if 1 <= |w| <= maxlen && forall j :: 0 <= j < |w| ==> w[j] in chars {
      SrcUtils.NodeNamesComplete(chars, maxlen, w);
    }
  }

  /** For each length i from 1 to maxlen the generator yields, right after
      the shorter names, the |chars| ** i strings of length i in product
      order. */
  lemma LengthBlock(chars: string, maxlen: int, i: nat)
    requires 1 <= i <= maxlen
    ensures SrcUtils.SumPowers(|chars|, i) <= |GenerateNodeNames(chars, maxlen)|
    ensures GenerateNodeNames(chars, maxlen)[SrcUtils.SumPowers(|chars|, i - 1)..SrcUtils.SumPowers(|chars|, i)] == Product(chars, i)
    ensures |Product(chars, i)| == Pow(|chars|, i)
    ensures WordsOver(Product(chars, i), chars, i)
  {
    var before, block, after := SrcUtils.NodeNames(chars, i - 1), Product(chars, i), NamesFrom(chars, i + 1, maxlen);
    Layout(chars, maxlen, i);
    Middle(GenerateNodeNames(chars, maxlen), before, block, after);
    ProductSound(chars, i);
  }

  /** The generated names split into the shorter names, the block of length
      i and the longer names, with the counts of SumPowers. */
  lemma Layout(chars: string, maxlen: int, i: nat)
    requires 1 <= i <= maxlen
    ensures var before, block := SrcUtils.NodeNames(chars, i - 1), Product(chars, i);
      && GenerateNodeNames(chars, maxlen) == before + block + NamesFrom(chars, i + 1, maxlen)
      && |before| == SrcUtils.SumPowers(|chars|, i - 1)
      && |before| + |block| == SrcUtils.SumPowers(|chars|, i)
      && |block| == Pow(|chars|, i)
  {
    GenerateIsNodeNames(chars, maxlen);
    NamesFromRest(chars, i + 1, maxlen);
    assert SrcUtils.NodeNames(chars, i) == SrcUtils.NodeNames(chars, i - 1) + Product(chars, i);
    SrcUtils.NodeNamesCount(chars, i - 1);
    ProductLength(chars, i);
  }

  lemma Middle<T>(all: seq<T>, a: seq<T>, b: seq<T>, c: seq<T>)
    requires all == a + b + c
    ensures |a| + |b| <= |all| && all[|a|..|a| + |b|] == b
  {
    assert all[|a|..|a| + |b|] == (a + b + c)[|a|..|a| + |b|];
  }

  /** The doctest: list(generate_node_names("ab", maxlen=2)). */
  lemma GenerateExample()
    ensures GenerateNodeNames("ab") == ["a", "b", "aa", "ab", "ba", "bb"]
  {
    GenerateIsNodeNames("ab", 2);
    SrcUtils.NodeNamesExample();
  }
}
