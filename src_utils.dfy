/// src/utils.py: the transaction record returned by send, the set of node
/// names spelled from an alphabet, the generator of those names, and the
/// unranking of combinations.
module SrcUtils {
  import opened Errors
  import opened Itertools

  /** The three outcomes of a send. */
  datatype TxStatus = Success | InsufficientFunds | Unreachable

  /** The immutable record of one send: the route, its two ends, the amount
      actually moved, the number of channels on the route and the outcome. */
  datatype TxData = TxData(
    path: seq<string>,
    sender: string,
    receiver: string,
    amount: int,
    hops: int,
    status: TxStatus)

  // ---------------------------------------------------------------------
  // generate_node_names
  // ---------------------------------------------------------------------

  /** chain.from_iterable(map("".join, product(chars, repeat=i)) for i in
      range(1, maxlen + 1)): all names of length 1, then of length 2, and so
      on up to maxlen; nothing when maxlen < 1. */
  function NodeNames(chars: string, maxlen: int): seq<string>
    decreases maxlen
  {
    if maxlen < 1 then [] else NodeNames(chars, maxlen - 1) + Product(chars, maxlen)
  }

  /** sum(x ** i for i in range(1, maxlen + 1)) */
  function SumPowers(x: nat, maxlen: int): nat
    decreases maxlen
  {
    if maxlen < 1 then 0 else SumPowers(x, maxlen - 1) + Pow(x, maxlen)
  }

  /** There are sum(|chars| ** i) generated names. */
  lemma {:induction false} NodeNamesCount(chars: string, maxlen: int)
    ensures |NodeNames(chars, maxlen)| == SumPowers(|chars|, maxlen)
    decreases maxlen
  {
    if maxlen >= 1 {
      NodeNamesCount(chars, maxlen - 1);
      ProductLength(chars, maxlen);
    }
  }

  /** Every generated name is non-empty, at most maxlen long and spelled
      from chars. */
  lemma {:induction false} NodeNamesSound(chars: string, maxlen: int, w: string)
    requires w in NodeNames(chars, maxlen)
    ensures 1 <= |w| <= maxlen && forall j :: 0 <= j < |w| ==> w[j] in chars
    decreases maxlen
  {
    if w in NodeNames(chars, maxlen - 1) {
      NodeNamesSound(chars, maxlen - 1, w);
    } else {
      ProductSound(chars, maxlen);
      var i :| 0 <= i < |Product(chars, maxlen)| && Product(chars, maxlen)[i] == w;
    }
  }

  /** Every non-empty name of at most maxlen characters from chars is
      generated. */
  lemma {:induction false} NodeNamesComplete(chars: string, maxlen: int, w: string)
    requires 1 <= |w| <= maxlen && forall j :: 0 <= j < |w| ==> w[j] in chars
    ensures w in NodeNames(chars, maxlen)
    decreases maxlen
  {
    var shorter, longest := NodeNames(chars, maxlen - 1), Product(chars, maxlen);
    assert NodeNames(chars, maxlen) == shorter + longest;
    if |w| == maxlen {
      ProductComplete(chars, w);
      assert w in longest;
    } else {
      NodeNamesComplete(chars, maxlen - 1, w);
      assert w in shorter;
    }
  }

  /** The first doctest of generate_node_names. */
  lemma NodeNamesExample()
    ensures NodeNames("ab", 2) == ["a", "b", "aa", "ab", "ba", "bb"]
  {
    assert "ab"[1..] == "b" && "b"[1..] == "";
    var one := Product("ab", 1);
    var a1, b1 := Cons('a', [""]), Cons('b', [""]);
    assert a1[0] == "a" && b1[0] == "b";
    assert one == ["a", "b"];
    var a2, b2 := Cons('a', one), Cons('b', one);
    assert a2[0] == "aa" && a2[1] == "ab" && b2[0] == "ba" && b2[1] == "bb";
    assert Product("ab", 2) == ["aa", "ab", "ba", "bb"];
  }

  // ---------------------------------------------------------------------
  // SubstringSet
  // ---------------------------------------------------------------------

  /** The set of names over `chars` of at most `maxlen` characters. */
  datatype SubstringSet = SubstringSet(chars: string, maxlen: int)

  /** No character occurs twice. */
  predicate NoRepeats(s: string) {
    forall i, j :: 0 <= i < j < |s| ==> s[i] != s[j]
  }

  /** set(chars) */
  function CharSet(s: string): set<char> {
    set c | c in s
  }

  lemma {:induction false} CharSetSize(s: string)
    ensures |CharSet(s)| <= |s|
    ensures |CharSet(s)| == |s| <==> NoRepeats(s)
    decreases |s|
  {
    if s != [] {
      CharSetSize(s[1..]);
      assert CharSet(s) == {s[0]} + CharSet(s[1..]);
      if s[0] in s[1..] {
        assert CharSet(s) == CharSet(s[1..]);
        var j :| 0 <= j < |s[1..]| && s[1..][j] == s[0];
        assert s[0] == s[j + 1];
      } else {
        assert |CharSet(s)| == 1 + |CharSet(s[1..])|;
        if NoRepeats(s[1..]) {
          forall i, j | 0 <= i < j < |s| ensures s[i] != s[j] {
            if i == 0 {
              assert s[j] == s[1..][j - 1];
            } else {
              assert s[i] == s[1..][i - 1] && s[j] == s[1..][j - 1];
            }
          }
        } else {
          var i, j :| 0 <= i < j < |s[1..]| && s[1..][i] == s[1..][j];
          assert s[i + 1] == s[j + 1];
        }
      }
    } else {
      assert CharSet(s) == {};
    }
  }

  /** SubstringSet(chars, maxlen): raises ValueError when len(chars) !=
      len(set(chars)), that is, exactly when a character repeats. */
  function NewSubstringSet(chars: string, maxlen: int := 1): (r: Result<SubstringSet>)
    ensures r.Err? <==> !NoRepeats(chars)
    ensures r.Err? ==> r.error == RepeatedChars
    ensures r.Ok? ==> r.value == SubstringSet(chars, maxlen)
  {
    CharSetSize(chars);
    if |chars| != |CharSet(chars)| then Err(RepeatedChars) else Ok(SubstringSet(chars, maxlen))
  }

  /** len(): the closed form sum(len(chars) ** i for i in 1..maxlen). */
  function Len(ss: SubstringSet): nat {
    SumPowers(|ss.chars|, ss.maxlen)
  }

  /** iter(): the generated names. */
  function Iter(ss: SubstringSet): seq<string> {
    NodeNames(ss.chars, ss.maxlen)
  }

  /** `value in ss`: at most maxlen characters, all of them from chars. */
  predicate Contains(ss: SubstringSet, value: string) {
    |value| <= ss.maxlen && forall j :: 0 <= j < |value| ==> value[j] in ss.chars
  }

  /** The size formula counts exactly the names the iterator yields. */
  lemma LenCountsIter(ss: SubstringSet)
    ensures Len(ss) == |Iter(ss)|
  {
    NodeNamesCount(ss.chars, ss.maxlen);
  }

  /** Membership agrees with iteration except for the empty string, which is
      a member (when maxlen >= 0) but is never yielded. */
  lemma ContainsIffIterated(ss: SubstringSet, value: string)
    ensures Contains(ss, value) <==> value in Iter(ss) || (value == "" && ss.maxlen >= 0)
    ensures "" !in Iter(ss)
  {
    if value in Iter(ss) {
      NodeNamesSound(ss.chars, ss.maxlen, value);
    } else if Contains(ss, value) && value != "" {
      NodeNamesComplete(ss.chars, ss.maxlen, value);
    }
    if "" in Iter(ss) {
      NodeNamesSound(ss.chars, ss.maxlen, "");
    }
  }

  // ---------------------------------------------------------------------
  // nth_combination
  // ---------------------------------------------------------------------

  /** The index math.comb(n, r) wraps a negative index to. */
  function Wrapped(index: int, c: nat): int {
    if index < 0 then index + c else index
  }

  /** A division the multiplication before it makes exact. */
  lemma ExactDivision(a: int, n: int, q: int)
    requires n > 0 && a == n * q
    ensures a / n == q
  {
    var d, m := a / n, a % n;
    assert a == n * d + m && 0 <= m < n;
    assert n * (q - d) == m;
    MultipleBounds(n, q - d);
  }

  lemma MultipleBounds(n: int, x: int)
    requires n > 0
    ensures x >= 1 ==> n * x >= n
    ensures x <= -1 ==> n * x <= -n
  {
  }

  /** c * r // n of the outer loop is C(n - 1, r - 1). */
  lemma NextCount(n: nat, k: nat)
    requires 1 <= k <= n
    ensures Comb(n, k) * k / n == Comb(n - 1, k - 1)
  {
    CombAbsorb(n, k);
    ExactDivision(Comb(n, k) * k, n, Comb(n - 1, k - 1));
  }

  /** c * (n - r) // n of the inner loop is C(n - 1, r). */
  lemma SkipCount(n: nat, k: nat)
    requires 1 <= n && k <= n
    ensures Comb(n, k) * (n - k) / n == Comb(n - 1, k)
  {
    CombAbsorbRest(n, k);
    ExactDivision(Comb(n, k) * (n - k), n, Comb(n - 1, k));
  }

  /** c = c * r // n: from C(n, r) to C(n - 1, r - 1). */
  method Narrowed(c: nat, n: nat, k: nat) returns (next: nat)
    requires 1 <= k <= n && c == Comb(n, k)
    ensures next == Comb(n - 1, k - 1)
  {
    NextCount(n, k);
    next := c * k / n;
  }

  /** c = c * (n - r) // n: from C(n, r) to C(n - 1, r). */
  method Skipped(c: nat, n: nat, k: nat) returns (next: nat)
    requires 1 <= n && k <= n && c == Comb(n, k)
    ensures next == Comb(n - 1, k)
  {
    SkipCount(n, k);
    next := c * (n - k) / n;
  }

  /** The index-th k-combination of s, by cases on its first element: the
      first C(|s| - 1, k - 1) combinations take it, the others skip it. */
  ghost function Unrank<T>(s: seq<T>, k: nat, i: int): seq<T>
    decreases |s|
  {
    if k == 0 || s == [] then []
    else if i < Comb(|s| - 1, k - 1) then [s[0]] + Unrank(s[1..], k - 1, i)
    else Unrank(s[1..], k, i - Comb(|s| - 1, k - 1))
  }

  /** Unranking by cases on the first element picks the combination of the
      lexicographic order of positions. */
  lemma {:induction false} UnrankIsCombination<T>(s: seq<T>, k: nat, i: nat)
    requires i < Comb(|s|, k)
    ensures Unrank(s, k, i) == Combinations(s, k)[i]
    decreases |s|
  {
    if k == 0 {
      assert Combinations(s, 0) == [[]] && i == 0;
      assert Unrank(s, k, i) == [] == Combinations(s, k)[i];
    } else {
      CombPositive(|s|, k);
      var t := s[1..];
      assert |t| == |s| - 1;
      if i < Comb(|t|, k - 1) {
        UnrankIsCombination(t, k - 1, i);
        UnrankTakes(s, k, i);
      } else {
        UnrankIsCombination(t, k, i - Comb(|t|, k - 1));
        UnrankSkips(s, k, i);
      }
    }
  }

  /** The first C(|s| - 1, k - 1) combinations take s[0]. */
  lemma UnrankTakes<T>(s: seq<T>, k: nat, i: nat)
    requires 1 <= k <= |s| && i < Comb(|s| - 1, k - 1) && i < Comb(|s|, k)
    requires Unrank(s[1..], k - 1, i) == Combinations(s[1..], k - 1)[i]
    ensures Unrank(s, k, i) == Combinations(s, k)[i]
  {
    UnrankFirst(s, k, i);
    CombinationAt(s, k, i);
  }

  /** The others skip it: they are the combinations of s[1..]. */
  lemma UnrankSkips<T>(s: seq<T>, k: nat, i: nat)
    requires 1 <= k <= |s| && Comb(|s| - 1, k - 1) <= i < Comb(|s|, k)
    requires Unrank(s[1..], k, i - Comb(|s| - 1, k - 1)) == Combinations(s[1..], k)[i - Comb(|s| - 1, k - 1)]
    ensures Unrank(s, k, i) == Combinations(s, k)[i]
  {
    UnrankFirst(s, k, i);
    CombinationAt(s, k, i);
  }

  /** One unfolding of Unrank. */
  lemma UnrankFirst<T>(s: seq<T>, k: nat, i: nat)
    requires 1 <= k && s != []
    ensures i < Comb(|s| - 1, k - 1) ==> Unrank(s, k, i) == [s[0]] + Unrank(s[1..], k - 1, i)
    ensures i >= Comb(|s| - 1, k - 1) ==> Unrank(s, k, i) == Unrank(s[1..], k, i - Comb(|s| - 1, k - 1))
  {
  }

  /** The loop's progress: result followed by the index-th k-combination of
      the last m elements of the pool is the combination sought. */
  ghost predicate Tracks<T>(pool: seq<T>, m: nat, k: nat, i: int, result: seq<T>, target: seq<T>) {
    m <= |pool| && 0 <= i < Comb(m, k) && result + Unrank(pool[|pool| - m..], k, i) == target
  }

  /** One pass of the outer loop before its inner loop: the count becomes
      C(n - 1, r - 1), the number of combinations of the same n elements that
      take the first of them. */
  lemma OuterStep<T>(pool: seq<T>, n: nat, k: nat, i: int, c: nat, result: seq<T>, target: seq<T>)
    requires 1 <= k && c == Comb(n, k) && Tracks(pool, n, k, i, result, target)
    ensures 1 <= n && k <= n
  {
    CombPositive(n, k);
  }

  /** One pass of the inner loop, where m == n + 1 elements are left and
      q == r + 1 still to pick: past the C(n, r) combinations that take the
      first of the m elements, the combination sought is among those of the
      last n elements. */
  lemma InnerStep<T>(pool: seq<T>, m: nat, q: nat, n: nat, k: nat, i: int, c: nat, result: seq<T>, target: seq<T>)
    requires m == n + 1 && q == k + 1
    requires c == Comb(n, k) && c <= i && Tracks(pool, m, q, i, result, target)
    ensures 1 <= n && k < n
    ensures Tracks(pool, n, q, i - c, result, target)
  {
    assert Comb(n + 1, k + 1) == c + Comb(n, k + 1);
    CombPositive(n, k + 1);
    var s := pool[|pool| - m..];
    assert |s| == m;
    assert s[1..] == pool[|pool| - n..];
    assert Unrank(s, q, i) == Unrank(s[1..], q, i - c);
  }

  /** Among the first C(n, r) combinations of the last m == n + 1 elements,
      the first of those elements is the next one of the result. */
  lemma TakeFirst<T>(pool: seq<T>, m: nat, q: nat, n: nat, k: nat, i: int, c: nat, result: seq<T>, x: T, target: seq<T>)
    requires m == n + 1 && q == k + 1
    requires c == Comb(n, k) && i < c && Tracks(pool, m, q, i, result, target)
    requires n < |pool| && x == pool[|pool| - 1 - n]
    ensures Tracks(pool, n, k, i, result + [x], target)
  {
    var s := pool[|pool| - m..];
    assert |s| == m;
    assert s[1..] == pool[|pool| - n..] && s[0] == x;
    assert Unrank(s, q, i) == [x] + Unrank(s[1..], k, i);
    assert result + ([x] + Unrank(s[1..], k, i)) == result + [x] + Unrank(s[1..], k, i);
  }

  /** With nothing left to pick the result is the combination sought. */
  lemma TracksDone<T>(pool: seq<T>, n: nat, i: int, result: seq<T>, target: seq<T>)
    requires Tracks(pool, n, 0, i, result, target)
    ensures result == target
  {
    assert Unrank(pool[|pool| - n..], 0, i) == [];
  }

  /** nth_combination(pool, r, index) == list(combinations(pool, r))[index]:
      a negative index counts from the end; an index outside the
      combinations raises IndexError; a negative r raises ValueError in
      math.comb. */
  method NthCombination<T>(pool: seq<T>, r: int, index: int) returns (res: Result<seq<T>>)
    ensures r < 0 ==> res == Err(NegativeCount)
    ensures r >= 0 ==>
      var c := Comb(|pool|, r);
      var i := Wrapped(index, c);
      && (0 <= i < c ==> res == Ok(Combinations(pool, r)[i]))
      && (!(0 <= i < c) ==> res == Err(IndexOutOfRange))
  {
    if r < 0 {
      return Err(NegativeCount);
    }
    var c := Comb(|pool|, r);
    var i := index;
    if i < 0 {
      i := i + c;
    }
    if i < 0 || i >= c {
      return Err(IndexOutOfRange);
    }
    var result := PickCombination(pool, r, i, c);
    UnrankIsCombination(pool, r, i);
    return Ok(result);
  }

  /** The loops of nth_combination, from c == C(len(pool), r) and an index
      in range: one element of the result per pass of the outer loop. */
  method PickCombination<T>(pool: seq<T>, r: nat, index: nat, c0: nat) returns (result: seq<T>)
    requires c0 == Comb(|pool|, r) && index < c0
    ensures result == Unrank(pool, r, index)
  {
    var N := |pool|;
    var n: nat, k: nat, c: nat, i: int := N, r, c0, index;
    assert pool[N - n..] == pool;
    ghost var target := Unrank(pool, r, i);
    result := [];
    while k != 0
      invariant n <= N && c == Comb(n, k) && Tracks(pool, n, k, i, result, target)
      decreases k
    {
      OuterStep(pool, n, k, i, c, result, target);
      ghost var m, q := n, k;
      c := Narrowed(c, n, k);
      n, k := n - 1, k - 1;
      while i >= c
        invariant m == n + 1 && q == k + 1
        invariant c == Comb(n, k) && Tracks(pool, m, q, i, result, target)
        decreases n
      {
        InnerStep(pool, m, q, n, k, i, c, result, target);
        i := i - c;
        m := n;
        c := Skipped(c, n, k);
        n := n - 1;
      }
      var x := pool[N - 1 - n];
      TakeFirst(pool, m, q, n, k, i, c, result, x, target);
      result := result + [x];
    }
    TracksDone(pool, n, i, result, target);
  }

  /** The unranked combination has r elements taken from strictly
      increasing positions of the pool. */
  lemma NthCombinationShape<T>(pool: seq<T>, r: nat, i: nat)
    requires i < Comb(|pool|, r)
    ensures |Combinations(pool, r)[i]| == r
    ensures Subsequence(Combinations(pool, r)[i], pool)
  {
    CombinationShape(pool, r, i);
  }
}
