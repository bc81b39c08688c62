/// Reference definitions of the Python library functions the helpers are
/// built on: math.comb, itertools.combinations and itertools.product, each
/// with the facts about it that the helpers' proofs use.
module Itertools {

  // ---------------------------------------------------------------------
  // math.comb
  // ---------------------------------------------------------------------

  /** math.comb(n, r): the binomial coefficient, by Pascal's rule. */
  function Comb(n: nat, r: nat): nat
    decreases n
  {
    if r == 0 then 1
    else if n == 0 then 0
    else Comb(n - 1, r - 1) + Comb(n - 1, r)
  }

  /** math.comb(n, r) is 0 exactly when r > n. */
  lemma {:induction false} CombPositive(n: nat, r: nat)
    ensures Comb(n, r) > 0 <==> r <= n
    decreases n
  {
    if r != 0 && n != 0 {
      CombPositive(n - 1, r - 1);
      CombPositive(n - 1, r);
    }
  }

  lemma {:induction false} CombOne(n: nat)
    ensures Comb(n, 1) == n
  {
    if n != 0 {
      CombOne(n - 1);
    }
  }

  /** The arithmetic step of the absorption identity's induction. */
  lemma AbsorbStep(n: int, r: int, a: int, b: int, d: int, e: int)
    requires a == d + e && r * b == (n - 1) * e && (r - 1) * a == (n - 1) * d
    ensures r * (a + b) == n * a
  {
    calc {
      r * (a + b);
      r * a + r * b;
      a + (r - 1) * a + r * b;
      a + (n - 1) * d + (n - 1) * e;
      a + (n - 1) * (d + e);
      n * a;
    }
  }

  /** Absorption: r * C(n, r) == n * C(n - 1, r - 1), which makes the
      division c * r // n of nth_combination exact. */
  lemma {:induction false} CombAbsorb(n: nat, r: nat)
    requires 1 <= n && 1 <= r
    ensures r * Comb(n, r) == n * Comb(n - 1, r - 1)
    decreases n
  {
    if r == 1 {
      CombOne(n);
    } else if n == 1 {
      assert Comb(1, r) == Comb(0, r - 1) + Comb(0, r) == 0;
    } else {
      CombAbsorb(n - 1, r);
      CombAbsorb(n - 1, r - 1);
      assert Comb(n, r) == Comb(n - 1, r - 1) + Comb(n - 1, r);
      assert Comb(n - 1, r - 1) == Comb(n - 2, r - 2) + Comb(n - 2, r - 1);
      AbsorbStep(n, r, Comb(n - 1, r - 1), Comb(n - 1, r), Comb(n - 2, r - 2), Comb(n - 2, r - 1));
    }
  }

  /** The arithmetic step of the second absorption identity. */
  lemma AbsorbRestStep(n: int, r: int, c: int, a: int, b: int)
    requires c == a + b && r * c == n * a
    ensures (n - r) * c == n * b
  {
    calc {
      (n - r) * c;
      n * c - r * c;
      n * (a + b) - n * a;
      n * b;
    }
  }

  /** The second absorption: (n - r) * C(n, r) == n * C(n - 1, r), which
      makes the division c * (n - r) // n of nth_combination exact. */
  lemma CombAbsorbRest(n: nat, r: nat)
    requires 1 <= n && r <= n
    ensures (n - r) * Comb(n, r) == n * Comb(n - 1, r)
  {
    if r != 0 {
      CombAbsorb(n, r);
      AbsorbRestStep(n, r, Comb(n, r), Comb(n - 1, r - 1), Comb(n - 1, r));
    }
  }

  // ---------------------------------------------------------------------
  // itertools.combinations
  // ---------------------------------------------------------------------

  /** [[x] + t for t in ts] */
  function Cons<T>(x: T, ts: seq<seq<T>>): (us: seq<seq<T>>)
    ensures |us| == |ts|
    ensures forall i :: 0 <= i < |ts| ==> us[i] == [x] + ts[i]
  {
    seq(|ts|, i requires 0 <= i < |ts| => [x] + ts[i])
  }

  /** list(itertools.combinations(s, r)): every r-element selection of s in
      lexicographic order of positions, those taking s[0] first. */
  function Combinations<T>(s: seq<T>, r: nat): (cs: seq<seq<T>>)
    ensures |cs| == Comb(|s|, r)
    decreases |s|
  {
    if r == 0 then [[]]
    else if s == [] then []
    else Cons(s[0], Combinations(s[1..], r - 1)) + Combinations(s[1..], r)
  }

  /** Where the index-th combination of s comes from: those taking s[0] come
      first, then those of s[1..]. */
  lemma CombinationAt<T>(s: seq<T>, r: nat, i: nat)
    requires 1 <= r && 1 <= |s| && i < Comb(|s|, r)
    ensures i < Comb(|s| - 1, r - 1) ==> Combinations(s, r)[i] == [s[0]] + Combinations(s[1..], r - 1)[i]
    ensures i >= Comb(|s| - 1, r - 1) ==> Combinations(s, r)[i] == Combinations(s[1..], r)[i - Comb(|s| - 1, r - 1)]
  {
    var taking := Cons(s[0], Combinations(s[1..], r - 1));
    assert Combinations(s, r) == taking + Combinations(s[1..], r);
    assert |taking| == Comb(|s| - 1, r - 1);
  }

  /** t picks its elements from s at strictly increasing positions. */
  ghost predicate Subsequence<T>(t: seq<T>, s: seq<T>)
    decreases |s|
  {
    if t == [] then true
    else if s == [] then false
    else (t[0] == s[0] && Subsequence(t[1..], s[1..])) || Subsequence(t, s[1..])
  }

  /** Every r-combination has r elements taken from increasing positions. */
  lemma {:induction false} CombinationShape<T>(s: seq<T>, r: nat, i: nat)
    requires i < |Combinations(s, r)|
    ensures |Combinations(s, r)[i]| == r
    ensures Subsequence(Combinations(s, r)[i], s)
    decreases |s|
  {
    if r == 0 {
      assert Combinations(s, 0) == [[]];
    } else {
      CombPositive(|s|, r);
      var t := s[1..];
      assert |t| == |s| - 1;
      if i < Comb(|s| - 1, r - 1) {
        CombinationShape(t, r - 1, i);
        ShapeTakes(s, r, i);
      } else {
        CombinationShape(t, r, i - Comb(|s| - 1, r - 1));
        ShapeSkips(s, r, i);
      }
    }
  }

  /** A combination taking s[0] is s[0] before one of s[1..]. */
  lemma ShapeTakes<T>(s: seq<T>, r: nat, i: nat)
    requires 1 <= r <= |s| && i < Comb(|s| - 1, r - 1) && i < Comb(|s|, r)
    requires |Combinations(s[1..], r - 1)[i]| == r - 1
    requires Subsequence(Combinations(s[1..], r - 1)[i], s[1..])
    ensures |Combinations(s, r)[i]| == r
    ensures Subsequence(Combinations(s, r)[i], s)
  {
    CombinationAt(s, r, i);
    var t := Combinations(s, r)[i];
    assert t[0] == s[0] && t[1..] == Combinations(s[1..], r - 1)[i];
  }

  /** A combination skipping s[0] is one of s[1..]. */
  lemma ShapeSkips<T>(s: seq<T>, r: nat, i: nat)
    requires 1 <= r <= |s| && Comb(|s| - 1, r - 1) <= i < Comb(|s|, r)
    requires |Combinations(s[1..], r)[i - Comb(|s| - 1, r - 1)]| == r
    requires Subsequence(Combinations(s[1..], r)[i - Comb(|s| - 1, r - 1)], s[1..])
    ensures |Combinations(s, r)[i]| == r
    ensures Subsequence(Combinations(s, r)[i], s)
  {
    CombinationAt(s, r, i);
    SubsequenceOfTail(Combinations(s, r)[i], s);
  }

  lemma SubsequenceOfTail<T>(t: seq<T>, s: seq<T>)
    requires s != [] && Subsequence(t, s[1..])
    ensures Subsequence(t, s)
  {
  }

  /** The 1-combinations are the single elements, in order. */
  lemma {:induction false} CombinationsOfOne<T>(s: seq<T>)
    ensures Combinations(s, 1) == seq(|s|, i requires 0 <= i < |s| => [s[i]])
    decreases |s|
  {
    CombOne(|s|);
    if s != [] {
      CombinationsOfOne(s[1..]);
      var l := Combinations(s, 1);
      var head := Cons(s[0], Combinations(s[1..], 0));
      assert l == head + Combinations(s[1..], 1);
      forall i | 0 <= i < |s| ensures l[i] == [s[i]] {
        if i == 0 {
          assert l[0] == head[0] == [s[0]] + [];
        } else {
          assert l[i] == Combinations(s[1..], 1)[i - 1] == [s[1..][i - 1]];
        }
      }
    }
  }

  /** The selections from two elements. */
  lemma PairsOfTwo<T>(c: T, d: T)
    ensures Combinations([c, d], 1) == [[c], [d]]
    ensures Combinations([c, d], 2) == [[c, d]]
  {
    var e: seq<T> := [];
    assert [d][1..] == e && [c, d][1..] == [d];
    assert Combinations(e, 0) == [[]] && Combinations(e, 1) == [] && Combinations(e, 2) == [];
    var d0, d1, d2 := Combinations([d], 0), Combinations([d], 1), Combinations([d], 2);
    assert d0 == [[]];
    assert d1 == Cons(d, [[]]) + [];
    assert [d] + [] == [d];
    assert Cons(d, [[]]) == [[d]];
    assert d2 == Cons(d, []) + [];
    assert Combinations([c, d], 1) == Cons(c, d0) + d1;
    assert [c] + [] == [c];
    assert Cons(c, [[]]) == [[c]];
    assert Combinations([c, d], 2) == Cons(c, d1) + d2;
    assert [c] + [d] == [c, d];
    assert Cons(c, [[d]]) == [[c, d]];
  }

  /** The selections from three elements, in order. */
  lemma PairsOfThree<T>(b: T, c: T, d: T)
    ensures Combinations([b, c, d], 1) == [[b], [c], [d]]
    ensures Combinations([b, c, d], 2) == [[b, c], [b, d], [c, d]]
  {
    var s := [b, c, d];
    assert s[1..] == [c, d];
    PairsOfTwo(c, d);
    assert Combinations(s, 0) == [[]];
    assert Combinations(s, 1) == Cons(b, [[]]) + [[c], [d]];
    assert [b] + [] == [b];
    assert Cons(b, [[]]) == [[b]];
    assert Combinations(s, 2) == Cons(b, [[c], [d]]) + [[c, d]];
    assert [b] + [c] == [b, c] && [b] + [d] == [b, d];
    assert Cons(b, [[c], [d]]) == [[b, c], [b, d]];
  }

  /** The order of the Python documentation, for any four elements:
      combinations('ABCD', 2) gives AB AC AD BC BD CD. */
  lemma PairsOfFour<T>(a: T, b: T, c: T, d: T)
    ensures Combinations([a, b, c, d], 2) == [[a, b], [a, c], [a, d], [b, c], [b, d], [c, d]]
  {
    var s := [a, b, c, d];
    assert s[1..] == [b, c, d];
    PairsOfThree(b, c, d);
    assert Combinations(s, 2) == Cons(a, [[b], [c], [d]]) + [[b, c], [b, d], [c, d]];
    assert [a] + [b] == [a, b] && [a] + [c] == [a, c] && [a] + [d] == [a, d];
    assert Cons(a, [[b], [c], [d]]) == [[a, b], [a, c], [a, d]];
  }

  // ---------------------------------------------------------------------
  // itertools.product(chars, repeat=n), joined into strings
  // ---------------------------------------------------------------------

  /** [[c] + w for c in chars for w in ws]: the first character varies
      slowest. */
  function PrefixEach(chars: string, ws: seq<string>): (us: seq<string>)
    ensures |us| == |chars| * |ws|
    decreases |chars|
  {
    if chars == [] then []
    else Cons(chars[0], ws) + PrefixEach(chars[1..], ws)
  }

  /** map("".join, product(chars, repeat=n)): every string of length n over
      chars, in odometer order. */
  function Product(chars: string, n: nat): seq<string>
    decreases n
  {
    if n == 0 then [""] else PrefixEach(chars, Product(chars, n - 1))
  }

  /** |chars| ** n */
  function Pow(x: nat, n: nat): nat {
    if n == 0 then 1 else x * Pow(x, n - 1)
  }

  /** The product has |chars| ** n strings. */
  lemma {:induction false} ProductLength(chars: string, n: nat)
    ensures |Product(chars, n)| == Pow(|chars|, n)
  {
    if n != 0 {
      ProductLength(chars, n - 1);
    }
  }

  /** Every string of s has length n and only characters of chars. */
  ghost predicate WordsOver(s: seq<string>, chars: string, n: nat) {
    forall i :: 0 <= i < |s| ==> |s[i]| == n && forall j :: 0 <= j < n ==> s[i][j] in chars
  }

  lemma {:induction false} PrefixEachOver(chars: string, sub: string, ws: seq<string>, n: nat)
    requires WordsOver(ws, sub, n) && forall c :: c in chars ==> c in sub
    ensures WordsOver(PrefixEach(chars, ws), sub, n + 1)
    decreases |chars|
  {
    if chars != [] {
      PrefixEachOver(chars[1..], sub, ws, n);
      var us := Cons(chars[0], ws);
      forall i | 0 <= i < |us| ensures |us[i]| == n + 1 && forall j :: 0 <= j < n + 1 ==> us[i][j] in sub {
        forall j | 0 <= j < n + 1 ensures us[i][j] in sub {
          if j > 0 {
            assert us[i][j] == ws[i][j - 1];
          }
        }
      }
    }
  }

  /** Every generated string has length n and is spelled from chars. */
  lemma {:induction false} ProductSound(chars: string, n: nat)
    ensures WordsOver(Product(chars, n), chars, n)
  {
    if n != 0 {
      ProductSound(chars, n - 1);
      PrefixEachOver(chars, chars, Product(chars, n - 1), n - 1);
    }
  }

  lemma {:induction false} PrefixEachHas(chars: string, ws: seq<string>, w: string)
    requires |w| >= 1 && w[0] in chars && w[1..] in ws
    ensures w in PrefixEach(chars, ws)
    decreases |chars|
  {
    if chars[0] == w[0] {
      var i :| 0 <= i < |ws| && ws[i] == w[1..];
      assert Cons(chars[0], ws)[i] == w;
    } else {
      PrefixEachHas(chars[1..], ws, w);
    }
  }

  /** Every string of length n over chars is generated. */
  lemma {:induction false} ProductComplete(chars: string, w: string)
    requires forall j :: 0 <= j < |w| ==> w[j] in chars
    ensures w in Product(chars, |w|)
    decreases |w|
  {
    if w != [] {
      ProductComplete(chars, w[1..]);
      PrefixEachHas(chars, Product(chars, |w| - 1), w);
    }
  }
}
