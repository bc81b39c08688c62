/// The order Python's sorted() puts node names in: strings compared code
/// point by code point, a proper prefix first.
module Names {
  import opened Channels

  /** a < b on Python strings. */
  predicate StrLess(a: string, b: string)
    decreases |a|
  {
    if a == [] then b != []
    else if b == [] then false
    else a[0] < b[0] || (a[0] == b[0] && StrLess(a[1..], b[1..]))
  }

  lemma {:induction false} StrLessIrreflexive(a: string)
    ensures !StrLess(a, a)
    decreases |a|
  {
    if a != [] {
      StrLessIrreflexive(a[1..]);
    }
  }

  lemma {:induction false} StrLessTransitive(a: string, b: string, c: string)
    requires StrLess(a, b) && StrLess(b, c)
    ensures StrLess(a, c)
    decreases |a|
  {
    if a != [] && a[0] == b[0] && b[0] == c[0] {
      StrLessTransitive(a[1..], b[1..], c[1..]);
    }
  }

  /** Any two different strings are ordered one way or the other. */
  lemma {:induction false} StrLessTotal(a: string, b: string)
    requires a != b
    ensures StrLess(a, b) || StrLess(b, a)
    decreases |a|
  {
    if a != [] && b != [] && a[0] == b[0] {
      assert a == [a[0]] + a[1..] && b == [b[0]] + b[1..];
      StrLessTotal(a[1..], b[1..]);
    }
  }

  /** Strictly increasing, hence without repetitions. */
  predicate Ascending(s: seq<NodeId>) {
    forall i, j :: 0 <= i < j < |s| ==> StrLess(s[i], s[j])
  }

  /** m is the least name of the set. */
  predicate IsLeast(names: set<NodeId>, m: NodeId) {
    m in names && forall x :: x in names ==> !StrLess(x, m)
  }

  /** Every non-empty set of names has a least one. */
  lemma {:induction false} LeastExists(names: set<NodeId>)
    requires names != {}
    ensures exists m :: IsLeast(names, m)
    decreases |names|
  {
    var a :| a in names;
    var rest := names - {a};
    if rest == {} {
      assert names == {a};
      StrLessIrreflexive(a);
      assert IsLeast(names, a);
    } else {
      LeastExists(rest);
      var m :| IsLeast(rest, m);
      if StrLess(a, m) {
        forall x | x in names ensures !StrLess(x, a) {
          if x == a {
            StrLessIrreflexive(a);
          } else if StrLess(x, a) {
            StrLessTransitive(x, a, m);
          }
        }
        assert IsLeast(names, a);
      } else {
        assert IsLeast(names, m);
      }
    }
  }

  /** sorted(names): the names in ascending order, each once. */
  method Sorted(names: set<NodeId>) returns (s: seq<NodeId>)
    ensures Ascending(s)
    ensures forall x :: x in s <==> x in names
    ensures |s| == |names|
  {
    s := [];
    var rest := names;
    while rest != {}
      invariant rest <= names
      invariant forall x :: x in names <==> x in s || x in rest
      invariant forall x :: x in s ==> x !in rest
      invariant |s| + |rest| == |names|
      invariant Ascending(s)
      invariant forall i, y :: 0 <= i < |s| && y in rest ==> StrLess(s[i], y)
      decreases |rest|
    {
      LeastExists(rest);
      var m :| m in rest && IsLeast(rest, m);
      forall y | y in rest && y != m ensures StrLess(m, y) {
        StrLessTotal(m, y);
      }
      s := s + [m];
      rest := rest - {m};
    }
  }
}
