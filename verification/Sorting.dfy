/** Sorting by insertion, and the one list that is strictly sorted. */
module Sorting {
  import Utf8

  // `less` compares; two elements neither of which is less tie.
  ghost predicate IsOrder<T(!new)>(less: (T, T) -> bool) {
    && (forall a, b :: less(a, b) ==> !less(b, a))
    && (forall a, b, c :: !less(b, a) && !less(c, b) ==> !less(c, a))
  }

  ghost predicate IsSorted<T(!new)>(xs: seq<T>, less: (T, T) -> bool) {
    forall i, j :: 0 <= i < j < |xs| ==> !less(xs[j], xs[i])
  }

  // After every element that is not greater.
  function Insert<T>(xs: seq<T>, x: T, less: (T, T) -> bool): seq<T> {
    if xs == [] || !less(x, xs[|xs| - 1]) then xs + [x]
    else Insert(xs[..|xs| - 1], x, less) + [xs[|xs| - 1]]
  }

  lemma {:induction false} InsertHolds<T(!new)>(xs: seq<T>, x: T, less: (T, T) -> bool)
    ensures |Insert(xs, x, less)| == |xs| + 1
    ensures forall y :: y in Insert(xs, x, less) <==> y in xs || y == x
  {
    if xs != [] && less(x, xs[|xs| - 1]) {
      InsertHolds(xs[..|xs| - 1], x, less);
      assert xs == xs[..|xs| - 1] + [xs[|xs| - 1]];
    }
  }

  lemma {:induction false} InsertSorted<T(!new)>(xs: seq<T>, x: T, less: (T, T) -> bool)
    requires IsOrder(less) && IsSorted(xs, less)
    ensures IsSorted(Insert(xs, x, less), less)
  {
    if xs == [] {
    } else if less(x, xs[|xs| - 1]) {
      var front, last := xs[..|xs| - 1], xs[|xs| - 1];
      InsertSorted(front, x, less);
      InsertHolds(front, x, less);
      forall y | y in Insert(front, x, less) ensures !less(last, y) {
        if y in front {
          var i :| 0 <= i < |front| && front[i] == y;
          assert xs[i] == y;
        }
      }
    } else {
      forall i | 0 <= i < |xs| ensures !less(x, xs[i]) {
        assert !less(xs[|xs| - 1], xs[i]);
      }
    }
  }

  // ----- strictly ascending strings -----

  ghost predicate IsTotal(less: (string, string) -> bool) {
    && (forall a, b :: less(a, b) ==> !less(b, a))
    && (forall a, b :: a == b || less(a, b) || less(b, a))
    && (forall a, b, c :: less(a, b) && less(b, c) ==> less(a, c))
  }

  predicate Ascending(ks: seq<string>, less: (string, string) -> bool) {
    forall i, j :: 0 <= i < j < |ks| ==> less(ks[i], ks[j])
  }

  lemma {:induction false} InsertAscending(ks: seq<string>, k: string, less: (string, string) -> bool)
    requires IsTotal(less) && Ascending(ks, less) && k !in ks
    ensures Ascending(Insert(ks, k, less), less)
  {
    if ks != [] {
      var front, last := ks[..|ks| - 1], ks[|ks| - 1];
      if less(k, last) {
        InsertAscending(front, k, less);
        InsertHolds(front, k, less);
        forall y | y in Insert(front, k, less) ensures less(y, last) {
          if y in front {
            var i :| 0 <= i < |front| && front[i] == y;
            assert ks[i] == y;
          }
        }
      } else {
        assert less(last, k);
        forall i | 0 <= i < |ks| ensures less(ks[i], k) {
          assert ks[i] == last || less(ks[i], last);
        }
      }
    }
  }

  // A set has at most one ascending list.
  lemma {:induction false} AscendingUnique(a: seq<string>, b: seq<string>, less: (string, string) -> bool)
    requires forall x, y :: less(x, y) ==> !less(y, x)
    requires Ascending(a, less) && Ascending(b, less) && forall x :: x in a <==> x in b
    ensures a == b
  {
    assert b != [] ==> b[0] in b && b[0] in a;
    if a != [] {
      assert a[0] in b;
      assert a[0] == b[0];
      forall x ensures x in a[1..] <==> x in b[1..] {
        assert x in a[1..] <==> x in a && x != a[0];
        assert x in b[1..] <==> x in b && x != b[0];
      }
      AscendingUnique(a[1..], b[1..], less);
      assert a == [a[0]] + a[1..] && b == [b[0]] + b[1..];
    }
  }

  lemma {:induction false} LexChain(a: string, b: string, c: string)
    requires !Utf8.LexLess(b, a) && !Utf8.LexLess(c, b)
    ensures !Utf8.LexLess(c, a)
  {
    if a != [] && b != [] && c != [] && a[0] == b[0] && b[0] == c[0] {
      LexChain(a[1..], b[1..], c[1..]);
    }
  }

  lemma LexIsOrder()
    ensures IsOrder(Utf8.LexLess)
  {
    forall a, b, c | !Utf8.LexLess(b, a) && !Utf8.LexLess(c, b) ensures !Utf8.LexLess(c, a) {
      LexChain(a, b, c);
    }
    forall a, b | Utf8.LexLess(a, b) ensures !Utf8.LexLess(b, a) {
      Utf8.LexAsymmetric(a, b);
    }
  }

  lemma LexIsTotal()
    ensures IsTotal(Utf8.LexLess)
  {
    LexIsOrder();
    forall a, b ensures a == b || Utf8.LexLess(a, b) || Utf8.LexLess(b, a) {
      Utf8.LexTotal(a, b);
    }
  }
}
