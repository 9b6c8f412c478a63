/** `itertools.combinations(range(n), k)`: the k-element subsets of the
    indices 0..n-1, each as an increasing tuple, in lexicographic order. */
module Combinatorics {

  /** The binomial coefficient, by Pascal's rule. */
  function Binomial(n: nat, k: nat): nat {
    if k == 0 then 1
    else if n == 0 then 0
    else Binomial(n - 1, k - 1) + Binomial(n - 1, k)
  }

  predicate Increasing(c: seq<nat>) {
    forall a, b :: 0 <= a < b < |c| ==> c[a] < c[b]
  }

  /** c lists a k-element subset of [lo, n) in increasing order. */
  predicate IsCombination(c: seq<nat>, lo: nat, n: nat, k: nat) {
    |c| == k && Increasing(c) && forall a :: 0 <= a < |c| ==> lo <= c[a] < n
  }

  /** `x` put in front of every tuple of cs. */
  function Prepend(x: nat, cs: seq<seq<nat>>): (r: seq<seq<nat>>)
    ensures |r| == |cs|
    ensures forall a :: 0 <= a < |cs| ==> r[a] == [x] + cs[a]
  {
    seq(|cs|, a requires 0 <= a < |cs| => [x] + cs[a])
  }

  /** The k-subsets of [lo, n): those holding lo come first, then the rest. */
  function Choose(lo: nat, n: nat, k: nat): seq<seq<nat>>
    decreases n - lo
  {
    if k == 0 then [[]]
    else if lo >= n then []
    else Prepend(lo, Choose(lo + 1, n, k - 1)) + Choose(lo + 1, n, k)
  }

  /** `itertools.combinations(range(n), k)`. */
  function Combinations(n: nat, k: nat): seq<seq<nat>> {
    Choose(0, n, k)
  }

  /** There are n - lo choose k of them. */
  lemma {:induction false} ChooseCount(lo: nat, n: nat, k: nat)
    requires lo <= n
    ensures |Choose(lo, n, k)| == Binomial(n - lo, k)
    decreases n - lo
  {
    if k > 0 && lo < n {
      ChooseCount(lo + 1, n, k - 1);
      ChooseCount(lo + 1, n, k);
    }
  }

  /** Every tuple produced is a k-subset of [lo, n) in increasing order. */
  lemma {:induction false} ChooseShape(lo: nat, n: nat, k: nat)
    ensures forall c :: c in Choose(lo, n, k) ==> IsCombination(c, lo, n, k)
    decreases n - lo
  {
    if k > 0 && lo < n {
      ChooseShape(lo + 1, n, k - 1);
      ChooseShape(lo + 1, n, k);
      var starting := Prepend(lo, Choose(lo + 1, n, k - 1));
      forall c | c in starting ensures IsCombination(c, lo, n, k) {
        var a :| 0 <= a < |starting| && starting[a] == c;
        var d := Choose(lo + 1, n, k - 1)[a];
        assert c == [lo] + d;
        assert IsCombination(d, lo + 1, n, k - 1);
      }
    }
  }

  /** Every k-subset of [lo, n), listed in increasing order, is produced. */
  lemma {:induction false} ChooseComplete(lo: nat, n: nat, k: nat, c: seq<nat>)
    requires IsCombination(c, lo, n, k)
    ensures c in Choose(lo, n, k)
    decreases n - lo
  {
    if k == 0 {
      assert c == [];
    } else {
      assert lo <= c[0] < n;
      if c[0] == lo {
        var d := c[1..];
        assert IsCombination(d, lo + 1, n, k - 1) by {
          forall a | 0 <= a < |d| ensures lo + 1 <= d[a] < n {
            assert d[a] == c[a + 1];
          }
        }
        ChooseComplete(lo + 1, n, k - 1, d);
        var m :| 0 <= m < |Choose(lo + 1, n, k - 1)| && Choose(lo + 1, n, k - 1)[m] == d;
        assert [lo] + d == c;
        assert Prepend(lo, Choose(lo + 1, n, k - 1))[m] == c;
      } else {
        assert IsCombination(c, lo + 1, n, k) by {
          forall a | 0 <= a < |c| ensures lo + 1 <= c[a] {
            if a > 0 { assert c[0] < c[a]; }
          }
        }
        ChooseComplete(lo + 1, n, k, c);
      }
    }
  }

  /** No k-subset of fewer than k indices. */
  lemma {:induction false} BinomialAbove(n: nat, k: nat)
    requires k > n
    ensures Binomial(n, k) == 0
  {
    if n > 0 {
      BinomialAbove(n - 1, k - 1);
      BinomialAbove(n - 1, k);
    }
  }

  /** Exactly one n-subset of n indices. */
  lemma {:induction false} BinomialAll(n: nat)
    ensures Binomial(n, n) == 1
  {
    if n > 0 {
      BinomialAll(n - 1);
      BinomialAbove(n - 1, n);
    }
  }

  /** `combinations(range(n), k)` yields Binomial(n, k) tuples, each an increasing
      k-subset of range(n), and every such subset among them. */
  lemma CombinationsAre(n: nat, k: nat)
    ensures |Combinations(n, k)| == Binomial(n, k)
    ensures forall c :: c in Combinations(n, k) <==> IsCombination(c, 0, n, k)
  {
    ChooseCount(0, n, k);
    ChooseShape(0, n, k);
    forall c | IsCombination(c, 0, n, k) ensures c in Combinations(n, k) {
      ChooseComplete(0, n, k, c);
    }
  }

  /** x comes before y in lexicographic order. */
  predicate LexLess(x: seq<nat>, y: seq<nat>) {
    |x| > 0 && |y| > 0 && (x[0] < y[0] || (x[0] == y[0] && LexLess(x[1..], y[1..])))
  }

  /** Each tuple comes lexicographically before the next. */
  predicate LexSorted(cs: seq<seq<nat>>) {
    forall a :: 0 <= a < |cs| - 1 ==> LexLess(cs[a], cs[a + 1])
  }

  /** Consecutive tuples of Choose increase lexicographically. */
  lemma {:induction false} ChooseOrdered(lo: nat, n: nat, k: nat)
    ensures LexSorted(Choose(lo, n, k))
    decreases n - lo
  {
    if k > 0 && lo < n {
      var ws := Choose(lo + 1, n, k - 1);
      var os := Choose(lo + 1, n, k);
      var ps := Prepend(lo, ws);
      var cs := Choose(lo, n, k);
      assert cs == ps + os;
      ChooseOrdered(lo + 1, n, k - 1);
      ChooseOrdered(lo + 1, n, k);
      ChooseShape(lo + 1, n, k);
      forall a | 0 <= a < |cs| - 1 ensures LexLess(cs[a], cs[a + 1]) {
        if a + 1 < |ps| {
          assert cs[a] == [lo] + ws[a] && cs[a + 1] == [lo] + ws[a + 1];
          assert a < |ws| - 1;
          assert LexLess(ws[a], ws[a + 1]);
          assert cs[a][1..] == ws[a] && cs[a + 1][1..] == ws[a + 1];
        } else if a + 1 == |ps| {
          assert cs[a] == [lo] + ws[a] && cs[a + 1] == os[0];
          assert os[0] in os;
          assert IsCombination(os[0], lo + 1, n, k);
        } else {
          var b := a - |ps|;
          assert cs[a] == os[b] && cs[a + 1] == os[b + 1];
          assert b < |os| - 1;
          assert LexLess(os[b], os[b + 1]);
        }
      }
    }
  }

  /** `combinations` yields its tuples in lexicographic order. */
  lemma CombinationsOrdered(n: nat, k: nat)
    ensures LexSorted(Combinations(n, k))
  {
    assert Combinations(n, k) == Choose(0, n, k);
    ChooseOrdered(0, n, k);
  }

  /** More requested than available: nothing; all of them: one tuple. */
  lemma CombinationsEdge(n: nat, k: nat)
    ensures k > n ==> Combinations(n, k) == []
    ensures |Combinations(n, n)| == 1
  {
    CombinationsAre(n, k);
    CombinationsAre(n, n);
    if k > n { BinomialAbove(n, k); }
    BinomialAll(n);
  }
}
