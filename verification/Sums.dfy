/** Finite sums over 0..n, and the few facts about cardinalities that counting paths needs. */
module Sums {
  import opened Sequences

  ghost function Sum(n: nat, f: nat -> real): real {
    if n == 0 then 0.0 else Sum(n - 1, f) + f(n - 1)
  }

  ghost function SumNat(n: nat, f: nat -> nat): nat {
    if n == 0 then 0 else SumNat(n - 1, f) + f(n - 1)
  }

  lemma {:induction false} SumEq(n: nat, f: nat -> real, h: nat -> real)
    requires forall i: nat :: i < n ==> f(i) == h(i)
    ensures Sum(n, f) == Sum(n, h)
  {
    if n > 0 {
      SumEq(n - 1, f, h);
    }
  }

  lemma {:induction false} SumZero(n: nat, f: nat -> real)
    requires forall i: nat :: i < n ==> f(i) == 0.0
    ensures Sum(n, f) == 0.0
  {
    if n > 0 {
      SumZero(n - 1, f);
    }
  }

  lemma {:induction false} SumPlus(n: nat, f: nat -> real, h: nat -> real, total: nat -> real)
    requires forall i: nat :: i < n ==> total(i) == f(i) + h(i)
    ensures Sum(n, total) == Sum(n, f) + Sum(n, h)
  {
    if n > 0 {
      SumPlus(n - 1, f, h, total);
    }
  }

  lemma {:induction false} SumScale(n: nat, c: real, f: nat -> real, scaled: nat -> real)
    requires forall i: nat :: i < n ==> scaled(i) == c * f(i)
    ensures Sum(n, scaled) == c * Sum(n, f)
  {
    if n > 0 {
      SumScale(n - 1, c, f, scaled);
      assert c * Sum(n, f) == c * Sum(n - 1, f) + c * f(n - 1);
    }
  }

  /** Two summands that differ at one index only. */
  lemma {:induction false} SumUpdate(n: nat, k: nat, f: nat -> real, h: nat -> real)
    requires k < n
    requires forall i: nat :: i < n && i != k ==> f(i) == h(i)
    ensures Sum(n, h) == Sum(n, f) - f(k) + h(k)
  {
    if k == n - 1 {
      SumEq(n - 1, f, h);
    } else {
      SumUpdate(n - 1, k, f, h);
    }
  }

  ghost function RowSum(f: (nat, nat) -> real, m: nat, i: nat): real {
    Sum(m, (j: nat) => f(i, j))
  }

  ghost function ColumnSum(f: (nat, nat) -> real, n: nat, j: nat): real {
    Sum(n, (i: nat) => f(i, j))
  }

  /** Exchanging the order of a double sum. */
  lemma {:induction false} SumSwap(n: nat, m: nat, f: (nat, nat) -> real)
    ensures Sum(n, (i: nat) => RowSum(f, m, i)) == Sum(m, (j: nat) => ColumnSum(f, n, j))
  {
    if n == 0 {
      SumZero(m, (j: nat) => ColumnSum(f, n, j));
    } else {
      SumSwap(n - 1, m, f);
      SumPlus(m, (j: nat) => ColumnSum(f, n - 1, j), (j: nat) => f(n - 1, j), (j: nat) => ColumnSum(f, n, j));
    }
  }

  /** A sum of natural numbers is the same sum of reals. */
  lemma {:induction false} SumOfNats(n: nat, f: nat -> nat, h: nat -> real)
    requires forall i: nat :: i < n ==> h(i) == f(i) as real
    ensures Sum(n, h) == SumNat(n, f) as real
  {
    if n > 0 {
      SumOfNats(n - 1, f, h);
    }
  }

  lemma {:induction false} SumNatZero(n: nat, f: nat -> nat)
    requires forall i: nat :: i < n ==> f(i) == 0
    ensures SumNat(n, f) == 0
  {
    if n > 0 {
      SumNatZero(n - 1, f);
    }
  }

  lemma {:induction false} SumNatPlus(n: nat, f: nat -> nat, h: nat -> nat, total: nat -> nat)
    requires forall i: nat :: i < n ==> total(i) == f(i) + h(i)
    ensures SumNat(n, total) == SumNat(n, f) + SumNat(n, h)
  {
    if n > 0 {
      SumNatPlus(n - 1, f, h, total);
    }
  }

  lemma {:induction false} SumNatMonotone(n: nat, f: nat -> nat, h: nat -> nat)
    requires forall i: nat :: i < n ==> f(i) <= h(i)
    ensures SumNat(n, f) <= SumNat(n, h)
  {
    if n > 0 {
      SumNatMonotone(n - 1, f, h);
    }
  }

  lemma SumNatOfZeros(n: nat)
    ensures SumNat(n, (w: nat) => 0) == 0
  {
    SumNatZero(n, (w: nat) => 0);
  }

  lemma {:induction false} SumNatUpdate(n: nat, k: nat, f: nat -> nat, h: nat -> nat)
    requires k < n
    requires forall i: nat :: i < n && i != k ==> f(i) == h(i)
    ensures SumNat(n, h) + f(k) == SumNat(n, f) + h(k)
  {
    if k == n - 1 {
      SumNatEq(n - 1, f, h);
    } else {
      SumNatUpdate(n - 1, k, f, h);
    }
  }

  lemma {:induction false} SumNatEq(n: nat, f: nat -> nat, h: nat -> nat)
    requires forall i: nat :: i < n ==> f(i) == h(i)
    ensures SumNat(n, f) == SumNat(n, h)
  {
    if n > 0 {
      SumNatEq(n - 1, f, h);
    }
  }

  // ---- cardinalities ----

  lemma SubsetSize<T>(a: set<T>, b: set<T>)
    requires a <= b
    ensures |a| <= |b| && (a != b ==> |a| < |b|)
  {
    assert b == a + (b - a);
    if a != b {
      var x :| x in b - a;
      assert |b - a| > 0;
    }
  }

  lemma {:induction false} BoundedSetCardinality(s: set<nat>, n: nat)
    requires forall x :: x in s ==> x < n
    ensures |s| <= n
  {
    if n == 0 {
      assert s == {};
    } else {
      BoundedSetCardinality(s - {n - 1}, n - 1);
      if n - 1 in s {
        assert s == (s - {n - 1}) + {n - 1};
      } else {
        assert s == s - {n - 1};
      }
    }
  }

  lemma NoDupLength(s: seq<nat>, n: nat)
    requires NoDup(s) && forall i :: 0 <= i < |s| ==> s[i] < n
    ensures |s| <= n
  {
    NoDupCardinality(s);
    BoundedSetCardinality(Elems(s), n);
  }

  // ---- cardinalities of images and products of path sets ----

  /** Prepending the same head to every member does not change how many there are. */
  lemma {:induction false} PrependCardinality(h: seq<nat>, s: set<seq<nat>>)
    ensures |set p | p in s :: h + p| == |s|
  {
    if s == {} {
      assert (set p | p in s :: h + p) == {};
    } else {
      var q :| q in s;
      var rest := s - {q};
      PrependCardinality(h, rest);
      assert (set p | p in s :: h + p) == (set p | p in rest :: h + p) + {h + q};
      forall p | p in rest ensures h + p != h + q {
        assert (h + p)[|h|..] == p && (h + q)[|h|..] == q;
      }
    }
  }

  lemma {:induction false} AppendCardinality(s: set<seq<nat>>, t: seq<nat>)
    ensures |set p | p in s :: p + t| == |s|
  {
    if s == {} {
      assert (set p | p in s :: p + t) == {};
    } else {
      var q :| q in s;
      var rest := s - {q};
      AppendCardinality(rest, t);
      assert (set p | p in s :: p + t) == (set p | p in rest :: p + t) + {q + t};
      forall p | p in rest ensures p + t != q + t {
        assert |p + t| == |q + t| ==> (p + t)[..|p|] == p && (q + t)[..|p|] == q;
      }
    }
  }

  ghost function Concatenations(heads: set<seq<nat>>, tails: set<seq<nat>>): set<seq<nat>> {
    set p, q | p in heads && q in tails :: p + q
  }

  lemma ConcatenationsSplit(heads: set<seq<nat>>, h: seq<nat>, tails: set<seq<nat>>, k: nat)
    requires forall p :: p in heads ==> |p| == k
    requires |h| == k && h !in heads
    ensures Concatenations(heads + {h}, tails) == Concatenations(heads, tails) + set q | q in tails :: h + q
    ensures Concatenations(heads, tails) !! set q | q in tails :: h + q
  {
    forall p, q, r | p in heads && q in tails && r in tails ensures p + q != h + r {
      assert (p + q)[..k] == p && (h + r)[..k] == h;
    }
  }

  lemma ConcatenationsStep(heads: set<seq<nat>>, h: seq<nat>, tails: set<seq<nat>>, k: nat)
    requires forall p :: p in heads ==> |p| == k
    requires |h| == k && h !in heads
    ensures |Concatenations(heads + {h}, tails)| == |Concatenations(heads, tails)| + |tails|
  {
    ConcatenationsSplit(heads, h, tails, k);
    PrependCardinality(h, tails);
  }

  /** Concatenations of a fixed-length head with a tail are as many as the pairs. */
  lemma {:induction false} ProductCardinality(heads: set<seq<nat>>, tails: set<seq<nat>>, k: nat)
    requires forall p :: p in heads ==> |p| == k
    ensures |Concatenations(heads, tails)| == |heads| * |tails|
  {
    if heads == {} {
      assert Concatenations(heads, tails) == {};
    } else {
      var h :| h in heads;
      var rest := heads - {h};
      var a, b := |rest|, |tails|;
      assert |Concatenations(rest, tails)| == a * b by { ProductCardinality(rest, tails, k); }
      assert |Concatenations(heads, tails)| == |Concatenations(rest, tails)| + b by {
        ConcatenationsStep(rest, h, tails, k);
        assert heads == rest + {h};
      }
      assert |heads| == a + 1;
      ProductStep(a, b);
    }
  }

  // ---- families of sequences indexed by their first or by their last member ----

  lemma ProductStep(a: nat, b: int)
    ensures (a + 1) * b == a * b + b
  {
  }

  ghost function Prepended(u: nat, tails: nat -> set<seq<nat>>, m: nat): set<seq<nat>> {
    set w: nat, p | w < m && p in tails(w) :: [u] + p
  }

  ghost function Appended(heads: nat -> set<seq<nat>>, v: nat, m: nat): set<seq<nat>> {
    set w: nat, p | w < m && p in heads(w) :: p + [v]
  }

  lemma DisjointUnionCardinality<T>(a: set<T>, b: set<T>, all: set<T>)
    requires a !! b && all == a + b
    ensures |all| == |a| + |b|
  {
  }

  lemma PrependedSplit(u: nat, tails: nat -> set<seq<nat>>, m: nat, mine: set<seq<nat>>)
    requires mine == set p | p in tails(m) :: [u] + p
    requires forall w: nat, p :: p in tails(w) ==> |p| > 0 && p[0] == w
    ensures Prepended(u, tails, m + 1) == Prepended(u, tails, m) + mine
    ensures Prepended(u, tails, m) !! mine
  {
    forall x | x in Prepended(u, tails, m + 1) ensures x in Prepended(u, tails, m) + mine {
      var w: nat, p :| w < m + 1 && p in tails(w) && x == [u] + p;
    }
    forall x | x in Prepended(u, tails, m) ensures x !in mine {
      var w: nat, p :| w < m && p in tails(w) && x == [u] + p;
      assert x[1] == w;
    }
  }

  lemma PrependedStep(u: nat, tails: nat -> set<seq<nat>>, m: nat)
    requires forall w: nat, p :: p in tails(w) ==> |p| > 0 && p[0] == w
    ensures |Prepended(u, tails, m + 1)| == |Prepended(u, tails, m)| + |tails(m)|
  {
    hide Prepended;
    var mine := set p | p in tails(m) :: [u] + p;
    PrependedSplit(u, tails, m, mine);
    PrependCardinality([u], tails(m));
    DisjointUnionCardinality(Prepended(u, tails, m), mine, Prepended(u, tails, m + 1));
  }

  lemma {:induction false} PrependedCount(u: nat, tails: nat -> set<seq<nat>>, m: nat)
    requires forall w: nat, p :: p in tails(w) ==> |p| > 0 && p[0] == w
    ensures |Prepended(u, tails, m)| == SumNat(m, (w: nat) => |tails(w)|)
  {
    if m == 0 {
      assert Prepended(u, tails, m) == {};
    } else {
      PrependedCount(u, tails, m - 1);
      PrependedStep(u, tails, m - 1);
    }
  }

  lemma AppendedSplit(heads: nat -> set<seq<nat>>, v: nat, m: nat, mine: set<seq<nat>>)
    requires mine == set p | p in heads(m) :: p + [v]
    requires forall w: nat, p :: p in heads(w) ==> |p| > 0 && p[|p| - 1] == w
    ensures Appended(heads, v, m + 1) == Appended(heads, v, m) + mine
    ensures Appended(heads, v, m) !! mine
  {
    forall x | x in Appended(heads, v, m + 1) ensures x in Appended(heads, v, m) + mine {
      var w: nat, p :| w < m + 1 && p in heads(w) && x == p + [v];
    }
    forall x | x in Appended(heads, v, m) ensures x !in mine {
      var w: nat, p :| w < m && p in heads(w) && x == p + [v];
      assert x[|x| - 2] == w;
    }
  }

  lemma AppendedStep(heads: nat -> set<seq<nat>>, v: nat, m: nat)
    requires forall w: nat, p :: p in heads(w) ==> |p| > 0 && p[|p| - 1] == w
    ensures |Appended(heads, v, m + 1)| == |Appended(heads, v, m)| + |heads(m)|
  {
    hide Appended;
    var mine := set p | p in heads(m) :: p + [v];
    AppendedSplit(heads, v, m, mine);
    AppendCardinality(heads(m), [v]);
    DisjointUnionCardinality(Appended(heads, v, m), mine, Appended(heads, v, m + 1));
  }

  lemma {:induction false} AppendedCount(heads: nat -> set<seq<nat>>, v: nat, m: nat)
    requires forall w: nat, p :: p in heads(w) ==> |p| > 0 && p[|p| - 1] == w
    ensures |Appended(heads, v, m)| == SumNat(m, (w: nat) => |heads(w)|)
  {
    if m == 0 {
      assert Appended(heads, v, m) == {};
    } else {
      AppendedCount(heads, v, m - 1);
      AppendedStep(heads, v, m - 1);
    }
  }

  /** How many i below n satisfy a predicate given by its characteristic function. */
  ghost function Indicator(b: bool): nat {
    if b then 1 else 0
  }

  /** Counting the members of a set of numbers below n one index at a time. */
  lemma {:induction false} SumIndicator(n: nat, s: set<nat>)
    ensures SumNat(n, i => Indicator(i in s)) == |set i: nat | i < n && i in s|
  {
    if n == 0 {
      assert (set i: nat | i < n && i in s) == {};
    } else {
      SumIndicator(n - 1, s);
      var before := set i: nat | i < n - 1 && i in s;
      var now := set i: nat | i < n && i in s;
      if n - 1 in s {
        assert now == before + {n - 1};
      } else {
        assert now == before;
      }
    }
  }
}
