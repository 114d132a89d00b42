/**
 * Combinatorial facts shared by the configuration space, the roll-outcome
 * enumeration and the transition table: sums of count vectors, factorials,
 * binomial coefficients, the lexicographic enumeration of the count vectors
 * with a given total ("stars and bars"), the multinomial theorem over that
 * enumeration, and what subtracting a kept vector does to it.
 */
module Combinatorics {

  // ---------------------------------------------------------------------------
  // Sums, factorials, powers, binomials
  // ---------------------------------------------------------------------------

  /** Sum of a count vector. */
  function Sum(s: seq<nat>): nat
  {
    if s == [] then 0 else s[0] + Sum(s[1..])
  }

  lemma {:induction false} SumAppend(a: seq<nat>, b: seq<nat>)
    ensures Sum(a + b) == Sum(a) + Sum(b)
  {
    if a == [] {
      assert a + b == b;
    } else {
      assert (a + b)[1..] == a[1..] + b;
      SumAppend(a[1..], b);
    }
  }

  /** The sum of a six-entry vector, written out. */
  lemma Sum6(s: seq<nat>)
    requires |s| == 6
    ensures Sum(s) == s[0] + s[1] + s[2] + s[3] + s[4] + s[5]
  {
    assert Sum(s[5..]) == s[5] by { assert s[5..][1..] == []; }
    assert Sum(s[4..]) == s[4] + Sum(s[5..]) by { assert s[4..][1..] == s[5..]; }
    assert Sum(s[3..]) == s[3] + Sum(s[4..]) by { assert s[3..][1..] == s[4..]; }
    assert Sum(s[2..]) == s[2] + Sum(s[3..]) by { assert s[2..][1..] == s[3..]; }
    assert Sum(s[1..]) == s[1] + Sum(s[2..]) by { assert s[1..][1..] == s[2..]; }
  }

  /** Sum of a prefix extended by one entry. */
  lemma SumSnoc(s: seq<nat>, x: nat)
    ensures Sum(s + [x]) == Sum(s) + x
  {
    SumAppend(s, [x]);
    assert [x][1..] == [];
  }

  /** The all-zero vector of length `n`. */
  function Zeros(n: nat): (r: seq<nat>)
    ensures |r| == n && forall i :: 0 <= i < n ==> r[i] == 0
  {
    if n == 0 then [] else [0] + Zeros(n - 1)
  }

  lemma {:induction false} SumZeros(n: nat)
    ensures Sum(Zeros(n)) == 0
  {
    if n > 0 {
      assert Zeros(n)[1..] == Zeros(n - 1);
      SumZeros(n - 1);
    }
  }

  /** A vector sums to 0 exactly when every entry is 0. */
  lemma {:induction false} SumZeroIff(s: seq<nat>)
    ensures Sum(s) == 0 <==> s == Zeros(|s|)
  {
    if s != [] {
      SumZeroIff(s[1..]);
      assert Zeros(|s|) == [0] + Zeros(|s| - 1);
      if s == Zeros(|s|) {
        assert s[1..] == Zeros(|s| - 1);
      }
    }
  }

  /** Every entry of a vector is at most its sum. */
  lemma {:induction false} EntryAtMostSum(s: seq<nat>, i: nat)
    requires i < |s|
    ensures s[i] <= Sum(s)
  {
    if i > 0 {
      EntryAtMostSum(s[1..], i - 1);
    }
  }

  function Fact(n: nat): (r: nat)
    ensures r >= 1
  {
    if n == 0 then 1 else n * Fact(n - 1)
  }

  /** Product of the factorials of the entries. */
  function FactProd(s: seq<nat>): (r: nat)
    ensures r >= 1
  {
    if s == [] then 1 else Fact(s[0]) * FactProd(s[1..])
  }

  function Pow(b: nat, e: nat): nat
  {
    if e == 0 then 1 else b * Pow(b, e - 1)
  }

  lemma {:induction false} PowPositive(b: nat, e: nat)
    requires b >= 1
    ensures Pow(b, e) >= 1
  {
    if e > 0 {
      PowPositive(b, e - 1);
    }
  }

  lemma {:induction false} PowOne(e: nat)
    ensures Pow(1, e) == 1
  {
    if e > 0 {
      PowOne(e - 1);
    }
  }

  /** Binomial coefficients, by Pascal's rule. */
  function Binom(n: nat, k: nat): nat
  {
    if k == 0 then 1 else if n == 0 then 0 else Binom(n - 1, k - 1) + Binom(n - 1, k)
  }

  lemma {:induction false} BinomAbove(n: nat, k: nat)
    requires k > n
    ensures Binom(n, k) == 0
  {
    if n > 0 {
      BinomAbove(n - 1, k - 1);
      BinomAbove(n - 1, k);
    }
  }

  lemma {:induction false} BinomDiagonal(n: nat)
    ensures Binom(n, n) == 1
  {
    if n > 0 {
      BinomDiagonal(n - 1);
      BinomAbove(n - 1, n);
    }
  }

  /** Ring identity behind the inductive step of `BinomFact`. */
  lemma PascalFactArith(a: int, b: int, k: int, j: int, x: int, y: int, f: int)
    requires a * x * (j * y) == f && b * (k * x) * y == f
    ensures (a + b) * (k * x) * (j * y) == (k + j) * f
  {
    calc {
      (a + b) * (k * x) * (j * y);
      k * (a * x * (j * y)) + j * (b * (k * x) * y);
      k * f + j * f;
    }
  }

  /** The factorial form of the binomial coefficient: C(n,k)·k!·(n−k)! = n!. */
  lemma {:induction false} BinomFact(n: nat, k: nat)
    requires k <= n
    ensures Binom(n, k) * Fact(k) * Fact(n - k) == Fact(n)
  {
    if k == 0 {
    } else if k == n {
      BinomDiagonal(n);
    } else {
      var a, b := Binom(n - 1, k - 1), Binom(n - 1, k);
      var fk1, fnk1, f1 := Fact(k - 1), Fact(n - k - 1), Fact(n - 1);
      BinomFact(n - 1, k - 1);
      BinomFact(n - 1, k);
      assert n - 1 - (k - 1) == n - k;
      assert Fact(k) == k * fk1;
      assert Fact(n - k) == (n - k) * fnk1;
      assert Binom(n, k) == a + b;
      PascalFactArith(a, b, k, n - k, fk1, fnk1, f1);
    }
  }

  /** Euclidean division is determined by quotient and remainder. */
  lemma DivUnique(big: int, d: int, q: int, r: int)
    requires d >= 1 && big == d * q + r && 0 <= r < d
    ensures big / d == q && big % d == r
  {
    var q', r' := big / d, big % d;
    assert big == d * q' + r' && 0 <= r' < d;
    assert d * (q - q') == r' - r;
    if q > q' {
      MulAtLeast(d, q - q');
    } else if q < q' {
      MulAtLeast(d, q' - q);
    }
  }

  /** `N / d == x` whenever `x * d == N` and d is positive. */
  lemma DivExact(x: nat, d: nat, big: nat)
    requires d >= 1 && x * d == big
    ensures big / d == x && big % d == 0
  {
    DivUnique(big, d, x, 0);
  }

  /** Dividing twice is dividing by the product. */
  lemma DivDiv(a: nat, b: nat, c: nat)
    requires b >= 1 && c >= 1
    ensures a / b / c == a / (b * c)
  {
    var q, r := a / b, a % b;
    var q2, r2 := q / c, q % c;
    assert a == b * q + r;
    assert q == c * q2 + r2;
    assert a == (b * c) * q2 + (b * r2 + r) by {
      assert b * q == b * (c * q2) + b * r2;
    }
    assert b * r2 <= b * (c - 1) by {
      MulMonotone(b, r2, c - 1);
    }
    DivUnique(a, b * c, q2, b * r2 + r);
  }

  lemma MulAssoc(a: int, b: int, c: int)
    ensures a * (b * c) == (a * b) * c
  {
  }

  lemma MulMonotone(a: nat, x: nat, y: nat)
    requires x <= y
    ensures a * x <= a * y
  {
  }

  lemma MulAtLeast(a: int, b: int)
    requires a >= 1 && b >= 1
    ensures a * b >= a
  {
  }

  // ---------------------------------------------------------------------------
  // Multinomial coefficients and the binomial theorem
  // ---------------------------------------------------------------------------

  /**
   * The multinomial coefficient (Σs)!/∏ sᵢ!, written as a product of binomial
   * coefficients so that it is an integer by construction.
   */
  lemma {:induction false} BinomPositive(n: nat, k: nat)
    requires k <= n
    ensures Binom(n, k) >= 1
  {
    if k > 0 {
      BinomPositive(n - 1, k - 1);
    }
  }

  function Multinomial(s: seq<nat>): (r: nat)
    ensures r >= 1
  {
    if s == [] then 1
    else
      EntryAtMostSum(s, 0);
      BinomPositive(Sum(s), s[0]);
      Binom(Sum(s), s[0]) * Multinomial(s[1..])
  }

  lemma {:induction false} MultinomialFact(s: seq<nat>)
    ensures Multinomial(s) * FactProd(s) == Fact(Sum(s))
  {
    if s != [] {
      var c, t := s[0], s[1..];
      MultinomialFact(t);
      BinomFact(Sum(s), c);
      assert Sum(s) - c == Sum(t);
      var b, m, fc, ft := Binom(Sum(s), c), Multinomial(t), Fact(c), FactProd(t);
      assert Multinomial(s) == b * m;
      assert FactProd(s) == fc * ft;
      Rearrange4(b, m, fc, ft);
    }
  }

  lemma Rearrange4(b: int, m: int, x: int, y: int)
    ensures b * m * (x * y) == b * x * (m * y)
  {
  }

  lemma {:induction false} FactProdSnoc(s: seq<nat>, x: nat)
    ensures FactProd(s + [x]) == FactProd(s) * Fact(x)
  {
    if s == [] {
      assert [x][1..] == [];
    } else {
      assert (s + [x])[1..] == s[1..] + [x];
      FactProdSnoc(s[1..], x);
      var a, b, f := Fact(s[0]), FactProd(s[1..]), Fact(x);
      assert FactProd(s + [x]) == a * FactProd(s[1..] + [x]);
      assert FactProd(s[1..] + [x]) == b * f;
      assert FactProd(s) == a * b;
      MulAssoc(a, b, f);
    }
  }

  /** The division the engine performs is exact and yields `Multinomial`. */
  lemma MultinomialDivision(s: seq<nat>)
    ensures Fact(Sum(s)) / FactProd(s) == Multinomial(s)
    ensures Fact(Sum(s)) % FactProd(s) == 0
  {
    MultinomialFact(s);
    DivExact(Multinomial(s), FactProd(s), Fact(Sum(s)));
  }

  /** Σ_{j=c}^{n} C(n,j)·k^(n−j). */
  function BinomSumFrom(n: nat, k: nat, c: nat): nat
    decreases n + 1 - c
  {
    if c > n then 0 else Binom(n, c) * Pow(k, n - c) + BinomSumFrom(n, k, c + 1)
  }

  lemma {:induction false} BinomSumPascal(n: nat, k: nat, c: nat)
    requires 1 <= c <= n + 2
    ensures BinomSumFrom(n + 1, k, c) == BinomSumFrom(n, k, c - 1) + k * BinomSumFrom(n, k, c)
    decreases n + 2 - c
  {
    if c <= n + 1 {
      BinomSumPascal(n, k, c + 1);
      var b1, b2, p := Binom(n, c - 1), Binom(n, c), Pow(k, n + 1 - c);
      var t1, t2 := BinomSumFrom(n, k, c), BinomSumFrom(n, k, c + 1);
      assert Binom(n + 1, c) == b1 + b2;
      assert n - (c - 1) == n + 1 - c;
      assert BinomSumFrom(n, k, c - 1) == b1 * p + t1;
      assert BinomSumFrom(n + 1, k, c) == (b1 + b2) * p + t1 + k * t2;
      if c <= n {
        var q := Pow(k, n - c);
        assert p == k * q;
        assert t1 == b2 * q + t2;
        PascalSumArith(b1, b2, k, q, t1, t2);
      } else {
        BinomAbove(n, c);
        assert b2 == 0 && t1 == 0 && t2 == 0;
      }
    }
  }

  lemma PascalSumArith(b1: int, b2: int, k: int, q: int, t1: int, t2: int)
    requires t1 == b2 * q + t2
    ensures (b1 + b2) * (k * q) + t1 + k * t2 == b1 * (k * q) + t1 + k * t1
  {
  }

  /** The binomial theorem: Σ_{j=0}^{n} C(n,j)·k^(n−j) = (k+1)^n. */
  lemma {:induction false} BinomialTheorem(n: nat, k: nat)
    ensures BinomSumFrom(n, k, 0) == Pow(k + 1, n)
  {
    if n > 0 {
      BinomialTheorem(n - 1, k);
      BinomSumPascal(n - 1, k, 1);
      var p, s0, s1 := Pow(k, n - 1), BinomSumFrom(n - 1, k, 0), BinomSumFrom(n - 1, k, 1);
      assert Pow(k, n) == k * p;
      assert s0 == p + s1;
      assert BinomSumFrom(n, k, 0) == k * p + BinomSumFrom(n, k, 1);
      assert BinomSumFrom(n, k, 1) == s0 + k * s1;
      BinomialArith(k, p, s0, s1);
      assert Pow(k + 1, n) == (k + 1) * Pow(k + 1, n - 1);
    }
  }

  lemma BinomialArith(k: int, p: int, s0: int, s1: int)
    requires s0 == p + s1
    ensures k * p + (s0 + k * s1) == (k + 1) * s0
  {
  }

  // ---------------------------------------------------------------------------
  // The lexicographic enumeration of count vectors
  // ---------------------------------------------------------------------------

  /** Prefix every vector of `L` with `c`. */
  function Cons(c: nat, L: seq<seq<nat>>): (r: seq<seq<nat>>)
  {
    seq(|L|, i requires 0 <= i < |L| => [c] + L[i])
  }

  lemma ConsAppend(c: nat, a: seq<seq<nat>>, b: seq<seq<nat>>)
    ensures Cons(c, a + b) == Cons(c, a) + Cons(c, b)
  {
  }

  lemma ConsMember(c: nat, L: seq<seq<nat>>, x: seq<nat>)
    ensures x in Cons(c, L) <==> |x| >= 1 && x[0] == c && x[1..] in L
  {
    if x in Cons(c, L) {
      var i :| 0 <= i < |L| && Cons(c, L)[i] == x;
      assert x[1..] == L[i];
    }
    if |x| >= 1 && x[0] == c && x[1..] in L {
      var i :| 0 <= i < |L| && L[i] == x[1..];
      assert Cons(c, L)[i] == x;
    }
  }

  /**
   * All vectors of length `m` summing to `n`, in lexicographic order: the
   * first entry runs from 0 up to `n` and the last entry takes what remains.
   */
  // The empty `reads` clauses on `Comp` and `CompFrom` keep the verifier
  // from expanding them completely whenever their arguments are constants.
  function Comp(n: nat, m: nat): seq<seq<nat>>
    requires m >= 1
    reads {}
    decreases m, n + 2
  {
    if m == 1 then [[n]] else CompFrom(n, m, 0)
  }

  /** The part of `Comp(n, m)` whose first entry is at least `c`. */
  function CompFrom(n: nat, m: nat, c: nat): seq<seq<nat>>
    requires m >= 2
    reads {}
    decreases m, n + 1 - c
  {
    if c > n then [] else Cons(c, Comp(n - c, m - 1)) + CompFrom(n, m, c + 1)
  }

  /** The first block of `CompFrom(n, m, c)` is the vectors starting with `c`. */
  lemma CompFromStep(n: nat, m: nat, c: nat)
    requires m >= 2 && c <= n
    ensures CompFrom(n, m, c) == Cons(c, Comp(n - c, m - 1)) + CompFrom(n, m, c + 1)
  {
  }

  /** `Comp(n, m)` lists exactly the vectors of length `m` that sum to `n`. */
  lemma {:induction false} CompMember(n: nat, m: nat, x: seq<nat>)
    requires m >= 1
    ensures x in Comp(n, m) <==> |x| == m && Sum(x) == n
    decreases m, n + 2
  {
    if m == 1 {
      if |x| == 1 {
        assert x[1..] == [];
        assert Sum(x) == x[0];
        assert Sum(x) == n ==> x == [n];
      }
    } else {
      CompFromMember(n, m, 0, x);
    }
  }

  lemma {:induction false} CompFromMember(n: nat, m: nat, c: nat, x: seq<nat>)
    requires m >= 2
    ensures x in CompFrom(n, m, c) <==> |x| == m && x[0] >= c && Sum(x) == n
    decreases m, n + 1 - c
  {
    if c > n {
      if |x| == m {
        EntryAtMostSum(x, 0);
      }
    } else {
      ConsMember(c, Comp(n - c, m - 1), x);
      CompFromMember(n, m, c + 1, x);
      if |x| >= 1 {
        CompMember(n - c, m - 1, x[1..]);
      }
    }
  }

  lemma CompElements(n: nat, m: nat)
    requires m >= 1
    ensures forall x :: x in Comp(n, m) ==> |x| == m && Sum(x) == n
  {
    forall x | x in Comp(n, m) ensures |x| == m && Sum(x) == n {
      CompMember(n, m, x);
    }
  }

  lemma {:induction false} CompFromShiftLength(n: nat, m: nat, c: nat)
    requires m >= 2
    ensures |CompFrom(n + 1, m, c + 1)| == |CompFrom(n, m, c)|
    decreases n + 1 - c
  {
    if c <= n {
      CompFromShiftLength(n, m, c + 1);
    }
  }

  /** |Comp(n, m)| = C(n+m−1, m−1), the stars-and-bars count. */
  lemma {:induction false} CompLength(n: nat, m: nat)
    requires m >= 1
    ensures |Comp(n, m)| == Binom(n + m - 1, m - 1)
    decreases m, n
  {
    if m == 1 {
    } else if n == 0 {
      CompLength(0, m - 1);
      BinomDiagonal(m - 2);
      BinomDiagonal(m - 1);
      assert |CompFrom(0, m, 1)| == 0;
    } else {
      CompLength(n, m - 1);
      CompLength(n - 1, m);
      CompFromShiftLength(n - 1, m, 0);
      assert |Comp(n, m)| == |Comp(n, m - 1)| + |CompFrom(n, m, 1)|;
    }
  }
  /** The count of `Comp(n, m)` in factorials: |Comp(n, m)|·n!·(m−1)! = (n+m−1)!. */
  lemma CompLengthFact(n: nat, m: nat)
    requires m >= 1
    ensures |Comp(n, m)| * Fact(n) * Fact(m - 1) == Fact(n + m - 1)
  {
    var N, k := n + m - 1, m - 1;
    CompLength(n, m);
    BinomFact(N, k);
    assert N - k == n;
    SwapLast(Binom(N, k), Fact(k), Fact(n), Fact(N));
  }

  lemma SwapLast(x: int, y: int, z: int, w: int)
    requires x * y * z == w
    ensures x * z * y == w
  {
  }


  // ---------------------------------------------------------------------------
  // Lexicographic order
  // ---------------------------------------------------------------------------

  /** `a` comes strictly before `b` in lexicographic order. */
  predicate LexLess(a: seq<nat>, b: seq<nat>)
  {
    |a| > 0 && |b| > 0 && (a[0] < b[0] || (a[0] == b[0] && LexLess(a[1..], b[1..])))
  }

  lemma {:induction false} LexLessIrreflexive(a: seq<nat>)
    ensures !LexLess(a, a)
  {
    if |a| > 0 {
      LexLessIrreflexive(a[1..]);
    }
  }

  lemma {:induction false} LexLessAsymmetric(a: seq<nat>, b: seq<nat>)
    requires LexLess(a, b)
    ensures !LexLess(b, a)
  {
    if a[0] == b[0] {
      LexLessAsymmetric(a[1..], b[1..]);
    }
  }

  /** Strictly increasing in lexicographic order (so without repetitions). */
  predicate StrictlySorted(L: seq<seq<nat>>)
  {
    forall i, j :: 0 <= i < j < |L| ==> LexLess(L[i], L[j])
  }

  lemma SortedDistinct(L: seq<seq<nat>>)
    requires StrictlySorted(L)
    ensures forall i, j :: 0 <= i < j < |L| ==> L[i] != L[j]
  {
    forall i, j | 0 <= i < j < |L| ensures L[i] != L[j] {
      LexLessIrreflexive(L[i]);
    }
  }

  /** Two strictly sorted lists with the same elements are the same list. */
  lemma {:induction false} SortedUnique(a: seq<seq<nat>>, b: seq<seq<nat>>)
    requires StrictlySorted(a) && StrictlySorted(b)
    requires forall x :: x in a <==> x in b
    ensures a == b
    decreases |a|
  {
    SameElementsEmpty(a, b);
    if a != [] {
      assert a[0] in b && b[0] in a;
      var i :| 0 <= i < |a| && a[i] == b[0];
      var j :| 0 <= j < |b| && b[j] == a[0];
      if i > 0 && j > 0 {
        LexLessAsymmetric(b[0], b[j]);
        assert false;
      }
      forall x ensures x in a[1..] <==> x in b[1..] {
        if x in a[1..] {
          var k :| 1 <= k < |a| && a[k] == x;
          LexLessIrreflexive(a[0]);
          assert x in b;
          assert x != b[0];
        }
        if x in b[1..] {
          var k :| 1 <= k < |b| && b[k] == x;
          LexLessIrreflexive(b[0]);
          assert x in a;
          assert x != a[0];
        }
      }
      SortedUnique(a[1..], b[1..]);
      assert a == [a[0]] + a[1..] && b == [b[0]] + b[1..];
    }
  }

  lemma SameElementsEmpty(a: seq<seq<nat>>, b: seq<seq<nat>>)
    requires forall x :: x in a <==> x in b
    ensures a == [] <==> b == []
  {
    if a != [] {
      assert a[0] in b;
    }
    if b != [] {
      assert b[0] in a;
    }
  }

  lemma ConsSorted(c: nat, L: seq<seq<nat>>)
    requires StrictlySorted(L)
    ensures StrictlySorted(Cons(c, L))
  {
    forall i, j | 0 <= i < j < |L| ensures LexLess(Cons(c, L)[i], Cons(c, L)[j]) {
      assert Cons(c, L)[i][1..] == L[i];
      assert Cons(c, L)[j][1..] == L[j];
    }
  }

  lemma AppendSorted(a: seq<seq<nat>>, b: seq<seq<nat>>)
    requires StrictlySorted(a) && StrictlySorted(b)
    requires forall x, y :: x in a && y in b ==> LexLess(x, y)
    ensures StrictlySorted(a + b)
  {
    forall i, j | 0 <= i < j < |a + b| ensures LexLess((a + b)[i], (a + b)[j]) {
      if j < |a| {
      } else if i >= |a| {
        assert (a + b)[i] == b[i - |a|] && (a + b)[j] == b[j - |a|];
      } else {
        assert (a + b)[i] in a && (a + b)[j] in b;
      }
    }
  }

  /** The enumeration is strictly increasing in lexicographic order. */
  lemma {:induction false} CompSorted(n: nat, m: nat)
    requires m >= 1
    ensures StrictlySorted(Comp(n, m))
    decreases m, n + 2
  {
    if m > 1 {
      CompFromSorted(n, m, 0);
    }
  }

  lemma {:induction false} CompFromSorted(n: nat, m: nat, c: nat)
    requires m >= 2
    ensures StrictlySorted(CompFrom(n, m, c))
    decreases m, n + 1 - c
  {
    if c <= n {
      var head, tail := Cons(c, Comp(n - c, m - 1)), CompFrom(n, m, c + 1);
      CompSorted(n - c, m - 1);
      ConsSorted(c, Comp(n - c, m - 1));
      CompFromSorted(n, m, c + 1);
      forall x, y | x in head && y in tail ensures LexLess(x, y) {
        ConsMember(c, Comp(n - c, m - 1), x);
        CompFromMember(n, m, c + 1, y);
      }
      AppendSorted(head, tail);
    }
  }

  // ---------------------------------------------------------------------------
  // The multinomial theorem over the enumeration
  // ---------------------------------------------------------------------------

  function SumMultinomial(L: seq<seq<nat>>): nat
  {
    if L == [] then 0 else Multinomial(L[0]) + SumMultinomial(L[1..])
  }

  lemma {:induction false} SumMultinomialAppend(a: seq<seq<nat>>, b: seq<seq<nat>>)
    ensures SumMultinomial(a + b) == SumMultinomial(a) + SumMultinomial(b)
  {
    if a == [] {
      assert a + b == b;
    } else {
      assert (a + b)[1..] == a[1..] + b;
      SumMultinomialAppend(a[1..], b);
    }
  }

  lemma {:induction false} SumMultinomialCons(c: nat, L: seq<seq<nat>>, n: nat)
    requires forall x :: x in L ==> Sum(x) == n
    ensures SumMultinomial(Cons(c, L)) == Binom(n + c, c) * SumMultinomial(L)
  {
    if L != [] {
      assert Cons(c, L)[1..] == Cons(c, L[1..]);
      SumMultinomialCons(c, L[1..], n);
      var x := Cons(c, L)[0];
      assert x[1..] == L[0];
      assert L[0] in L;
      assert Sum(x) == n + c;
      var bn, m0, rest := Binom(n + c, c), Multinomial(L[0]), SumMultinomial(L[1..]);
      assert Multinomial(x) == bn * m0;
      assert SumMultinomial(Cons(c, L)) == bn * m0 + bn * rest;
      assert SumMultinomial(L) == m0 + rest;
      Distrib(bn, m0, rest);
    }
  }

  lemma Distrib(a: int, b: int, c: int)
    ensures a * b + a * c == a * (b + c)
  {
  }

  /** Σ over the vectors of length m with sum n of n!/∏xᵢ! equals mⁿ. */
  lemma {:induction false} MultinomialTheorem(n: nat, m: nat)
    requires m >= 1
    ensures SumMultinomial(Comp(n, m)) == Pow(m, n)
    decreases m, n + 2
  {
    if m == 1 {
      var x := [n];
      assert x[1..] == [];
      assert Sum(x) == n;
      BinomDiagonal(n);
      assert Multinomial(x) == 1;
      PowOne(n);
    } else {
      MultinomialFrom(n, m, 0);
      BinomialTheorem(n, m - 1);
    }
  }

  lemma {:induction false} MultinomialFrom(n: nat, m: nat, c: nat)
    requires m >= 2
    ensures SumMultinomial(CompFrom(n, m, c)) == BinomSumFrom(n, m - 1, c)
    decreases m, n + 1 - c
  {
    if c <= n {
      var head, tail := Cons(c, Comp(n - c, m - 1)), CompFrom(n, m, c + 1);
      assert CompFrom(n, m, c) == head + tail;
      MultinomialFrom(n, m, c + 1);
      MultinomialBlock(n, m, c);
      SumMultinomialAppend(head, tail);
    }
  }

  /** The block of `Comp(n, m)` starting with `c` contributes C(n,c)·(m−1)^(n−c). */
  lemma {:induction false} MultinomialBlock(n: nat, m: nat, c: nat)
    requires m >= 2 && c <= n
    ensures SumMultinomial(Cons(c, Comp(n - c, m - 1))) == Binom(n, c) * Pow(m - 1, n - c)
    decreases m, 0
  {
    MultinomialTheorem(n - c, m - 1);
    CompElements(n - c, m - 1);
    SumMultinomialCons(c, Comp(n - c, m - 1), n - c);
    assert n - c + c == n;
  }

  // ---------------------------------------------------------------------------
  // Subtracting a kept vector
  // ---------------------------------------------------------------------------

  /** `x` has at least `k[i]` in every position. */
  predicate AtLeast(x: seq<nat>, k: seq<nat>)
  {
    |x| == |k| && forall i :: 0 <= i < |x| ==> k[i] <= x[i]
  }

  function Minus(x: seq<nat>, k: seq<nat>): (r: seq<nat>)
    requires AtLeast(x, k)
  {
    seq(|x|, i requires 0 <= i < |x| => x[i] - k[i])
  }

  lemma {:induction false} MinusSum(x: seq<nat>, k: seq<nat>)
    requires AtLeast(x, k)
    ensures Sum(k) <= Sum(x) && Sum(Minus(x, k)) == Sum(x) - Sum(k)
  {
    if x != [] {
      assert Minus(x, k)[1..] == Minus(x[1..], k[1..]);
      MinusSum(x[1..], k[1..]);
    }
  }

  /** The differences `x − k` of the vectors `x` of `L` that dominate `k`, in order. */
  function Shifted(L: seq<seq<nat>>, k: seq<nat>): seq<seq<nat>>
  {
    if L == [] then []
    else (if AtLeast(L[0], k) then [Minus(L[0], k)] else []) + Shifted(L[1..], k)
  }

  lemma {:induction false} ShiftedAppend(a: seq<seq<nat>>, b: seq<seq<nat>>, k: seq<nat>)
    ensures Shifted(a + b, k) == Shifted(a, k) + Shifted(b, k)
  {
    if a == [] {
      assert a + b == b;
    } else {
      assert (a + b)[1..] == a[1..] + b;
      ShiftedAppend(a[1..], b, k);
    }
  }

  function Plus(z: seq<nat>, k: seq<nat>): (r: seq<nat>)
    requires |z| == |k|
    ensures AtLeast(r, k) && Minus(r, k) == z
  {
    seq(|z|, i requires 0 <= i < |z| => z[i] + k[i])
  }

  /** Adding back what was taken off restores the vector. */
  lemma PlusMinus(x: seq<nat>, k: seq<nat>)
    requires AtLeast(x, k)
    ensures Plus(Minus(x, k), k) == x
  {
    assert forall i :: 0 <= i < |x| ==> Plus(Minus(x, k), k)[i] == x[i];
  }

  lemma {:induction false} PlusSum(z: seq<nat>, k: seq<nat>)
    requires |z| == |k|
    ensures Sum(Plus(z, k)) == Sum(z) + Sum(k)
  {
    MinusSum(Plus(z, k), k);
  }

  /** The members of `Shifted(L, k)` are the differences `x − k` of the members `x ≥ k` of `L`. */
  lemma {:induction false} ShiftedMember(L: seq<seq<nat>>, k: seq<nat>, z: seq<nat>)
    ensures z in Shifted(L, k) <==> exists x :: x in L && AtLeast(x, k) && z == Minus(x, k)
  {
    if L != [] {
      ShiftedMember(L[1..], k, z);
      var first := if AtLeast(L[0], k) then [Minus(L[0], k)] else [];
      assert Shifted(L, k) == first + Shifted(L[1..], k);
      if exists x :: x in L && AtLeast(x, k) && z == Minus(x, k) {
        var x :| x in L && AtLeast(x, k) && z == Minus(x, k);
        if x != L[0] {
          assert x in L[1..];
        }
      }
      if z in Shifted(L[1..], k) {
        var x :| x in L[1..] && AtLeast(x, k) && z == Minus(x, k);
        assert x in L;
      }
    }
  }

  /** Subtracting the same `k` keeps two dominating vectors in lexicographic order. */
  lemma {:induction false} LexLessMinus(x: seq<nat>, y: seq<nat>, k: seq<nat>)
    requires LexLess(x, y) && AtLeast(x, k) && AtLeast(y, k)
    ensures LexLess(Minus(x, k), Minus(y, k))
  {
    assert Minus(x, k)[1..] == Minus(x[1..], k[1..]);
    assert Minus(y, k)[1..] == Minus(y[1..], k[1..]);
    if x[0] == y[0] {
      LexLessMinus(x[1..], y[1..], k[1..]);
    }
  }

  lemma {:induction false} ShiftedSorted(L: seq<seq<nat>>, k: seq<nat>)
    requires StrictlySorted(L)
    ensures StrictlySorted(Shifted(L, k))
  {
    if L != [] {
      var rest := L[1..];
      assert StrictlySorted(rest) by {
        forall i, j | 0 <= i < j < |rest| ensures LexLess(rest[i], rest[j]) {
          assert rest[i] == L[i + 1] && rest[j] == L[j + 1];
        }
      }
      ShiftedSorted(rest, k);
      var first := if AtLeast(L[0], k) then [Minus(L[0], k)] else [];
      assert Shifted(L, k) == first + Shifted(rest, k);
      forall a, b | a in first && b in Shifted(rest, k) ensures LexLess(a, b) {
        ShiftedMember(rest, k, b);
        var y :| y in rest && AtLeast(y, k) && b == Minus(y, k);
        var j :| 0 <= j < |rest| && rest[j] == y;
        assert y == L[j + 1];
        LexLessMinus(L[0], y, k);
      }
      AppendSorted(first, Shifted(rest, k));
    }
  }

  /**
   * Subtracting a kept vector `k` from the vectors of `Comp(n, m)` that
   * dominate it gives exactly `Comp(n − Σk, m)`, in the same order.
   */
  lemma ShiftComp(n: nat, m: nat, k: seq<nat>)
    requires m >= 1 && |k| == m && Sum(k) <= n
    ensures Shifted(Comp(n, m), k) == Comp(n - Sum(k), m)
  {
    var A, B := Shifted(Comp(n, m), k), Comp(n - Sum(k), m);
    CompSorted(n, m);
    ShiftedSorted(Comp(n, m), k);
    CompSorted(n - Sum(k), m);
    forall z ensures z in A <==> z in B {
      ShiftedMember(Comp(n, m), k, z);
      CompMember(n - Sum(k), m, z);
      if z in A {
        var x :| x in Comp(n, m) && AtLeast(x, k) && z == Minus(x, k);
        CompMember(n, m, x);
        MinusSum(x, k);
      }
      if z in B {
        var x := Plus(z, k);
        PlusSum(z, k);
        CompMember(n, m, x);
      }
    }
    SortedUnique(A, B);
  }


}
