/**
 * Roll probabilities (transition/probability.rs): the multinomial law of a
 * throw of `k` fair dice, the probability of going from kept dice to a
 * target hand, the stars-and-bars enumeration of roll outcomes and the
 * expectation over them. Probabilities are exact `real`s.
 */
module Probabilities {
  import opened Combinatorics
  import opened Wrappers
  import opened Errors

  // ---------------------------------------------------------------------------
  // The probability type
  // ---------------------------------------------------------------------------

  /** A probability; `Probability::new` keeps it within [0, 1]. */
  datatype Probability = Probability(value: real)

  const ZERO: Probability := Probability(0.0)
  const ONE: Probability := Probability(1.0)

  /** `f64::EPSILON`, 2⁻⁵². */
  const EPSILON: real := 1.0 / 4503599627370496.0

  /** `Probability::new`: values outside [0, 1] are rejected with the value itself. */
  function NewProbability(value: real): (r: Result<Probability, DiceeError>)
    ensures r.Ok? <==> 0.0 <= value <= 1.0
    ensures r.Ok? ==> r.value.value == value
    ensures r.Err? ==> r.error == InvalidProbability(value)
  {
    if 0.0 <= value && value <= 1.0 then Ok(Probability(value)) else Err(InvalidProbability(value))
  }

  /** `is_zero`: below machine epsilon. */
  predicate IsZero(p: Probability)
  {
    p.value < EPSILON
  }

  // ---------------------------------------------------------------------------
  // Factorials and multinomial coefficients
  // ---------------------------------------------------------------------------

  /** The factorial table for 0..=10. */
  const FACTORIALS: seq<nat> := [1, 1, 2, 6, 24, 120, 720, 5040, 40320, 362880, 3628800]

  lemma FactorialsTable(n: nat)
    requires n <= 10
    ensures |FACTORIALS| == 11 && FACTORIALS[n] == Fact(n)
  {
    assert Fact(5) == 120;
    assert Fact(10) == 3628800;
  }

  /** `factorial(n)`: a table lookup, defined for n ≤ 10. */
  function Factorial(n: nat): (r: nat)
    requires n <= 10
    ensures r == Fact(n)
  {
    FactorialsTable(n);
    FACTORIALS[n]
  }

  lemma {:induction false} EntriesAtMostSum(s: seq<nat>)
    ensures forall i :: 0 <= i < |s| ==> s[i] <= Sum(s)
  {
    forall i | 0 <= i < |s| ensures s[i] <= Sum(s) {
      EntryAtMostSum(s, i);
    }
  }

  /** The denominator of `multinomial_coefficient`: the product of the factorials of the counts. */
  function FactorialProduct(counts: seq<nat>): (r: nat)
    requires forall i :: 0 <= i < |counts| ==> counts[i] <= 10
    ensures r == FactProd(counts)
  {
    if counts == [] then 1 else Factorial(counts[0]) * FactorialProduct(counts[1..])
  }

  /**
   * `multinomial_coefficient(counts)`: (Σc)! / ∏cᵢ!, computed with the
   * tables. The division is exact and gives the number of ordered rolls
   * showing these counts.
   */
  function MultinomialCoefficient(counts: seq<nat>): (r: nat)
    requires |counts| == 6 && Sum(counts) <= 10
    ensures r == Multinomial(counts)
    ensures r * FactProd(counts) == Fact(Sum(counts))
  {
    EntriesAtMostSum(counts);
    MultinomialDivision(counts);
    MultinomialFact(counts);
    Factorial(Sum(counts)) / FactorialProduct(counts)
  }

  /** The coefficients the unit tests check. */
  lemma MultinomialExamples()
    ensures MultinomialCoefficient([5, 0, 0, 0, 0, 0]) == 1
    ensures MultinomialCoefficient([1, 1, 1, 1, 1, 0]) == 120
    ensures MultinomialCoefficient([2, 3, 0, 0, 0, 0]) == 10
  {
    Sum6([5, 0, 0, 0, 0, 0]);
    Sum6([1, 1, 1, 1, 1, 0]);
    Sum6([2, 3, 0, 0, 0, 0]);
    assert FactProd([5, 0, 0, 0, 0, 0]) == 120;
    assert FactProd([1, 1, 1, 1, 1, 0]) == 1;
    assert FactProd([2, 3, 0, 0, 0, 0]) == 12;
  }

  /** `POWERS_OF_SIX_INV`. */
  const POWERS_OF_SIX_INV: seq<real> := [1.0, 1.0 / 6.0, 1.0 / 36.0, 1.0 / 216.0, 1.0 / 1296.0, 1.0 / 7776.0]

  /** `inv_power_of_six(k)`: a table lookup, defined for k ≤ 5. */
  function InvPowerOfSix(k: nat): (r: real)
    requires k <= 5
    ensures r > 0.0
    ensures r * (Pow(6, k) as real) == 1.0
  {
    PowersOfSix(k);
    POWERS_OF_SIX_INV[k]
  }

  /** 6ᵏ for the table's range of k. */
  lemma PowersOfSix(k: nat)
    requires k <= 5
    ensures Pow(6, k) == [1, 6, 36, 216, 1296, 7776][k]
  {
    if k > 0 {
      PowersOfSix(k - 1);
    }
  }

  /**
   * `n as f64 * inv_power_of_six(k)`: the probability mass of `n` of the 6ᵏ
   * equally likely ordered throws of `k` dice.
   */
  function Share(n: nat, k: nat): real
    requires k <= 5
  {
    (n as real) * InvPowerOfSix(k)
  }

  /** The table holds 6⁻ᵏ: all 6ᵏ ordered throws together have mass one. */
  lemma ShareWhole(k: nat)
    requires k <= 5
    ensures Share(Pow(6, k), k) == 1.0
  {
    if k == 0 {
    } else if k == 1 {
      assert Pow(6, 1) == 6;
    } else if k == 2 {
      assert Pow(6, 2) == 36;
    } else if k == 3 {
      assert Pow(6, 3) == 216;
    } else if k == 4 {
      assert Pow(6, 4) == 1296;
    } else {
      assert Pow(6, 5) == 7776;
    }
  }

  /** Masses of disjoint sets of ordered throws add up. */
  lemma ShareAdd(a: nat, b: nat, s: nat, k: nat)
    requires k <= 5 && s == a + b
    ensures Share(s, k) == Share(a, k) + Share(b, k)
  {
  }

  /** Between one ordered throw and all of them, the mass lies in [6⁻⁵, 1]. */
  lemma ShareBounds(n: nat, k: nat)
    requires 1 <= k <= 5 && 1 <= n <= Pow(6, k)
    ensures 1.0 / 7776.0 <= Share(n, k) <= 1.0
  {
    if k == 1 {
      assert Pow(6, 1) == 6;
    } else if k == 2 {
      assert Pow(6, 2) == 36;
    } else if k == 3 {
      assert Pow(6, 3) == 216;
    } else if k == 4 {
      assert Pow(6, 4) == 1296;
    } else {
      assert Pow(6, 5) == 7776;
    }
  }

  // ---------------------------------------------------------------------------
  // Outcome probabilities
  // ---------------------------------------------------------------------------

  /**
   * `roll_outcome_probability(rolled, k)`: throwing no dice can only give
   * the empty outcome; otherwise the multinomial coefficient times 6⁻ᵏ, the
   * mass of the ordered throws that show `rolled`.
   */
  function RollOutcomeProbability(rolled: seq<nat>, k: nat): (p: Probability)
    requires |rolled| == 6 && k <= 5 && (k > 0 ==> Sum(rolled) <= 10)
    ensures k == 0 ==> p == (if rolled == Zeros(6) then ONE else ZERO)
    ensures k > 0 ==> p.value == Share(Multinomial(rolled), k)
  {
    if k == 0 then
      assert (forall i :: 0 <= i < 6 ==> rolled[i] == 0) <==> rolled == Zeros(6);
      if forall i :: 0 <= i < 6 ==> rolled[i] == 0 then ONE else ZERO
    else
      Probability(Share(MultinomialCoefficient(rolled), k))
  }

  /** An ordered count vector with a given total is at most all the orderings of that total. */
  lemma {:induction false} MultinomialAtMostSum(L: seq<seq<nat>>, x: seq<nat>)
    requires x in L
    ensures Multinomial(x) <= SumMultinomial(L)
  {
    if x != L[0] {
      MultinomialAtMostSum(L[1..], x);
    }
  }

  /**
   * Whenever the counts sum to `k`, the outcome probability lies in
   * [6⁻⁵, 1]: never zero, never above one, and accepted by `Probability::new`.
   */
  lemma RollOutcomeBounds(rolled: seq<nat>, k: nat)
    requires |rolled| == 6 && Sum(rolled) == k && k <= 5
    ensures 1.0 / 7776.0 <= RollOutcomeProbability(rolled, k).value <= 1.0
    ensures !IsZero(RollOutcomeProbability(rolled, k))
    ensures NewProbability(RollOutcomeProbability(rolled, k).value).Ok?
  {
    if k == 0 {
      SumZeroIff(rolled);
    } else {
      CompMember(k, 6, rolled);
      MultinomialAtMostSum(Comp(k, 6), rolled);
      MultinomialTheorem(k, 6);
      ShareBounds(Multinomial(rolled), k);
    }
  }

  /** The probabilities of the unit tests: five 1s from five dice, one 1 from one die. */
  lemma SpecificProbabilities(five: seq<nat>, one: seq<nat>)
    requires five == [5, 0, 0, 0, 0, 0] && one == [1, 0, 0, 0, 0, 0]
    ensures Sum(five) == 5 && RollOutcomeProbability(five, 5).value == 1.0 / 7776.0
    ensures Sum(one) == 1 && RollOutcomeProbability(one, 1).value == 1.0 / 6.0
  {
    Sum6(five);
    Sum6(one);
    MultinomialExamples();
    assert Multinomial(one) == 1 by {
      MultinomialFact(one);
      FactProd6One(one);
    }
  }

  lemma FactProd6One(s: seq<nat>)
    requires s == [1, 0, 0, 0, 0, 0]
    ensures FactProd(s) == 1 && Fact(Sum(s)) == 1
  {
    Sum6(s);
    assert FactProd([1, 0, 0, 0, 0, 0]) == 1;
  }

  // ---------------------------------------------------------------------------
  // Transitions
  // ---------------------------------------------------------------------------

  /**
   * The probability of reaching `target` from the `kept` counts by throwing
   * `k` dice: impossible unless the target holds every kept die and exactly
   * `k` more; otherwise the probability of throwing the difference.
   */
  function TransitionSpec(kept: seq<nat>, target: seq<nat>, k: nat): (r: Option<Probability>)
    requires |kept| == 6 && |target| == 6 && k <= 5
    ensures r.Some? <==> AtLeast(target, kept) && Sum(target) == Sum(kept) + k
    ensures r.Some? ==> Sum(Minus(target, kept)) == k
    ensures r.Some? ==> r.value == RollOutcomeProbability(Minus(target, kept), k)
  {
    if !AtLeast(target, kept) then None
    else
      MinusSum(target, kept);
      if Sum(Minus(target, kept)) != k then None
      else Some(RollOutcomeProbability(Minus(target, kept), k))
  }

  /**
   * `transition_probability`: fill `needed` face by face, giving up at the
   * first face the target has fewer of than are kept, then compare the
   * total with the number of dice thrown.
   */
  method TransitionProbability(kept: seq<nat>, target: seq<nat>, k: nat) returns (r: Option<Probability>)
    requires |kept| == 6 && |target| == 6 && k <= 5 && Sum(target) < 256
    ensures r == TransitionSpec(kept, target, k)
  {
    var needed := new nat[6](_ => 0);
    for i := 0 to 6
      invariant forall j :: 0 <= j < i ==> kept[j] <= target[j] && needed[j] == target[j] - kept[j]
    {
      if target[i] < kept[i] {
        return None;
      }
      needed[i] := target[i] - kept[i];
    }
    assert needed[..] == Minus(target, kept);
    MinusSum(target, kept);
    var neededSum := Sum(needed[..]);
    if neededSum != k {
      return None;
    }
    r := Some(RollOutcomeProbability(needed[..], k));
  }

  /** Keeping two 3s and throwing three dice reaches three 3s and two 5s with probability 3/216. */
  lemma TransitionExample(kept: seq<nat>, target: seq<nat>)
    requires kept == [0, 0, 2, 0, 0, 0] && target == [0, 0, 3, 0, 2, 0]
    ensures TransitionSpec(kept, target, 3) == Some(Probability(3.0 / 216.0))
  {
    Sum6(kept);
    Sum6(target);
    var needed := Minus(target, kept);
    assert needed == [0, 0, 1, 0, 2, 0];
    Sum6(needed);
    assert Multinomial(needed) == 3 by {
      MultinomialFact(needed);
      assert FactProd([0, 0, 1, 0, 2, 0]) == 2;
      assert Fact(3) == 6;
    }
  }

  /** Keeping three 3s can never reach a hand with only two of them. */
  lemma ImpossibleTransitionExample(kept: seq<nat>, target: seq<nat>)
    requires kept == [0, 0, 3, 0, 0, 0] && target == [0, 0, 2, 0, 0, 3]
    ensures TransitionSpec(kept, target, 2) == None
  {
    assert target[2] < kept[2];
  }

  // ---------------------------------------------------------------------------
  // Enumerating outcomes
  // ---------------------------------------------------------------------------

  /** `p` put in front of every vector of `L`. */
  function Prefixed(p: seq<nat>, L: seq<seq<nat>>): (r: seq<seq<nat>>)
    ensures |r| == |L|
  {
    seq(|L|, i requires 0 <= i < |L| => p + L[i])
  }

  lemma PrefixedCons(p: seq<nat>, c: nat, L: seq<seq<nat>>)
    ensures Prefixed(p + [c], L) == Prefixed(p, Cons(c, L))
  {
    forall i | 0 <= i < |L| ensures Prefixed(p + [c], L)[i] == Prefixed(p, Cons(c, L))[i] {
      assert (p + [c]) + L[i] == p + ([c] + L[i]);
    }
  }

  lemma PrefixedAppend(p: seq<nat>, a: seq<seq<nat>>, b: seq<seq<nat>>)
    ensures Prefixed(p, a + b) == Prefixed(p, a) + Prefixed(p, b)
  {
  }

  /**
   * One turn of the enumeration loops: once the outcomes of `c` dice of the
   * current face are appended, `c + 1` is where the rest of the list starts.
   */
  lemma WalkStep(p: seq<nat>, visited: seq<seq<nat>>, out0: seq<seq<nat>>, out1: seq<seq<nat>>,
                 done: seq<seq<nat>>, remaining: nat, m: nat, c: nat)
    requires m >= 2 && c <= remaining
    requires Comp(remaining, m) == done + CompFrom(remaining, m, c)
    requires out0 == visited + Prefixed(p, done)
    requires out1 == out0 + Prefixed(p, Cons(c, Comp(remaining - c, m - 1)))
    ensures Comp(remaining, m) == (done + Cons(c, Comp(remaining - c, m - 1))) + CompFrom(remaining, m, c + 1)
    ensures out1 == visited + Prefixed(p, done + Cons(c, Comp(remaining - c, m - 1)))
  {
    CompFromStep(remaining, m, c);
    PrefixedStep(p, visited, out0, out1, done, Cons(c, Comp(remaining - c, m - 1)));
  }

  lemma PrefixedStep(p: seq<nat>, visited: seq<seq<nat>>, out0: seq<seq<nat>>, out1: seq<seq<nat>>,
                     done: seq<seq<nat>>, block: seq<seq<nat>>)
    requires out0 == visited + Prefixed(p, done)
    requires out1 == out0 + Prefixed(p, block)
    ensures out1 == visited + Prefixed(p, done + block)
  {
    PrefixedAppend(p, done, block);
  }

  /**
   * `recurse` of `for_each_roll_outcome`: faces before `face` are fixed in
   * the buffer; each count of `face` from 0 up to `remaining` is tried in
   * turn and the last face takes what is left. Where the source calls its
   * callback with the buffer, the model appends a copy of the buffer to
   * `visited`.
   */
  method VisitOutcomes(counts: array<nat>, face: nat, remaining: nat, visited: seq<seq<nat>>)
      returns (out: seq<seq<nat>>)
    requires counts.Length == 6 && face <= 5
    modifies counts
    ensures counts[..face] == old(counts[..face])
    ensures out == visited + Prefixed(old(counts[..face]), Comp(remaining, 6 - face))
    decreases 5 - face, 1
  {
    if face == 5 {
      out := VisitLastOutcome(counts, remaining, visited);
      return;
    }
    ghost var p := counts[..face];
    ghost var m: nat := 6 - face;
    ghost var done: seq<seq<nat>> := [];
    out := visited;
    var c: nat := 0;
    while c <= remaining
      invariant counts[..face] == p
      invariant Comp(remaining, m) == done + CompFrom(remaining, m, c)
      invariant out == visited + Prefixed(p, done)
    {
      ghost var out0 := out;
      out := VisitCount(counts, face, c, remaining - c, out);
      WalkStep(p, visited, out0, out, done, remaining, m, c);
      done := done + Cons(c, Comp(remaining - c, m - 1));
      c := c + 1;
    }
  }

  /** The last face takes every die left, and the buffer is reported. */
  method VisitLastOutcome(counts: array<nat>, remaining: nat, visited: seq<seq<nat>>)
      returns (out: seq<seq<nat>>)
    requires counts.Length == 6
    modifies counts
    ensures counts[..5] == old(counts[..5])
    ensures out == visited + Prefixed(old(counts[..5]), Comp(remaining, 1))
  {
    ghost var p := counts[..5];
    counts[5] := remaining;
    assert counts[..] == p + [remaining];
    assert counts[..5] == p;
    out := visited + [counts[..]];
  }

  /** One turn of the loop: `c` dice of `face`, then the later faces share the rest. */
  method VisitCount(counts: array<nat>, face: nat, c: nat, rest: nat, visited: seq<seq<nat>>)
      returns (out: seq<seq<nat>>)
    requires counts.Length == 6 && face < 5
    modifies counts
    ensures counts[..face] == old(counts[..face])
    ensures out == visited + Prefixed(old(counts[..face]), Cons(c, Comp(rest, 5 - face)))
    decreases 5 - face, 0
  {
    ghost var p := counts[..face];
    counts[face] := c;
    assert counts[..face + 1] == p + [c];
    out := VisitOutcomes(counts, face + 1, rest, visited);
    assert counts[..face] == counts[..face + 1][..face];
    PrefixedCons(p, c, Comp(rest, 5 - face));
  }

  /** `for_each_roll_outcome(k)`: the outcomes in the order the callback sees them. */
  method ForEachRollOutcome(k: nat) returns (outcomes: seq<seq<nat>>)
    ensures outcomes == Comp(k, 6)
  {
    var counts := new nat[6](_ => 0);
    outcomes := VisitOutcomes(counts, 0, k, []);
    forall i | 0 <= i < |Comp(k, 6)| ensures Prefixed([], Comp(k, 6))[i] == Comp(k, 6)[i] {
      assert [] + Comp(k, 6)[i] == Comp(k, 6)[i];
    }
  }

  /** The enumeration visits each count vector with total `k` exactly once, in lexicographic order. */
  lemma RollOutcomesExactlyOnce(k: nat)
    ensures forall x :: x in Comp(k, 6) <==> |x| == 6 && Sum(x) == k
    ensures StrictlySorted(Comp(k, 6))
    ensures forall i, j :: 0 <= i < j < |Comp(k, 6)| ==> Comp(k, 6)[i] != Comp(k, 6)[j]
  {
    forall x ensures x in Comp(k, 6) <==> |x| == 6 && Sum(x) == k {
      CompMember(k, 6, x);
    }
    CompSorted(k, 6);
    SortedDistinct(Comp(k, 6));
  }

  /** The outcome counts C(k + 5, 5). */
  const OUTCOME_COUNTS: seq<nat> := [1, 6, 21, 56, 126, 252]

  lemma OutcomeCountsTable(k: nat, x: nat)
    requires k <= 5 && x * Fact(k) * Fact(5) == Fact(k + 5)
    ensures x == OUTCOME_COUNTS[k]
  {
    assert Fact(5) == 120;
    if k == 0 {
    } else if k == 1 {
      assert Fact(6) == 720;
    } else if k == 2 {
      assert Fact(7) == 5040;
    } else if k == 3 {
      assert Fact(8) == 40320;
    } else if k == 4 {
      assert Fact(9) == 362880;
    } else {
      assert Fact(10) == 3628800;
    }
  }

  /** `outcome_count(k)`: how many outcomes the enumeration visits, C(k + 5, 5). */
  function OutcomeCount(k: nat): (r: nat)
    requires k <= 5
    ensures r == |Comp(k, 6)| && r == Binom(k + 5, 5)
  {
    CompLengthFact(k, 6);
    CompLength(k, 6);
    OutcomeCountsTable(k, |Comp(k, 6)|);
    OUTCOME_COUNTS[k]
  }

  // ---------------------------------------------------------------------------
  // Expectation
  // ---------------------------------------------------------------------------

  /** Outcomes of a throw of `k` dice. */
  predicate Outcomes(L: seq<seq<nat>>, k: nat)
  {
    forall x :: x in L ==> |x| == 6 && Sum(x) == k
  }

  /** One term of the expectation: the outcome's probability times its value. */
  function Weighted(x: seq<nat>, k: nat, f: seq<nat> -> real): real
    requires |x| == 6 && Sum(x) == k && k <= 5
  {
    RollOutcomeProbability(x, k).value * f(x)
  }

  /** Σ P(o)·f(o) over the outcomes `L` of a throw of `k` dice. */
  function Expectation(L: seq<seq<nat>>, k: nat, f: seq<nat> -> real): real
    requires k <= 5 && Outcomes(L, k)
  {
    if L == [] then 0.0 else Weighted(L[0], k, f) + Expectation(L[1..], k, f)
  }

  /** The expectation over every outcome of a throw of `k` dice. */
  function RollExpectation(k: nat, f: seq<nat> -> real): real
    requires k <= 5
    reads {}
  {
    CompElements(k, 6);
    Expectation(Comp(k, 6), k, f)
  }

  /**
   * `expected_value_over_rolls(k, scorer)`: the scorer of the empty outcome
   * when nothing is thrown, else the running total of probability times
   * value over the enumeration.
   */
  method ExpectedValueOverRolls(k: nat, scorer: seq<nat> -> real) returns (ev: real)
    requires k <= 5
    ensures ev == RollExpectation(k, scorer)
    ensures k == 0 ==> ev == scorer(Zeros(6))
  {
    if k == 0 {
      ZeroOutcomeExpectation(scorer);
      assert Zeros(6) == [0, 0, 0, 0, 0, 0];
      return scorer([0, 0, 0, 0, 0, 0]);
    }
    var outcomes := ForEachRollOutcome(k);
    CompElements(k, 6);
    var total := 0.0;
    for i := 0 to |outcomes|
      invariant total + Expectation(outcomes[i..], k, scorer) == Expectation(outcomes, k, scorer)
    {
      assert outcomes[i..][1..] == outcomes[i + 1..];
      assert outcomes[i] in outcomes;
      // prob.get() * scorer(counts)
      total := total + Weighted(outcomes[i], k, scorer);
    }
    assert outcomes[|outcomes|..] == [];
    ev := total;
  }

  /** Throwing no dice has the single outcome "nothing". */
  lemma CompZero(m: nat)
    requires m >= 1
    ensures Comp(0, m) == [Zeros(m)]
  {
    CompLength(0, m);
    BinomDiagonal(m - 1);
    assert |Comp(0, m)| == 1;
    CompMember(0, m, Comp(0, m)[0]);
    SumZeroIff(Comp(0, m)[0]);
  }

  /** An outcome of probability one contributes its whole value. */
  lemma WeightedCertain(x: seq<nat>, k: nat, f: seq<nat> -> real)
    requires |x| == 6 && Sum(x) == k && k <= 5 && RollOutcomeProbability(x, k) == ONE
    ensures Weighted(x, k, f) == f(x)
  {
  }

  /** A single outcome weighs its probability times its value. */
  lemma ExpectationSingleton(x: seq<nat>, k: nat, f: seq<nat> -> real)
    requires |x| == 6 && Sum(x) == k && k <= 5
    ensures Outcomes([x], k) && Expectation([x], k, f) == Weighted(x, k, f)
  {
    assert [x][1..] == [];
  }

  /** With nothing thrown the expectation is the value of the empty outcome. */
  lemma ZeroOutcomeExpectation(f: seq<nat> -> real)
    ensures RollExpectation(0, f) == f(Zeros(6))
  {
    CompZero(6);
    SumZeros(6);
    ExpectationSingleton(Zeros(6), 0, f);
    WeightedCertain(Zeros(6), 0, f);
  }

  /** The constant one, whose expectation is the total probability. */
  function One(x: seq<nat>): real
  {
    1.0
  }

  lemma OutcomesTail(L: seq<seq<nat>>, k: nat)
    requires L != [] && Outcomes(L, k)
    ensures |L[0]| == 6 && Sum(L[0]) == k && Outcomes(L[1..], k)
  {
    assert L[0] in L;
    forall x | x in L[1..] ensures |x| == 6 && Sum(x) == k {
      assert x in L;
    }
  }

  lemma WeightedOne(x: seq<nat>, k: nat)
    requires k <= 5 && |x| == 6 && Sum(x) == k
    ensures Weighted(x, k, One) == RollOutcomeProbability(x, k).value
  {
  }

  /** The total probability of a list of outcomes is the mass of their orderings. */
  lemma {:induction false} TotalProbability(L: seq<seq<nat>>, k: nat)
    requires 1 <= k <= 5 && Outcomes(L, k)
    ensures Expectation(L, k, One) == Share(SumMultinomial(L), k)
  {
    if L != [] {
      OutcomesTail(L, k);
      TotalProbability(L[1..], k);
      WeightedOne(L[0], k);
      ShareAdd(Multinomial(L[0]), SumMultinomial(L[1..]), SumMultinomial(L), k);
    }
  }

  /** For every number of dice 0..=5 the outcome probabilities add up to exactly one. */
  lemma ProbabilitiesSumToOne(k: nat)
    requires k <= 5
    ensures RollExpectation(k, One) == 1.0
  {
    if k == 0 {
      ZeroOutcomeExpectation(One);
    } else {
      CompElements(k, 6);
      TotalProbability(Comp(k, 6), k);
      MultinomialTheorem(k, 6);
      ShareWhole(k);
    }
  }

  /** The pips the outcome shows: Σ face × count. */
  function PipTotal(counts: seq<nat>): real
  {
    if |counts| != 6 then 0.0
    else (counts[0] + 2 * counts[1] + 3 * counts[2] + 4 * counts[3] + 5 * counts[4] + 6 * counts[5]) as real
  }

  /** Comp(1, m) from Comp(1, m - 1): a zero in front of each, then the vector starting with the 1. */
  lemma CompOneStep(m: nat, prev: seq<seq<nat>>, next: seq<seq<nat>>)
    requires m >= 2 && Comp(1, m - 1) == prev
    requires |next| == |prev| + 1
    requires forall i :: 0 <= i < |prev| ==> next[i] == [0] + prev[i]
    requires next[|prev|] == [1] + Zeros(m - 1)
    ensures Comp(1, m) == next
  {
    CompZero(m - 1);
    assert CompFrom(1, m, 2) == [];
    assert CompFrom(1, m, 1) == Cons(1, Comp(0, m - 1)) + CompFrom(1, m, 2);
    assert Cons(1, [Zeros(m - 1)]) == [[1] + Zeros(m - 1)];
    assert CompFrom(1, m, 0) == Cons(0, prev) + CompFrom(1, m, 1);
    assert next == Cons(0, prev) + [[1] + Zeros(m - 1)];
  }

  /** The outcomes of one die spread over two faces. */
  lemma SingleDieTwoFaces()
    ensures Comp(1, 2) == [[0, 1], [1, 0]]
  {
    assert Comp(1, 1) == [[1]];
    assert Zeros(1) == [0];
    CompOneStep(2, [[1]], [[0, 1], [1, 0]]);
  }

  lemma SingleDieThreeFaces()
    ensures Comp(1, 3) == [[0, 0, 1], [0, 1, 0], [1, 0, 0]]
  {
    SingleDieTwoFaces();
    assert Zeros(2) == [0, 0];
    CompOneStep(3, [[0, 1], [1, 0]], [[0, 0, 1], [0, 1, 0], [1, 0, 0]]);
  }

  lemma SingleDieFourFaces()
    ensures Comp(1, 4) == [[0, 0, 0, 1], [0, 0, 1, 0], [0, 1, 0, 0], [1, 0, 0, 0]]
  {
    SingleDieThreeFaces();
    assert Zeros(3) == [0, 0, 0];
    CompOneStep(4, [[0, 0, 1], [0, 1, 0], [1, 0, 0]],
      [[0, 0, 0, 1], [0, 0, 1, 0], [0, 1, 0, 0], [1, 0, 0, 0]]);
  }

  lemma SingleDieFiveFaces()
    ensures Comp(1, 5) == [[0, 0, 0, 0, 1], [0, 0, 0, 1, 0], [0, 0, 1, 0, 0], [0, 1, 0, 0, 0], [1, 0, 0, 0, 0]]
  {
    SingleDieFourFaces();
    assert Zeros(4) == [0, 0, 0, 0];
    CompOneStep(5, [[0, 0, 0, 1], [0, 0, 1, 0], [0, 1, 0, 0], [1, 0, 0, 0]],
      [[0, 0, 0, 0, 1], [0, 0, 0, 1, 0], [0, 0, 1, 0, 0], [0, 1, 0, 0, 0], [1, 0, 0, 0, 0]]);
  }

  /** The single-die outcomes, face 6 first. */
  lemma SingleDieOutcomes()
    ensures Comp(1, 6) == [[0, 0, 0, 0, 0, 1], [0, 0, 0, 0, 1, 0], [0, 0, 0, 1, 0, 0],
                           [0, 0, 1, 0, 0, 0], [0, 1, 0, 0, 0, 0], [1, 0, 0, 0, 0, 0]]
  {
    SingleDieFiveFaces();
    assert Zeros(5) == [0, 0, 0, 0, 0];
    CompOneStep(6, [[0, 0, 0, 0, 1], [0, 0, 0, 1, 0], [0, 0, 1, 0, 0], [0, 1, 0, 0, 0], [1, 0, 0, 0, 0]],
      [[0, 0, 0, 0, 0, 1], [0, 0, 0, 0, 1, 0], [0, 0, 0, 1, 0, 0],
       [0, 0, 1, 0, 0, 0], [0, 1, 0, 0, 0, 0], [1, 0, 0, 0, 0, 0]]);
  }

  /** The pips of the six single-die outcomes. */
  lemma SingleDiePips(L: seq<seq<nat>>)
    requires L == [[0, 0, 0, 0, 0, 1], [0, 0, 0, 0, 1, 0], [0, 0, 0, 1, 0, 0],
                   [0, 0, 1, 0, 0, 0], [0, 1, 0, 0, 0, 0], [1, 0, 0, 0, 0, 0]]
    ensures PipTotal(L[0]) == 6.0 && PipTotal(L[1]) == 5.0 && PipTotal(L[2]) == 4.0
    ensures PipTotal(L[3]) == 3.0 && PipTotal(L[4]) == 2.0 && PipTotal(L[5]) == 1.0
  {
  }

  /** A single die shows each face with probability 1/6. */
  lemma SingleDieProbability(x: seq<nat>)
    requires |x| == 6 && Sum(x) == 1
    ensures RollOutcomeProbability(x, 1).value == 1.0 / 6.0
  {
    EntryAtMostSum6(x);
    MultinomialFact(x);
    assert FactProd(x) == 1 by {
      FactProdUnits(x);
    }
  }

  lemma EntryAtMostSum6(x: seq<nat>)
    requires |x| == 6 && Sum(x) == 1
    ensures forall i :: 0 <= i < 6 ==> x[i] <= 1
  {
    EntriesAtMostSum(x);
  }

  /** Entries of at most one all have factorial one. */
  lemma {:induction false} FactProdUnits(x: seq<nat>)
    requires forall i :: 0 <= i < |x| ==> x[i] <= 1
    ensures FactProd(x) == 1
  {
    if x != [] {
      FactProdUnits(x[1..]);
    }
  }

  /** A single die, face f, weighs f(x)/6. */
  lemma WeightedOneDie(x: seq<nat>, f: seq<nat> -> real)
    requires |x| == 6 && Sum(x) == 1
    ensures Weighted(x, 1, f) == f(x) / 6.0
  {
    SingleDieProbability(x);
  }

  /** The expectation splits off its first outcome. */
  lemma ExpectationCons(L: seq<seq<nat>>, t: seq<seq<nat>>, k: nat, f: seq<nat> -> real)
    requires L != [] && k <= 5 && Outcomes(L, k) && t == L[1..]
    ensures |L[0]| == 6 && Sum(L[0]) == k && Outcomes(t, k)
    ensures Expectation(L, k, f) == Weighted(L[0], k, f) + Expectation(t, k, f)
  {
    OutcomesTail(L, k);
  }

  /** The expectation over six outcomes, written out. */
  lemma ExpectationSix(L: seq<seq<nat>>, k: nat, f: seq<nat> -> real)
    requires |L| == 6 && k <= 5 && Outcomes(L, k)
    ensures forall i :: 0 <= i < 6 ==> |L[i]| == 6 && Sum(L[i]) == k
    ensures Expectation(L, k, f) == Weighted(L[0], k, f) + Weighted(L[1], k, f) + Weighted(L[2], k, f)
      + Weighted(L[3], k, f) + Weighted(L[4], k, f) + Weighted(L[5], k, f)
  {
    forall i | 0 <= i < 6 ensures |L[i]| == 6 && Sum(L[i]) == k {
      assert L[i] in L;
    }
    var t1 := L[1..];
    ExpectationCons(L, t1, k, f);
    var t2 := t1[1..];
    ExpectationCons(t1, t2, k, f);
    var t3 := t2[1..];
    ExpectationCons(t2, t3, k, f);
    var t4 := t3[1..];
    ExpectationCons(t3, t4, k, f);
    var t5 := t4[1..];
    ExpectationCons(t4, t5, k, f);
    var t6 := t5[1..];
    ExpectationCons(t5, t6, k, f);
    assert t6 == [];
    assert t1[0] == L[1] && t2[0] == L[2] && t3[0] == L[3] && t4[0] == L[4] && t5[0] == L[5];
  }

  /** Over six single-die outcomes the expectation is the average of the values. */
  lemma SixSingleDieExpectation(L: seq<seq<nat>>, f: seq<nat> -> real)
    requires |L| == 6 && Outcomes(L, 1)
    ensures Expectation(L, 1, f) == (f(L[0]) + f(L[1]) + f(L[2]) + f(L[3]) + f(L[4]) + f(L[5])) / 6.0
  {
    ExpectationSix(L, 1, f);
    WeightedOneDie(L[0], f);
    WeightedOneDie(L[1], f);
    WeightedOneDie(L[2], f);
    WeightedOneDie(L[3], f);
    WeightedOneDie(L[4], f);
    WeightedOneDie(L[5], f);
  }

  /** One die shows 3.5 pips on average. */
  lemma OneDieExpectation()
    ensures RollExpectation(1, PipTotal) == 3.5
  {
    SingleDieOutcomes();
    CompElements(1, 6);
    SixSingleDieExpectation(Comp(1, 6), PipTotal);
    SingleDiePips(Comp(1, 6));
  }
}
