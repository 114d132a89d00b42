/**
 * The first probability estimator (`probability.rs`), from before the
 * solver: it rerolls the dice not kept exactly once, enumerates the 6ᵏ
 * ordered outcomes of the `k` rerolled dice as base-6 numbers, and reports
 * for every category the share of outcomes in which it is valid and its
 * average score. Two or more rolls left are treated as one.
 */
module LegacyProbability {
  import opened Combinatorics
  import opened Config
  import opened Categories
  import opened Rules
  import opened LegacyScoring

  /** `CategoryProbability`: one category's validity share, average score and present score. */
  datatype CategoryProbability = CategoryProbability(category: Category, probability: real, expectedValue: real, currentScore: nat)

  /** `ProbabilityResult`: the thirteen category rows and the best of them by average score. */
  datatype ProbabilityResult = ProbabilityResult(categories: seq<CategoryProbability>, bestCategory: Category, bestEv: real)

  /** The index `best_category` falls back to when there is no row: Chance. */
  const FALLBACK_INDEX: nat := 12

  /** An array of five keep flags, one per die. */
  predicate ValidKept(kept: seq<bool>)
  {
    |kept| == 5
  }

  // ---------------------------------------------------------------------------
  // generate_outcome
  // ---------------------------------------------------------------------------

  /** How many of the first `i` dice are rerolled. */
  function RerolledBefore(kept: seq<bool>, i: nat): (r: nat)
    requires i <= |kept|
    ensures r <= i
  {
    if i == 0 then 0 else RerolledBefore(kept, i - 1) + (if kept[i - 1] then 0 else 1)
  }

  /** `reroll_count`: the number of dice not kept. */
  function RerollCount(kept: seq<bool>): (r: nat)
    requires ValidKept(kept)
    ensures r <= 5
  {
    RerolledBefore(kept, 5)
  }

  /** 6ʲ, never zero. */
  function PowerOfSix(j: nat): (r: nat)
    ensures r >= 1
  {
    PowPositive(6, j);
    Pow(6, j)
  }

  /** Digit `j` of `n` in base 6, least significant first. */
  function Digit(n: nat, j: nat): (d: nat)
    ensures d < 6
  {
    (n / PowerOfSix(j)) % 6
  }

  /**
   * The face `generate_outcome` leaves at position `i`: the die itself when
   * it is kept; when it is the `j`-th rerolled die, digit `j` of the outcome
   * index plus one, or 1 once the index has no digits left for it.
   */
  function OutcomeFace(dice: seq<nat>, kept: seq<bool>, outcome: nat, count: nat, i: nat): nat
    requires |dice| == 5 && ValidKept(kept) && i < 5
  {
    if kept[i] then dice[i]
    else if RerolledBefore(kept, i) < count then Digit(outcome, RerolledBefore(kept, i)) + 1
    else 1
  }

  /** The hand `generate_outcome` builds, position by position. */
  function Outcome(dice: seq<nat>, kept: seq<bool>, outcome: nat, count: nat): (r: seq<nat>)
    requires |dice| == 5 && ValidKept(kept)
    ensures |r| == 5
  {
    seq(5, i requires 0 <= i < 5 => OutcomeFace(dice, kept, outcome, count, i))
  }

  /**
   * `generate_outcome`: a copy of the hand in which the rerolled dice, in
   * position order, take the base-6 digits of `outcome`, least significant
   * first, as faces 1 to 6.
   */
  method GenerateOutcome(dice: seq<nat>, kept: seq<bool>, outcome: nat, count: nat) returns (result: seq<nat>)
    requires |dice| == 5 && ValidKept(kept)
    ensures result == Outcome(dice, kept, outcome, count)
  {
    result := dice;
    var idx := outcome;
    var rerollPos := 0;
    for i := 0 to 5
      invariant |result| == 5
      invariant rerollPos == RerolledBefore(kept, i)
      invariant idx == outcome / PowerOfSix(if rerollPos < count then rerollPos else count)
      invariant forall k :: 0 <= k < i ==> result[k] == OutcomeFace(dice, kept, outcome, count, k)
      invariant forall k :: i <= k < 5 ==> result[k] == dice[k]
    {
      if !kept[i] {
        var dieValue;
        if rerollPos < count {
          var digit := idx % 6;
          DivDiv(outcome, PowerOfSix(rerollPos), 6);
          idx := idx / 6;
          dieValue := digit + 1;
        } else {
          dieValue := 1;
        }
        result := result[i := dieValue];
        rerollPos := rerollPos + 1;
      }
    }
  }

  /** The faces of the rerolled positions of `hand`, in position order. */
  function RerolledFaces(hand: seq<nat>, kept: seq<bool>, i: nat): (r: seq<nat>)
    requires |hand| == 5 && ValidKept(kept) && i <= 5
    ensures |r| == RerolledBefore(kept, i)
  {
    if i == 0 then []
    else RerolledFaces(hand, kept, i - 1) + (if kept[i - 1] then [] else [hand[i - 1]])
  }

  /** Faces 1 to 6 read back as a base-6 number, least significant first. */
  function FromFaces(faces: seq<nat>): int
  {
    if faces == [] then 0 else (faces[0] - 1) + 6 * FromFaces(faces[1..])
  }

  /** The first `n` base-6 digits of `outcome`, as faces. */
  function DigitFaces(outcome: nat, n: nat): (r: seq<nat>)
    ensures |r| == n
  {
    seq(n, j requires 0 <= j < n => Digit(outcome, j) + 1)
  }

  /** The rerolled dice of an outcome, in position order, are the digits of its index as faces. */
  lemma {:induction false} RerolledAreDigits(dice: seq<nat>, kept: seq<bool>, outcome: nat, count: nat, i: nat)
    requires |dice| == 5 && ValidKept(kept) && i <= 5 && RerolledBefore(kept, i) <= count
    ensures RerolledFaces(Outcome(dice, kept, outcome, count), kept, i) == DigitFaces(outcome, RerolledBefore(kept, i))
  {
    if i > 0 {
      RerolledAreDigits(dice, kept, outcome, count, i - 1);
    }
  }

  /** Digit `j + 1` of `n` is digit `j` of `n / 6`. */
  lemma DigitShift(n: nat, j: nat)
    ensures Digit(n, j + 1) == Digit(n / 6, j)
    ensures Digit(n, 0) == n % 6
  {
    DivDiv(n, 6, PowerOfSix(j));
    assert PowerOfSix(j + 1) == 6 * PowerOfSix(j);
  }

  /** Reading back the first `n` digits of `m` gives `m` modulo 6ⁿ. */
  lemma {:induction false} FromDigitFaces(m: nat, n: nat)
    ensures FromFaces(DigitFaces(m, n)) == m % PowerOfSix(n)
  {
    if n > 0 {
      var q := m / 6;
      var rest := n - 1;
      FromDigitFaces(q, rest);
      assert DigitFaces(m, n)[1..] == DigitFaces(q, rest) by {
        forall j | 0 <= j < rest ensures DigitFaces(m, n)[1..][j] == DigitFaces(q, rest)[j] {
          DigitShift(m, j);
        }
      }
      DigitShift(m, 0);
      ModSplit(m, PowerOfSix(rest));
      assert PowerOfSix(n) == 6 * PowerOfSix(rest);
    }
  }

  /** `m mod 6b` is the last base-6 digit plus six times `m / 6 mod b`. */
  lemma ModSplit(m: nat, b: nat)
    requires b >= 1
    ensures m % (6 * b) == m % 6 + 6 * ((m / 6) % b)
  {
    var q := m / 6;
    var r := m % 6;
    var q2 := q / b;
    var r2 := q % b;
    assert m == 6 * q + r;
    assert q == b * q2 + r2;
    assert m == (6 * b) * q2 + (r + 6 * r2) by {
      assert 6 * q == 6 * (b * q2) + 6 * r2;
      MulAssoc(6, b, q2);
    }
    assert r + 6 * r2 < 6 * b by {
      MulMonotone(6, r2, b - 1);
    }
    DivUnique(m, 6 * b, q2, r + 6 * r2);
  }

  /**
   * `generate_outcome` is one-to-one on `0..6ᵏ` when `k` is the number of
   * rerolled dice: the rerolled faces of the outcome, read back in base 6,
   * give its index, and the kept dice stay as they were.
   */
  lemma OutcomeDecodes(dice: seq<nat>, kept: seq<bool>, outcome: nat)
    requires |dice| == 5 && ValidKept(kept) && outcome < PowerOfSix(RerollCount(kept))
    ensures FromFaces(RerolledFaces(Outcome(dice, kept, outcome, RerollCount(kept)), kept, 5)) == outcome
    ensures forall i :: 0 <= i < 5 && kept[i] ==> Outcome(dice, kept, outcome, RerollCount(kept))[i] == dice[i]
  {
    var k := RerollCount(kept);
    RerolledAreDigits(dice, kept, outcome, k, 5);
    FromDigitFaces(outcome, k);
    DivUnique(outcome, PowerOfSix(k), 0, outcome);
  }

  /** Every outcome of a proper hand is a proper hand. */
  lemma OutcomeIsHand(dice: seq<nat>, kept: seq<bool>, outcome: nat, count: nat)
    requires ValidDice(dice) && ValidKept(kept)
    ensures ValidDice(Outcome(dice, kept, outcome, count))
  {
  }

  /** The worked examples of `generate_outcome`'s tests. */
  lemma OutcomeExamples()
    ensures Outcome([1, 1, 1, 1, 1], [true, false, true, false, true], 0, 2) == [1, 1, 1, 1, 1]
    ensures Outcome([1, 1, 1, 1, 1], [true, false, true, false, true], 7, 2) == [1, 2, 1, 2, 1]
  {
    var kept := [true, false, true, false, true];
    assert RerolledBefore(kept, 1) == 0 && RerolledBefore(kept, 3) == 1;
    assert PowerOfSix(1) == 6;
    assert Digit(7, 0) == 1 && Digit(7, 1) == 1;
    assert Digit(0, 0) == 0 && Digit(0, 1) == 0;
  }

  // ---------------------------------------------------------------------------
  // The best category
  // ---------------------------------------------------------------------------

  /** The row `max_by` picks among the first `n`: the last with the largest average score. */
  function LastBest(rows: seq<CategoryProbability>, n: nat): (b: nat)
    requires 1 <= n <= |rows|
    ensures b < n
  {
    if n == 1 then 0
    else
      var b := LastBest(rows, n - 1);
      if rows[n - 1].expectedValue >= rows[b].expectedValue then n - 1 else b
  }

  lemma {:induction false} LastBestFacts(rows: seq<CategoryProbability>, n: nat)
    requires 1 <= n <= |rows|
    ensures forall j :: 0 <= j < n ==> rows[j].expectedValue <= rows[LastBest(rows, n)].expectedValue
    ensures forall j :: LastBest(rows, n) < j < n ==> rows[j].expectedValue < rows[LastBest(rows, n)].expectedValue
  {
    if n > 1 {
      LastBestFacts(rows, n - 1);
    }
  }

  /**
   * The result around the rows: `best_category` and `best_ev` from the last
   * row of largest average score, or Chance and 0 with no row at all.
   */
  function WithBest(rows: seq<CategoryProbability>): (r: ProbabilityResult)
    ensures r.categories == rows
  {
    if rows == [] then ProbabilityResult(rows, ALL[FALLBACK_INDEX], 0.0)
    else
      var b := LastBest(rows, |rows|);
      var best := if b < COUNT then ALL[b] else ALL[FALLBACK_INDEX];
      ProbabilityResult(rows, best, rows[b].expectedValue)
  }

  /**
   * With the thirteen rows in category order, the best category is one of
   * largest average score, the last such, and `best_ev` is its average.
   */
  lemma WithBestFacts(rows: seq<CategoryProbability>)
    requires |rows| == COUNT && forall j :: 0 <= j < COUNT ==> rows[j].category == ALL[j]
    ensures exists b :: (0 <= b < COUNT && WithBest(rows).bestCategory == rows[b].category
      && WithBest(rows).bestEv == rows[b].expectedValue
      && (forall j :: 0 <= j < COUNT ==> rows[j].expectedValue <= rows[b].expectedValue)
      && (forall j :: b < j < COUNT ==> rows[j].expectedValue < rows[b].expectedValue))
  {
    var b := LastBest(rows, |rows|);
    LastBestFacts(rows, |rows|);
    assert WithBest(rows).bestCategory == rows[b].category;
  }

  // ---------------------------------------------------------------------------
  // calculate_current
  // ---------------------------------------------------------------------------

  /** The row of `cat` with no roll left: certain when valid, impossible otherwise, worth its score. */
  function CurrentRow(dice: seq<nat>, cat: Category): (row: CategoryProbability)
    requires ValidDice(dice)
  {
    var s := HandScore(dice, cat);
    CategoryProbability(cat, if s.valid then 1.0 else 0.0, s.score as real, s.score)
  }

  /** `calculate_current`: every category's row for the hand as it is. */
  function CalculateCurrent(dice: seq<nat>): (r: ProbabilityResult)
    requires ValidDice(dice)
    ensures |r.categories| == COUNT
  {
    WithBest(seq(COUNT, j requires 0 <= j < COUNT => CurrentRow(dice, ALL[j])))
  }

  /**
   * With no roll left each category is valid with probability 1 or 0, as its
   * score is valid or not, and its average is its score.
   */
  lemma CurrentFacts(dice: seq<nat>, j: nat)
    requires ValidDice(dice) && j < COUNT
    ensures CalculateCurrent(dice).categories[j].category == ALL[j]
    ensures CalculateCurrent(dice).categories[j].probability == 1.0 <==> HandScore(dice, ALL[j]).valid
    ensures CalculateCurrent(dice).categories[j].probability == 0.0 <==> !HandScore(dice, ALL[j]).valid
    ensures CalculateCurrent(dice).categories[j].expectedValue == ScoreConfig(ConfigOf(dice), ALL[j]).score as real
    ensures CalculateCurrent(dice).categories[j].currentScore == ScoreConfig(ConfigOf(dice), ALL[j]).score
  {
  }

  /** The test of five fives, all kept: Dicee is the best category, worth 50. */
  lemma FiveFivesBest(dice: seq<nat>)
    requires dice == [5, 5, 5, 5, 5]
    ensures CalculateCurrent(dice).bestCategory == Dicee
    ensures CalculateCurrent(dice).bestEv == 50.0
  {
    var rows := CalculateCurrent(dice).categories;
    var c := ConfigOf(dice);
    forall i | 0 <= i < 6 ensures c.counts[i] == if i == 4 then 5 else 0 {
      OccurrencesFive(dice, i + 1);
    }
    DiceeScore(c);
    ChanceScore(c);
    assert ALL[11] == Dicee && ALL[12] == Chance;
    assert rows[11].expectedValue == 50.0;
    assert rows[12].expectedValue < 50.0 by {
      DiceSumOfFives(c);
    }
    forall j | 0 <= j < COUNT ensures rows[j].category == ALL[j] && rows[j].expectedValue <= 50.0 {
      CurrentFacts(dice, j);
    }
    WithBestFacts(rows);
  }

  /** Five fives add up to 25. */
  lemma DiceSumOfFives(c: Config)
    requires forall i :: 0 <= i < 6 ==> c.counts[i] == if i == 4 then 5 else 0
    ensures DiceSum(c) == 25
  {
  }

  // ---------------------------------------------------------------------------
  // calculate_single_roll
  // ---------------------------------------------------------------------------

  /** The sum of `cat`'s scores over the first `n` outcomes. */
  function ScoreTotal(dice: seq<nat>, kept: seq<bool>, count: nat, cat: Category, n: nat): nat
    requires ValidDice(dice) && ValidKept(kept)
  {
    if n == 0 then 0
    else
      OutcomeIsHand(dice, kept, n - 1, count);
      ScoreTotal(dice, kept, count, cat, n - 1) + HandScore(Outcome(dice, kept, n - 1, count), cat).score
  }

  /** How many of the first `n` outcomes are valid in `cat`. */
  function ValidTotal(dice: seq<nat>, kept: seq<bool>, count: nat, cat: Category, n: nat): nat
    requires ValidDice(dice) && ValidKept(kept)
  {
    if n == 0 then 0
    else
      OutcomeIsHand(dice, kept, n - 1, count);
      ValidTotal(dice, kept, count, cat, n - 1) + (if HandScore(Outcome(dice, kept, n - 1, count), cat).valid then 1 else 0)
  }

  /** The row of category `j` after `n` outcomes of `count` rerolled dice. */
  function SingleRollRow(dice: seq<nat>, kept: seq<bool>, count: nat, j: nat): (row: CategoryProbability)
    requires ValidDice(dice) && ValidKept(kept) && j < COUNT
  {
    var total := PowerOfSix(count);
    CategoryProbability(ALL[j],
      ValidTotal(dice, kept, count, ALL[j], total) as real / total as real,
      ScoreTotal(dice, kept, count, ALL[j], total) as real / total as real,
      HandScore(dice, ALL[j]).score)
  }

  /** What `calculate_single_roll` computes: the rows over all 6ᵏ outcomes, then the best. */
  function SingleRoll(dice: seq<nat>, kept: seq<bool>, count: nat): (r: ProbabilityResult)
    requires ValidDice(dice) && ValidKept(kept)
    ensures |r.categories| == COUNT
  {
    WithBest(seq(COUNT, j requires 0 <= j < COUNT => SingleRollRow(dice, kept, count, j)))
  }

  /** The running totals of the inner loop, `(score sum, valid count)` per category. */
  predicate TotalsAfter(totals: seq<(nat, nat)>, dice: seq<nat>, kept: seq<bool>, count: nat, n: nat, upTo: nat)
    requires ValidDice(dice) && ValidKept(kept)
  {
    |totals| == COUNT && upTo <= COUNT
    && (forall j :: 0 <= j < upTo ==>
      totals[j] == (ScoreTotal(dice, kept, count, ALL[j], n + 1), ValidTotal(dice, kept, count, ALL[j], n + 1)))
    && (forall j :: upTo <= j < COUNT ==>
      totals[j] == (ScoreTotal(dice, kept, count, ALL[j], n), ValidTotal(dice, kept, count, ALL[j], n)))
  }

  /** One pass of the outer loop: outcome `n` scored in every category and added to the totals. */
  method AddOutcome(totals: seq<(nat, nat)>, dice: seq<nat>, kept: seq<bool>, count: nat, n: nat)
    returns (next: seq<(nat, nat)>)
    requires ValidDice(dice) && ValidKept(kept) && TotalsAfter(totals, dice, kept, count, n, 0)
    ensures TotalsAfter(next, dice, kept, count, n, COUNT)
  {
    var hand := GenerateOutcome(dice, kept, n, count);
    OutcomeIsHand(dice, kept, n, count);
    next := totals;
    for j := 0 to COUNT
      invariant TotalsAfter(next, dice, kept, count, n, j)
    {
      var result := LegacyScoring.Score(hand, ALL[j]);
      var sum, valid := next[j].0 + result.score, next[j].1 + (if result.valid then 1 else 0);
      OutcomeAdds(dice, kept, count, ALL[j], n, result);
      TotalsStep(next, dice, kept, count, n, j, sum, valid);
      next := next[j := (sum, valid)];
    }
  }

  /** Scoring outcome `n` in `cat` moves that category's two totals one outcome on. */
  lemma OutcomeAdds(dice: seq<nat>, kept: seq<bool>, count: nat, cat: Category, n: nat, result: ScoringResult)
    requires ValidDice(dice) && ValidKept(kept)
    requires ValidDice(Outcome(dice, kept, n, count)) && result == HandScore(Outcome(dice, kept, n, count), cat)
    ensures ScoreTotal(dice, kept, count, cat, n + 1) == ScoreTotal(dice, kept, count, cat, n) + result.score
    ensures ValidTotal(dice, kept, count, cat, n + 1) == ValidTotal(dice, kept, count, cat, n) + (if result.valid then 1 else 0)
  {
  }

  /** Storing category `j`'s totals after outcome `n` extends the stored prefix by one. */
  lemma TotalsStep(totals: seq<(nat, nat)>, dice: seq<nat>, kept: seq<bool>, count: nat, n: nat, j: nat, sum: nat, valid: nat)
    requires ValidDice(dice) && ValidKept(kept) && j < COUNT && TotalsAfter(totals, dice, kept, count, n, j)
    requires sum == ScoreTotal(dice, kept, count, ALL[j], n + 1) && valid == ValidTotal(dice, kept, count, ALL[j], n + 1)
    ensures TotalsAfter(totals[j := (sum, valid)], dice, kept, count, n, j + 1)
  {
  }

  /**
   * `calculate_single_roll`: score every one of the 6ᵏ outcomes in every
   * category, then turn the totals into shares and averages and pick the
   * best category.
   */
  method CalculateSingleRoll(dice: seq<nat>, kept: seq<bool>, count: nat) returns (r: ProbabilityResult)
    requires ValidDice(dice) && ValidKept(kept)
    ensures r == SingleRoll(dice, kept, count)
  {
    var total := PowerOfSix(count);
    var totals: seq<(nat, nat)> := seq(COUNT, _ => (0, 0));
    for n := 0 to total
      invariant TotalsAfter(totals, dice, kept, count, n, 0)
    {
      totals := AddOutcome(totals, dice, kept, count, n);
      assert TotalsAfter(totals, dice, kept, count, n + 1, 0);
    }
    var rows: seq<CategoryProbability> := [];
    for j := 0 to COUNT
      invariant |rows| == j
      invariant forall i :: 0 <= i < j ==> rows[i] == SingleRollRow(dice, kept, count, i)
    {
      var current := LegacyScoring.Score(dice, ALL[j]);
      rows := rows + [CategoryProbability(ALL[j], totals[j].1 as real / total as real,
        totals[j].0 as real / total as real, current.score)];
    }
    assert rows == seq(COUNT, j requires 0 <= j < COUNT => SingleRollRow(dice, kept, count, j));
    r := WithBest(rows);
  }

  lemma {:induction false} ValidTotalAtMost(dice: seq<nat>, kept: seq<bool>, count: nat, cat: Category, n: nat)
    requires ValidDice(dice) && ValidKept(kept)
    ensures ValidTotal(dice, kept, count, cat, n) <= n
  {
    if n > 0 {
      var m := n - 1;
      ValidTotalAtMost(dice, kept, count, cat, m);
      OutcomeIsHand(dice, kept, m, count);
      OutcomeAdds(dice, kept, count, cat, m, HandScore(Outcome(dice, kept, m, count), cat));
    }
  }

  lemma {:induction false} ScoreTotalAtMost(dice: seq<nat>, kept: seq<bool>, count: nat, cat: Category, n: nat)
    requires ValidDice(dice) && ValidKept(kept)
    ensures ScoreTotal(dice, kept, count, cat, n) <= n * MaxScore(cat)
  {
    if n > 0 {
      var m := n - 1;
      var top := MaxScore(cat);
      ScoreTotalAtMost(dice, kept, count, cat, m);
      OutcomeIsHand(dice, kept, m, count);
      var result := HandScore(Outcome(dice, kept, m, count), cat);
      OutcomeAdds(dice, kept, count, cat, m, result);
      assert result.score <= top;
      assert n * top == m * top + top;
    }
  }

  /**
   * After one reroll each category's probability is its count of valid
   * outcomes over 6ᵏ, between 0 and 1; its average is its score total over
   * 6ᵏ, at most the category's largest score; and its present score is the
   * score of the hand before the reroll.
   */
  lemma SingleRollFacts(dice: seq<nat>, kept: seq<bool>, count: nat, j: nat)
    requires ValidDice(dice) && ValidKept(kept) && j < COUNT
    ensures SingleRoll(dice, kept, count).categories[j] == SingleRollRow(dice, kept, count, j)
    ensures SingleRoll(dice, kept, count).categories[j].category == ALL[j]
    ensures SingleRoll(dice, kept, count).categories[j].probability ==
      ValidTotal(dice, kept, count, ALL[j], PowerOfSix(count)) as real / PowerOfSix(count) as real
    ensures SingleRoll(dice, kept, count).categories[j].expectedValue ==
      ScoreTotal(dice, kept, count, ALL[j], PowerOfSix(count)) as real / PowerOfSix(count) as real
    ensures 0.0 <= SingleRoll(dice, kept, count).categories[j].probability <= 1.0
    ensures 0.0 <= SingleRoll(dice, kept, count).categories[j].expectedValue <= MaxScore(ALL[j]) as real
    ensures SingleRoll(dice, kept, count).categories[j].currentScore == ScoreConfig(ConfigOf(dice), ALL[j]).score
  {
    var total := PowerOfSix(count);
    var row := SingleRollRow(dice, kept, count, j);
    assert SingleRoll(dice, kept, count).categories[j] == row;
    ValidTotalAtMost(dice, kept, count, ALL[j], total);
    ScoreTotalAtMost(dice, kept, count, ALL[j], total);
    RatioAtMost(ValidTotal(dice, kept, count, ALL[j], total), total, 1);
    RatioAtMost(ScoreTotal(dice, kept, count, ALL[j], total), total, MaxScore(ALL[j]));
  }

  /** A total of at most `n · m` spread over `n` is at most `m`. */
  lemma RatioAtMost(x: nat, n: nat, m: nat)
    requires n >= 1 && x <= n * m
    ensures 0.0 <= x as real / n as real <= m as real
  {
    assert (x as real) <= (n as real) * (m as real);
  }

  /**
   * The test of a four-of-a-kind hand: rerolling the odd die makes Dicee
   * (row 11) one time in six.
   */
  lemma DiceeOneInSix(dice: seq<nat>, kept: seq<bool>)
    requires dice == [5, 5, 5, 5, 1] && kept == [true, true, true, true, false]
    ensures SingleRollRow(dice, kept, 1, 11).probability == 1.0 / 6.0
  {
    DiceeValidCount(dice, kept);
  }

  /** Of the six outcomes of rerolling the one, exactly one is five of a kind. */
  lemma DiceeValidCount(dice: seq<nat>, kept: seq<bool>)
    requires dice == [5, 5, 5, 5, 1] && kept == [true, true, true, true, false]
    ensures PowerOfSix(1) == 6 && ValidTotal(dice, kept, 1, ALL[11], PowerOfSix(1)) == 1
  {
    assert PowerOfSix(1) == 6;
    assert RerolledBefore(kept, 4) == 0 by {
      assert RerolledBefore(kept, 2) == 0;
    }
    DiceeCountStep(dice, kept, 0);
    DiceeCountStep(dice, kept, 1);
    DiceeCountStep(dice, kept, 2);
    DiceeCountStep(dice, kept, 3);
    DiceeCountStep(dice, kept, 4);
    DiceeCountStep(dice, kept, 5);
    assert ALL[11] == Dicee;
  }

  /** Outcome `n` of rerolling the last die of four fives and a one is Dicee only for `n == 4`. */
  lemma DiceeCountStep(dice: seq<nat>, kept: seq<bool>, n: nat)
    requires dice == [5, 5, 5, 5, 1] && kept == [true, true, true, true, false]
    requires RerolledBefore(kept, 4) == 0 && n < 6
    ensures ValidTotal(dice, kept, 1, Dicee, n + 1) == ValidTotal(dice, kept, 1, Dicee, n) + (if n == 4 then 1 else 0)
  {
    var hand := Outcome(dice, kept, n, 1);
    assert Digit(n, 0) == n;
    assert hand == [5, 5, 5, 5, n + 1];
    DiceeOnlyFives(hand, n + 1);
  }

  /** A hand of four fives and `x` is five of a kind exactly when `x` is five. */
  lemma DiceeOnlyFives(hand: seq<nat>, x: nat)
    requires 1 <= x <= 6 && hand == [5, 5, 5, 5, x]
    ensures HandScore(hand, Dicee).valid <==> x == 5
  {
    var c := ConfigOf(hand);
    forall i | 0 <= i < 6 ensures c.counts[i] == (if i == 4 then 4 else 0) + (if x == i + 1 then 1 else 0) {
      OccurrencesFive(hand, i + 1);
    }
    DiceeScore(c);
    assert !IsUpper(Dicee);
    if x == 5 {
      assert c.counts[4] == 5;
    } else {
      assert forall i :: 0 <= i < 6 ==> c.counts[i] != 5;
    }
  }

  // ---------------------------------------------------------------------------
  // calculate_all
  // ---------------------------------------------------------------------------

  /**
   * What `calculate_all` returns: the hand as it is with no roll left or no
   * die rerolled, one reroll of the dice not kept otherwise, however many
   * rolls are left.
   */
  function AllResult(dice: seq<nat>, kept: seq<bool>, rollsRemaining: nat): (r: ProbabilityResult)
    requires ValidDice(dice) && ValidKept(kept)
  {
    if rollsRemaining == 0 || RerollCount(kept) == 0 then CalculateCurrent(dice)
    else SingleRoll(dice, kept, RerollCount(kept))
  }

  /** `calculate_all`: the dispatch, counting the dice not kept. */
  method CalculateAll(dice: seq<nat>, kept: seq<bool>, rollsRemaining: nat) returns (r: ProbabilityResult)
    requires ValidDice(dice) && ValidKept(kept)
    ensures r == AllResult(dice, kept, rollsRemaining)
  {
    if rollsRemaining == 0 {
      return CalculateCurrent(dice);
    }
    var rerollCount := 0;
    for i := 0 to 5
      invariant rerollCount == RerolledBefore(kept, i)
    {
      if !kept[i] {
        rerollCount := rerollCount + 1;
      }
    }
    if rerollCount == 0 {
      return CalculateCurrent(dice);
    }
    if rollsRemaining == 1 {
      r := CalculateSingleRoll(dice, kept, rerollCount);
    } else {
      r := CalculateSingleRoll(dice, kept, rerollCount);
    }
  }

  /**
   * Every roll count from one up gives the single-roll answer, and with every
   * die kept the answer is the present hand's whatever the rolls left.
   */
  lemma AllResultCases(dice: seq<nat>, kept: seq<bool>, rollsRemaining: nat)
    requires ValidDice(dice) && ValidKept(kept)
    ensures rollsRemaining >= 1 ==> AllResult(dice, kept, rollsRemaining) == AllResult(dice, kept, 1)
    ensures rollsRemaining == 0 ==> AllResult(dice, kept, rollsRemaining) == CalculateCurrent(dice)
    ensures kept == [true, true, true, true, true] ==> AllResult(dice, kept, rollsRemaining) == CalculateCurrent(dice)
  {
    if kept == [true, true, true, true, true] {
      assert RerolledBefore(kept, 1) == 0;
      assert RerolledBefore(kept, 3) == 0;
      assert RerolledBefore(kept, 5) == 0;
    }
  }
}
