/**
 * The transition table (transition/table.rs): for every vector of kept
 * counts and number of dice thrown, the configurations the throw can reach
 * with their probabilities, and the expectation of a scorer over them.
 */
module TransitionTables {
  import opened Combinatorics
  import opened Wrappers
  import opened Config
  import opened Keep
  import opened Probabilities
  import opened KeepEnumeration

  /** One reachable configuration and the probability of reaching it. */
  datatype TransitionEntry = TransitionEntry(target: ConfigIndex, probability: Probability)

  /** `PartialKey`: the kept counts and the number of dice thrown. */
  datatype PartialKey = PartialKey(kept: seq<nat>, toRoll: nat)

  /** The keys `build` fills: six kept counts, and the dice left over are the ones thrown. */
  predicate ValidKey(key: PartialKey)
  {
    |key.kept| == 6 && key.toRoll <= 5 && Sum(key.kept) + key.toRoll == 5
  }

  /** `PartialKey::from(&partial)`. */
  function KeyOf(p: PartialDice): (key: PartialKey)
    requires WellFormed(p.kept)
    ensures ValidKey(key) && key.kept == p.kept.kept
  {
    KeptPlusRolled(p.kept);
    PartialKey(p.kept.kept, DiceToRoll(p.kept))
  }

  // ---------------------------------------------------------------------------
  // compute_transition_prob
  // ---------------------------------------------------------------------------

  /**
   * `compute_transition_prob`: the needed counts face by face, giving up at
   * the first face the target holds fewer of than are kept, then the total
   * compared with the number of dice thrown. It agrees with
   * `transition_probability` on every input.
   */
  method ComputeTransitionProb(kept: seq<nat>, target: Config, toRoll: nat) returns (r: Option<Probability>)
    requires |kept| == 6 && toRoll <= 5
    ensures r == TransitionSpec(kept, target.counts, toRoll)
  {
    var targetCounts := target.counts;
    var needed := new nat[6](_ => 0);
    for i := 0 to 6
      invariant forall j :: 0 <= j < i ==> kept[j] <= targetCounts[j] && needed[j] == targetCounts[j] - kept[j]
    {
      if targetCounts[i] < kept[i] {
        return None;
      }
      needed[i] := targetCounts[i] - kept[i];
    }
    assert needed[..] == Minus(targetCounts, kept);
    MinusSum(targetCounts, kept);
    var neededSum := Sum(needed[..]);
    if neededSum != toRoll {
      return None;
    }
    r := Some(RollOutcomeProbability(needed[..], toRoll));
  }

  // ---------------------------------------------------------------------------
  // The entries of one key
  // ---------------------------------------------------------------------------

  /**
   * The entries `build` collects for `kept` and `toRoll` from configuration
   * index `i` on: every index whose transition probability exists and is
   * not zero, in index order.
   */
  function EntriesFrom(kept: seq<nat>, toRoll: nat, i: nat): seq<TransitionEntry>
    requires |kept| == 6 && toRoll <= 5 && i <= 252
    decreases 252 - i
  {
    if i == 252 then []
    else
      var p := TransitionSpec(kept, FromIndex(i as ConfigIndex).counts, toRoll);
      (if p.Some? && !IsZero(p.value) then [TransitionEntry(i as ConfigIndex, p.value)] else [])
        + EntriesFrom(kept, toRoll, i + 1)
  }

  lemma EntriesFromStep(kept: seq<nat>, toRoll: nat, i: nat, p: Option<Probability>)
    requires |kept| == 6 && toRoll <= 5 && i < 252
    requires p == TransitionSpec(kept, FromIndex(i as ConfigIndex).counts, toRoll)
    ensures EntriesFrom(kept, toRoll, i)
      == (if p.Some? && !IsZero(p.value) then [TransitionEntry(i as ConfigIndex, p.value)] else [])
         + EntriesFrom(kept, toRoll, i + 1)
  {
  }

  /** The entries of the key (`kept`, `toRoll`). */
  function Entries(kept: seq<nat>, toRoll: nat): seq<TransitionEntry>
    requires |kept| == 6 && toRoll <= 5
  {
    EntriesFrom(kept, toRoll, 0)
  }

  /**
   * The entries from index `i` on correspond one to one, in order, to the
   * configurations from `i` on that hold every kept die: entry `j` has the
   * probability of throwing the difference, and its target less `kept` is
   * that difference.
   */
  lemma {:induction false} EntriesShifted(kept: seq<nat>, toRoll: nat, i: nat)
    requires ValidKey(PartialKey(kept, toRoll)) && i <= 252
    ensures |EntriesFrom(kept, toRoll, i)| == |Shifted(AllConfigCounts()[i..], kept)|
    ensures forall j :: 0 <= j < |EntriesFrom(kept, toRoll, i)| ==>
      EntryMatches(EntriesFrom(kept, toRoll, i)[j], Shifted(AllConfigCounts()[i..], kept)[j], kept, toRoll)
    decreases 252 - i
  {
    var all := AllConfigCounts();
    if i == 252 {
      assert all[i..] == [];
    } else {
      AllConfigsFacts();
      EntriesShifted(kept, toRoll, i + 1);
      assert all[i..][1..] == all[i + 1..];
      var t := FromIndex(i as ConfigIndex).counts;
      assert t == all[i..][0];
      var p := TransitionSpec(kept, t, toRoll);
      if p.Some? {
        RollOutcomeBounds(Minus(t, kept), toRoll);
      }
      var head := if p.Some? && !IsZero(p.value) then [TransitionEntry(i as ConfigIndex, p.value)] else [];
      var shead := if AtLeast(t, kept) then [Minus(t, kept)] else [];
      assert EntriesFrom(kept, toRoll, i) == head + EntriesFrom(kept, toRoll, i + 1);
      assert Shifted(all[i..], kept) == shead + Shifted(all[i + 1..], kept);
      assert |head| == |shead|;
      forall j | 0 <= j < |EntriesFrom(kept, toRoll, i)|
        ensures EntryMatches(EntriesFrom(kept, toRoll, i)[j], Shifted(all[i..], kept)[j], kept, toRoll)
      {
        if j >= |head| {
          assert EntriesFrom(kept, toRoll, i)[j] == EntriesFrom(kept, toRoll, i + 1)[j - |head|];
          assert Shifted(all[i..], kept)[j] == Shifted(all[i + 1..], kept)[j - |head|];
        }
      }
    }
  }

  /** Entry `e` reaches `kept + x` with the probability of throwing `x`. */
  predicate EntryMatches(e: TransitionEntry, x: seq<nat>, kept: seq<nat>, toRoll: nat)
  {
    |x| == 6 && toRoll <= 5 && Sum(x) == toRoll
    && AtLeast(FromIndex(e.target).counts, kept) && Minus(FromIndex(e.target).counts, kept) == x
    && e.probability == RollOutcomeProbability(x, toRoll)
  }

  /**
   * The entries of a key are the outcomes of throwing `toRoll` dice, in the
   * enumeration order of `for_each_roll_outcome`: one entry per outcome,
   * with that outcome's probability.
   */
  lemma EntriesOutcomes(kept: seq<nat>, toRoll: nat)
    requires ValidKey(PartialKey(kept, toRoll))
    ensures |Entries(kept, toRoll)| == |Comp(toRoll, 6)|
    ensures forall j :: 0 <= j < |Entries(kept, toRoll)| ==>
      EntryMatches(Entries(kept, toRoll)[j], Comp(toRoll, 6)[j], kept, toRoll)
  {
    EntriesShifted(kept, toRoll, 0);
    assert AllConfigCounts()[0..] == Comp(5, 6);
    ShiftComp(5, 6, kept);
  }

  /**
   * `build` keeps exactly the targets of nonzero probability: an entry is
   * there exactly when the transition to its target is possible and it
   * carries that probability; no possible transition has probability zero.
   */
  lemma {:induction false} EntriesFromMember(kept: seq<nat>, toRoll: nat, i: nat, e: TransitionEntry)
    requires ValidKey(PartialKey(kept, toRoll)) && i <= 252
    ensures e in EntriesFrom(kept, toRoll, i) <==>
      i <= e.target as int && TransitionSpec(kept, FromIndex(e.target).counts, toRoll) == Some(e.probability)
    decreases 252 - i
  {
    if i < 252 {
      EntriesFromMember(kept, toRoll, i + 1, e);
      var p := TransitionSpec(kept, FromIndex(i as ConfigIndex).counts, toRoll);
      if p.Some? {
        RollOutcomeBounds(Minus(FromIndex(i as ConfigIndex).counts, kept), toRoll);
      }
    }
  }

  lemma EntriesMember(kept: seq<nat>, toRoll: nat, e: TransitionEntry)
    requires ValidKey(PartialKey(kept, toRoll))
    ensures e in Entries(kept, toRoll) <==> TransitionSpec(kept, FromIndex(e.target).counts, toRoll) == Some(e.probability)
  {
    EntriesFromMember(kept, toRoll, 0, e);
  }

  // ---------------------------------------------------------------------------
  // Mass and expectation of a list of entries
  // ---------------------------------------------------------------------------

  /** Σ probability over the entries. */
  function EntryMass(es: seq<TransitionEntry>): real
  {
    if es == [] then 0.0 else es[0].probability.value + EntryMass(es[1..])
  }

  /** One term of `expected_value`: the probability times the scorer's value of the target. */
  function EntryWeighted(e: TransitionEntry, f: Config -> real): real
  {
    e.probability.value * ScorerAt(e, f)
  }

  /** The scorer's value of an entry's target. */
  function ScorerAt(e: TransitionEntry, f: Config -> real): real
  {
    f(FromIndex(e.target))
  }

  /** Σ probability × f(from_index(target)) over the entries. */
  function EntriesExpectation(es: seq<TransitionEntry>, f: Config -> real): real
  {
    if es == [] then 0.0 else EntryWeighted(es[0], f) + EntriesExpectation(es[1..], f)
  }

  /**
   * One step of a running sum of the expectation: adding the term of entry
   * `i`, the scorer's value of its target computed apart as `value`.
   */
  lemma ExpectationStep(es: seq<TransitionEntry>, i: nat, f: Config -> real, total: real, value: real)
    requires i < |es| && value == ScorerAt(es[i], f)
    requires total + EntriesExpectation(es[i..], f) == EntriesExpectation(es, f)
    ensures (total + es[i].probability.value * value) + EntriesExpectation(es[i + 1..], f) == EntriesExpectation(es, f)
  {
    var w := EntryWeighted(es[i], f);
    assert w == es[i].probability.value * value by {
      ScaleEqual(es[i].probability.value, value, ScorerAt(es[i], f));
    }
    assert EntriesExpectation(es[i..], f) == w + EntriesExpectation(es[i + 1..], f) by {
      assert es[i..][0] == es[i];
      assert es[i..][1..] == es[i + 1..];
    }
  }

  /** Equal factors give equal products (stated apart, so the products are identified directly). */
  lemma ScaleEqual(p: real, a: real, b: real)
    requires a == b
    ensures p * a == p * b
  {
  }

  /** Entries matching outcomes one to one carry the outcomes' total probability. */
  lemma {:induction false} MassOfOutcomes(es: seq<TransitionEntry>, L: seq<seq<nat>>, kept: seq<nat>, k: nat)
    requires |es| == |L| && k <= 5 && Outcomes(L, k)
    requires forall j :: 0 <= j < |es| ==> EntryMatches(es[j], L[j], kept, k)
    ensures EntryMass(es) == Expectation(L, k, One)
  {
    if es != [] {
      OutcomesTail(L, k);
      MassOfOutcomes(es[1..], L[1..], kept, k);
      assert EntryMatches(es[0], L[0], kept, k);
      WeightedOne(L[0], k);
    }
  }

  /**
   * A scorer of configurations read as a scorer of roll outcomes: the
   * outcome `o` thrown beside the kept dice makes the configuration
   * `kept + o`. Vectors that are no configuration score zero; no outcome of
   * a valid key is one of them.
   */
  function AfterKeep(kept: seq<nat>, f: Config -> real): seq<nat> -> real
  {
    (o: seq<nat>) => if |o| == |kept| && ValidCounts(Plus(o, kept)) then f(DiceConfig(Plus(o, kept))) else 0.0
  }

  /** An entry matching outcome `x` weighs what `x` weighs under the scorer read through the kept dice. */
  lemma EntryWeightedOutcome(e: TransitionEntry, x: seq<nat>, kept: seq<nat>, k: nat, f: Config -> real)
    requires EntryMatches(e, x, kept, k)
    ensures EntryWeighted(e, f) == Weighted(x, k, AfterKeep(kept, f))
  {
    var g := AfterKeep(kept, f);
    assert g(x) == ScorerAt(e, f) by {
      var t := FromIndex(e.target);
      PlusMinus(t.counts, kept);
      assert DiceConfig(Plus(x, kept)) == t;
    }
    WeightsAgree(e, x, k, f, g);
  }

  /** An entry and an outcome of the same probability and the same value weigh the same. */
  lemma WeightsAgree(e: TransitionEntry, x: seq<nat>, k: nat, f: Config -> real, g: seq<nat> -> real)
    requires |x| == 6 && Sum(x) == k && k <= 5
    requires e.probability == RollOutcomeProbability(x, k) && g(x) == ScorerAt(e, f)
    ensures EntryWeighted(e, f) == Weighted(x, k, g)
  {
    EntryWeightedScaled(e, f);
    WeightedScaled(x, k, g);
    ScaledAgree(e, x, k, f, g);
  }

  /** The two weights, each written through `Scaled`. */
  lemma EntryWeightedScaled(e: TransitionEntry, f: Config -> real)
    ensures EntryWeighted(e, f) == Scaled(e.probability, ScorerAt(e, f))
  {
  }

  lemma WeightedScaled(x: seq<nat>, k: nat, g: seq<nat> -> real)
    requires |x| == 6 && Sum(x) == k && k <= 5
    ensures Weighted(x, k, g) == Scaled(RollOutcomeProbability(x, k), g(x))
  {
  }

  /** Equal factors, equal products. */
  lemma ScaledAgree(e: TransitionEntry, x: seq<nat>, k: nat, f: Config -> real, g: seq<nat> -> real)
    requires |x| == 6 && Sum(x) == k && k <= 5
    requires e.probability == RollOutcomeProbability(x, k) && g(x) == ScorerAt(e, f)
    ensures Scaled(e.probability, ScorerAt(e, f)) == Scaled(RollOutcomeProbability(x, k), g(x))
  {
  }

  /** A probability times a value, named so that equal factors give equal products by congruence. */
  function Scaled(p: Probability, v: real): real
  {
    p.value * v
  }

  /** Entries matching outcomes one to one have the outcomes' expectation. */
  lemma {:induction false} ExpectationOfOutcomes(es: seq<TransitionEntry>, L: seq<seq<nat>>, kept: seq<nat>, k: nat, f: Config -> real)
    requires |es| == |L| && k <= 5 && Outcomes(L, k)
    requires forall j :: 0 <= j < |es| ==> EntryMatches(es[j], L[j], kept, k)
    ensures EntriesExpectation(es, f) == Expectation(L, k, AfterKeep(kept, f))
  {
    if es != [] {
      OutcomesTail(L, k);
      ExpectationOfOutcomes(es[1..], L[1..], kept, k, f);
      EntryWeightedOutcome(es[0], L[0], kept, k, f);
    }
  }

  /**
   * The table's expectation of a key is the direct expectation over every
   * outcome of throwing the dice not kept, each scored as the configuration
   * it completes.
   */
  lemma EntriesRollExpectation(kept: seq<nat>, toRoll: nat, f: Config -> real)
    requires ValidKey(PartialKey(kept, toRoll))
    ensures EntriesExpectation(Entries(kept, toRoll), f) == RollExpectation(toRoll, AfterKeep(kept, f))
  {
    var es, L := Entries(kept, toRoll), Comp(toRoll, 6);
    assert Outcomes(L, toRoll) by { CompElements(toRoll, 6); }
    assert |es| == |L| && forall j :: 0 <= j < |es| ==> EntryMatches(es[j], L[j], kept, toRoll) by {
      EntriesOutcomes(kept, toRoll);
    }
    ExpectationOfOutcomes(es, L, kept, toRoll, f);
  }

  /** For every key `build` fills, the probabilities of the entries add up to one. */
  lemma EntriesSumToOne(kept: seq<nat>, toRoll: nat)
    requires ValidKey(PartialKey(kept, toRoll))
    ensures EntryMass(Entries(kept, toRoll)) == 1.0
  {
    var es, L := Entries(kept, toRoll), Comp(toRoll, 6);
    assert Outcomes(L, toRoll) by { CompElements(toRoll, 6); }
    assert |es| == |L| && forall j :: 0 <= j < |es| ==> EntryMatches(es[j], L[j], kept, toRoll) by {
      EntriesOutcomes(kept, toRoll);
    }
    assert EntryMass(es) == Expectation(L, toRoll, One) by { MassOfOutcomes(es, L, kept, toRoll); }
    assert Expectation(L, toRoll, One) == 1.0 by { ProbabilitiesSumToOne(toRoll); }
  }

  /** Every entry's probability lies in (0, 1]. */
  lemma EntryProbabilities(kept: seq<nat>, toRoll: nat)
    requires ValidKey(PartialKey(kept, toRoll))
    ensures forall e :: e in Entries(kept, toRoll) ==> 0.0 < e.probability.value <= 1.0
  {
    forall e | e in Entries(kept, toRoll) ensures 0.0 < e.probability.value <= 1.0 {
      EntriesMember(kept, toRoll, e);
      var t := FromIndex(e.target).counts;
      RollOutcomeBounds(Minus(t, kept), toRoll);
    }
  }

  /** Keeping all five dice leaves one entry: the configuration itself, with probability one. */
  lemma KeepAllEntries(c: Config)
    ensures ValidKey(PartialKey(c.counts, 0))
    ensures |Entries(c.counts, 0)| == 1
    ensures FromIndex(Entries(c.counts, 0)[0].target) == c
    ensures Entries(c.counts, 0)[0].probability == ONE
  {
    EntriesOutcomes(c.counts, 0);
    CompZero(6);
    var t := FromIndex(Entries(c.counts, 0)[0].target).counts;
    assert Minus(t, c.counts) == Zeros(6);
    forall i | 0 <= i < 6 ensures t[i] == c.counts[i] {
      assert Minus(t, c.counts)[i] == 0;
    }
    assert t == c.counts;
  }

  /** Keeping nothing, all 252 configurations are reachable. */
  lemma KeepNoneEntries()
    ensures ValidKey(PartialKey(KEEP_NONE.kept, 5))
    ensures |Entries(KEEP_NONE.kept, 5)| == 252
  {
    Sum6(KEEP_NONE.kept);
    EntriesOutcomes(KEEP_NONE.kept, 5);
    assert |Comp(5, 6)| == |AllConfigCounts()|;
  }

  lemma ScaledStep(p: real, v: real, hi: real, rest: real, mrest: real)
    requires 0.0 <= p && 0.0 <= v <= hi && 0.0 <= rest <= hi * mrest
    ensures 0.0 <= p * v + rest <= hi * (p + mrest)
  {
    assert p * (hi - v) >= 0.0;
  }

  /** Values within [0, hi] average, with weights summing to `m`, to within [0, hi·m]. */
  lemma {:induction false} ExpectationWithin(es: seq<TransitionEntry>, f: Config -> real, hi: real, mass: real)
    requires forall e :: e in es ==> 0.0 <= e.probability.value
    requires forall c: Config :: 0.0 <= f(c) <= hi
    requires mass == EntryMass(es)
    ensures 0.0 <= EntriesExpectation(es, f) <= hi * mass
  {
    if es != [] {
      assert es[0] in es;
      forall e | e in es[1..] ensures 0.0 <= e.probability.value {
        assert e in es;
      }
      ExpectationWithin(es[1..], f, hi, EntryMass(es[1..]));
      ScaledStep(es[0].probability.value, f(FromIndex(es[0].target)), hi,
        EntriesExpectation(es[1..], f), EntryMass(es[1..]));
    }
  }

  lemma WeightedStep(p: real, a: real, b: real)
    requires 0.0 <= p && a <= b
    ensures p * a <= p * b
  {
    assert p * (b - a) >= 0.0;
  }

  /** A scorer that is pointwise no larger has no larger expectation. */
  lemma {:induction false} ExpectationMonotone(es: seq<TransitionEntry>, f: Config -> real, g: Config -> real)
    requires forall e :: e in es ==> 0.0 <= e.probability.value
    requires forall c: Config :: f(c) <= g(c)
    ensures EntriesExpectation(es, f) <= EntriesExpectation(es, g)
  {
    if es != [] {
      assert es[0] in es;
      forall e | e in es[1..] ensures 0.0 <= e.probability.value {
        assert e in es;
      }
      ExpectationMonotone(es[1..], f, g);
      WeightedStep(es[0].probability.value, f(FromIndex(es[0].target)), g(FromIndex(es[0].target)));
    }
  }

  /** The expectation over a key's entries of a scorer within [0, hi] lies within [0, hi]. */
  lemma EntriesExpectationBounds(kept: seq<nat>, toRoll: nat, f: Config -> real, hi: real)
    requires ValidKey(PartialKey(kept, toRoll))
    requires forall c: Config :: 0.0 <= f(c) <= hi
    ensures 0.0 <= EntriesExpectation(Entries(kept, toRoll), f) <= hi
  {
    var es := Entries(kept, toRoll);
    assert forall e :: e in es ==> 0.0 <= e.probability.value by { EntryProbabilities(kept, toRoll); }
    assert EntryMass(es) == 1.0 by { EntriesSumToOne(kept, toRoll); }
    ExpectationWithin(es, f, hi, 1.0);
  }

  /** The expectation over a key's entries is monotone in the scorer. */
  lemma EntriesExpectationMonotone(kept: seq<nat>, toRoll: nat, f: Config -> real, g: Config -> real)
    requires ValidKey(PartialKey(kept, toRoll))
    requires forall c: Config :: f(c) <= g(c)
    ensures EntriesExpectation(Entries(kept, toRoll), f) <= EntriesExpectation(Entries(kept, toRoll), g)
  {
    EntryProbabilities(kept, toRoll);
    ExpectationMonotone(Entries(kept, toRoll), f, g);
  }

  /** Every key has an entry: the throw reaches at least one configuration. */
  lemma EntriesNonEmpty(kept: seq<nat>, toRoll: nat)
    requires ValidKey(PartialKey(kept, toRoll))
    ensures Entries(kept, toRoll) != []
  {
    EntriesOutcomes(kept, toRoll);
    CompLength(toRoll, 6);
    BinomPositive(toRoll + 5, 5);
  }

  /** The keep patterns of `5 - toRoll` kept dice include every key with `toRoll` dice thrown. */
  lemma PatternsCover(toRoll: nat, patterns: seq<seq<nat>>)
    requires toRoll <= 5 && patterns == Comp(5 - toRoll, 6)
    ensures forall key :: ValidKey(key) && key.toRoll == toRoll ==> key.kept in patterns
    ensures forall i :: 0 <= i < |patterns| ==> ValidKey(PartialKey(patterns[i], toRoll))
  {
    forall i | 0 <= i < |patterns| ensures ValidKey(PartialKey(patterns[i], toRoll)) {
      CompMember(5 - toRoll, 6, patterns[i]);
    }
    forall key | ValidKey(key) && key.toRoll == toRoll ensures key.kept in patterns {
      CompMember(5 - toRoll, 6, key.kept);
    }
  }

  /** Every key of `table` is one `build` fills, stored with its entries. */
  ghost predicate Stored(table: map<PartialKey, seq<TransitionEntry>>)
  {
    forall key :: key in table ==> ValidKey(key) && table[key] == Entries(key.kept, key.toRoll)
  }

  /**
   * The body of `build`'s loop for one number of dice thrown: for each keep
   * pattern of the other dice, its entries, stored when there are any.
   */
  method AddKeys(table: map<PartialKey, seq<TransitionEntry>>, toRoll: nat)
      returns (table': map<PartialKey, seq<TransitionEntry>>)
    requires toRoll <= 5 && Stored(table)
    ensures Stored(table')
    ensures forall key :: key in table ==> key in table'
    ensures forall key :: ValidKey(key) && key.toRoll == toRoll ==> key in table'
  {
    var patterns := ForEachKeepPattern(5 - toRoll);
    PatternsCover(toRoll, patterns);
    table' := table;
    for j := 0 to |patterns|
      invariant Stored(table')
      invariant forall key :: key in table ==> key in table'
      invariant forall i :: 0 <= i < j ==> PartialKey(patterns[i], toRoll) in table'
    {
      var kept := patterns[j];
      var entries := CollectEntries(kept, toRoll);
      EntriesNonEmpty(kept, toRoll);
      if entries != [] {
        StoreKey(table', table, patterns, toRoll, j, entries);
        table' := table'[PartialKey(kept, toRoll) := entries];
      }
    }
  }

  /** Storing the entries of pattern `j` keeps the loop's facts, now up to `j + 1`. */
  lemma StoreKey(table: map<PartialKey, seq<TransitionEntry>>, before: map<PartialKey, seq<TransitionEntry>>,
                 patterns: seq<seq<nat>>, toRoll: nat, j: nat, entries: seq<TransitionEntry>)
    requires j < |patterns| && ValidKey(PartialKey(patterns[j], toRoll))
    requires entries == Entries(patterns[j], toRoll)
    requires Stored(table) && forall key :: key in before ==> key in table
    requires forall i :: 0 <= i < j ==> PartialKey(patterns[i], toRoll) in table
    ensures var t := table[PartialKey(patterns[j], toRoll) := entries];
      Stored(t) && (forall key :: key in before ==> key in t)
      && forall i :: 0 <= i < j + 1 ==> PartialKey(patterns[i], toRoll) in t
  {
  }

  // ---------------------------------------------------------------------------
  // The table
  // ---------------------------------------------------------------------------

  /** `TransitionTable`: the entries of every key, by key. */
  class TransitionTable {
    var transitions: map<PartialKey, seq<TransitionEntry>>

    /** Every key `build` fills is present, with its entries, and no other key is. */
    ghost predicate Valid()
      reads this
    {
      (forall key :: key in transitions ==> ValidKey(key) && transitions[key] == Entries(key.kept, key.toRoll))
      && (forall key :: ValidKey(key) ==> key in transitions)
    }

    /**
     * `build`: for each number of dice to throw, each keep pattern of the
     * remaining dice, the entries over all 252 targets; a key is stored
     * when it has any entry, which every key does.
     */
    constructor Build()
      ensures Valid()
    {
      var table: map<PartialKey, seq<TransitionEntry>> := map[];
      for toRoll := 0 to 6
        invariant Stored(table)
        invariant forall key :: ValidKey(key) && key.toRoll < toRoll ==> key in table
      {
        table := AddKeys(table, toRoll);
      }
      transitions := table;
    }

    /** `get(partial)`: the entries of the partial hand's key; none for a key that is absent. */
    function Get(p: PartialDice): (r: seq<TransitionEntry>)
      requires WellFormed(p.kept)
      reads this
      ensures KeyOf(p) !in transitions ==> r == []
      ensures Valid() ==> r == Entries(p.kept.kept, DiceToRoll(p.kept))
    {
      var key := KeyOf(p);
      if key in transitions then transitions[key] else []
    }

    /** `expected_value(partial, scorer)`: Σ probability × scorer(from_index(target)) over `get`. */
    method ExpectedValue(p: PartialDice, scorer: Config -> real) returns (ev: real)
      requires WellFormed(p.kept)
      ensures ev == EntriesExpectation(Get(p), scorer)
      ensures Valid() ==> ev == RollExpectation(DiceToRoll(p.kept), AfterKeep(p.kept.kept, scorer))
    {
      var entries := Get(p);
      var total := 0.0;
      for i := 0 to |entries|
        invariant total + EntriesExpectation(entries[i..], scorer) == EntriesExpectation(entries, scorer)
      {
        assert entries[i..][1..] == entries[i + 1..];
        var config := FromIndex(entries[i].target);
        var value := scorer(config);
        total := total + entries[i].probability.value * value;
      }
      assert entries[|entries|..] == [];
      ev := total;
      if Valid() {
        EntriesRollExpectation(p.kept.kept, DiceToRoll(p.kept), scorer);
      }
    }
  }

  /**
   * The loop of `build` over `ALL_CONFIGS` for one key: each target's
   * transition probability, kept when it exists and is not zero.
   */
  method CollectEntries(kept: seq<nat>, toRoll: nat) returns (entries: seq<TransitionEntry>)
    requires |kept| == 6 && toRoll <= 5
    ensures entries == Entries(kept, toRoll)
  {
    entries := [];
    for idx := 0 to 252
      invariant entries + EntriesFrom(kept, toRoll, idx) == Entries(kept, toRoll)
    {
      var target := FromIndex(idx as ConfigIndex);
      var prob := ComputeTransitionProb(kept, target, toRoll);
      ghost var x: seq<TransitionEntry> := if prob.Some? && !IsZero(prob.value)
        then [TransitionEntry(idx as ConfigIndex, prob.value)] else [];
      EntriesFromStep(kept, toRoll, idx, prob);
      MoveHead(entries, x, EntriesFrom(kept, toRoll, idx + 1), Entries(kept, toRoll));
      if prob.Some? && !IsZero(prob.value) {
        entries := entries + [TransitionEntry(idx as ConfigIndex, prob.value)];
      } else {
        assert entries + x == entries;
      }
    }
    assert EntriesFrom(kept, toRoll, 252) == [];
  }

  /** Moving the head `x` of the rest onto the end of what is collected keeps the whole. */
  lemma MoveHead(before: seq<TransitionEntry>, x: seq<TransitionEntry>, rest: seq<TransitionEntry>,
                 total: seq<TransitionEntry>)
    requires before + (x + rest) == total
    ensures (before + x) + rest == total
  {
    assert before + (x + rest) == (before + x) + rest;
  }
}
