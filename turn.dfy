/**
 * The state of one turn and the analysis the solver returns (core/turn.rs):
 * the configuration and rolls left, the two kinds of action, the value of
 * each category and the orderings of those values the analysis offers.
 */
module Turns {
  import opened Wrappers
  import opened Config
  import opened Categories
  import opened Keep

  /** An unsigned byte, the width of `rolls_remaining`. */
  type U8 = x: nat | x < 256

  /** The most rolls that can remain after the first throw. */
  const MAX_ROLLS: U8 := 2

  const TOO_MANY_ROLLS: string := "At most 2 rerolls allowed"

  /** `TurnState`: the configuration showing and the rolls still allowed. */
  datatype TurnState = TurnState(config: Config, rollsRemaining: U8)

  /** `TurnState::new`: panics when more than two rolls would remain. */
  function NewTurnState(config: Config, rollsRemaining: U8): (r: Checked<TurnState>)
    ensures r.Returns? <==> rollsRemaining <= MAX_ROLLS
    ensures r.Returns? ==> r.value.config == config && r.value.rollsRemaining == rollsRemaining
    ensures r.Panics? ==> r.message == TOO_MANY_ROLLS
  {
    if rollsRemaining <= MAX_ROLLS then Returns(TurnState(config, rollsRemaining))
    else Panics(TOO_MANY_ROLLS)
  }

  /** `TurnState::from_dice`: count the hand, then `new`. */
  method TurnFromDice(dice: seq<nat>, rollsRemaining: U8) returns (r: Checked<TurnState>)
    requires ValidDice(dice)
    ensures r == NewTurnState(ConfigOf(dice), rollsRemaining)
  {
    var config := FromDice(dice);
    r := NewTurnState(config, rollsRemaining);
  }

  /** `can_reroll`: some roll is left. */
  predicate CanReroll(s: TurnState)
  {
    s.rollsRemaining > 0
  }

  /** `must_score`: no roll is left. */
  predicate MustScore(s: TurnState)
  {
    s.rollsRemaining == 0
  }

  /** Every state either allows a reroll or forces a score, never both. */
  lemma RerollOrScore(s: TurnState)
    ensures CanReroll(s) <==> !MustScore(s)
  {
  }

  /** A state built by `new` has at most two rolls left, so it can roll at most twice more. */
  lemma NewStateBounds(config: Config, rollsRemaining: U8)
    requires NewTurnState(config, rollsRemaining).Returns?
    ensures NewTurnState(config, rollsRemaining).value.rollsRemaining <= 2
    ensures CanReroll(NewTurnState(config, rollsRemaining).value) <==> 1 <= rollsRemaining <= 2
  {
  }

  /** The turn-state cases of the module's own tests. */
  lemma TurnStateExamples(dice: seq<nat>)
    requires dice == [1, 2, 3, 4, 5]
    ensures NewTurnState(ConfigOf(dice), 2).Returns?
    ensures CanReroll(NewTurnState(ConfigOf(dice), 2).value)
    ensures !MustScore(NewTurnState(ConfigOf(dice), 2).value)
    ensures MustScore(NewTurnState(ConfigOf(dice), 0).value)
    ensures !CanReroll(NewTurnState(ConfigOf(dice), 0).value)
    ensures NewTurnState(ConfigOf(dice), 3) == Panics(TOO_MANY_ROLLS)
  {
  }

  // ---------------------------------------------------------------------------
  // Actions
  // ---------------------------------------------------------------------------

  /** `Action`: score a category now, or throw again keeping some dice. */
  datatype Action = Score(category: Category) | Reroll(keep: KeepPattern)

  /** `is_score`. */
  predicate IsScore(a: Action)
  {
    a.Score?
  }

  /** `is_reroll`. */
  predicate IsReroll(a: Action)
  {
    a.Reroll?
  }

  /** Every action is exactly one of the two kinds. */
  lemma ActionKinds(a: Action)
    ensures IsScore(a) <==> !IsReroll(a)
    ensures IsScore(a) ==> a == Score(a.category)
    ensures IsReroll(a) ==> a == Reroll(a.keep)
  {
  }

  // ---------------------------------------------------------------------------
  // Analysis
  // ---------------------------------------------------------------------------

  /** `CategoryValue`: a category's score now, its validity, and its value if play continues. */
  datatype CategoryValue = CategoryValue(category: Category, immediateScore: U8, isValid: bool, expectedValue: real)

  /** `TurnAnalysis`: everything `analyze` reports about a state. */
  datatype TurnAnalysis = TurnAnalysis(
    state: TurnState,
    available: CategorySet,
    categoryValues: seq<CategoryValue>,
    bestImmediate: Option<(Category, U8)>,
    continueValue: real,
    optimalKeep: KeepPattern,
    recommendation: Action,
    expectedValue: real)

  /** `should_reroll`: the recommendation is a reroll. */
  predicate ShouldReroll(t: TurnAnalysis)
  {
    IsReroll(t.recommendation)
  }

  /** `should_score`: the recommendation is to score. */
  predicate ShouldScore(t: TurnAnalysis)
  {
    IsScore(t.recommendation)
  }

  /** The two questions always get opposite answers. */
  lemma RerollOrScoreRecommended(t: TurnAnalysis)
    ensures ShouldReroll(t) <==> !ShouldScore(t)
  {
    ActionKinds(t.recommendation);
  }

  // ---------------------------------------------------------------------------
  // Orderings: a stable sort, largest key first
  // ---------------------------------------------------------------------------

  /** The key `sorted_by_ev` orders by. */
  function EvKey(v: CategoryValue): real
  {
    v.expectedValue
  }

  /** The key `sorted_by_immediate` orders by. */
  function ImmediateKey(v: CategoryValue): real
  {
    v.immediateScore as real
  }

  /** Largest key first. */
  predicate Descending(s: seq<CategoryValue>, key: CategoryValue -> real)
  {
    forall i, j :: 0 <= i < j < |s| ==> key(s[i]) >= key(s[j])
  }

  /** The values whose key is `k`, in their order in `s`. */
  function WithKey(s: seq<CategoryValue>, key: CategoryValue -> real, k: real): (r: seq<CategoryValue>)
    ensures |r| <= |s|
  {
    if s == [] then []
    else (if key(s[0]) == k then [s[0]] else []) + WithKey(s[1..], key, k)
  }

  /** Put `x` in front of the first value whose key is no larger, so it stays ahead of its equals. */
  function Insert(x: CategoryValue, s: seq<CategoryValue>, key: CategoryValue -> real): seq<CategoryValue>
  {
    if s == [] || key(s[0]) <= key(x) then [x] + s
    else [s[0]] + Insert(x, s[1..], key)
  }

  /**
   * The standard library's stable `sort_by` with a comparator that puts
   * larger keys first: equal keys keep the order they had.
   */
  function SortDescending(s: seq<CategoryValue>, key: CategoryValue -> real): seq<CategoryValue>
  {
    if s == [] then [] else Insert(s[0], SortDescending(s[1..], key), key)
  }

  lemma {:induction false} InsertMultiset(x: CategoryValue, s: seq<CategoryValue>, key: CategoryValue -> real)
    ensures multiset(Insert(x, s, key)) == multiset([x] + s)
  {
    if s != [] && key(s[0]) > key(x) {
      InsertMultiset(x, s[1..], key);
      assert s == [s[0]] + s[1..];
    }
  }

  lemma {:induction false} InsertSorted(x: CategoryValue, s: seq<CategoryValue>, key: CategoryValue -> real)
    requires Descending(s, key)
    ensures Descending(Insert(x, s, key), key)
  {
    if s == [] || key(s[0]) <= key(x) {
      InsertFrontSorted(x, s, key);
    } else {
      InsertSorted(x, s[1..], key);
      InsertBelow(x, s[1..], key, key(s[0]));
      InsertBehindSorted(x, s, key);
    }
  }

  /** `x` goes in front when its key is at least the first one. */
  lemma InsertFrontSorted(x: CategoryValue, s: seq<CategoryValue>, key: CategoryValue -> real)
    requires Descending(s, key) && (s == [] || key(s[0]) <= key(x))
    ensures Descending(Insert(x, s, key), key)
  {
    var r := Insert(x, s, key);
    assert r == [x] + s;
    forall i, j | 0 <= i < j < |r| ensures key(r[i]) >= key(r[j]) {
      assert r[j] == s[j - 1];
      if i > 0 {
        assert r[i] == s[i - 1];
      }
    }
  }

  /** Otherwise the first entry stays in front of the sorted insertion into the rest. */
  lemma InsertBehindSorted(x: CategoryValue, s: seq<CategoryValue>, key: CategoryValue -> real)
    requires s != [] && key(s[0]) > key(x)
    requires Descending(Insert(x, s[1..], key), key)
    requires forall i :: 0 <= i < |Insert(x, s[1..], key)| ==> key(Insert(x, s[1..], key)[i]) <= key(s[0])
    ensures Descending(Insert(x, s, key), key)
  {
    var r, t := Insert(x, s, key), Insert(x, s[1..], key);
    assert r == [s[0]] + t;
    forall i, j | 0 <= i < j < |r| ensures key(r[i]) >= key(r[j]) {
      assert r[j] == t[j - 1];
      if i > 0 {
        assert r[i] == t[i - 1];
      }
    }
  }

  /** Inserting under a bound every key already keeps is still under it. */
  lemma InsertBelow(x: CategoryValue, t: seq<CategoryValue>, key: CategoryValue -> real, k: real)
    requires key(x) <= k && forall i :: 0 <= i < |t| ==> key(t[i]) <= k
    ensures forall i :: 0 <= i < |Insert(x, t, key)| ==> key(Insert(x, t, key)[i]) <= k
  {
    var r := Insert(x, t, key);
    InsertMultiset(x, t, key);
    forall i | 0 <= i < |r| ensures key(r[i]) <= k {
      assert r[i] in multiset([x] + t);
      if r[i] != x {
        assert r[i] in t;
      }
    }
  }

  lemma {:induction false} InsertStable(x: CategoryValue, s: seq<CategoryValue>, key: CategoryValue -> real, k: real)
    ensures WithKey(Insert(x, s, key), key, k) == WithKey([x] + s, key, k)
  {
    assert ([x] + s)[1..] == s;
    if s != [] && key(s[0]) > key(x) {
      var t := Insert(x, s[1..], key);
      InsertStable(x, s[1..], key, k);
      assert ([s[0]] + t)[1..] == t;
      assert ([x] + s[1..])[1..] == s[1..];
      if key(s[0]) == k {
        // x has a smaller key than s[0], so it is not among those with key k.
        assert key(x) != k;
      }
    }
  }

  /**
   * `sort_by` with a larger-first comparator: the result is in descending
   * order of the key, holds the same values, and values with equal keys are
   * in their original order.
   */
  lemma {:induction false} SortDescendingFacts(s: seq<CategoryValue>, key: CategoryValue -> real)
    ensures Descending(SortDescending(s, key), key)
    ensures multiset(SortDescending(s, key)) == multiset(s)
    ensures forall k :: WithKey(SortDescending(s, key), key, k) == WithKey(s, key, k)
  {
    if s != [] {
      var t := SortDescending(s[1..], key);
      SortDescendingFacts(s[1..], key);
      InsertSorted(s[0], t, key);
      InsertMultiset(s[0], t, key);
      assert s == [s[0]] + s[1..];
      forall k ensures WithKey(Insert(s[0], t, key), key, k) == WithKey(s, key, k) {
        InsertStable(s[0], t, key, k);
        assert ([s[0]] + t)[1..] == t;
      }
    }
  }

  /** `sorted_by_ev`: the category values, highest expected value first. */
  function SortedByEv(t: TurnAnalysis): (r: seq<CategoryValue>)
    ensures Descending(r, EvKey)
    ensures multiset(r) == multiset(t.categoryValues)
    ensures forall k :: WithKey(r, EvKey, k) == WithKey(t.categoryValues, EvKey, k)
  {
    SortDescendingFacts(t.categoryValues, EvKey);
    SortDescending(t.categoryValues, EvKey)
  }

  /** `sorted_by_immediate`: the category values, highest immediate score first. */
  function SortedByImmediate(t: TurnAnalysis): (r: seq<CategoryValue>)
    ensures Descending(r, ImmediateKey)
    ensures multiset(r) == multiset(t.categoryValues)
    ensures forall k :: WithKey(r, ImmediateKey, k) == WithKey(t.categoryValues, ImmediateKey, k)
  {
    SortDescendingFacts(t.categoryValues, ImmediateKey);
    SortDescending(t.categoryValues, ImmediateKey)
  }
}
