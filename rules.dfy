/**
 * Category scores of a configuration (`scoring/rules.rs`). Two entry points
 * compute the same scores: `Score`, used by the solver, and `ScoreConfig`,
 * kept for the older WASM interface. They differ only in the validity flag
 * of the six upper categories.
 */
module Rules {
  import opened Combinatorics
  import opened Config
  import opened Categories

  /**
   * `ScoreResult`: a score and whether the dice meet the category's
   * requirement. The source stores the score in a `u8`; no score exceeds 50
   * (`Score` ensures it), so the width never matters.
   */
  datatype ScoreResult = ScoreResult(score: nat, valid: bool)

  /** `ScoreResult::ZERO`, also returned by `ScoreResult::invalid()`. */
  const ZERO: ScoreResult := ScoreResult(0, false)

  /** `ScoringResult` (types.rs): the compatibility result, which also names its category. */
  datatype ScoringResult = ScoringResult(category: Category, score: nat, valid: bool)

  // ---------------------------------------------------------------------------
  // Requirements
  // ---------------------------------------------------------------------------

  /** At least one die shows `face`. */
  predicate Has(c: Config, face: nat)
    requires 1 <= face <= 6
  {
    Count(c, face) > 0
  }

  /** `has_small_straight`: one of the runs 1-2-3-4, 2-3-4-5, 3-4-5-6 is present. */
  predicate HasSmallStraight(c: Config)
  {
    (Has(c, 1) && Has(c, 2) && Has(c, 3) && Has(c, 4))
    || (Has(c, 2) && Has(c, 3) && Has(c, 4) && Has(c, 5))
    || (Has(c, 3) && Has(c, 4) && Has(c, 5) && Has(c, 6))
  }

  /** `has_large_straight`: the run 1-2-3-4-5 or the run 2-3-4-5-6 is present. */
  predicate HasLargeStraight(c: Config)
  {
    (Has(c, 1) && Has(c, 2) && Has(c, 3) && Has(c, 4) && Has(c, 5))
    || (Has(c, 2) && Has(c, 3) && Has(c, 4) && Has(c, 5) && Has(c, 6))
  }

  /** Reference definition of a straight: every face from `start` to `start + len - 1` shows. */
  predicate Run(c: Config, start: nat, len: nat)
    requires 1 <= start && start + len <= 7
  {
    forall f :: start <= f < start + len ==> Count(c, f) > 0
  }

  /** Some face shows at least `n` times. */
  predicate HasKind(c: Config, n: nat)
  {
    exists i :: 0 <= i < 6 && c.counts[i] >= n
  }

  /** The pip total lies between 5 (all ones) and 30 (all sixes). */
  lemma DiceSumBounds(c: Config)
    ensures 5 <= DiceSum(c) <= 30
  {
    Sum6(c.counts);
  }

  /** A face's count is at most five, so its upper score is at most five times the face. */
  lemma UpperBound(c: Config, face: nat)
    requires 1 <= face <= 6
    ensures face * Count(c, face) <= 5 * face
  {
    EntryAtMostSum(c.counts, face - 1);
    MulMonotone(face, Count(c, face), 5);
  }

  // ---------------------------------------------------------------------------
  // The solver API
  // ---------------------------------------------------------------------------

  /** `score_upper_u8`: the dice showing `face`, added up; always valid, even when none show. */
  function ScoreUpperU8(c: Config, face: nat): (r: ScoreResult)
    requires 1 <= face <= 6
    ensures r.valid
    ensures r.score <= 5 * face
  {
    UpperBound(c, face);
    var count := Count(c, face);
    if count > 0 then ScoreResult(face * count, true) else ScoreResult(0, true)
  }

  /** `score_n_of_kind_u8`: the pip total if the largest count reaches `n`. */
  function ScoreNOfKindU8(c: Config, n: nat): (r: ScoreResult)
    ensures r.valid ==> r.score <= 30
  {
    DiceSumBounds(c);
    if MaxCount(c) >= n then ScoreResult(DiceSum(c), true) else ZERO
  }

  /** `max_score`: the largest score a category can take. */
  function MaxScore(cat: Category): (r: nat)
    ensures r <= 50
    ensures IsUpper(cat) ==> r == 5 * (Index(cat) + 1)
    ensures FixedScore(cat).Some? ==> r == FixedScore(cat).value
  {
    match cat
    case Ones => 5
    case Twos => 10
    case Threes => 15
    case Fours => 20
    case Fives => 25
    case Sixes => 30
    case ThreeOfAKind => 30
    case FourOfAKind => 30
    case FullHouse => 25
    case SmallStraight => 30
    case LargeStraight => 40
    case Dicee => 50
    case Chance => 30
  }

  /**
   * `score`: the solver's score of a configuration in a category. An invalid
   * result scores 0, and no score exceeds the category's maximum.
   */
  function Score(c: Config, cat: Category): (r: ScoreResult)
    ensures !r.valid ==> r.score == 0
    ensures r.score <= MaxScore(cat)
  {
    DiceSumBounds(c);
    match cat
    case Ones => ScoreUpperU8(c, 1)
    case Twos => ScoreUpperU8(c, 2)
    case Threes => ScoreUpperU8(c, 3)
    case Fours => ScoreUpperU8(c, 4)
    case Fives => ScoreUpperU8(c, 5)
    case Sixes => ScoreUpperU8(c, 6)
    case ThreeOfAKind => ScoreNOfKindU8(c, 3)
    case FourOfAKind => ScoreNOfKindU8(c, 4)
    case FullHouse => if HasFullHouse(c) then ScoreResult(25, true) else ZERO
    case SmallStraight => if HasSmallStraight(c) then ScoreResult(30, true) else ZERO
    case LargeStraight => if HasLargeStraight(c) then ScoreResult(40, true) else ZERO
    case Dicee => if IsYahtzee(c) then ScoreResult(50, true) else ZERO
    case Chance => ScoreResult(DiceSum(c), true)
  }

  /** `score_all`: every category with its score, in category order. */
  function ScoreAll(c: Config): (r: seq<(Category, ScoreResult)>)
    ensures |r| == COUNT
    ensures forall i :: 0 <= i < COUNT ==> r[i].0 == ALL[i] && r[i].1 == Score(c, ALL[i])
  {
    seq(COUNT, i requires 0 <= i < COUNT => (ALL[i], Score(c, ALL[i])))
  }

  // ---------------------------------------------------------------------------
  // The compatibility API
  // ---------------------------------------------------------------------------

  /** `score_upper`: like the solver's, except that it is valid only if the face shows. */
  function ScoreUpper(c: Config, face: nat): (r: (nat, bool))
    requires 1 <= face <= 6
    ensures r.1 <==> Count(c, face) > 0
    ensures r.0 <= 5 * face
  {
    UpperBound(c, face);
    var count := Count(c, face);
    (face * count, count > 0)
  }

  /** `score_n_of_kind`. */
  function ScoreNOfKind(c: Config, n: nat): (r: (nat, bool))
    ensures r.0 <= 30
  {
    DiceSumBounds(c);
    if MaxCount(c) >= n then (DiceSum(c), true) else (0, false)
  }

  /** `score_full_house`. */
  function ScoreFullHouse(c: Config): (r: (nat, bool))
    ensures r.1 ==> r.0 == 25
  {
    if HasFullHouse(c) then (25, true) else (0, false)
  }

  /** `score_small_straight`. */
  function ScoreSmallStraight(c: Config): (r: (nat, bool))
    ensures r.1 ==> r.0 == 30
  {
    if HasSmallStraight(c) then (30, true) else (0, false)
  }

  /** `score_large_straight`. */
  function ScoreLargeStraight(c: Config): (r: (nat, bool))
    ensures r.1 ==> r.0 == 40
  {
    if HasLargeStraight(c) then (40, true) else (0, false)
  }

  /** `score_dicee`. */
  function ScoreDicee(c: Config): (r: (nat, bool))
    ensures r.1 ==> r.0 == 50
  {
    if IsYahtzee(c) then (50, true) else (0, false)
  }

  /** `score_chance`: the pip total, always valid. */
  function ScoreChance(c: Config): (r: (nat, bool))
    ensures r.1 && 5 <= r.0 <= 30
  {
    DiceSumBounds(c);
    (DiceSum(c), true)
  }

  /**
   * `score_config`: the compatibility score, tagged with its category. It
   * scores 0 whenever it is invalid and never exceeds the maximum.
   */
  function ScoreConfig(c: Config, cat: Category): (r: ScoringResult)
    ensures r.category == cat
    ensures !r.valid ==> r.score == 0
    ensures r.score <= MaxScore(cat)
  {
    var (score, valid) :=
      match cat
      case Ones => ScoreUpper(c, 1)
      case Twos => ScoreUpper(c, 2)
      case Threes => ScoreUpper(c, 3)
      case Fours => ScoreUpper(c, 4)
      case Fives => ScoreUpper(c, 5)
      case Sixes => ScoreUpper(c, 6)
      case ThreeOfAKind => ScoreNOfKind(c, 3)
      case FourOfAKind => ScoreNOfKind(c, 4)
      case FullHouse => ScoreFullHouse(c)
      case SmallStraight => ScoreSmallStraight(c)
      case LargeStraight => ScoreLargeStraight(c)
      case Dicee => ScoreDicee(c)
      case Chance => ScoreChance(c);
    ScoringResult(cat, score, valid)
  }

  /** `score_all_config`: one result per category, in category order. */
  function ScoreAllConfig(c: Config): (r: seq<ScoringResult>)
    ensures |r| == COUNT
    ensures forall i :: 0 <= i < COUNT ==> r[i] == ScoreConfig(c, ALL[i])
  {
    seq(COUNT, i requires 0 <= i < COUNT => ScoreConfig(c, ALL[i]))
  }

  /** `upper_target`: three of the face for an upper category (63 in all), nothing otherwise. */
  function UpperTarget(cat: Category): (r: nat)
    ensures IsUpper(cat) ==> r == 3 * (Index(cat) + 1)
    ensures IsLower(cat) ==> r == 0
  {
    match cat
    case Ones => 3
    case Twos => 6
    case Threes => 9
    case Fours => 12
    case Fives => 15
    case Sixes => 18
    case _ => 0
  }

  // ---------------------------------------------------------------------------
  // Properties of the scores
  // ---------------------------------------------------------------------------

  /**
   * Upper categories: `f` times the count of `f`, where `f` is the category's
   * face. The solver API calls this always valid; the compatibility API only
   * when `f` shows.
   */
  lemma UpperScore(c: Config, cat: Category)
    requires IsUpper(cat)
    ensures UpperFace(cat).Some?
    ensures Score(c, cat).valid
    ensures Score(c, cat).score == UpperFace(cat).value * Count(c, UpperFace(cat).value)
    ensures ScoreConfig(c, cat).score == Score(c, cat).score
    ensures ScoreConfig(c, cat).valid <==> Count(c, UpperFace(cat).value) > 0
  {
  }

  /** Three and four of a kind: valid iff some face shows three (four) times; then the pip total. */
  lemma NOfKindScore(c: Config, cat: Category, n: nat)
    requires (cat == ThreeOfAKind && n == 3) || (cat == FourOfAKind && n == 4)
    ensures Score(c, cat).valid <==> HasKind(c, n)
    ensures Score(c, cat).score == if HasKind(c, n) then DiceSum(c) else 0
    ensures ScoreConfig(c, cat).valid == Score(c, cat).valid
    ensures ScoreConfig(c, cat).score == Score(c, cat).score
  {
    var m := MaxCount(c);
    if HasKind(c, n) {
      var i :| 0 <= i < 6 && c.counts[i] >= n;
      assert c.counts[i] <= m;
    }
  }

  /** Full house: 25 exactly when some face shows three times and another twice. */
  lemma FullHouseScore(c: Config)
    ensures Score(c, FullHouse).valid <==> HasFullHouse(c)
    ensures Score(c, FullHouse).score == if HasFullHouse(c) then 25 else 0
    ensures ScoreConfig(c, FullHouse).valid == Score(c, FullHouse).valid
    ensures ScoreConfig(c, FullHouse).score == Score(c, FullHouse).score
  {
  }

  /** Small straight: 30 exactly when four consecutive faces all show. */
  lemma SmallStraightScore(c: Config)
    ensures Score(c, SmallStraight).valid <==> exists s :: 1 <= s <= 3 && Run(c, s, 4)
    ensures Score(c, SmallStraight).score == if Score(c, SmallStraight).valid then 30 else 0
    ensures ScoreConfig(c, SmallStraight).valid == Score(c, SmallStraight).valid
    ensures ScoreConfig(c, SmallStraight).score == Score(c, SmallStraight).score
  {
    if HasSmallStraight(c) {
      var s := if Has(c, 1) && Has(c, 2) && Has(c, 3) && Has(c, 4) then 1
        else if Has(c, 2) && Has(c, 3) && Has(c, 4) && Has(c, 5) then 2 else 3;
      assert Run(c, s, 4);
    }
    if exists s :: 1 <= s <= 3 && Run(c, s, 4) {
      var s :| 1 <= s <= 3 && Run(c, s, 4);
      assert Count(c, s) > 0 && Count(c, s + 1) > 0 && Count(c, s + 2) > 0 && Count(c, s + 3) > 0;
    }
  }

  /** Large straight: 40 exactly when five consecutive faces all show. */
  lemma LargeStraightScore(c: Config)
    ensures Score(c, LargeStraight).valid <==> exists s :: 1 <= s <= 2 && Run(c, s, 5)
    ensures Score(c, LargeStraight).score == if Score(c, LargeStraight).valid then 40 else 0
    ensures ScoreConfig(c, LargeStraight).valid == Score(c, LargeStraight).valid
    ensures ScoreConfig(c, LargeStraight).score == Score(c, LargeStraight).score
  {
    if HasLargeStraight(c) {
      var s := if Has(c, 1) && Has(c, 2) && Has(c, 3) && Has(c, 4) && Has(c, 5) then 1 else 2;
      assert Run(c, s, 5);
    }
    if exists s :: 1 <= s <= 2 && Run(c, s, 5) {
      var s :| 1 <= s <= 2 && Run(c, s, 5);
      assert Count(c, s) > 0 && Count(c, s + 1) > 0 && Count(c, s + 2) > 0;
      assert Count(c, s + 3) > 0 && Count(c, s + 4) > 0;
    }
  }

  /**
   * With five dice a large straight uses each of its faces exactly once and
   * leaves the sixth face out, and it always contains a small straight.
   */
  lemma LargeStraightShape(c: Config)
    requires HasLargeStraight(c)
    ensures forall f :: 1 <= f <= 6 ==> Count(c, f) <= 1
    ensures Count(c, 1) == 0 || Count(c, 6) == 0
    ensures HasSmallStraight(c)
  {
    Sum6(c.counts);
  }

  /** Dicee: 50 exactly when all five dice show the same face. */
  lemma DiceeScore(c: Config)
    ensures Score(c, Dicee).valid <==> exists i :: 0 <= i < 6 && c.counts[i] == 5
    ensures Score(c, Dicee).score == if Score(c, Dicee).valid then 50 else 0
    ensures ScoreConfig(c, Dicee).valid == Score(c, Dicee).valid
    ensures ScoreConfig(c, Dicee).score == Score(c, Dicee).score
  {
    IsYahtzeeIff(c);
  }

  /** Chance: always valid, scoring the pip total, in both APIs. */
  lemma ChanceScore(c: Config)
    ensures Score(c, Chance) == ScoreResult(DiceSum(c), true)
    ensures ScoreConfig(c, Chance) == ScoringResult(Chance, DiceSum(c), true)
    ensures 5 <= Score(c, Chance).score <= 30
  {
    DiceSumBounds(c);
  }

  /**
   * The two APIs give the same score in every category, and the same
   * validity in every lower category.
   */
  lemma ScoresAgree(c: Config, cat: Category)
    ensures ScoreConfig(c, cat).category == cat
    ensures ScoreConfig(c, cat).score == Score(c, cat).score
    ensures IsLower(cat) ==> ScoreConfig(c, cat).valid == Score(c, cat).valid
    ensures IsUpper(cat) ==> Score(c, cat).valid
    ensures ScoreConfig(c, cat).valid ==> Score(c, cat).valid
  {
    if IsUpper(cat) {
      UpperScore(c, cat);
    } else if cat == ThreeOfAKind {
      NOfKindScore(c, cat, 3);
    } else if cat == FourOfAKind {
      NOfKindScore(c, cat, 4);
    }
  }

  /** A higher requirement implies the lower ones: five of a kind is also four and three of a kind. */
  lemma KindsNest(c: Config)
    ensures Score(c, Dicee).valid ==> Score(c, FourOfAKind).valid
    ensures Score(c, FourOfAKind).valid ==> Score(c, ThreeOfAKind).valid
    ensures Score(c, FullHouse).valid ==> Score(c, ThreeOfAKind).valid
    ensures Score(c, LargeStraight).valid ==> Score(c, SmallStraight).valid
  {
    if HasLargeStraight(c) {
      LargeStraightShape(c);
    }
    if HasFullHouse(c) {
      var i :| 0 <= i < 6 && c.counts[i] == 3;
      assert c.counts[i] <= MaxCount(c);
    }
  }

  /** The bound is tight: every category reaches its `max_score` on some hand. */
  lemma MaxScoreReached(cat: Category)
    ensures exists c: Config :: Score(c, cat).score == MaxScore(cat)
  {
    var c;
    if IsUpper(cat) {
      c := UpperMaxHand(cat);
    } else if cat in {FullHouse, SmallStraight, LargeStraight} {
      c := PatternMaxHand(cat);
    } else {
      c := SixesMaxHand(cat);
    }
  }

  /** Five dice of the category's face. */
  lemma UpperMaxHand(cat: Category) returns (c: Config)
    requires IsUpper(cat)
    ensures Score(c, cat).score == MaxScore(cat)
  {
    var f := Index(cat);
    var counts := seq(6, i requires 0 <= i < 6 => if i == f then 5 else 0);
    Sum6(counts);
    c := DiceConfig(counts);
    assert Count(c, f + 1) == 5;
  }

  /** 5-5-6-6-6 and 1-2-3-4-5. */
  lemma PatternMaxHand(cat: Category) returns (c: Config)
    requires cat in {FullHouse, SmallStraight, LargeStraight}
    ensures Score(c, cat).score == MaxScore(cat)
  {
    if cat == FullHouse {
      c := DiceConfig([0, 0, 0, 0, 2, 3]);
      assert c.counts[5] == 3 && c.counts[4] == 2;
    } else {
      c := DiceConfig([1, 1, 1, 1, 1, 0]);
    }
  }

  /** Five sixes. */
  lemma SixesMaxHand(cat: Category) returns (c: Config)
    requires cat in {ThreeOfAKind, FourOfAKind, Dicee, Chance}
    ensures Score(c, cat).score == MaxScore(cat)
  {
    c := DiceConfig([0, 0, 0, 0, 0, 5]);
    assert c.counts[5] == 5;
    IsYahtzeeIff(c);
    assert MaxCount(c) == 5;
  }

  /** Each category appears once in `score_all` and `score_all_config`, at its own index. */
  lemma ScoreAllLookup(c: Config, cat: Category)
    ensures ScoreAll(c)[Index(cat)] == (cat, Score(c, cat))
    ensures forall i :: 0 <= i < COUNT && ScoreAll(c)[i].0 == cat ==> i == Index(cat)
    ensures ScoreAllConfig(c)[Index(cat)] == ScoreConfig(c, cat)
    ensures forall i :: 0 <= i < COUNT && ScoreAllConfig(c)[i].category == cat ==> i == Index(cat)
  {
    IndexOfAll(Index(cat));
    forall i | 0 <= i < COUNT && ScoreAll(c)[i].0 == cat
      ensures i == Index(cat)
    {
      IndexOfAll(i);
    }
    forall i | 0 <= i < COUNT && ScoreAllConfig(c)[i].category == cat
      ensures i == Index(cat)
    {
      IndexOfAll(i);
    }
  }

  /** The six upper targets add up to 63, the upper-section bonus threshold. */
  lemma UpperTargetsTotal()
    ensures UpperTarget(Ones) + UpperTarget(Twos) + UpperTarget(Threes)
      + UpperTarget(Fours) + UpperTarget(Fives) + UpperTarget(Sixes) == 63
    ensures forall cat :: IsUpper(cat) ==> UpperTarget(cat) * 5 == MaxScore(cat) * 3
  {
  }

  /** The hand 3-3-3-5-5 of the module's examples: a full house and a three of a kind, not a Dicee. */
  lemma FullHouseExample(c: Config)
    requires c.counts == [0, 0, 3, 0, 2, 0]
    ensures Score(c, FullHouse) == ScoreResult(25, true)
    ensures Score(c, ThreeOfAKind) == ScoreResult(19, true)
    ensures Score(c, Dicee) == ZERO
  {
    assert c.counts[2] == 3 && c.counts[4] == 2;
    assert MaxCount(c) == 3;
  }

  /** The straight 1-2-3-4-5 scores 40 as a large straight. */
  lemma LargeStraightExample(c: Config)
    requires c.counts == [1, 1, 1, 1, 1, 0]
    ensures Score(c, LargeStraight) == ScoreResult(40, true)
  {
  }

  /** 1-1-2-3-4 has no five: 0 in Fives, valid for the solver but not for the compatibility API. */
  lemma EmptyUpperExample(c: Config)
    requires c.counts == [2, 1, 1, 1, 0, 0]
    ensures ScoreConfig(c, Fives) == ScoringResult(Fives, 0, false)
    ensures Score(c, Fives) == ScoreResult(0, true)
    ensures Score(c, Ones).score == 2
  {
  }
}
