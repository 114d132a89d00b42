/**
 * The first scorer (`scoring.rs`), which works on an ordered hand of five
 * dice. It counts the faces itself and matches on the category; it gives the
 * same score as `score_config` of the hand's configuration, and the same
 * validity except in the upper section, where it, like the solver API, is
 * always valid.
 */
module LegacyScoring {
  import opened Combinatorics
  import opened Config
  import opened Categories
  import opened Rules

  /** `count_dice`: one pass over the hand, adding one to the count of each die's face. */
  method CountDice(dice: seq<nat>) returns (counts: seq<nat>)
    requires ValidDice(dice)
    ensures |counts| == 6 && Sum(counts) == 5
    ensures forall f :: 1 <= f <= 6 ==> counts[f - 1] == Occurrences(dice, f)
  {
    var arr := new nat[6](_ => 0);
    for k := 0 to 5
      invariant arr[..] == CountsOf(dice[..k])
    {
      assert dice[..k + 1][..k] == dice[..k];
      arr[dice[k] - 1] := arr[dice[k] - 1] + 1;
    }
    assert dice[..5] == dice;
    CountsOfSum(dice);
    counts := arr[..];
  }

  /** `sum_dice`: the pips added up, which is the configuration's `sum()`. */
  function SumDice(dice: seq<nat>): (r: nat)
    requires ValidDice(dice)
    ensures r == DiceSum(ConfigOf(dice))
  {
    FaceSumOfDice(dice);
    Sum(dice)
  }

  /**
   * What `score(dice, category)` returns, stated through the hand's
   * configuration: its `score_config` score, and validity that is always
   * true in the upper section.
   */
  function HandScore(dice: seq<nat>, cat: Category): (r: ScoringResult)
    requires ValidDice(dice)
    ensures r.category == cat
    ensures r.score == ScoreConfig(ConfigOf(dice), cat).score
    ensures r.valid <==> IsUpper(cat) || ScoreConfig(ConfigOf(dice), cat).valid
    ensures r.score <= MaxScore(cat)
  {
    var s := ScoreConfig(ConfigOf(dice), cat);
    ScoringResult(cat, s.score, IsUpper(cat) || s.valid)
  }

  /**
   * `score(dice, category)`: agrees with `score_config` on the score in
   * every category and on validity in the lower section; upper categories
   * are always valid.
   */
  method Score(dice: seq<nat>, cat: Category) returns (r: ScoringResult)
    requires ValidDice(dice)
    ensures r.category == cat
    ensures r.score == ScoreConfig(ConfigOf(dice), cat).score
    ensures IsUpper(cat) ==> r.valid
    ensures IsLower(cat) ==> r.valid == ScoreConfig(ConfigOf(dice), cat).valid
    ensures r == HandScore(dice, cat)
  {
    var counts := CountDice(dice);
    var total := SumDice(dice);
    ghost var c := ConfigOf(dice);
    assert counts == c.counts;
    var score: nat, valid: bool;
    match cat {
    case Ones =>
      score, valid := counts[0], true;
    case Twos =>
      score, valid := counts[1] * 2, true;
    case Threes =>
      score, valid := counts[2] * 3, true;
    case Fours =>
      score, valid := counts[3] * 4, true;
    case Fives =>
      score, valid := counts[4] * 5, true;
    case Sixes =>
      score, valid := counts[5] * 6, true;
    case ThreeOfAKind =>
      NOfKindScore(c, cat, 3);
      var hasThree := exists i :: 0 <= i < 6 && counts[i] >= 3;
      score, valid := if hasThree then total else 0, hasThree;
    case FourOfAKind =>
      NOfKindScore(c, cat, 4);
      var hasFour := exists i :: 0 <= i < 6 && counts[i] >= 4;
      score, valid := if hasFour then total else 0, hasFour;
    case FullHouse =>
      FullHouseScore(c);
      var hasThree := 3 in counts;
      var hasTwo := 2 in counts;
      score, valid := if hasThree && hasTwo then 25 else 0, hasThree && hasTwo;
    case SmallStraight =>
      var seq1234 := counts[0] >= 1 && counts[1] >= 1 && counts[2] >= 1 && counts[3] >= 1;
      var seq2345 := counts[1] >= 1 && counts[2] >= 1 && counts[3] >= 1 && counts[4] >= 1;
      var seq3456 := counts[2] >= 1 && counts[3] >= 1 && counts[4] >= 1 && counts[5] >= 1;
      var has := seq1234 || seq2345 || seq3456;
      score, valid := if has then 30 else 0, has;
    case LargeStraight =>
      var hasLarge := (counts[0] == 1 && counts[1] == 1 && counts[2] == 1 && counts[3] == 1 && counts[4] == 1)
        || (counts[1] == 1 && counts[2] == 1 && counts[3] == 1 && counts[4] == 1 && counts[5] == 1);
      if HasLargeStraight(c) {
        LargeStraightShape(c);
      }
      score, valid := if hasLarge then 40 else 0, hasLarge;
    case Dicee =>
      IsYahtzeeIff(c);
      var hasFive := 5 in counts;
      score, valid := if hasFive then 50 else 0, hasFive;
    case Chance =>
      score, valid := total, true;
    }
    r := ScoringResult(cat, score, valid);
  }
}
