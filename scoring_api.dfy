/**
 * The ordered-dice wrappers of `scoring/mod.rs`: count the hand, then score
 * the configuration with the compatibility API.
 */
module ScoringApi {
  import opened Config
  import opened Categories
  import opened Rules

  /** `score(dice, category)`: `score_config` of the hand's configuration. */
  method ScoreDice(dice: seq<nat>, cat: Category) returns (r: ScoringResult)
    requires ValidDice(dice)
    ensures r == ScoreConfig(ConfigOf(dice), cat)
  {
    var c := FromDice(dice);
    r := ScoreConfig(c, cat);
  }

  /** `score_all(dice)`: thirteen results, in category order. */
  method ScoreAllDice(dice: seq<nat>) returns (r: seq<ScoringResult>)
    requires ValidDice(dice)
    ensures r == ScoreAllConfig(ConfigOf(dice))
    ensures |r| == COUNT && forall i :: 0 <= i < COUNT ==> r[i].category == ALL[i]
  {
    var c := FromDice(dice);
    r := ScoreAllConfig(c);
  }

  /** The counts of a literal hand, face by face. */
  lemma CountsOfHand(dice: seq<nat>)
    requires ValidDice(dice)
    ensures ConfigOf(dice).counts == seq(6, i requires 0 <= i < 6 =>
      (if dice[0] == i + 1 then 1 else 0) + (if dice[1] == i + 1 then 1 else 0)
      + (if dice[2] == i + 1 then 1 else 0) + (if dice[3] == i + 1 then 1 else 0)
      + (if dice[4] == i + 1 then 1 else 0))
  {
    forall f | 1 <= f <= 6 {
      OccurrencesFive(dice, f);
    }
  }

  /** 3-3-3-2-1 is a three of a kind worth 12. */
  lemma ThreeOfAKindExample(dice: seq<nat>)
    requires dice == [3, 3, 3, 2, 1]
    ensures ScoreConfig(ConfigOf(dice), ThreeOfAKind) == ScoringResult(ThreeOfAKind, 12, true)
  {
    CountsOfHand(dice);
    var c := ConfigOf(dice);
    assert c.counts == [1, 1, 3, 0, 0, 0];
    NOfKindScore(c, ThreeOfAKind, 3);
    assert c.counts[2] >= 3;
  }

  /** 1-2-3-4-5 is no three of a kind: 0, invalid. */
  lemma NoThreeOfAKindExample(dice: seq<nat>)
    requires dice == [1, 2, 3, 4, 5]
    ensures ScoreConfig(ConfigOf(dice), ThreeOfAKind) == ScoringResult(ThreeOfAKind, 0, false)
  {
    CountsOfHand(dice);
    var c := ConfigOf(dice);
    assert c.counts == [1, 1, 1, 1, 1, 0];
    NOfKindScore(c, ThreeOfAKind, 3);
  }

  /** 3-3-3-3-2 is not a full house. */
  lemma NoFullHouseExample(dice: seq<nat>)
    requires dice == [3, 3, 3, 3, 2]
    ensures !ScoreConfig(ConfigOf(dice), FullHouse).valid
  {
    CountsOfHand(dice);
    assert ConfigOf(dice).counts == [0, 1, 4, 0, 0, 0];
  }

  /** 1-3-4-5-6 is a small straight and 1-2-3-5-6 is not. */
  lemma SmallStraightExamples(run: seq<nat>, gap: seq<nat>)
    requires run == [1, 3, 4, 5, 6] && gap == [1, 2, 3, 5, 6]
    ensures ScoreConfig(ConfigOf(run), SmallStraight).valid
    ensures !ScoreConfig(ConfigOf(gap), SmallStraight).valid
  {
    CountsOfHand(run);
    CountsOfHand(gap);
    assert ConfigOf(run).counts == [1, 0, 1, 1, 1, 1];
    assert ConfigOf(gap).counts == [1, 1, 1, 0, 1, 1];
  }
}
