/**
 * The crate's entry points (lib.rs): checking a hand, describing a keep
 * pattern in words, and `analyze_turn`, which validates a request, runs the
 * solver and shapes its analysis into the record handed to the browser.
 * The record is a datatype here; turning it into a JavaScript value is not
 * modelled.
 */
module Api {
  import opened Wrappers
  import opened Errors
  import opened Bits
  import opened Config
  import opened Categories
  import opened Keep
  import opened TransitionTables
  import opened Turns
  import opened Solver
  import Rules
  import opened Types

  // ---------------------------------------------------------------------------
  // validate_dice
  // ---------------------------------------------------------------------------

  /** The first die outside 1 to 6, if any. */
  function FirstInvalid(dice: seq<nat>, from: nat): (r: Option<nat>)
    requires from <= |dice|
    ensures r.Some? ==> (from <= r.value < |dice| && !(1 <= dice[r.value] <= 6)
      && forall k :: from <= k < r.value ==> 1 <= dice[k] <= 6)
    ensures r.None? <==> forall k :: from <= k < |dice| ==> 1 <= dice[k] <= 6
    decreases |dice| - from
  {
    if from == |dice| then None
    else if !(1 <= dice[from] <= 6) then Some(from)
    else FirstInvalid(dice, from + 1)
  }

  /**
   * `validate_dice`: succeeds exactly when every die shows 1 to 6, and
   * otherwise reports the first die that does not, with its position.
   */
  method ValidateDice(dice: seq<nat>) returns (r: Result<(), DiceeError>)
    requires |dice| == 5
    ensures r.Ok? <==> ValidDice(dice)
    ensures r.Err? <==> FirstInvalid(dice, 0).Some?
    ensures r.Err? ==> r.error == InvalidDieValue(dice[FirstInvalid(dice, 0).value], FirstInvalid(dice, 0).value)
  {
    for i := 0 to 5
      invariant forall k :: 0 <= k < i ==> 1 <= dice[k] <= 6
      invariant FirstInvalid(dice, 0) == FirstInvalid(dice, i)
    {
      if !(1 <= dice[i] <= 6) {
        return Err(InvalidDieValue(dice[i], i));
      }
    }
    return Ok(());
  }

  // ---------------------------------------------------------------------------
  // generate_keep_explanation
  // ---------------------------------------------------------------------------

  /** How a kept face is described: "one f" for a single die, "c fs" for more. */
  function Part(face: nat, count: nat): string
  {
    if count == 1 then "one " + Decimal(face) else Decimal(count) + " " + Decimal(face) + "s"
  }

  /** The descriptions of the kept faces among the first `i`, in ascending face order. */
  function PartsUpTo(counts: seq<nat>, i: nat): seq<string>
    requires i <= |counts|
  {
    if i == 0 then []
    else PartsUpTo(counts, i - 1) + (if counts[i - 1] > 0 then [Part(i, counts[i - 1])] else [])
  }

  /** `parts.join(sep)`. */
  function Join(parts: seq<string>, sep: string): string
  {
    if parts == [] then ""
    else if |parts| == 1 then parts[0]
    else parts[0] + sep + Join(parts[1..], sep)
  }

  const REROLL_ALL: string := "Reroll all dice"

  /** What `generate_keep_explanation` says about a keep pattern. */
  function Explanation(counts: seq<nat>): string
  {
    var parts := PartsUpTo(counts, |counts|);
    if parts == [] then REROLL_ALL else "Keep " + Join(parts, ", ")
  }

  /** `generate_keep_explanation`: one part per kept face, pushed in face order, then joined. */
  method GenerateKeepExplanation(counts: seq<nat>) returns (text: string)
    ensures text == Explanation(counts)
  {
    var parts: seq<string> := [];
    for face := 0 to |counts|
      invariant parts == PartsUpTo(counts, face)
    {
      var count := counts[face];
      if count > 0 {
        var faceValue := face + 1;
        if count == 1 {
          parts := parts + ["one " + Decimal(faceValue)];
        } else {
          parts := parts + [Decimal(count) + " " + Decimal(faceValue) + "s"];
        }
      }
    }
    if parts == [] {
      text := REROLL_ALL;
    } else {
      text := "Keep " + Join(parts, ", ");
    }
  }

  /** No part is described exactly when no die is kept. */
  lemma {:induction false} PartsEmpty(counts: seq<nat>, i: nat)
    requires i <= |counts|
    ensures PartsUpTo(counts, i) == [] <==> forall f :: 0 <= f < i ==> counts[f] == 0
  {
    if i > 0 {
      PartsEmpty(counts, i - 1);
    }
  }

  /**
   * The explanation is "Reroll all dice" exactly when every count is zero,
   * and starts with "Keep " otherwise.
   */
  lemma ExplanationCases(counts: seq<nat>)
    ensures Explanation(counts) == REROLL_ALL <==> forall f :: 0 <= f < |counts| ==> counts[f] == 0
    ensures (exists f :: 0 <= f < |counts| && counts[f] > 0) ==> Explanation(counts)[..5] == "Keep "
  {
    PartsEmpty(counts, |counts|);
    var parts := PartsUpTo(counts, |counts|);
    if parts != [] {
      var text := "Keep " + Join(parts, ", ");
      assert text[0] == 'K' && REROLL_ALL[0] == 'R';
      assert text[..5] == "Keep ";
    }
  }

  /** The test of five threes kept. */
  lemma ExplainFiveThrees(counts: seq<nat>)
    requires counts == [0, 0, 5, 0, 0, 0]
    ensures Explanation(counts) == "Keep 5 3s"
  {
    assert PartsUpTo(counts, 1) == [];
    assert PartsUpTo(counts, 2) == [];
    assert Part(3, 5) == "5 3s" by {
      assert Decimal(3) == "3" && Decimal(5) == "5";
    }
    assert PartsUpTo(counts, 3) == ["5 3s"];
    assert PartsUpTo(counts, 5) == ["5 3s"];
    assert PartsUpTo(counts, 6) == ["5 3s"];
  }

  /** The test of two ones and three threes kept. */
  lemma ExplainOnesAndThrees(counts: seq<nat>)
    requires counts == [2, 0, 3, 0, 0, 0]
    ensures Explanation(counts) == "Keep 2 1s, 3 3s"
  {
    assert Part(1, 2) == "2 1s" by {
      assert Decimal(1) == "1" && Decimal(2) == "2";
    }
    assert Part(3, 3) == "3 3s" by {
      assert Decimal(3) == "3";
    }
    assert PartsUpTo(counts, 1) == ["2 1s"];
    assert PartsUpTo(counts, 2) == ["2 1s"];
    assert PartsUpTo(counts, 3) == ["2 1s", "3 3s"];
    assert PartsUpTo(counts, 5) == ["2 1s", "3 3s"];
    assert PartsUpTo(counts, 6) == ["2 1s", "3 3s"];
    assert Join(["2 1s", "3 3s"], ", ") == "2 1s, 3 3s" by {
      assert ["2 1s", "3 3s"][1..] == ["3 3s"];
    }
  }

  /** The test of a single one kept, and of nothing kept. */
  lemma ExplainOneOne(counts: seq<nat>)
    requires counts == [1, 0, 0, 0, 0, 0]
    ensures Explanation(counts) == "Keep one 1"
    ensures Explanation([0, 0, 0, 0, 0, 0]) == REROLL_ALL
  {
    assert Part(1, 1) == "one 1" by {
      assert Decimal(1) == "1";
    }
    assert PartsUpTo(counts, 1) == ["one 1"];
    assert PartsUpTo(counts, 3) == ["one 1"];
    assert PartsUpTo(counts, 5) == ["one 1"];
    assert PartsUpTo(counts, 6) == ["one 1"];
    PartsEmpty([0, 0, 0, 0, 0, 0], 6);
  }

  // ---------------------------------------------------------------------------
  // analyze_turn
  // ---------------------------------------------------------------------------

  const ROLLS_MESSAGE: string := "rolls_remaining must be 0, 1, or 2"
  const SCORE_ACTION: string := "score"
  const REROLL_ACTION: string := "reroll"

  /** `CategoryAnalysisJs`: one category's entry of the reply. */
  datatype CategoryReport = CategoryReport(category: nat, immediateScore: nat, isValid: bool, expectedValue: real)

  /** `TurnAnalysisJs`: the reply to `analyze_turn`. */
  datatype TurnReport = TurnReport(
    action: string,
    recommendedCategory: Option<nat>,
    categoryScore: Option<nat>,
    keepPattern: Option<seq<nat>>,
    keepExplanation: Option<string>,
    expectedValue: real,
    categories: seq<CategoryReport>)

  /** The reply when no category is open. */
  const EMPTY_REPORT: TurnReport := TurnReport(SCORE_ACTION, None, None, None, None, 0.0, [])

  /** A category value as the reply lists it, the category by its index. */
  function CategoryReportOf(v: CategoryValue): CategoryReport
  {
    CategoryReport(Index(v.category), v.immediateScore, v.isValid, v.expectedValue)
  }

  /** The immediate score of the first entry for `cat`, or 0 when there is none. */
  function FindScore(values: seq<CategoryValue>, cat: Category): (r: nat)
    ensures (forall i :: 0 <= i < |values| ==> values[i].category != cat) ==> r == 0
  {
    if values == [] then 0
    else if values[0].category == cat then values[0].immediateScore
    else FindScore(values[1..], cat)
  }

  /** `find` gives the entry of the first position holding `cat`. */
  lemma {:induction false} FindScoreFirst(values: seq<CategoryValue>, cat: Category, i: nat)
    requires i < |values| && values[i].category == cat
    requires forall k :: 0 <= k < i ==> values[k].category != cat
    ensures FindScore(values, cat) == values[i].immediateScore
  {
    if i > 0 {
      FindScoreFirst(values[1..], cat, i - 1);
    }
  }

  /** The reply built from an analysis of a state with an open category. */
  function ReportOf(t: TurnAnalysis): TurnReport
  {
    var categories := seq(|t.categoryValues|, i requires 0 <= i < |t.categoryValues| => CategoryReportOf(t.categoryValues[i]));
    match t.recommendation
    case Score(cat) =>
      TurnReport(SCORE_ACTION, Some(Index(cat)), Some(FindScore(t.categoryValues, cat)), None, None, t.expectedValue, categories)
    case Reroll(keep) =>
      TurnReport(REROLL_ACTION, None, None, Some(keep.kept), Some(Explanation(keep.kept)), t.expectedValue, categories)
  }

  /** What `parse_dice` reports for a slice that is not a hand. */
  function ParseError(dice: seq<nat>): string
  {
    if |dice| != 5 then LENGTH_MESSAGE else RANGE_MESSAGE
  }

  /**
   * What `analyze_turn` returns: the parse error for a slice that is not a
   * hand, the rolls error for more than two rolls, the fixed empty reply
   * when the mask opens no category, and otherwise the reply built from
   * `analyze`.
   */
  function AnalyzeTurnSpec(dice: seq<nat>, rollsRemaining: U8, mask: U16): Result<TurnReport, string>
  {
    if !ValidDice(dice) then Err(ParseError(dice))
    else if rollsRemaining > MAX_ROLLS then Err(ROLLS_MESSAGE)
    else if IsEmpty(FromBits(mask)) then Ok(EMPTY_REPORT)
    else Ok(ReportOf(AnalyzeSpec(TurnState(ConfigOf(dice), rollsRemaining), FromBits(mask))))
  }

  /** `analyze_turn`, against a transition table built beforehand. */
  method AnalyzeTurn(table: TransitionTable, dice: seq<nat>, rollsRemaining: U8, mask: U16)
    returns (r: Result<TurnReport, string>)
    requires table.Valid()
    ensures r == AnalyzeTurnSpec(dice, rollsRemaining, mask)
  {
    var parsed := ParseDice(dice);
    if parsed.Err? {
      return Err(parsed.error);
    }
    if rollsRemaining > 2 {
      return Err(ROLLS_MESSAGE);
    }
    var config := FromDice(parsed.value);
    var checked := NewTurnState(config, rollsRemaining);
    var state := checked.value;
    var available := FromBits(mask);
    if IsEmpty(available) {
      return Ok(EMPTY_REPORT);
    }
    var solver := new TurnSolver.New(table);
    var analysis := solver.Analyze(state, available);
    var categories := seq(|analysis.categoryValues|, i requires 0 <= i < |analysis.categoryValues| =>
      CategoryReportOf(analysis.categoryValues[i]));
    match analysis.recommendation {
      case Score(category) =>
        var score := FindScore(analysis.categoryValues, category);
        r := Ok(TurnReport(SCORE_ACTION, Some(Index(category)), Some(score), None, None, analysis.expectedValue, categories));
      case Reroll(keep) =>
        var explanation := GenerateKeepExplanation(keep.kept);
        r := Ok(TurnReport(REROLL_ACTION, None, None, Some(keep.kept), Some(explanation), analysis.expectedValue, categories));
    }
  }

  /** A request is refused for a slice that is not a hand, then for more than two rolls, and answered otherwise. */
  lemma AnalyzeTurnErrors(dice: seq<nat>, rollsRemaining: U8, mask: U16)
    ensures |dice| != 5 ==> AnalyzeTurnSpec(dice, rollsRemaining, mask) == Err(LENGTH_MESSAGE)
    ensures |dice| == 5 && !ValidDice(dice) ==> AnalyzeTurnSpec(dice, rollsRemaining, mask) == Err(RANGE_MESSAGE)
    ensures ValidDice(dice) && rollsRemaining > 2 ==> AnalyzeTurnSpec(dice, rollsRemaining, mask) == Err(ROLLS_MESSAGE)
    ensures AnalyzeTurnSpec(dice, rollsRemaining, mask).Ok? <==> ValidDice(dice) && rollsRemaining <= 2
  {
  }

  /** A mask that opens no category gets a score action with no category, value 0 and no entries. */
  lemma AnalyzeTurnEmpty(dice: seq<nat>, rollsRemaining: U8, mask: U16)
    requires ValidDice(dice) && rollsRemaining <= 2 && And(mask, ALL_MASK) == 0
    ensures AnalyzeTurnSpec(dice, rollsRemaining, mask) == Ok(EMPTY_REPORT)
    ensures EMPTY_REPORT.action == SCORE_ACTION && EMPTY_REPORT.recommendedCategory.None?
    ensures EMPTY_REPORT.expectedValue == 0.0 && EMPTY_REPORT.categories == []
  {
  }

  /**
   * With a category open the reply is the one built from `analyze`: its
   * value is the solver's value of the state, and it lists one entry per
   * open category, in ascending order.
   */
  lemma AnalyzeTurnReply(dice: seq<nat>, rollsRemaining: U8, mask: U16)
    requires ValidDice(dice) && rollsRemaining <= 2 && !IsEmpty(FromBits(mask))
    ensures AnalyzeTurnSpec(dice, rollsRemaining, mask) ==
      Ok(ReportOf(AnalyzeSpec(TurnState(ConfigOf(dice), rollsRemaining), FromBits(mask))))
    ensures AnalyzeTurnSpec(dice, rollsRemaining, mask).value.expectedValue ==
      Value(ConfigOf(dice), rollsRemaining, FromBits(mask))
    ensures |AnalyzeTurnSpec(dice, rollsRemaining, mask).value.categories| == Len(FromBits(mask))
    ensures forall i :: 0 <= i < |AnalyzeTurnSpec(dice, rollsRemaining, mask).value.categories| ==>
      AnalyzeTurnSpec(dice, rollsRemaining, mask).value.categories[i].category == Index(Members(FromBits(mask))[i])
  {
    var avail := FromBits(mask);
    var s := TurnState(ConfigOf(dice), rollsRemaining);
    AnalyzeValue(s, avail);
    AnalyzeCategoryValues(s, avail);
    CategoryValuesOrder(s.config, rollsRemaining, avail);
  }

  /**
   * A score reply names an open category and reports that category's score
   * now, which is the reply's value.
   */
  lemma ScoreReply(s: TurnState, avail: CategorySet)
    requires !IsEmpty(avail) && ReportOf(AnalyzeSpec(s, avail)).action == SCORE_ACTION
    ensures exists cat :: (Contains(avail, cat)
      && ReportOf(AnalyzeSpec(s, avail)).recommendedCategory == Some(Index(cat))
      && ReportOf(AnalyzeSpec(s, avail)).categoryScore == Some(Rules.Score(s.config, cat).score)
      && ReportOf(AnalyzeSpec(s, avail)).expectedValue == ScoreOf(s.config, cat))
  {
    var t := AnalyzeSpec(s, avail);
    AnalyzeRecommendation(s, avail);
    RerollOrScoreRecommended(t);
    assert t.recommendation.Score?;
    var cat := t.recommendation.category;
    ScoreReported(s, avail, cat);
  }

  /**
   * A reroll reply comes only with a roll left, names no category, and
   * reports a keep pattern valid for the hand with its explanation.
   */
  lemma RerollReply(s: TurnState, avail: CategorySet)
    requires ReportOf(AnalyzeSpec(s, avail)).action == REROLL_ACTION
    ensures s.rollsRemaining > 0
    ensures ReportOf(AnalyzeSpec(s, avail)).recommendedCategory.None?
    ensures ReportOf(AnalyzeSpec(s, avail)).keepPattern == Some(AnalyzeSpec(s, avail).optimalKeep.kept)
    ensures ValidFor(AnalyzeSpec(s, avail).optimalKeep, s.config)
    ensures ReportOf(AnalyzeSpec(s, avail)).keepExplanation == Some(Explanation(AnalyzeSpec(s, avail).optimalKeep.kept))
  {
    var t := AnalyzeSpec(s, avail);
    AnalyzeRecommendation(s, avail);
    assert t.recommendation.Reroll?;
  }

  /** The score reported for an open category is its score now. */
  lemma ScoreReported(s: TurnState, avail: CategorySet, cat: Category)
    requires !IsEmpty(avail) && Contains(avail, cat)
    ensures FindScore(AnalyzeSpec(s, avail).categoryValues, cat) as real == ScoreOf(s.config, cat)
    ensures FindScore(AnalyzeSpec(s, avail).categoryValues, cat) == Rules.Score(s.config, cat).score
  {
    var vs := CategoryValues(s.config, s.rollsRemaining, Members(avail));
    AnalyzeCategoryValues(s, avail);
    CategoryValuesCover(s.config, s.rollsRemaining, avail, cat);
    CategoryValuesOrder(s.config, s.rollsRemaining, avail);
    var i :| 0 <= i < |vs| && vs[i].category == cat;
    forall k | 0 <= k < i ensures vs[k].category != cat {
      assert Index(vs[k].category) < Index(vs[i].category);
    }
    FindScoreFirst(vs, cat, i);
    CategoryValuesEntries(s.config, s.rollsRemaining, Members(avail));
    assert vs[i] in vs;
  }

  /** `0x1FFF` opens every category. */
  lemma MaskAll(c: Category)
    ensures Contains(FromBits(0x1FFF), c)
  {
    FromBitsRoundTrip(All());
    ConstantSets(c);
  }

  /** `0x0801` opens exactly Ones and Dicee. */
  lemma MaskOnesDicee(c: Category)
    ensures Contains(FromBits(0x0801), c) <==> c == Ones || c == Dicee
  {
    FromBitsContains(0x0801, c);
    match c {
      case Ones => assert Bit(0x0801, 0);
      case Twos => assert !Bit(0x0801, 1);
      case Threes => assert !Bit(0x0801, 2);
      case Fours => assert !Bit(0x0801, 3);
      case Fives => assert !Bit(0x0801, 4);
      case Sixes => assert !Bit(0x0801, 5);
      case ThreeOfAKind => assert !Bit(0x0801, 6);
      case FourOfAKind => assert !Bit(0x0801, 7);
      case FullHouse => assert !Bit(0x0801, 8);
      case SmallStraight => assert !Bit(0x0801, 9);
      case LargeStraight => assert !Bit(0x0801, 10);
      case Dicee => assert Bit(0x0801, 11);
      case Chance => assert !Bit(0x0801, 12);
    }
  }
}
