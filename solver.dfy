/**
 * The single-turn solver (core/solver.rs): backward induction over the
 * rolls left. The value of a state is the larger of the best score now and
 * the best keep pattern's expected value, the expectation being taken over
 * the transition table's entries with the value of the state one roll
 * later.
 */
module Solver {
  import opened Wrappers
  import opened Combinatorics
  import opened Config
  import opened Categories
  import opened Keep
  import opened TransitionTables
  import opened Turns
  import Rules
  import Cfg = Config

  // ---------------------------------------------------------------------------
  // Scoring now
  // ---------------------------------------------------------------------------

  /** The score of `c` in `cat`, as the `f64` the solver works with. */
  function ScoreOf(c: Config, cat: Category): real
  {
    Rules.Score(c, cat).score as real
  }

  /** `iter().map(score).max().unwrap_or(0)` over a list of categories. */
  function MaxScoreOf(c: Config, cats: seq<Category>): (r: nat)
    ensures forall i :: 0 <= i < |cats| ==> Rules.Score(c, cats[i]).score <= r
    ensures cats != [] ==> exists i :: 0 <= i < |cats| && Rules.Score(c, cats[i]).score == r
    ensures cats == [] ==> r == 0
  {
    if cats == [] then 0
    else
      var rest := MaxScoreOf(c, cats[1..]);
      var s := Rules.Score(c, cats[0]).score;
      assert forall i :: 1 <= i < |cats| ==> cats[i] == cats[1..][i - 1];
      if s >= rest then s else rest
  }

  /** The best score any category of `avail` gives `c` now, zero for the empty set. */
  function ImmediateBest(c: Config, avail: CategorySet): real
  {
    MaxScoreOf(c, Members(avail)) as real
  }

  /** The best score now, zero when no category is open: `expected_value` with no roll left. */
  function ScoreNow(c: Config, avail: CategorySet): real
  {
    if IsEmpty(avail) then 0.0 else ImmediateBest(c, avail)
  }

  /** `f64::max`. */
  function RealMax(a: real, b: real): real
  {
    if a >= b then a else b
  }


  // ---------------------------------------------------------------------------
  // Choosing a keep pattern against a continuation
  // ---------------------------------------------------------------------------
  //
  // Both `best_keep` and `best_keep_for_category` scan `iter_valid_for` and,
  // for each pattern, ask the transition table for the expectation of a
  // closure over the configuration the throw reaches. Here that closure is
  // the parameter `next`.

  /** What the table's `expected_value` returns for keeping `keep` and the closure `next`. */
  function KeepValue(keep: KeepPattern, next: Config -> real): real
    requires WellFormed(keep)
  {
    EntriesExpectation(Entries(keep.kept, DiceToRoll(keep)), next)
  }

  /** `KeepValue` against `next`, as a function of the pattern (every pattern scanned is well formed). */
  function KeepValueOf(next: Config -> real): KeepPattern -> real
  {
    (k: KeepPattern) => if WellFormed(k) then KeepValue(k, next) else 0.0
  }

  /**
   * The scan of `best_keep` and `best_keep_for_category` over the first `n`
   * patterns of `ps`: the best value and pattern so far, replaced only on a
   * strictly larger value. It starts from negative infinity, so the first
   * pattern is always taken.
   */
  function ScanBest(ps: seq<KeepPattern>, value: KeepPattern -> real, n: nat): (r: (real, KeepPattern))
    requires 1 <= n <= |ps|
    ensures r.1 in ps && r.0 == value(r.1)
  {
    if n == 1 then (value(ps[0]), ps[0])
    else
      var best := ScanBest(ps, value, n - 1);
      var ev := value(ps[n - 1]);
      if ev > best.0 then (ev, ps[n - 1]) else best
  }

  /**
   * The scan ends on the first of the patterns with the largest value: no
   * pattern scanned does better, and every pattern before it does strictly
   * worse.
   */
  lemma {:induction false} ScanBestFacts(ps: seq<KeepPattern>, value: KeepPattern -> real, n: nat)
    requires 1 <= n <= |ps|
    ensures exists b :: (0 <= b < n && ScanBest(ps, value, n).1 == ps[b] &&
      forall j :: 0 <= j < b ==> value(ps[j]) < value(ps[b]))
    ensures forall j :: 0 <= j < n ==> value(ps[j]) <= ScanBest(ps, value, n).0
  {
    if n == 1 {
      assert ScanBest(ps, value, n) == (value(ps[0]), ps[0]);
    } else {
      ScanBestFacts(ps, value, n - 1);
      var best := ScanBest(ps, value, n - 1);
      var b :| 0 <= b < n - 1 && best.1 == ps[b] && forall j :: 0 <= j < b ==> value(ps[j]) < value(ps[b]);
      if value(ps[n - 1]) > best.0 {
        assert ScanBest(ps, value, n) == (value(ps[n - 1]), ps[n - 1]);
      } else {
        assert ScanBest(ps, value, n) == best;
      }
    }
  }

  /** Two value functions that agree on the patterns give the same scan. */
  lemma {:induction false} ScanBestSame(ps: seq<KeepPattern>, v: KeepPattern -> real, w: KeepPattern -> real, n: nat)
    requires 1 <= n <= |ps|
    requires forall i :: 0 <= i < |ps| ==> v(ps[i]) == w(ps[i])
    ensures ScanBest(ps, v, n) == ScanBest(ps, w, n)
  {
    if n > 1 {
      ScanBestSame(ps, v, w, n - 1);
    }
  }

  /**
   * The scan over every pattern of `iter_valid_for`: it ends on a pattern
   * valid for the hand, with that pattern's value.
   */
  function BestKeep(c: Config, next: Config -> real): (r: (real, KeepPattern))
    ensures WellFormed(r.1) && ValidFor(r.1, c)
  {
    AllPatternsValid(c);
    var r := ScanBest(AllPatterns(c), KeepValueOf(next), |AllPatterns(c)|);
    assert WellFormed(r.1) && ValidFor(r.1, c) by {
      var i :| 0 <= i < |AllPatterns(c)| && AllPatterns(c)[i] == r.1;
    }
    r
  }

  /** The value the scan ends on is the table's expectation for the pattern it ends on. */
  lemma BestKeepValue(c: Config, next: Config -> real)
    ensures BestKeep(c, next).0 == KeepValue(BestKeep(c, next).1, next)
  {
    AllPatternsValid(c);
    var r := ScanBest(AllPatterns(c), KeepValueOf(next), |AllPatterns(c)|);
    assert r.0 == KeepValueOf(next)(r.1);
  }

  /** No pattern valid for the hand does better than the chosen one. */
  lemma BestKeepOptimal(c: Config, next: Config -> real, k: KeepPattern)
    requires |k.kept| == 6 && ValidFor(k, c)
    ensures WellFormed(k) && KeepValue(k, next) <= BestKeep(c, next).0
  {
    AllPatternsValid(c);
    var ps := AllPatterns(c);
    var value := KeepValueOf(next);
    ScanBestFacts(ps, value, |ps|);
    ValidForWellFormed(k, c);
    AllPatternsComplete(c, k);
    var j :| 0 <= j < |ps| && ps[j] == k;
    assert value(ps[j]) <= BestKeep(c, next).0;
  }

  /** The best keep's value lies within any bounds the continuation lies within. */
  lemma BestKeepWithin(c: Config, next: Config -> real, hi: real)
    requires forall d: Config :: 0.0 <= next(d) <= hi
    ensures 0.0 <= BestKeep(c, next).0 <= hi
  {
    var k := BestKeep(c, next).1;
    EntriesExpectationBounds(k.kept, DiceToRoll(k), next, hi);
  }

  /** A continuation that is nowhere worse gives a best keep that is no worse. */
  lemma BestKeepMonotone(c: Config, f: Config -> real, g: Config -> real)
    requires forall d: Config :: f(d) <= g(d)
    ensures BestKeep(c, f).0 <= BestKeep(c, g).0
  {
    var k := BestKeep(c, f).1;
    EntriesExpectationMonotone(k.kept, DiceToRoll(k), f, g);
    BestKeepOptimal(c, g, k);
  }

  /** Continuations that agree on every hand give the same best keep. */
  lemma BestKeepSame(c: Config, f: Config -> real, g: Config -> real)
    requires forall d: Config :: f(d) == g(d)
    ensures BestKeep(c, f) == BestKeep(c, g)
  {
    AllPatternsValid(c);
    var ps := AllPatterns(c);
    forall i | 0 <= i < |ps| ensures KeepValueOf(f)(ps[i]) == KeepValueOf(g)(ps[i]) {
      var k := ps[i];
      EntriesExpectationMonotone(k.kept, DiceToRoll(k), f, g);
      EntriesExpectationMonotone(k.kept, DiceToRoll(k), g, f);
    }
    ScanBestSame(ps, KeepValueOf(f), KeepValueOf(g), |ps|);
  }

  /** Keeping every die leaves the hand as it is, so the best keep is worth at least the continuation here. */
  lemma BestKeepAtLeastStay(c: Config, next: Config -> real)
    ensures next(c) <= BestKeep(c, next).0
  {
    KeepAllFacts(c);
    KeepAllEntries(c);
    BestKeepOptimal(c, next, KeepAll(c));
    var es := Entries(c.counts, 0);
    assert es[1..] == [];
    assert KeepValue(KeepAll(c), next) == 1.0 * next(c) + 0.0;
  }

  // ---------------------------------------------------------------------------
  // Backward induction, one roll at a time
  // ---------------------------------------------------------------------------
  //
  // `expected_value` and `category_ev` run the same recursion and differ in
  // two things only: what scoring a hand is worth (`score`: the best open
  // category, or the one category asked about) and whether scoring competes
  // with rerolling while a roll is left (`anytime`: it does for
  // `expected_value`; `category_ev` always throws while it can).

  /**
   * One roll of the induction at hand `d`, given the value of every hand one
   * roll later: the best keep against it, or the larger of that and the
   * score now when `anytime`.
   */
  function Step(d: Config, score: Config -> real, anytime: bool, later: Config -> real): real
  {
    if anytime then RealMax(score(d), BestKeep(d, later).0) else BestKeep(d, later).0
  }

  /**
   * The value of every hand with `rolls` rolls left, as a function: the
   * score with no roll left, otherwise one step against the layer one roll
   * later.
   */
  function Layer(rolls: nat, score: Config -> real, anytime: bool): Config -> real
  {
    if rolls == 0 then score
    else
      var later := Layer(rolls - 1, score, anytime);
      (d: Config) => Step(d, score, anytime, later)
  }

  /** A step stays within any bounds the score and the layer below stay within. */
  lemma StepWithin(score: Config -> real, anytime: bool, later: Config -> real, hi: real)
    requires forall d: Config :: 0.0 <= score(d) <= hi
    requires forall d: Config :: 0.0 <= later(d) <= hi
    ensures forall d: Config :: 0.0 <= Step(d, score, anytime, later) <= hi
  {
    forall d: Config ensures 0.0 <= Step(d, score, anytime, later) <= hi {
      BestKeepWithin(d, later, hi);
    }
  }

  /** A step is no worse against a layer that is nowhere worse. */
  lemma StepMonotone(score: Config -> real, anytime: bool, f: Config -> real, g: Config -> real)
    requires forall d: Config :: f(d) <= g(d)
    ensures forall d: Config :: Step(d, score, anytime, f) <= Step(d, score, anytime, g)
  {
    forall d: Config ensures Step(d, score, anytime, f) <= Step(d, score, anytime, g) {
      BestKeepMonotone(d, f, g);
    }
  }

  /** The first step is worth at least the score: keeping every die leaves the hand as it is. */
  lemma StepAtLeastScore(score: Config -> real, anytime: bool)
    ensures forall d: Config :: score(d) <= Step(d, score, anytime, score)
  {
    forall d: Config ensures score(d) <= Step(d, score, anytime, score) {
      BestKeepAtLeastStay(d, score);
    }
  }

  /** A layer with a roll left is one step against the layer below. */
  lemma LayerStep(rolls: nat, r: nat, score: Config -> real, anytime: bool)
    requires rolls == r + 1
    ensures forall d: Config :: Layer(rolls, score, anytime)(d) == Step(d, score, anytime, Layer(r, score, anytime))
  {
    var later := Layer(r, score, anytime);
    assert Layer(rolls, score, anytime) == (d: Config) => Step(d, score, anytime, later);
  }

  /** Every layer lies within any bounds every score lies within. */
  lemma {:induction false} LayerWithin(rolls: nat, score: Config -> real, anytime: bool, hi: real)
    requires forall d: Config :: 0.0 <= score(d) <= hi
    ensures forall d: Config :: 0.0 <= Layer(rolls, score, anytime)(d) <= hi
  {
    if rolls > 0 {
      var r := rolls - 1;
      LayerWithin(r, score, anytime, hi);
      StepWithin(score, anytime, Layer(r, score, anytime), hi);
      LayerStep(rolls, r, score, anytime);
    }
  }

  /** One more roll never hurts: no hand is worth less with a roll added. */
  lemma {:induction false} LayerMonotone(rolls: nat, score: Config -> real, anytime: bool)
    ensures forall d: Config :: Layer(rolls, score, anytime)(d) <= Layer(rolls + 1, score, anytime)(d)
  {
    var up := rolls + 1;
    LayerStep(up, rolls, score, anytime);
    if rolls == 0 {
      StepAtLeastScore(score, anytime);
    } else {
      var r := rolls - 1;
      LayerMonotone(r, score, anytime);
      assert Layer(r + 1, score, anytime) == Layer(rolls, score, anytime);
      StepMonotone(score, anytime, Layer(r, score, anytime), Layer(rolls, score, anytime));
      LayerStep(rolls, r, score, anytime);
    }
  }

  // ---------------------------------------------------------------------------
  // `expected_value` and `best_keep`
  // ---------------------------------------------------------------------------

  /** The best score now, as a function of the hand. */
  function Immediate(avail: CategorySet): Config -> real
  {
    (d: Config) => ImmediateBest(d, avail)
  }

  /**
   * V(D, r, C): the value of holding `c` with `rolls` rolls left and the
   * categories `avail` open, playing optimally, as `expected_value`
   * computes it: zero with nothing open, otherwise the layer of the best
   * score now that lets scoring compete with every reroll.
   */
  function Value(c: Config, rolls: nat, avail: CategorySet): real
  {
    if IsEmpty(avail) then 0.0 else Layer(rolls, Immediate(avail), true)(c)
  }

  /** The closure `best_keep` hands the table: `expected_value` with `rolls` rolls left. */
  function ValueFn(rolls: nat, avail: CategorySet): Config -> real
  {
    (d: Config) => Value(d, rolls, avail)
  }

  /** `best_keep`: with no roll left, the value now and `keep_all`; otherwise the scan against the value one roll later. */
  function BestKeepSpec(c: Config, rolls: nat, avail: CategorySet): (real, KeepPattern)
  {
    if rolls == 0 then (ScoreNow(c, avail), KeepAll(c))
    else BestKeep(c, ValueFn(rolls - 1, avail))
  }

  /**
   * The recursion `expected_value` runs: zero with nothing open, the best
   * score now with no roll left, and otherwise the larger of it and
   * `best_keep`'s value.
   */
  lemma ValueUnfold(c: Config, rolls: nat, avail: CategorySet)
    ensures IsEmpty(avail) ==> Value(c, rolls, avail) == 0.0 && BestKeepSpec(c, 0, avail) == (0.0, KeepAll(c))
    ensures !IsEmpty(avail) && rolls == 0 ==> Value(c, rolls, avail) == ImmediateBest(c, avail)
    ensures !IsEmpty(avail) && rolls > 0 ==>
      Value(c, rolls, avail) == RealMax(ImmediateBest(c, avail), BestKeepSpec(c, rolls, avail).0)
  {
    if !IsEmpty(avail) && rolls > 0 {
      var later := Layer(rolls - 1, Immediate(avail), true);
      assert Value(c, rolls, avail) == RealMax(ImmediateBest(c, avail), BestKeep(c, later).0);
      BestKeepSame(c, later, ValueFn(rolls - 1, avail));
    }
  }

  /**
   * `best_keep` with a roll left: its pattern is valid for the hand, its
   * value is the table's expectation of the value one roll later, no valid
   * pattern does better, and every pattern before it does strictly worse.
   */
  lemma BestKeepSpecFacts(c: Config, rolls: nat, avail: CategorySet)
    requires rolls >= 1
    ensures ValidFor(BestKeepSpec(c, rolls, avail).1, c) && WellFormed(BestKeepSpec(c, rolls, avail).1)
    ensures BestKeepSpec(c, rolls, avail).0 == KeepValue(BestKeepSpec(c, rolls, avail).1, ValueFn(rolls - 1, avail))
    ensures forall k: KeepPattern :: |k.kept| == 6 && ValidFor(k, c) ==>
      WellFormed(k) && KeepValue(k, ValueFn(rolls - 1, avail)) <= BestKeepSpec(c, rolls, avail).0
  {
    forall k: KeepPattern | |k.kept| == 6 && ValidFor(k, c)
      ensures WellFormed(k) && KeepValue(k, ValueFn(rolls - 1, avail)) <= BestKeepSpec(c, rolls, avail).0
    {
      BestKeepOptimal(c, ValueFn(rolls - 1, avail), k);
    }
  }

  /** Scoring now is always open: the value is at least the best score now, and at least `best_keep`'s. */
  lemma ValueAtLeastImmediate(c: Config, rolls: nat, avail: CategorySet)
    requires !IsEmpty(avail)
    ensures ImmediateBest(c, avail) <= Value(c, rolls, avail)
    ensures rolls > 0 ==> BestKeepSpec(c, rolls, avail).0 <= Value(c, rolls, avail)
  {
    ValueUnfold(c, rolls, avail);
  }

  /** The largest score any category of `cats` can ever give. */
  function BestPossible(cats: seq<Category>): (r: nat)
    ensures forall i :: 0 <= i < |cats| ==> Rules.MaxScore(cats[i]) <= r
    ensures r <= 50
  {
    if cats == [] then 0
    else
      var rest := BestPossible(cats[1..]);
      assert forall i :: 1 <= i < |cats| ==> cats[i] == cats[1..][i - 1];
      if Rules.MaxScore(cats[0]) >= rest then Rules.MaxScore(cats[0]) else rest
  }

  /** The largest score any open category can ever give: no play does better. */
  function Ceiling(avail: CategorySet): real
  {
    BestPossible(Members(avail)) as real
  }

  /** A set lists no category exactly when it is empty. */
  lemma MembersEmpty(s: CategorySet)
    ensures IsEmpty(s) <==> Members(s) == []
  {
    MembersLen(s);
    if IsEmpty(s) {
      assert s == Empty();
      ConstantLens();
    } else {
      EmptyFullMembers(s);
      var cat :| Contains(s, cat);
      MembersFacts(s, cat);
    }
  }

  /**
   * The best score now is the score of some open category, at least the
   * score of every open category, and zero when none is open.
   */
  lemma ImmediateBestFacts(c: Config, avail: CategorySet)
    ensures IsEmpty(avail) ==> ImmediateBest(c, avail) == 0.0
    ensures !IsEmpty(avail) ==> exists cat :: Contains(avail, cat) && ScoreOf(c, cat) == ImmediateBest(c, avail)
    ensures forall cat :: Contains(avail, cat) ==> ScoreOf(c, cat) <= ImmediateBest(c, avail)
  {
    var ms := Members(avail);
    MembersEmpty(avail);
    forall cat | Contains(avail, cat) ensures ScoreOf(c, cat) <= ImmediateBest(c, avail) {
      MembersFacts(avail, cat);
    }
    if !IsEmpty(avail) {
      var i :| 0 <= i < |ms| && Rules.Score(c, ms[i]).score == MaxScoreOf(c, ms);
      MembersFacts(avail, ms[i]);
    }
  }

  /** The best score now lies between zero and the ceiling. */
  lemma ImmediateBestWithin(c: Config, avail: CategorySet)
    ensures 0.0 <= ImmediateBest(c, avail) <= Ceiling(avail)
  {
    var ms := Members(avail);
    if ms != [] {
      var i :| 0 <= i < |ms| && Rules.Score(c, ms[i]).score == MaxScoreOf(c, ms);
      assert Rules.Score(c, ms[i]).score <= Rules.MaxScore(ms[i]) <= BestPossible(ms);
    }
  }

  /**
   * The value of a state lies between zero and the best score an open
   * category can ever give, whatever the rolls left.
   */
  lemma ValueBounds(c: Config, rolls: nat, avail: CategorySet)
    ensures 0.0 <= Value(c, rolls, avail) <= Ceiling(avail) <= 50.0
  {
    if !IsEmpty(avail) {
      forall d: Config ensures 0.0 <= Immediate(avail)(d) <= Ceiling(avail) {
        ImmediateBestWithin(d, avail);
      }
      LayerWithin(rolls, Immediate(avail), true, Ceiling(avail));
    }
  }

  /** One more roll never hurts: the value does not drop when a roll is added. */
  lemma ValueMonotone(c: Config, rolls: nat, avail: CategorySet)
    ensures Value(c, rolls, avail) <= Value(c, rolls + 1, avail)
  {
    LayerMonotone(rolls, Immediate(avail), true);
  }

  // ---------------------------------------------------------------------------
  // `category_ev` and `best_keep_for_category`
  // ---------------------------------------------------------------------------

  /** The score in `cat`, as a function of the hand. */
  function InCategory(cat: Category): Config -> real
  {
    (d: Config) => ScoreOf(d, cat)
  }

  /**
   * `category_ev`: the expected score in `cat` alone, throwing optimally
   * for it with `rolls` rolls left and scoring it after the last one.
   */
  function CategoryEvSpec(c: Config, rolls: nat, cat: Category): real
  {
    Layer(rolls, InCategory(cat), false)(c)
  }

  /** `best_keep_for_category`: as `best_keep`, for `cat` alone, against `category_ev` one roll later. */
  function BestKeepForCategorySpec(c: Config, rolls: nat, cat: Category): (real, KeepPattern)
  {
    if rolls == 0 then (ScoreOf(c, cat), KeepAll(c))
    else BestKeep(c, Layer(rolls - 1, InCategory(cat), false))
  }

  /**
   * `category_ev` is the score with no roll left and `best_keep_for_category`'s
   * value otherwise; and the closure `best_keep_for_category` hands the
   * table with `rolls` rolls left, the score of the reached hand after the
   * last roll and the best keep's value one roll later otherwise, is
   * `category_ev` with one roll fewer.
   */
  lemma CategoryUnfold(c: Config, rolls: nat, cat: Category)
    ensures rolls == 0 ==> CategoryEvSpec(c, rolls, cat) == ScoreOf(c, cat)
    ensures rolls > 0 ==> CategoryEvSpec(c, rolls, cat) == BestKeepForCategorySpec(c, rolls, cat).0
    ensures rolls > 0 ==> (Layer(rolls - 1, InCategory(cat), false)(c) ==
      if rolls == 1 then ScoreOf(c, cat) else BestKeepForCategorySpec(c, rolls - 1, cat).0)
  {
  }

  /**
   * `best_keep_for_category` with a roll left: its pattern is valid for the
   * hand, its value is the table's expectation of `category_ev` one roll
   * later, and no valid pattern does better.
   */
  lemma BestKeepForCategoryFacts(c: Config, rolls: nat, cat: Category)
    requires rolls >= 1
    ensures ValidFor(BestKeepForCategorySpec(c, rolls, cat).1, c) && WellFormed(BestKeepForCategorySpec(c, rolls, cat).1)
    ensures BestKeepForCategorySpec(c, rolls, cat).0 ==
      KeepValue(BestKeepForCategorySpec(c, rolls, cat).1, Layer(rolls - 1, InCategory(cat), false))
    ensures forall k: KeepPattern :: |k.kept| == 6 && ValidFor(k, c) ==>
      WellFormed(k) && KeepValue(k, Layer(rolls - 1, InCategory(cat), false)) <= BestKeepForCategorySpec(c, rolls, cat).0
  {
    forall k: KeepPattern | |k.kept| == 6 && ValidFor(k, c)
      ensures WellFormed(k) && KeepValue(k, Layer(rolls - 1, InCategory(cat), false)) <= BestKeepForCategorySpec(c, rolls, cat).0
    {
      BestKeepOptimal(c, Layer(rolls - 1, InCategory(cat), false), k);
    }
  }

  /** A category's expected score lies between zero and the most it can ever give. */
  lemma CategoryEvBounds(c: Config, rolls: nat, cat: Category)
    ensures 0.0 <= CategoryEvSpec(c, rolls, cat) <= Rules.MaxScore(cat) as real
  {
    var hi := Rules.MaxScore(cat) as real;
    forall d: Config ensures 0.0 <= InCategory(cat)(d) <= hi {
      assert Rules.Score(d, cat).score <= Rules.MaxScore(cat);
    }
    LayerWithin(rolls, InCategory(cat), false, hi);
  }

  /** A category's expected score does not drop when a roll is added. */
  lemma CategoryEvMonotone(c: Config, rolls: nat, cat: Category)
    ensures CategoryEvSpec(c, rolls, cat) <= CategoryEvSpec(c, rolls + 1, cat)
  {
    LayerMonotone(rolls, InCategory(cat), false);
  }

  // ---------------------------------------------------------------------------
  // `analyze`
  // ---------------------------------------------------------------------------

  /** One entry of `category_values`: the score now, whether it is valid, and `category_ev` when a roll is left. */
  function CategoryValueOf(c: Config, rolls: U8, cat: Category): (v: CategoryValue)
    ensures v.category == cat && v.immediateScore == Rules.Score(c, cat).score && v.isValid == Rules.Score(c, cat).valid
    ensures v.expectedValue == CategoryEvSpec(c, rolls, cat)
  {
    var r := Rules.Score(c, cat);
    CategoryValue(cat, r.score, r.valid, if rolls > 0 then CategoryEvSpec(c, rolls, cat) else r.score as real)
  }

  /** `category_values`: one entry per category listed, in the order listed. */
  function CategoryValues(c: Config, rolls: U8, cats: seq<Category>): seq<CategoryValue>
  {
    seq(|cats|, i requires 0 <= i < |cats| => CategoryValueOf(c, rolls, cats[i]))
  }

  /**
   * The position `max_by_key(immediate_score)` settles on among the first
   * `n` values: a later value replaces the one held when its key is at
   * least as large, so of several maxima the last wins.
   */
  function LastMax(vs: seq<CategoryValue>, n: nat): (b: nat)
    requires 1 <= n <= |vs|
    ensures b < n
  {
    if n == 1 then 0
    else
      var b := LastMax(vs, n - 1);
      if vs[n - 1].immediateScore >= vs[b].immediateScore then n - 1 else b
  }

  /** `max_by_key` ends on a largest key, and every value after it has a strictly smaller key. */
  lemma {:induction false} LastMaxFacts(vs: seq<CategoryValue>, n: nat)
    requires 1 <= n <= |vs|
    ensures forall j :: 0 <= j < n ==> vs[j].immediateScore <= vs[LastMax(vs, n)].immediateScore
    ensures forall j :: LastMax(vs, n) < j < n ==> vs[j].immediateScore < vs[LastMax(vs, n)].immediateScore
  {
    if n > 1 {
      LastMaxFacts(vs, n - 1);
    }
  }

  /** `best_immediate`: the category and score `max_by_key` picks, none for no values. */
  function BestImmediate(vs: seq<CategoryValue>): (r: Option<(Category, U8)>)
    ensures r.None? <==> vs == []
  {
    if vs == [] then None
    else
      var b := LastMax(vs, |vs|);
      Some((vs[b].category, vs[b].immediateScore))
  }

  /**
   * `best_immediate` holds the category and score of an entry with the
   * largest score now, and every entry after it scores strictly less.
   */
  lemma BestImmediateLast(vs: seq<CategoryValue>)
    requires vs != []
    ensures exists b :: (0 <= b < |vs| && BestImmediate(vs) == Some((vs[b].category, vs[b].immediateScore)) &&
      (forall j :: 0 <= j < |vs| ==> vs[j].immediateScore <= vs[b].immediateScore) &&
      (forall j :: b < j < |vs| ==> vs[j].immediateScore < vs[b].immediateScore))
  {
    LastMaxFacts(vs, |vs|);
    var b := LastMax(vs, |vs|);
    assert BestImmediate(vs) == Some((vs[b].category, vs[b].immediateScore));
  }

  /** `best_immediate.map(|(_, s)| s as f64).unwrap_or(0.0)`. */
  function ImmediateValue(best: Option<(Category, U8)>): real
  {
    if best.Some? then best.value.1 as real else 0.0
  }

  /**
   * `analyze`: with no category open, the fallback of scoring Chance with
   * value zero and `KEEP_NONE`; otherwise the category values, the best
   * immediate score, the continuation (`best_keep` when a roll is left,
   * otherwise the best immediate score and `keep_all`), and a reroll
   * exactly when a roll is left and the continuation is strictly better.
   */
  function AnalyzeSpec(s: TurnState, avail: CategorySet): TurnAnalysis
  {
    if IsEmpty(avail) then
      TurnAnalysis(s, avail, [], None, 0.0, KEEP_NONE, Score(Chance), 0.0)
    else
      var values := CategoryValues(s.config, s.rollsRemaining, Members(avail));
      var best := BestImmediate(values);
      var bestValue := ImmediateValue(best);
      var cont := if CanReroll(s) then BestKeepSpec(s.config, s.rollsRemaining, avail) else (bestValue, KeepAll(s.config));
      if CanReroll(s) && cont.0 > bestValue then
        TurnAnalysis(s, avail, values, best, cont.0, cont.1, Reroll(cont.1), cont.0)
      else
        TurnAnalysis(s, avail, values, best, cont.0, cont.1, Score(if best.Some? then best.value.0 else Chance), bestValue)
  }

  /**
   * The best immediate entry of the category values of an open set is an
   * open category whose score is the best score now.
   */
  lemma BestImmediateFacts(c: Config, rolls: U8, avail: CategorySet)
    requires !IsEmpty(avail)
    ensures BestImmediate(CategoryValues(c, rolls, Members(avail))).Some?
    ensures Contains(avail, BestImmediate(CategoryValues(c, rolls, Members(avail))).value.0)
    ensures ScoreOf(c, BestImmediate(CategoryValues(c, rolls, Members(avail))).value.0) == ImmediateBest(c, avail)
    ensures ImmediateValue(BestImmediate(CategoryValues(c, rolls, Members(avail)))) == ImmediateBest(c, avail)
  {
    var ms := Members(avail);
    var vs := CategoryValues(c, rolls, ms);
    MembersEmpty(avail);
    var b := LastMax(vs, |vs|);
    LastMaxFacts(vs, |vs|);
    MembersFacts(avail, ms[b]);
    var i :| 0 <= i < |ms| && Rules.Score(c, ms[i]).score == MaxScoreOf(c, ms);
    assert vs[i].immediateScore <= vs[b].immediateScore;
  }

  /** With a category open, `analyze`'s expected value is the value of the state: `expected_value`. */
  lemma AnalyzeValue(s: TurnState, avail: CategorySet)
    requires !IsEmpty(avail)
    ensures AnalyzeSpec(s, avail).expectedValue == Value(s.config, s.rollsRemaining, avail)
  {
    BestImmediateFacts(s.config, s.rollsRemaining, avail);
    ValueUnfold(s.config, s.rollsRemaining, avail);
  }

  /**
   * `analyze` recommends a reroll exactly when a category is open, a roll is
   * left and the continuation beats the best score now; a reroll keeps the
   * optimal pattern, valid for the hand, and is worth the continuation; a
   * score names an open category worth the expected value; with no roll
   * left it always scores.
   */
  lemma AnalyzeRecommendation(s: TurnState, avail: CategorySet)
    ensures ShouldReroll(AnalyzeSpec(s, avail)) <==>
      !IsEmpty(avail) && CanReroll(s) && AnalyzeSpec(s, avail).continueValue > ImmediateBest(s.config, avail)
    ensures MustScore(s) ==> ShouldScore(AnalyzeSpec(s, avail))
    ensures ShouldReroll(AnalyzeSpec(s, avail)) ==>
      AnalyzeSpec(s, avail).recommendation == Reroll(AnalyzeSpec(s, avail).optimalKeep) &&
      WellFormed(AnalyzeSpec(s, avail).optimalKeep) && ValidFor(AnalyzeSpec(s, avail).optimalKeep, s.config) &&
      AnalyzeSpec(s, avail).expectedValue == AnalyzeSpec(s, avail).continueValue
    ensures ShouldScore(AnalyzeSpec(s, avail)) && !IsEmpty(avail) ==>
      Contains(avail, AnalyzeSpec(s, avail).recommendation.category) &&
      ScoreOf(s.config, AnalyzeSpec(s, avail).recommendation.category) == AnalyzeSpec(s, avail).expectedValue
  {
    RerollOrScoreRecommended(AnalyzeSpec(s, avail));
    if !IsEmpty(avail) {
      BestImmediateFacts(s.config, s.rollsRemaining, avail);
      if CanReroll(s) {
        BestKeepSpecFacts(s.config, s.rollsRemaining, avail);
      }
    }
  }

  /**
   * With a category open, the analysis's value is at least the best score
   * now and at least the continuation, and at most the ceiling; with a roll
   * left the continuation and the optimal keep are `best_keep`'s.
   */
  lemma AnalyzeBounds(s: TurnState, avail: CategorySet)
    requires !IsEmpty(avail)
    ensures ImmediateBest(s.config, avail) <= AnalyzeSpec(s, avail).expectedValue <= Ceiling(avail)
    ensures AnalyzeSpec(s, avail).continueValue <= AnalyzeSpec(s, avail).expectedValue
    ensures CanReroll(s) ==>
      (AnalyzeSpec(s, avail).continueValue, AnalyzeSpec(s, avail).optimalKeep) == BestKeepSpec(s.config, s.rollsRemaining, avail)
  {
    BestImmediateFacts(s.config, s.rollsRemaining, avail);
    AnalyzeValue(s, avail);
    ValueBounds(s.config, s.rollsRemaining, avail);
    ValueAtLeastImmediate(s.config, s.rollsRemaining, avail);
  }

  /**
   * The category values of an open set list, in ascending order, exactly
   * the open categories, as many as the set holds.
   */
  lemma CategoryValuesOrder(c: Config, rolls: U8, avail: CategorySet)
    ensures |CategoryValues(c, rolls, Members(avail))| == Len(avail)
    ensures forall i :: 0 <= i < |CategoryValues(c, rolls, Members(avail))| ==>
      CategoryValues(c, rolls, Members(avail))[i].category == Members(avail)[i]
    ensures forall i, j :: 0 <= i < j < |CategoryValues(c, rolls, Members(avail))| ==>
      Index(CategoryValues(c, rolls, Members(avail))[i].category) < Index(CategoryValues(c, rolls, Members(avail))[j].category)
  {
    MembersLen(avail);
    MembersFacts(avail, Chance);
  }

  /** Every open category has an entry among the category values, and every entry is an open category. */
  lemma CategoryValuesCover(c: Config, rolls: U8, avail: CategorySet, cat: Category)
    ensures Contains(avail, cat) <==>
      exists i :: 0 <= i < |CategoryValues(c, rolls, Members(avail))| && CategoryValues(c, rolls, Members(avail))[i].category == cat
  {
    var ms := Members(avail);
    var vs := CategoryValues(c, rolls, ms);
    MembersFacts(avail, cat);
    if Contains(avail, cat) {
      var i :| 0 <= i < |ms| && ms[i] == cat;
      assert vs[i].category == cat;
    }
  }

  /** Each entry of the category values holds its category's score now, its validity and its expected score. */
  lemma CategoryValuesEntries(c: Config, rolls: U8, cats: seq<Category>)
    ensures forall v :: v in CategoryValues(c, rolls, cats) ==>
      v.immediateScore == Rules.Score(c, v.category).score && v.isValid == Rules.Score(c, v.category).valid &&
      v.expectedValue == CategoryEvSpec(c, rolls, v.category)
  {
  }

  /** `analyze`'s category values: none with no category open, and otherwise those of the open set. */
  lemma AnalyzeCategoryValues(s: TurnState, avail: CategorySet)
    ensures AnalyzeSpec(s, avail).categoryValues ==
      if IsEmpty(avail) then [] else CategoryValues(s.config, s.rollsRemaining, Members(avail))
    ensures IsEmpty(avail) ==> Len(avail) == 0
  {
    MembersEmpty(avail);
    MembersLen(avail);
  }

  /**
   * Five of a kind with Dicee open: whatever the rolls left, `analyze`
   * recommends scoring Dicee, for 50 points, since nothing beats the
   * largest score there is.
   */
  lemma AnalyzeDicee(s: TurnState, avail: CategorySet)
    requires IsYahtzee(s.config) && Contains(avail, Dicee)
    ensures AnalyzeSpec(s, avail).recommendation == Score(Dicee)
    ensures AnalyzeSpec(s, avail).expectedValue == 50.0
  {
    var c := s.config;
    var t := AnalyzeSpec(s, avail);
    EmptyFullMembers(avail);
    ImmediateBestFacts(c, avail);
    assert ScoreOf(c, Dicee) == 50.0;
    AnalyzeBounds(s, avail);
    assert Ceiling(avail) <= 50.0;
    AnalyzeRecommendation(s, avail);
    assert ShouldScore(t);
    var cat := t.recommendation.category;
    assert Rules.Score(c, cat).score == 50;
    OnlyDiceeFifty(cat);
  }

  /** Only Dicee can ever score 50. */
  lemma OnlyDiceeFifty(cat: Category)
    requires Rules.MaxScore(cat) >= 50
    ensures cat == Dicee
  {
  }

  // ---------------------------------------------------------------------------
  // The solver object
  // ---------------------------------------------------------------------------

  /** `CacheKey`: the configuration's index, the rolls left and the open set. */
  datatype CacheKey = CacheKey(configIndex: ConfigIndex, rollsRemaining: U8, available: CategorySet)

  /** `CacheKey::new`: the key names the state it was made from. */
  method NewCacheKey(c: Config, rolls: U8, avail: CategorySet) returns (key: CacheKey)
    ensures Cfg.FromIndex(key.configIndex) == c && key.rollsRemaining == rolls && key.available == avail
  {
    var index := ToIndex(c);
    key := CacheKey(index, rolls, avail);
  }

  /** A cache entry is right when it holds the value of the state its key names. */
  predicate CachedRight(key: CacheKey, ev: real)
  {
    ev == Value(Cfg.FromIndex(key.configIndex), key.rollsRemaining, key.available)
  }

  /**
   * `TurnSolver`: a memo of expected values by state, over the transition
   * table. Nothing ever inserts into the memo; what it may hold is right.
   */
  class TurnSolver {
    var cache: map<CacheKey, real>
    const table: TransitionTable

    ghost predicate Valid()
      reads this, table
    {
      table.Valid() && forall key :: key in cache ==> CachedRight(key, cache[key])
    }

    /** `new`: an empty memo. */
    constructor New(table: TransitionTable)
      requires table.Valid()
      ensures Valid() && this.table == table && cache == map[]
    {
      this.table := table;
      cache := map[];
    }

    /** `with_capacity`: an empty memo; the capacity only sizes the allocation. */
    constructor WithCapacity(table: TransitionTable, capacity: nat)
      requires table.Valid()
      ensures Valid() && this.table == table && cache == map[]
    {
      this.table := table;
      cache := map[];
    }

    /** `clear_cache`. */
    method ClearCache()
      requires Valid()
      modifies this
      ensures Valid() && cache == map[]
    {
      cache := map[];
    }

    /** `cache_size`. */
    method CacheSize() returns (n: nat)
      ensures n == |cache|
    {
      n := |cache|;
    }

    /**
     * `expected_value`: zero with nothing open, the best score now with no
     * roll left, a cached value when there is one, and otherwise the larger
     * of the best score now and `best_keep`'s value.
     */
    method ExpectedValue(c: Config, rolls: U8, avail: CategorySet) returns (ev: real)
      requires Valid()
      ensures ev == Value(c, rolls, avail)
      decreases rolls, 2
    {
      ValueUnfold(c, rolls, avail);
      if IsEmpty(avail) {
        return 0.0;
      }
      if rolls == 0 {
        var cats := Collect(avail);
        return MaxScoreOf(c, cats) as real;
      }
      var key := NewCacheKey(c, rolls, avail);
      if key in cache {
        return cache[key];
      }
      var cats := Collect(avail);
      var immediateBest := MaxScoreOf(c, cats) as real;
      var rerollEv, keep := BestKeep(c, rolls, avail);
      ev := RealMax(immediateBest, rerollEv);
    }

    /**
     * The table's `expected_value` for `p` with the closure of `best_keep`:
     * each reached configuration's `expected_value` with `later` rolls left.
     */
    method ContinuationValue(p: PartialDice, later: U8, avail: CategorySet) returns (ev: real)
      requires Valid() && WellFormed(p.kept)
      ensures ev == KeepValue(p.kept, ValueFn(later, avail))
      decreases later + 1, 0
    {
      ghost var f := ValueFn(later, avail);
      var entries := table.Get(p);
      var total := 0.0;
      for i := 0 to |entries|
        invariant total + EntriesExpectation(entries[i..], f) == EntriesExpectation(entries, f)
      {
        var config := Cfg.FromIndex(entries[i].target);
        var value := ExpectedValue(config, later, avail);
        ValueFnAt(later, avail, config);
        ExpectationStep(entries, i, f, total, value);
        total := total + entries[i].probability.value * value;
      }
      assert entries[|entries|..] == [];
      ev := total;
    }

    /**
     * `best_keep`: with no roll left, `expected_value` and `keep_all`;
     * otherwise every pattern of `iter_valid_for` in turn, the table's
     * expectation of `expected_value` one roll later, keeping a pattern only
     * when it is strictly better than the best so far (`None` stands for
     * the starting negative infinity).
     */
    method BestKeep(c: Config, rolls: U8, avail: CategorySet) returns (ev: real, keep: KeepPattern)
      requires Valid()
      ensures (ev, keep) == BestKeepSpec(c, rolls, avail)
      decreases rolls, if rolls == 0 then 3 else 1
    {
      if rolls == 0 {
        ev := ExpectedValue(c, 0, avail);
        ValueUnfold(c, 0, avail);
        keep := KeepAll(c);
        return;
      }
      var later: U8 := rolls - 1;
      ghost var value := KeepValueOf(ValueFn(later, avail));
      var ps := IterValidFor(c);
      AllPatternsValid(c);
      var best: Option<real> := None;
      keep := KEEP_NONE;
      for i := 0 to |ps|
        invariant i == 0 <==> best.None?
        invariant i > 0 ==> (best.value, keep) == ScanBest(ps, value, i)
      {
        var partial := PartialDice(ps[i]);
        var e := ContinuationValue(partial, later, avail);
        ScanStep(ps, ValueFn(later, avail), i, e);
        if best.None? || e > best.value {
          best := Some(e);
          keep := ps[i];
        }
      }
      ev := best.value;
    }

    /**
     * The table's `expected_value` for `p` with the closure of
     * `best_keep_for_category`: the reached configuration's score in `cat`
     * after the last roll, and `best_keep_for_category`'s value one roll
     * later otherwise.
     */
    method CategoryContinuation(p: PartialDice, rolls: U8, cat: Category) returns (ev: real)
      requires Valid() && WellFormed(p.kept) && rolls >= 1
      ensures ev == KeepValue(p.kept, Layer(rolls - 1, InCategory(cat), false))
      decreases rolls, 1
    {
      ghost var f := Layer(rolls - 1, InCategory(cat), false);
      var entries := table.Get(p);
      var total := 0.0;
      for i := 0 to |entries|
        invariant total + EntriesExpectation(entries[i..], f) == EntriesExpectation(entries, f)
      {
        var config := Cfg.FromIndex(entries[i].target);
        var value := CategoryClosureValue(config, rolls - 1, cat);
        ExpectationStep(entries, i, f, total, value);
        total := total + entries[i].probability.value * value;
      }
      assert entries[|entries|..] == [];
      ev := total;
    }

    /**
     * The closure itself, for a throw that leaves `later` rolls: the score
     * of `d` in `cat` when none is left (`rolls == 1` in the caller), and
     * `best_keep_for_category`'s value with `later` rolls otherwise.
     */
    method CategoryClosureValue(d: Config, later: U8, cat: Category) returns (value: real)
      requires Valid()
      ensures value == Layer(later, InCategory(cat), false)(d)
      decreases later, 3
    {
      if later == 0 {
        value := ScoreOf(d, cat);
        ClosureAtLast(d, cat);
      } else {
        var keep;
        value, keep := BestKeepForCategory(d, later, cat);
        ClosureBefore(d, later, later - 1, cat);
      }
    }

    /** `best_keep_for_category`: the scan of `best_keep`, for `cat` alone. */
    method BestKeepForCategory(c: Config, rolls: U8, cat: Category) returns (ev: real, keep: KeepPattern)
      requires Valid()
      ensures (ev, keep) == BestKeepForCategorySpec(c, rolls, cat)
      decreases rolls, 2
    {
      if rolls == 0 {
        return ScoreOf(c, cat), KeepAll(c);
      }
      var later: U8 := rolls - 1;
      ghost var next := Layer(later, InCategory(cat), false);
      ghost var value := KeepValueOf(next);
      var ps := IterValidFor(c);
      AllPatternsValid(c);
      var best: Option<real> := None;
      keep := KEEP_NONE;
      for i := 0 to |ps|
        invariant i == 0 <==> best.None?
        invariant i > 0 ==> (best.value, keep) == ScanBest(ps, value, i)
      {
        var partial := PartialDice(ps[i]);
        var e := CategoryContinuation(partial, rolls, cat);
        ScanStep(ps, next, i, e);
        if best.None? || e > best.value {
          best := Some(e);
          keep := ps[i];
        }
      }
      ev := best.value;
    }

    /** `category_ev`: the score with no roll left, `best_keep_for_category`'s value otherwise. */
    method CategoryEv(c: Config, rolls: U8, cat: Category) returns (ev: real)
      requires Valid()
      ensures ev == CategoryEvSpec(c, rolls, cat)
    {
      CategoryUnfold(c, rolls, cat);
      if rolls == 0 {
        return ScoreOf(c, cat);
      }
      var keep;
      ev, keep := BestKeepForCategory(c, rolls, cat);
    }

    /** The loop of `analyze` that values each open category, in the order given. */
    method CategoryValuesFor(s: TurnState, cats: seq<Category>) returns (values: seq<CategoryValue>)
      requires Valid()
      ensures values == CategoryValues(s.config, s.rollsRemaining, cats)
    {
      values := [];
      for i := 0 to |cats|
        invariant |values| == i
        invariant forall j :: 0 <= j < i ==> values[j] == CategoryValueOf(s.config, s.rollsRemaining, cats[j])
      {
        var v := CategoryValueAt(s, cats[i]);
        values := values + [v];
      }
    }

    /** One entry of that loop: the category's score now and its value with the rolls left. */
    method CategoryValueAt(s: TurnState, cat: Category) returns (v: CategoryValue)
      requires Valid()
      ensures v == CategoryValueOf(s.config, s.rollsRemaining, cat)
    {
      var result := Rules.Score(s.config, cat);
      var ev: real;
      if s.rollsRemaining > 0 {
        ev := CategoryEv(s.config, s.rollsRemaining, cat);
      } else {
        ev := result.score as real;
      }
      v := CategoryValue(cat, result.score, result.valid, ev);
    }

    /** `analyze`. */
    method Analyze(s: TurnState, avail: CategorySet) returns (t: TurnAnalysis)
      requires Valid()
      ensures t == AnalyzeSpec(s, avail)
    {
      if IsEmpty(avail) {
        return TurnAnalysis(s, avail, [], None, 0.0, KEEP_NONE, Score(Chance), 0.0);
      }
      var cats := Collect(avail);
      var values := CategoryValuesFor(s, cats);
      var best := BestImmediate(values);
      var bestValue := ImmediateValue(best);
      var continueValue: real, optimalKeep: KeepPattern;
      if CanReroll(s) {
        continueValue, optimalKeep := BestKeep(s.config, s.rollsRemaining, avail);
      } else {
        continueValue, optimalKeep := bestValue, KeepAll(s.config);
      }
      if CanReroll(s) && continueValue > bestValue {
        t := TurnAnalysis(s, avail, values, best, continueValue, optimalKeep, Reroll(optimalKeep), continueValue);
      } else {
        var bestCategory := if best.Some? then best.value.0 else Chance;
        t := TurnAnalysis(s, avail, values, best, continueValue, optimalKeep, Score(bestCategory), bestValue);
      }
    }
  }

  /** `analyze_turn`: `analyze` on a fresh solver over the shared table. */
  method AnalyzeWithFreshSolver(table: TransitionTable, s: TurnState, avail: CategorySet) returns (t: TurnAnalysis)
    requires table.Valid()
    ensures t == AnalyzeSpec(s, avail)
    ensures !IsEmpty(avail) ==> t.expectedValue == Value(s.config, s.rollsRemaining, avail)
  {
    var solver := new TurnSolver.New(table);
    t := solver.Analyze(s, avail);
    if !IsEmpty(avail) {
      AnalyzeValue(s, avail);
    }
  }

  /** `quick_ev`: the value of a hand of dice on a fresh solver, which lies between 0 and 50. */
  method QuickEv(table: TransitionTable, dice: seq<nat>, rolls: U8, avail: CategorySet) returns (ev: real)
    requires table.Valid() && ValidDice(dice)
    ensures ev == Value(ConfigOf(dice), rolls, avail)
    ensures 0.0 <= ev <= 50.0
  {
    var solver := new TurnSolver.New(table);
    var c := FromDice(dice);
    ev := solver.ExpectedValue(c, rolls, avail);
    ValueBounds(c, rolls, avail);
  }

  /** The closure of `best_keep_for_category` after the last roll: the score of the reached hand. */
  lemma ClosureAtLast(d: Config, cat: Category)
    ensures Layer(0, InCategory(cat), false)(d) == ScoreOf(d, cat)
  {
  }

  /** The closure of `best_keep_for_category` with rolls still to come: `best_keep_for_category`'s value. */
  lemma ClosureBefore(d: Config, later: nat, r: nat, cat: Category)
    requires later == r + 1
    ensures Layer(later, InCategory(cat), false)(d) == BestKeepForCategorySpec(d, later, cat).0
  {
    var next := Layer(r, InCategory(cat), false);
    LayerStep(later, r, InCategory(cat), false);
    assert Layer(later, InCategory(cat), false)(d) == BestKeep(d, next).0;
  }

  /** The closure of `best_keep` applied to a configuration. */
  lemma ValueFnAt(rolls: nat, avail: CategorySet, d: Config)
    ensures ValueFn(rolls, avail)(d) == Value(d, rolls, avail)
  {
  }

  /** One step of the scan: keeping pattern `i` exactly when nothing was held or it is strictly better. */
  lemma ScanStep(ps: seq<KeepPattern>, next: Config -> real, i: nat, e: real)
    requires i < |ps| && WellFormed(ps[i]) && e == KeepValue(ps[i], next)
    ensures i == 0 ==> ScanBest(ps, KeepValueOf(next), i + 1) == (e, ps[i])
    ensures i > 0 ==> (ScanBest(ps, KeepValueOf(next), i + 1) ==
      if e > ScanBest(ps, KeepValueOf(next), i).0 then (e, ps[i]) else ScanBest(ps, KeepValueOf(next), i))
  {
    assert KeepValueOf(next)(ps[i]) == e;
  }
}
