/**
 * Dice configurations (core/config.rs): an unordered hand of five dice is
 * stored as six face counts, and the 252 possible hands are enumerated once,
 * in lexicographic order of their counts, to give each hand an index.
 */
module Config {
  import opened Combinatorics
  import opened Wrappers
  import opened Errors

  /** Number of canonical configurations, C(10,5). */
  const CONFIG_COUNT: nat := 252

  /** Index of a configuration in the canonical enumeration (`ConfigIndex(u8)`, always below 252). */
  newtype ConfigIndex = i: int | 0 <= i < 252

  /** Entry f−1 of `counts` is the number of dice showing face f. */
  datatype DiceConfig = DiceConfig(counts: seq<nat>)

  predicate ValidCounts(counts: seq<nat>)
  {
    |counts| == 6 && Sum(counts) == 5
  }

  /** A configuration whose six counts sum to five, as every constructor of `DiceConfig` guarantees. */
  type Config = c: DiceConfig | ValidCounts(c.counts) witness DiceConfig([5, 0, 0, 0, 0, 0])

  /** An ordered hand (`Dice = [u8; 5]`) whose dice all show 1..6. */
  predicate ValidDice(dice: seq<nat>)
  {
    |dice| == 5 && forall i :: 0 <= i < 5 ==> 1 <= dice[i] <= 6
  }

  predicate AllFaces(dice: seq<nat>)
  {
    forall i :: 0 <= i < |dice| ==> 1 <= dice[i] <= 6
  }

  // ---------------------------------------------------------------------------
  // Construction
  // ---------------------------------------------------------------------------

  function NewConfigIndex(index: nat): (r: Result<ConfigIndex, DiceeError>)
    ensures r.Ok? <==> index < 252
    ensures r.Ok? ==> r.value as int == index
    ensures r.Err? ==> r.error == InvalidConfigIndex(index)
  {
    if index < 252 then Ok(index as ConfigIndex) else Err(InvalidConfigIndex(index))
  }

  /**
   * `from_counts` with the sum taken exactly: counts that do not add up to
   * five are rejected, reporting the sum as the value and position 0.
   */
  function FromCounts(counts: seq<nat>): (r: Result<Config, DiceeError>)
    requires |counts| == 6
    ensures r.Ok? <==> Sum(counts) == 5
    ensures r.Ok? ==> r.value.counts == counts
    ensures r.Err? ==> r.error == InvalidDieValue(Sum(counts), 0)
  {
    if Sum(counts) != 5 then Err(InvalidDieValue(Sum(counts), 0))
    else var c: Config := DiceConfig(counts); Ok(c)
  }

  /**
   * `from_counts` as the source computes it: the six `u8` counts are summed in
   * `u8`, which wraps modulo 256 when overflow checks are off.
   */
  function FromCountsWrapping(counts: seq<nat>): (r: Result<DiceConfig, DiceeError>)
    requires |counts| == 6 && forall i :: 0 <= i < 6 ==> counts[i] < 256
    ensures r.Ok? <==> Sum(counts) % 256 == 5
    ensures r.Ok? ==> r.value.counts == counts
  {
    var sum := Sum(counts) % 256;
    if sum != 5 then Err(InvalidDieValue(sum, 0)) else Ok(DiceConfig(counts))
  }

  /** The wrapping sum lets through a count vector that does not describe five dice. */
  lemma FromCountsWrappingAcceptsOverflow()
    ensures FromCountsWrapping([251, 10, 0, 0, 0, 0]).Ok?
    ensures !ValidCounts([251, 10, 0, 0, 0, 0])
  {
    Sum6([251, 10, 0, 0, 0, 0]);
  }

  /** Number of dice in `dice` showing face `f`. */
  function Occurrences(dice: seq<nat>, f: nat): (r: nat)
    ensures r <= |dice|
  {
    if dice == [] then 0
    else Occurrences(dice[..|dice| - 1], f) + (if dice[|dice| - 1] == f then 1 else 0)
  }

  /** The counts an ordered hand determines. */
  function CountsOf(dice: seq<nat>): (r: seq<nat>)
    ensures |r| == 6
  {
    seq(6, i requires 0 <= i < 6 => Occurrences(dice, i + 1))
  }

  lemma {:induction false} CountsOfSum(dice: seq<nat>)
    requires AllFaces(dice)
    ensures Sum(CountsOf(dice)) == |dice|
  {
    Sum6(CountsOf(dice));
    if dice != [] {
      var init := dice[..|dice| - 1];
      CountsOfSum(init);
      Sum6(CountsOf(init));
    }
  }

  /**
   * `from_dice`: count the dice face by face. The result's counts are the
   * occurrences of each face and add up to five.
   */
  method FromDice(dice: seq<nat>) returns (c: Config)
    requires ValidDice(dice)
    ensures c.counts == CountsOf(dice)
  {
    var counts := new nat[6](_ => 0);
    for k := 0 to 5
      invariant counts[..] == CountsOf(dice[..k])
    {
      assert dice[..k + 1][..k] == dice[..k];
      counts[dice[k] - 1] := counts[dice[k] - 1] + 1;
    }
    assert dice[..5] == dice;
    CountsOfSum(dice);
    c := DiceConfig(counts[..]);
  }

  /** `count(face)`: the number of dice showing `face`. */
  function Count(c: Config, face: nat): nat
    requires 1 <= face <= 6
  {
    c.counts[face - 1]
  }

  /** In a hand of five, a face occurs once for each position showing it. */
  lemma OccurrencesFive(dice: seq<nat>, f: nat)
    requires |dice| == 5
    ensures Occurrences(dice, f) == (if dice[0] == f then 1 else 0) + (if dice[1] == f then 1 else 0)
      + (if dice[2] == f then 1 else 0) + (if dice[3] == f then 1 else 0) + (if dice[4] == f then 1 else 0)
  {
    assert dice[..4][..3] == dice[..3];
    assert dice[..3][..2] == dice[..2];
    assert dice[..2][..1] == dice[..1];
    assert dice[..1][..0] == [];
    assert Occurrences(dice[..1], f) == (if dice[0] == f then 1 else 0);
    assert Occurrences(dice[..2], f) == Occurrences(dice[..1], f) + (if dice[1] == f then 1 else 0);
    assert Occurrences(dice[..3], f) == Occurrences(dice[..2], f) + (if dice[2] == f then 1 else 0);
    assert Occurrences(dice[..4], f) == Occurrences(dice[..3], f) + (if dice[3] == f then 1 else 0);
    assert Occurrences(dice, f) == Occurrences(dice[..4], f) + (if dice[4] == f then 1 else 0);
  }

  /** The configuration of an ordered hand, as a value (`FromDice` computes it). */
  function ConfigOf(dice: seq<nat>): (c: Config)
    requires ValidDice(dice)
    ensures forall f :: 1 <= f <= 6 ==> Count(c, f) == Occurrences(dice, f)
  {
    CountsOfSum(dice);
    DiceConfig(CountsOf(dice))
  }

  lemma CountOfDice(dice: seq<nat>, face: nat)
    requires ValidDice(dice) && 1 <= face <= 6
    ensures ValidCounts(CountsOf(dice))
    ensures Count(DiceConfig(CountsOf(dice)), face) == Occurrences(dice, face)
  {
    CountsOfSum(dice);
  }

  // ---------------------------------------------------------------------------
  // Derived quantities and predicates
  // ---------------------------------------------------------------------------

  /** Σ f·count(f) over a count vector. */
  function FaceSum(counts: seq<nat>): nat
    requires |counts| == 6
  {
    counts[0] + 2 * counts[1] + 3 * counts[2] + 4 * counts[3] + 5 * counts[4] + 6 * counts[5]
  }

  /** `sum()`: the total of the pips. */
  function DiceSum(c: Config): nat
  {
    FaceSum(c.counts)
  }

  /** Computed from the counts, the sum is the plain sum of the ordered dice. */
  lemma {:induction false} FaceSumOfDice(dice: seq<nat>)
    requires AllFaces(dice)
    ensures FaceSum(CountsOf(dice)) == Sum(dice)
  {
    if dice != [] {
      var init, last := dice[..|dice| - 1], dice[|dice| - 1];
      FaceSumOfDice(init);
      assert dice == init + [last];
      SumSnoc(init, last);
    }
  }

  /** Largest entry of a vector, 0 for the empty one. */
  function MaxOf(s: seq<nat>): (r: nat)
    ensures forall i :: 0 <= i < |s| ==> s[i] <= r
    ensures s != [] ==> exists i :: 0 <= i < |s| && s[i] == r
    ensures s == [] ==> r == 0
  {
    if s == [] then 0
    else
      var m := MaxOf(s[1..]);
      assert forall i :: 1 <= i < |s| ==> s[i] == s[1..][i - 1];
      if s[0] >= m then s[0] else m
  }

  /** `max_count()`: the largest face count. */
  function MaxCount(c: Config): (r: nat)
    ensures r <= 5
    ensures forall i :: 0 <= i < 6 ==> c.counts[i] <= r
    ensures exists i :: 0 <= i < 6 && c.counts[i] == r
  {
    var r := MaxOf(c.counts);
    var i :| 0 <= i < 6 && c.counts[i] == r;
    EntryAtMostSum(c.counts, i);
    r
  }

  /**
   * `mode_face()`: scans faces 6 down to 1 and moves to a face whenever its
   * count is at least the best so far, so ties go to the lowest face.
   */
  method ModeFace(c: Config) returns (face: nat)
    ensures 1 <= face <= 6
    ensures c.counts[face - 1] == MaxCount(c)
    ensures forall i :: 0 <= i < face - 1 ==> c.counts[i] < c.counts[face - 1]
  {
    var bestFace := 6;
    var bestCount := c.counts[5];
    var f := 5;
    while f >= 1
      invariant 0 <= f < bestFace <= 6
      invariant bestCount == c.counts[bestFace - 1]
      invariant forall i :: f <= i < 6 ==> c.counts[i] <= bestCount
      invariant forall i :: f <= i < bestFace - 1 ==> c.counts[i] < bestCount
    {
      if c.counts[f - 1] >= bestCount {
        bestCount := c.counts[f - 1];
        bestFace := f;
      }
      f := f - 1;
    }
    face := bestFace;
    var m :| 0 <= m < 6 && c.counts[m] == MaxCount(c);
    assert c.counts[m] <= bestCount;
  }

  /** `is_yahtzee()` (called `is_dicee` by the scorer): the largest count is five. */
  predicate IsYahtzee(c: Config)
  {
    MaxCount(c) == 5
  }

  /** Five of a kind is exactly a face whose count is five. */
  lemma IsYahtzeeIff(c: Config)
    ensures IsYahtzee(c) <==> exists i :: 0 <= i < 6 && c.counts[i] == 5
  {
    if exists i :: 0 <= i < 6 && c.counts[i] == 5 {
      var i :| 0 <= i < 6 && c.counts[i] == 5;
      assert c.counts[i] <= MaxCount(c);
    }
  }

  /** Some face appears three times and some face twice. */
  predicate HasFullHouse(c: Config)
  {
    (exists i :: 0 <= i < 6 && c.counts[i] == 3) && (exists j :: 0 <= j < 6 && c.counts[j] == 2)
  }

  /** `is_full_house()`: one pass over the counts recording a three and a two. */
  method IsFullHouse(c: Config) returns (r: bool)
    ensures r <==> HasFullHouse(c)
  {
    var hasThree, hasTwo := false, false;
    for k := 0 to 6
      invariant hasThree <==> exists i :: 0 <= i < k && c.counts[i] == 3
      invariant hasTwo <==> exists i :: 0 <= i < k && c.counts[i] == 2
    {
      if c.counts[k] == 3 {
        hasThree := true;
      } else if c.counts[k] == 2 {
        hasTwo := true;
      }
    }
    r := hasThree && hasTwo;
  }

  /** Number of nonzero entries, counted from the back. */
  function CountPositive(s: seq<nat>): (r: nat)
    ensures r == |set i | 0 <= i < |s| && s[i] > 0|
  {
    if s == [] then 0
    else
      var init := s[..|s| - 1];
      var rest := CountPositive(init);
      var last := |s| - 1;
      assert (set i | 0 <= i < |s| && s[i] > 0)
          == (set i | 0 <= i < |init| && init[i] > 0) + (if s[last] > 0 then {last} else {});
      rest + (if s[last] > 0 then 1 else 0)
  }

  lemma {:induction false} CountPositiveBounds(s: seq<nat>)
    ensures CountPositive(s) <= Sum(s)
    ensures Sum(s) > 0 ==> CountPositive(s) >= 1
  {
    if s != [] {
      var init := s[..|s| - 1];
      CountPositiveBounds(init);
      assert s == init + [s[|s| - 1]];
      SumSnoc(init, s[|s| - 1]);
    }
  }

  /** `distinct_faces()`: how many different faces the hand shows, between one and five. */
  function DistinctFaces(c: Config): (r: nat)
    ensures r == |set i | 0 <= i < 6 && c.counts[i] > 0|
    ensures 1 <= r <= 5
  {
    CountPositiveBounds(c.counts);
    CountPositive(c.counts)
  }

  // ---------------------------------------------------------------------------
  // The canonical enumeration
  // ---------------------------------------------------------------------------

  /** The counts of `ALL_CONFIGS`: the lexicographic stars-and-bars enumeration. */
  function AllConfigCounts(): (r: seq<seq<nat>>)
    reads {}
    ensures |r| == 252
  {
    CompLengthFact(5, 6);
    FiveSixLength(|Comp(5, 6)|);
    Comp(5, 6)
  }

  lemma FiveSixLength(x: nat)
    requires x * Fact(5) * Fact(5) == Fact(10)
    ensures x == 252
  {
    assert Fact(5) == 120 && Fact(10) == 3628800;
  }

  /**
   * `ALL_CONFIGS` holds valid hands only, in strictly increasing
   * lexicographic order (so each at most once), and every hand is there.
   */
  lemma AllConfigsFacts()
    ensures forall i :: 0 <= i < 252 ==> ValidCounts(AllConfigCounts()[i])
    ensures StrictlySorted(AllConfigCounts())
    ensures forall i, j :: 0 <= i < j < 252 ==> AllConfigCounts()[i] != AllConfigCounts()[j]
    ensures forall counts :: ValidCounts(counts) ==> counts in AllConfigCounts()
  {
    var all := AllConfigCounts();
    CompElements(5, 6);
    forall i | 0 <= i < 252 ensures ValidCounts(all[i]) {
      assert all[i] in Comp(5, 6);
    }
    CompSorted(5, 6);
    SortedDistinct(all);
    forall counts | ValidCounts(counts) ensures counts in all {
      CompMember(5, 6, counts);
    }
  }

  /** `from_index`: the configuration at a position of the enumeration. */
  function FromIndex(index: ConfigIndex): (c: Config)
    ensures c.counts == AllConfigCounts()[index]
  {
    AllConfigsFacts();
    DiceConfig(AllConfigCounts()[index])
  }

  /**
   * `to_index`: walk the enumeration until the configuration turns up. It
   * always does, and its position is the only one holding it, so `to_index`
   * and `from_index` are inverse to each other.
   */
  method ToIndex(c: Config) returns (index: ConfigIndex)
    ensures FromIndex(index) == c
    ensures forall j :: 0 <= j < 252 ==> (AllConfigCounts()[j] == c.counts <==> j == index as int)
  {
    AllConfigsFacts();
    var all := AllConfigCounts();
    ghost var k :| 0 <= k < 252 && all[k] == c.counts;
    var i := 0;
    while all[i] != c.counts
      invariant 0 <= i <= k
      decreases k - i
    {
      i := i + 1;
    }
    index := i as ConfigIndex;
  }

  /** `FACTORIALS`: n! for n in 0..5. */
  const FACTORIALS: seq<nat> := [1, 1, 2, 6, 24, 120]

  lemma FactorialsTable(n: nat)
    requires n <= 5
    ensures FACTORIALS[n] == Fact(n)
  {
  }

  /**
   * `multiplicity()`: 120 divided successively by each count's factorial,
   * which is the number of ordered hands with these counts, 5!/∏ nᵢ!.
   */
  method Multiplicity(c: Config) returns (m: nat)
    ensures m == Multinomial(c.counts)
    ensures m * FactProd(c.counts) == 120
    ensures 1 <= m <= 120
  {
    m := 120;
    for j := 0 to 6
      invariant m == 120 / FactProd(c.counts[..j])
    {
      EntryAtMostSum(c.counts, j);
      FactorialsTable(c.counts[j]);
      DivDiv(120, FactProd(c.counts[..j]), Fact(c.counts[j]));
      assert c.counts[..j + 1] == c.counts[..j] + [c.counts[j]];
      FactProdSnoc(c.counts[..j], c.counts[j]);
      m := m / FACTORIALS[c.counts[j]];
    }
    assert c.counts[..6] == c.counts;
    assert Fact(5) == 120;
    MultinomialDivision(c.counts);
    MultinomialFact(c.counts);
    MulAtLeast(m, FactProd(c.counts));
  }

  // ---------------------------------------------------------------------------
  // Back to ordered dice
  // ---------------------------------------------------------------------------

  function Repeat(x: nat, n: nat): (r: seq<nat>)
    ensures |r| == n && forall i :: 0 <= i < n ==> r[i] == x
  {
    seq(n, _ => x)
  }

  /** `counts[f−1]` copies of each face f, faces in ascending order. */
  function Expand(counts: seq<nat>): seq<nat>
  {
    if counts == [] then []
    else Expand(counts[..|counts| - 1]) + Repeat(|counts|, counts[|counts| - 1])
  }

  predicate SortedAscending(s: seq<nat>)
  {
    forall i, j :: 0 <= i < j < |s| ==> s[i] <= s[j]
  }

  lemma {:induction false} OccurrencesAppend(a: seq<nat>, b: seq<nat>, f: nat)
    ensures Occurrences(a + b, f) == Occurrences(a, f) + Occurrences(b, f)
    decreases |b|
  {
    if b != [] {
      var bi := b[..|b| - 1];
      assert (a + b)[..|a + b| - 1] == a + bi;
      assert (a + b)[|a + b| - 1] == b[|b| - 1];
      OccurrencesAppend(a, bi, f);
      assert Occurrences(a + b, f) == Occurrences(a + bi, f) + (if b[|b| - 1] == f then 1 else 0);
    } else {
      assert a + b == a;
    }
  }

  lemma {:induction false} OccurrencesRepeat(x: nat, n: nat, f: nat)
    ensures Occurrences(Repeat(x, n), f) == if f == x then n else 0
  {
    if n > 0 {
      assert Repeat(x, n)[..n - 1] == Repeat(x, n - 1);
      OccurrencesRepeat(x, n - 1, f);
    }
  }

  /** The expansion holds `Sum(counts)` dice, ascending, face f exactly `counts[f−1]` times. */
  lemma {:induction false} ExpandFacts(counts: seq<nat>)
    ensures |Expand(counts)| == Sum(counts)
    ensures forall i :: 0 <= i < |Expand(counts)| ==> 1 <= Expand(counts)[i] <= |counts|
    ensures SortedAscending(Expand(counts))
    ensures forall f :: 1 <= f <= |counts| ==> Occurrences(Expand(counts), f) == counts[f - 1]
    ensures forall f :: f == 0 || f > |counts| ==> Occurrences(Expand(counts), f) == 0
  {
    if counts != [] {
      var init, last := counts[..|counts| - 1], counts[|counts| - 1];
      ExpandFacts(init);
      assert counts == init + [last];
      SumSnoc(init, last);
      var e := Expand(counts);
      var ei, r := Expand(init), Repeat(|counts|, last);
      assert e == ei + r;
      forall f ensures Occurrences(e, f) == Occurrences(ei, f) + Occurrences(r, f) {
        OccurrencesAppend(ei, r, f);
        OccurrencesRepeat(|counts|, last, f);
      }
      forall f | 1 <= f <= |counts| ensures Occurrences(e, f) == counts[f - 1] {
        OccurrencesRepeat(|counts|, last, f);
      }
      forall f | f == 0 || f > |counts| ensures Occurrences(e, f) == 0 {
        OccurrencesRepeat(|counts|, last, f);
      }
    }
  }

  /** Going from the faces below `face` to the faces up to `face`. */
  lemma ExpandStep(counts: seq<nat>, face: nat)
    requires 1 <= face <= |counts|
    ensures Sum(counts[..face]) == Sum(counts[..face - 1]) + counts[face - 1] <= Sum(counts)
    ensures Expand(counts[..face]) == Expand(counts[..face - 1]) + Repeat(face, counts[face - 1])
  {
    PrefixSumStep(counts, face);
    var s := counts[..face];
    assert s[..|s| - 1] == counts[..face - 1];
  }

  lemma PrefixSumStep(counts: seq<nat>, face: nat)
    requires 1 <= face <= |counts|
    ensures Sum(counts[..face]) == Sum(counts[..face - 1]) + counts[face - 1] <= Sum(counts)
  {
    var s := counts[..face];
    var prefix := counts[..face - 1];
    assert s == prefix + [counts[face - 1]];
    SumSnoc(prefix, counts[face - 1]);
    assert counts == s + counts[face..];
    SumAppend(s, counts[face..]);
  }

  /**
   * `to_dice()`: write each face as often as it is counted, faces in order.
   * The hand is valid, sorted ascending, and counting it gives back the
   * configuration (`from_dice(to_dice(c)) == c`).
   */
  method ToDice(c: Config) returns (dice: seq<nat>)
    ensures dice == Expand(c.counts)
    ensures ValidDice(dice)
    ensures SortedAscending(dice)
    ensures CountsOf(dice) == c.counts
  {
    var arr := new nat[5](_ => 0);
    var pos := 0;
    for face := 1 to 7
      invariant pos == Sum(c.counts[..face - 1]) <= 5
      invariant arr[..pos] == Expand(c.counts[..face - 1])
    {
      ghost var prefix := c.counts[..face - 1];
      ExpandStep(c.counts, face);
      for t := 0 to c.counts[face - 1]
        invariant pos == Sum(prefix) + t
        invariant arr[..pos] == Expand(prefix) + Repeat(face, t)
      {
        arr[pos] := face;
        assert Repeat(face, t + 1) == Repeat(face, t) + [face];
        pos := pos + 1;
      }
    }
    assert c.counts[..6] == c.counts;
    ExpandFacts(c.counts);
    dice := arr[..];
  }

  // ---------------------------------------------------------------------------
  // Compile-time tables
  // ---------------------------------------------------------------------------

  /**
   * `generate_all_configs`: nested loops choose the counts of faces 1 to 5 in
   * increasing order and face 6 takes the rest. One call runs the loop for
   * one face: it writes, from `start` on, `p` followed by each vector of
   * `Comp(r, m)` (the counts of the `m` remaining faces), and returns where
   * it stopped.
   */
  method FillConfigs(arr: array<DiceConfig>, start: nat, p: seq<nat>, r: nat, m: nat) returns (end: nat)
    requires m >= 2 && start + |Comp(r, m)| <= arr.Length
    modifies arr
    ensures end == start + |Comp(r, m)|
    ensures forall i :: 0 <= i < start ==> arr[i] == old(arr[i])
    ensures forall i :: start <= i < end ==> arr[i].counts == p + Comp(r, m)[i - start]
    decreases m, 1
  {
    ghost var all := Comp(r, m);
    end := start;
    ghost var done: seq<seq<nat>> := [];
    var c := 0;
    while c <= r
      invariant all == done + CompFrom(r, m, c)
      invariant end == start + |done|
      invariant forall i :: 0 <= i < start ==> arr[i] == old(arr[i])
      invariant forall i :: start <= i < end ==> arr[i].counts == p + done[i - start]
    {
      ghost var block := Cons(c, Comp(r - c, m - 1));
      assert CompFrom(r, m, c) == block + CompFrom(r, m, c + 1);
      end := FillBlock(arr, end, p, r, m, c);
      done := done + block;
      c := c + 1;
    }
  }

  /** One turn of the loop for the current face: it takes `c` of the `r` dice. */
  method FillBlock(arr: array<DiceConfig>, start: nat, p: seq<nat>, r: nat, m: nat, c: nat) returns (end: nat)
    requires m >= 2 && c <= r && start + |Cons(c, Comp(r - c, m - 1))| <= arr.Length
    modifies arr
    ensures end == start + |Cons(c, Comp(r - c, m - 1))|
    ensures forall i :: 0 <= i < start ==> arr[i] == old(arr[i])
    ensures forall i :: start <= i < end ==> arr[i].counts == p + Cons(c, Comp(r - c, m - 1))[i - start]
    decreases m, 0
  {
    if m == 2 {
      CompPair(r, c);
      arr[start] := DiceConfig(p + [c, r - c]);
      end := start + 1;
    } else {
      end := FillConfigs(arr, start, p + [c], r - c, m - 1);
      PrefixCons(p, c, Comp(r - c, m - 1));
    }
  }

  /** With two faces left, the only way to share `r` dice with `c` on the first. */
  lemma CompPair(r: nat, c: nat)
    requires c <= r
    ensures Cons(c, Comp(r - c, 1)) == [[c, r - c]]
  {
    var rest := Comp(r - c, 1);
    assert rest == [[r - c]];
    assert |Cons(c, rest)| == 1 && Cons(c, rest)[0] == [c] + rest[0] == [c, r - c];
  }

  lemma PrefixCons(p: seq<nat>, c: nat, inner: seq<seq<nat>>)
    ensures forall i :: 0 <= i < |inner| ==> p + Cons(c, inner)[i] == (p + [c]) + inner[i]
  {
    forall i | 0 <= i < |inner| ensures p + Cons(c, inner)[i] == (p + [c]) + inner[i] {
      assert p + ([c] + inner[i]) == (p + [c]) + inner[i];
    }
  }

  /** The table `generate_all_configs` produces is the enumeration. */
  method GenerateAllConfigs() returns (configs: seq<DiceConfig>)
    ensures |configs| == 252
    ensures forall i :: 0 <= i < 252 ==> configs[i].counts == AllConfigCounts()[i]
  {
    ghost var all := AllConfigCounts();
    assert all == Comp(5, 6);
    var arr := new DiceConfig[252](_ => DiceConfig([0, 0, 0, 0, 0, 0]));
    var end := FillConfigs(arr, 0, [], 5, 6);
    assert forall i :: 0 <= i < 252 ==> [] + all[i] == all[i];
    configs := arr[..];
  }

  /** Every ordered hand is counted once: the multiplicities add up to 6⁵. */
  lemma TotalMultiplicity()
    ensures SumMultinomial(AllConfigCounts()) == 7776
  {
    MultinomialTheorem(5, 6);
    assert Pow(6, 5) == 7776;
  }

  /**
   * `generate_multiplicities`: the multiplicity of every entry of the
   * generated table, in table order; they add up to 7776.
   */
  method GenerateMultiplicities() returns (mults: seq<nat>)
    ensures |mults| == 252
    ensures forall i :: 0 <= i < 252 ==> mults[i] == Multinomial(AllConfigCounts()[i])
    ensures forall i :: 0 <= i < 252 ==> mults[i] * FactProd(AllConfigCounts()[i]) == 120
  {
    AllConfigsFacts();
    ghost var all := AllConfigCounts();
    var configs := GenerateAllConfigs();
    var arr := new nat[252](_ => 0);
    for i := 0 to 252
      invariant forall j :: 0 <= j < i ==> arr[j] == Multinomial(all[j])
      invariant forall j :: 0 <= j < i ==> arr[j] * FactProd(all[j]) == 120
    {
      assert ValidCounts(all[i]);
      var c: Config := configs[i];
      var m := Multiplicity(c);
      arr[i] := m;
    }
    mults := arr[..];
  }
}
