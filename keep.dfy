/**
 * Keep decisions (core/keep.rs): how many dice of each face to hold back
 * before a reroll, the enumeration of every pattern a configuration allows
 * as a mixed-radix counter, and the partial hand a pattern leaves.
 */
module Keep {
  import opened Combinatorics
  import opened Wrappers
  import opened Errors
  import opened Config

  /** Entry f−1 of `kept` is the number of dice showing face f to keep. */
  datatype KeepPattern = KeepPattern(kept: seq<nat>)

  /** Six counts keeping at most five dice, as `from_counts` guarantees. */
  predicate WellFormed(k: KeepPattern)
  {
    |k.kept| == 6 && Sum(k.kept) <= 5
  }

  /** `KEEP_NONE`: reroll all five dice. */
  const KEEP_NONE: KeepPattern := KeepPattern([0, 0, 0, 0, 0, 0])

  /**
   * `from_counts` with the total taken exactly: more than five kept dice are
   * rejected, reporting face 0, the total and 5.
   */
  function FromCounts(kept: seq<nat>): (r: Result<KeepPattern, DiceeError>)
    requires |kept| == 6
    ensures r.Ok? <==> Sum(kept) <= 5
    ensures r.Ok? ==> r.value.kept == kept && WellFormed(r.value)
    ensures r.Err? ==> r.error == InvalidKeepPattern(0, Sum(kept), 5)
  {
    if Sum(kept) > 5 then Err(InvalidKeepPattern(0, Sum(kept), 5)) else Ok(KeepPattern(kept))
  }

  /**
   * `from_counts` as the source computes it: the `u8` counts are summed in
   * `u8`, which wraps modulo 256 when overflow checks are off.
   */
  function FromCountsWrapping(kept: seq<nat>): (r: Result<KeepPattern, DiceeError>)
    requires |kept| == 6 && forall i :: 0 <= i < 6 ==> kept[i] < 256
    ensures r.Ok? <==> Sum(kept) % 256 <= 5
    ensures r.Ok? ==> r.value.kept == kept
  {
    var total := Sum(kept) % 256;
    if total > 5 then Err(InvalidKeepPattern(0, total, 5)) else Ok(KeepPattern(kept))
  }

  /** The wrapping total accepts 257 kept dice, which it counts as one. */
  lemma FromCountsWrappingAcceptsOverflow()
    ensures FromCountsWrapping([255, 2, 0, 0, 0, 0]).Ok?
    ensures !WellFormed(FromCountsWrapping([255, 2, 0, 0, 0, 0]).value)
  {
    Sum6([255, 2, 0, 0, 0, 0]);
  }

  /** `keep_all(config)`: keep every die of the configuration. */
  function KeepAll(c: Config): (r: KeepPattern)
    ensures r.kept == c.counts
  {
    KeepPattern(c.counts)
  }

  /** `count(face)`. */
  function KeptCount(k: KeepPattern, face: nat): nat
    requires |k.kept| == 6 && 1 <= face <= 6
  {
    k.kept[face - 1]
  }

  /** `total_kept()`. */
  function TotalKept(k: KeepPattern): nat
  {
    Sum(k.kept)
  }

  /** `dice_to_roll()`: the dice not kept, `5 − total_kept()`. */
  function DiceToRoll(k: KeepPattern): nat
    requires WellFormed(k)
  {
    5 - TotalKept(k)
  }

  /** Kept and rerolled dice always make up the five dice of the hand. */
  lemma KeptPlusRolled(k: KeepPattern)
    requires WellFormed(k)
    ensures TotalKept(k) + DiceToRoll(k) == 5
    ensures DiceToRoll(k) == 5 <==> k == KEEP_NONE
  {
    SumZeroIff(k.kept);
    assert Zeros(6) == [0, 0, 0, 0, 0, 0];
  }

  /** `keep_all` keeps five dice, every one of them available. */
  lemma KeepAllFacts(c: Config)
    ensures WellFormed(KeepAll(c)) && TotalKept(KeepAll(c)) == 5 && DiceToRoll(KeepAll(c)) == 0
    ensures ValidFor(KeepAll(c), c)
  {
  }

  // ---------------------------------------------------------------------------
  // Validity against a configuration
  // ---------------------------------------------------------------------------

  /** No face is kept more often than the configuration shows it. */
  predicate ValidFor(k: KeepPattern, c: Config)
    requires |k.kept| == 6
  {
    forall face :: 1 <= face <= 6 ==> KeptCount(k, face) <= Count(c, face)
  }

  /** A valid pattern is one the configuration's counts dominate. */
  lemma ValidForAtLeast(k: KeepPattern, c: Config)
    requires |k.kept| == 6
    ensures ValidFor(k, c) <==> AtLeast(c.counts, k.kept)
  {
    if ValidFor(k, c) {
      forall i | 0 <= i < 6 ensures k.kept[i] <= c.counts[i] {
        assert KeptCount(k, i + 1) <= Count(c, i + 1);
      }
    }
  }

  /** A pattern valid for some configuration keeps at most five dice. */
  lemma ValidForWellFormed(k: KeepPattern, c: Config)
    requires |k.kept| == 6 && ValidFor(k, c)
    ensures WellFormed(k)
  {
    ValidForAtLeast(k, c);
    MinusSum(c.counts, k.kept);
  }

  /** `is_valid_for`: the loop over the faces, stopping at the first one kept too often. */
  method IsValidFor(k: KeepPattern, c: Config) returns (r: bool)
    requires |k.kept| == 6
    ensures r <==> ValidFor(k, c)
  {
    for face := 1 to 7
      invariant forall g :: 1 <= g < face ==> KeptCount(k, g) <= Count(c, g)
    {
      if KeptCount(k, face) > Count(c, face) {
        return false;
      }
    }
    return true;
  }

  /**
   * What `validate_for` returns, face by face from `face` on: the first face
   * kept more often than shown is reported with both counts.
   */
  function ValidateFrom(k: KeepPattern, c: Config, face: nat): Result<(), DiceeError>
    requires |k.kept| == 6 && 1 <= face <= 7
    decreases 7 - face
  {
    if face == 7 then Ok(())
    else if KeptCount(k, face) > Count(c, face) then
      Err(InvalidKeepPattern(face, KeptCount(k, face), Count(c, face)))
    else ValidateFrom(k, c, face + 1)
  }

  /** `validate_for` on the whole pattern. */
  function Validate(k: KeepPattern, c: Config): Result<(), DiceeError>
    requires |k.kept| == 6
  {
    ValidateFrom(k, c, 1)
  }

  /** The face an error reports is the first offending one. */
  predicate FirstOffending(k: KeepPattern, c: Config, face: nat)
    requires |k.kept| == 6
  {
    1 <= face <= 6 && KeptCount(k, face) > Count(c, face)
    && forall g :: 1 <= g < face ==> KeptCount(k, g) <= Count(c, g)
  }

  lemma {:induction false} ValidateFromFacts(k: KeepPattern, c: Config, face: nat)
    requires |k.kept| == 6 && 1 <= face <= 7
    requires forall g :: 1 <= g < face ==> KeptCount(k, g) <= Count(c, g)
    ensures ValidateFrom(k, c, face).Ok? <==> ValidFor(k, c)
    ensures ValidateFrom(k, c, face).Err? ==> exists f :: (FirstOffending(k, c, f)
      && ValidateFrom(k, c, face).error == InvalidKeepPattern(f, KeptCount(k, f), Count(c, f)))
    decreases 7 - face
  {
    if face < 7 && KeptCount(k, face) <= Count(c, face) {
      ValidateFromFacts(k, c, face + 1);
    }
  }

  /**
   * `validate_for` succeeds exactly on valid patterns, and otherwise names
   * the first offending face with its requested and available counts.
   */
  lemma ValidateFacts(k: KeepPattern, c: Config)
    requires |k.kept| == 6
    ensures Validate(k, c).Ok? <==> ValidFor(k, c)
    ensures Validate(k, c).Err? ==> exists f :: (FirstOffending(k, c, f)
      && Validate(k, c).error == InvalidKeepPattern(f, KeptCount(k, f), Count(c, f)))
  {
    ValidateFromFacts(k, c, 1);
  }

  /** `validate_for`: the loop with its early return. */
  method ValidateFor(k: KeepPattern, c: Config) returns (r: Result<(), DiceeError>)
    requires |k.kept| == 6
    ensures r == Validate(k, c)
  {
    for face := 1 to 7
      invariant Validate(k, c) == ValidateFrom(k, c, face)
    {
      var requested := KeptCount(k, face);
      var available := Count(c, face);
      if requested > available {
        return Err(InvalidKeepPattern(face, requested, available));
      }
    }
    return Ok(());
  }

  // ---------------------------------------------------------------------------
  // Enumerating the valid patterns
  // ---------------------------------------------------------------------------

  /** `count_valid_for`: the product of `n + 1` over the counts. */
  function RadixSize(max: seq<nat>): (r: nat)
    ensures r >= 1
  {
    if max == [] then 1 else (max[0] + 1) * RadixSize(max[1..])
  }

  function CountValidFor(c: Config): nat
  {
    RadixSize(c.counts)
  }

  /**
   * The digits of `r` in the mixed radix whose digit `i` runs over
   * `0..=max[i]`, least significant digit first: face 1 counts fastest.
   */
  function Decode(r: nat, max: seq<nat>): (ds: seq<nat>)
    ensures |ds| == |max|
  {
    if max == [] then [] else [r % (max[0] + 1)] + Decode(r / (max[0] + 1), max[1..])
  }

  /** The position of a digit vector in the same mixed radix. */
  function Encode(ds: seq<nat>, max: seq<nat>): nat
    requires |ds| == |max|
  {
    if max == [] then 0 else ds[0] + (max[0] + 1) * Encode(ds[1..], max[1..])
  }

  lemma {:induction false} DecodeAtMost(r: nat, max: seq<nat>)
    ensures AtLeast(max, Decode(r, max))
  {
    if max != [] {
      DecodeAtMost(r / (max[0] + 1), max[1..]);
    }
  }

  lemma {:induction false} EncodeDecode(r: nat, max: seq<nat>)
    requires r < RadixSize(max)
    ensures Encode(Decode(r, max), max) == r
  {
    if max != [] {
      var b := max[0] + 1;
      var ds := Decode(r, max);
      assert ds[0] == r % b && ds[1..] == Decode(r / b, max[1..]);
      DivBelow(r, b, RadixSize(max[1..]));
      EncodeDecode(r / b, max[1..]);
      assert r == r % b + b * (r / b);
    }
  }

  lemma DivBelow(r: nat, b: nat, n: nat)
    requires b >= 1 && r < b * n
    ensures r / b < n
  {
    var q := r / b;
    assert r == b * q + r % b;
    if q >= n {
      MulMonotone(b, n, q);
      assert false;
    }
  }

  lemma {:induction false} DecodeEncode(ds: seq<nat>, max: seq<nat>)
    requires AtLeast(max, ds)
    ensures Encode(ds, max) < RadixSize(max)
    ensures Decode(Encode(ds, max), max) == ds
  {
    if max != [] {
      var b := max[0] + 1;
      var e := Encode(ds[1..], max[1..]);
      DecodeEncode(ds[1..], max[1..]);
      DivMod(ds[0], b, e);
      assert ds[0] + b * e < b * RadixSize(max[1..]) by {
        MulMonotone(b, e + 1, RadixSize(max[1..]));
      }
    }
  }

  lemma DivMod(d: nat, b: nat, q: nat)
    requires d < b
    ensures (d + b * q) % b == d && (d + b * q) / b == q
  {
    DivUnique(d + b * q, b, q, d);
  }

  /** The rank just past the last pattern decodes to all zeros, like rank 0. */
  lemma {:induction false} DecodeEnds(max: seq<nat>)
    ensures Decode(0, max) == Zeros(|max|)
    ensures Decode(RadixSize(max), max) == Zeros(|max|)
  {
    if max != [] {
      DecodeEnds(max[1..]);
      DivMod(0, max[0] + 1, RadixSize(max[1..]));
    }
  }

  /**
   * One step of the counter: raise the first digit below its maximum and
   * reset the digits before it; the flag says the counter wrapped around.
   */
  function Increment(ds: seq<nat>, max: seq<nat>): (seq<nat>, bool)
    requires |ds| == |max|
  {
    if max == [] then ([], true)
    else if ds[0] < max[0] then ([ds[0] + 1] + ds[1..], false)
    else
      var (rest, carry) := Increment(ds[1..], max[1..]);
      ([0] + rest, carry)
  }

  /** Incrementing the digits of `r` gives the digits of `r + 1`, wrapping after the last rank. */
  lemma {:induction false} IncrementDecode(r: nat, max: seq<nat>)
    requires r < RadixSize(max)
    ensures Increment(Decode(r, max), max) == (Decode(r + 1, max), r + 1 == RadixSize(max))
  {
    if max != [] {
      var b := max[0] + 1;
      if r % b < max[0] {
        IncrementLowDigit(r, max);
      } else {
        DivBelow(r, b, RadixSize(max[1..]));
        IncrementDecode(r / b, max[1..]);
        IncrementCarryDigit(r, max);
      }
    }
  }

  /** The lowest digit has room: it goes up by one and nothing carries. */
  lemma IncrementLowDigit(r: nat, max: seq<nat>)
    requires max != [] && r < RadixSize(max) && r % (max[0] + 1) < max[0]
    ensures Increment(Decode(r, max), max) == (Decode(r + 1, max), r + 1 == RadixSize(max))
  {
    var b := max[0] + 1;
    var q := Quotient(r, b);
    var n := RadixSize(max[1..]);
    assert RadixSize(max) == b * n;
    NoCarryArith(r, b, q, n);
    var ds := Decode(r, max);
    assert ds[0] == r % b && ds[1..] == Decode(q, max[1..]);
    assert Decode(r + 1, max) == [r % b + 1] + Decode(q, max[1..]);
  }

  lemma NoCarryArith(r: nat, b: nat, q: nat, n: nat)
    requires b >= 1 && q == r / b && r % b < b - 1 && r < b * n
    ensures (r + 1) % b == r % b + 1 && (r + 1) / b == q
    ensures r + 1 < b * n
  {
    var d := r % b;
    assert r == d + b * q;
    DivMod(d + 1, b, q);
    assert r + 1 == (d + 1) + b * q;
    DivBelow(r, b, n);
    MulMonotone(b, q + 1, n);
    assert r + 1 < b * (q + 1);
  }

  /** The lowest digit is at its maximum: it resets and the rest of the counter steps. */
  lemma IncrementCarryDigit(r: nat, max: seq<nat>)
    requires max != [] && r < RadixSize(max) && r % (max[0] + 1) == max[0]
    requires Increment(Decode(r / (max[0] + 1), max[1..]), max[1..])
      == (Decode(r / (max[0] + 1) + 1, max[1..]), r / (max[0] + 1) + 1 == RadixSize(max[1..]))
    ensures Increment(Decode(r, max), max) == (Decode(r + 1, max), r + 1 == RadixSize(max))
  {
    var b := max[0] + 1;
    var q := Quotient(r, b);
    var n := RadixSize(max[1..]);
    assert RadixSize(max) == b * n;
    CarryArith(r, b, q, n);
    var ds := Decode(r, max);
    assert ds[0] == max[0] && ds[1..] == Decode(q, max[1..]);
    var next := Decode(r + 1, max);
    assert next == [0] + Decode(q + 1, max[1..]);
  }

  /** `r / b` as a natural number, with the division identity. */
  function Quotient(r: nat, b: nat): (q: nat)
    requires b >= 1
    ensures q == r / b && r == b * q + r % b
  {
    r / b
  }

  lemma CarryArith(r: nat, b: nat, q: nat, n: nat)
    requires b >= 1 && q == r / b && r % b == b - 1
    ensures (r + 1) % b == 0 && (r + 1) / b == q + 1
    ensures r + 1 == b * n <==> q + 1 == n
  {
    assert r + 1 == 0 + b * (q + 1) by {
      assert r == b * q + (b - 1);
      assert b * (q + 1) == b * q + b;
    }
    DivMod(0, b, q + 1);
    if q + 1 != n {
      MulCancel(b, q + 1, n);
    }
  }

  lemma MulCancel(b: nat, x: nat, y: nat)
    requires b >= 1 && x != y
    ensures b * x != b * y
  {
    if x < y {
      MulMonotone(b, x + 1, y);
    } else {
      MulMonotone(b, y + 1, x);
    }
  }

  /** `Increment` read from the low digit to the high one, as the loop in `next` runs. */
  lemma {:induction false} IncrementSnoc(a: seq<nat>, m: seq<nat>, x: nat, y: nat)
    requires |a| == |m|
    ensures Increment(a + [x], m + [y]) ==
      if Increment(a, m).1 then
        (if x < y then (Increment(a, m).0 + [x + 1], false) else (Increment(a, m).0 + [0], true))
      else (Increment(a, m).0 + [x], false)
  {
    if a == [] {
      assert a + [x] == [x] && m + [y] == [y];
      assert [x][1..] == [] && [y][1..] == [];
      assert [x + 1] + [] == [] + [x + 1] && [0] + [] == [] + [0];
    } else {
      assert (a + [x])[0] == a[0] && (m + [y])[0] == m[0];
      assert (a + [x])[1..] == a[1..] + [x];
      assert (m + [y])[1..] == m[1..] + [y];
      if a[0] < m[0] {
        assert [a[0] + 1] + (a[1..] + [x]) == ([a[0] + 1] + a[1..]) + [x];
      } else {
        IncrementSnoc(a[1..], m[1..], x, y);
        var rest := Increment(a[1..], m[1..]).0;
        assert [0] + (rest + [x + 1]) == ([0] + rest) + [x + 1];
        assert [0] + (rest + [0]) == ([0] + rest) + [0];
        assert [0] + (rest + [x]) == ([0] + rest) + [x];
      }
    }
  }

  /** The carry loop of `next`: step the digits from face 1 upwards while a carry is pending. */
  method IncrementCounts(digits: seq<nat>, max: seq<nat>) returns (next: seq<nat>, carry: bool)
    requires |digits| == 6 && |max| == 6
    ensures (next, carry) == Increment(digits, max)
  {
    next := digits;
    carry := true;
    for i := 0 to 6
      invariant |next| == 6
      invariant (next[..i], carry) == Increment(digits[..i], max[..i])
      invariant next[i..] == digits[i..]
    {
      assert digits[..i + 1] == digits[..i] + [digits[i]];
      assert max[..i + 1] == max[..i] + [max[i]];
      IncrementSnoc(digits[..i], max[..i], digits[i], max[i]);
      ghost var before := next;
      if carry {
        if next[i] < max[i] {
          next := next[i := next[i] + 1];
          carry := false;
        } else {
          next := next[i := 0];
        }
      }
      assert next[..i + 1] == before[..i] + [next[i]];
      assert next[i + 1..] == before[i + 1..];
    }
    assert digits[..6] == digits && max[..6] == max && next[..6] == next;
  }

  /** The patterns `iter_valid_for(config)` yields, in order. */
  function AllPatterns(c: Config): (ps: seq<KeepPattern>)
    ensures |ps| == CountValidFor(c)
  {
    seq(RadixSize(c.counts), r requires 0 <= r < RadixSize(c.counts) => KeepPattern(Decode(r, c.counts)))
  }

  /**
   * The enumeration lists `count_valid_for(config)` patterns, every one of
   * them valid and well formed, each valid pattern exactly once, starting
   * with `KEEP_NONE`, pattern `r` being the digits of `r` in the mixed radix.
   */
  lemma AllPatternsFacts(c: Config, r: nat, s: nat)
    requires r < s < CountValidFor(c)
    ensures AllPatterns(c)[0] == KEEP_NONE
    ensures ValidFor(AllPatterns(c)[r], c) && WellFormed(AllPatterns(c)[r])
    ensures Encode(AllPatterns(c)[r].kept, c.counts) == r
    ensures AllPatterns(c)[r] != AllPatterns(c)[s]
  {
    DecodeEnds(c.counts);
    DecodeAtMost(r, c.counts);
    ValidForAtLeast(AllPatterns(c)[r], c);
    ValidForWellFormed(AllPatterns(c)[r], c);
    EncodeDecode(r, c.counts);
    EncodeDecode(s, c.counts);
  }

  /** The enumeration is never empty: it starts with `KEEP_NONE`, and every pattern in it is valid. */
  lemma AllPatternsValid(c: Config)
    ensures |AllPatterns(c)| >= 1 && AllPatterns(c)[0] == KEEP_NONE
    ensures forall r :: 0 <= r < |AllPatterns(c)| ==> ValidFor(AllPatterns(c)[r], c) && WellFormed(AllPatterns(c)[r])
  {
    DecodeEnds(c.counts);
    forall r | 0 <= r < |AllPatterns(c)|
      ensures ValidFor(AllPatterns(c)[r], c) && WellFormed(AllPatterns(c)[r])
    {
      DecodeAtMost(r, c.counts);
      ValidForAtLeast(AllPatterns(c)[r], c);
      ValidForWellFormed(AllPatterns(c)[r], c);
    }
  }

  /** Every pattern valid for the configuration is enumerated. */
  lemma AllPatternsComplete(c: Config, k: KeepPattern)
    requires |k.kept| == 6 && ValidFor(k, c)
    ensures k in AllPatterns(c)
  {
    ValidForAtLeast(k, c);
    DecodeEncode(k.kept, c.counts);
    assert AllPatterns(c)[Encode(k.kept, c.counts)] == k;
  }

  /** `KeepPatternIterator`: a mixed-radix counter over the keep counts. */
  class KeepPatternIter {
    const maxCounts: seq<nat>
    var current: seq<nat>
    var done: bool
    /** How many patterns have been yielded. */
    ghost var rank: nat

    /** `current` holds the digits of `rank`; `done` is set once every rank is used. */
    ghost predicate Valid()
      reads this
    {
      ValidCounts(maxCounts) && rank <= RadixSize(maxCounts)
      && current == Decode(rank, maxCounts)
      && (done <==> rank == RadixSize(maxCounts))
    }

    /** `new(config)`: start at all zeros. */
    constructor (c: Config)
      ensures Valid() && maxCounts == c.counts && rank == 0
    {
      maxCounts := c.counts;
      current := [0, 0, 0, 0, 0, 0];
      done := false;
      rank := 0;
      new;
      DecodeEnds(c.counts);
    }

    /**
     * `next()`: yield the current counts, then add one to the counter, face
     * 1 first; a carry out of the last face ends the iteration.
     */
    method Next() returns (r: Option<KeepPattern>)
      requires Valid()
      modifies this
      ensures Valid()
      ensures old(done) ==> r == None && rank == old(rank)
      ensures !old(done) ==> r == Some(KeepPattern(Decode(old(rank), maxCounts))) && rank == old(rank) + 1
    {
      if done {
        return None;
      }
      r := Some(KeepPattern(current));
      var carry;
      current, carry := IncrementCounts(current, maxCounts);
      IncrementDecode(rank, maxCounts);
      if carry {
        done := true;
      }
      rank := rank + 1;
    }

    /** `size_hint()`: no lower bound, and `count_valid_for` as the upper one until done. */
    function SizeHint(): (r: (nat, nat))
      requires Valid()
      reads this
      ensures r.0 <= RadixSize(maxCounts) - rank <= r.1
    {
      if done then (0, 0) else (0, RadixSize(maxCounts))
    }
  }

  /** `iter_valid_for(config).collect()`: running the iterator to the end. */
  method IterValidFor(c: Config) returns (ps: seq<KeepPattern>)
    ensures ps == AllPatterns(c)
  {
    var it := new KeepPatternIter(c);
    ghost var all := AllPatterns(c);
    ps := [];
    while true
      invariant it.Valid() && it.maxCounts == c.counts
      invariant ps == all[..it.rank]
      decreases RadixSize(c.counts) - it.rank
    {
      var next := it.Next();
      if next.None? {
        break;
      }
      ps := ps + [next.value];
    }
    assert all[..RadixSize(c.counts)] == all;
  }

  /** The hand [1, 2, 3, 3, 5] allows 2·2·3·1·2·1 = 24 patterns. */
  lemma CountValidForExample()
    ensures RadixSize([1, 1, 2, 0, 1, 0]) == 24
  {
  }

  // ---------------------------------------------------------------------------
  // Partial dice
  // ---------------------------------------------------------------------------

  /** The kept dice, before the reroll. */
  datatype PartialDice = PartialDice(kept: KeepPattern)

  /** `PartialDice::new`: validate the pattern against the configuration first. */
  method NewPartialDice(c: Config, keep: KeepPattern) returns (r: Result<PartialDice, DiceeError>)
    requires |keep.kept| == 6
    ensures r.Ok? <==> Validate(keep, c).Ok?
    ensures r.Ok? ==> r.value.kept == keep
    ensures r.Err? ==> r.error == Validate(keep, c).error
  {
    var v := ValidateFor(keep, c);
    if v.Err? {
      return Err(v.error);
    }
    return Ok(PartialDice(keep));
  }

  /** `is_complete()`: all five dice are kept. */
  predicate IsComplete(p: PartialDice)
  {
    TotalKept(p.kept) == 5
  }

  /** A partial hand is complete exactly when nothing is left to roll. */
  lemma IsCompleteIff(p: PartialDice)
    requires WellFormed(p.kept)
    ensures IsComplete(p) <==> DiceToRoll(p.kept) == 0
  {
  }

  /**
   * `combine_with_roll(rolled)`: add the rolled counts to the kept ones face
   * by face. The rolled dice must number `dice_to_roll()`.
   */
  method CombineWithRoll(p: PartialDice, rolled: seq<nat>) returns (c: Config)
    requires WellFormed(p.kept) && |rolled| == 6 && Sum(rolled) == DiceToRoll(p.kept)
    ensures c.counts == Plus(rolled, p.kept.kept)
    ensures forall i :: 0 <= i < 6 ==> c.counts[i] == p.kept.kept[i] + rolled[i]
  {
    var counts := p.kept.kept;
    for i := 0 to 6
      invariant |counts| == 6
      invariant forall j :: 0 <= j < i ==> counts[j] == p.kept.kept[j] + rolled[j]
      invariant forall j :: i <= j < 6 ==> counts[j] == p.kept.kept[j]
    {
      counts := counts[i := counts[i] + rolled[i]];
    }
    assert counts == Plus(rolled, p.kept.kept);
    PlusSum(rolled, p.kept.kept);
    c := DiceConfig(counts);
  }
}
