/**
 * The thirteen scoring categories and the 13-bit category set
 * (`core/category.rs`).
 */
module Categories {
  import opened Wrappers
  import opened Bits

  /**
   * The categories in their declared order; the position in `ALL` is the
   * discriminant. `Dicee` is the five-of-a-kind category, also called
   * Yahtzee elsewhere in the engine.
   */
  datatype Category =
    | Ones | Twos | Threes | Fours | Fives | Sixes
    | ThreeOfAKind | FourOfAKind | FullHouse | SmallStraight | LargeStraight
    | Dicee | Chance

  const COUNT: nat := 13

  const ALL: seq<Category> := [Ones, Twos, Threes, Fours, Fives, Sixes,
    ThreeOfAKind, FourOfAKind, FullHouse, SmallStraight, LargeStraight, Dicee, Chance]

  const UPPER: seq<Category> := [Ones, Twos, Threes, Fours, Fives, Sixes]

  const LOWER: seq<Category> :=
    [ThreeOfAKind, FourOfAKind, FullHouse, SmallStraight, LargeStraight, Dicee, Chance]

  /** `index()`: the discriminant, which is the position in `ALL`. */
  function Index(c: Category): (r: nat)
    ensures r < COUNT
  {
    match c
    case Ones => 0
    case Twos => 1
    case Threes => 2
    case Fours => 3
    case Fives => 4
    case Sixes => 5
    case ThreeOfAKind => 6
    case FourOfAKind => 7
    case FullHouse => 8
    case SmallStraight => 9
    case LargeStraight => 10
    case Dicee => 11
    case Chance => 12
  }

  /** `from_index(i)`: the category with discriminant `i`, if `i < 13`. */
  function FromIndex(i: nat): (r: Option<Category>)
    ensures r.Some? <==> i < COUNT
    ensures r.Some? ==> Index(r.value) == i
  {
    if i < COUNT then Some(ALL[i]) else None
  }

  /** The discriminants are distinct and `from_index` inverts `index`. */
  lemma IndexRoundTrip(c: Category, d: Category)
    ensures FromIndex(Index(c)) == Some(c)
    ensures Index(c) == Index(d) <==> c == d
  {
  }

  /** `is_upper`: one of the six counting categories. */
  predicate IsUpper(c: Category)
  {
    Index(c) < 6
  }

  /** `is_lower`. */
  predicate IsLower(c: Category)
  {
    Index(c) >= 6
  }

  /** The sections split the categories: `UPPER` and `LOWER` list them. */
  lemma Sections(c: Category)
    ensures IsUpper(c) <==> c in UPPER
    ensures IsLower(c) <==> c in LOWER
    ensures IsUpper(c) != IsLower(c)
    ensures ALL == UPPER + LOWER
  {
  }

  /** `upper_face`: the face an upper category counts. */
  function UpperFace(c: Category): (r: Option<nat>)
    ensures r.Some? <==> IsUpper(c)
    ensures r.Some? ==> 1 <= r.value <= 6 && UPPER[r.value - 1] == c
  {
    if IsUpper(c) then Some(Index(c) + 1) else None
  }

  /** `fixed_score`: the four categories whose score does not depend on the dice. */
  function FixedScore(c: Category): (r: Option<nat>)
    ensures r.Some? <==> c in {FullHouse, SmallStraight, LargeStraight, Dicee}
    ensures c == FullHouse ==> r == Some(25)
    ensures c == SmallStraight ==> r == Some(30)
    ensures c == LargeStraight ==> r == Some(40)
    ensures c == Dicee ==> r == Some(50)
  {
    match c
    case FullHouse => Some(25)
    case SmallStraight => Some(30)
    case LargeStraight => Some(40)
    case Dicee => Some(50)
    case _ => None
  }

  // ---------------------------------------------------------------------------
  // CategorySet
  // ---------------------------------------------------------------------------

  /** `ALL_MASK`: `(1 << 13) - 1`. */
  const ALL_MASK: nat := 0x1FFF

  /** `mask()`: `1 << index()`, the only bit of the category in a set. */
  function Mask(c: Category): (r: nat)
    ensures 0 < r <= ALL_MASK
  {
    Pow2Monotone(Index(c), 12);
    Pow2(Index(c))
  }

  /** The mask of `c` has the bit of index `Index(c)` and no other. */
  lemma MaskBit(c: Category, i: nat)
    ensures Bit(Mask(c), i) <==> i == Index(c)
  {
    Pow2Bit(Index(c), i);
  }

  /** A set only ever holds the low 13 bits of its `u16`. */
  type Bits13 = b: nat | b <= ALL_MASK

  /** A set of categories: bit `i` stands for the category of index `i`. */
  datatype CategorySet = CategorySet(bits: Bits13)

  /** `contains`: the category's mask meets the bits. */
  predicate Contains(s: CategorySet, c: Category)
  {
    And(s.bits, Mask(c)) != 0
  }

  /** Membership is the category's bit. */
  lemma ContainsBit(s: CategorySet, c: Category)
    ensures Contains(s, c) <==> Bit(s.bits, Index(c))
  {
    AndPow2(s.bits, Index(c));
  }

  /** Values below `1 << 13` have no bit at 13 or above. */
  lemma High13(b: nat, i: nat)
    requires b <= ALL_MASK && i >= COUNT
    ensures !Bit(b, i)
  {
    Pow2Count();
    HighBit(b, COUNT, i);
  }

  /** `new()` / `EMPTY`. */
  function Empty(): CategorySet
  {
    CategorySet(0)
  }

  /** `all()`. */
  function All(): CategorySet
  {
    CategorySet(ALL_MASK)
  }

  /** `upper_only()`. */
  function UpperOnly(): CategorySet
  {
    CategorySet(0x3F)
  }

  /** `lower_only()`. */
  function LowerOnly(): CategorySet
  {
    CategorySet(0x1FC0)
  }

  /** `from_bits`: only the low 13 bits of the `u16` are kept. */
  function FromBits(b: U16): CategorySet
  {
    AndBound(b, ALL_MASK);
    CategorySet(And(b, ALL_MASK))
  }

  /** `is_empty()`. */
  predicate IsEmpty(s: CategorySet)
  {
    s.bits == 0
  }

  /** `is_full()`. */
  predicate IsFull(s: CategorySet)
  {
    s.bits == ALL_MASK
  }

  /** `with(c)`, and `insert(c)` on a set held in a variable. */
  function With(s: CategorySet, c: Category): CategorySet
  {
    Pow2Count();
    OrBound(s.bits, Mask(c), COUNT);
    CategorySet(Or(s.bits, Mask(c)))
  }

  /** `without(c)`, and `remove(c)` on a set held in a variable. */
  function Without(s: CategorySet, c: Category): CategorySet
  {
    AndBound(s.bits, Not16(Mask(c)));
    CategorySet(And(s.bits, Not16(Mask(c))))
  }

  /** `union`. */
  function Union(s: CategorySet, t: CategorySet): CategorySet
  {
    Pow2Count();
    OrBound(s.bits, t.bits, COUNT);
    CategorySet(Or(s.bits, t.bits))
  }

  /** `intersection`. */
  function Intersection(s: CategorySet, t: CategorySet): CategorySet
  {
    AndBound(s.bits, t.bits);
    CategorySet(And(s.bits, t.bits))
  }

  /** `complement`: `!bits` cut back to the thirteen categories. */
  function Complement(s: CategorySet): CategorySet
  {
    AndBound(Not16(s.bits), ALL_MASK);
    CategorySet(And(Not16(s.bits), ALL_MASK))
  }

  /** The bits of `ALL_MASK`, `0x3F` and `0x1FC0`, position by position. */
  lemma ConstantBits(i: nat)
    ensures Bit(ALL_MASK, i) <==> i < COUNT
    ensures Bit(0x3F, i) <==> i < 6
    ensures Bit(0x1FC0, i) <==> 6 <= i < COUNT
  {
    assert Pow2(13) == 0x2000 && Pow2(6) == 0x40 && Pow2(0) == 1;
    RangeMaskBit(0, 13, i);
    RangeMaskBit(0, 6, i);
    RangeMaskBit(6, 13, i);
  }

  /** `1 << 13` is one past `ALL_MASK`. */
  lemma Pow2Count()
    ensures Pow2(COUNT) == ALL_MASK + 1
  {
  }

  /** The fixed sets: nothing, everything, and the two sections. */
  lemma ConstantSets(c: Category)
    ensures !Contains(Empty(), c)
    ensures Contains(All(), c)
    ensures Contains(UpperOnly(), c) <==> IsUpper(c)
    ensures Contains(LowerOnly(), c) <==> IsLower(c)
  {
    ContainsBit(Empty(), c);
    ContainsBit(All(), c);
    ContainsBit(UpperOnly(), c);
    ContainsBit(LowerOnly(), c);
    ZeroBit(Index(c));
    ConstantBits(Index(c));
  }

  /** `from_bits(b)` holds the category of index `i` exactly when bit `i` of `b` is set. */
  lemma FromBitsContains(b: U16, c: Category)
    ensures Contains(FromBits(b), c) <==> Bit(b, Index(c))
  {
    ContainsBit(FromBits(b), c);
    AndBit(b, ALL_MASK, Index(c));
    ConstantBits(Index(c));
  }

  /** `from_bits(s.bits())` is `s`: the bits of a set are already clean. */
  lemma FromBitsRoundTrip(s: CategorySet)
    ensures FromBits(s.bits) == s
  {
    forall i: nat ensures Bit(And(s.bits, ALL_MASK), i) == Bit(s.bits, i) {
      AndBit(s.bits, ALL_MASK, i);
      ConstantBits(i);
      if i >= COUNT {
        High13(s.bits, i);
      }
    }
    SameBits(And(s.bits, ALL_MASK), s.bits);
  }

  /** Inserting `c` adds `c` and keeps every other membership. */
  lemma WithContains(s: CategorySet, c: Category, d: Category)
    ensures Contains(With(s, c), d) <==> d == c || Contains(s, d)
  {
    ContainsBit(With(s, c), d);
    ContainsBit(s, d);
    OrPow2Bit(s.bits, Index(c), Index(d));
    IndexRoundTrip(c, d);
  }

  /** Removing `c` drops `c` and keeps every other membership. */
  lemma WithoutContains(s: CategorySet, c: Category, d: Category)
    ensures Contains(Without(s, c), d) <==> d != c && Contains(s, d)
  {
    WithoutBit(s, c, d);
    ContainsBit(s, d);
    IndexRoundTrip(c, d);
  }

  lemma WithoutBit(s: CategorySet, c: Category, d: Category)
    ensures Contains(Without(s, c), d) <==> Bit(s.bits, Index(d)) && Index(d) != Index(c)
  {
    ContainsBit(Without(s, c), d);
    AndNotPow2Bit(s.bits, Index(c), Index(d));
  }

  /** `union` is set union. */
  lemma UnionContains(s: CategorySet, t: CategorySet, d: Category)
    ensures Contains(Union(s, t), d) <==> Contains(s, d) || Contains(t, d)
  {
    ContainsBit(Union(s, t), d);
    ContainsBit(s, d);
    ContainsBit(t, d);
    OrBit(s.bits, t.bits, Index(d));
  }

  /** `intersection` is set intersection. */
  lemma IntersectionContains(s: CategorySet, t: CategorySet, d: Category)
    ensures Contains(Intersection(s, t), d) <==> Contains(s, d) && Contains(t, d)
  {
    ContainsBit(Intersection(s, t), d);
    ContainsBit(s, d);
    ContainsBit(t, d);
    AndBit(s.bits, t.bits, Index(d));
  }

  /** `complement` holds exactly the categories missing from the set. */
  lemma ComplementContains(s: CategorySet, d: Category)
    ensures Contains(Complement(s), d) <==> !Contains(s, d)
  {
    ContainsBit(Complement(s), d);
    ContainsBit(s, d);
    AndBit(Not16(s.bits), ALL_MASK, Index(d));
    NotWidthBit(s.bits, 16, Index(d));
    ConstantBits(Index(d));
  }

  /** A set is determined by its members. */
  lemma Extensionality(s: CategorySet, t: CategorySet)
    requires forall c :: Contains(s, c) <==> Contains(t, c)
    ensures s == t
  {
    forall i: nat ensures Bit(s.bits, i) == Bit(t.bits, i) {
      if i < COUNT {
        ContainsBit(s, ALL[i]);
        ContainsBit(t, ALL[i]);
      } else {
        High13(s.bits, i);
        High13(t.bits, i);
      }
    }
    SameBits(s.bits, t.bits);
  }

  /** Emptiness and fullness are statements about the members. */
  lemma EmptyFullMembers(s: CategorySet)
    ensures IsEmpty(s) <==> forall c :: !Contains(s, c)
    ensures IsFull(s) <==> forall c :: Contains(s, c)
  {
    if forall c :: !Contains(s, c) {
      forall c ensures Contains(s, c) <==> Contains(Empty(), c) {
        ConstantSets(c);
      }
      Extensionality(s, Empty());
    }
    if forall c :: Contains(s, c) {
      forall c ensures Contains(s, c) <==> Contains(All(), c) {
        ConstantSets(c);
      }
      Extensionality(s, All());
    }
    forall c ensures IsEmpty(s) ==> !Contains(s, c) {
      ConstantSets(c);
    }
    forall c ensures IsFull(s) ==> Contains(s, c) {
      ConstantSets(c);
    }
  }

  /** Adding then removing a missing category, or removing then adding a present one, changes nothing. */
  lemma InsertRemoveInverse(s: CategorySet, c: Category)
    ensures !Contains(s, c) ==> Without(With(s, c), c) == s
    ensures Contains(s, c) ==> With(Without(s, c), c) == s
  {
    forall d ensures Contains(Without(With(s, c), c), d) <==> (d != c && Contains(s, d)) {
      WithoutContains(With(s, c), c, d);
      WithContains(s, c, d);
    }
    forall d ensures Contains(With(Without(s, c), c), d) <==> (d == c || Contains(s, d)) {
      WithContains(Without(s, c), c, d);
      WithoutContains(s, c, d);
    }
    if !Contains(s, c) {
      Extensionality(Without(With(s, c), c), s);
    } else {
      Extensionality(With(Without(s, c), c), s);
    }
  }

  /** The complement is an involution and splits the categories with the set. */
  lemma ComplementLaws(s: CategorySet)
    ensures Complement(Complement(s)) == s
    ensures Union(s, Complement(s)) == All()
    ensures Intersection(s, Complement(s)) == Empty()
    ensures Complement(UpperOnly()) == LowerOnly()
  {
    forall d ensures Contains(Complement(Complement(s)), d) <==> Contains(s, d) {
      ComplementContains(Complement(s), d);
      ComplementContains(s, d);
    }
    forall d ensures Contains(Union(s, Complement(s)), d) <==> Contains(All(), d) {
      UnionContains(s, Complement(s), d);
      ComplementContains(s, d);
      ConstantSets(d);
    }
    forall d ensures Contains(Intersection(s, Complement(s)), d) <==> Contains(Empty(), d) {
      IntersectionContains(s, Complement(s), d);
      ComplementContains(s, d);
      ConstantSets(d);
    }
    forall d ensures Contains(Complement(UpperOnly()), d) <==> Contains(LowerOnly(), d) {
      ComplementContains(UpperOnly(), d);
      ConstantSets(d);
      Sections(d);
    }
    Extensionality(Complement(Complement(s)), s);
    Extensionality(Union(s, Complement(s)), All());
    Extensionality(Intersection(s, Complement(s)), Empty());
    Extensionality(Complement(UpperOnly()), LowerOnly());
  }

  // ---------------------------------------------------------------------------
  // Counting and iteration
  // ---------------------------------------------------------------------------

  /** `len()`: the population count of the bits. */
  function Len(s: CategorySet): nat
  {
    CountOnes(s.bits)
  }

  /** Inserting a missing category adds one; removing a present one takes one away. */
  lemma LenWithWithout(s: CategorySet, c: Category)
    ensures !Contains(s, c) ==> Len(With(s, c)) == Len(s) + 1
    ensures Contains(s, c) ==> Len(Without(s, c)) + 1 == Len(s)
  {
    ContainsBit(s, c);
    if !Contains(s, c) {
      CountOnesSetBit(s.bits, Index(c));
    } else {
      var t := Without(s, c);
      WithoutContains(s, c, c);
      ContainsBit(t, c);
      CountOnesSetBit(t.bits, Index(c));
      InsertRemoveInverse(s, c);
    }
  }

  /** The sizes of the fixed sets. */
  lemma ConstantLens()
    ensures Len(Empty()) == 0 && Len(All()) == COUNT
    ensures Len(UpperOnly()) == 6 && Len(LowerOnly()) == 7
  {
    FullLen();
    UpperLen();
    LowerLen();
  }

  lemma FullLen()
    ensures Len(All()) == COUNT
  {
    Pow2Count();
    assert Pow2(0) == 1;
    CountOnesRange(0, 13);
  }

  lemma UpperLen()
    ensures Len(UpperOnly()) == 6
  {
    assert Pow2(6) == 0x40 && Pow2(0) == 1;
    CountOnesRange(0, 6);
  }

  lemma LowerLen()
    ensures Len(LowerOnly()) == 7
  {
    assert LowerOnly().bits == Pow2(13) - Pow2(6) by {
      Pow2Count();
      assert Pow2(6) == 0x40;
    }
    RangeLen(LowerOnly(), 6, 13);
  }

  /** A set whose bits are the positions `k` up to `w - 1` has `w - k` members. */
  lemma RangeLen(s: CategorySet, k: nat, w: nat)
    requires k <= w && Pow2(k) <= Pow2(w) && s.bits == Pow2(w) - Pow2(k)
    ensures Len(s) == w - k
  {
    CountOnesRange(k, w);
  }

  /** Removing `Dicee` from the full set leaves twelve categories without it. */
  lemma RemoveDiceeExample()
    ensures !Contains(Without(All(), Dicee), Dicee)
    ensures Len(Without(All(), Dicee)) == 12
  {
    ConstantSets(Dicee);
    ConstantLens();
    WithoutContains(All(), Dicee, Dicee);
    LenWithWithout(All(), Dicee);
  }

  /**
   * The categories of index `i` and above whose bits, shifted down by `i`,
   * are set in `b`, in ascending order: the iteration order.
   */
  function MembersFrom(b: nat, i: nat): seq<Category>
    requires i <= COUNT
    decreases COUNT - i
  {
    if i == COUNT then []
    else (if b % 2 == 1 then [ALL[i]] else []) + MembersFrom(b / 2, i + 1)
  }

  /** The members of a set in ascending index order. */
  function Members(s: CategorySet): seq<Category>
  {
    MembersFrom(s.bits, 0)
  }

  predicate Ascending(cats: seq<Category>)
  {
    forall i, j :: 0 <= i < j < |cats| ==> Index(cats[i]) < Index(cats[j])
  }

  /** `ALL` lists the categories by discriminant. */
  lemma IndexOfAll(i: nat)
    requires i < COUNT
    ensures Index(ALL[i]) == i
  {
  }

  lemma {:induction false} MembersFromContains(b: nat, i: nat, c: Category)
    requires i <= COUNT
    ensures c in MembersFrom(b, i) <==> i <= Index(c) && Bit(b, Index(c) - i)
    decreases COUNT - i
  {
    if i < COUNT {
      MembersFromContains(b / 2, i + 1, c);
      MembersFromStep(b, i, c);
    }
  }

  /** One step of `MembersFromContains`: the head of the list is bit 0. */
  lemma MembersFromStep(b: nat, i: nat, c: Category)
    requires i < COUNT
    requires c in MembersFrom(b / 2, i + 1) <==> i + 1 <= Index(c) && Bit(b / 2, Index(c) - (i + 1))
    ensures c in MembersFrom(b, i) <==> i <= Index(c) && Bit(b, Index(c) - i)
  {
    var k := Index(c);
    var head := if b % 2 == 1 then [ALL[i]] else [];
    assert MembersFrom(b, i) == head + MembersFrom(b / 2, i + 1);
    assert c in head <==> b % 2 == 1 && k == i by {
      IndexOfAll(i);
      IndexRoundTrip(c, ALL[i]);
    }
    if k > i {
      assert Bit(b, k - i) == Bit(b / 2, k - (i + 1));
    }
  }

  lemma {:induction false} MembersFromOrder(b: nat, i: nat)
    requires i <= COUNT
    ensures forall c :: c in MembersFrom(b, i) ==> Index(c) >= i
    ensures Ascending(MembersFrom(b, i))
    decreases COUNT - i
  {
    if i < COUNT {
      MembersFromOrder(b / 2, i + 1);
      IndexOfAll(i);
      var rest := MembersFrom(b / 2, i + 1);
      assert forall k :: 0 <= k < |rest| ==> rest[k] in rest;
    }
  }

  lemma {:induction false} MembersFromCount(b: nat, i: nat)
    requires i <= COUNT && b < Pow2(COUNT - i)
    ensures |MembersFrom(b, i)| == CountOnes(b)
    decreases COUNT - i
  {
    if i < COUNT {
      MembersFromCount(b / 2, i + 1);
    }
  }

  /**
   * Clearing the lowest set bit removes the first member, which is the
   * category of index `i` plus the number of trailing zeros.
   */
  lemma {:induction false} MembersFromClearLowest(b: nat, i: nat)
    requires i <= COUNT && 0 < b < Pow2(COUNT - i)
    ensures i + TrailingZeros(b) < COUNT
    ensures MembersFrom(b, i) == [ALL[i + TrailingZeros(b)]] + MembersFrom(And(b, b - 1), i)
    decreases COUNT - i
  {
    HalfBelow(b, i);
    if b % 2 == 1 {
      MembersFromClearOdd(b, i);
    } else {
      MembersFromClearLowest(b / 2, i + 1);
      MembersFromClearEven(b, i);
    }
  }

  /** A non-zero value below `2^(13 - i)` leaves a position to read, and its half one fewer. */
  lemma HalfBelow(b: nat, i: nat)
    requires i <= COUNT && 0 < b < Pow2(COUNT - i)
    ensures i < COUNT && b / 2 < Pow2(COUNT - (i + 1))
    ensures b % 2 == 0 ==> 0 < b / 2
  {
    var w := COUNT - i;
    assert w > 0;
    assert Pow2(w) == 2 * Pow2(w - 1);
  }

  /** The odd case of `MembersFromClearLowest`: the lowest bit is bit 0. */
  lemma MembersFromClearOdd(b: nat, i: nat)
    requires i < COUNT && b % 2 == 1
    ensures i + TrailingZeros(b) < COUNT
    ensures MembersFrom(b, i) == [ALL[i + TrailingZeros(b)]] + MembersFrom(And(b, b - 1), i)
  {
    ClearLowestOdd(b);
    MembersFromOdd(b, i);
  }

  /** The even case of `MembersFromClearLowest`, given its claim for `b / 2`. */
  lemma MembersFromClearEven(b: nat, i: nat)
    requires i < COUNT && b != 0 && b % 2 == 0
    requires i + 1 + TrailingZeros(b / 2) < COUNT
    requires MembersFrom(b / 2, i + 1)
               == [ALL[i + 1 + TrailingZeros(b / 2)]] + MembersFrom(And(b / 2, b / 2 - 1), i + 1)
    ensures i + TrailingZeros(b) < COUNT
    ensures MembersFrom(b, i) == [ALL[i + TrailingZeros(b)]] + MembersFrom(And(b, b - 1), i)
  {
    var h := b / 2;
    assert b == 2 * h;
    ClearLowestEven(b);
    var a := And(h, h - 1);
    var k := i + TrailingZeros(b);
    assert k == (i + 1) + TrailingZeros(h);
    calc {
      MembersFrom(b, i);
      { MembersFromDouble(h, i); }
      MembersFrom(h, i + 1);
      [ALL[k]] + MembersFrom(a, i + 1);
      { MembersFromDouble(a, i); }
      [ALL[k]] + MembersFrom(2 * a, i);
      [ALL[k]] + MembersFrom(And(b, b - 1), i);
    }
  }

  /** An odd `b` starts with the category of index `i`; `b - 1` lists the rest. */
  lemma MembersFromOdd(b: nat, i: nat)
    requires i < COUNT && b % 2 == 1
    ensures MembersFrom(b, i) == [ALL[i]] + MembersFrom(b - 1, i)
  {
    assert (b - 1) % 2 == 0 && (b - 1) / 2 == b / 2;
    assert MembersFrom(b - 1, i) == [] + MembersFrom(b / 2, i + 1);
  }

  /** An even `2 * a` has no member at index `i`. */
  lemma MembersFromDouble(a: nat, i: nat)
    requires i < COUNT
    ensures MembersFrom(2 * a, i) == MembersFrom(a, i + 1)
  {
    assert (2 * a) % 2 == 0 && (2 * a) / 2 == a;
    assert MembersFrom(2 * a, i) == [] + MembersFrom(a, i + 1);
  }

  /**
   * Iteration yields each member exactly once, in ascending index order,
   * and as many categories as `len()` counts.
   */
  lemma MembersFacts(s: CategorySet, c: Category)
    ensures c in Members(s) <==> Contains(s, c)
    ensures Ascending(Members(s))
    ensures |Members(s)| == Len(s)
  {
    MembersContains(s, c);
    MembersFromOrder(s.bits, 0);
    MembersLen(s);
  }

  lemma MembersContains(s: CategorySet, c: Category)
    ensures c in Members(s) <==> Contains(s, c)
  {
    var b, k := s.bits, Index(c);
    MembersFromContains(b, 0, c);
    assert c in MembersFrom(b, 0) <==> Bit(b, k - 0);
    assert k - 0 == k;
    ContainsBit(s, c);
  }

  lemma MembersLen(s: CategorySet)
    ensures |Members(s)| == Len(s)
  {
    Pow2Count();
    MembersFromCount(s.bits, 0);
  }

  /** `iter()`: the iterator's state is the bits still to visit. */
  class CategorySetIter {
    var bits: nat

    /** The bits come from a set, so only the low 13 can be set. */
    predicate Valid()
      reads this
    {
      bits <= ALL_MASK
    }

    constructor (s: CategorySet)
      ensures Valid() && bits == s.bits
    {
      bits := s.bits;
    }

    /** The categories the iterator has still to yield. */
    function Remaining(): seq<Category>
      reads this
    {
      MembersFrom(bits, 0)
    }

    /**
     * `next()`: the lowest category still present, whose bit is then
     * cleared. Once every bit is clear it yields `None` and stays put.
     */
    method Next() returns (r: Option<Category>)
      requires Valid()
      modifies this
      ensures Valid()
      ensures old(Remaining()) == [] ==> r == None && bits == old(bits)
      ensures old(Remaining()) != [] ==> r == Some(old(Remaining())[0])
      ensures old(Remaining()) != [] ==> Remaining() == old(Remaining())[1..]
    {
      var b := bits;
      ghost var before := MembersFrom(b, 0);
      if b == 0 {
        ZeroMembers(0);
        return None;
      }
      var index := TrailingZeros(b);
      NextFacts(b);
      bits := And(b, b - 1);
      r := FromIndex(index);
      assert r == Some(before[0]) && Remaining() == before[1..];
    }

    /** `size_hint()`: exactly the number of categories still to come. */
    function SizeHint(): (n: nat)
      requires Valid()
      reads this
      ensures n == |Remaining()|
    {
      Pow2Count();
      MembersFromCount(bits, 0);
      CountOnes(bits)
    }
  }

  /** What `next()` relies on: the lowest set bit names the first member, and clearing it drops that member. */
  lemma NextFacts(b: nat)
    requires 0 < b <= ALL_MASK
    ensures TrailingZeros(b) < COUNT && And(b, b - 1) <= ALL_MASK
    ensures MembersFrom(b, 0) != [] && FromIndex(TrailingZeros(b)) == Some(MembersFrom(b, 0)[0])
    ensures MembersFrom(And(b, b - 1), 0) == MembersFrom(b, 0)[1..]
  {
    Pow2Count();
    MembersFromClearLowest(b, 0);
    AndBound(b, b - 1);
    var rest := MembersFrom(And(b, b - 1), 0);
    assert MembersFrom(b, 0) == [ALL[TrailingZeros(b)]] + rest;
    assert ([ALL[TrailingZeros(b)]] + rest)[1..] == rest;
  }

  lemma {:induction false} ZeroMembers(i: nat)
    requires i <= COUNT
    ensures MembersFrom(0, i) == []
    decreases COUNT - i
  {
    if i < COUNT {
      ZeroMembers(i + 1);
    }
  }

  /** `set.iter().collect()`: running the iterator to the end lists the members. */
  method Collect(s: CategorySet) returns (cats: seq<Category>)
    ensures cats == Members(s)
    ensures |cats| == Len(s)
  {
    var it := new CategorySetIter(s);
    cats := [];
    ghost var all := Members(s);
    while true
      invariant it.Valid() && cats + it.Remaining() == all
      decreases |it.Remaining()|
    {
      ghost var before := it.Remaining();
      var next := it.Next();
      if next.None? {
        break;
      }
      TakeNext(cats, before, next.value, it.Remaining(), all);
      cats := cats + [next.value];
    }
    MembersLen(s);
  }

  /** Moving the yielded category from the rest of the iteration to the collected prefix. */
  lemma TakeNext(cats: seq<Category>, before: seq<Category>, c: Category, after: seq<Category>, all: seq<Category>)
    requires cats + before == all && before != [] && c == before[0] && after == before[1..]
    ensures (cats + [c]) + after == all
  {
    assert before == [c] + after;
  }

  /** `from_iter`: inserting each category in turn. */
  method FromIter(cats: seq<Category>) returns (s: CategorySet)
    ensures forall c :: Contains(s, c) <==> c in cats
  {
    s := Empty();
    forall c ensures !Contains(s, c) {
      ConstantSets(c);
    }
    for i := 0 to |cats|
      invariant forall c :: Contains(s, c) <==> c in cats[..i]
    {
      assert cats[..i + 1] == cats[..i] + [cats[i]];
      forall c ensures Contains(With(s, cats[i]), c) <==> c in cats[..i + 1] {
        WithContains(s, cats[i], c);
      }
      s := With(s, cats[i]);
    }
    assert cats[..|cats|] == cats;
  }
}
