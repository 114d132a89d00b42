/**
 * The interface types of `types.rs`: parsing a hand of dice and converting
 * a discriminant to a category. Its `Category` enum is the same thirteen
 * categories as `Categories.Category` (its `Yahtzee` is `Dicee`), so the
 * model uses the one datatype for both.
 */
module Types {
  import opened Wrappers
  import opened Config
  import opened Categories

  const LENGTH_MESSAGE: string := "dice must be exactly 5 values"
  const RANGE_MESSAGE: string := "each die must be 1-6"

  /**
   * `parse_dice`: a slice of exactly five values, each between 1 and 6,
   * becomes a hand with the same values in the same order. A wrong length
   * is reported before any bad value.
   */
  method ParseDice(slice: seq<nat>) returns (r: Result<seq<nat>, string>)
    ensures |slice| != 5 ==> r == Err(LENGTH_MESSAGE)
    ensures |slice| == 5 && !AllFaces(slice) ==> r == Err(RANGE_MESSAGE)
    ensures r.Ok? <==> ValidDice(slice)
    ensures r.Ok? ==> r.value == slice
  {
    if |slice| != 5 {
      return Err(LENGTH_MESSAGE);
    }
    var dice := new nat[5](_ => 0);
    for i := 0 to 5
      invariant dice[..i] == slice[..i]
      invariant forall j :: 0 <= j < i ==> 1 <= slice[j] <= 6
    {
      if slice[i] < 1 || slice[i] > 6 {
        return Err(RANGE_MESSAGE);
      }
      dice[i] := slice[i];
    }
    assert dice[..] == dice[..5];
    return Ok(dice[..]);
  }

  /** The decimal digits of `n`, most significant first. */
  function Decimal(n: nat): string
  {
    if n < 10 then ["0123456789"[n]] else Decimal(n / 10) + ["0123456789"[n % 10]]
  }

  /** `TryFrom<u8> for Category`: the category with that discriminant, or a message naming the value. */
  function TryFromU8(value: nat): (r: Result<Category, string>)
    ensures r.Ok? <==> value < COUNT
    ensures r.Ok? ==> Index(r.value) == value
    ensures r.Err? ==> r.error == "invalid category: " + Decimal(value)
  {
    if value < COUNT then
      IndexOfAll(value);
      Ok(ALL[value])
    else Err("invalid category: " + Decimal(value))
  }

  /** Converting a category's discriminant gives the category back, as `from_index` does. */
  lemma TryFromRoundTrip(c: Category, value: nat)
    ensures TryFromU8(Index(c)) == Ok(c)
    ensures TryFromU8(value).Ok? == Categories.FromIndex(value).Some?
    ensures TryFromU8(value).Ok? ==> TryFromU8(value).value == Categories.FromIndex(value).value
  {
    IndexRoundTrip(c, c);
    if value < COUNT {
      IndexRoundTrip(TryFromU8(value).value, Categories.FromIndex(value).value);
    }
  }

  /** Thirteen is the first value that fails. */
  lemma TryFromExample()
    ensures TryFromU8(13) == Err("invalid category: 13")
    ensures TryFromU8(11) == Ok(Dicee)
  {
    assert Decimal(1) == "1";
    assert Decimal(13) == Decimal(1) + ['3'];
    assert ALL[11] == Dicee;
    assert Decimal(13) == "13";
    assert "invalid category: " + "13" == "invalid category: 13";
  }
}
