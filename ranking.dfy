/**
 * The leaderboard (src/app/Components/Ranking.tsx): `formatNumber`, which
 * shortens a vote count with a thousands suffix, the rank badge of each row
 * and the row's heading.
 */
module Ranking {
  import opened Wrappers
  import Text

  // ------------------------------------------------------------ formatNumber

  /** The suffix table `units`. */
  const Units: seq<string> := ["K", "M", "B", "T", "Qa", "Qi", "Sx", "Sp", "Oc", "No", "Dc"]

  const LastUnit: nat := 10

  function Pow1000(k: nat): (p: real)
    ensures p >= 1.0
    ensures k > 0 ==> p >= 1000.0
  {
    if k == 0 then 1.0 else 1000.0 * Pow1000(k - 1)
  }

  lemma {:induction false} Pow1000Monotone(j: nat, k: nat)
    requires j <= k
    ensures Pow1000(j) <= Pow1000(k)
    decreases k
  {
    if j < k {
      Pow1000Monotone(j, k - 1);
    }
  }

  /** The unit for num, searched upward from unit k: the first whose next power exceeds num. */
  function UnitFrom(num: real, k: nat): (u: nat)
    requires k <= LastUnit
    ensures k <= u <= LastUnit
    decreases LastUnit - k
  {
    if k == LastUnit || num < Pow1000(k + 2) then k else UnitFrom(num, k + 1)
  }

  /** The reference unit index of a number of at least a thousand. */
  function UnitIndex(num: real): (u: nat)
    ensures u <= LastUnit
  {
    UnitFrom(num, 0)
  }

  lemma {:induction false} UnitFromBand(num: real, j: nat, k: nat)
    requires j <= k <= LastUnit
    requires Pow1000(k + 1) <= num
    requires k == LastUnit || num < Pow1000(k + 2)
    ensures UnitFrom(num, j) == k
    decreases k - j
  {
    if j < k {
      Pow1000Monotone(j + 2, k + 1);
      UnitFromBand(num, j + 1, k);
    }
  }

  /** Unit k (K, M, B, ...) is chosen exactly for [1000^(k+1), 1000^(k+2)); Dc for all above. */
  lemma UnitIndexBand(num: real, k: nat)
    requires k <= LastUnit
    requires Pow1000(k + 1) <= num
    requires k == LastUnit || num < Pow1000(k + 2)
    ensures UnitIndex(num) == k
    ensures Units[UnitIndex(num)] == Units[k]
  {
    UnitFromBand(num, 0, k);
  }

  /** num divided by a thousand k times. */
  function Shrink(num: real, k: nat): real
  {
    if k == 0 then num else Shrink(num, k - 1) / 1000.0
  }

  /** Dividing k times by a thousand is dividing by 1000^k. */
  lemma {:induction false} ShrinkTimesPow(num: real, k: nat)
    ensures Shrink(num, k) * Pow1000(k) == num
  {
    if k > 0 {
      ShrinkTimesPow(num, k - 1);
      var m, p := Shrink(num, k - 1), Pow1000(k - 1);
      assert (m / 1000.0) * (1000.0 * p) == m * p;
    }
  }

  /** After k divisions the number is at least c exactly when it was at least c * 1000^k. */
  lemma {:induction false} ShrinkCompare(num: real, k: nat, c: real)
    ensures Shrink(num, k) >= c <==> num >= c * Pow1000(k)
  {
    if k > 0 {
      ShrinkCompare(num, k - 1, 1000.0 * c);
      assert (1000.0 * c) * Pow1000(k - 1) == c * (1000.0 * Pow1000(k - 1));
    }
  }

  /** A multiple q * 1000^k gives back q after k divisions. */
  lemma ShrinkMultiple(num: real, q: real, k: nat)
    requires num == q * Pow1000(k)
    ensures Shrink(num, k) == q
  {
    var p, m := Pow1000(k), Shrink(num, k);
    ShrinkTimesPow(num, k);
    assert (m - q) * p == 0.0;
    if m > q {
      assert (m - q) * p > 0.0;
    } else if m < q {
      assert (q - m) * p > 0.0;
    }
  }

  /** What holds of the loop's variables before and after every iteration. */
  ghost predicate Scaled(num: real, mantissa: real, unitIndex: int)
  {
    && -1 <= unitIndex <= LastUnit
    && mantissa == Shrink(num, unitIndex + 1)
    && (unitIndex >= 0 ==> 1.0 <= mantissa && UnitFrom(num, unitIndex) == UnitIndex(num))
  }

  lemma ScaledStep(num: real, mantissa: real, unitIndex: int)
    requires Scaled(num, mantissa, unitIndex)
    requires mantissa >= 1000.0 && unitIndex < LastUnit
    ensures Scaled(num, mantissa / 1000.0, unitIndex + 1)
  {
    if unitIndex >= 0 {
      ShrinkCompare(num, unitIndex + 1, 1000.0);
      assert UnitFrom(num, unitIndex) == UnitFrom(num, unitIndex + 1);
    }
  }

  lemma ScaledExit(num: real, mantissa: real, unitIndex: int)
    requires Scaled(num, mantissa, unitIndex)
    requires mantissa < 1000.0 || unitIndex == LastUnit
    requires num >= 1000.0
    ensures 0 <= unitIndex && unitIndex == UnitIndex(num) && 1.0 <= mantissa
  {
    if mantissa < 1000.0 && unitIndex >= 0 {
      ShrinkCompare(num, unitIndex + 1, 1000.0);
    }
  }

  /**
   * The `while` loop of `formatNumber`: divide by a thousand and advance the
   * unit while the number is at least a thousand and a larger unit remains.
   */
  method ScaleToUnit(num: real) returns (mantissa: real, unitIndex: int)
    ensures num < 1000.0 ==> mantissa == num && unitIndex == -1
    ensures num >= 1000.0 ==>
      && 0 <= unitIndex <= LastUnit
      && unitIndex == UnitIndex(num)
      && mantissa == Shrink(num, unitIndex + 1)
      && 1.0 <= mantissa
      && (mantissa < 1000.0 || unitIndex == LastUnit)
  {
    mantissa, unitIndex := num, -1;
    while mantissa >= 1000.0 && unitIndex < |Units| - 1
      invariant Scaled(num, mantissa, unitIndex)
      decreases LastUnit - unitIndex
    {
      ScaledStep(num, mantissa, unitIndex);
      mantissa := mantissa / 1000.0;
      unitIndex := unitIndex + 1;
    }
    if num >= 1000.0 {
      ScaledExit(num, mantissa, unitIndex);
    }
  }

  /** The text of a vote count; `toFixed(1)` of a fractional mantissa is not modelled. */
  datatype Display = Exact(text: string) | OneDecimal(mantissa: real, suffix: string)

  predicate IsInteger(x: real) { x.Floor as real == x }

  /** `num % 1 === 0 ? num.toFixed(0) + unit : num.toFixed(1) + unit` for a mantissa of at least one. */
  function Render(mantissa: real, unitIndex: nat): (d: Display)
    requires unitIndex <= LastUnit
    ensures d.Exact? <==> IsInteger(mantissa)
    ensures d.Exact? ==> d.text == Text.IntToString(mantissa.Floor) + Units[unitIndex]
    ensures d.OneDecimal? ==> d.mantissa == mantissa && d.suffix == Units[unitIndex]
  {
    if IsInteger(mantissa) then Exact(Text.IntToString(mantissa.Floor) + Units[unitIndex])
    else OneDecimal(mantissa, Units[unitIndex])
  }

  /** `formatNumber`. */
  method FormatNumber(num: int) returns (d: Display)
    ensures num < 1000 ==> d == Exact(Text.IntToString(num))
    ensures num >= 1000 ==>
      d == Render(Shrink(num as real, UnitIndex(num as real) + 1), UnitIndex(num as real))
  {
    if num < 1000 {
      return Exact(Text.IntToString(num));
    }
    var mantissa, unitIndex := ScaleToUnit(num as real);
    d := Render(mantissa, unitIndex);
  }

  /** A count q * 1000^(k+1) with 1 <= q < 1000 shows as q followed by unit k ("5K", "12M"). */
  lemma WholeUnitCount(num: real, q: nat, k: nat)
    requires 1 <= q < 1000 && k <= LastUnit
    requires num == q as real * Pow1000(k + 1)
    ensures UnitIndex(num) == k
    ensures Render(Shrink(num, k + 1), k) == Exact(Text.NatToString(q) + Units[k])
  {
    ShrinkMultiple(num, q as real, k + 1);
    assert Pow1000(k + 1) <= num by {
      ShrinkCompare(num, k + 1, 1.0);
    }
    if k < LastUnit {
      assert num < Pow1000(k + 2) by {
        ShrinkCompare(num, k + 1, 1000.0);
      }
    }
    UnitIndexBand(num, k);
    assert (q as real).Floor == q;
  }

  // ----------------------------------------------------------- rank badges

  /** The number shown in a row's badge: `index + 1`. */
  function RankNumber(index: nat): (rank: nat)
    ensures rank >= 1 && rank - 1 == index
  {
    index + 1
  }

  const Gold := "bg-yellow-500"
  const Silver := "bg-gray-400"
  const Bronze := "bg-orange-600"
  const Indigo := "bg-indigo-500"

  /** The badge colour class of the row at `index`. */
  function BadgeClass(index: nat): (c: string)
    ensures index == 0 <==> c == Gold
    ensures index == 1 <==> c == Silver
    ensures index == 2 <==> c == Bronze
    ensures index >= 3 <==> c == Indigo
  {
    if index == 0 then Gold
    else if index == 1 then Silver
    else if index == 2 then Bronze
    else Indigo
  }

  /** Ranks 1 to 3 get three different medals, different from every other rank's colour. */
  lemma MedalsDistinct(i: nat, j: nat)
    requires i < 3 && i != j
    ensures BadgeClass(i) != BadgeClass(j)
  {
  }

  /** A row's heading: the capitalised title, or `Location <id>` when there is none. */
  function Heading(title: Option<string>, id: string): string
  {
    if Truthy(title) then Text.Capitalize(title.value) else "Location " + id
  }

  /** A present title is shown capitalised, otherwise the id is shown after "Location ". */
  lemma HeadingFallback(title: Option<string>, id: string)
    ensures var h := Heading(title, id);
      && (Truthy(title) ==>
            h == Text.Capitalize(title.value)
            && |h| == |title.value| && h[1..] == title.value[1..] && !Text.IsLowerAscii(h[0]))
      && (!Truthy(title) ==> h == "Location " + id && h[|"Location "|..] == id)
  {
  }
}
