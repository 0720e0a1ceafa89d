/**
 * The expense record of the vehicle-expense tracker: one row of the
 * spreadsheet, with its numeric columns already coerced to numbers,
 * and the column sums and odometer extremes the analyses are built from.
 */
module Records {

  /** A calendar date (year, month 1..12, day 1..31). */
  datatype Date = Date(year: int, month: int, day: int)

  /** A calendar month: the key of the monthly rollup. */
  datatype Month = Month(year: int, month: int)

  function MonthOf(d: Date): Month {
    Month(d.year, d.month)
  }

  /**
   * One row of the sheet: Tarih, KM Sayacı, Masraf Türü, Tutar, Açıklama,
   * Taksit Sayısı, Litre, Dolum Türü.
   */
  datatype Record = Record(
    date: Date,
    km: int,
    category: string,
    amount: real,
    description: string,
    installments: int,
    litres: real,
    fillType: string)

  /** The fuel category and the two fill types of the fuel form. */
  const Fuel: string := "Yakıt"
  const FullFill: string := "Full Dolum"
  const PartialFill: string := "Kısmi Dolum"

  /** The categories offered by the other-expense form: every category but fuel. */
  const OtherCategories: seq<string> := [
    "Köprü Otoyol", "Trafik Cezaları", "Tamir-Servis",
    "Periyodik Bakım", "Muayene", "Lastik", "Aksesuar",
    "Vergiler", "Otopark", "Araç Yıkama"]

  predicate IsFuel(r: Record) {
    r.category == Fuel
  }

  predicate IsFull(r: Record) {
    r.fillType == FullFill
  }

  /** The real-valued columns that the analyses add up. */
  datatype Column = Litres | Amount

  function Value(r: Record, c: Column): real {
    match c
    case Litres => r.litres
    case Amount => r.amount
  }

  /** The sum of one column over a run of rows; 0 for no rows, as pandas sums. */
  function Sum(s: seq<Record>, c: Column): real {
    if s == [] then 0.0 else Sum(s[..|s| - 1], c) + Value(s[|s| - 1], c)
  }

  lemma {:induction false} SumAppend(a: seq<Record>, b: seq<Record>, c: Column)
    ensures Sum(a + b, c) == Sum(a, c) + Sum(b, c)
  {
    if b == [] {
      assert a + b == a;
    } else {
      assert (a + b)[..|a + b| - 1] == a + b[..|b| - 1];
      SumAppend(a, b[..|b| - 1], c);
    }
  }

  /** Cutting a slice at an interior position cuts its sum in two. */
  lemma SumSplit(s: seq<Record>, i: nat, j: nat, k: nat, c: Column)
    requires i <= j <= k <= |s|
    ensures Sum(s[i..k], c) == Sum(s[i..j], c) + Sum(s[j..k], c)
  {
    assert s[i..k] == s[i..j] + s[j..k];
    SumAppend(s[i..j], s[j..k], c);
  }

  /** The sum of a non-empty run is its first row plus the sum of the rest. */
  lemma SumFirst(s: seq<Record>, c: Column)
    requires s != []
    ensures Sum(s, c) == Value(s[0], c) + Sum(s[1..], c)
  {
    assert s == [s[0]] + s[1..];
    SumAppend([s[0]], s[1..], c);
    assert [s[0]][..0] == [];
  }

  /** A column that is never negative has a sum that is never negative. */
  lemma {:induction false} SumNonNeg(s: seq<Record>, c: Column)
    requires forall i :: 0 <= i < |s| ==> Value(s[i], c) >= 0.0
    ensures Sum(s, c) >= 0.0
  {
    if s != [] {
      SumNonNeg(s[..|s| - 1], c);
    }
  }

  /** The sum of one column over the rows at positions i up to (not including) j. */
  function Total(s: seq<Record>, i: nat, j: nat, c: Column): real
    requires i <= j <= |s|
    decreases j - i
  {
    if i == j then 0.0 else Total(s, i, j - 1, c) + Value(s[j - 1], c)
  }

  /** A range's total is the sum of its slice. */
  lemma {:induction false} TotalIsSum(s: seq<Record>, i: nat, j: nat, c: Column)
    requires i <= j <= |s|
    ensures Total(s, i, j, c) == Sum(s[i..j], c)
    decreases j - i
  {
    if i < j {
      TotalIsSum(s, i, j - 1, c);
      assert s[i..j][..j - i - 1] == s[i..j - 1];
    }
  }

  /** Cutting a range at an interior position cuts its total in two. */
  lemma {:induction false} TotalSplit(s: seq<Record>, i: nat, j: nat, k: nat, c: Column)
    requires i <= j <= k <= |s|
    ensures Total(s, i, k, c) == Total(s, i, j, c) + Total(s, j, k, c)
    decreases k - j
  {
    if j < k {
      TotalSplit(s, i, j, k - 1, c);
    }
  }

  /** A quantity spread over a positive distance: money per km. */
  function PerKm(x: real, distance: int): (r: real)
    requires distance > 0
    ensures r * distance as real == x
    ensures x >= 0.0 ==> r >= 0.0
  {
    x / distance as real
  }

  /** Litres per 100 km over a positive distance. */
  function Per100Km(litres: real, distance: int): (r: real)
    requires distance > 0
    ensures r * distance as real == litres * 100.0
    ensures litres >= 0.0 ==> r >= 0.0
  {
    var perKm := PerKm(litres, distance);
    assert perKm * 100.0 * distance as real == perKm * distance as real * 100.0;
    perKm * 100.0
  }

  /** The odometer readings never decrease along the sequence. */
  predicate SortedByKm(s: seq<Record>) {
    forall i, j :: 0 <= i <= j < |s| ==> s[i].km <= s[j].km
  }

  /** `max()` of the KM column: a reading no other row exceeds. */
  function MaxKm(s: seq<Record>): (m: int)
    requires s != []
    ensures forall i :: 0 <= i < |s| ==> s[i].km <= m
    ensures exists i :: 0 <= i < |s| && s[i].km == m
  {
    if |s| == 1 then s[0].km
    else
      var rest := MaxKm(s[..|s| - 1]);
      if s[|s| - 1].km > rest then s[|s| - 1].km else rest
  }

  /** `min()` of the KM column: a reading no other row undercuts. */
  function MinKm(s: seq<Record>): (m: int)
    requires s != []
    ensures forall i :: 0 <= i < |s| ==> m <= s[i].km
    ensures exists i :: 0 <= i < |s| && s[i].km == m
  {
    if |s| == 1 then s[0].km
    else
      var rest := MinKm(s[..|s| - 1]);
      if s[|s| - 1].km < rest then s[|s| - 1].km else rest
  }
}
