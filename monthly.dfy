/**
 * The monthly summary of the fuel tab (arac_uygulamasi.py lines 365-385):
 * the fuel rows grouped by calendar month, each month with its spend, its
 * litres, the distance between its lowest and highest odometer reading,
 * and the two rates where that distance is positive.
 */
module Monthly {
  import opened Records

  /** One row of the monthly table. */
  datatype Summary = Summary(
    spend: real,         // Toplam Harcanan Para (TL)
    litres: real,        // Toplam Alınan Litre
    distance: int,       // Toplam Gidilen KM
    litresPer100: real,  // Aylık Ortalama (L/100km)
    moneyPerKm: real)    // Aylık Ortalama (TL/km)

  /** The rows dated in one of the given months, in their order. */
  function Among(fuel: seq<Record>, months: set<Month>): (g: seq<Record>)
    ensures forall i :: 0 <= i < |g| ==> MonthOf(g[i].date) in months
  {
    if fuel == [] then []
    else
      var last := fuel[|fuel| - 1];
      Among(fuel[..|fuel| - 1], months) + if MonthOf(last.date) in months then [last] else []
  }

  /** The filter keeps exactly the rows of the given months, as often as they occur. */
  lemma {:induction false} AmongContents(fuel: seq<Record>, months: set<Month>)
    ensures forall x ::
      multiset(Among(fuel, months))[x] == (if MonthOf(x.date) in months then multiset(fuel)[x] else 0)
  {
    if fuel != [] {
      var last := fuel[|fuel| - 1];
      AmongContents(fuel[..|fuel| - 1], months);
      assert fuel == fuel[..|fuel| - 1] + [last];
    }
  }

  /** The rows of one month: one bin of the monthly resampling. */
  function InMonth(fuel: seq<Record>, m: Month): (g: seq<Record>)
    ensures forall i :: 0 <= i < |g| ==> MonthOf(g[i].date) == m
  {
    Among(fuel, {m})
  }

  /** The months that have at least one row. */
  function Months(fuel: seq<Record>): set<Month> {
    set i | 0 <= i < |fuel| :: MonthOf(fuel[i].date)
  }

  /**
   * The summary of the rows of one month: sums of the money and litre
   * columns, the spread of the odometer readings, and rates only where that
   * spread is positive (0 otherwise).
   */
  function Summarise(group: seq<Record>): (r: Summary)
    requires group != []
    ensures r.spend == Sum(group, Amount) && r.litres == Sum(group, Litres)
    ensures r.distance >= 0
    ensures forall i, j :: 0 <= i < |group| && 0 <= j < |group| ==> group[i].km - group[j].km <= r.distance
    ensures exists i, j :: 0 <= i < |group| && 0 <= j < |group| && group[i].km - group[j].km == r.distance
    ensures r.distance > 0 ==>
      r.litresPer100 == Per100Km(r.litres, r.distance) && r.moneyPerKm == PerKm(r.spend, r.distance)
    ensures r.distance == 0 ==> r.litresPer100 == 0.0 && r.moneyPerKm == 0.0
  {
    var spend := Sum(group, Amount);
    var litres := Sum(group, Litres);
    var distance := MaxKm(group) - MinKm(group);
    if distance > 0 then
      Summary(spend, litres, distance, Per100Km(litres, distance), PerKm(spend, distance))
    else Summary(spend, litres, distance, 0.0, 0.0)
  }

  /**
   * The monthly table: one row per month that has fuel rows. The resampling
   * also creates the empty months in between, but their distance is
   * undefined and the `>= 0` mask drops them.
   */
  function Rollup(fuel: seq<Record>): (r: map<Month, Summary>)
    ensures forall m :: m in r <==> exists i :: 0 <= i < |fuel| && MonthOf(fuel[i].date) == m
  {
    map m | m in Months(fuel) :: Summarise(InMonthNonEmpty(fuel, m))
  }

  /** The group of a month that has rows is not empty. */
  function InMonthNonEmpty(fuel: seq<Record>, m: Month): (g: seq<Record>)
    requires m in Months(fuel)
    ensures g == InMonth(fuel, m) && g != []
  {
    var i :| 0 <= i < |fuel| && MonthOf(fuel[i].date) == m;
    AmongContents(fuel, {m});
    assert fuel[i] in multiset(fuel);
    assert fuel[i] in multiset(InMonth(fuel, m));
    InMonth(fuel, m)
  }

  /** The row of a month sums that month's rows. */
  lemma RollupAt(fuel: seq<Record>, m: Month)
    requires m in Rollup(fuel)
    ensures InMonth(fuel, m) != []
    ensures Rollup(fuel)[m] == Summarise(InMonth(fuel, m))
    ensures Rollup(fuel)[m].spend == Sum(InMonth(fuel, m), Amount)
    ensures Rollup(fuel)[m].litres == Sum(InMonth(fuel, m), Litres)
  {
    assert m in Months(fuel);
    var g := InMonthNonEmpty(fuel, m);
  }

  /** No month listed twice. */
  predicate Distinct(ms: seq<Month>) {
    forall i, j :: 0 <= i < j < |ms| ==> ms[i] != ms[j]
  }

  function SetOf(ms: seq<Month>): set<Month> {
    set m | m in ms
  }

  /** One column of the monthly table, added up over a list of its months. */
  function ColumnOver(r: map<Month, Summary>, ms: seq<Month>, c: Column): real
    requires forall i :: 0 <= i < |ms| ==> ms[i] in r
  {
    if ms == [] then 0.0
    else
      var s := r[ms[|ms| - 1]];
      ColumnOver(r, ms[..|ms| - 1], c) + match c { case Litres => s.litres case Amount => s.spend }
  }

  /** Filtering by a month set that also holds one more month adds that month's rows. */
  lemma {:induction false} AmongSplit(fuel: seq<Record>, months: set<Month>, m: Month, c: Column)
    requires m !in months
    ensures Sum(Among(fuel, months + {m}), c) == Sum(Among(fuel, months), c) + Sum(InMonth(fuel, m), c)
  {
    if fuel != [] {
      var front := fuel[..|fuel| - 1];
      var last := fuel[|fuel| - 1];
      AmongSplit(front, months, m, c);
      var tail := if MonthOf(last.date) in months + {m} then [last] else [];
      var tailS := if MonthOf(last.date) in months then [last] else [];
      var tailM := if MonthOf(last.date) in {m} then [last] else [];
      SumAppend(Among(front, months + {m}), tail, c);
      SumAppend(Among(front, months), tailS, c);
      SumAppend(InMonth(front, m), tailM, c);
      assert [last][..0] == [];
    }
  }

  /** Filtering by months that cover every row keeps every row. */
  lemma {:induction false} AmongAll(fuel: seq<Record>, months: set<Month>)
    requires forall i :: 0 <= i < |fuel| ==> MonthOf(fuel[i].date) in months
    ensures Among(fuel, months) == fuel
  {
    if fuel != [] {
      AmongAll(fuel[..|fuel| - 1], months);
      assert fuel == fuel[..|fuel| - 1] + [fuel[|fuel| - 1]];
    }
  }

  /** Every row of a table holds the sums of its month's rows. */
  predicate RowsMatch(fuel: seq<Record>, r: map<Month, Summary>) {
    forall m :: m in r ==>
      r[m].spend == Sum(InMonth(fuel, m), Amount) && r[m].litres == Sum(InMonth(fuel, m), Litres)
  }

  lemma SetOfSnoc(ms: seq<Month>)
    requires ms != []
    ensures SetOf(ms) == SetOf(ms[..|ms| - 1]) + {ms[|ms| - 1]}
  {
    var front := ms[..|ms| - 1];
    forall x ensures x in SetOf(ms) <==> x in SetOf(front) || x == ms[|ms| - 1] {
      if x in SetOf(ms) {
        var i :| 0 <= i < |ms| && ms[i] == x;
        if i < |ms| - 1 {
          assert front[i] == x;
        }
      }
    }
  }

  /** Over distinct months, a table's column adds up to the rows of those months. */
  lemma {:induction false} ColumnOverAmong(fuel: seq<Record>, r: map<Month, Summary>, ms: seq<Month>, c: Column)
    requires RowsMatch(fuel, r)
    requires Distinct(ms)
    requires forall i :: 0 <= i < |ms| ==> ms[i] in r
    ensures ColumnOver(r, ms, c) == Sum(Among(fuel, SetOf(ms)), c)
  {
    if ms == [] {
      AmongNone(fuel);
    } else {
      var front := ms[..|ms| - 1];
      var m := ms[|ms| - 1];
      ColumnOverAmong(fuel, r, front, c);
      SetOfSnoc(ms);
      assert m !in SetOf(front);
      AmongSplit(fuel, SetOf(front), m, c);
    }
  }

  /** Filtering by no month keeps nothing. */
  lemma {:induction false} AmongNone(fuel: seq<Record>)
    ensures Sum(Among(fuel, {}), Litres) == 0.0 && Sum(Among(fuel, {}), Amount) == 0.0
  {
    if fuel != [] {
      AmongNone(fuel[..|fuel| - 1]);
    }
  }

  /**
   * The monthly table partitions the fuel rows: over its months, listed
   * once each, its spend and its litres add up to those of the whole series.
   */
  lemma RollupPartition(fuel: seq<Record>, ms: seq<Month>, c: Column)
    requires Distinct(ms)
    requires forall m :: m in Rollup(fuel) <==> m in ms
    ensures forall i :: 0 <= i < |ms| ==> ms[i] in Rollup(fuel)
    ensures ColumnOver(Rollup(fuel), ms, c) == Sum(fuel, c)
  {
    forall m | m in Rollup(fuel)
      ensures Rollup(fuel)[m].spend == Sum(InMonth(fuel, m), Amount)
      ensures Rollup(fuel)[m].litres == Sum(InMonth(fuel, m), Litres)
    {
      RollupAt(fuel, m);
    }
    ColumnOverAmong(fuel, Rollup(fuel), ms, c);
    forall i | 0 <= i < |fuel| ensures MonthOf(fuel[i].date) in (SetOf(ms)) {
      assert MonthOf(fuel[i].date) in Rollup(fuel);
    }
    AmongAll(fuel, SetOf(ms));
  }

  /** A series that lies within one month gives a table with that month alone. */
  lemma OneMonthKeys(fuel: seq<Record>, m: Month)
    requires fuel != []
    requires forall i :: 0 <= i < |fuel| ==> MonthOf(fuel[i].date) == m
    ensures Rollup(fuel).Keys == {m}
  {
    var r := Rollup(fuel);
    assert MonthOf(fuel[0].date) == m;
    forall k | k in r.Keys ensures k == m {
      var i :| 0 <= i < |fuel| && MonthOf(fuel[i].date) == k;
    }
  }

  /** A series that lies within one month gives a single row that summarises all of it. */
  lemma RollupOneMonth(fuel: seq<Record>, m: Month)
    requires fuel != []
    requires forall i :: 0 <= i < |fuel| ==> MonthOf(fuel[i].date) == m
    ensures Rollup(fuel).Keys == {m}
    ensures Rollup(fuel)[m] == Summarise(fuel)
  {
    OneMonthKeys(fuel, m);
    AmongAll(fuel, {m});
    RollupAt(fuel, m);
  }

  /**
   * Two fills in the same month give a single row: its spend is the sum of
   * the two amounts and its distance the difference of the two readings
   * (fills of 500 and 700 at 1000 and 1300 km give 1200 and 300 km).
   */
  lemma TwoFillsOneMonth(a: Record, b: Record)
    requires MonthOf(a.date) == MonthOf(b.date) && a.km <= b.km
    ensures Rollup([a, b]).Keys == {MonthOf(a.date)}
    ensures Rollup([a, b])[MonthOf(a.date)].spend == a.amount + b.amount
    ensures Rollup([a, b])[MonthOf(a.date)].distance == b.km - a.km
  {
    RollupOneMonth([a, b], MonthOf(a.date));
    TwoRows(a, b);
  }

  /** Two readings: spend adds up, distance is their difference. */
  lemma TwoRows(a: Record, b: Record)
    requires a.km <= b.km
    ensures Summarise([a, b]).spend == a.amount + b.amount
    ensures Summarise([a, b]).distance == b.km - a.km
  {
    assert [a, b][..1] == [a];
    assert Sum([a], Amount) == a.amount;
  }
}
