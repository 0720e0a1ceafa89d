/**
 * The fuel analysis tab as a whole (arac_uygulamasi.py lines 296-385): the
 * fuel rows sorted by odometer reading, and, when there are at least two of
 * them, the all-time overview, the full-to-full trip table and the monthly
 * table computed from that one series.
 */
module FuelTab {
  import opened Records
  import opened Wrappers
  import opened FuelSeries
  import opened Overview
  import opened Trips
  import opened Monthly

  /** What the tab shows: a notice, or the three tables. */
  datatype FuelAnalysis =
    | TooFew
    | Analysis(overall: Overall, trips: seq<Trip>, monthly: map<Month, Summary>)

  /** The tab's content, as a function of the sheet. */
  function Analyse(records: seq<Record>): (a: FuelAnalysis)
    ensures a.TooFew? <==> |Series(records)| < 2
  {
    var fuel := Series(records);
    if |fuel| < 2 then TooFew
    else Analysis(AllTime(fuel).value, TripReports(fuel), Rollup(fuel))
  }

  /**
   * The tab's computation: the series is built once, the notice is shown
   * below two fuel rows, otherwise the trip loop runs over the series.
   */
  method AnalyseFuel(records: seq<Record>) returns (a: FuelAnalysis)
    ensures a == Analyse(records)
    ensures a.TooFew? <==> |Series(records)| < 2
  {
    var fuel := Series(records);
    if |fuel| < 2 {
      return TooFew;
    }
    var overall := AllTime(fuel).value;
    var trips := AnalyseTrips(fuel);
    a := Analysis(overall, trips, Rollup(fuel));
  }

  /**
   * The monthly table agrees with the overview: over its months, listed
   * once each, it spends the overview's total fuel spend and buys the
   * overview's litres plus the first fill's. (The trip table's agreement
   * with the overview is Trips.TripsMatchAllTime.)
   */
  lemma MonthlyMatchesOverview(fuel: seq<Record>, ms: seq<Month>)
    requires |fuel| >= 2
    requires Distinct(ms)
    requires forall m :: m in Rollup(fuel) <==> m in ms
    ensures forall i :: 0 <= i < |ms| ==> ms[i] in Rollup(fuel)
    ensures AllTime(fuel).Some?
    ensures ColumnOver(Rollup(fuel), ms, Amount) == AllTime(fuel).value.totalSpend
    ensures ColumnOver(Rollup(fuel), ms, Litres) == AllTime(fuel).value.litres + fuel[0].litres
  {
    RollupPartition(fuel, ms, Amount);
    RollupPartition(fuel, ms, Litres);
  }
}
