/**
 * Full-to-full trip segmentation of the fuel tab (arac_uygulamasi.py
 * lines 326-359). Between two consecutive full-tank fills the fuel bought
 * after the first of them is exactly what the car burned over the distance
 * the odometer advanced, so each such stretch is one measured trip.
 */
module Trips {
  import opened Records
  import opened Wrappers
  import Overview

  /** The positions of the full-tank fills in the series, ascending. */
  function FullIndices(fuel: seq<Record>): (idx: seq<nat>)
    ensures forall j :: 0 <= j < |idx| ==> idx[j] < |fuel| && IsFull(fuel[idx[j]])
    ensures forall j, l :: 0 <= j < l < |idx| ==> idx[j] < idx[l]
    ensures |idx| <= |fuel|
  {
    if fuel == [] then []
    else
      var n := |fuel| - 1;
      var front := FullIndices(fuel[..n]);
      assert forall j :: 0 <= j < |front| ==> fuel[..n][front[j]] == fuel[front[j]];
      front + if IsFull(fuel[n]) then [n] else []
  }

  /** Every full fill of the series is listed. */
  lemma {:induction false} FullIndicesComplete(fuel: seq<Record>, p: nat)
    requires p < |fuel| && IsFull(fuel[p])
    ensures p in FullIndices(fuel)
  {
    var n := |fuel| - 1;
    if p < n {
      assert fuel[..n][p] == fuel[p];
      FullIndicesComplete(fuel[..n], p);
    }
  }

  /** A full-to-full stretch: the inclusive slice fuel[first..last]. */
  datatype Segment = Segment(first: nat, last: nat)

  predicate ValidSegment(fuel: seq<Record>, s: Segment) {
    s.first < s.last < |fuel|
  }

  /** Every stretch of a run lies inside the series. */
  predicate AllValid(fuel: seq<Record>, segs: seq<Segment>) {
    forall j :: 0 <= j < |segs| ==> ValidSegment(fuel, segs[j])
  }

  /** One stretch per consecutive pair of positions, in ascending order. */
  function Pairs(idx: seq<nat>): (segs: seq<Segment>)
    ensures |segs| == if |idx| < 2 then 0 else |idx| - 1
    ensures forall j :: 0 <= j < |segs| ==> segs[j] == Segment(idx[j], idx[j + 1])
  {
    if |idx| < 2 then []
    else Pairs(idx[..|idx| - 1]) + [Segment(idx[|idx| - 2], idx[|idx| - 1])]
  }

  /**
   * The full-to-full stretches of a series: one per consecutive pair of
   * full-fill positions; none when there are fewer than two full fills.
   */
  function Segments(fuel: seq<Record>): (segs: seq<Segment>)
    ensures AllValid(fuel, segs)
  {
    var idx := FullIndices(fuel);
    var segs := Pairs(idx);
    assert AllValid(fuel, segs) by {
      forall j | 0 <= j < |segs| ensures ValidSegment(fuel, segs[j]) {
        assert segs[j] == Segment(idx[j], idx[j + 1]);
        assert idx[j] < idx[j + 1] < |fuel|;
      }
    }
    segs
  }

  /** One row of the trip table. */
  datatype Trip = Trip(
    startKm: int,        // Başlangıç KM
    endKm: int,          // Bitiş KM
    distance: int,       // Gidilen KM
    litres: real,        // Tüketilen Litre
    money: real,         // what that fuel cost
    litresPer100: real,  // L/100km (Ort.)
    moneyPerKm: real)    // TL/km (Ort.)

  /**
   * The report of one inclusive slice: the fills after its first row are
   * what was consumed over the distance; no report when the odometer did
   * not advance.
   */
  function Measure(trip: seq<Record>): (ts: seq<Trip>)
    requires |trip| >= 2
    ensures |ts| == if trip[0].km < trip[|trip| - 1].km then 1 else 0
    ensures forall k :: 0 <= k < |ts| ==>
      && WellFormed(ts[k])
      && ts[k].startKm == trip[0].km && ts[k].endKm == trip[|trip| - 1].km
      && ts[k].litres == Sum(trip[1..], Litres) && ts[k].money == Sum(trip[1..], Amount)
  {
    var startKm := trip[0].km;
    var endKm := trip[|trip| - 1].km;
    var distance := endKm - startKm;
    var consumed := trip[1..];
    var litres := Sum(consumed, Litres);
    var money := Sum(consumed, Amount);
    if distance > 0 then
      [Trip(startKm, endKm, distance, litres, money,
            Per100Km(litres, distance), PerKm(money, distance))]
    else []
  }

  /** The report of one stretch. */
  function TripOf(fuel: seq<Record>, s: Segment): (ts: seq<Trip>)
    requires ValidSegment(fuel, s)
    ensures |ts| <= 1
    ensures forall k :: 0 <= k < |ts| ==> ts[k].startKm == fuel[s.first].km && ts[k].endKm == fuel[s.last].km
  {
    Measure(fuel[s.first..s.last + 1])
  }

  /** The reports of a run of stretches, in the order of the stretches. */
  function Reports(fuel: seq<Record>, segs: seq<Segment>): (ts: seq<Trip>)
    requires AllValid(fuel, segs)
    ensures |ts| <= |segs|
  {
    if segs == [] then []
    else Reports(fuel, segs[..|segs| - 1]) + TripOf(fuel, segs[|segs| - 1])
  }

  /** The trip table of a fuel series. */
  function TripReports(fuel: seq<Record>): (ts: seq<Trip>)
    ensures |FullIndices(fuel)| < 2 ==> ts == []
    ensures forall k :: 0 <= k < |ts| ==> WellFormed(ts[k])
  {
    ReportsWellFormed(fuel, Segments(fuel));
    Reports(fuel, Segments(fuel))
  }

  /** What every reported trip satisfies. */
  predicate WellFormed(t: Trip) {
    && t.startKm < t.endKm
    && t.distance == t.endKm - t.startKm
    && t.litresPer100 * t.distance as real == t.litres * 100.0
    && t.moneyPerKm * t.distance as real == t.money
  }

  /**
   * The loop of the fuel tab: for each consecutive pair of full-fill
   * positions, measure the inclusive slice between them and append a row
   * when the odometer advanced.
   */
  method AnalyseTrips(fuel: seq<Record>) returns (trips: seq<Trip>)
    ensures trips == TripReports(fuel)
  {
    var idx := FullIndices(fuel);
    trips := [];
    if |idx| >= 2 {
      for i := 0 to |idx| - 1
        invariant trips == ReportsUpTo(fuel, i)
      {
        TripStep(fuel, i);
        var report := MeasureTrip(fuel, idx[i], idx[i + 1]);
        trips := trips + report;
      }
      TripsComplete(fuel);
    }
  }

  /**
   * The body of the trip loop: the metrics of the inclusive slice between
   * two full-fill positions.
   */
  method MeasureTrip(fuel: seq<Record>, start: nat, end: nat) returns (report: seq<Trip>)
    requires start < end < |fuel|
    ensures report == TripOf(fuel, Segment(start, end))
  {
    var trip := fuel[start..end + 1];
    var startKm := trip[0].km;
    var endKm := trip[|trip| - 1].km;
    var distance := endKm - startKm;
    var consumed := trip[1..];
    var litres := Sum(consumed, Litres);
    var money := Sum(consumed, Amount);
    report := [];
    if distance > 0 {
      report := [Trip(startKm, endKm, distance, litres, money,
                      Per100Km(litres, distance), PerKm(money, distance))];
    }
  }

  /** Any prefix of a run of stretches inside the series is one too. */
  lemma PrefixValid(fuel: seq<Record>, segs: seq<Segment>, i: nat)
    requires AllValid(fuel, segs) && i <= |segs|
    ensures AllValid(fuel, segs[..i])
  {
  }

  /** The reports of the first i stretches: the table after i turns of the loop. */
  function ReportsUpTo(fuel: seq<Record>, i: nat): seq<Trip>
    requires i <= |Segments(fuel)|
  {
    PrefixValid(fuel, Segments(fuel), i);
    Reports(fuel, Segments(fuel)[..i])
  }

  /** One turn of the trip loop appends the report of the i-th stretch. */
  lemma TripStep(fuel: seq<Record>, i: nat)
    requires i + 1 < |FullIndices(fuel)|
    ensures i + 1 <= |Segments(fuel)|
    ensures ValidSegment(fuel, Segment(FullIndices(fuel)[i], FullIndices(fuel)[i + 1]))
    ensures ReportsUpTo(fuel, i + 1) == ReportsUpTo(fuel, i) +
      TripOf(fuel, Segment(FullIndices(fuel)[i], FullIndices(fuel)[i + 1]))
  {
    var segs := Segments(fuel);
    var upTo := segs[..i + 1];
    PrefixValid(fuel, segs, i + 1);
    ReportsSnoc(fuel, upTo);
    assert upTo[..i] == segs[..i];
    assert upTo[i] == Segment(FullIndices(fuel)[i], FullIndices(fuel)[i + 1]);
  }

  /** After a turn per stretch the loop has the whole table. */
  lemma TripsComplete(fuel: seq<Record>)
    ensures |Segments(fuel)| == if |FullIndices(fuel)| < 2 then 0 else |FullIndices(fuel)| - 1
    ensures ReportsUpTo(fuel, |Segments(fuel)|) == TripReports(fuel)
  {
    assert Segments(fuel)[..|Segments(fuel)|] == Segments(fuel);
  }

  /** Every reported trip moved forward, and its averages are its totals over its distance. */
  lemma {:induction false} ReportsWellFormed(fuel: seq<Record>, segs: seq<Segment>)
    requires AllValid(fuel, segs)
    ensures forall k :: 0 <= k < |Reports(fuel, segs)| ==> WellFormed(Reports(fuel, segs)[k])
  {
    if segs != [] {
      ReportsWellFormed(fuel, segs[..|segs| - 1]);
    }
  }

  /** The trip column that sums a column of the rows: litres, or money. */
  function TripValue(t: Trip, c: Column): real {
    match c
    case Litres => t.litres
    case Amount => t.money
  }

  /** The trip average built on that column: L/100km, or TL/km. */
  function TripRate(t: Trip, c: Column): real {
    match c
    case Litres => t.litresPer100
    case Amount => t.moneyPerKm
  }

  /** A slice whose rows never have a negative value in a column reports a non-negative total and average. */
  lemma MeasureNonNeg(trip: seq<Record>, c: Column)
    requires |trip| >= 2
    requires forall i :: 0 <= i < |trip| ==> Value(trip[i], c) >= 0.0
    ensures forall k :: 0 <= k < |Measure(trip)| ==>
      TripValue(Measure(trip)[k], c) >= 0.0 && TripRate(Measure(trip)[k], c) >= 0.0
  {
    var consumed := trip[1..];
    assert forall i :: 0 <= i < |consumed| ==> consumed[i] == trip[i + 1];
    SumNonNeg(consumed, c);
  }

  /** Over rows that never have a negative value in a column, every trip's total and average are non-negative. */
  lemma {:induction false} ReportsNonNeg(fuel: seq<Record>, segs: seq<Segment>, c: Column)
    requires AllValid(fuel, segs)
    requires forall i :: 0 <= i < |fuel| ==> Value(fuel[i], c) >= 0.0
    ensures forall k :: 0 <= k < |Reports(fuel, segs)| ==>
      TripValue(Reports(fuel, segs)[k], c) >= 0.0 && TripRate(Reports(fuel, segs)[k], c) >= 0.0
  {
    if segs != [] {
      var s := segs[|segs| - 1];
      ReportsNonNeg(fuel, segs[..|segs| - 1], c);
      var trip := fuel[s.first..s.last + 1];
      assert forall i :: 0 <= i < |trip| ==> trip[i] == fuel[s.first + i];
      MeasureNonNeg(trip, c);
    }
  }

  /**
   * With no negative litres on the sheet, no trip consumes negative litres
   * or shows a negative L/100km; likewise for money and TL/km.
   */
  lemma TripsNonNeg(fuel: seq<Record>, c: Column)
    requires forall i :: 0 <= i < |fuel| ==> Value(fuel[i], c) >= 0.0
    ensures forall k :: 0 <= k < |TripReports(fuel)| ==>
      TripValue(TripReports(fuel)[k], c) >= 0.0 && TripRate(TripReports(fuel)[k], c) >= 0.0
  {
    ReportsNonNeg(fuel, Segments(fuel), c);
  }

  /** Fewer than two full fills (so also fewer than two fuel rows) give no trips. */
  lemma NoTripsWithoutTwoFullFills(fuel: seq<Record>)
    requires |FullIndices(fuel)| < 2 || |fuel| < 2
    ensures TripReports(fuel) == []
  {
  }

  /** The report of a stretch, spelt out: present exactly when the odometer advanced. */
  lemma TripOfIs(fuel: seq<Record>, s: Segment)
    requires ValidSegment(fuel, s)
    ensures |TripOf(fuel, s)| == if fuel[s.first].km < fuel[s.last].km then 1 else 0
    ensures fuel[s.first].km < fuel[s.last].km ==>
      var distance := fuel[s.last].km - fuel[s.first].km;
      var litres := Sum(fuel[s.first + 1..s.last + 1], Litres);
      var money := Sum(fuel[s.first + 1..s.last + 1], Amount);
      TripOf(fuel, s)[0] == Trip(fuel[s.first].km, fuel[s.last].km, distance, litres, money,
                                 Per100Km(litres, distance), PerKm(money, distance))
  {
    var trip := fuel[s.first..s.last + 1];
    assert trip[1..] == fuel[s.first + 1..s.last + 1];
    assert trip[0] == fuel[s.first] && trip[|trip| - 1] == fuel[s.last];
  }

  /**
   * Both ends of every stretch are full fills, no full fill lies strictly
   * inside it, and each stretch starts where the previous one ended: every
   * full fill other than a stretch's own ends starts a new stretch.
   */
  lemma SegmentBoundaries(fuel: seq<Record>, j: nat)
    requires j < |Segments(fuel)|
    ensures IsFull(fuel[Segments(fuel)[j].first]) && IsFull(fuel[Segments(fuel)[j].last])
    ensures forall p :: Segments(fuel)[j].first < p < Segments(fuel)[j].last ==> !IsFull(fuel[p])
    ensures j + 1 < |Segments(fuel)| ==> Segments(fuel)[j].last == Segments(fuel)[j + 1].first
  {
    var idx := FullIndices(fuel);
    var segs := Segments(fuel);
    assert segs[j] == Segment(idx[j], idx[j + 1]);
    forall p | idx[j] < p < idx[j + 1] ensures !IsFull(fuel[p]) {
      if IsFull(fuel[p]) {
        FullIndicesComplete(fuel, p);
        assert false;
      }
    }
    if j + 1 < |segs| {
      assert segs[j + 1] == Segment(idx[j + 1], idx[j + 2]);
    }
  }

  /** The first stretch starts at the first full fill and the last one ends at the last. */
  lemma SegmentsSpan(fuel: seq<Record>)
    requires |Segments(fuel)| > 0
    ensures forall p :: 0 <= p < Segments(fuel)[0].first ==> !IsFull(fuel[p])
    ensures forall p :: Segments(fuel)[|Segments(fuel)| - 1].last < p < |fuel| ==> !IsFull(fuel[p])
  {
    var idx := FullIndices(fuel);
    var segs := Segments(fuel);
    var n := |idx|;
    assert segs[0] == Segment(idx[0], idx[1]);
    assert segs[|segs| - 1] == Segment(idx[n - 2], idx[n - 1]);
    forall p | 0 <= p < |fuel| && (p < idx[0] || idx[n - 1] < p) ensures !IsFull(fuel[p]) {
      if IsFull(fuel[p]) {
        FullIndicesComplete(fuel, p);
        assert false;
      }
    }
  }

  /** Positions inside the series, strictly ascending. */
  predicate Ascending(fuel: seq<Record>, idx: seq<nat>) {
    && (forall j :: 0 <= j < |idx| ==> idx[j] < |fuel|)
    && (forall j, l :: 0 <= j < l < |idx| ==> idx[j] < idx[l])
  }

  /** The odometer moved forward over a stretch. */
  predicate Advances(fuel: seq<Record>, s: Segment) {
    ValidSegment(fuel, s) && fuel[s.first].km < fuel[s.last].km
  }

  /** Every stretch of the run moves the odometer forward: no trip is dropped. */
  predicate AllAdvance(fuel: seq<Record>, segs: seq<Segment>) {
    forall j :: 0 <= j < |segs| ==> Advances(fuel, segs[j])
  }

  lemma AllAdvanceSnoc(fuel: seq<Record>, segs: seq<Segment>)
    requires segs != []
    ensures AllAdvance(fuel, segs) <==>
      AllAdvance(fuel, segs[..|segs| - 1]) && Advances(fuel, segs[|segs| - 1])
  {
    var front := segs[..|segs| - 1];
    assert forall j :: 0 <= j < |front| ==> front[j] == segs[j];
  }

  /** Unfolding the run of reports by its last stretch. */
  lemma ReportsSnoc(fuel: seq<Record>, segs: seq<Segment>)
    requires AllValid(fuel, segs)
    requires segs != []
    ensures AllValid(fuel, segs[..|segs| - 1])
    ensures Reports(fuel, segs) == Reports(fuel, segs[..|segs| - 1]) + TripOf(fuel, segs[|segs| - 1])
  {
  }

  lemma PairsValid(fuel: seq<Record>, idx: seq<nat>)
    requires Ascending(fuel, idx)
    ensures AllValid(fuel, Pairs(idx))
  {
    forall j | 0 <= j < |Pairs(idx)| ensures ValidSegment(fuel, Pairs(idx)[j]) {
      assert Pairs(idx)[j] == Segment(idx[j], idx[j + 1]);
    }
  }

  /** A trip is dropped exactly when its stretch did not move the odometer. */
  lemma {:induction false} ReportsCount(fuel: seq<Record>, segs: seq<Segment>)
    requires AllValid(fuel, segs)
    ensures |Reports(fuel, segs)| <= |segs|
    ensures |Reports(fuel, segs)| == |segs| <==> AllAdvance(fuel, segs)
  {
    if segs != [] {
      ReportsSnoc(fuel, segs);
      ReportsCount(fuel, segs[..|segs| - 1]);
      TripOfIs(fuel, segs[|segs| - 1]);
      AllAdvanceSnoc(fuel, segs);
    }
  }

  /** At most one trip per consecutive pair of full fills, so at most k - 1 for k full fills. */
  lemma TripCount(fuel: seq<Record>)
    ensures |TripReports(fuel)| <= |Segments(fuel)|
    ensures |Segments(fuel)| == if |FullIndices(fuel)| < 2 then 0 else |FullIndices(fuel)| - 1
    ensures |TripReports(fuel)| == |Segments(fuel)| <==> AllAdvance(fuel, Segments(fuel))
  {
    ReportsCount(fuel, Segments(fuel));
  }

  /** The sum of one column over a trip table. */
  function TripTotal(trips: seq<Trip>, c: Column): real {
    if trips == [] then 0.0
    else
      var t := trips[|trips| - 1];
      TripTotal(trips[..|trips| - 1], c) + TripValue(t, c)
  }

  /** The total distance of a trip table. */
  function TripDistance(trips: seq<Trip>): int {
    if trips == [] then 0 else TripDistance(trips[..|trips| - 1]) + trips[|trips| - 1].distance
  }

  lemma {:induction false} TripTotalAppend(a: seq<Trip>, b: seq<Trip>, c: Column)
    ensures TripTotal(a + b, c) == TripTotal(a, c) + TripTotal(b, c)
    ensures TripDistance(a + b) == TripDistance(a) + TripDistance(b)
  {
    if b != [] {
      var n := |b| - 1;
      assert (a + b)[..|a + b| - 1] == a + b[..n];
      TripTotalAppend(a, b[..n], c);
    } else {
      assert a + b == a;
    }
  }

  /** Unfolding the stretches of a list of positions by its last pair. */
  lemma PairsSnoc(fuel: seq<Record>, idx: seq<nat>)
    requires Ascending(fuel, idx) && |idx| >= 2
    ensures Ascending(fuel, idx[..|idx| - 1])
    ensures Pairs(idx)[..|Pairs(idx)| - 1] == Pairs(idx[..|idx| - 1])
    ensures Pairs(idx)[|Pairs(idx)| - 1] == Segment(idx[|idx| - 2], idx[|idx| - 1])
    ensures AllValid(fuel, Pairs(idx))
  {
    PairsValid(fuel, idx);
    var front := idx[..|idx| - 1];
    assert forall j :: 0 <= j < |front| ==> front[j] == idx[j];
  }

  /** The totals of one stretch's report: its fills and its distance, or nothing. */
  lemma TripOfTotals(fuel: seq<Record>, s: Segment, c: Column)
    requires ValidSegment(fuel, s)
    ensures TripTotal(TripOf(fuel, s), c) ==
      if Advances(fuel, s) then Total(fuel, s.first + 1, s.last + 1, c) else 0.0
    ensures TripDistance(TripOf(fuel, s)) ==
      if Advances(fuel, s) then fuel[s.last].km - fuel[s.first].km else 0
  {
    TripOfIs(fuel, s);
    TotalIsSum(fuel, s.first + 1, s.last + 1, c);
    var r := TripOf(fuel, s);
    if |r| == 1 {
      assert r[..0] == [];
    }
  }

  /** What the advancing stretches of a run consumed: the fills after each one's start. */
  function Fills(fuel: seq<Record>, segs: seq<Segment>, c: Column): real {
    if segs == [] then 0.0
    else
      var s := segs[|segs| - 1];
      Fills(fuel, segs[..|segs| - 1], c) +
        if Advances(fuel, s) then Total(fuel, s.first + 1, s.last + 1, c) else 0.0
  }

  /** How far the advancing stretches of a run took the car. */
  function Span(fuel: seq<Record>, segs: seq<Segment>): int {
    if segs == [] then 0
    else
      var s := segs[|segs| - 1];
      Span(fuel, segs[..|segs| - 1]) + if Advances(fuel, s) then fuel[s.last].km - fuel[s.first].km else 0
  }

  /** The trip table adds up to what its stretches consumed and covered. */
  lemma {:induction false} ReportsTotals(fuel: seq<Record>, segs: seq<Segment>, c: Column)
    requires AllValid(fuel, segs)
    ensures TripTotal(Reports(fuel, segs), c) == Fills(fuel, segs, c)
    ensures TripDistance(Reports(fuel, segs)) == Span(fuel, segs)
  {
    if segs != [] {
      var s := segs[|segs| - 1];
      ReportsSnoc(fuel, segs);
      ReportsTotals(fuel, segs[..|segs| - 1], c);
      TripOfTotals(fuel, s, c);
      TripTotalAppend(Reports(fuel, segs[..|segs| - 1]), TripOf(fuel, s), c);
    }
  }

  /** Unfolding what the stretches of ascending positions consumed by the last stretch. */
  lemma FillsStep(fuel: seq<Record>, idx: seq<nat>, c: Column)
    requires Ascending(fuel, idx) && |idx| >= 2
    requires AllAdvance(fuel, Pairs(idx))
    ensures Ascending(fuel, idx[..|idx| - 1]) && AllAdvance(fuel, Pairs(idx[..|idx| - 1]))
    ensures Fills(fuel, Pairs(idx), c) ==
      Fills(fuel, Pairs(idx[..|idx| - 1]), c) + Total(fuel, idx[|idx| - 2] + 1, idx[|idx| - 1] + 1, c)
  {
    var segs := Pairs(idx);
    PairsSnoc(fuel, idx);
    AllAdvanceSnoc(fuel, segs);
    FillsLast(fuel, idx, c);
  }

  lemma FillsLast(fuel: seq<Record>, idx: seq<nat>, c: Column)
    requires |idx| >= 2
    requires Advances(fuel, Segment(idx[|idx| - 2], idx[|idx| - 1]))
    requires Pairs(idx)[..|Pairs(idx)| - 1] == Pairs(idx[..|idx| - 1])
    requires Pairs(idx)[|Pairs(idx)| - 1] == Segment(idx[|idx| - 2], idx[|idx| - 1])
    ensures Fills(fuel, Pairs(idx), c) ==
      Fills(fuel, Pairs(idx[..|idx| - 1]), c) + Total(fuel, idx[|idx| - 2] + 1, idx[|idx| - 1] + 1, c)
  {
  }

  /**
   * Conservation over the stretches of ascending positions: when every
   * stretch advances, what they consumed is exactly the fills after the
   * first position up to and including the last one.
   */
  lemma {:induction false} FillsConserve(fuel: seq<Record>, idx: seq<nat>, c: Column)
    requires Ascending(fuel, idx) && |idx| >= 2
    requires AllAdvance(fuel, Pairs(idx))
    ensures Fills(fuel, Pairs(idx), c) == Total(fuel, idx[0] + 1, idx[|idx| - 1] + 1, c)
  {
    var n := |idx|;
    var front := idx[..n - 1];
    FillsStep(fuel, idx, c);
    if n > 2 {
      FillsConserve(fuel, front, c);
      assert front[0] == idx[0] && front[n - 2] == idx[n - 2];
      TotalSplit(fuel, idx[0] + 1, idx[n - 2] + 1, idx[n - 1] + 1, c);
    } else {
      assert Pairs(front) == [];
    }
  }

  /**
   * On a km-sorted series the stretches of ascending positions cover the
   * span from the first position to the last: a stretch that does not
   * advance covers nothing.
   */
  lemma {:induction false} SpanTelescope(fuel: seq<Record>, idx: seq<nat>)
    requires SortedByKm(fuel)
    requires Ascending(fuel, idx) && |idx| >= 2
    ensures Span(fuel, Pairs(idx)) == fuel[idx[|idx| - 1]].km - fuel[idx[0]].km
  {
    var n := |idx|;
    var front := idx[..n - 1];
    PairsSnoc(fuel, idx);
    if n > 2 {
      SpanTelescope(fuel, front);
      assert front[0] == idx[0] && front[n - 2] == idx[n - 2];
    } else {
      assert Pairs(front) == [];
    }
  }

  /** The first and the last full fill of a series that has at least two. */
  function FirstFull(fuel: seq<Record>): nat
    requires |FullIndices(fuel)| >= 2
  {
    FullIndices(fuel)[0]
  }

  function LastFull(fuel: seq<Record>): nat
    requires |FullIndices(fuel)| >= 2
  {
    FullIndices(fuel)[|FullIndices(fuel)| - 1]
  }

  /**
   * Conservation of the trip table: when no stretch is dropped, the litres
   * and the money of all trips are exactly the fills after the first full
   * fill up to and including the last full fill.
   */
  lemma TripConservation(fuel: seq<Record>, c: Column)
    requires |FullIndices(fuel)| >= 2
    requires AllAdvance(fuel, Segments(fuel))
    ensures FirstFull(fuel) < LastFull(fuel) < |fuel|
    ensures TripTotal(TripReports(fuel), c) == Total(fuel, FirstFull(fuel) + 1, LastFull(fuel) + 1, c)
  {
    ReportsTotals(fuel, Segments(fuel), c);
    FillsConserve(fuel, FullIndices(fuel), c);
  }

  /**
   * On a km-sorted series the trip distances add up to the odometer span
   * between the first and the last full fill, whether or not some stretch
   * was dropped.
   */
  lemma TripDistanceSpan(fuel: seq<Record>)
    requires SortedByKm(fuel)
    requires |FullIndices(fuel)| >= 2
    ensures TripDistance(TripReports(fuel)) == fuel[LastFull(fuel)].km - fuel[FirstFull(fuel)].km
  {
    ReportsTotals(fuel, Segments(fuel), Litres);
    SpanTelescope(fuel, FullIndices(fuel));
  }

  /** A series whose first and last rows are full fills starts and ends its stretches there. */
  lemma FullEnds(fuel: seq<Record>)
    requires |fuel| >= 2 && IsFull(fuel[0]) && IsFull(fuel[|fuel| - 1])
    ensures |FullIndices(fuel)| >= 2
    ensures FirstFull(fuel) == 0 && LastFull(fuel) == |fuel| - 1
  {
    var idx := FullIndices(fuel);
    FullIndicesComplete(fuel, 0);
    FullIndicesComplete(fuel, |fuel| - 1);
    var m :| 0 <= m < |idx| && idx[m] == 0;
    var l :| 0 <= l < |idx| && idx[l] == |fuel| - 1;
    assert m < l;
  }

  /**
   * The trip table agrees with the all-time summary: on a km-sorted series
   * that starts and ends with a full fill and drops no stretch, the trips
   * together cover the all-time distance and use the all-time litres and
   * money (everything bought after the first fill).
   */
  lemma TripsMatchAllTime(fuel: seq<Record>)
    requires SortedByKm(fuel)
    requires |fuel| >= 2 && IsFull(fuel[0]) && IsFull(fuel[|fuel| - 1])
    requires AllAdvance(fuel, Segments(fuel))
    ensures Overview.AllTime(fuel).Some?
    ensures TripDistance(TripReports(fuel)) == Overview.AllTime(fuel).value.distance
    ensures TripTotal(TripReports(fuel), Litres) == Overview.AllTime(fuel).value.litres
    ensures TripTotal(TripReports(fuel), Amount) == Overview.AllTime(fuel).value.money
  {
    FullEnds(fuel);
    TripDistanceSpan(fuel);
    TripConservation(fuel, Litres);
    TripConservation(fuel, Amount);
    AllButFirst(fuel, Litres);
    AllButFirst(fuel, Amount);
  }

  /** The rows after the first add up to the whole sum less the first row. */
  lemma AllButFirst(fuel: seq<Record>, c: Column)
    requires |fuel| >= 1
    ensures Total(fuel, 1, |fuel|, c) + Value(fuel[0], c) == Sum(fuel, c)
  {
    TotalSplit(fuel, 0, 1, |fuel|, c);
    TotalIsSum(fuel, 0, |fuel|, c);
    assert fuel[0..|fuel|] == fuel;
  }

  /** The series of the worked example of the fuel tab. */
  function ExampleSeries(): seq<Record> {
    var d := Date(2024, 1, 1);
    [Record(d, 1000, Fuel, 2000.0, "", 1, 40.0, FullFill),
     Record(d, 1400, Fuel, 1100.0, "", 1, 20.0, PartialFill),
     Record(d, 1800, Fuel, 1400.0, "", 1, 25.0, FullFill)]
  }

  /** Its full fills are the first and the last row: a single stretch. */
  lemma ExampleSegments()
    ensures Segments(ExampleSeries()) == [Segment(0, 2)]
  {
    var fuel := ExampleSeries();
    var one, two := fuel[..1], fuel[..2];
    assert one[..0] == [] && two[..1] == one;
    FullIndicesSnoc(one);
    FullIndicesSnoc(two);
    FullIndicesSnoc(fuel);
    assert FullIndices(fuel) == [0, 2];
  }

  lemma FullIndicesSnoc(fuel: seq<Record>)
    requires fuel != []
    ensures FullIndices(fuel) ==
      FullIndices(fuel[..|fuel| - 1]) + if IsFull(fuel[|fuel| - 1]) then [|fuel| - 1] else []
  {
  }

  /**
   * The worked example: full fill at 1000 km, a partial fill of 20 L for
   * 1100 at 1400 km and a full fill of 25 L for 1400 at 1800 km give one
   * trip of 800 km, 45 L and 2500 money, that is 5.625 L/100km and 3.125
   * per km.
   */
  lemma WorkedExample()
    ensures TripReports(ExampleSeries()) == [Trip(1000, 1800, 800, 45.0, 2500.0, 5.625, 3.125)]
  {
    var fuel := ExampleSeries();
    ExampleSegments();
    var segs := Segments(fuel);
    assert segs[..0] == [];
    assert Reports(fuel, segs) == TripOf(fuel, Segment(0, 2));
    var consumed := fuel[0..3][1..];
    assert consumed == [fuel[1], fuel[2]];
    assert consumed[..1] == [fuel[1]];
    assert [fuel[1]][..0] == [];
    assert Sum(consumed, Litres) == 45.0;
    assert Sum(consumed, Amount) == 2500.0;
  }
}
