/**
 * The fuel series that the fuel tab analyses: the fuel rows of the sheet,
 * ordered by odometer reading (arac_uygulamasi.py line 298).
 */
module FuelSeries {
  import opened Records

  /** The fuel rows, in the order of the sheet (the category mask). */
  function FuelOnly(s: seq<Record>): (f: seq<Record>)
    ensures forall i :: 0 <= i < |f| ==> IsFuel(f[i])
    ensures forall x :: multiset(f)[x] == if IsFuel(x) then multiset(s)[x] else 0
  {
    if s == [] then []
    else
      var last := s[|s| - 1];
      assert s == s[..|s| - 1] + [last];
      FuelOnly(s[..|s| - 1]) + if IsFuel(last) then [last] else []
  }

  /**
   * Inserts one row before the first row whose reading is at least its own,
   * so that rows with equal readings keep their order.
   */
  function Insert(r: Record, s: seq<Record>): (t: seq<Record>)
    ensures multiset(t) == multiset(s) + multiset{r}
    ensures |t| == |s| + 1
  {
    if s == [] then [r]
    else if r.km <= s[0].km then [r] + s
    else
      assert s == [s[0]] + s[1..];
      [s[0]] + Insert(r, s[1..])
  }

  /** Every row of the insertion is the inserted row or a row of the run. */
  lemma InsertFrom(r: Record, s: seq<Record>, i: nat)
    requires i < |Insert(r, s)|
    ensures Insert(r, s)[i] == r || Insert(r, s)[i] in s
  {
    assert Insert(r, s)[i] in multiset(Insert(r, s));
  }

  /** Inserting into a sorted run keeps it sorted. */
  lemma {:induction false} InsertSorted(r: Record, s: seq<Record>)
    requires SortedByKm(s)
    ensures SortedByKm(Insert(r, s))
  {
    if s != [] && r.km > s[0].km {
      var rest := Insert(r, s[1..]);
      InsertSorted(r, s[1..]);
      forall i | 0 <= i < |rest| ensures s[0].km <= rest[i].km {
        InsertFrom(r, s[1..], i);
      }
      assert Insert(r, s) == [s[0]] + rest;
    }
  }

  /** `sort_values(by="KM Sayacı")`: the rows ordered by odometer reading. */
  function SortByKm(s: seq<Record>): (t: seq<Record>)
    ensures SortedByKm(t)
    ensures multiset(t) == multiset(s)
    ensures |t| == |s|
  {
    if s == [] then []
    else
      assert s == [s[0]] + s[1..];
      InsertSorted(s[0], SortByKm(s[1..]));
      Insert(s[0], SortByKm(s[1..]))
  }

  /** The fuel rows of the sheet, sorted by odometer reading. */
  function Series(records: seq<Record>): (fuel: seq<Record>)
    ensures SortedByKm(fuel)
    ensures forall i :: 0 <= i < |fuel| ==> IsFuel(fuel[i])
    ensures forall x :: multiset(fuel)[x] == if IsFuel(x) then multiset(records)[x] else 0
  {
    var f := FuelOnly(records);
    var t := SortByKm(f);
    assert forall i :: 0 <= i < |t| ==> t[i] in multiset(f);
    t
  }
}
