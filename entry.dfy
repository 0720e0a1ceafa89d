/**
 * The two entry forms (arac_uygulamasi.py lines 197-288): the checks a new
 * fuel purchase or other expense must pass, and the sheet it is appended to.
 */
module Entry {
  import opened Records
  import opened Wrappers

  /** Why a form was refused, in the order the forms check. */
  datatype EntryError =
    | MissingFields          // a required number is 0
    | KmBelowLast(last: int) // the odometer reading is below the highest one on the sheet
    | MissingDescription     // the other-expense form needs a description

  /** The odometer may not go back: an empty sheet accepts any reading. */
  predicate KmAllowed(records: seq<Record>, km: int) {
    records == [] || km >= MaxKm(records)
  }

  /** The fuel form's checks: km, amount and litres must be non-zero, then km not below the last. */
  function CheckFuel(records: seq<Record>, km: int, amount: real, litres: real): (e: Option<EntryError>)
    ensures e.None? <==> km != 0 && amount != 0.0 && litres != 0.0 && KmAllowed(records, km)
    ensures e == Some(MissingFields) <==> km == 0 || amount == 0.0 || litres == 0.0
    ensures e.Some? && e.value.KmBelowLast? <==> km != 0 && amount != 0.0 && litres != 0.0 && !KmAllowed(records, km)
    ensures e.Some? && e.value.KmBelowLast? ==> records != [] && km < e.value.last == MaxKm(records)
  {
    if km == 0 || amount == 0.0 || litres == 0.0 then Some(MissingFields)
    else if records != [] && km < MaxKm(records) then Some(KmBelowLast(MaxKm(records)))
    else None
  }

  /**
   * The other-expense form's checks: km and amount must be non-zero, then km
   * not below the last, then the description must not be empty.
   */
  function CheckOther(records: seq<Record>, km: int, amount: real, description: string): (e: Option<EntryError>)
    ensures e.None? <==> km != 0 && amount != 0.0 && KmAllowed(records, km) && description != ""
    ensures e == Some(MissingFields) <==> km == 0 || amount == 0.0
    ensures e.Some? && e.value.KmBelowLast? ==> records != [] && km < e.value.last == MaxKm(records)
    ensures e == Some(MissingDescription) ==> km != 0 && amount != 0.0 && KmAllowed(records, km)
  {
    if km == 0 || amount == 0.0 then Some(MissingFields)
    else if records != [] && km < MaxKm(records) then Some(KmBelowLast(MaxKm(records)))
    else if description == "" then Some(MissingDescription)
    else None
  }

  /** The row a fuel purchase becomes: fuel category, a single installment. */
  function FuelEntry(date: Date, km: int, amount: real, litres: real, fillType: string, description: string): (r: Record)
    ensures IsFuel(r) && r.installments == 1
    ensures r.date == date && r.description == description
    ensures r.km == km && r.amount == amount && r.litres == litres && r.fillType == fillType
  {
    Record(date, km, Fuel, amount, description, 1, litres, fillType)
  }

  /**
   * The row another expense becomes: one of the categories the form offers,
   * which are all but fuel, so the row never enters the fuel analysis; no
   * litres, no fill type.
   */
  function OtherEntry(date: Date, km: int, category: string, amount: real, installments: int, description: string): (r: Record)
    requires category in OtherCategories
    ensures r.litres == 0.0 && r.fillType == "" && !IsFull(r) && !IsFuel(r)
    ensures r.date == date && r.description == description
    ensures r.km == km && r.category == category && r.amount == amount && r.installments == installments
  {
    Record(date, km, category, amount, description, installments, 0.0, "")
  }

  /**
   * A row the checks let through carries the new highest reading, keeps
   * every earlier row, and keeps the readings in entry order non-decreasing.
   */
  lemma AcceptedEntry(records: seq<Record>, entry: Record)
    requires KmAllowed(records, entry.km)
    ensures MaxKm(records + [entry]) == entry.km
    ensures (records + [entry])[..|records|] == records
    ensures SortedByKm(records) ==> SortedByKm(records + [entry])
  {
    assert (records + [entry])[..|records|] == records;
    NewMaximum(records, entry);
    if SortedByKm(records) {
      SortedAppend(records, entry);
    }
  }

  lemma NewMaximum(records: seq<Record>, entry: Record)
    requires KmAllowed(records, entry.km)
    ensures MaxKm(records + [entry]) == entry.km
  {
    var s := records + [entry];
    var i :| 0 <= i < |s| && s[i].km == MaxKm(s);
    assert s[|records|] == entry;
    assert entry.km <= MaxKm(s);
    if i < |records| {
      assert s[i] == records[i];
      assert records[i].km <= MaxKm(records) <= entry.km;
    }
  }

  lemma SortedAppend(records: seq<Record>, entry: Record)
    requires SortedByKm(records) && KmAllowed(records, entry.km)
    ensures SortedByKm(records + [entry])
  {
    var s := records + [entry];
    forall i, j | 0 <= i < j < |s| ensures s[i].km <= s[j].km {
      assert s[i] == records[i];
      if j < |records| {
        assert s[j] == records[j];
      }
    }
  }

  /** The sheet held in memory: the forms append to it. */
  class Sheet {
    var records: seq<Record>

    constructor (records: seq<Record>)
      ensures this.records == records
    {
      this.records := records;
    }

    /** Submitting the fuel form: the row is appended if the checks pass. */
    method SubmitFuel(date: Date, km: int, amount: real, litres: real, fillType: string, description: string)
      returns (e: Option<EntryError>)
      modifies this
      ensures e == CheckFuel(old(records), km, amount, litres)
      ensures e.None? ==> records == old(records) + [FuelEntry(date, km, amount, litres, fillType, description)]
      ensures e.Some? ==> records == old(records)
      ensures SortedByKm(old(records)) ==> SortedByKm(records)
    {
      e := CheckFuel(records, km, amount, litres);
      if e.None? {
        AcceptedEntry(records, FuelEntry(date, km, amount, litres, fillType, description));
        records := records + [FuelEntry(date, km, amount, litres, fillType, description)];
      }
    }

    /** Submitting the other-expense form: the row is appended if the checks pass. */
    method SubmitOther(date: Date, km: int, category: string, amount: real, installments: int, description: string)
      returns (e: Option<EntryError>)
      requires category in OtherCategories
      modifies this
      ensures e == CheckOther(old(records), km, amount, description)
      ensures e.None? ==> records == old(records) + [OtherEntry(date, km, category, amount, installments, description)]
      ensures e.Some? ==> records == old(records)
      ensures SortedByKm(old(records)) ==> SortedByKm(records)
    {
      e := CheckOther(records, km, amount, description);
      if e.None? {
        AcceptedEntry(records, OtherEntry(date, km, category, amount, installments, description));
        records := records + [OtherEntry(date, km, category, amount, installments, description)];
      }
    }
  }
}
