/**
 * The all-time overview of the fuel tab (arac_uygulamasi.py lines 300-322):
 * the whole fuel history read as one long stretch from the first fill to
 * the last.
 */
module Overview {
  import opened Records
  import opened Wrappers

  /** The all-time figures. */
  datatype Overall = Overall(
    distance: int,       // Toplam Gidilen KM: last reading minus first reading
    litres: real,        // fuel consumed: every fill except the first
    money: real,         // what the consumed fuel cost
    litresPer100: real,  // Genel Ortalama (L/100km)
    moneyPerKm: real,    // Genel Ortalama (TL/km)
    totalSpend: real)    // Toplam Yakıt Harcaması: every fill, the first included

  /**
   * The overview of a km-sorted fuel series; None when there are fewer than
   * two fuel rows (the "at least two fuel records" notice). The first fill
   * only fills the starting tank, so it counts towards the total spend but
   * not towards consumption; the averages stay 0 unless both the distance
   * and the litres are positive.
   */
  function AllTime(fuel: seq<Record>): (r: Option<Overall>)
    ensures r.None? <==> |fuel| < 2
    ensures r.Some? ==>
      && r.value.distance == fuel[|fuel| - 1].km - fuel[0].km
      && r.value.litres + fuel[0].litres == Sum(fuel, Litres)
      && r.value.money + fuel[0].amount == Sum(fuel, Amount)
      && r.value.totalSpend == Sum(fuel, Amount)
    ensures r.Some? && r.value.distance > 0 && r.value.litres > 0.0 ==>
      && r.value.litresPer100 * r.value.distance as real == r.value.litres * 100.0
      && r.value.moneyPerKm * r.value.distance as real == r.value.money
    ensures r.Some? && !(r.value.distance > 0 && r.value.litres > 0.0) ==>
      r.value.litresPer100 == 0.0 && r.value.moneyPerKm == 0.0
  {
    if |fuel| < 2 then None
    else
      var distance := fuel[|fuel| - 1].km - fuel[0].km;
      var litres := Sum(fuel[1..], Litres);
      var money := Sum(fuel[1..], Amount);
      SumFirst(fuel, Litres);
      SumFirst(fuel, Amount);
      var measured := distance > 0 && litres > 0.0;
      Some(Overall(
        distance, litres, money,
        if measured then Per100Km(litres, distance) else 0.0,
        if measured then PerKm(money, distance) else 0.0,
        Sum(fuel, Amount)))
  }

  /**
   * On a km-sorted series the all-time distance is the span of the readings:
   * highest minus lowest, never negative.
   */
  lemma AllTimeIsSpan(fuel: seq<Record>)
    requires SortedByKm(fuel) && |fuel| >= 2
    ensures AllTime(fuel).Some?
    ensures AllTime(fuel).value.distance == MaxKm(fuel) - MinKm(fuel) >= 0
  {
    var hi := MaxKm(fuel);
    var lo := MinKm(fuel);
    var i :| 0 <= i < |fuel| && fuel[i].km == hi;
    var j :| 0 <= j < |fuel| && fuel[j].km == lo;
    assert fuel[i].km <= fuel[|fuel| - 1].km;
    assert fuel[0].km <= fuel[j].km;
  }
}
