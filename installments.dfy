/**
 * The general expense analysis (arac_uygulamasi.py lines 403-446): every
 * expense spread over its installments, one payment per month, and the
 * payments that fall due in the current month.
 */
module Installments {
  import opened Records

  /** One row of the payment table: Ödeme Tarihi, Kategori, Ödeme Tutarı. */
  datatype Payment = Payment(date: Date, category: string, amount: real)

  /** A date whose month and day are in range (the clamping of short months is not modelled). */
  predicate ValidDate(d: Date) {
    1 <= d.month <= 12 && 1 <= d.day <= 31
  }

  /** Months counted from January of year 0. */
  function MonthIndex(m: Month): int {
    m.year * 12 + m.month - 1
  }

  /** The month with a given index. */
  function MonthAt(k: int): (m: Month)
    ensures MonthIndex(m) == k && 1 <= m.month <= 12
  {
    Month(k / 12, k % 12 + 1)
  }

  /** Within the valid months the index is one-to-one and follows calendar order. */
  lemma MonthIndexOrder(a: Month, b: Month)
    requires 1 <= a.month <= 12 && 1 <= b.month <= 12
    ensures MonthIndex(a) == MonthIndex(b) <==> a == b
    ensures MonthIndex(a) < MonthIndex(b) <==> a.year < b.year || (a.year == b.year && a.month < b.month)
  {
    if a.year < b.year {
      assert MonthIndex(a) <= a.year * 12 + 11 < b.year * 12 <= MonthIndex(b);
    } else if b.year < a.year {
      assert MonthIndex(b) <= b.year * 12 + 11 < a.year * 12 <= MonthIndex(a);
    }
  }

  /** `date + relativedelta(months=n)`: the same day, n months later. */
  function AddMonths(d: Date, n: nat): (e: Date)
    ensures MonthIndex(MonthOf(e)) == MonthIndex(MonthOf(d)) + n
    ensures e.day == d.day && 1 <= e.month <= 12
  {
    var m := MonthAt(MonthIndex(MonthOf(d)) + n);
    Date(m.year, m.month, d.day)
  }

  /** Adding no months leaves a valid date as it is. */
  lemma AddNoMonths(d: Date)
    requires ValidDate(d)
    ensures AddMonths(d, 0) == d
  {
    MonthIndexOrder(MonthOf(AddMonths(d, 0)), MonthOf(d));
  }

  /** Adding months in two steps is adding them at once. */
  lemma AddMonthsTwice(d: Date, a: nat, b: nat)
    ensures AddMonths(AddMonths(d, a), b) == AddMonths(d, a + b)
  {
    MonthIndexOrder(MonthOf(AddMonths(AddMonths(d, a), b)), MonthOf(AddMonths(d, a + b)));
  }

  /** The i-th installment of an expense: its share, dated i months after it. */
  function Installment(r: Record, i: nat): (p: Payment)
    requires r.installments != 0
    ensures p.category == r.category && p.amount == r.amount / r.installments as real
    ensures p.date.day == r.date.day && MonthIndex(MonthOf(p.date)) == MonthIndex(MonthOf(r.date)) + i
  {
    Payment(AddMonths(r.date, i), r.category, r.amount / r.installments as real)
  }

  /** The first k installments of an expense, in order. */
  function Payments(r: Record, k: nat): (ps: seq<Payment>)
    requires r.installments != 0
    ensures |ps| == k
    ensures forall i :: 0 <= i < k ==>
      && ps[i].category == r.category
      && ps[i].amount == r.amount / r.installments as real
      && ps[i].date.day == r.date.day && 1 <= ps[i].date.month <= 12
      && MonthIndex(MonthOf(ps[i].date)) == MonthIndex(MonthOf(r.date)) + i
  {
    if k == 0 then [] else Payments(r, k - 1) + [Installment(r, k - 1)]
  }

  /**
   * The payments of one expense: none for a count of 0 (skipped) or below
   * (an empty range), otherwise one per installment.
   */
  function Schedule(r: Record): (ps: seq<Payment>)
    ensures |ps| == if r.installments > 0 then r.installments else 0
  {
    if r.installments <= 0 then [] else Payments(r, r.installments)
  }

  /** The payment table: the schedules of the rows, row after row. */
  function Expansion(records: seq<Record>): seq<Payment> {
    if records == [] then []
    else Expansion(records[..|records| - 1]) + Schedule(records[|records| - 1])
  }

  /** The loops that build the payment table, row by row and installment by installment. */
  method ExpandInstallments(records: seq<Record>) returns (payments: seq<Payment>)
    ensures payments == Expansion(records)
  {
    payments := [];
    for k := 0 to |records|
      invariant payments == Expansion(records[..k])
    {
      var row := records[k];
      assert records[..k + 1][..k] == records[..k];
      if row.installments == 0 {
        continue;
      }
      var share := row.amount / row.installments as real;
      var i := 0;
      while i < row.installments
        invariant 0 <= i && (i <= row.installments || i == 0)
        invariant payments == Expansion(records[..k]) + Payments(row, i)
      {
        payments := payments + [Payment(AddMonths(row.date, i), row.category, share)];
        i := i + 1;
      }
    }
    assert records[..|records|] == records;
  }

  /** The amounts of some payments, added up. */
  function Paid(ps: seq<Payment>): real {
    if ps == [] then 0.0 else Paid(ps[..|ps| - 1]) + ps[|ps| - 1].amount
  }

  lemma {:induction false} PaidAppend(ps: seq<Payment>, qs: seq<Payment>)
    ensures Paid(ps + qs) == Paid(ps) + Paid(qs)
    decreases |qs|
  {
    if qs == [] {
      assert ps + qs == ps;
    } else {
      var front := qs[..|qs| - 1];
      PaidAppend(ps, front);
      assert (ps + qs)[..|ps + qs| - 1] == ps + front;
    }
  }

  /** n payments of the same amount add up to n times that amount. */
  lemma {:induction false} EqualPaid(ps: seq<Payment>, share: real)
    requires forall i :: 0 <= i < |ps| ==> ps[i].amount == share
    ensures Paid(ps) == |ps| as real * share
  {
    if ps != [] {
      var n := |ps|;
      EqualPaid(ps[..n - 1], share);
      assert (n - 1) as real * share + share == n as real * share;
    }
  }

  /** All c shares of an amount make the amount. */
  lemma AllShares(x: real, c: real)
    requires c != 0.0
    ensures c * (x / c) == x
  {
  }

  /** An expense spread over c >= 1 installments is paid in full. */
  lemma ScheduleTotal(r: Record)
    requires r.installments >= 1
    ensures Paid(Schedule(r)) == r.amount
  {
    var c := r.installments as real;
    assert Schedule(r) == Payments(r, r.installments);
    EqualPaid(Schedule(r), r.amount / c);
    AllShares(r.amount, c);
  }

  /**
   * When every row has at least one installment (as the load step
   * guarantees), the payment table adds up to the all-time total spend.
   */
  lemma {:induction false} ExpansionTotal(records: seq<Record>)
    requires forall i :: 0 <= i < |records| ==> records[i].installments >= 1
    ensures Paid(Expansion(records)) == Sum(records, Amount)
  {
    if records != [] {
      var front := records[..|records| - 1];
      var last := records[|records| - 1];
      ExpansionTotal(front);
      PaidAppend(Expansion(front), Schedule(last));
      ScheduleTotal(last);
    }
  }

  /** The payments dated in a given month, in order. */
  function Due(ps: seq<Payment>, m: Month): (d: seq<Payment>)
    ensures forall i :: 0 <= i < |d| ==> MonthOf(d[i].date) == m
  {
    if ps == [] then []
    else
      var last := ps[|ps| - 1];
      Due(ps[..|ps| - 1], m) + if MonthOf(last.date) == m then [last] else []
  }

  lemma {:induction false} DueAppend(ps: seq<Payment>, qs: seq<Payment>, m: Month)
    ensures Due(ps + qs, m) == Due(ps, m) + Due(qs, m)
    decreases |qs|
  {
    if qs == [] {
      assert ps + qs == ps;
    } else {
      var front := qs[..|qs| - 1];
      DueAppend(ps, front, m);
      assert (ps + qs)[..|ps + qs| - 1] == ps + front;
    }
  }

  /** Appending one payment adds it to the month's payments exactly when it is dated in that month. */
  lemma DueSnoc(ps: seq<Payment>, p: Payment, m: Month)
    ensures Due(ps + [p], m) == Due(ps, m) + if MonthOf(p.date) == m then [p] else []
  {
    assert (ps + [p])[..|ps|] == ps;
  }

  /** The i-th installment falls in month m exactly when m is i months after the expense's month. */
  lemma InstallmentMonth(r: Record, i: nat, m: Month)
    requires r.installments != 0 && 1 <= m.month <= 12
    ensures MonthOf(Installment(r, i).date) == m <==> MonthIndex(m) - MonthIndex(MonthOf(r.date)) == i
  {
    var p := Installment(r, i);
    assert 1 <= p.date.month <= 12 by {
      assert Payments(r, i + 1)[i] == p;
    }
    MonthIndexOrder(MonthOf(p.date), m);
  }

  /** Among the first k installments of an expense, the one due in month m, if any. */
  lemma {:induction false} DueOfPayments(r: Record, k: nat, m: Month)
    requires r.installments != 0 && 1 <= m.month <= 12
    ensures var offset := MonthIndex(m) - MonthIndex(MonthOf(r.date));
      Due(Payments(r, k), m) == if 0 <= offset < k then [Installment(r, offset)] else []
  {
    if k > 0 {
      DueOfPayments(r, k - 1, m);
      var front := Payments(r, k - 1);
      var p := Installment(r, k - 1);
      assert Payments(r, k) == front + [p];
      DueSnoc(front, p, m);
      InstallmentMonth(r, k - 1, m);
      var offset := MonthIndex(m) - MonthIndex(MonthOf(r.date));
      if offset == k - 1 {
        assert Due(front, m) == [];
        assert Due(Payments(r, k), m) == [p];
      } else {
        assert Due(Payments(r, k), m) == Due(front, m);
      }
    }
  }

  /**
   * Among the first k installments of an expense, the ones due in month m
   * add up to one share if m is one of their months and to nothing otherwise.
   */
  lemma PaymentsInMonth(r: Record, k: nat, m: Month)
    requires r.installments != 0 && 1 <= m.month <= 12
    ensures var offset := MonthIndex(m) - MonthIndex(MonthOf(r.date));
      Paid(Due(Payments(r, k), m)) == if 0 <= offset < k then r.amount / r.installments as real else 0.0
  {
    var offset := MonthIndex(m) - MonthIndex(MonthOf(r.date));
    DueOfPayments(r, k, m);
    if 0 <= offset < k {
      var p := Installment(r, offset);
      assert [p][..0] == [];
      assert Paid([p]) == p.amount;
    }
  }

  /**
   * An expense pays at most one installment in any month: its share in the
   * months 0..c-1 after its date, nothing in the others.
   */
  lemma ScheduleInMonth(r: Record, m: Month)
    requires r.installments >= 1 && 1 <= m.month <= 12
    ensures var offset := MonthIndex(m) - MonthIndex(MonthOf(r.date));
      Paid(Due(Schedule(r), m)) ==
        if 0 <= offset < r.installments then r.amount / r.installments as real else 0.0
  {
    PaymentsInMonth(r, r.installments, m);
  }

  /** The payments of one category. */
  function OfCategory(ps: seq<Payment>, category: string): (d: seq<Payment>)
    ensures forall i :: 0 <= i < |d| ==> d[i].category == category
  {
    if ps == [] then []
    else
      var last := ps[|ps| - 1];
      OfCategory(ps[..|ps| - 1], category) + if last.category == category then [last] else []
  }

  /** Every payment of the category is kept. */
  lemma {:induction false} OfCategoryComplete(ps: seq<Payment>, category: string)
    ensures forall i :: 0 <= i < |ps| && ps[i].category == category ==> ps[i] in OfCategory(ps, category)
  {
    if ps != [] {
      var front := ps[..|ps| - 1];
      OfCategoryComplete(front, category);
      forall i | 0 <= i < |ps| && ps[i].category == category
        ensures ps[i] in OfCategory(ps, category)
      {
        if i < |front| {
          assert ps[i] == front[i];
        }
      }
    }
  }

  /** A point in time, as `datetime.now()` returns it. */
  datatype Instant = Instant(date: Date, hour: int, minute: int, second: int, microsecond: int)

  function Midnight(d: Date): Instant {
    Instant(d, 0, 0, 0, 0)
  }

  function TimeOfDay(t: Instant): int {
    ((t.hour * 60 + t.minute) * 60 + t.second) * 1000000 + t.microsecond
  }

  /** Calendar order of dates. */
  predicate DateBefore(a: Date, b: Date) {
    a.year < b.year || (a.year == b.year && (a.month < b.month || (a.month == b.month && a.day < b.day)))
  }

  /** Time order of instants. */
  predicate Earlier(a: Instant, b: Instant) {
    DateBefore(a.date, b.date) || (a.date == b.date && TimeOfDay(a) < TimeOfDay(b))
  }

  /** The first instant of the current month. */
  function MonthStart(now: Instant): (start: Instant)
    ensures start.date == Date(now.date.year, now.date.month, 1) && TimeOfDay(start) == 0
  {
    Midnight(Date(now.date.year, now.date.month, 1))
  }

  /** The same moment a month later: the end of the window. */
  function NextMonth(start: Instant): Instant {
    start.(date := AddMonths(start.date, 1))
  }

  /** A payment (dated at midnight) falls in the month-long window from `start`. */
  predicate InWindow(p: Payment, start: Instant) {
    !Earlier(Midnight(p.date), start) && Earlier(Midnight(p.date), NextMonth(start))
  }

  /** The payments inside the window, in order. */
  function Window(ps: seq<Payment>, start: Instant): (w: seq<Payment>)
    ensures forall i :: 0 <= i < |w| ==> InWindow(w[i], start)
  {
    if ps == [] then []
    else
      var last := ps[|ps| - 1];
      Window(ps[..|ps| - 1], start) + if InWindow(last, start) then [last] else []
  }

  /** Every payment inside the window is kept. */
  lemma {:induction false} WindowComplete(ps: seq<Payment>, start: Instant)
    ensures forall i :: 0 <= i < |ps| && InWindow(ps[i], start) ==> ps[i] in Window(ps, start)
  {
    if ps != [] {
      var front := ps[..|ps| - 1];
      WindowComplete(front, start);
      forall i | 0 <= i < |ps| && InWindow(ps[i], start)
        ensures ps[i] in Window(ps, start)
      {
        if i < |front| {
          assert ps[i] == front[i];
        }
      }
    }
  }

  /** The payments of the current month. */
  function ThisMonth(ps: seq<Payment>, now: Instant): (t: seq<Payment>)
    ensures forall i :: 0 <= i < |t| ==> InWindow(t[i], MonthStart(now))
  {
    Window(ps, MonthStart(now))
  }

  /** For valid dates, the window of the current month holds exactly the payments dated in that month. */
  lemma InWindowMonth(p: Payment, now: Instant)
    requires ValidDate(p.date) && ValidDate(now.date)
    ensures InWindow(p, MonthStart(now)) <==> MonthOf(p.date) == MonthOf(now.date)
  {
    var start := MonthStart(now);
    var next := AddMonths(start.date, 1);
    MonthIndexOrder(MonthOf(p.date), MonthOf(now.date));
    MonthIndexOrder(MonthOf(p.date), MonthOf(next));
  }

  /** Over valid dates, the payments of the current month are the ones due in its calendar month. */
  lemma {:induction false} ThisMonthIsDue(ps: seq<Payment>, now: Instant)
    requires ValidDate(now.date)
    requires forall i :: 0 <= i < |ps| ==> ValidDate(ps[i].date)
    ensures ThisMonth(ps, now) == Due(ps, MonthOf(now.date))
  {
    if ps != [] {
      ThisMonthIsDue(ps[..|ps| - 1], now);
      InWindowMonth(ps[|ps| - 1], now);
    }
  }

  /** The metric "this month's total payment": 0 when nothing is due. */
  function ThisMonthTotal(ps: seq<Payment>, now: Instant): (total: real)
    ensures ThisMonth(ps, now) == [] ==> total == 0.0
  {
    Paid(ThisMonth(ps, now))
  }

  /** A category's payment this month, shown in its expander title. */
  function CategoryThisMonth(ps: seq<Payment>, now: Instant, category: string): (total: real)
    ensures ThisMonth(ps, now) == [] ==> total == 0.0
  {
    Paid(OfCategory(ThisMonth(ps, now), category))
  }

  /**
   * Over valid dates, a single expense with c >= 1 installments adds its
   * share to this month's total exactly when the current month is one of
   * the c months from its date.
   */
  lemma ThisMonthOfExpense(r: Record, now: Instant)
    requires r.installments >= 1 && ValidDate(r.date) && ValidDate(now.date)
    ensures var offset := MonthIndex(MonthOf(now.date)) - MonthIndex(MonthOf(r.date));
      ThisMonthTotal(Schedule(r), now) ==
        if 0 <= offset < r.installments then r.amount / r.installments as real else 0.0
  {
    var ps := Schedule(r);
    assert ps == Payments(r, r.installments);
    forall i | 0 <= i < |ps| ensures ValidDate(ps[i].date) { }
    ThisMonthIsDue(ps, now);
    ScheduleInMonth(r, MonthOf(now.date));
  }

  /** The rows of one category, in order: the rows behind that category's expander. */
  function RowsOf(records: seq<Record>, category: string): (rs: seq<Record>)
    ensures forall i :: 0 <= i < |rs| ==> rs[i].category == category
  {
    if records == [] then []
    else
      var last := records[|records| - 1];
      RowsOf(records[..|records| - 1], category) + if last.category == category then [last] else []
  }

  /** The rows of a category are every row of that category, each as often as in the table. */
  lemma {:induction false} RowsOfContents(records: seq<Record>, category: string)
    ensures forall x ::
      multiset(RowsOf(records, category))[x] == (if x.category == category then multiset(records)[x] else 0)
  {
    if records != [] {
      var last := records[|records| - 1];
      RowsOfContents(records[..|records| - 1], category);
      assert records == records[..|records| - 1] + [last];
    }
  }

  /** What an expense pays in month m: one share in each of its c months, nothing otherwise. */
  function ShareIn(r: Record, m: Month): real {
    var offset := MonthIndex(m) - MonthIndex(MonthOf(r.date));
    if r.installments >= 1 && 0 <= offset < r.installments then r.amount / r.installments as real else 0.0
  }

  /** The shares a run of expenses pays in month m, added up row by row. */
  function Shares(records: seq<Record>, m: Month): real {
    if records == [] then 0.0 else Shares(records[..|records| - 1], m) + ShareIn(records[|records| - 1], m)
  }

  /** A payment table built from rows with valid dates has valid payment dates. */
  lemma {:induction false} ExpansionDates(records: seq<Record>)
    requires forall i :: 0 <= i < |records| ==> ValidDate(records[i].date)
    ensures forall j :: 0 <= j < |Expansion(records)| ==> ValidDate(Expansion(records)[j].date)
  {
    if records != [] {
      var front := records[..|records| - 1];
      var last := records[|records| - 1];
      ExpansionDates(front);
      var a: seq<Payment> := Expansion(front);
      var b: seq<Payment> := Schedule(last);
      assert Expansion(records) == a + b;
      forall j | 0 <= j < |a + b| ensures ValidDate((a + b)[j].date) {
        if j >= |a| {
          assert (a + b)[j] == b[j - |a|];
        } else {
          assert (a + b)[j] == a[j];
        }
      }
    }
  }

  /** Whatever its count, an expense's payments in month m add up to its share in m. */
  lemma ScheduleShare(r: Record, m: Month)
    requires 1 <= m.month <= 12
    ensures Paid(Due(Schedule(r), m)) == ShareIn(r, m)
  {
    if r.installments >= 1 {
      ScheduleInMonth(r, m);
    } else {
      assert Schedule(r) == [];
    }
  }

  /** The payments due in month m over the whole table add up to the rows' shares in m. */
  lemma {:induction false} DueOfExpansion(records: seq<Record>, m: Month)
    requires 1 <= m.month <= 12
    ensures Paid(Due(Expansion(records), m)) == Shares(records, m)
  {
    if records != [] {
      var front := records[..|records| - 1];
      var last := records[|records| - 1];
      DueOfExpansion(front, m);
      DueAppend(Expansion(front), Schedule(last), m);
      PaidAppend(Due(Expansion(front), m), Due(Schedule(last), m));
      ScheduleShare(last, m);
    }
  }

  lemma {:induction false} OfCategoryAppend(ps: seq<Payment>, qs: seq<Payment>, category: string)
    ensures OfCategory(ps + qs, category) == OfCategory(ps, category) + OfCategory(qs, category)
    decreases |qs|
  {
    if qs == [] {
      assert ps + qs == ps;
    } else {
      var front := qs[..|qs| - 1];
      OfCategoryAppend(ps, front, category);
      assert (ps + qs)[..|ps + qs| - 1] == ps + front;
    }
  }

  /** An expense's payments in month m count for its own category only. */
  lemma ScheduleCategoryShare(r: Record, m: Month, category: string)
    requires 1 <= m.month <= 12
    ensures Paid(OfCategory(Due(Schedule(r), m), category)) ==
      if r.category == category then ShareIn(r, m) else 0.0
  {
    ScheduleShare(r, m);
    if r.installments >= 1 {
      DueOfPayments(r, r.installments, m);
      var d := Due(Schedule(r), m);
      if d != [] {
        assert d[..0] == [];
        assert OfCategory(d, category) == if r.category == category then d else [];
      }
    } else {
      assert Schedule(r) == [];
    }
  }

  /** The payments of one category due in month m, split at the last row's schedule. */
  lemma CategoryDueSnoc(records: seq<Record>, m: Month, category: string)
    requires records != []
    ensures var front := records[..|records| - 1];
      Paid(OfCategory(Due(Expansion(records), m), category)) ==
        Paid(OfCategory(Due(Expansion(front), m), category)) +
        Paid(OfCategory(Due(Schedule(records[|records| - 1]), m), category))
  {
    var front := records[..|records| - 1];
    var last := records[|records| - 1];
    var a := Due(Expansion(front), m);
    var b := Due(Schedule(last), m);
    DueAppend(Expansion(front), Schedule(last), m);
    OfCategoryAppend(a, b, category);
    PaidAppend(OfCategory(a, category), OfCategory(b, category));
  }

  /** A category's shares in month m, split at the last row. */
  lemma SharesOfRowsSnoc(records: seq<Record>, m: Month, category: string)
    requires records != []
    ensures var last := records[|records| - 1];
      Shares(RowsOf(records, category), m) ==
        Shares(RowsOf(records[..|records| - 1], category), m) +
        if last.category == category then ShareIn(last, m) else 0.0
  {
    var last := records[|records| - 1];
    var rs := RowsOf(records[..|records| - 1], category);
    if last.category == category {
      assert RowsOf(records, category) == rs + [last];
      assert (rs + [last])[..|rs|] == rs;
    } else {
      assert RowsOf(records, category) == rs;
    }
  }

  /** The payments of one category due in month m add up to that category's rows' shares in m. */
  lemma {:induction false} CategoryDueOfExpansion(records: seq<Record>, m: Month, category: string)
    requires 1 <= m.month <= 12
    ensures Paid(OfCategory(Due(Expansion(records), m), category)) == Shares(RowsOf(records, category), m)
  {
    if records != [] {
      var front := records[..|records| - 1];
      var last := records[|records| - 1];
      CategoryDueOfExpansion(front, m, category);
      CategoryDueSnoc(records, m, category);
      ScheduleCategoryShare(last, m, category);
      SharesOfRowsSnoc(records, m, category);
    }
  }

  /**
   * Over valid dates, this month's total payment over the whole payment
   * table is the sum of every expense's share in the current month.
   */
  lemma {:induction false} ThisMonthOfTable(records: seq<Record>, now: Instant)
    requires ValidDate(now.date)
    requires forall i :: 0 <= i < |records| ==> ValidDate(records[i].date)
    ensures ThisMonthTotal(Expansion(records), now) == Shares(records, MonthOf(now.date))
  {
    ExpansionDates(records);
    ThisMonthIsDue(Expansion(records), now);
    DueOfExpansion(records, MonthOf(now.date));
  }

  /**
   * Over valid dates, a category's payment this month is the sum of the
   * shares its own expenses pay in the current month.
   */
  lemma CategoryOfTable(records: seq<Record>, now: Instant, category: string)
    requires ValidDate(now.date)
    requires forall i :: 0 <= i < |records| ==> ValidDate(records[i].date)
    ensures CategoryThisMonth(Expansion(records), now, category) == Shares(RowsOf(records, category), MonthOf(now.date))
  {
    ExpansionDates(records);
    ThisMonthIsDue(Expansion(records), now);
    CategoryDueOfExpansion(records, MonthOf(now.date), category);
  }

  /**
   * The window start as the code builds it: `replace` resets the day, the
   * hour, the minute and the second, but keeps the microsecond of `now`.
   */
  function MonthStartAsWritten(now: Instant): (start: Instant)
    ensures start.date == Date(now.date.year, now.date.month, 1) && TimeOfDay(start) == now.microsecond
  {
    Instant(Date(now.date.year, now.date.month, 1), 0, 0, 0, now.microsecond)
  }

  /** The payments of the current month, as the code selects them. */
  function ThisMonthAsWritten(ps: seq<Payment>, now: Instant): (t: seq<Payment>)
    ensures forall i :: 0 <= i < |t| ==> InWindow(t[i], MonthStartAsWritten(now))
  {
    Window(ps, MonthStartAsWritten(now))
  }

  /**
   * With a non-zero microsecond on the clock, a payment dated on the first
   * of the current month falls outside the window as written, and one dated
   * on the first of the next month falls inside it.
   */
  lemma WindowAsWrittenShifted(now: Instant, category: string, amount: real)
    requires ValidDate(now.date) && now.microsecond > 0
    ensures var first := Date(now.date.year, now.date.month, 1);
      && !InWindow(Payment(first, category, amount), MonthStartAsWritten(now))
      && InWindow(Payment(AddMonths(first, 1), category, amount), MonthStartAsWritten(now))
  {
    var first := Date(now.date.year, now.date.month, 1);
    MonthIndexOrder(MonthOf(first), MonthOf(AddMonths(first, 1)));
  }

  /**
   * The corrected window holds the first of the current month and not the
   * first of the next one.
   */
  lemma WindowFirsts(now: Instant, category: string, amount: real)
    requires ValidDate(now.date)
    ensures var first := Date(now.date.year, now.date.month, 1);
      && InWindow(Payment(first, category, amount), MonthStart(now))
      && !InWindow(Payment(AddMonths(first, 1), category, amount), MonthStart(now))
  {
    var first := Date(now.date.year, now.date.month, 1);
    InWindowMonth(Payment(first, category, amount), now);
    InWindowMonth(Payment(AddMonths(first, 1), category, amount), now);
    MonthIndexOrder(MonthOf(first), MonthOf(AddMonths(first, 1)));
  }

  /** The window over two payments keeps each one that lies inside it, in order. */
  lemma WindowOfTwo(a: Payment, b: Payment, start: Instant)
    ensures Window([a, b], start) ==
      (if InWindow(a, start) then [a] else []) + (if InWindow(b, start) then [b] else [])
  {
    assert [a, b][..1] == [a] && [a][..0] == [];
    assert Window([a], start) == Window([], start) + if InWindow(a, start) then [a] else [];
  }

  /**
   * Two installments of one expense, due on the first of this month and on
   * the first of the next: with a non-zero microsecond on the clock the
   * month's list as written holds only the next month's, while the corrected
   * one holds only this month's (for instance on 15 October 2026 at
   * 12:00:00.000001, the October installment is dropped and the November one
   * is shown).
   */
  lemma WindowExample(now: Instant, category: string, amount: real)
    requires ValidDate(now.date) && now.microsecond > 0
    ensures var first := Payment(Date(now.date.year, now.date.month, 1), category, amount);
      var next := Payment(AddMonths(first.date, 1), category, amount);
      && ThisMonthAsWritten([first, next], now) == [next]
      && ThisMonth([first, next], now) == [first]
  {
    var first := Payment(Date(now.date.year, now.date.month, 1), category, amount);
    var next := Payment(AddMonths(first.date, 1), category, amount);
    WindowAsWrittenShifted(now, category, amount);
    WindowFirsts(now, category, amount);
    WindowOfTwo(first, next, MonthStartAsWritten(now));
    WindowOfTwo(first, next, MonthStart(now));
  }
}
