/**
 * Reading the sheet back (arac_uygulamasi.py lines 126-157): the header
 * check, the decimal-comma rewrite of the numeric columns, their coercion
 * to numbers with 0 for anything unreadable, the clamp of the installment
 * count, and the dropping of rows without a date. The date parser is a
 * parameter; numbers are read by a small parser of `[-]digits[.digits]`.
 */
module Loading {
  import opened Records
  import opened Wrappers
  import opened Installments

  /** The header row the sheet must have, column for column. */
  const RequiredColumns: seq<string> := [
    "Tarih", "KM Sayacı", "Masraf Türü", "Tutar", "Açıklama",
    "Taksit Sayısı", "Litre", "Dolum Türü"]

  /** `str.replace(c, '')`: the string without any `c`, the rest in order. */
  function Remove(s: string, c: char): (r: string)
    ensures |r| <= |s| && forall i :: 0 <= i < |r| ==> r[i] != c
  {
    if s == [] then []
    else
      var last := s[|s| - 1];
      Remove(s[..|s| - 1], c) + if last == c then [] else [last]
  }

  /** `str.replace(a, b)` for single characters: every `a` becomes `b`, nothing else moves. */
  function Replace(s: string, a: char, b: char): (r: string)
    ensures |r| == |s|
    ensures forall i :: 0 <= i < |s| ==> r[i] == if s[i] == a then b else s[i]
  {
    if s == [] then []
    else
      var last := s[|s| - 1];
      Replace(s[..|s| - 1], a, b) + [if last == a then b else last]
  }

  /** The rewrite of a numeric cell: thousands points dropped, then the decimal comma made a point. */
  function Normalise(s: string): (r: string)
    ensures |r| <= |s| && forall i :: 0 <= i < |r| ==> r[i] != ','
  {
    Replace(Remove(s, '.'), ',', '.')
  }

  /** How often a character occurs. */
  function Count(s: string, c: char): nat {
    if s == [] then 0 else Count(s[..|s| - 1], c) + if s[|s| - 1] == c then 1 else 0
  }

  lemma {:induction false} ReplaceCount(s: string, a: char, b: char)
    requires a != b && b !in s
    ensures Count(Replace(s, a, b), b) == Count(s, a)
  {
    if s != [] {
      var front := s[..|s| - 1];
      assert b !in front by {
        forall i | 0 <= i < |front| ensures front[i] != b {
          assert front[i] == s[i];
        }
      }
      ReplaceCount(front, a, b);
      assert Replace(s, a, b)[..|s| - 1] == Replace(front, a, b);
    }
  }

  lemma {:induction false} RemoveCount(s: string, c: char, d: char)
    requires c != d
    ensures Count(Remove(s, c), d) == Count(s, d)
  {
    if s != [] {
      var front := s[..|s| - 1];
      var last := s[|s| - 1];
      RemoveCount(front, c, d);
      var tail := if last == c then [] else [last];
      CountAppend(Remove(front, c), tail, d);
    }
  }

  lemma {:induction false} CountAppend(a: string, b: string, c: char)
    ensures Count(a + b, c) == Count(a, c) + Count(b, c)
    decreases |b|
  {
    if b == [] {
      assert a + b == a;
    } else {
      CountAppend(a, b[..|b| - 1], c);
      assert (a + b)[..|a + b| - 1] == a + b[..|b| - 1];
    }
  }

  /**
   * After the rewrite no comma is left, and there are as many points as the
   * cell had commas: the points the cell had are gone.
   */
  lemma NormalisedMarks(s: string)
    ensures ',' !in Normalise(s)
    ensures Count(Normalise(s), '.') == Count(s, ',')
  {
    var r := Remove(s, '.');
    ReplaceCount(r, ',', '.');
    RemoveCount(s, '.', ',');
  }

  /** A cell with neither mark passes through the rewrite unchanged. */
  lemma {:induction false} NormalisePlain(s: string)
    requires '.' !in s && ',' !in s
    ensures Normalise(s) == s
  {
    RemovePlain(s);
  }

  lemma {:induction false} RemovePlain(s: string)
    requires '.' !in s
    ensures Remove(s, '.') == s
  {
    if s != [] {
      var front := s[..|s| - 1];
      assert '.' !in front by {
        forall i | 0 <= i < |front| ensures front[i] != '.' {
          assert front[i] == s[i];
        }
      }
      RemovePlain(front);
      assert s[|s| - 1] != '.';
      assert s == front + [s[|s| - 1]];
    }
  }

  lemma {:induction false} RemoveAppend(a: string, b: string, c: char)
    ensures Remove(a + b, c) == Remove(a, c) + Remove(b, c)
    decreases |b|
  {
    if b == [] {
      assert a + b == a;
    } else {
      var front := b[..|b| - 1];
      var last := b[|b| - 1];
      RemoveAppend(a, front, c);
      assert (a + b)[..|a + b| - 1] == a + front;
      var tail := if last == c then [] else [last];
      assert Remove(a + b, c) == Remove(a + front, c) + tail;
      assert Remove(b, c) == Remove(front, c) + tail;
    }
  }

  lemma ReplaceAppend(a: string, b: string, x: char, y: char)
    ensures Replace(a + b, x, y) == Replace(a, x, y) + Replace(b, x, y)
  {
  }

  /** The rewrite works character by character, so it distributes over concatenation. */
  lemma NormaliseAppend(a: string, b: string)
    ensures Normalise(a + b) == Normalise(a) + Normalise(b)
  {
    RemoveAppend(a, b, '.');
    ReplaceAppend(Remove(a, '.'), Remove(b, '.'), ',', '.');
  }

  predicate IsDigit(c: char) {
    '0' <= c <= '9'
  }

  predicate AllDigits(s: string) {
    forall i :: 0 <= i < |s| ==> IsDigit(s[i])
  }

  /** The value of a run of decimal digits; 0 for none. */
  function DigitsValue(s: string): nat
    requires AllDigits(s)
  {
    if s == [] then 0 else DigitsValue(s[..|s| - 1]) * 10 + (s[|s| - 1] as int - '0' as int)
  }

  function Pow10(n: nat): (p: nat)
    ensures p >= 1
  {
    if n == 0 then 1 else 10 * Pow10(n - 1)
  }

  /** Where the first point is, or the length when there is none. */
  function PointAt(s: string): (k: nat)
    ensures k <= |s|
    ensures forall i :: 0 <= i < k ==> s[i] != '.'
    ensures k < |s| ==> s[k] == '.'
  {
    if s == [] then 0
    else if s[0] == '.' then 0
    else 1 + PointAt(s[1..])
  }

  /** An unsigned decimal: digits, optionally a point and more digits, at least one digit in all. */
  function ParseUnsigned(s: string): (r: Option<real>)
    ensures r.Some? ==> r.value >= 0.0
  {
    var k := PointAt(s);
    var whole := s[..k];
    var fraction := if k < |s| then s[k + 1..] else [];
    if AllDigits(whole) && AllDigits(fraction) && |whole| + |fraction| > 0 then
      Some(Decimal(DigitsValue(whole), DigitsValue(fraction), |fraction|))
    else None
  }

  /** A whole part and a fraction of a number of decimal places. */
  function Decimal(whole: nat, fraction: nat, places: nat): (v: real)
    ensures v >= 0.0
  {
    whole as real + fraction as real / Pow10(places) as real
  }

  /** The numbers the model reads: an optional minus sign before an unsigned decimal. */
  function ParseNumber(s: string): (r: Option<real>)
    ensures r.Some? && r.value < 0.0 ==> s != [] && s[0] == '-'
  {
    if s != [] && s[0] == '-' then
      match ParseUnsigned(s[1..])
      case Some(v) => Some(-v)
      case None => None
    else ParseUnsigned(s)
  }

  /** A numeric cell: rewritten, parsed, and 0 where it cannot be read. */
  function Coerce(cell: string): (v: real)
    ensures ParseNumber(Normalise(cell)).None? ==> v == 0.0
  {
    match ParseNumber(Normalise(cell))
    case Some(v) => v
    case None => 0.0
  }

  /** The installment count as loaded: below 1 becomes 1, anything else is cut to a whole number. */
  function ClampInstallments(x: real): (c: int)
    ensures c >= 1
    ensures x < 1.0 ==> c == 1
    ensures x >= 1.0 ==> c as real <= x < c as real + 1.0
  {
    if x < 1.0 then 1 else x.Floor
  }

  /**
   * The k-th cell of a data row. A row shorter than the header is padded
   * with missing cells when the frame is built; a missing cell reads as
   * empty here.
   */
  function Cell(row: seq<string>, k: nat): string {
    if k < |row| then row[k] else ""
  }

  /** One data row, or None when its date cannot be read (the row is then dropped). */
  function LoadRow(row: seq<string>, parseDate: string -> Option<Date>): (r: Option<Record>)
    ensures r.Some? <==> parseDate(Cell(row, 0)).Some?
    ensures r.Some? ==> && r.value.date == parseDate(Cell(row, 0)).value
                        && r.value.km == Coerce(Cell(row, 1)).Floor
                        && r.value.category == Cell(row, 2)
                        && r.value.amount == Coerce(Cell(row, 3))
                        && r.value.description == Cell(row, 4)
                        && r.value.installments == ClampInstallments(Coerce(Cell(row, 5)))
                        && r.value.litres == Coerce(Cell(row, 6))
                        && r.value.fillType == Cell(row, 7)
    ensures r.Some? ==> r.value.installments >= 1
  {
    match parseDate(Cell(row, 0))
    case None => None
    case Some(date) =>
      Some(Record(date, Coerce(Cell(row, 1)).Floor, Cell(row, 2), Coerce(Cell(row, 3)), Cell(row, 4),
                  ClampInstallments(Coerce(Cell(row, 5))), Coerce(Cell(row, 6)), Cell(row, 7)))
  }

  /** How many data rows have a date that can be read. */
  function Dated(rows: seq<seq<string>>, parseDate: string -> Option<Date>): nat {
    if rows == [] then 0
    else Dated(rows[..|rows| - 1], parseDate) + if parseDate(Cell(rows[|rows| - 1], 0)).Some? then 1 else 0
  }

  /** The data rows in order, those without a date left out. */
  function LoadRows(rows: seq<seq<string>>, parseDate: string -> Option<Date>): (r: seq<Record>)
    ensures |r| == Dated(rows, parseDate) <= |rows|
    ensures forall i :: 0 <= i < |r| ==> r[i].installments >= 1
  {
    if rows == [] then []
    else
      var front := LoadRows(rows[..|rows| - 1], parseDate);
      match LoadRow(rows[|rows| - 1], parseDate)
      case None => front
      case Some(record) => front + [record]
  }

  /** The rows loaded from all but the last row come first; a dated last row follows them. */
  lemma LoadRowsSnoc(rows: seq<seq<string>>, parseDate: string -> Option<Date>)
    requires rows != []
    ensures var loaded := LoadRows(rows[..|rows| - 1], parseDate);
      && LoadRows(rows, parseDate)[..|loaded|] == loaded
      && (parseDate(Cell(rows[|rows| - 1], 0)).Some? ==>
            LoadRows(rows, parseDate)[|loaded|] == LoadRow(rows[|rows| - 1], parseDate).value)
  {
  }

  /**
   * A row whose date can be read is loaded, and it is loaded after exactly
   * the dated rows before it: the loaded rows are the dated rows, in order.
   */
  lemma {:induction false} LoadRowsKeeps(rows: seq<seq<string>>, parseDate: string -> Option<Date>, i: nat)
    requires i < |rows| && parseDate(Cell(rows[i], 0)).Some?
    ensures Dated(rows[..i], parseDate) < |LoadRows(rows, parseDate)|
    ensures LoadRows(rows, parseDate)[Dated(rows[..i], parseDate)] == LoadRow(rows[i], parseDate).value
  {
    var front := rows[..|rows| - 1];
    LoadRowsSnoc(rows, parseDate);
    if i == |rows| - 1 {
      assert rows[..i] == front;
    } else {
      LoadRowsKeeps(front, parseDate, i);
      assert front[..i] == rows[..i];
      assert front[i] == rows[i];
    }
  }

  /**
   * The frame can be built: it takes the width of its widest data row, and
   * that width must be the header's. A row wider than the header, or data
   * rows that are all narrower, make building it fail; narrower rows beside
   * a full-width one are padded.
   */
  predicate FrameBuilds(data: seq<seq<string>>) {
    && (forall i :: 1 <= i < |data| ==> |data[i]| <= |RequiredColumns|)
    && (exists i :: 1 <= i < |data| && |data[i]| == |RequiredColumns|)
  }

  /**
   * The whole load: no rows unless there is a header and at least one data
   * row, the header is the required one and the frame can be built
   * (otherwise the error path gives no rows); then the data rows as loaded.
   */
  function LoadSheet(data: seq<seq<string>>, parseDate: string -> Option<Date>): (r: seq<Record>)
    ensures |data| < 2 || data[0] != RequiredColumns || !FrameBuilds(data) ==> r == []
    ensures |data| >= 2 && data[0] == RequiredColumns && FrameBuilds(data) ==>
      r == LoadRows(data[1..], parseDate)
    ensures |r| <= |data|
    ensures forall i :: 0 <= i < |r| ==> r[i].installments >= 1
  {
    if |data| < 2 || data[0] != RequiredColumns || !FrameBuilds(data) then []
    else LoadRows(data[1..], parseDate)
  }

  /** A sheet whose only data row is narrower than the header cannot be built as a frame, so it loads nothing. */
  lemma NarrowSheetLoadsNothing(row: seq<string>, parseDate: string -> Option<Date>)
    requires |row| < |RequiredColumns|
    ensures LoadSheet([RequiredColumns, row], parseDate) == []
  {
    assert !FrameBuilds([RequiredColumns, row]);
  }

  /** When every date can be read, every row counts as dated. */
  lemma {:induction false} AllDated(rows: seq<seq<string>>, parseDate: string -> Option<Date>)
    requires forall i :: 0 <= i < |rows| ==> parseDate(Cell(rows[i], 0)).Some?
    ensures Dated(rows, parseDate) == |rows|
  {
    if rows != [] {
      AllDated(rows[..|rows| - 1], parseDate);
    }
  }

  /** When every date can be read, every data row is loaded, in order. */
  lemma LoadAllDated(rows: seq<seq<string>>, parseDate: string -> Option<Date>)
    requires forall i :: 0 <= i < |rows| ==> parseDate(Cell(rows[i], 0)).Some?
    ensures |LoadRows(rows, parseDate)| == |rows|
    ensures forall i :: 0 <= i < |rows| ==>
      LoadRow(rows[i], parseDate).Some? && LoadRows(rows, parseDate)[i] == LoadRow(rows[i], parseDate).value
  {
    AllDated(rows, parseDate);
    forall i | 0 <= i < |rows|
      ensures LoadRow(rows[i], parseDate).Some?
      ensures LoadRows(rows, parseDate)[i] == LoadRow(rows[i], parseDate).value
    {
      LoadRowsKeeps(rows, parseDate, i);
      AllDated(rows[..i], parseDate);
    }
  }

  /**
   * Since every loaded row has at least one installment, the payment table
   * of a loaded sheet adds up to its total spend.
   */
  lemma LoadedPaymentsTotal(data: seq<seq<string>>, parseDate: string -> Option<Date>)
    ensures Paid(Expansion(LoadSheet(data, parseDate))) == Sum(LoadSheet(data, parseDate), Amount)
  {
    ExpansionTotal(LoadSheet(data, parseDate));
  }

  /** The digits of a whole number, most significant first. */
  function Digits(n: nat): (s: string)
    ensures |s| >= 1 && AllDigits(s) && DigitsValue(s) == n
  {
    if n < 10 then [('0' as int + n) as char]
    else
      var front := Digits(n / 10);
      var s := front + [('0' as int + n % 10) as char];
      assert s[..|s| - 1] == front;
      s
  }

  /**
   * An amount of n hundredths as the save step writes it: two decimals
   * with a decimal comma (`f"{x:.2f}"` then `.replace('.', ',')`).
   */
  function SaveHundredths(n: int): string {
    if n < 0 then ['-'] + SaveUnsigned(-n) else SaveUnsigned(n)
  }

  /** The digits of the whole units, a comma, and the two digits of the cents. */
  function SaveUnsigned(m: nat): string {
    Digits(m / 100) + [','] + Cents(m % 100)
  }

  /** The two digits of the cents. */
  function Cents(cents: nat): (s: string)
    requires cents < 100
    ensures |s| == 2 && AllDigits(s) && DigitsValue(s) == cents
  {
    var s := [('0' as int + cents / 10) as char, ('0' as int + cents % 10) as char];
    assert s[..1] == [s[0]] && [s[0]][..0] == [];
    assert DigitsValue(s[..1]) == cents / 10;
    s
  }

  /** The rewrite turns the saved decimal comma back into a point. */
  lemma NormaliseSaved(whole: string, fraction: string)
    requires AllDigits(whole) && AllDigits(fraction)
    ensures Normalise(whole + [','] + fraction) == whole + ['.'] + fraction
  {
    NormalisePlain(whole);
    NormalisePlain(fraction);
    NormaliseMarks();
    NormaliseAppend(whole + [','], fraction);
    NormaliseAppend(whole, [',']);
  }

  /** Digits, a point and digits read as the whole part plus the fraction. */
  lemma ParseDecimal(whole: string, fraction: string)
    requires AllDigits(whole) && AllDigits(fraction) && whole != []
    ensures ParseUnsigned(whole + ['.'] + fraction) == Some(Decimal(DigitsValue(whole), DigitsValue(fraction), |fraction|))
  {
    var text := whole + ['.'] + fraction;
    PointAfterDigits(whole, fraction);
    var k := PointAt(text);
    assert text[..k] == whole;
    assert (if k < |text| then text[k + 1..] else []) == fraction;
  }

  /** Whole units and two places of cents make the amount in hundredths. */
  lemma DecimalCents(m: nat)
    ensures Decimal(m / 100, m % 100, 2) == m as real / 100.0
  {
    assert Pow10(2) == 100;
    assert m == (m / 100) * 100 + m % 100;
  }

  /** The saved digits of an amount read back as a point-separated decimal. */
  lemma ParseSaved(m: nat)
    ensures Normalise(SaveUnsigned(m)) == Digits(m / 100) + ['.'] + Cents(m % 100)
    ensures ParseUnsigned(Normalise(SaveUnsigned(m))) == Some(m as real / 100.0)
  {
    NormaliseSaved(Digits(m / 100), Cents(m % 100));
    ParseDecimal(Digits(m / 100), Cents(m % 100));
    DecimalCents(m);
  }

  /** A saved amount without a sign reads back as the same amount, and with a minus sign as its negation. */
  lemma ReadBackUnsigned(m: nat, signed: string)
    requires signed == ['-'] + SaveUnsigned(m)
    ensures Coerce(SaveUnsigned(m)) == m as real / 100.0
    ensures Coerce(signed) == -(m as real / 100.0)
  {
    ParseSaved(m);
    var point := Digits(m / 100) + ['.'] + Cents(m % 100);
    assert point[0] == Digits(m / 100)[0];
    ReadBack(SaveUnsigned(m), point, m as real / 100.0, signed);
  }

  /** A cell whose rewrite reads as an unsigned number, with and without a minus sign before it. */
  lemma ReadBack(cell: string, point: string, v: real, signed: string)
    requires Normalise(cell) == point && point != [] && IsDigit(point[0])
    requires ParseUnsigned(point) == Some(v)
    requires signed == ['-'] + cell
    ensures Coerce(cell) == v && Coerce(signed) == -v
  {
    UnsignedCell(cell, v);
    SignedCell(cell, v);
  }

  /** A cell that reads as an unsigned number without a sign. */
  lemma UnsignedCell(cell: string, v: real)
    requires ParseUnsigned(Normalise(cell)) == Some(v)
    requires Normalise(cell) != [] && Normalise(cell)[0] != '-'
    ensures Coerce(cell) == v
  {
  }

  /** The same cell behind a minus sign reads as the negated number. */
  lemma SignedCell(cell: string, v: real)
    requires ParseUnsigned(Normalise(cell)) == Some(v)
    ensures Coerce(['-'] + cell) == -v
  {
    NormaliseAppend(['-'], cell);
    assert ['-'][..0] == [];
    assert (['-'] + Normalise(cell))[1..] == Normalise(cell);
  }

  /** A saved amount reads back as the same amount. */
  lemma SaveLoadRoundTrip(n: int)
    ensures Coerce(SaveHundredths(n)) == n as real / 100.0
  {
    if n < 0 {
      ReadBackUnsigned(-n, SaveHundredths(n));
    } else {
      ReadBackUnsigned(n, ['-'] + SaveHundredths(n));
    }
  }

  lemma PointAfterDigits(whole: string, rest: string)
    requires AllDigits(whole)
    ensures PointAt(whole + ['.'] + rest) == |whole|
    decreases |whole|
  {
    if whole != [] {
      assert (whole + ['.'] + rest)[1..] == whole[1..] + ['.'] + rest;
      PointAfterDigits(whole[1..], rest);
    }
  }

  /** A thousands point is dropped and the decimal comma becomes the point. */
  lemma NormaliseThousands(high: string, low: string, fraction: string)
    requires AllDigits(high) && AllDigits(low) && AllDigits(fraction)
    ensures Normalise(high + ['.'] + low + [','] + fraction) == high + low + ['.'] + fraction
  {
    NormaliseMarks();
    NormalisePlain(high);
    NormalisePlain(low);
    NormalisePlain(fraction);
    NormaliseAppend(high, ['.']);
    assert Normalise(high + ['.']) == high;
    NormaliseAppend(high + ['.'], low);
    assert Normalise(high + ['.'] + low) == high + low;
    NormaliseAppend(high + ['.'] + low, [',']);
    assert Normalise(high + ['.'] + low + [',']) == high + low + ['.'];
    NormaliseAppend(high + ['.'] + low + [','], fraction);
  }

  /** A lone point is dropped; a lone comma becomes a point. */
  lemma NormaliseMarks()
    ensures Normalise(['.']) == [] && Normalise([',']) == ['.']
  {
    assert ['.'][..0] == [] && [','][..0] == [];
  }

  /**
   * A cell written with a thousands point and a decimal comma, such as
   * "1.234,56", reads as the number its digits spell: 1234.56.
   */
  lemma ThousandsCell(high: string, low: string, fraction: string)
    requires AllDigits(high) && AllDigits(low) && AllDigits(fraction) && high != []
    ensures Coerce(high + ['.'] + low + [','] + fraction) ==
      Decimal(DigitsValue(high + low), DigitsValue(fraction), |fraction|)
  {
    var cell := high + ['.'] + low + [','] + fraction;
    var digits := high + low;
    NormaliseThousands(high, low, fraction);
    assert AllDigits(digits) by {
      forall i | 0 <= i < |digits| ensures IsDigit(digits[i]) {
        if i < |high| {
          assert digits[i] == high[i];
        } else {
          assert digits[i] == low[i - |high|];
        }
      }
    }
    ParseDecimal(digits, fraction);
    var point := digits + ['.'] + fraction;
    assert point[0] == high[0];
    ReadBack(cell, point, Decimal(DigitsValue(digits), DigitsValue(fraction), |fraction|), ['-'] + cell);
  }
}
