/**
 * The data management tab (arac_uygulamasi.py lines 471-541): the filter
 * that picks the rows shown in the editor, and the save step that puts the
 * rows outside the filter back together with the edited ones and cleans
 * the result (installment count at least 1, blank text cells emptied).
 */
module Editing {
  import opened Records
  import opened Wrappers
  import opened Installments

  /**
   * The three filter widgets: chosen categories (none chosen means no
   * filter), a date range when both ends are picked, and a search text
   * (empty means no filter).
   */
  datatype Filter = Filter(categories: set<string>, range: Option<(Date, Date)>, search: string)

  /** ASCII letters folded to lower case; every other character kept. */
  function Lower(c: char): char {
    if 'A' <= c <= 'Z' then (c as int - 'A' as int + 'a' as int) as char else c
  }

  function LowerAll(s: string): (r: string)
    ensures |r| == |s| && forall i :: 0 <= i < |s| ==> r[i] == Lower(s[i])
  {
    if s == [] then [] else LowerAll(s[..|s| - 1]) + [Lower(s[|s| - 1])]
  }

  /** `part` occurs in `text` starting at position i. */
  predicate OccursAt(text: string, part: string, i: int) {
    0 <= i && i + |part| <= |text| && text[i..i + |part|] == part
  }

  /** `part` occurs somewhere in `text`. */
  predicate Contains(text: string, part: string) {
    exists i :: 0 <= i <= |text| - |part| && OccursAt(text, part, i)
  }

  /** Whether a row passes all three filters. */
  predicate Matches(f: Filter, r: Record) {
    && (f.categories == {} || r.category in f.categories)
    && (f.range.None? || (!DateBefore(r.date, f.range.value.0) && !DateBefore(f.range.value.1, r.date)))
    && (f.search == "" || Contains(LowerAll(r.description), LowerAll(f.search)))
  }

  /** The rows shown in the editor, in sheet order. */
  function Select(records: seq<Record>, f: Filter): (s: seq<Record>)
    ensures forall i :: 0 <= i < |s| ==> Matches(f, s[i])
    ensures |s| <= |records|
  {
    if records == [] then []
    else
      var last := records[|records| - 1];
      Select(records[..|records| - 1], f) + if Matches(f, last) then [last] else []
  }

  /** The rows the filter leaves out, in sheet order. */
  function Rest(records: seq<Record>, f: Filter): (s: seq<Record>)
    ensures forall i :: 0 <= i < |s| ==> !Matches(f, s[i])
    ensures |s| <= |records|
  {
    if records == [] then []
    else
      var last := records[|records| - 1];
      Rest(records[..|records| - 1], f) + if Matches(f, last) then [] else [last]
  }

  /** Every row is either shown or left out, exactly once. */
  lemma {:induction false} SelectRestPartition(records: seq<Record>, f: Filter)
    ensures multiset(Select(records, f)) + multiset(Rest(records, f)) == multiset(records)
  {
    if records != [] {
      var front := records[..|records| - 1];
      var last := records[|records| - 1];
      SelectRestPartition(front, f);
      assert records == front + [last];
      assert multiset(records) == multiset(front) + multiset{last};
      if Matches(f, last) {
        assert Select(records, f) == Select(front, f) + [last];
        assert Rest(records, f) == Rest(front, f) + [];
      } else {
        assert Select(records, f) == Select(front, f) + [];
        assert Rest(records, f) == Rest(front, f) + [last];
      }
    }
  }

  /** A filter that every row passes shows the whole sheet and leaves nothing out. */
  lemma {:induction false} SelectEverything(records: seq<Record>, f: Filter)
    requires forall i :: 0 <= i < |records| ==> Matches(f, records[i])
    ensures Select(records, f) == records && Rest(records, f) == []
  {
    if records != [] {
      SelectEverything(records[..|records| - 1], f);
      assert records == records[..|records| - 1] + [records[|records| - 1]];
    }
  }

  /** With no category chosen, no range and no search text, every row passes. */
  lemma NoFilterSelectsAll(records: seq<Record>)
    ensures Select(records, Filter({}, None, "")) == records
    ensures Rest(records, Filter({}, None, "")) == []
  {
    SelectEverything(records, Filter({}, None, ""));
  }

  /**
   * The search ignores ASCII case: a description that contains some text
   * spelt like the search text up to case matches it.
   */
  lemma SearchIgnoresCase(r: Record, search: string, spelt: string)
    requires search != "" && Contains(r.description, spelt) && LowerAll(spelt) == LowerAll(search)
    ensures Matches(Filter({}, None, search), r)
  {
    var i :| 0 <= i <= |r.description| - |spelt| && OccursAt(r.description, spelt, i);
    var text := LowerAll(r.description);
    var part := LowerAll(search);
    assert text[i..i + |part|] == part;
    assert OccursAt(text, part, i);
  }

  /**
   * The characters `\s` matches in a text pattern: the ASCII white space,
   * the information separators U+001C..U+001F, and the Unicode spaces and
   * line separators.
   */
  predicate Space(c: char) {
    var n := c as int;
    || n == 0x20 || 0x09 <= n <= 0x0D || 0x1C <= n <= 0x1F
    || n == 0x85 || n == 0xA0 || n == 0x1680 || 0x2000 <= n <= 0x200A
    || n == 0x2028 || n == 0x2029 || n == 0x202F || n == 0x205F || n == 0x3000
  }

  /** A text cell with nothing but white space (or nothing at all). */
  predicate Blank(s: string) {
    forall i :: 0 <= i < |s| ==> Space(s[i])
  }

  /** A blank cell is saved as empty. */
  function Unblank(s: string): (r: string)
    ensures Blank(s) ==> r == ""
    ensures !Blank(s) ==> r == s
  {
    if Blank(s) then "" else s
  }

  /** The type repair after editing: the installment count is clamped, blank text cells emptied. */
  function Clean(r: Record): (c: Record)
    ensures c.installments >= 1
    ensures r.installments >= 1 ==> c.installments == r.installments
    ensures c.date == r.date && c.km == r.km && c.amount == r.amount && c.litres == r.litres
    ensures c.category == Unblank(r.category) && c.description == Unblank(r.description)
    ensures c.fillType == Unblank(r.fillType)
    ensures !Blank(c.category) || c.category == ""
  {
    r.(category := Unblank(r.category),
       description := Unblank(r.description),
       installments := if r.installments < 1 then 1 else r.installments,
       fillType := Unblank(r.fillType))
  }

  /** Cleaning twice is cleaning once. */
  lemma CleanIdempotent(r: Record)
    ensures Clean(Clean(r)) == Clean(r)
  {
  }

  /** A row the save step would not change. */
  predicate IsClean(r: Record) {
    Clean(r) == r
  }

  function CleanAll(rs: seq<Record>): (c: seq<Record>)
    ensures |c| == |rs|
    ensures forall i :: 0 <= i < |rs| ==> c[i] == Clean(rs[i])
  {
    if rs == [] then [] else CleanAll(rs[..|rs| - 1]) + [Clean(rs[|rs| - 1])]
  }

  /** The sheet after saving: the rows left out by the filter, then the edited rows, cleaned. */
  function Merge(records: seq<Record>, f: Filter, edited: seq<Record>): (m: seq<Record>)
    ensures |m| == |Rest(records, f)| + |edited|
    ensures forall i :: 0 <= i < |m| ==> m[i].installments >= 1
  {
    CleanAll(Rest(records, f) + edited)
  }

  /** The rows outside the filter come back first and untouched (up to cleaning). */
  lemma MergeKeepsRest(records: seq<Record>, f: Filter, edited: seq<Record>)
    ensures Merge(records, f, edited)[..|Rest(records, f)|] == CleanAll(Rest(records, f))
    ensures Merge(records, f, edited)[|Rest(records, f)|..] == CleanAll(edited)
  {
    CleanAllAppend(Rest(records, f), edited);
  }

  /** Cleaning works row by row. */
  lemma CleanAllAppend(a: seq<Record>, b: seq<Record>)
    ensures CleanAll(a + b) == CleanAll(a) + CleanAll(b)
  {
    var l := CleanAll(a + b);
    var r := CleanAll(a) + CleanAll(b);
    forall i | 0 <= i < |l| ensures l[i] == r[i] {
      if i < |a| {
        assert (a + b)[i] == a[i];
      } else {
        assert (a + b)[i] == b[i - |a|];
      }
    }
  }

  /** Rows that are already clean come through cleaning unchanged. */
  lemma CleanAllClean(rs: seq<Record>)
    requires forall i :: 0 <= i < |rs| ==> IsClean(rs[i])
    ensures CleanAll(rs) == rs
  {
  }

  /**
   * Saving without editing anything loses no row and adds none: the merged
   * sheet holds the rows of the old one, each as often as before.
   */
  lemma MergeUnedited(records: seq<Record>, f: Filter)
    requires forall i :: 0 <= i < |records| ==> IsClean(records[i])
    ensures multiset(Merge(records, f, Select(records, f))) == multiset(records)
  {
    var rest := Rest(records, f);
    var shown := Select(records, f);
    SelectRestPartition(records, f);
    forall i | 0 <= i < |rest + shown| ensures IsClean((rest + shown)[i]) {
      var x := (rest + shown)[i];
      assert x in multiset(records);
    }
    CleanAllClean(rest + shown);
  }
}
