/**
 * The sidebar selection and the boolean mask of `filtered_df`: a row is kept
 * when its type is selected, its `year_added` lies in the inclusive year
 * range, and its country is present and selected (`isin` never matches a
 * missing country).
 */
module Filtering {
  import opened Wrappers
  import opened Records

  /** The three sidebar selections. The country list never holds a missing value. */
  datatype Selection = Selection(types: set<string>, yearFrom: int, yearTo: int, countries: set<string>)

  /** The conjunction of the three masks of `filtered_df`. */
  predicate Matches(sel: Selection, rec: Record) {
    && rec.kind in sel.types
    && sel.yearFrom <= rec.yearAdded <= sel.yearTo
    && rec.country.Some? && rec.country.value in sel.countries
  }

  /** `filtered_df`: the matching rows of the table, in table order. */
  function Filter(table: seq<Record>, sel: Selection): (view: seq<Record>)
    ensures IsSubsequence(view, table)
    ensures forall rec :: rec in view <==> rec in table && Matches(sel, rec)
  {
    if table == [] then []
    else if Matches(sel, table[0]) then [table[0]] + Filter(table[1..], sel)
    else Filter(table[1..], sel)
  }

  /** Filtering works row by row: it commutes with concatenation. */
  lemma {:induction false} FilterAppend(a: seq<Record>, b: seq<Record>, sel: Selection)
    ensures Filter(a + b, sel) == Filter(a, sel) + Filter(b, sel)
  {
    if a != [] {
      assert (a + b)[1..] == a[1..] + b;
      FilterAppend(a[1..], b, sel);
    } else {
      assert a + b == b;
    }
  }

  /** A table all of whose rows match is left as it is. */
  lemma {:induction false} FilterKeepsMatching(table: seq<Record>, sel: Selection)
    requires forall rec :: rec in table ==> Matches(sel, rec)
    ensures Filter(table, sel) == table
  {
    if table != [] {
      FilterKeepsMatching(table[1..], sel);
    }
  }

  /** Applying the same selection a second time changes nothing. */
  lemma {:induction false} FilterIdempotent(table: seq<Record>, sel: Selection)
    ensures Filter(Filter(table, sel), sel) == Filter(table, sel)
  {
    FilterKeepsMatching(Filter(table, sel), sel);
  }

  /**
   * `wide` selects at least what `narrow` selects: more types, more
   * countries, and a year range that contains the narrow one (an empty
   * narrow range is contained in every range).
   */
  predicate Widens(wide: Selection, narrow: Selection) {
    && narrow.types <= wide.types
    && narrow.countries <= wide.countries
    && (narrow.yearFrom > narrow.yearTo || (wide.yearFrom <= narrow.yearFrom && narrow.yearTo <= wide.yearTo))
  }

  /**
   * Narrowing the selection can only drop rows: the narrow view is the wide
   * view filtered again, hence a subsequence of it.
   */
  lemma {:induction false} FilterMonotone(table: seq<Record>, narrow: Selection, wide: Selection)
    requires Widens(wide, narrow)
    ensures Filter(table, narrow) == Filter(Filter(table, wide), narrow)
    ensures IsSubsequence(Filter(table, narrow), Filter(table, wide))
  {
    if table != [] {
      FilterMonotone(table[1..], narrow, wide);
    }
  }

  /**
   * The bounds of the year slider: the smallest and the largest
   * `year_added` of the table. An empty table has none (converting the
   * missing minimum to an integer is where an empty catalog fails).
   */
  function YearBounds(table: seq<Record>): (b: Option<(int, int)>)
    ensures b.None? <==> table == []
    ensures b.Some? ==> forall rec :: rec in table ==> b.value.0 <= rec.yearAdded <= b.value.1
    ensures b.Some? ==> exists rec :: rec in table && rec.yearAdded == b.value.0
    ensures b.Some? ==> exists rec :: rec in table && rec.yearAdded == b.value.1
  {
    if table == [] then None
    else
      var y := table[0].yearAdded;
      match YearBounds(table[1..])
      case None => Some((y, y))
      case Some((lo, hi)) =>
        Some((if y < lo then y else lo, if y > hi then y else hi))
  }
}
