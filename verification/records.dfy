/**
 * The rows of the catalog: a raw row as read from the CSV file (with its
 * `date_added` already run through the date parser), and a normalised row
 * carrying the four derived columns.
 */
module Records {
  import opened Wrappers

  /** A calendar month number, as `Timestamp.month` gives it. */
  type Month = m: int | 1 <= m <= 12 witness 1

  /** A parsed `date_added`; the day and time of day play no part in the pipeline. */
  datatype Date = Date(year: int, month: Month)

  /** The full English month names, in calendar order. */
  const MonthOrder: seq<string> :=
    ["January", "February", "March", "April", "May", "June",
     "July", "August", "September", "October", "November", "December"]

  /** `Timestamp.month_name()`: the full English name of a month. */
  function MonthName(m: Month): (name: string)
    ensures name in MonthOrder
    ensures MonthOrder[m - 1] == name
  {
    MonthOrder[m - 1]
  }

  predicate Distinct<T(==)>(xs: seq<T>) {
    forall i, j :: 0 <= i < j < |xs| ==> xs[i] != xs[j]
  }

  /** `a` is `b` with some elements removed and the rest kept in order. */
  predicate IsSubsequence<T(==)>(a: seq<T>, b: seq<T>)
    decreases |b|
  {
    if a == [] then true
    else if b == [] then false
    else (a[0] == b[0] && IsSubsequence(a[1..], b[1..])) || IsSubsequence(a, b[1..])
  }

  /** No two months share a name, so a month name identifies its month. */
  lemma MonthNamesDistinct()
    ensures |MonthOrder| == 12 && Distinct(MonthOrder)
    ensures forall m: Month, n: Month :: MonthName(m) == MonthName(n) ==> m == n
  {
  }

  /**
   * One row of the CSV file. `kind` is the `type` column. `dateAdded` is the
   * outcome of the tolerant date parser: `None` when the text did not parse.
   */
  datatype RawRecord = RawRecord(
    kind: string,
    country: Option<string>,
    rating: Option<string>,
    listedIn: Option<string>,
    director: Option<string>,
    dateAdded: Option<Date>,
    duration: Option<string>)

  /** One row of the normalised table: a dated raw row plus the derived columns. */
  datatype Record = Record(
    kind: string,
    country: Option<string>,
    rating: Option<string>,
    listedIn: Option<string>,
    director: Option<string>,
    dateAdded: Date,
    duration: Option<string>,
    yearAdded: int,
    monthAdded: string,
    durationValue: Option<nat>,
    durationUnit: Option<string>)

  /** The source columns of a normalised row, without the derived ones. */
  function RawOf(rec: Record): (r: RawRecord)
    ensures r.dateAdded == Some(rec.dateAdded)
  {
    RawRecord(rec.kind, rec.country, rec.rating, rec.listedIn, rec.director,
              Some(rec.dateAdded), rec.duration)
  }
}
