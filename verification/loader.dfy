/**
 * `load_data`: drop the rows whose `date_added` did not parse, then derive
 * `year_added`, `month_added`, `duration_value` and `duration_unit`.
 * Reading the file and running the date parser are not modelled; the input
 * is the parsed rows.
 */
module Loader {
  import opened Records
  import opened Duration

  /** The `dropna(subset=['date_added'])` step: the rows whose date parsed, in order. */
  function Dated(raw: seq<RawRecord>): (kept: seq<RawRecord>)
    ensures IsSubsequence(kept, raw)
    ensures forall r :: r in kept <==> r in raw && r.dateAdded.Some?
  {
    if raw == [] then []
    else if raw[0].dateAdded.Some? then [raw[0]] + Dated(raw[1..])
    else Dated(raw[1..])
  }

  /** Dropping undated rows works row by row: it commutes with concatenation. */
  lemma {:induction false} DatedAppend(a: seq<RawRecord>, b: seq<RawRecord>)
    ensures Dated(a + b) == Dated(a) + Dated(b)
  {
    if a != [] {
      assert (a + b)[1..] == a[1..] + b;
      DatedAppend(a[1..], b);
    } else {
      assert a + b == b;
    }
  }

  /** A normalised row's derived columns are those of its own date and duration. */
  predicate Wellformed(rec: Record) {
    && rec.yearAdded == rec.dateAdded.year
    && rec.monthAdded == MonthName(rec.dateAdded.month)
    && rec.durationValue == DurationValue(rec.duration)
    && rec.durationUnit == DurationUnit(rec.duration)
  }

  /** The four column assignments, applied to one dated row. */
  function NormaliseRow(r: RawRecord): (rec: Record)
    requires r.dateAdded.Some?
    ensures Wellformed(rec)
    ensures RawOf(rec) == r
  {
    var d := r.dateAdded.value;
    Record(r.kind, r.country, r.rating, r.listedIn, r.director, d, r.duration,
           d.year, MonthName(d.month), DurationValue(r.duration), DurationUnit(r.duration))
  }

  /** A well-formed row is determined by its source columns. */
  lemma WellformedDetermined(rec: Record)
    requires Wellformed(rec)
    ensures rec == NormaliseRow(RawOf(rec))
  {
  }

  /**
   * The normalised table: one well-formed row per dated raw row, in the
   * same order, whose source columns are exactly that raw row's.
   */
  function Normalise(raw: seq<RawRecord>): (table: seq<Record>)
    ensures |table| == |Dated(raw)|
    ensures forall i :: 0 <= i < |table| ==> Wellformed(table[i]) && RawOf(table[i]) == Dated(raw)[i]
  {
    if raw == [] then []
    else if raw[0].dateAdded.Some? then [NormaliseRow(raw[0])] + Normalise(raw[1..])
    else Normalise(raw[1..])
  }

  /** Normalising works row by row: it commutes with concatenation. */
  lemma {:induction false} NormaliseAppend(a: seq<RawRecord>, b: seq<RawRecord>)
    ensures Normalise(a + b) == Normalise(a) + Normalise(b)
  {
    if a != [] {
      assert (a + b)[1..] == a[1..] + b;
      NormaliseAppend(a[1..], b);
    } else {
      assert a + b == b;
    }
  }

  /** An undated row leaves no trace; a dated row becomes exactly one record. */
  lemma NormaliseSingle(r: RawRecord)
    ensures Normalise([r]) == if r.dateAdded.Some? then [NormaliseRow(r)] else []
  {
  }

  /** Every record of the normalised table is well formed and comes from a dated raw row. */
  lemma NormaliseRows(raw: seq<RawRecord>)
    ensures forall rec :: rec in Normalise(raw) ==> Wellformed(rec) && RawOf(rec) in raw
  {
  }

  /**
   * `load_data` after the file has been read: the `dropna` pass, then the
   * four column assignments, each over the whole table.
   */
  method LoadData(raw: seq<RawRecord>) returns (table: seq<Record>)
    ensures table == Normalise(raw)
  {
    var kept: seq<RawRecord> := [];
    var i := 0;
    while i < |raw|
      invariant 0 <= i <= |raw|
      invariant kept == Dated(raw[..i])
    {
      assert raw[..i + 1] == raw[..i] + [raw[i]];
      DatedAppend(raw[..i], [raw[i]]);
      assert [raw[i]][1..] == [];
      if raw[i].dateAdded.Some? {
        kept := kept + [raw[i]];
      }
      i := i + 1;
    }
    assert raw[..i] == raw;

    table := [];
    var j := 0;
    while j < |kept|
      invariant 0 <= j <= |kept|
      invariant forall r :: r in kept ==> r.dateAdded.Some?
      invariant |table| == j
      invariant forall k :: 0 <= k < j ==> table[k] == NormaliseRow(kept[k])
    {
      table := table + [NormaliseRow(kept[j])];
      j := j + 1;
    }

    var expected := Normalise(raw);
    forall k | 0 <= k < |table| ensures table[k] == expected[k] {
      WellformedDetermined(expected[k]);
    }
  }
}
