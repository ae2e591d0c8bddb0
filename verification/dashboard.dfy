/**
 * What the dashboard computes from the filtered view: the three KPI
 * counts and the six charts, and the whole pipeline from the parsed rows
 * and a selection to those figures.
 */
module Dashboard {
  import opened Wrappers
  import opened Records
  import opened Loader
  import opened Filtering
  import opened Counting

  /** The `type` column of the view. */
  function TypeColumn(view: seq<Record>): seq<Option<string>> {
    seq(|view|, i requires 0 <= i < |view| => Some(view[i].kind))
  }

  /** The `rating` column of the view. */
  function RatingColumn(view: seq<Record>): seq<Option<string>> {
    seq(|view|, i requires 0 <= i < |view| => view[i].rating)
  }

  /** The `director` column of the view. */
  function DirectorColumn(view: seq<Record>): seq<Option<string>> {
    seq(|view|, i requires 0 <= i < |view| => view[i].director)
  }

  /** The `listed_in` column of the view, each cell one opaque key. */
  function GenreColumn(view: seq<Record>): seq<Option<string>> {
    seq(|view|, i requires 0 <= i < |view| => view[i].listedIn)
  }

  /** The `month_added` column of the view. */
  function MonthColumn(view: seq<Record>): seq<Option<string>> {
    seq(|view|, i requires 0 <= i < |view| => Some(view[i].monthAdded))
  }

  /** The `year_added` column of the view. */
  function YearColumn(view: seq<Record>): seq<Option<int>> {
    seq(|view|, i requires 0 <= i < |view| => Some(view[i].yearAdded))
  }

  /**
   * `filtered_df[filtered_df['type'] == t].shape[0]`: the number of rows of
   * type `t`. It is the count the type chart shows for `t`, it is 0 exactly
   * when no row has type `t`, and it is the whole view exactly when every
   * row does.
   */
  function CountOfType(view: seq<Record>, t: string): (n: nat)
    ensures n <= |view|
    ensures n == Occurrences(TypeColumn(view), t)
    ensures n == 0 <==> forall rec :: rec in view ==> rec.kind != t
    ensures n == |view| <==> forall rec :: rec in view ==> rec.kind == t
  {
    if view == [] then 0
    else
      var init := view[..|view| - 1];
      var last := view[|view| - 1];
      assert view == init + [last];
      assert TypeColumn(view) == TypeColumn(init) + [Some(last.kind)];
      CountOfType(init, t) + (if last.kind == t then 1 else 0)
  }

  /** Rows of two different types are never counted twice. */
  lemma {:induction false} TwoTypesWithinTotal(view: seq<Record>, a: string, b: string)
    requires a != b
    ensures CountOfType(view, a) + CountOfType(view, b) <= |view|
  {
    if view != [] {
      TwoTypesWithinTotal(view[..|view| - 1], a, b);
    }
  }

  /** The three figures shown by the `metric` calls of the KPI row. */
  datatype Kpis = Kpis(total: nat, movies: nat, tvShows: nat)

  /**
   * The KPI row: every row counted once in the total; the Movies and TV
   * Shows figures are the numbers of rows of exactly those types, and
   * together they never exceed the total.
   */
  function KpiCounts(view: seq<Record>): (k: Kpis)
    ensures k.total == |view|
    ensures k.movies == Occurrences(TypeColumn(view), "Movie")
    ensures k.tvShows == Occurrences(TypeColumn(view), "TV Show")
    ensures k.movies + k.tvShows <= k.total
  {
    TwoTypesWithinTotal(view, "Movie", "TV Show");
    Kpis(|view|, CountOfType(view, "Movie"), CountOfType(view, "TV Show"))
  }

  /** The type chart: each type of the view with its number of rows, largest first; the bars add up to the view. */
  function TypeCounts(view: seq<Record>): (r: seq<Entry<string>>)
    ensures forall i, j :: 0 <= i < j < |r| ==> r[i].count >= r[j].count
    ensures forall t :: t in KeysOf(r) <==> exists rec :: rec in view && rec.kind == t
    ensures forall e :: e in r ==> e.count == CountOfType(view, e.key)
    ensures Sum(r) == |view|
  {
    var col := TypeColumn(view);
    PresentCountAll(col);
    forall t ensures Some(t) in col <==> exists rec :: rec in view && rec.kind == t {
      if Some(t) in col {
        var i :| 0 <= i < |col| && col[i] == Some(t);
        assert view[i] in view;
      } else {
        forall rec | rec in view ensures rec.kind != t {
          var i :| 0 <= i < |view| && view[i] == rec;
          assert col[i] == Some(rec.kind);
        }
      }
    }
    ValueCounts(col)
  }

  /** The rating chart: at most 8 ratings, the most frequent ones, with exact counts. */
  function TopRatings(view: seq<Record>): (r: seq<Entry<string>>)
    ensures |r| <= 8
    ensures forall i, j :: 0 <= i < j < |r| ==> r[i].count >= r[j].count
    ensures Distinct(KeysOf(r))
    ensures forall e :: e in r ==> Some(e.key) in RatingColumn(view) && e.count == Occurrences(RatingColumn(view), e.key)
    ensures forall k :: Some(k) in RatingColumn(view) && k !in KeysOf(r) ==>
      |r| == 8 && forall i :: 0 <= i < |r| ==> Occurrences(RatingColumn(view), k) <= r[i].count
  {
    TopCounts(RatingColumn(view), 8)
  }

  /** The director chart: at most 10 directors, the most frequent ones, with exact counts. */
  function TopDirectors(view: seq<Record>): (r: seq<Entry<string>>)
    ensures |r| <= 10
    ensures forall i, j :: 0 <= i < j < |r| ==> r[i].count >= r[j].count
    ensures Distinct(KeysOf(r))
    ensures forall e :: e in r ==> Some(e.key) in DirectorColumn(view) && e.count == Occurrences(DirectorColumn(view), e.key)
    ensures forall k :: Some(k) in DirectorColumn(view) && k !in KeysOf(r) ==>
      |r| == 10 && forall i :: 0 <= i < |r| ==> Occurrences(DirectorColumn(view), k) <= r[i].count
  {
    TopCounts(DirectorColumn(view), 10)
  }

  /** The genre chart: at most 10 `listed_in` values, the most frequent ones, with exact counts. */
  function TopGenres(view: seq<Record>): (r: seq<Entry<string>>)
    ensures |r| <= 10
    ensures forall i, j :: 0 <= i < j < |r| ==> r[i].count >= r[j].count
    ensures Distinct(KeysOf(r))
    ensures forall e :: e in r ==> Some(e.key) in GenreColumn(view) && e.count == Occurrences(GenreColumn(view), e.key)
    ensures forall k :: Some(k) in GenreColumn(view) && k !in KeysOf(r) ==>
      |r| == 10 && forall i :: 0 <= i < |r| ==> Occurrences(GenreColumn(view), k) <= r[i].count
  {
    TopCounts(GenreColumn(view), 10)
  }

  /** The monthly chart: the twelve months in calendar order, each with its number of rows (0 if none). */
  function MonthlyAdditions(view: seq<Record>): (r: seq<Entry<string>>)
    ensures |r| == 12 && KeysOf(r) == MonthOrder
    ensures forall i :: 0 <= i < 12 ==> r[i].count == Occurrences(MonthColumn(view), MonthOrder[i])
  {
    ReindexCounts(MonthColumn(view), MonthOrder);
    Reindex(ValueCounts(MonthColumn(view)), MonthOrder)
  }

  /** On a view of normalised rows, the monthly chart accounts for every row exactly once. */
  lemma MonthlyTotal(view: seq<Record>)
    requires forall rec :: rec in view ==> Wellformed(rec)
    ensures Sum(MonthlyAdditions(view)) == |view|
  {
    var col := MonthColumn(view);
    MonthNamesDistinct();
    PresentCountAll(col);
    forall i | 0 <= i < |col| && col[i].Some? ensures col[i].value in MonthOrder {
      assert view[i] in view;
    }
    ReindexCounts(col, MonthOrder);
    TallyCovers(MonthOrder, col);
  }

  /** The yearly chart: the years of the view, strictly ascending, each with its number of rows; the points add up to the view. */
  function YearlyAdditions(view: seq<Record>): (r: seq<Entry<int>>)
    ensures forall i, j :: 0 <= i < j < |r| ==> r[i].key < r[j].key
    ensures forall y :: y in KeysOf(r) <==> exists rec :: rec in view && rec.yearAdded == y
    ensures forall e :: e in r ==> e.count == Occurrences(YearColumn(view), e.key) && e.count > 0
    ensures Sum(r) == |view|
  {
    var col := YearColumn(view);
    PresentCountAll(col);
    forall y ensures Some(y) in col <==> exists rec :: rec in view && rec.yearAdded == y {
      if Some(y) in col {
        var i :| 0 <= i < |col| && col[i] == Some(y);
        assert view[i] in view;
      } else {
        forall rec | rec in view ensures rec.yearAdded != y {
          var i :| 0 <= i < |view| && view[i] == rec;
          assert col[i] == Some(rec.yearAdded);
        }
      }
    }
    CountsByKey(col)
  }

  /** Every figure the page shows for one selection. */
  datatype Report = Report(
    kpis: Kpis,
    byType: seq<Entry<string>>,
    topRatings: seq<Entry<string>>,
    monthly: seq<Entry<string>>,
    yearly: seq<Entry<int>>,
    topDirectors: seq<Entry<string>>,
    topGenres: seq<Entry<string>>)

  /** Every figure of the page, computed from the filtered view. */
  function BuildReport(view: seq<Record>): Report {
    Report(KpiCounts(view), TypeCounts(view), TopRatings(view), MonthlyAdditions(view),
           YearlyAdditions(view), TopDirectors(view), TopGenres(view))
  }

  /** A selection that matches nothing yields empty rating, director and genre charts, not an error. */
  lemma EmptyViewTopCharts()
    ensures TopRatings([]) == [] && TopDirectors([]) == [] && TopGenres([]) == []
  {
  }

  /** A selection that matches nothing yields zero KPIs and empty type and year charts. */
  lemma EmptyViewCounts()
    ensures KpiCounts([]) == Kpis(0, 0, 0)
    ensures TypeCounts([]) == [] && YearlyAdditions([]) == []
  {
  }

  /**
   * A selection that matches nothing still lists the twelve months (the
   * contract of `MonthlyAdditions`), each with 0.
   */
  lemma EmptyViewMonths()
    ensures forall i :: 0 <= i < |MonthlyAdditions([])| ==> MonthlyAdditions([])[i].count == 0
  {
  }

  /** The page for one selection: load, filter, then report. */
  function DashboardFor(raw: seq<RawRecord>, sel: Selection): Report {
    BuildReport(Filter(Normalise(raw), sel))
  }

  /** Total Titles and the sums of the type, monthly and yearly charts all count the same rows: the filtered ones. */
  lemma DashboardTotals(raw: seq<RawRecord>, sel: Selection)
    ensures var rep := DashboardFor(raw, sel);
      && rep.kpis.total == |Filter(Normalise(raw), sel)|
      && Sum(rep.monthly) == rep.kpis.total
      && Sum(rep.yearly) == rep.kpis.total
      && Sum(rep.byType) == rep.kpis.total
  {
    var view := Filter(Normalise(raw), sel);
    NormaliseRows(raw);
    MonthlyTotal(view);
  }
}
