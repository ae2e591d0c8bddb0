# Netflix catalog dashboard: the data pipeline, in Dafny

This project models the data pipeline behind a Streamlit dashboard of the
Netflix catalog (`netflix_dashboard.py`) and proves what each step does.

- **Loading.** `load_data` parses `date_added`. It drops the rows whose date
  did not parse. It then derives `year_added`, `month_added` (the full English
  month name), `duration_value` (the first run of digits of `duration`) and
  `duration_unit` (the first run of ASCII letters).
- **Filtering.** `filtered_df` keeps a row when three things hold: its `type`
  is selected, its `year_added` lies in the inclusive year range, and its
  `country` is present and selected.
- **Reporting.** From the filtered rows the page shows three KPI counts and six
  charts. The charts are a type distribution, the top 8 ratings, a January to
  December monthly series, a yearly series in ascending year order, and the
  top 10 directors and top 10 `listed_in` values.

The model works on values. A raw row is a `RawRecord` whose `dateAdded` is the
date parser's result (`None` when the text did not parse). A normalised row is
a `Record`. The `type` column is called `kind`, because `type` is a Dafny
keyword. A missing cell is `None`.

Files and modules:

- `wrappers.dfy` (`Wrappers`): `Option`, standing for a missing cell.
- `records.dfy` (`Records`): the row types, the month names, distinctness and
  the subsequence relation.
- `duration.dfy` (`Duration`): the two `str.extract` patterns.
- `loader.dfy` (`Loader`): `load_data`. The specification functions `Dated` and
  `Normalise` define it, and the method `LoadData` builds the table with two
  loops: the `dropna` pass, then the column assignments.
- `filtering.dfy` (`Filtering`): the selection, the filter mask and the bounds
  of the year slider.
- `counting.dfy` (`Counting`): `value_counts`, `head(n)`,
  `reindex(...).fillna(0)` and `sort_index()` over a column of keys that may be
  missing.
- `dashboard.dfy` (`Dashboard`): the KPIs, the six charts and the whole
  pipeline.

## Model

| member | source | states |
|---|---|---|
| `Records.MonthNamesDistinct` | netflix_dashboard.py:65 | The twelve month names are pairwise distinct, so a month name identifies its month. |
| `Duration.FirstRun` | netflix_dashboard.py:23-24 | The first match of `cls+` is missing exactly when the string holds no character of the class. Otherwise it is the leftmost maximal run of that class. |
| `Duration.FirstRunUnique` | netflix_dashboard.py:23-24 | A string has at most one leftmost maximal run of a class, so "the first match" is well defined. |
| `Duration.DurationValue` | netflix_dashboard.py:23 | `duration_value` is missing exactly when `duration` is missing or holds no digit. Otherwise it is the number written by the first maximal digit run. |
| `Duration.DurationUnit` | netflix_dashboard.py:24 | `duration_unit` is missing exactly when `duration` is missing or holds no ASCII letter. Otherwise it is the first maximal letter run. |
| `Duration.DecimalRoundTrip` | netflix_dashboard.py:23 | Reading a number's decimal numeral gives back that number, so the digit-run value is the usual decimal reading. |
| `Duration.LeadingZero` | netflix_dashboard.py:23 | A leading zero does not change the value of a digit run ("090" and "90" give the same number). |
| `Loader.Dated` | netflix_dashboard.py:17-18 | The rows kept by `dropna` are a subsequence of the input. A row is kept iff its date parsed. |
| `Loader.DatedAppend` | netflix_dashboard.py:18 | Dropping undated rows works row by row and keeps the input order: it commutes with concatenation. |
| `Loader.NormaliseRow` | netflix_dashboard.py:21-24 | The derived columns of a dated row are those of its own date and duration. Its source columns are the raw row's, unchanged. |
| `Loader.WellformedDetermined` | netflix_dashboard.py:21-24 | A normalised row is determined by its source columns. |
| `Loader.Normalise` | netflix_dashboard.py:13-26 | The table has one row per dated raw row. Row i is well formed and carries exactly the source columns of the i-th dated raw row. |
| `Loader.NormaliseAppend` | netflix_dashboard.py:13-26 | Loading works row by row and keeps the order: it commutes with concatenation. |
| `Loader.NormaliseSingle` | netflix_dashboard.py:17-24 | An undated row contributes nothing. A dated row contributes exactly its normalised record. |
| `Loader.NormaliseRows` | netflix_dashboard.py:17-24 | Every loaded record is well formed and comes from a dated input row. |
| `Loader.LoadData` | netflix_dashboard.py:13-26 | The `dropna` loop followed by the column-assignment loop produces exactly `Normalise` of the input. |
| `Filtering.Filter` | netflix_dashboard.py:38-42 | The filtered view is a subsequence of the table. A row is in it iff its type is selected, its year lies in the inclusive range, and its country is present and selected. |
| `Filtering.FilterAppend` | netflix_dashboard.py:38-42 | Filtering works row by row and keeps table order: it commutes with concatenation. |
| `Filtering.FilterKeepsMatching` | netflix_dashboard.py:38-42 | A table all of whose rows match is returned unchanged. |
| `Filtering.FilterIdempotent` | netflix_dashboard.py:38-42 | Filtering the view again with the same selection changes nothing. |
| `Filtering.FilterMonotone` | netflix_dashboard.py:38-42 | Widening the selection never removes a row. The narrow view is the wide view filtered again, hence a subsequence of it. |
| `Filtering.YearBounds` | netflix_dashboard.py:33 | The slider bounds are missing exactly for an empty table. Otherwise they are the least and greatest `year_added`, and both are attained. |
| `Counting.Occurrences` | netflix_dashboard.py:56 | A key occurs zero times exactly when it is absent from the column. A missing cell never counts. |
| `Counting.TallyCovers` | netflix_dashboard.py:66 | Counting each of a list of distinct keys that covers every present cell accounts for each present cell exactly once. |
| `Counting.ValueCounts` | netflix_dashboard.py:56 | `value_counts` gives each distinct present key once, with its exact number of occurrences. Counts are non-increasing and missing keys are dropped. The counts add up to the number of present cells. |
| `Counting.TopCounts` | netflix_dashboard.py:60 | `head(n)` of the counts has at most n entries, with distinct keys and exact counts, in non-increasing order. A present key is left out only when the list is full and its count is at most every listed count. |
| `Counting.Reindex` | netflix_dashboard.py:66-67 | The reindexed series has the labels as keys, in label order. Each label carries its listed count, or 0 when it is not listed. |
| `Counting.ReindexCounts` | netflix_dashboard.py:66-67 | Reindexing `value_counts` onto labels and filling with 0 gives each label's exact number of occurrences. |
| `Counting.CountsByKey` | netflix_dashboard.py:71 | `value_counts().sort_index()` has strictly ascending keys, exactly the present ones, each with its exact count. The counts add up to the number of present cells. |
| `Dashboard.CountOfType` | netflix_dashboard.py:51-52 | The rows of a given type are counted. The count equals that type's entry in the type chart. It is 0 iff no row has the type, and it is the whole view iff every row has it. |
| `Dashboard.TwoTypesWithinTotal` | netflix_dashboard.py:50-52 | The counts of two different types add up to at most the total. |
| `Dashboard.KpiCounts` | netflix_dashboard.py:50-52 | Total Titles is the number of rows. Movies and TV Shows count the rows of exactly those types, and their sum is at most the total. |
| `Dashboard.TypeCounts` | netflix_dashboard.py:56 | The type chart lists exactly the types present in the view, each with its row count, in non-increasing order. Its bars add up to the view size. |
| `Dashboard.TopRatings` | netflix_dashboard.py:60 | The rating chart has at most 8 distinct non-missing ratings with exact counts, in non-increasing order. Any rating left out counts no more than any listed one. |
| `Dashboard.TopDirectors` | netflix_dashboard.py:76 | The director chart has at most 10 distinct non-missing directors with exact counts, in non-increasing order. Any director left out counts no more than any listed one. |
| `Dashboard.TopGenres` | netflix_dashboard.py:81 | The genre chart has at most 10 distinct non-missing `listed_in` values with exact counts, in non-increasing order. Any value left out counts no more than any listed one. |
| `Dashboard.MonthlyAdditions` | netflix_dashboard.py:65-67 | The monthly series has exactly 12 entries, January to December. Each carries that month's row count, 0 when there are none. |
| `Dashboard.MonthlyTotal` | netflix_dashboard.py:65-67 | On normalised rows the monthly series adds up to the number of rows in the view. |
| `Dashboard.YearlyAdditions` | netflix_dashboard.py:71 | The yearly series lists the years present in the view, in strictly ascending order, each with its positive row count. The counts add up to the view size. |
| `Dashboard.EmptyViewCounts` | netflix_dashboard.py:50-56 | A selection matching nothing yields zero KPIs and an empty type chart, with no error. |
| `Dashboard.EmptyViewTopCharts` | netflix_dashboard.py:60 | A selection matching nothing yields empty rating, director and genre charts, with no error. |
| `Dashboard.EmptyViewMonths` | netflix_dashboard.py:65-67 | A selection matching nothing still lists January to December, each with 0. |
| `Dashboard.DashboardTotals` | netflix_dashboard.py:38-71 | For any input and selection, Total Titles, the sum of the monthly series, the sum of the yearly series and the sum of the type chart all equal the number of filtered rows. |

## Left out

- Reading `netflix_cleaned.csv` (line 14) and the date parser `pd.to_datetime(..., errors='coerce')` (line 17) are library code. The model takes their output as input: one `RawRecord` per CSV row, with the parsed date as `Option<Date>`.
- A parsed date is kept only as its year and month; day and time play no part in the pipeline.
- The Streamlit page, the sidebar widgets, the metrics, the charts and the raw-data expander (lines 7-9, 31-35, 45-86) are presentation. Only the numbers they display are modelled.
- The seaborn and matplotlib styling (lines 3-4, 8-9) is presentation only.
- The widget defaults `(2015, 2021)` and `["United States", "India"]` (lines 33, 35) are UI defaults. Any selection is a parameter.
- `@st.cache_data` (line 12) is process-level caching. The model recomputes `Normalise` and has nothing to invalidate.
- `Duration.DurationValue`: `\d` in Python also matches non-ASCII decimal digits (for instance Arabic-Indic digits). The model treats only `0`-`9` as digits.
- `Duration.DurationValue`: `astype(float)` is modelled as an exact natural number. Float rounding of very long digit runs is not modelled.
- An empty catalog: `load_data` itself does not reject a table with no dated rows. The page fails one step later, when the slider converts the missing minimum year to an integer (line 33). `Filtering.YearBounds` models that point as `None`; the exception itself is not modelled.
- The order among equal counts in `value_counts` is left open in every contract. pandas does not promise it. The model's stable sort happens to keep first-appearance order, but no contract relies on this.
- `Loader.Normalise`: when the `duration` column holds no string cell at all (every cell missing, or every cell digits only), `read_csv` gives it a non-string type and the `.str` accessor at line 23 raises, so `load_data` never returns. The model does not capture this error; it derives `durationValue`/`durationUnit` as for string cells.
- `type` is modelled as always present. A missing `type` cell is not modelled.
