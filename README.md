# COVID-19 news classifier, modelled in Dafny

The "World News from data" notebook of covid-progress compares two per-country
tables: the current snapshot and one from `day_diff = 10` days earlier. Both
come from the projection estimator. The notebook sorts countries into eight
news groups with fixed threshold rules:

- new waves and slowing waves: a large change in the optimistic transmission rate;
- higher and lower ICU need;
- first significant outbreaks: countries the past table lacks;
- no new cases or deaths, no new deaths only, and continuously inactive countries.

It also builds a comparison table: the current snapshot plus three columns
taken from the past one.

The model keeps pandas' semantics where they decide membership:

- A snapshot is an index (a sequence of country names, in frame order) and a map from name to row.
- Every cell is `Option<real>`, with `None` for NaN.
- Two series are aligned on the union of their labels, and a label one side lacks reads as NaN.
- Arithmetic on NaN gives NaN, and every comparison with NaN is false.
- Negating a false comparison (`~no_cases_filt`, `~active_in_past`) gives true, so a missing value can put a country into a group.
- `rate_diff / growth_rate_std` is a floating-point division. A zero divisor gives plus or minus infinity, or NaN for 0/0, so a country whose past deviation is 0 passes the "more than 3 standard deviations" test whenever its rate rose by more than 0.02 (fell by more than 0.02 for slowing waves).
- The model sorts (label, value) pairs with a stable insertion sort in place of `sort_values`.
- The two in-place steps are classes whose methods reassign a field: the masked clamp `s[s < 0] = 0` and the column assignments of `df_data`.

Modules:

- `Missing` (missing.dfy): NaN-aware cells, subtraction, comparisons, clamping and division.
- `Sorting` (sorting.dfy): `sort_values` and `.index`.
- `Snapshots` (snapshots.dfy): rows, snapshots, alignment and `isin`.
- `News` (news.dfy): the rules, the groups and their properties.
- `Frames` (frames.dfy): the in-place clamp and the comparison table.

The notebook's prose says "at least +2% change and at least +3 standard
deviations" and "at least 1000 estimated total cases and at least 10 total
deaths". The code compares strictly (`> 0.02`, `> 3`, `> 1000`, `> 10`), and
the model follows the code. Likewise, the prose says new and slowing waves
include only countries that were "previously active (more than 100 estimated
new cases)" (lines 159 and 235), but the code tests the current snapshot's
`Cases.new.est` (lines 147 and 224); the model follows the code here too. The prose for continuously
inactive countries says "no new cases or deaths 10 days ago or now" (line
352), but the code (line 347) checks only that the case total is unchanged
and that the country was inactive in the past; current new deaths are not
checked. `News.NotActiveExactly` states what the code does.

## Model

| member | source | states |
|---|---|---|
| `Missing.Clamped` | _notebooks/2020-06-02-covid19-news.py:140 | the masked clamp keeps a missing cell missing, and a present cell becomes `max(0, x)`, never negative |
| `Snapshots.NotIn` | _notebooks/2020-06-02-covid19-news.py:289 | `idx[~idx.isin(keys)]` holds exactly the labels of idx outside keys, with no label twice when idx has none twice |
| `Snapshots.AlignedIndex` | _notebooks/2020-06-02-covid19-news.py:144 | the aligned index of two well-formed frames lists each label of either frame exactly once |
| `Sorting.InsertSorted` | _notebooks/2020-06-02-covid19-news.py:150 | inserting a pair into a sorted series keeps it sorted |
| `Sorting.InsertPermutes` | _notebooks/2020-06-02-covid19-news.py:150 | inserting a pair adds exactly that pair to the multiset of pairs |
| `Sorting.InsertLabels` | _notebooks/2020-06-02-covid19-news.py:150 | inserting a pair adds exactly its label to the multiset of labels |
| `Sorting.SortValues` | _notebooks/2020-06-02-covid19-news.py:150 | `sort_values` returns a sorted permutation of its input pairs, and the same multiset of labels |
| `Sorting.SortedPairsFromInput` | _notebooks/2020-06-02-covid19-news.py:150-268 | every pair of the sorted series is a pair of the input, so each label keeps its value (the `sort_values` calls at lines 150, 227, 250 and 268) |
| `Sorting.SortKeepsLabels` | _notebooks/2020-06-02-covid19-news.py:150-268 | sorting keeps the set of labels and introduces no duplicate label (lines 150, 227, 250 and 268) |
| `News.OptimisticRate` | _notebooks/2020-06-02-covid19-news.py:139-142 | the optimistic rate is known exactly when the country's rate and deviation are; it is `max(0, rate - std)` and never negative |
| `News.RateDiffValue` | _notebooks/2020-06-02-covid19-news.py:144 | `rate_diff` is known exactly when both snapshots have the country with both columns, and then equals the difference of the two clamped rates |
| `News.DivideAgainstSpec` | _notebooks/2020-06-02-covid19-news.py:145-149 | for a change beyond +-0.02, the quotient test holds exactly when the past deviation is 0 or the real quotient passes +-3 |
| `Snapshots.Masked` | _notebooks/2020-06-02-covid19-news.py:150 | `change[mask]` holds exactly the labels whose mask holds and whose change is known, each paired with its change; pandas would also keep a masked label with a NaN change, but no news mask selects one (`News.MaskedNeedsBothSnapshots`) |
| `Snapshots.Where` | _notebooks/2020-06-02-covid19-news.py:309-310 | `df_cur.loc[mask].index` holds exactly the labels whose mask holds, none twice |
| `Snapshots.MaskedDistinct` | _notebooks/2020-06-02-covid19-news.py:150 | `change[mask]` over an index without repeats lists no label twice |
| `Snapshots.SortedMaskedMembership` | _notebooks/2020-06-02-covid19-news.py:150 | `change[mask].sort_values().index` holds exactly the labels whose mask holds and whose change is known |
| `Snapshots.SortedMaskedValue` | _notebooks/2020-06-02-covid19-news.py:150 | after filtering and sorting, each pair still carries its own label's change |
| `News.Collect` | _notebooks/2020-06-02-covid19-news.py:375 | the flattened group list holds a country exactly when one of the listed groups does |
| `News.MaskedNeedsBothSnapshots` | _notebooks/2020-06-02-covid19-news.py:146-150 | every mask except the new-entries one needs a past row; the ranked masks also need a current row and a known change |
| `News.Membership` | _notebooks/2020-06-02-covid19-news.py:146-347 | a group lists a country exactly when the country is current and the group's mask holds for it (all eight groups: lines 146-150, 227, 250, 268, 289, 309-310, 328-329 and 347) |
| `News.RankedMembership` | _notebooks/2020-06-02-covid19-news.py:146-150 | a ranked group lists a country exactly when the country is in both snapshots, its change is known and the group's mask holds |
| `News.CountriesDistinct` | _notebooks/2020-06-02-covid19-news.py:146-347 | no group lists a country twice (the groups at lines 146-150, 227, 250, 268, 289, 309-310, 328-329 and 347) |
| `News.RankedOrder` | _notebooks/2020-06-02-covid19-news.py:150-268 | ranked groups are ordered by their change: new waves and higher ICU need non-increasing, slowing waves and lower ICU need non-decreasing (the `sort_values` calls at lines 150, 227, 250 and 268) |
| `News.HigherTransAgainstSpec` | _notebooks/2020-06-02-covid19-news.py:146-149 | the `higher_trans` mask agrees with the rule stated on the two raw rows |
| `News.LowerTransAgainstSpec` | _notebooks/2020-06-02-covid19-news.py:223-226 | the `lower_trans` mask agrees with the rule stated on the two raw rows |
| `News.NewWavesExactly` | _notebooks/2020-06-02-covid19-news.py:144-150 | a country is a new wave iff it is in both snapshots, has more than 100 estimated new cases, and its optimistic rate rose by more than 0.02 and by more than 3 past deviations (any rise beyond 0.02 when the deviation is 0) |
| `News.SlowingOutbreaksExactly` | _notebooks/2020-06-02-covid19-news.py:223-227 | a country is a slowing wave iff it is in both snapshots, has more than 100 estimated new cases, and its optimistic rate fell by more than 0.02 and by more than 3 past deviations |
| `News.IcuDiffValue` | _notebooks/2020-06-02-covid19-news.py:249 | `icu_diff` is known exactly when both snapshots have the country with a known ICU need, and then is current minus past |
| `News.IcuIncreaseExactly` | _notebooks/2020-06-02-covid19-news.py:249-250 | higher ICU need iff both ICU values are known and current minus past exceeds 0.5 |
| `News.IcuDecreaseExactly` | _notebooks/2020-06-02-covid19-news.py:268 | lower ICU need iff both ICU values are known and current minus past is below -0.5 |
| `News.NewEntriesExactly` | _notebooks/2020-06-02-covid19-news.py:289 | new entries are exactly the current countries absent from the past snapshot |
| `News.NoCasesAndDeathsExactly` | _notebooks/2020-06-02-covid19-news.py:305-310 | both totals known and unchanged, past estimated cases above 1000, past deaths above 10, and past new cases or new deaths above 0 |
| `News.NoDeathsExactly` | _notebooks/2020-06-02-covid19-news.py:328-329 | deaths known and unchanged, cases not both known and unchanged (a missing total counts as changed), significant and active in the past |
| `News.NotActiveExactly` | _notebooks/2020-06-02-covid19-news.py:347 | cases known and unchanged, significant in the past, and neither past new cases nor past new deaths above 0 |
| `News.WavesDisjoint` | _notebooks/2020-06-02-covid19-news.py:146-150 | no country is both a new wave and a slowing wave |
| `News.IcuDisjoint` | _notebooks/2020-06-02-covid19-news.py:249-250 | no country has both higher and lower ICU need |
| `News.QuietGroupsDisjoint` | _notebooks/2020-06-02-covid19-news.py:309-310 | no-cases-and-deaths, no-deaths and not-active are pairwise disjoint |
| `News.NewEntriesExclusive` | _notebooks/2020-06-02-covid19-news.py:288-289 | a new entry appears in no other group |
| `News.GroupsWithinSnapshots` | _notebooks/2020-06-02-covid19-news.py:146-347 | every listed country is current, and has a past row iff its group is not new entries (all eight groups, lines 146-347) |
| `News.NewsCountriesMembership` | _notebooks/2020-06-02-covid19-news.py:372-375 | `news_countries` holds a country exactly when some group lists it |
| `Frames.Series.constructor` | _notebooks/2020-06-02-covid19-news.py:139 | a new series holds the given cells |
| `Frames.Series.ClampNegative` | _notebooks/2020-06-02-covid19-news.py:140 | after `s[s < 0] = 0` every cell is the clamp of its old value, the labels are unchanged, and no present cell is negative |
| `Frames.OptimisticRates` | _notebooks/2020-06-02-covid19-news.py:141-142 | the clamped series has the snapshot's countries, each cell the country's optimistic rate, none negative |
| `Frames.ComparisonTable.Copy` | _notebooks/2020-06-02-covid19-news.py:58 | the copy has the current snapshot's index and rows and no added column |
| `Frames.ComparisonTable.AssignColumn` | _notebooks/2020-06-02-covid19-news.py:59 | a column assignment reindexes the series on the table's countries and changes nothing else |
| `Frames.ReindexedColumnReadsCell` | _notebooks/2020-06-02-covid19-news.py:59-61 | assigning another frame's column gives a cell for every country of the table: that frame's value, or NaN where it lacks the country |
| `Frames.BuildComparison` | _notebooks/2020-06-02-covid19-news.py:58-61 | the comparison table keeps the current index and rows unchanged and adds exactly the three past columns, each read from the past snapshot with NaN for countries it lacks |

The table lists members with a contract. The functions below model the
notebook's expressions directly and carry no contract of their own; the
lemmas named after each state what they mean.

- `News.Countries` (news.dfy): the eight group lists `new_waves`, `slowing_outbreaks`, `icu_increase`, `icu_decrease`, `new_entries`, `no_cases_and_deaths`, `no_deaths` and `not_active` (lines 150, 227, 250, 268, 289, 309-310, 328-329, 347). Stated by `News.Membership`, `News.RankedMembership`, `News.CountriesDistinct`, `News.RankedOrder`, the `*Exactly` lemmas and `News.GroupsWithinSnapshots`.
- `News.Selected`, `News.HigherTrans`, `News.LowerTrans`: the group masks, among them `higher_trans` (lines 146-149) and `lower_trans` (lines 223-226). Stated by `News.HigherTransAgainstSpec`, `News.LowerTransAgainstSpec`, `News.MaskedNeedsBothSnapshots` and `News.Membership`.
- `News.RateDiff` (line 144): `rate_diff`. Stated by `News.RateDiffValue`.
- `News.PctRateDiff` with `Missing.Divide` (line 145): `pct_rate_diff`, a floating-point division. Stated by `News.DivideAgainstSpec`.
- `News.IcuDiff` (line 249): `icu_diff`. Stated by `News.IcuDiffValue`.
- `News.SignificantPast`, `News.ActiveInPast`, `News.NoCasesFilt`, `News.NoDeathsFilt` (lines 305-308): the quiet-group filters. Stated by `News.NoCasesAndDeathsExactly`, `News.NoDeathsExactly`, `News.NotActiveExactly` and `News.QuietGroupsDisjoint`.
- `News.NewsCountries` (line 375): `news_countries`. Stated by `News.Collect` and `News.NewsCountriesMembership`.
- `Snapshots.Cell`, `Snapshots.ColumnOf`, `Frames.Reindex` (lines 59-61, 144): reading a column aligned on another index. Stated by `Frames.ReindexedColumnReadsCell` and `Frames.BuildComparison`.

## Left out

- The projection estimator and all of `covid_helpers` (`CovidData`, `table_with_projections`, `filter_df`, `rename_long_names`, `PandasStyling`, `altair_sir_plot`, `OverviewData`): that module is not part of this model. Its output columns are inputs here, including the `filter_df` selection that decides which countries each snapshot holds.
- Fetching the two snapshots, including the "current date" offset `CovidData(-day_diff)` (lines 42-47): I/O in a foreign module. `DayDiff` only names the gap.
- Styling and rendering: `index_format`, `style_news_infections`, `style_news_icu`, `style_basic`, the bar normalisation `rate_norm`, the emoji flags, the Markdown headings, and the Altair charts `infected_plots` and `altair_sir_plot` (lines 51-54, 66-129, 167-212, 376-378). They include the plot of `new_waves[0]`.
- Display-only columns of the snapshot (`emoji_flag`, `affected_ratio.est`, `last_case_date`, `last_death_date`): the rows carry only the columns the rules read. The comparison table copies the rows whole, so nothing a rule reads is lost.
- Floating point: cells are unbounded reals. Rounding is not modelled. The infinities and NaN of a division by zero are modelled by `Missing.Quotient`.
- Sorting.SortValues: ties are kept in input order (a stable sort). pandas' default `sort_values` is an unstable quicksort, so the order among equal changes is not modelled.
- The order of the aligned index: pandas may sort the union of two differing indexes. The model lists current labels first and then past-only ones. This affects only the order of ties.
- Duplicate country labels are not modelled: the lemmas about the news groups require `WellFormed` snapshots (one row per country), and a snapshot's rows are a map, so the comparison table cannot hold a repeated label either. pandas raises in some of these cases (a label repeated in `df_past` at the column assignments of lines 59-61) and repeats rows in others; the model has neither path.
- The other notebook, 2020-04-05-covid19-affected-population.py: it only sorts, styles and renames columns for display and has no decision logic.
