# Fan survey dashboard: a verified model of its record logic

The dashboard collects esports fan survey submissions through a Streamlit
form, keeps them in a per-session record store backed by a JSON file, and
shows filtered views of the store: demographics charts, social media
presence, engagement scores and loyalty segments. This project models the
record logic under those pages in Dafny and proves what it promises.

- `records.dfy`: the fan record (`FanRecord`) with its closed choices. It
  defines platform presence ("not null", so an empty handle still counts)
  and the engagement count (the list length).
- `timestamps.dfy`: timestamps and their `YYYY-MM-DD HH:MM:SS` text form,
  with the parse that reads it back. Also the calendar-date order.
- `counting.dfy`: count tables. `TallyOf` is the table a dictionary-updating
  counting loop builds. `SortBy` is a stable sort by an integer key.
  `ValueCounts` and `CountsByValue` are pandas' `value_counts()` and
  `value_counts().sort_index()`.
- `filters.dfy`: `apply_filters` as five narrowing steps over the table, and
  the default filter state.
- `submission.dfy`: the form's validation and the record it builds.
- `store.dfy`: the list written on every save, the two loads,
  `process_engagement_data`, and the export guards.
- `session.dfy`: the session state as a class. It holds the store, the
  filter state and the data file. Its methods are `initialize_session_state`,
  `filter_sidebar`, `save_fan_data` and the form's submit button.
- `engagement.dfy`: the engagement score, accumulated column by column in
  place. Also the loyalty segments and the top ten fans.
- `charts.dfy`: the count tables behind the charts in `visualization.py`.
- `social.dfy`: the social media page's per-platform counts, the
  `platform_count` column and its histogram.

The engagement score of a record in the survey's domain lies in 0..190. That
is what the purchase weights in 3_engagement_patterns.py:70-76 give (at most
40). A ceiling of 210 sometimes quoted for this score assumes a purchase
weight of 60, which the code does not have; the model follows the code.

## Model

| member | source | states |
|---|---|---|
| Records.PresentAmong | 3_engagement_patterns.py:89-90 | the platforms counted so far never exceed the number of platform columns visited |
| Records.PlatformCount | 2_social_media_analysis.py:156 | a record's platform_count never exceeds the number of platform columns |
| Records.PlatformCountSpec | 2_social_media_analysis.py:155-156 | platform_count is the number of non-null handles, at most 4; it is 4 exactly when all four are present and 0 exactly when none is |
| Records.AtMostSixActivities | app.py:81-91 | a selection without repeats from the six activities has at most six entries |
| Timestamps.Digits | data_processing.py:26 | a zero-padded field has exactly its width and only digits |
| Timestamps.FormatTimestamp | data_processing.py:26 | the strftime text of a timestamp is always 19 characters |
| Timestamps.ParseTimestamp | data_processing.py:43 | text that parses gives a well-formed timestamp with no sub-second part, within the seconds a nanosecond-unit pandas Timestamp can hold |
| Timestamps.DigitsRoundTrip | data_processing.py:26 | reading back a zero-padded field gives the number written |
| Timestamps.FormatParseRoundTrip | data_processing.py:26 | writing a timestamp and parsing the text gives it back, truncated to the second |
| Timestamps.FormatIdentifiesSecond | data_processing.py:26 | two well-formed timestamps have the same text exactly when they agree to the second |
| Timestamps.FormatFields | data_processing.py:26 | the text has the fixed layout, and reading each of its six fields back gives the field written |
| Timestamps.FormatOutOfRange | data_processing.py:43-50 | the text of a second outside pandas' range does not parse, so the load that meets it fails |
| Timestamps.EarlyYearOutOfRange | data_processing.py:43 | 1500-01-01 00:00:00 is well formed but outside pandas' range |
| Timestamps.DateKeyChronological | visualization.py:223 | the date sort key orders valid dates chronologically, both directions |
| Counting.Keys | data_processing.py:78 | the keys column lists each row's value in row order |
| Counting.Bump | data_processing.py:74 | one dictionary update adds one to the count of that value only; a new value is appended at the end; the total grows by one |
| Counting.TallyOf | data_processing.py:71-74 | the counting loop's table lists each value once, exactly the values of the input, each with its number of occurrences, and the counts sum to the input's length |
| Counting.LookupRow | data_processing.py:74 | in a table without repeated values, looking a row's value up gives that row's count |
| Counting.DistinctCard | visualization.py:36 | a sequence without repeats has as many distinct elements as entries |
| Counting.TallyRows | visualization.py:36 | every row of the tally holds its value's occurrence count; there is one row per distinct value |
| Counting.Insert | 3_engagement_patterns.py:130 | inserting into a sorted sequence adds exactly that element |
| Counting.InsertSorted | 3_engagement_patterns.py:130 | insertion keeps a sequence sorted by non-increasing key |
| Counting.SortBy | 3_engagement_patterns.py:130 | the result is sorted by non-increasing key and is a permutation of the input |
| Counting.InsertSum | visualization.py:36 | insertion adds the inserted row's count to the total |
| Counting.SortSum | visualization.py:36 | sorting does not change the total of the counts |
| Counting.ValueCountsSpec | visualization.py:36 | value_counts is sorted by count, most frequent first; it has one row per distinct value, holding the value's number of occurrences; the counts sum to the length |
| Counting.SortedTallySpec | visualization.py:104 | a tally sorted by any key keeps one row per distinct value with its occurrence count and the same total |
| Counting.CountsByValueSpec | visualization.py:104 | sort_index gives strictly increasing values, each with its occurrence count; every value present has its row; the counts sum to the length |
| Counting.CountsByValueIncreasing | visualization.py:104 | the rows of value_counts().sort_index() are in strictly increasing order of value |
| Counting.SortedTallyDistinct | visualization.py:36 | no two rows of a sorted tally share a value |
| Counting.PermutedRowsDistinct | visualization.py:36 | a reordering of a table without repeated values has no repeated values |
| Counting.DistinctRows | visualization.py:36 | a table without repeated values holds no row twice |
| Counting.Take | visualization.py:61 | head(k) has min(k, n) rows |
| Filters.Narrow | utils.py:39-42 | a boolean-mask selection keeps exactly the records that pass its checks and never grows |
| Filters.NarrowIsSubsequence | utils.py:39-42 | a selection keeps the records in their original order |
| Filters.NarrowNarrow | utils.py:39-60 | two selections in a row are one selection by both sets of checks |
| Filters.NarrowAll | utils.py:26-60 | checks that every record passes select the whole table |
| Filters.SkippedStep | utils.py:45-54 | a list filter skipped because its list is empty is one that every record passes |
| Filters.ApplyFilters | utils.py:34-62 | the filtered table is no longer than the table, and every record in it is a record of the table that passes all five checks |
| Filters.ApplyFiltersIsMatches | utils.py:36-60 | the five steps keep exactly the records that pass all five checks, whatever the order of the steps |
| Filters.ApplyFiltersSpec | utils.py:34-62 | a record is in the result exactly when it is in the input and its age, gender, country, game and years as a fan pass; the result is an order-preserving subsequence |
| Filters.ApplyFiltersIdempotent | utils.py:34-62 | filtering twice with the same filters gives the same table as filtering once |
| Filters.DefaultFiltersKeepAll | utils.py:25-60 | the default filters keep every record whose age is in 10..100 and years as a fan in 0..10 |
| Filters.DefaultFiltersDrop | utils.py:39-60 | the default filters drop a record exactly when its age or years as a fan fall outside those ranges |
| Submission.Submit | app.py:101-119 | a form is accepted exactly when name, email and country are non-empty; the record holds every widget value, each handle as a (possibly empty) string, stamped with the current time |
| Submission.SubmittedRecordIsValid | app.py:55-119 | within the widgets' bounds, every accepted record lies in the record domain |
| Submission.SubmittedRecordOnAllPlatforms | app.py:73-78 | every submitted record counts as present on all four platforms, whatever was typed |
| Store.StringifyTimestamps | data_processing.py:21-26 | the in-place loop over the list turns it into its serialised form, entry by entry |
| Store.SerializeRecord | data_processing.py:25-26 | a converted entry has a text timestamp and differs from the record in the timestamp at most; an entry that already has text is kept |
| Store.Serialized | data_processing.py:21-26 | the written list is a JSON document with one entry per record |
| Store.SerializedPointwise | data_processing.py:24-26 | a list whose every entry is the converted record is the written list |
| Store.SerializedSpec | data_processing.py:24-26 | the written list keeps every record in order; every timestamp becomes the strftime text; text timestamps and all other fields are kept |
| Store.InitialStore | utils.py:8-19 | a missing or unreadable file gives an empty store, otherwise the file's list as it is |
| Store.LoadFanData | data_processing.py:33-50 | a missing or unreadable file, or one with a timestamp that does not parse, gives an empty table; otherwise one record per entry, in order, equal to the entry but for its timestamp, which is the parsed time |
| Store.SaveLoadRoundTrip | data_processing.py:24-43 | saving a store and loading it gives the same records in order, with timestamps equal to the second |
| Store.ListedOf | data_processing.py:72-73 | a row contributes as many entries as its engagement count, nothing when the cell is not a list |
| Store.ListedActivitiesLength | data_processing.py:71-74 | the entries of all rows number the sum of the rows' list lengths |
| Store.EngagementCounts | data_processing.py:64-82 | the nested loop builds the tally of all list entries: empty input gives an empty table, each count is that activity's number of occurrences, the counts sum to the total list length |
| Store.CountEntries | data_processing.py:73-74 | counting one row's list into the table extends the tally by that list |
| Store.ExportTable | data_processing.py:84-111 | an empty table is refused before any write; otherwise the outcome is the write's |
| Session.SessionState.Initialize | utils.py:6-32 | a store not yet held is read from the file (empty when absent or unreadable); a filter state not yet held becomes the default; held state is kept |
| Session.SessionState.FilterSidebar | utils.py:64-119 | the sliders set the ranges; the list filters change only when the store is not empty; Reset restores exactly the default filters; the store is untouched |
| Session.SessionState.SaveFanData | data_processing.py:7-31 | the store becomes the old store followed by the record (the record alone when none is held); a successful write stores the serialised store; a failed one leaves the file but keeps the appended record |
| Session.SessionState.SubmitForm | app.py:100-127 | an accepted form's record is appended and written; a refused form changes nothing |
| Session.SaveThenLoad | data_processing.py:19-45 | after a save the file loads back as the old records followed by the new one, timestamps to the second |
| Engagement.AddPlatformTerm | 3_engagement_patterns.py:88-89 | one platform column's pass adds five to exactly the records with a handle on that platform |
| Engagement.PurchaseWeight | 3_engagement_patterns.py:70-76 | a purchase weight is at most 40, and 0 exactly for Never |
| Engagement.EngagementScore | 3_engagement_patterns.py:64-90 | a record in the survey's domain scores between 0 and 190 |
| Engagement.ScoreTerms | 3_engagement_patterns.py:67-90 | a record in the domain has at most ten years, six activities and four platforms to score |
| Engagement.SegmentOf | 3_engagement_patterns.py:93-101 | each segment is exactly its half-open score band: below 30, 30 to 59, 60 to 89, 90 and above |
| Engagement.AccumulateScores | 3_engagement_patterns.py:64-90 | the column built in place holds, for every record, ten per year as a fan plus the purchase weight plus five per engagement entry plus five per non-null handle |
| Engagement.SegmentBoundaries | 3_engagement_patterns.py:93-101 | 29 is Casual, 30 Regular, 59 Regular, 60 Dedicated, 89 Dedicated, 90 Superfan |
| Engagement.SegmentMonotone | 3_engagement_patterns.py:93-101 | a higher score never falls in a lower segment |
| Engagement.Segments | 3_engagement_patterns.py:103 | the segment column has one label per record, the one whose band holds the record's score |
| Engagement.SegmentCounts | 3_engagement_patterns.py:106 | the segment counts sum to the number of records, each row holds its segment's number of records, at least one, and there are at most four rows |
| Engagement.SegmentRows | 3_engagement_patterns.py:106 | value_counts of a segment column has at most four rows, each with its positive count, summing to the length |
| Engagement.TopFans | 3_engagement_patterns.py:130 | the top fans are ten rows, or all of them when there are fewer |
| Engagement.TopFansSpec | 3_engagement_patterns.py:130 | the top fans are scored records by non-increasing score, none repeated, each a record of the table with its score |
| Engagement.TopFansLeftOut | 3_engagement_patterns.py:130 | no record left out of the top fans scores above a record kept |
| Engagement.ScoredRow | 3_engagement_patterns.py:130 | every scored row pairs a record of the table with its own score |
| Engagement.ExampleRegular | 3_engagement_patterns.py:64-101 | two years, Occasionally, two activities and two handles score 55, Regular |
| Engagement.ExampleCasual | 3_engagement_patterns.py:64-101 | a record with nothing scores 0, Casual |
| Charts.NonNullCount | visualization.py:159-162 | the non-null count of a handle column is at most n; it is 0 exactly when no record has that handle and n exactly when all do |
| Charts.SocialPresence | visualization.py:151-168 | no figure for an empty table; otherwise four bars in the order Instagram, Twitter, Twitch, Discord, each that platform's non-null count and at most n |
| Charts.PurchaseCounts | visualization.py:187-195 | no figure exactly for an empty table; otherwise five rows, the categories in slider order |
| Charts.PurchaseCountsSpec | visualization.py:187-195 | each of the five categories holds its number of records, or NaN when none; the numbers add up to n |
| Charts.CountOrNaNSpec | visualization.py:194 | a reindexed cell is NaN exactly when the category does not occur, else its occurrence count |
| Charts.PresentTotalFive | visualization.py:194 | the non-NaN total of a five-row table is the sum of its five cells |
| Charts.LookupMember | visualization.py:194 | the count reindex finds for a category is one of the table's rows |
| Charts.FiveCategories | visualization.py:193-194 | the five categories' counts add up to the number of records |
| Charts.CountChart | visualization.py:32-36 | no figure exactly for an empty column |
| Charts.CountChartSpec | visualization.py:36 | a value-count chart has one row per distinct value with its number of records, most frequent first, counts adding up to n |
| Charts.GenderChart | visualization.py:30-37 | no figure for an empty table; every gender present has its row with its count; the counts add up to n |
| Charts.GameChart | visualization.py:77-84 | no figure for an empty table; every game present has its row with its count; the counts add up to n |
| Charts.CountryChart | visualization.py:51-61 | no figure exactly for an empty table; otherwise at most ten rows |
| Charts.CountryChartSpec | visualization.py:51-61 | min(10, distinct countries) rows, most frequent first, each with its count; no country left out has more records than one shown |
| Counting.TakeSorted | visualization.py:61 | the first k rows of a sorted table are sorted and are a prefix of it, so a part of its rows |
| Counting.TakeLeftOut | 3_engagement_patterns.py:130 | a row left out of the first k of a sorted table has a key no larger than any kept row |
| Charts.TopRowsKept | visualization.py:51-61 | the first k rows of a value count are min(k, distinct values) rows sorted by count, each a value of the column with its number of occurrences |
| Charts.TopRowsLeftOut | visualization.py:51-61 | a value left out of the first k rows occurs no more often than any value kept |
| Charts.LeftOutValue | visualization.py:51-61 | the same, for one left-out value and one kept row |
| Charts.LeftOutNotAbove | visualization.py:61 | a row left out of the first k of a table sorted by count counts no more than any kept row |
| Charts.FanSinceChart | visualization.py:98-105 | no figure for an empty table; otherwise years as a fan in strictly increasing order, each with its number of records, every year present, counts adding up to n |
| Charts.Dates | visualization.py:222 | the date column has one valid calendar date per record |
| Charts.DateCounts | visualization.py:215-223 | no figure exactly for an empty table; a failure exactly for a non-empty table whose timestamp column is not a datetime column |
| Charts.DateCountsSpec | visualization.py:222-223 | for a datetime column: one row per date in strictly chronological order, each with its number of records, every date present, counts adding up to n |
| Charts.FilteredDateChart | 3_engagement_patterns.py:29-57 | filtering keeps a datetime store's column a datetime column; the page's chart fails exactly when rows are left and the store holds a text timestamp, and is a per-date table exactly when rows are left and the store holds none |
| Charts.StartupStoreNotDatetime | utils.py:8-14 | a store read at start-up from a file with records has text timestamps |
| Charts.Chronological | visualization.py:223 | rows of distinct valid dates sorted by date key are strictly chronological |
| Social.WithHandle | 2_social_media_analysis.py:71-72 | the records selected for a platform tab are exactly those with a non-null handle on it |
| Social.TabMatchesChart | 2_social_media_analysis.py:71-72 | each tab's metric equals that platform's bar in the presence chart |
| Social.PlatformCounts | 2_social_media_analysis.py:156 | the platform_count column has one entry per record |
| Social.PlatformHistogram | 2_social_media_analysis.py:158 | the histogram has no rows exactly for an empty table |
| Social.PresenceAddsUp | 2_social_media_analysis.py:155-156 | the four per-platform counts add up to the sum of the platform_count column |
| Social.PlatformCountsRange | 2_social_media_analysis.py:156 | every platform_count entry is its record's number of non-null handles, in 0..4 |
| Social.PlatformHistogramSpec | 2_social_media_analysis.py:158-159 | the histogram lists numbers of platforms in increasing order, each in 0..4 with its number of records; every number present has its row; the counts add up to n |
| Social.AllPlatformFans | 2_social_media_analysis.py:176 | the all-platform fans are records of the table with a platform count of four, no more of them than records |
| Social.AllPlatformFansSpec | 2_social_media_analysis.py:175-176 | the all-platform fans are exactly the records with four non-null handles, as many as the histogram's row for four |
| Social.HistogramExample | 2_social_media_analysis.py:155-159 | records on 0, 2 and 4 platforms give the histogram (0,1), (2,1), (4,1) |
| Social.ExampleCounts | 2_social_media_analysis.py:155-156 | records on none, two and all four platforms have platform counts 0, 2 and 4 |
| Social.CountsExample | 2_social_media_analysis.py:158 | the platform counts 0, 2, 4 give one row each, in increasing order |
| Social.ExampleValues | 2_social_media_analysis.py:158 | the counts 0, 2, 4 are three distinct values, each occurring once |
| Social.ThreeIncreasingRows | 2_social_media_analysis.py:158 | three increasing rows drawn from 0, 2, 4 with count one are exactly those three |

## Left out

- The Streamlit pages themselves are not part of this model: widgets, layout, images, tabs, `st.rerun`, the warnings shown. So are the demographics and export pages (1_fan_demographics.py, 4_data_export.py).
- Plotly figure construction is not modelled. That covers the age histogram's binning and `plot_engagement_distribution`, whose only logic is the same emptiness guard.
- File I/O is not modelled as such. The data file is a `FileState` value (missing, unreadable, or a stored list). Whether a write succeeds is a parameter.
- Session.SessionState.SaveFanData: a write that fails after the file was opened for writing leaves a truncated file; the model leaves the file as it was.
- `pd.Timestamp.now()` is a parameter (`now`). `pd.to_datetime` is modelled only for text of the form `YYYY-MM-DD HH:MM:SS`, with its range check; any other text counts as unparseable.
- Timestamps.Time: the sub-second sliver from 1677-09-21 00:12:43.145224192 to 00:12:43.999999999, which pandas can hold, is left out of the model's range, so that truncating a time to the second keeps it in range.
- A store read at start-up keeps its timestamps as text. The data file is a `Document`, a list whose timestamps are all text. The kind of the timestamp column is taken from the whole store: a datetime column exactly when no timestamp in the store is text. Filtering keeps that kind, and the per-date chart of a column that is not a datetime column is modelled as the failure `.dt` raises.
- The JSON export's `astype(str)` rendering of timestamps is not modelled, nor are the CSV/JSON encodings. Only the exports' emptiness guard and outcome are.
- `get_social_media_data` and the `social_media_data` session entry are not modelled: a placeholder that is always empty.
- Concurrent sessions writing the same file are not modelled; each interaction runs as one sequential script.
- Purchase values outside the five categories, and the NaN scores they would give, cannot occur: the category is a closed datatype.
- The missing-column guards of the charts and of the score reduce to the emptiness guard, because a record always has every field.
- Engagement.TopFansSpec, Engagement.TopFansLeftOut: pandas' default sort is not stable, so records tied on score may come out in any order. The model sorts stably. The lemma states only what holds for any order of ties.
- Counting.ValueCountsSpec: the order of rows with equal counts is not stated, since pandas does not promise one; the model keeps first-seen order.
- Charts.CountryChartSpec: the same applies to which of several tied countries make the first ten.
- Integers are unbounded. Ages, years and scores stay far below any machine width in the survey's domain.
