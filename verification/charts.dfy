/** The count tables behind the dashboard's charts. A chart of an empty table
    is None (no figure is drawn). A record always has every column, so the
    charts' missing-column guards come down to the emptiness guard. */
module Charts {

  import opened Wrappers
  import opened Timestamps
  import opened Records
  import opened Counting
  import opened Filters
  import opened Store

  // ---------------------------------------------------------------------
  // Columns

  function Genders(data: seq<FanRecord>): seq<Gender> {
    seq(|data|, i requires 0 <= i < |data| => data[i].gender)
  }

  function Countries(data: seq<FanRecord>): seq<string> {
    seq(|data|, i requires 0 <= i < |data| => data[i].country)
  }

  function Games(data: seq<FanRecord>): seq<Game> {
    seq(|data|, i requires 0 <= i < |data| => data[i].favoriteGame)
  }

  function FanSinces(data: seq<FanRecord>): seq<int> {
    seq(|data|, i requires 0 <= i < |data| => data[i].fanSince)
  }

  function Purchases(data: seq<FanRecord>): seq<PurchaseFrequency> {
    seq(|data|, i requires 0 <= i < |data| => data[i].purchaseFrequency)
  }

  // ---------------------------------------------------------------------
  // Social media presence

  /** notna().sum() of a handle column: the number of records whose handle on
      p is not null. */
  function NonNullCount(data: seq<FanRecord>, p: Platform): (n: nat)
    ensures n <= |data|
    ensures n == 0 <==> forall r :: r in data ==> !PresentOn(r, p)
    ensures n == |data| <==> forall r :: r in data ==> PresentOn(r, p)
  {
    if data == [] then 0
    else
      assert forall r :: r in data <==> r == data[0] || r in data[1..];
      (if PresentOn(data[0], p) then 1 else 0) + NonNullCount(data[1..], p)
  }

  /** plot_social_media_presence: one bar per platform, in the fixed order
      Instagram, Twitter, Twitch, Discord, each the platform's non-null count. */
  function SocialPresence(data: seq<FanRecord>): (r: Option<seq<(Platform, nat)>>)
    ensures r.None? <==> data == []
    ensures r.Some? ==> |r.value| == 4
    ensures r.Some? ==> forall k :: 0 <= k < 4 ==>
              r.value[k].0 == Platforms[k] && r.value[k].1 == NonNullCount(data, Platforms[k])
              && r.value[k].1 <= |data|
  {
    if data == [] then None
    else Some(seq(4, k requires 0 <= k < 4 => (Platforms[k], NonNullCount(data, Platforms[k]))))
  }

  // ---------------------------------------------------------------------
  // Purchase frequency in the fixed order

  const PurchaseOrder: seq<PurchaseFrequency> := [Never, Rarely, Occasionally, Frequently, VeryFrequently]

  /** One cell of reindex: the category's count in the table, or None (NaN)
      when the table has no row for it. */
  function CountOrNaN<T(==)>(t: seq<(T, nat)>, v: T): Option<nat> {
    if v in Keys(t) then Some(Lookup(t, v)) else None
  }

  /** plot_purchase_frequency's table: value_counts().reindex(order). */
  function PurchaseCounts(data: seq<FanRecord>): (r: Option<seq<(PurchaseFrequency, Option<nat>)>>)
    ensures r.None? <==> data == []
    ensures r.Some? ==> |r.value| == 5 && forall k :: 0 <= k < 5 ==> r.value[k].0 == PurchaseOrder[k]
  {
    if data == [] then None
    else
      var t := ValueCounts(Purchases(data));
      Some(seq(|PurchaseOrder|, k requires 0 <= k < |PurchaseOrder| => (PurchaseOrder[k], CountOrNaN(t, PurchaseOrder[k]))))
  }

  /** The sum of the counts that are not NaN. */
  function PresentTotal<T>(r: seq<(T, Option<nat>)>): nat {
    if r == [] then 0 else (if r[0].1.Some? then r[0].1.value else 0) + PresentTotal(r[1..])
  }

  /** A count that is NaN read as zero. */
  function OrZero(c: Option<nat>): nat {
    if c.Some? then c.value else 0
  }

  /** The purchase table has exactly the five categories in slider order; each
      holds its number of records, NaN for a category no record has; the
      numbers add up to the number of records. */
  lemma PurchaseCountsSpec(data: seq<FanRecord>)
    ensures PurchaseCounts(data).Some? ==> forall k :: 0 <= k < 5 ==>
              PurchaseCounts(data).value[k].1 ==
                 (var c := multiset(Purchases(data))[PurchaseOrder[k]]; if c == 0 then None else Some(c))
    ensures PurchaseCounts(data).Some? ==> PresentTotal(PurchaseCounts(data).value) == |data|
  {
    if data != [] {
      var s := Purchases(data);
      var r := PurchaseCounts(data).value;
      forall k | 0 <= k < 5
        ensures r[k].1 == (var c := multiset(s)[PurchaseOrder[k]]; if c == 0 then None else Some(c))
      {
        CountOrNaNSpec(s, PurchaseOrder[k]);
      }
      PresentTotalFive(r);
      FiveCategories(s);
    }
  }

  /** A reindexed cell is NaN exactly when the value does not occur, and the
      number of its occurrences otherwise. */
  lemma CountOrNaNSpec<T(!new)>(s: seq<T>, v: T)
    ensures CountOrNaN(ValueCounts(s), v) == if multiset(s)[v] == 0 then None else Some(multiset(s)[v])
  {
    var t := ValueCounts(s);
    ValueCountsSpec(s);
    if v in s {
      var i :| 0 <= i < |t| && t[i] == (v, multiset(s)[v]);
      assert Keys(t)[i] == v;
      LookupMember(t, v);
    }
  }

  lemma PresentTotalFive<T>(r: seq<(T, Option<nat>)>)
    requires |r| == 5
    ensures PresentTotal(r) == OrZero(r[0].1) + OrZero(r[1].1) + OrZero(r[2].1) + OrZero(r[3].1) + OrZero(r[4].1)
  {
    assert r[4..][1..] == r[5..] && r[5..] == [];
    assert PresentTotal(r[4..]) == OrZero(r[4].1);
    assert r[3..][1..] == r[4..];
    assert PresentTotal(r[3..]) == OrZero(r[3].1) + PresentTotal(r[4..]);
    assert r[2..][1..] == r[3..];
    assert PresentTotal(r[2..]) == OrZero(r[2].1) + PresentTotal(r[3..]);
    assert r[1..][1..] == r[2..];
    assert PresentTotal(r[1..]) == OrZero(r[1].1) + PresentTotal(r[2..]);
  }

  /** The row Lookup finds for a value of the table is a row of the table. */
  lemma {:induction false} LookupMember<T>(t: seq<(T, nat)>, v: T)
    requires v in Keys(t)
    ensures (v, Lookup(t, v)) in t
  {
    if t[0].0 != v {
      assert Keys(t)[1..] == Keys(t[1..]);
      LookupMember(t[1..], v);
    }
  }

  /** Every record has one of the five purchase frequencies. */
  lemma {:induction false} FiveCategories(s: seq<PurchaseFrequency>)
    ensures multiset(s)[Never] + multiset(s)[Rarely] + multiset(s)[Occasionally]
            + multiset(s)[Frequently] + multiset(s)[VeryFrequently] == |s|
  {
    if s != [] {
      var init, x := s[..|s| - 1], s[|s| - 1];
      assert s == init + [x];
      assert multiset(s) == multiset(init) + multiset{x};
      FiveCategories(init);
      assert x == Never || x == Rarely || x == Occasionally || x == Frequently || x == VeryFrequently;
    }
  }

  // ---------------------------------------------------------------------
  // Category value counts

  /** value_counts() of a column as a chart: None for an empty table. */
  function CountChart<T(==,!new)>(column: seq<T>): (r: Option<seq<(T, nat)>>)
    ensures r.None? <==> column == []
  {
    if column == [] then None else Some(ValueCounts(column))
  }

  /** A count chart has one row per distinct value of the column, holding the
      value's number of occurrences, most frequent first; the counts add up to
      the length of the column. */
  lemma CountChartSpec<T(!new)>(column: seq<T>)
    ensures CountChart(column).Some? ==>
      && Distinct(Keys(CountChart(column).value))
      && SortedBy(CountChart(column).value, ByCount)
      && (forall row :: row in CountChart(column).value ==> row.0 in column && row.1 == multiset(column)[row.0])
      && (forall v :: v in column ==> (v, multiset(column)[v]) in CountChart(column).value)
      && SumCounts(CountChart(column).value) == |column|
  {
    ValueCountsSpec(column);
    SortedTallyDistinct(column, ByCount);
  }

  /** plot_gender_distribution's table. */
  function GenderChart(data: seq<FanRecord>): (r: Option<seq<(Gender, nat)>>)
    ensures r.None? <==> data == []
    ensures r.Some? ==> SumCounts(r.value) == |data|
    ensures r.Some? ==> forall g :: g in Genders(data) ==> (g, multiset(Genders(data))[g]) in r.value
  {
    CountChartSpec(Genders(data));
    CountChart(Genders(data))
  }

  /** plot_favorite_games's table. */
  function GameChart(data: seq<FanRecord>): (r: Option<seq<(Game, nat)>>)
    ensures r.None? <==> data == []
    ensures r.Some? ==> SumCounts(r.value) == |data|
    ensures r.Some? ==> forall g :: g in Games(data) ==> (g, multiset(Games(data))[g]) in r.value
  {
    CountChartSpec(Games(data));
    CountChart(Games(data))
  }

  /** plot_country_distribution's table: the first ten rows of the country
      value counts. */
  function CountryChart(data: seq<FanRecord>): (r: Option<seq<(string, nat)>>)
    ensures r.None? <==> data == []
    ensures r.Some? ==> |r.value| <= 10
  {
    if data == [] then None else Some(Take(ValueCounts(Countries(data)), 10))
  }

  /** At most ten countries are shown, most frequent first; no country left
      out has more records than a country shown. */
  lemma CountryChartSpec(data: seq<FanRecord>)
    ensures CountryChart(data).Some? ==> var rows := CountryChart(data).value;
      && |rows| == (if |set c | c in Countries(data)| < 10 then |set c | c in Countries(data)| else 10)
      && SortedBy(rows, ByCount)
      && (forall row :: row in rows ==> row.0 in Countries(data) && row.1 == multiset(Countries(data))[row.0])
      && (forall c, i :: c in Countries(data) && c !in Keys(rows) && 0 <= i < |rows| ==>
            multiset(Countries(data))[c] <= rows[i].1)
  {
    if data != [] {
      TopRowsKept(Countries(data), 10);
      TopRowsLeftOut(Countries(data), 10);
    }
  }

  /** The first k rows of a value count are sorted by count, each a value of
      the column with its number of occurrences. */
  lemma TopRowsKept<T(!new)>(s: seq<T>, k: nat)
    ensures |Take(ValueCounts(s), k)| == (if |set x | x in s| < k then |set x | x in s| else k)
    ensures SortedBy(Take(ValueCounts(s), k), ByCount)
    ensures forall row :: row in Take(ValueCounts(s), k) ==> row.0 in s && row.1 == multiset(s)[row.0]
  {
    var all := ValueCounts(s);
    var rows := Take(all, k);
    ValueCountsSpec(s);
    TakeSorted(all, ByCount, k);
    assert forall row :: row in rows ==> row in multiset(rows);
  }

  /** A value of the column left out of the first k rows of its value count
      occurs no more often than any value kept. */
  lemma TopRowsLeftOut<T(!new)>(s: seq<T>, k: nat)
    ensures forall c, i :: c in s && c !in Keys(Take(ValueCounts(s), k)) && 0 <= i < |Take(ValueCounts(s), k)| ==>
              multiset(s)[c] <= Take(ValueCounts(s), k)[i].1
  {
    forall c, i | c in s && c !in Keys(Take(ValueCounts(s), k)) && 0 <= i < |Take(ValueCounts(s), k)|
      ensures multiset(s)[c] <= Take(ValueCounts(s), k)[i].1
    {
      LeftOutValue(s, k, c, i);
    }
  }

  lemma LeftOutValue<T(!new)>(s: seq<T>, k: nat, c: T, i: nat)
    requires c in s && c !in Keys(Take(ValueCounts(s), k)) && i < |Take(ValueCounts(s), k)|
    ensures multiset(s)[c] <= Take(ValueCounts(s), k)[i].1
  {
    var all := ValueCounts(s);
    ValueCountsSpec(s);
    TakeSorted(all, ByCount, k);
    LeftOutNotAbove(all, |Take(all, k)|, (c, multiset(s)[c]), i);
  }

  /** In a table sorted by count, a row whose value is not among the first k
      rows counts no more than any of them. */
  lemma LeftOutNotAbove<T>(all: seq<(T, nat)>, k: nat, row: (T, nat), i: nat)
    requires SortedBy(all, ByCount) && k <= |all| && row in all
    requires row.0 !in Keys(all[..k]) && i < k
    ensures row.1 <= all[i].1
  {
    var j :| 0 <= j < |all| && all[j] == row;
    assert ByCount(all[i]) >= ByCount(all[j]);
  }

  // ---------------------------------------------------------------------
  // Years as a fan

  /** plot_fan_timeline's table: value_counts().sort_index() of fan_since. */
  function FanSinceChart(data: seq<FanRecord>): (r: Option<seq<(int, nat)>>)
    ensures r.None? <==> data == []
    ensures r.Some? ==> forall i, j :: 0 <= i < j < |r.value| ==> r.value[i].0 < r.value[j].0
    ensures r.Some? ==> forall row :: row in r.value ==> row.0 in FanSinces(data) && row.1 == multiset(FanSinces(data))[row.0]
    ensures r.Some? ==> forall y :: y in FanSinces(data) ==> (y, multiset(FanSinces(data))[y]) in r.value
    ensures r.Some? ==> SumCounts(r.value) == |data|
  {
    CountsByValueSpec(FanSinces(data));
    if data == [] then None else Some(CountsByValue(FanSinces(data)))
  }

  // ---------------------------------------------------------------------
  // Submissions per day

  /** The outcome of plot_engagement_over_time: no figure for an empty table;
      a failure when the timestamp column is not a datetime column (`.dt`
      raises); otherwise the number of records per calendar date. */
  datatype DateChart = NoData | NotDatetime | ByDate(rows: seq<(Date, nat)>)

  predicate AllStamped(data: seq<FanRecord>) {
    forall r :: r in data ==> r.timestamp.Stamp?
  }

  /** The `date` column: the calendar date of each timestamp. */
  function Dates(data: seq<FanRecord>): (ds: seq<Date>)
    requires AllStamped(data)
    ensures |ds| == |data|
    ensures forall d :: d in ds ==> ValidDate(d)
  {
    seq(|data|, i requires 0 <= i < |data| => DateOf(data[i].timestamp.time))
  }

  /** Key of a count row for groupby's order (earliest date first). */
  function ByDateAscending(row: (Date, nat)): int {
    -DateKey(row.0)
  }

  /** groupby('date').size() of a table whose timestamp column is a datetime
      column exactly when datetimeColumn holds. The kind of the column is a
      property of the whole store the table was selected from, not of the
      rows selected: one text timestamp anywhere in the store makes the column
      one of objects. */
  function DateCounts(data: seq<FanRecord>, datetimeColumn: bool): (c: DateChart)
    requires datetimeColumn ==> AllStamped(data)
    ensures c == NoData <==> data == []
    ensures c == NotDatetime <==> data != [] && !datetimeColumn
  {
    if data == [] then NoData
    else if datetimeColumn then ByDate(SortBy(TallyOf(Dates(data)), ByDateAscending))
    else NotDatetime
  }

  /** The per-date table of a datetime column has one row per date, in
      strictly chronological order, each holding the number of records of
      that date; the counts add up to the number of records. */
  lemma DateCountsSpec(data: seq<FanRecord>)
    requires data != [] && AllStamped(data)
    ensures DateCounts(data, true).ByDate?
    ensures forall i, j :: 0 <= i < j < |DateCounts(data, true).rows| ==>
              DateBefore(DateCounts(data, true).rows[i].0, DateCounts(data, true).rows[j].0)
    ensures forall row :: row in DateCounts(data, true).rows ==>
              row.0 in Dates(data) && row.1 == multiset(Dates(data))[row.0]
    ensures forall d :: d in Dates(data) ==> (d, multiset(Dates(data))[d]) in DateCounts(data, true).rows
    ensures SumCounts(DateCounts(data, true).rows) == |data|
  {
    var ds := Dates(data);
    SortedTallySpec(ds, ByDateAscending);
    SortedTallyDistinct(ds, ByDateAscending);
    Chronological(SortBy(TallyOf(ds), ByDateAscending));
  }

  /** The engagement page plots the filtered table, whose column has the
      store's kind. A store of datetimes stays one under any filters, and the
      chart fails exactly when something is left to plot and the store holds
      a text timestamp, even when every record left is a datetime. */
  lemma FilteredDateChart(store: seq<FanRecord>, spec: FilterSpec)
    ensures AllStamped(store) ==> AllStamped(ApplyFilters(store, spec))
    ensures DateCounts(ApplyFilters(store, spec), AllStamped(store)) == NotDatetime <==>
              ApplyFilters(store, spec) != [] && !AllStamped(store)
    ensures DateCounts(ApplyFilters(store, spec), AllStamped(store)).ByDate? <==>
              ApplyFilters(store, spec) != [] && AllStamped(store)
  {
    ApplyFiltersSpec(store, spec);
  }

  /** A store read at start-up from a file that holds records has text
      timestamps, so its per-date chart fails whatever the filters keep. */
  lemma StartupStoreNotDatetime(doc: Document)
    requires doc != []
    ensures !AllStamped(InitialStore(Stored(doc)))
  {
    assert doc[0] in doc;
  }

  /** Rows of valid, pairwise different dates sorted by date key are in
      strictly chronological order. */
  lemma Chronological(rows: seq<(Date, nat)>)
    requires SortedBy(rows, ByDateAscending)
    requires forall i, j :: 0 <= i < j < |rows| ==> rows[i].0 != rows[j].0
    requires forall row :: row in rows ==> ValidDate(row.0)
    ensures forall i, j :: 0 <= i < j < |rows| ==> DateBefore(rows[i].0, rows[j].0)
  {
    forall i, j | 0 <= i < j < |rows| ensures DateBefore(rows[i].0, rows[j].0) {
      var a, b := rows[i].0, rows[j].0;
      assert ByDateAscending(rows[i]) >= ByDateAscending(rows[j]);
      assert rows[i] in rows && rows[j] in rows;
      DateKeyChronological(a, b);
      DateKeyChronological(b, a);
    }
  }
}
