/** The social media page: the per-platform fan counts of its tabs, the
    platform_count column, its histogram, and the fans present everywhere. */
module Social {

  import opened Records
  import opened Counting
  import opened Charts

  /** filtered_data[filtered_data[p].notna()]: the records with a handle on
      p, in their order. The tab's metric is its length. */
  function WithHandle(rs: seq<FanRecord>, p: Platform): (sel: seq<FanRecord>)
    ensures forall r :: r in sel <==> r in rs && PresentOn(r, p)
  {
    if rs == [] then []
    else (if PresentOn(rs[0], p) then [rs[0]] else []) + WithHandle(rs[1..], p)
  }

  /** The metric of each tab is the bar of that platform in the presence chart. */
  lemma {:induction false} TabMatchesChart(rs: seq<FanRecord>, p: Platform)
    ensures |WithHandle(rs, p)| == NonNullCount(rs, p)
  {
    if rs != [] {
      TabMatchesChart(rs[1..], p);
    }
  }

  /** The platform_count column: the number of non-null handles of each record. */
  function PlatformCounts(rs: seq<FanRecord>): (c: seq<int>)
    ensures |c| == |rs|
  {
    if rs == [] then [] else [PlatformCount(rs[0]) as int] + PlatformCounts(rs[1..])
  }

  function Total(c: seq<int>): int {
    if c == [] then 0 else c[0] + Total(c[1..])
  }

  /** Counting by platform and counting by record agree: the four per-platform
      counts add up to the sum of the platform_count column. */
  lemma {:induction false} PresenceAddsUp(rs: seq<FanRecord>)
    ensures NonNullCount(rs, Instagram) + NonNullCount(rs, Twitter) + NonNullCount(rs, Twitch)
            + NonNullCount(rs, Discord) == Total(PlatformCounts(rs))
  {
    if rs != [] {
      PresenceAddsUp(rs[1..]);
      PlatformCountSpec(rs[0]);
    }
  }

  /** Every entry of the platform_count column lies in 0..4. */
  lemma {:induction false} PlatformCountsRange(rs: seq<FanRecord>)
    ensures forall i :: 0 <= i < |rs| ==> 0 <= PlatformCounts(rs)[i] <= 4 && PlatformCounts(rs)[i] == PlatformCount(rs[i])
  {
    if rs != [] {
      PlatformCountsRange(rs[1..]);
      PlatformCountSpec(rs[0]);
    }
  }

  /** value_counts().sort_index() of platform_count: no rows exactly for an
      empty table. */
  function PlatformHistogram(rs: seq<FanRecord>): (h: seq<(int, nat)>)
    ensures h == [] <==> rs == []
  {
    CountsByValueSpec(PlatformCounts(rs));
    assert rs != [] ==> PlatformCounts(rs)[0] in PlatformCounts(rs);
    CountsByValue(PlatformCounts(rs))
  }

  /** The histogram lists numbers of platforms in increasing order, each in
      0..4 with the number of records that have it, every number that occurs
      has its row, and the counts add up to the number of records. */
  lemma PlatformHistogramSpec(rs: seq<FanRecord>)
    ensures forall i, j :: 0 <= i < j < |PlatformHistogram(rs)| ==> PlatformHistogram(rs)[i].0 < PlatformHistogram(rs)[j].0
    ensures forall row :: row in PlatformHistogram(rs) ==>
              0 <= row.0 <= 4 && row.1 == multiset(PlatformCounts(rs))[row.0] && row.1 > 0
    ensures forall i :: 0 <= i < |rs| ==>
              (PlatformCount(rs[i]) as int, multiset(PlatformCounts(rs))[PlatformCount(rs[i])]) in PlatformHistogram(rs)
    ensures SumCounts(PlatformHistogram(rs)) == |rs|
  {
    var c := PlatformCounts(rs);
    CountsByValueSpec(c);
    PlatformCountsRange(rs);
    assert forall i :: 0 <= i < |rs| ==> c[i] in c;
  }

  /** The records with a handle on all four platforms, in their order. */
  function AllPlatformFans(rs: seq<FanRecord>): (all: seq<FanRecord>)
    ensures |all| <= |rs|
    ensures forall r :: r in all ==> r in rs && PlatformCount(r) == 4
  {
    if rs == [] then []
    else (if PlatformCount(rs[0]) == |Platforms| then [rs[0]] else []) + AllPlatformFans(rs[1..])
  }

  /** The fans shown as present everywhere are exactly the records with all
      four handles non-null, and there are as many as the histogram's row
      for four platforms says. */
  lemma {:induction false} AllPlatformFansSpec(rs: seq<FanRecord>)
    ensures forall r :: r in AllPlatformFans(rs) <==>
              r in rs && r.instagram.Some? && r.twitter.Some? && r.twitch.Some? && r.discord.Some?
    ensures |AllPlatformFans(rs)| == multiset(PlatformCounts(rs))[4]
  {
    if rs != [] {
      AllPlatformFansSpec(rs[1..]);
      PlatformCountSpec(rs[0]);
      assert PlatformCounts(rs) == [PlatformCount(rs[0]) as int] + PlatformCounts(rs[1..]);
      assert forall r :: r in rs <==> r == rs[0] || r in rs[1..];
    }
  }

  /** Three records on none, two and all four platforms give one record each
      at 0, 2 and 4 platforms. */
  lemma HistogramExample(a: FanRecord, b: FanRecord, c: FanRecord)
    requires a.instagram.None? && a.twitter.None? && a.twitch.None? && a.discord.None?
    requires b.instagram.Some? && b.twitter.None? && b.twitch.None? && b.discord.Some?
    requires c.instagram.Some? && c.twitter.Some? && c.twitch.Some? && c.discord.Some?
    ensures PlatformHistogram([a, b, c]) == [(0, 1), (2, 1), (4, 1)]
  {
    ExampleCounts(a, b, c);
    CountsExample(PlatformCounts([a, b, c]));
  }

  lemma ExampleCounts(a: FanRecord, b: FanRecord, c: FanRecord)
    requires a.instagram.None? && a.twitter.None? && a.twitch.None? && a.discord.None?
    requires b.instagram.Some? && b.twitter.None? && b.twitch.None? && b.discord.Some?
    requires c.instagram.Some? && c.twitter.Some? && c.twitch.Some? && c.discord.Some?
    ensures PlatformCounts([a, b, c]) == [0, 2, 4]
  {
    PlatformCountSpec(a);
    PlatformCountSpec(b);
    PlatformCountSpec(c);
    PlatformCountsRange([a, b, c]);
  }

  lemma CountsExample(s: seq<int>)
    requires s == [0, 2, 4]
    ensures CountsByValue(s) == [(0, 1), (2, 1), (4, 1)]
  {
    CountsByValueSpec(s);
    ExampleValues(s);
    ThreeIncreasingRows(CountsByValue(s));
  }

  lemma ExampleValues(s: seq<int>)
    requires s == [0, 2, 4]
    ensures |set x | x in s| == 3
    ensures forall v :: v in s ==> (v == 0 || v == 2 || v == 4) && multiset(s)[v] == 1
  {
    assert (set x | x in s) == {0, 2, 4};
  }

  lemma ThreeIncreasingRows(h: seq<(int, nat)>)
    requires |h| == 3
    requires forall i, j :: 0 <= i < j < |h| ==> h[i].0 < h[j].0
    requires forall row :: row in h ==> (row.0 == 0 || row.0 == 2 || row.0 == 4) && row.1 == 1
    ensures h == [(0, 1), (2, 1), (4, 1)]
  {
    assert h[0] in h && h[1] in h && h[2] in h;
  }
}
