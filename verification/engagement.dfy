/** The engagement score, the loyalty segments derived from it, and the
    selection of the top fans. */
module Engagement {

  import opened Wrappers
  import opened Records
  import opened Counting

  /** The fixed purchase_scores table. */
  function PurchaseWeight(p: PurchaseFrequency): (w: nat)
    ensures w <= 40
    ensures w == 0 <==> p == Never
  {
    match p
    case Never => 0
    case Rarely => 5
    case Occasionally => 15
    case Frequently => 25
    case VeryFrequently => 40
  }

  /** The score the accumulation computes for one record: ten points per year
      as a fan, the purchase weight, five per engagement list entry and five
      per non-null handle. A record in the survey's domain scores between 0
      and 190. */
  function EngagementScore(r: FanRecord): (score: int)
    ensures ValidRecord(r) ==> 0 <= score <= 190
  {
    ScoreTerms(r);
    r.fanSince * 10 + PurchaseWeight(r.purchaseFrequency) + EngagementCount(r) * 5 + PlatformCount(r) * 5
  }

  /** The engagement_score column, built up in place as the page does: start
      at 0, add the years-as-fan term, the purchase weight and the engagement
      term, then five per platform, one platform column at a time. */
  method AccumulateScores(data: seq<FanRecord>) returns (score: array<int>)
    ensures fresh(score)
    ensures score.Length == |data|
    ensures forall i :: 0 <= i < |data| ==> score[i] == EngagementScore(data[i])
  {
    var n := |data|;
    score := new int[n](_ => 0);
    for i := 0 to n
      invariant forall j :: 0 <= j < i ==> score[j] == data[j].fanSince * 10
      invariant forall j :: i <= j < n ==> score[j] == 0
    {
      score[i] := score[i] + data[i].fanSince * 10;
    }
    for i := 0 to n
      invariant forall j :: 0 <= j < i ==> score[j] == data[j].fanSince * 10 + PurchaseWeight(data[j].purchaseFrequency)
      invariant forall j :: i <= j < n ==> score[j] == data[j].fanSince * 10
    {
      score[i] := score[i] + PurchaseWeight(data[i].purchaseFrequency);
    }
    for i := 0 to n
      invariant forall j :: 0 <= j < i ==> score[j] == BaseScore(data[j])
      invariant forall j :: i <= j < n ==> score[j] == data[j].fanSince * 10 + PurchaseWeight(data[j].purchaseFrequency)
    {
      score[i] := score[i] + EngagementCount(data[i]) * 5;
    }
    for k := 0 to |Platforms|
      invariant forall j :: 0 <= j < n ==> score[j] == BaseScore(data[j]) + PresentAmong(data[j], k) * 5
    {
      AddPlatformTerm(score, data, k);
    }
  }

  /** One platform column's pass: five more points for every record with a
      handle on the k-th platform. */
  method AddPlatformTerm(score: array<int>, data: seq<FanRecord>, k: nat)
    requires score.Length == |data| && k < |Platforms|
    requires forall j :: 0 <= j < |data| ==> score[j] == BaseScore(data[j]) + PresentAmong(data[j], k) * 5
    modifies score
    ensures forall j :: 0 <= j < |data| ==> score[j] == BaseScore(data[j]) + PresentAmong(data[j], k + 1) * 5
  {
    var platform := Platforms[k];
    for i := 0 to |data|
      invariant forall j :: 0 <= j < i ==> score[j] == BaseScore(data[j]) + PresentAmong(data[j], k + 1) * 5
      invariant forall j :: i <= j < |data| ==> score[j] == BaseScore(data[j]) + PresentAmong(data[j], k) * 5
    {
      score[i] := score[i] + (if PresentOn(data[i], platform) then 5 else 0);
    }
  }

  /** The score before the platform terms. */
  function BaseScore(r: FanRecord): int {
    r.fanSince * 10 + PurchaseWeight(r.purchaseFrequency) + EngagementCount(r) * 5
  }

  /** The terms of the score of a record in the survey's domain: at most ten
      years, six activities and four platforms. */
  lemma ScoreTerms(r: FanRecord)
    ensures ValidRecord(r) ==> 0 <= r.fanSince <= 10 && EngagementCount(r) <= 6
    ensures PlatformCount(r) <= 4
  {
    if ValidRecord(r) {
      AtMostSixActivities(r.engagement.value);
    }
    PlatformCountSpec(r);
  }

  // ---------------------------------------------------------------------
  // Segments

  datatype Segment = Casual | Regular | Dedicated | Superfan

  /** segment_fan: each segment is exactly one half-open score band. */
  function SegmentOf(score: int): (seg: Segment)
    ensures seg == Casual <==> score < 30
    ensures seg == Regular <==> 30 <= score < 60
    ensures seg == Dedicated <==> 60 <= score < 90
    ensures seg == Superfan <==> 90 <= score
  {
    if score < 30 then Casual
    else if score < 60 then Regular
    else if score < 90 then Dedicated
    else Superfan
  }

  /** Position of a segment in the loyalty order. */
  function Tier(s: Segment): nat {
    match s
    case Casual => 0
    case Regular => 1
    case Dedicated => 2
    case Superfan => 3
  }

  lemma SegmentBoundaries()
    ensures SegmentOf(29) == Casual && SegmentOf(30) == Regular
    ensures SegmentOf(59) == Regular && SegmentOf(60) == Dedicated
    ensures SegmentOf(89) == Dedicated && SegmentOf(90) == Superfan
  {
  }

  /** A higher score never falls in a lower segment. */
  lemma SegmentMonotone(a: int, b: int)
    requires a <= b
    ensures Tier(SegmentOf(a)) <= Tier(SegmentOf(b))
  {
  }

  /** The score band of a segment. */
  predicate InBand(seg: Segment, score: int) {
    match seg
    case Casual => score < 30
    case Regular => 30 <= score < 60
    case Dedicated => 60 <= score < 90
    case Superfan => 90 <= score
  }

  /** The segment column: one label per record, the one whose band holds the
      record's score (the bands do not overlap, so that label is unique). */
  function Segments(data: seq<FanRecord>): (segs: seq<Segment>)
    ensures |segs| == |data|
    ensures forall i :: 0 <= i < |data| ==> InBand(segs[i], EngagementScore(data[i]))
  {
    seq(|data|, i requires 0 <= i < |data| => SegmentOf(EngagementScore(data[i])))
  }

  /** fan_segment.value_counts(): one row per segment that occurs, with its
      number of records; the counts add up to the number of records. */
  function SegmentCounts(data: seq<FanRecord>): (counts: seq<(Segment, nat)>)
    ensures SumCounts(counts) == |data|
    ensures forall row :: row in counts ==> row.1 == multiset(Segments(data))[row.0] && row.1 > 0
    ensures |counts| <= 4
  {
    SegmentRows(Segments(data));
    ValueCounts(Segments(data))
  }

  /** At most four rows, one per segment that occurs. */
  lemma SegmentRows(segs: seq<Segment>)
    ensures SumCounts(ValueCounts(segs)) == |segs|
    ensures forall row :: row in ValueCounts(segs) ==> row.1 == multiset(segs)[row.0] && row.1 > 0
    ensures |ValueCounts(segs)| <= 4
  {
    ValueCountsSpec(segs);
    var present := set x | x in segs;
    assert present <= {Casual, Regular, Dedicated, Superfan} by {
      forall x | x in present ensures x in {Casual, Regular, Dedicated, Superfan} {
        match x case Casual => case Regular => case Dedicated => case Superfan =>
      }
    }
    SubsetCard(present, {Casual, Regular, Dedicated, Superfan});
  }

  // ---------------------------------------------------------------------
  // Top fans

  /** A record with its score. */
  function Scored(data: seq<FanRecord>): (rows: seq<(FanRecord, int)>)
    ensures |rows| == |data|
    ensures forall i :: 0 <= i < |data| ==> rows[i].0 == data[i]
    ensures forall row :: row in rows ==> row.1 == EngagementScore(row.0)
  {
    seq(|data|, i requires 0 <= i < |data| => (data[i], EngagementScore(data[i])))
  }

  function ByScore(row: (FanRecord, int)): int { row.1 }

  /** sort_values('engagement_score', ascending=False).head(10): ten rows,
      or all of them when there are fewer. */
  function TopFans(data: seq<FanRecord>): (top: seq<(FanRecord, int)>)
    ensures |top| == if |data| < 10 then |data| else 10
  {
    Take(SortBy(Scored(data), ByScore), 10)
  }

  /** The top fans are scored records, by non-increasing score, none of them
      repeated. */
  lemma TopFansSpec(data: seq<FanRecord>)
    ensures forall i, j :: 0 <= i < j < |TopFans(data)| ==> TopFans(data)[i].1 >= TopFans(data)[j].1
    ensures multiset(TopFans(data)) <= multiset(Scored(data))
    ensures forall row :: row in TopFans(data) ==> row.0 in data && row.1 == EngagementScore(row.0)
  {
    var sorted := SortBy(Scored(data), ByScore);
    var top := TopFans(data);
    TakeSorted(sorted, ByScore, 10);
    forall row | row in top ensures row.0 in data && row.1 == EngagementScore(row.0) {
      assert row in multiset(top);
      ScoredRow(data, row);
    }
  }

  /** No record left out of the top fans scores above a record kept. */
  lemma TopFansLeftOut(data: seq<FanRecord>, row: (FanRecord, int), i: nat)
    requires row in multiset(Scored(data)) - multiset(TopFans(data)) && i < |TopFans(data)|
    ensures row.1 <= TopFans(data)[i].1
  {
    var sorted := SortBy(Scored(data), ByScore);
    TakeSorted(sorted, ByScore, 10);
    TakeLeftOut(sorted, ByScore, 10, row, i);
  }

  lemma ScoredRow(data: seq<FanRecord>, row: (FanRecord, int))
    requires row in multiset(Scored(data))
    ensures row.0 in data && row.1 == EngagementScore(row.0)
  {
    var i :| 0 <= i < |data| && Scored(data)[i] == row;
  }

  // ---------------------------------------------------------------------
  // Worked examples of the scoring rule

  /** Two years, Occasionally, two activities, Instagram and Discord: 55, Regular. */
  lemma ExampleRegular(r: FanRecord)
    requires r.fanSince == 2 && r.purchaseFrequency == Occasionally
    requires r.engagement == Some([WatchOnline, FollowSocial])
    requires r.instagram.Some? && r.discord.Some? && r.twitter.None? && r.twitch.None?
    ensures EngagementScore(r) == 55 && SegmentOf(EngagementScore(r)) == Regular
  {
    PlatformCountSpec(r);
  }

  /** Nothing at all: 0, Casual. */
  lemma ExampleCasual(r: FanRecord)
    requires r.fanSince == 0 && r.purchaseFrequency == Never && r.engagement == Some([])
    requires r.instagram.None? && r.twitter.None? && r.twitch.None? && r.discord.None?
    ensures EngagementScore(r) == 0 && SegmentOf(EngagementScore(r)) == Casual
  {
    PlatformCountSpec(r);
  }
}
