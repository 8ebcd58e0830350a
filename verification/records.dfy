/** The fan record: one survey submission as the store holds it. */
module Records {

  import opened Wrappers
  import opened Timestamps
  import Counting

  datatype Gender = Male | Female | NonBinary | PreferNotToSay

  datatype Game = CounterStrike | LeagueOfLegends | Valorant | ApexLegends | OtherGame

  /** The six engagement activities offered by the survey. */
  datatype Activity = WatchOnline | AttendLive | PurchaseMerchandise | FollowSocial
                    | FanCommunities | OtherActivity

  /** Purchase frequency, in the order of the survey's slider. */
  datatype PurchaseFrequency = Never | Rarely | Occasionally | Frequently | VeryFrequently

  datatype Platform = Instagram | Twitter | Twitch | Discord

  /** The four platform columns, in the order the pages list them. */
  const Platforms: seq<Platform> := [Instagram, Twitter, Twitch, Discord]

  /** A timestamp cell: a point in time, or the text it was saved as. The store
      read at start-up holds text, because that load does not re-parse. */
  datatype TimeValue = Stamp(time: Time) | Text(text: string)

  /** One record. A platform handle is None when the cell is null; the survey
      always stores a string there, possibly the empty one. The engagement
      cell is None when it does not hold a list. */
  datatype FanRecord = FanRecord(
    name: string,
    email: string,
    age: int,
    gender: Gender,
    country: string,
    city: string,
    fanSince: int,
    favoriteGame: Game,
    instagram: Option<string>,
    twitter: Option<string>,
    twitch: Option<string>,
    discord: Option<string>,
    engagement: Option<seq<Activity>>,
    purchaseFrequency: PurchaseFrequency,
    timestamp: TimeValue)

  function Handle(r: FanRecord, p: Platform): Option<string> {
    match p
    case Instagram => r.instagram
    case Twitter => r.twitter
    case Twitch => r.twitch
    case Discord => r.discord
  }

  /** notna(): a handle cell counts as present whenever it is not null, even
      when it holds the empty string. */
  predicate PresentOn(r: FanRecord, p: Platform) {
    Handle(r, p).Some?
  }

  /** Number of platforms among the first k of Platforms that r is present on. */
  function PresentAmong(r: FanRecord, k: nat): (n: nat)
    requires k <= |Platforms|
    ensures n <= k
  {
    if k == 0 then 0
    else PresentAmong(r, k - 1) + (if PresentOn(r, Platforms[k - 1]) then 1 else 0)
  }

  /** platform_count: the number of non-null handle cells of r. */
  function PlatformCount(r: FanRecord): (n: nat)
    ensures n <= |Platforms|
  {
    PresentAmong(r, 4)
  }

  lemma PlatformCountSpec(r: FanRecord)
    ensures PlatformCount(r) <= 4
    ensures PlatformCount(r) == 4 <==> forall p :: PresentOn(r, p)
    ensures PlatformCount(r) == 0 <==> forall p :: !PresentOn(r, p)
    ensures PlatformCount(r) == (if r.instagram.Some? then 1 else 0) + (if r.twitter.Some? then 1 else 0)
                                + (if r.twitch.Some? then 1 else 0) + (if r.discord.Some? then 1 else 0)
  {
    assert PresentAmong(r, 1) == (if r.instagram.Some? then 1 else 0);
    assert PresentAmong(r, 2) == PresentAmong(r, 1) + (if r.twitter.Some? then 1 else 0);
    assert PresentAmong(r, 3) == PresentAmong(r, 2) + (if r.twitch.Some? then 1 else 0);
    assert PresentAmong(r, 4) == PresentAmong(r, 3) + (if r.discord.Some? then 1 else 0);
    assert forall p :: PresentOn(r, p) <==> Handle(r, p).Some?;
    assert (forall p :: PresentOn(r, p)) <==> (r.instagram.Some? && r.twitter.Some? && r.twitch.Some? && r.discord.Some?) by {
      if r.instagram.Some? && r.twitter.Some? && r.twitch.Some? && r.discord.Some? {
        forall p ensures PresentOn(r, p) { match p case Instagram => case Twitter => case Twitch => case Discord => }
      } else {
        assert !PresentOn(r, Instagram) || !PresentOn(r, Twitter) || !PresentOn(r, Twitch) || !PresentOn(r, Discord);
      }
    }
    assert (forall p :: !PresentOn(r, p)) <==> (r.instagram.None? && r.twitter.None? && r.twitch.None? && r.discord.None?) by {
      if r.instagram.None? && r.twitter.None? && r.twitch.None? && r.discord.None? {
        forall p ensures !PresentOn(r, p) { match p case Instagram => case Twitter => case Twitch => case Discord => }
      } else {
        assert PresentOn(r, Instagram) || PresentOn(r, Twitter) || PresentOn(r, Twitch) || PresentOn(r, Discord);
      }
    }
  }

  /** Number of engagement activities: the length of the list (not the number
      of distinct entries), 0 when the cell does not hold a list. */
  function EngagementCount(r: FanRecord): nat {
    match r.engagement
    case Some(list) => |list|
    case None => 0
  }

  /** The record domain the survey form produces. */
  predicate ValidRecord(r: FanRecord) {
    && r.name != [] && r.email != [] && r.country != []
    && 10 <= r.age <= 100
    && 0 <= r.fanSince <= 10
    && r.engagement.Some?
    && Counting.Distinct(r.engagement.value)
  }

  /** A selection without repeats from the six activities has at most six
      entries. */
  lemma {:induction false} AtMostSixActivities(list: seq<Activity>)
    requires Counting.Distinct(list)
    ensures |list| <= 6
  {
    var all := {WatchOnline, AttendLive, PurchaseMerchandise, FollowSocial, FanCommunities, OtherActivity};
    var chosen := set a | a in list;
    assert chosen <= all by {
      forall a | a in chosen ensures a in all {
        match a
        case WatchOnline => case AttendLive => case PurchaseMerchandise =>
        case FollowSocial => case FanCommunities => case OtherActivity =>
      }
    }
    Counting.DistinctCard(list);
    assert |all| == 6;
    SubsetCard(chosen, all);
  }

  lemma SubsetCard<T>(a: set<T>, b: set<T>)
    requires a <= b
    ensures |a| <= |b|
  {
    assert b == a + (b - a);
  }
}
