/** `analyze_checkins`: the single pass followed by the reductions that turn
    its accumulators into the statistics record. Percentages and averages are
    left as their integer numerators and denominators; date and time strings
    are left as the underlying day numbers and timestamps. */
module Analysis {
  import opened CheckIns
  import opened Counters
  import opened Ranking
  import Extremes
  import opened HourFormat
  import opened Streak
  import opened Venues
  import opened MapPoints
  import opened Aggregate

  /** One row of `top_venues`. */
  datatype TopVenue = TopVenue(
    name: string,
    count: nat,
    category: string,
    city: string,
    state: string,
    country: string)

  /** `first_checkin` / `last_checkin`: the venue name shown and the
      timestamp the date and time strings are rendered from. */
  datatype Moment = Moment(venue: string, createdAt: int)

  datatype Stats = Stats(
    totalCheckins: nat,
    uniqueVenues: nat,
    topVenues: seq<TopVenue>,
    topCategories: Counter<string>,
    uniqueCategories: nat,
    topCities: Counter<string>,
    uniqueCities: nat,
    countries: Counter<string>,
    hourly: Counter<Hour>,
    monthly: Counter<string>,
    daily: Counter<string>,
    peakHour: Hour,
    peakHourLabel: string,
    busiestDay: string,
    busiestMonth: string,
    daysActive: nat,
    totalDays: int,
    maxDay: Option<int>,
    maxDayCount: nat,
    longestStreak: nat,
    withFriends: nat,
    topFriends: Counter<string>,
    solo: int,
    withShouts: nat,
    totalPhotos: nat,
    morning: nat,
    afternoon: nat,
    evening: nat,
    night: nat,
    personality: string,
    weekend: nat,
    weekday: nat,
    first: Moment,
    last: Moment,
    mapPoints: seq<MapPoint>)

  /** The hours `lo .. hi - 1`, in order. */
  function HourRange(lo: int, hi: int): (r: seq<Hour>)
    requires 0 <= lo <= hi <= 24
    ensures |r| == hi - lo
    ensures forall i :: 0 <= i < |r| ==> r[i] == lo + i
  {
    seq(hi - lo, i requires 0 <= i < hi - lo => (lo + i) as Hour)
  }

  /** The keys of `hourly_distribution`. */
  const HourDomain: seq<Hour> := HourRange(0, 24)

  /** The time-of-day buckets: 5-11, 12-16, 17-20, and 21-23 with 0-4. */
  const Morning: seq<Hour> := HourRange(5, 12)
  const Afternoon: seq<Hour> := HourRange(12, 17)
  const Evening: seq<Hour> := HourRange(17, 21)
  const Night: seq<Hour> := HourRange(21, 24) + HourRange(0, 5)

  /** Saturday and Sunday. */
  const WeekendDays: seq<string> := DayNames[5..]

  /** Monday to Friday. */
  const WorkDays: seq<string> := DayNames[..5]

  /** `time_personalities`, in the order of the buckets. */
  const Personalities: seq<string> := ["Early Bird", "Day Explorer", "Evening Wanderer", "Night Owl"]

  /** `max(counter, key=counter.get) if counter else default`. */
  function PeakKey<K>(c: Counter<K>, default: K): K {
    if |c| == 0 then default else c[PeakIndex(c)].key
  }

  /** A `top_venues` row as lines 143-153 build it: the details of the first
      cached venue with the name, "" for each when there is none. The source
      only gets this far when every top name has a cached venue (see
      `FirstListingRaises`); the empty details are the intended reading of the
      other case. */
  function Detailed(cache: Cache, e: Entry<string>): TopVenue {
    match FindByName(cache, e.key)
    case Some(v) => TopVenue(e.key, e.count, v.category, v.city, v.state, v.country)
    case None => TopVenue(e.key, e.count, "", "", "", "")
  }

  function TopVenues(cache: Cache, venueCounts: Counter<string>): seq<TopVenue>
    requires DistinctKeys(venueCounts)
  {
    var top := MostCommon(venueCounts, Top(10));
    seq(|top|, i requires 0 <= i < |top| => Detailed(cache, top[i]))
  }

  /** The first `top_venues` listing (lines 131-140), which line 154 replaces,
      as written. For each ranked name it evaluates
      `venues.get(next(<ids of cached venues with the name>, {}), {})`. When no
      cached venue carries the name, `next` yields the dict `{}`, which cannot
      be a dict key, so `get` raises `TypeError` and the analysis stops.
      The result is whether that happens for one of the names in `top`. */
  function FirstListingRaises(cache: Cache, top: Counter<string>): (raises: bool)
    ensures raises <==> exists i :: 0 <= i < |top| && FindByName(cache, top[i].key).None?
  {
    if |top| == 0 then false
    else if FindByName(cache, top[0].key).None? then true
    else
      assert forall i :: 1 <= i < |top| ==> top[i] == top[1..][i - 1];
      FirstListingRaises(cache, top[1..])
  }

  function CreatedAts(cs: seq<CheckIn>): seq<int> {
    seq(|cs|, i requires 0 <= i < |cs| => CreatedAt(cs[i]))
  }

  function MomentOf(c: CheckIn): Moment {
    Moment(ShownVenueName(c), CreatedAt(c))
  }

  /** Every counter of the pass has each key once. */
  lemma PassDistinct(cs: seq<CheckIn>)
    ensures var acc := Pass(cs);
      && DistinctKeys(acc.venueCounts) && DistinctKeys(acc.categoryCounts)
      && DistinctKeys(acc.cityCounts) && DistinctKeys(acc.countryCounts)
      && DistinctKeys(acc.friendCounts) && DistinctKeys(acc.perDay)
  {
    PassVenues(cs);
    PassCategories(cs);
    PassCities(cs);
    PassCountries(cs);
    PassFriends(cs);
    PassCalendar(cs);
  }

  /** The sorted distinct active dates. */
  function SortedDays(acc: Acc): seq<int>
    requires DistinctKeys(acc.perDay)
  {
    SortDays(Keys(acc.perDay))
  }

  /** `sum(hourly.get(h, 0) for h in hours)`. */
  function HoursTotal(acc: Acc, hours: seq<Hour>): nat {
    Total(Dense(acc.hourly, hours))
  }

  /** The four time-of-day totals, in the order morning, afternoon, evening,
      night. */
  function TimeOfDay(acc: Acc): (b: seq<int>)
    ensures |b| == 4
  {
    [HoursTotal(acc, Morning), HoursTotal(acc, Afternoon), HoursTotal(acc, Evening), HoursTotal(acc, Night)]
  }

  /** The label of the first bucket with the largest total. */
  function Personality(acc: Acc): string {
    Personalities[Extremes.ArgMax(TimeOfDay(acc))]
  }

  /** `max(checkins_per_day, key=checkins_per_day.get)`. */
  function MaxDay(acc: Acc): Option<int> {
    if |acc.perDay| > 0 then Some(acc.perDay[PeakIndex(acc.perDay)].key) else None
  }

  function MaxDayCount(acc: Acc): nat {
    match MaxDay(acc)
    case Some(d) => Get(acc.perDay, d)
    case None => 0
  }

  /** `daily.get("Saturday", 0) + daily.get("Sunday", 0)`, as the sum over
      the weekend rows. */
  function Weekend(acc: Acc): nat {
    Total(Dense(acc.daily, WeekendDays))
  }

  /** `sum(daily.get(d, 0) for d in [Monday .. Friday])`. */
  function Weekday(acc: Acc): nat {
    Total(Dense(acc.daily, WorkDays))
  }

  /** `min(checkins, key=createdAt)`: the first check-in with the smallest
      timestamp. */
  function FirstMoment(cs: seq<CheckIn>): Moment
    requires |cs| > 0
  {
    MomentOf(cs[Extremes.ArgMin(CreatedAts(cs))])
  }

  /** `max(checkins, key=createdAt)`: the first check-in with the largest
      timestamp. */
  function LastMoment(cs: seq<CheckIn>): Moment
    requires |cs| > 0
  {
    MomentOf(cs[Extremes.ArgMax(CreatedAts(cs))])
  }

  /** The statistics of a non-empty list of check-ins. */
  function Summarize(cs: seq<CheckIn>): Stats
    requires |cs| > 0
  {
    var acc := Pass(cs);
    PassDistinct(cs);
    var sorted := SortedDays(acc);
    var peak := PeakKey(acc.hourly, 0);
    Stats(
      |cs|,
      |acc.cache|,
      TopVenues(acc.cache, acc.venueCounts),
      MostCommon(acc.categoryCounts, Top(10)),
      |acc.categoryCounts|,
      MostCommon(acc.cityCounts, Top(10)),
      |acc.cityCounts|,
      MostCommon(acc.countryCounts, All),
      Dense(acc.hourly, HourDomain),
      Dense(acc.monthly, MonthNames),
      Dense(acc.daily, DayNames),
      peak,
      FormatHour(peak),
      PeakKey(acc.daily, "Unknown"),
      PeakKey(acc.monthly, "Unknown"),
      |acc.perDay|,
      Span(sorted),
      MaxDay(acc),
      MaxDayCount(acc),
      LongestStreak(sorted),
      acc.extras.withFriends,
      MostCommon(acc.friendCounts, Top(5)),
      |cs| - acc.extras.withFriends,
      acc.extras.withShouts,
      acc.extras.photos,
      HoursTotal(acc, Morning),
      HoursTotal(acc, Afternoon),
      HoursTotal(acc, Evening),
      HoursTotal(acc, Night),
      Personality(acc),
      Weekend(acc),
      Weekday(acc),
      FirstMoment(cs),
      LastMoment(cs),
      Render(acc.buckets))
  }

  /** `analyze_checkins(checkins)`: no statistics at all for an empty list,
      otherwise a record whose `total_checkins` is the number of check-ins. */
  function Analyze(cs: seq<CheckIn>): (r: Option<Stats>)
    ensures r.None? <==> |cs| == 0
    ensures r.Some? ==> r.value.totalCheckins == |cs|
  {
    if |cs| == 0 then None else Some(Summarize(cs))
  }
}
