/** What the statistics record says about the check-ins, stated without the
    loop: every field is related to the list of per-check-in values it is
    computed from. */
module Properties {
  import opened CheckIns
  import opened Counters
  import opened Ranking
  import Extremes
  import opened Streak
  import opened Venues
  import opened MapPoints
  import opened Aggregate
  import opened Analysis

  // Rankings

  /** `top_categories` ranks the primary categories of the check-ins' venues
      (top ten) and `unique_categories` counts the distinct ones. */
  lemma TopCategoriesRanked(cs: seq<CheckIn>)
    requires |cs| > 0
    ensures IsRanking(Summarize(cs).topCategories, Categories(cs), Top(10))
    ensures Summarize(cs).uniqueCategories == |Uniques(Categories(cs))|
  {
    PassCategories(cs);
    RankedTally(Categories(cs), Top(10));
    TallySize(Categories(cs));
  }

  /** `top_cities` ranks the city keys (top ten) and `unique_cities` counts
      the distinct ones. */
  lemma TopCitiesRanked(cs: seq<CheckIn>)
    requires |cs| > 0
    ensures IsRanking(Summarize(cs).topCities, CityKeys(cs), Top(10))
    ensures Summarize(cs).uniqueCities == |Uniques(CityKeys(cs))|
  {
    PassCities(cs);
    RankedTally(CityKeys(cs), Top(10));
    TallySize(CityKeys(cs));
  }

  /** `countries` ranks every country that occurs. */
  lemma CountriesRanked(cs: seq<CheckIn>)
    requires |cs| > 0
    ensures IsRanking(Summarize(cs).countries, Countries(cs), All)
  {
    PassCountries(cs);
    RankedTally(Countries(cs), All);
  }

  /** `top_friends` ranks the companion names (top five). */
  lemma TopFriendsRanked(cs: seq<CheckIn>)
    requires |cs| > 0
    ensures IsRanking(Summarize(cs).topFriends, Friends(cs), Top(5))
  {
    PassFriends(cs);
    RankedTally(Friends(cs), Top(5));
  }

  /** The name and count columns of `top_venues`. */
  function NameCounts(t: seq<TopVenue>): (r: Counter<string>)
    ensures |r| == |t|
    ensures forall i :: 0 <= i < |t| ==> r[i] == Entry(t[i].name, t[i].count)
  {
    seq(|t|, i requires 0 <= i < |t| => Entry(t[i].name, t[i].count))
  }

  /** The details shown for a venue name: those of the earliest check-in
      that carries the name and is the first with its venue id. When no such
      check-in exists the source raises at line 136 before it reaches lines
      143-153 (`FirstListingRaisesWhen`); the empty strings here are what
      lines 143-153 evidently intend for that case. */
  ghost predicate ShowsDetails(cs: seq<CheckIn>, row: TopVenue) {
    if forall r :: FirstOfId(cs, r) ==> VenueName(cs[r]) != row.name then
      row.category == "" && row.city == "" && row.state == "" && row.country == ""
    else
      exists r :: (FirstOfId(cs, r) && VenueName(cs[r]) == row.name
        && (forall r' :: 0 <= r' < r && FirstOfId(cs, r') ==> VenueName(cs[r']) != row.name)
        && var v := InfoOf(cs[r]);
        row.category == v.category && row.city == v.city && row.state == v.state && row.country == v.country)
  }

  lemma DetailedShows(cs: seq<CheckIn>, e: Entry<string>)
    ensures ShowsDetails(cs, Detailed(BuildCache(cs), e))
    ensures Detailed(BuildCache(cs), e).name == e.key && Detailed(BuildCache(cs), e).count == e.count
  {
    FindByNameFirst(cs, e.key);
  }

  /** `top_venues` ranks the venue names of the check-ins (top ten), each row
      with the details of the first cached venue carrying the name, or empty
      details where the source raises instead (`RenamedVenue`). */
  lemma TopVenuesRanked(cs: seq<CheckIn>)
    requires |cs| > 0
    ensures IsRanking(NameCounts(Summarize(cs).topVenues), Names(cs), Top(10))
    ensures forall i :: 0 <= i < |Summarize(cs).topVenues| ==> ShowsDetails(cs, Summarize(cs).topVenues[i])
  {
    var acc := Pass(cs);
    PassVenues(cs);
    PassCache(cs);
    var top := MostCommon(acc.venueCounts, Top(10));
    var t := Summarize(cs).topVenues;
    assert t == TopVenues(acc.cache, acc.venueCounts);
    forall i | 0 <= i < |t| ensures ShowsDetails(cs, t[i]) && NameCounts(t)[i] == top[i] {
      DetailedShows(cs, top[i]);
    }
    assert NameCounts(t) == top;
    RankedTally(Names(cs), Top(10));
  }

  /** Lines 131-140 raise `TypeError` exactly when some ranked venue name is
      carried by no check-in that is the first with its venue id: a venue
      renamed after its first visit, or two id-less venues with different
      names. */
  lemma FirstListingRaisesWhen(cs: seq<CheckIn>)
    ensures var top := MostCommon(Tally(Names(cs)), Top(10));
      FirstListingRaises(BuildCache(cs), top)
      <==> exists i :: 0 <= i < |top| && forall r :: FirstOfId(cs, r) ==> VenueName(cs[r]) != top[i].key
  {
    var top := MostCommon(Tally(Names(cs)), Top(10));
    forall i | 0 <= i < |top|
      ensures FindByName(BuildCache(cs), top[i].key).None?
        <==> forall r :: FirstOfId(cs, r) ==> VenueName(cs[r]) != top[i].key
    {
      FindByNameFirst(cs, top[i].key);
    }
  }

  /** One venue, id "X", visited twice and renamed in between, "A" then "B".
      Lines 131-140 raise on this input; the listing of lines 143-154 shows
      "B" with empty details. */
  lemma RenamedVenue()
    ensures var cs := [Visit("X", "A"), Visit("X", "B")];
      && FirstListingRaises(BuildCache(cs), MostCommon(Tally(Names(cs)), Top(10)))
      && Detailed(BuildCache(cs), Entry("B", 1)) == TopVenue("B", 1, "", "", "", "")
  {
    var cs := [Visit("X", "A"), Visit("X", "B")];
    assert Names(cs) == ["A", "B"];
    TallyOfTwo("A", "B");
    var top := MostCommon(Tally(Names(cs)), Top(10));
    var i := KeptOfTwo(Entry("A", 1), Entry("B", 1), 10);
    RenamedCache();
    assert FindByName(BuildCache(cs), top[i].key).None?;
  }

  lemma TallyOfTwo(a: string, b: string)
    requires a != b
    ensures Tally([a, b]) == [Entry(a, 1), Entry(b, 1)]
  {
    assert [a, b][..1] == [a] && [a][..0] == [];
    var t := Tally([a]);
    assert t == Inc(Tally([]), a);
    assert t == [Entry(a, 1)];
    assert Inc(t, b) == [Entry(a, 1)] + Inc(t[1..], b);
  }

  /** A ranking of at least two places keeps both entries of a two-entry
      counter. */
  lemma KeptOfTwo<K>(x: Entry<K>, y: Entry<K>, n: nat) returns (i: int)
    requires x.key != y.key && n >= 2
    ensures DistinctKeys([x, y])
    ensures var top := MostCommon([x, y], Top(n)); 0 <= i < |top| && top[i] == y
  {
    assert Keys([x, y]) == [x.key, y.key];
    var top := MostCommon([x, y], Top(n));
    assert Keys(top)[0] == top[0].key && Keys(top)[1] == top[1].key;
    i := if top[0] == y then 0 else 1;
  }

  /** The cache of the renamed venue holds its first name only. */
  lemma RenamedCache()
    ensures var cache := BuildCache([Visit("X", "A"), Visit("X", "B")]);
      cache == [Cached("X", InfoOf(Visit("X", "A")))] && FindByName(cache, "B").None?
  {
    var cs := [Visit("X", "A"), Visit("X", "B")];
    assert cs[..1] == [cs[0]] && cs[..1][..0] == [];
  }

  /** A check-in at a venue with an id and a name and nothing else. */
  function Visit(id: string, name: string): CheckIn {
    CheckIn(Some(Venue(Some(id), Some(name), None, [])), None, 0, 0, 0, 0, [], None, 0)
  }

  /** `unique_venues` counts the distinct venue ids. */
  lemma UniqueVenuesCounted(cs: seq<CheckIn>)
    requires |cs| > 0
    ensures Summarize(cs).uniqueVenues == |Uniques(Ids(cs))|
  {
    PassCache(cs);
    CacheSize(cs);
  }

  // Distributions

  lemma HourRangeDistinct(lo: int, hi: int)
    requires 0 <= lo <= hi <= 24
    ensures Distinct(HourRange(lo, hi))
  {
  }

  lemma DayNamesDistinct()
    ensures Distinct(DayNames)
  {
  }

  lemma MonthNamesDistinct()
    ensures Distinct(MonthNames)
  {
  }

  /** A dense table over a duplicate-free domain that holds every counted
      value: one row per domain key with the number of times the key
      occurs, and the rows add up to the number of values. */
  lemma DenseOfTally<K>(xs: seq<K>, dom: seq<K>)
    requires Distinct(dom)
    requires forall i :: 0 <= i < |xs| ==> xs[i] in dom
    ensures var d := Dense(Tally(xs), dom);
      && |d| == |dom|
      && (forall i :: 0 <= i < |dom| ==> d[i] == Entry(dom[i], multiset(xs)[dom[i]]))
      && Total(d) == |xs|
  {
    TallyCounts(xs);
    DenseTallyTotal(xs, dom);
    CountInAll(xs, dom);
  }

  /** A table with one row per key of `dom`, in order, holding the number
      of times the key occurs in `xs`, and adding up to `|xs|`. */
  ghost predicate CountsAll<K>(d: Counter<K>, xs: seq<K>, dom: seq<K>) {
    && |d| == |dom|
    && (forall i :: 0 <= i < |dom| ==> d[i] == Entry(dom[i], multiset(xs)[dom[i]]))
    && Total(d) == |xs|
  }

  lemma HoursCounted(cs: seq<CheckIn>)
    ensures CountsAll(Dense(Tally(Hours(cs)), HourDomain), Hours(cs), HourDomain)
  {
    HourRangeDistinct(0, 24);
    forall i | 0 <= i < |Hours(cs)| ensures Hours(cs)[i] in HourDomain {
      assert HourDomain[Hours(cs)[i]] == Hours(cs)[i];
    }
    DenseOfTally(Hours(cs), HourDomain);
  }

  lemma WeekdaysCounted(cs: seq<CheckIn>)
    ensures CountsAll(Dense(Tally(Weekdays(cs)), DayNames), Weekdays(cs), DayNames)
  {
    DayNamesDistinct();
    forall i | 0 <= i < |Weekdays(cs)| ensures Weekdays(cs)[i] in DayNames {
      assert Weekdays(cs)[i] == DayNames[cs[i].weekday];
    }
    DenseOfTally(Weekdays(cs), DayNames);
  }

  lemma MonthsCounted(cs: seq<CheckIn>)
    ensures CountsAll(Dense(Tally(Months(cs)), MonthNames), Months(cs), MonthNames)
  {
    MonthNamesDistinct();
    forall i | 0 <= i < |Months(cs)| ensures Months(cs)[i] in MonthNames {
      assert Months(cs)[i] == MonthNames[cs[i].month];
    }
    DenseOfTally(Months(cs), MonthNames);
  }

  /** `hourly_distribution` has one row per hour 0 .. 23, in order, holding
      the number of check-ins in that hour; the rows add up to the number of
      check-ins. The weekday and month tables likewise, Monday and January
      first. */
  lemma Distributions(cs: seq<CheckIn>)
    requires |cs| > 0
    ensures CountsAll(Summarize(cs).hourly, Hours(cs), HourDomain)
    ensures CountsAll(Summarize(cs).daily, Weekdays(cs), DayNames)
    ensures CountsAll(Summarize(cs).monthly, Months(cs), MonthNames)
  {
    PassCalendar(cs);
    HoursCounted(cs);
    WeekdaysCounted(cs);
    MonthsCounted(cs);
  }

  // Peaks

  /** `k` is what `max(Counter(xs), key=...)` picks: a value of `xs` that
      occurs most often, and of the values occurring that often, the one
      seen first. */
  ghost predicate IsPeak<K>(k: K, xs: seq<K>) {
    && k in xs
    && (forall x :: x in xs ==> multiset(xs)[x] <= multiset(xs)[k])
    && (forall x :: x in xs && x != k && multiset(xs)[x] == multiset(xs)[k] ==>
          FirstIndex(xs, k) < FirstIndex(xs, x))
  }

  lemma PeakKeyOfTally<K>(xs: seq<K>, default: K)
    requires |xs| > 0
    ensures IsPeak(PeakKey(Tally(xs), default), xs)
  {
    TallyCounts(xs);
    assert xs[0] in Keys(Tally(xs));
    PeakOfTally(xs);
  }

  /** `peak_hour`, `busiest_day` and `busiest_month` are the most frequent
      hour, weekday and month, ties going to the one seen first. */
  lemma PeaksAreMostFrequent(cs: seq<CheckIn>)
    requires |cs| > 0
    ensures IsPeak(Summarize(cs).peakHour, Hours(cs))
    ensures IsPeak(Summarize(cs).busiestDay, Weekdays(cs))
    ensures IsPeak(Summarize(cs).busiestMonth, Months(cs))
  {
    PassCalendar(cs);
    PeakKeyOfTally(Hours(cs), 0);
    PeakKeyOfTally(Weekdays(cs), "Unknown");
    PeakKeyOfTally(Months(cs), "Unknown");
  }

  lemma PeakEntryOfTally<K>(xs: seq<K>)
    requires |xs| > 0
    ensures |Tally(xs)| > 0
    ensures var c := Tally(xs); var k := c[PeakIndex(c)].key;
      IsPeak(k, xs) && Get(c, k) == multiset(xs)[k]
  {
    var c := Tally(xs);
    TallyCounts(xs);
    assert xs[0] in Keys(c);
    PeakOfTally(xs);
  }

  /** `max_checkins_day` is the most frequent date, ties going to the date
      seen first, and `max_checkins_count` is how often it occurs. */
  lemma BusiestDate(cs: seq<CheckIn>)
    requires |cs| > 0
    ensures Summarize(cs).maxDay.Some?
    ensures IsPeak(Summarize(cs).maxDay.value, Days(cs))
    ensures Summarize(cs).maxDayCount == multiset(Days(cs))[Summarize(cs).maxDay.value]
  {
    var acc := Pass(cs);
    PassCalendar(cs);
    PeakEntryOfTally(Days(cs));
    var k := acc.perDay[PeakIndex(acc.perDay)].key;
    assert MaxDay(acc) == Some(k);
    assert MaxDayCount(acc) == Get(acc.perDay, k);
    assert Summarize(cs).maxDay == MaxDay(acc);
    assert Summarize(cs).maxDayCount == MaxDayCount(acc);
  }

  // Activity

  /** The active dates, as the values of `Days(cs)`. */
  lemma SortedDaysAreDays(cs: seq<CheckIn>)
    ensures DistinctKeys(Pass(cs).perDay)
    ensures StrictlyAscending(SortedDays(Pass(cs)))
    ensures forall x :: x in SortedDays(Pass(cs)) <==> x in Days(cs)
    ensures |SortedDays(Pass(cs))| == |Uniques(Days(cs))|
  {
    PassCalendar(cs);
    TallyCounts(Days(cs));
    TallySize(Days(cs));
  }

  /** The day fields of the report read the sorted active days. */
  lemma DayFields(cs: seq<CheckIn>)
    requires |cs| > 0
    ensures DistinctKeys(Pass(cs).perDay)
    ensures var d := SortedDays(Pass(cs));
      && Summarize(cs).totalDays == Span(d)
      && Summarize(cs).daysActive == |Pass(cs).perDay|
      && Summarize(cs).longestStreak == LongestStreak(d)
  {
    PassDistinct(cs);
  }

  /** The span of sorted days runs from the smallest to the largest of
      them and covers all of them. */
  lemma SpanBounds(d: seq<int>, days: seq<int>) returns (lo: int, hi: int)
    requires StrictlyAscending(d) && |d| > 0
    requires forall x :: x in d <==> x in days
    ensures lo in days && hi in days && Span(d) == hi - lo + 1
    ensures forall x :: x in days ==> lo <= x <= hi
    ensures |d| <= Span(d)
  {
    lo, hi := d[0], d[|d| - 1];
    forall x | x in days ensures lo <= x <= hi {
      var k :| 0 <= k < |d| && d[k] == x;
    }
    assert lo in d && hi in d;
    SpanCoversDays(d);
  }

  /** `total_days_2025` is the number of days from the earliest to the
      latest date, inclusive. */
  ghost predicate SpansDays(total: int, days: seq<int>) {
    exists lo, hi :: lo in days && hi in days && total == hi - lo + 1 && InRange(days, lo, hi)
  }

  ghost predicate InRange(days: seq<int>, lo: int, hi: int) {
    forall x :: x in days ==> lo <= x <= hi
  }

  /** `total_days_2025` is the number of days from the earliest to the
      latest date, inclusive. */
  lemma TotalDaysSpan(cs: seq<CheckIn>)
    requires |cs| > 0
    ensures SpansDays(Summarize(cs).totalDays, Days(cs))
  {
    SortedDaysAreDays(cs);
    DayFields(cs);
    var d := SortedDays(Pass(cs));
    assert Days(cs)[0] in d;
    SpanOfDays(d, Days(cs));
  }

  /** The span of the sorted distinct days runs from the earliest listed
      day to the latest. */
  lemma SpanOfDays(d: seq<int>, days: seq<int>)
    requires StrictlyAscending(d) && |d| > 0
    requires forall x :: x in d <==> x in days
    ensures SpansDays(Span(d), days)
  {
    var lo, hi := SpanBounds(d, days);
    assert InRange(days, lo, hi);
  }

  /** `days_active` counts the distinct dates, and there are never more of
      them than days in their span. */
  lemma DaysActiveCounted(cs: seq<CheckIn>)
    requires |cs| > 0
    ensures Summarize(cs).daysActive == |Uniques(Days(cs))|
    ensures Summarize(cs).daysActive <= Summarize(cs).totalDays
  {
    SortedDaysAreDays(cs);
    DayFields(cs);
    var d := SortedDays(Pass(cs));
    assert |d| == |Keys(Pass(cs).perDay)|;
    SpanCoversDays(d);
  }

  /** Every day from `a` to `a + m - 1` is an active day. */
  ghost predicate ActiveBlock(days: seq<int>, a: int, m: int) {
    forall x :: a <= x < a + m ==> x in days
  }

  /** On sorted days holding exactly the values of `days`, the longest
      streak is at least 1, some block that long is all active, and no
      longer block is. */
  lemma StreakOfDays(d: seq<int>, days: seq<int>)
    requires StrictlyAscending(d) && |d| > 0
    requires forall x :: x in d <==> x in days
    ensures LongestStreak(d) >= 1
    ensures exists a :: ActiveBlock(days, a, LongestStreak(d))
    ensures forall a, m :: m >= 1 && ActiveBlock(days, a, m) ==> m <= LongestStreak(d)
  {
    var n := LongestStreak(d);
    var a := StreakIsBlock(d);
    assert ActiveBlock(days, a, n);
    forall a', m | m >= 1 && ActiveBlock(days, a', m) ensures m <= n {
      assert ActiveBlock(d, a', m);
      StreakCoversBlock(d, a', m);
    }
  }

  /** `longest_streak` is the length of the longest run of consecutive
      active calendar days: some run is that long and none is longer. */
  lemma StreakIsLongestRun(cs: seq<CheckIn>)
    requires |cs| > 0
    ensures Summarize(cs).longestStreak >= 1
    ensures exists a :: ActiveBlock(Days(cs), a, Summarize(cs).longestStreak)
    ensures forall a, m :: m >= 1 && ActiveBlock(Days(cs), a, m) ==> m <= Summarize(cs).longestStreak
  {
    SortedDaysAreDays(cs);
    DayFields(cs);
    var d := SortedDays(Pass(cs));
    assert Days(cs)[0] in d;
    StreakOfDays(d, Days(cs));
  }

  /** `longest_streak` never exceeds `days_active`. */
  lemma StreakWithinActiveDays(cs: seq<CheckIn>)
    requires |cs| > 0
    ensures Summarize(cs).longestStreak <= Summarize(cs).daysActive
  {
    SortedDaysAreDays(cs);
    DayFields(cs);
    var d := SortedDays(Pass(cs));
    assert |d| == |Keys(Pass(cs).perDay)|;
  }

  // Companions, shouts and photos

  lemma {:induction false} CompanionsAtMostAll(cs: seq<CheckIn>)
    ensures WithCompanions(cs) <= |cs|
    decreases |cs|
  {
    if |cs| > 0 {
      CompanionsAtMostAll(cs[..|cs| - 1]);
    }
  }

  /** `checkins_with_friends` counts the check-ins with companions and
      `solo_checkins` the others, so together they are all check-ins. */
  lemma CompanionCounts(cs: seq<CheckIn>)
    requires |cs| > 0
    ensures Summarize(cs).withFriends == WithCompanions(cs)
    ensures 0 <= Summarize(cs).solo && Summarize(cs).withFriends + Summarize(cs).solo == |cs|
  {
    var e := Pass(cs).extras;
    PassExtras(cs);
    CompanionsAtMostAll(cs);
    assert Summarize(cs).withFriends == e.withFriends;
    assert Summarize(cs).solo == |cs| - e.withFriends;
  }

  /** `checkins_with_shouts` counts the check-ins with a non-empty shout and
      `total_photos` adds up the photo items. */
  lemma ShoutsAndPhotos(cs: seq<CheckIn>)
    requires |cs| > 0
    ensures Summarize(cs).withShouts == WithShouts(cs)
    ensures Summarize(cs).totalPhotos == Photos(cs)
  {
    var e := Pass(cs).extras;
    PassExtras(cs);
    assert Summarize(cs).withShouts == e.withShouts;
    assert Summarize(cs).totalPhotos == e.photos;
  }

  // Time of day and week

  lemma NightDistinct()
    ensures Distinct(Night)
  {
    HourRangeDistinct(21, 24);
    HourRangeDistinct(0, 5);
  }

  lemma HourRangeMembers(lo: int, hi: int)
    requires 0 <= lo <= hi <= 24
    ensures forall k :: k in HourRange(lo, hi) <==> lo <= k < hi
  {
    var r := HourRange(lo, hi);
    forall k | lo <= k < hi ensures k in r {
      assert r[k - lo] == k;
    }
  }

  /** The hours of each part of the day. */
  lemma DayPartMembers()
    ensures forall k :: k in Morning <==> 5 <= k < 12
    ensures forall k :: k in Afternoon <==> 12 <= k < 17
    ensures forall k :: k in Evening <==> 17 <= k < 21
    ensures forall k :: k in Night <==> 21 <= k < 24 || 0 <= k < 5
  {
    HourRangeMembers(5, 12);
    HourRangeMembers(12, 17);
    HourRangeMembers(17, 21);
    HourRangeMembers(21, 24);
    HourRangeMembers(0, 5);
  }

  /** Every hour falls in exactly one of the four parts of the day. */
  lemma DayPartsCoverHours(xs: seq<Hour>)
    ensures CountIn(xs, Morning) + CountIn(xs, Afternoon) + CountIn(xs, Evening) + CountIn(xs, Night) == |xs|
  {
    DayPartMembers();
    var ma := Morning + Afternoon;
    var mae := ma + Evening;
    var all := mae + Night;
    assert forall k :: k in ma <==> 5 <= k < 17;
    assert forall k :: k in mae <==> 5 <= k < 21;
    forall i | 0 <= i < |xs| ensures xs[i] in all {
      assert xs[i] in mae || xs[i] in Night;
    }
    CountInAll(xs, all);
    CountInSplit(xs, mae, Night);
    CountInSplit(xs, ma, Evening);
    CountInSplit(xs, Morning, Afternoon);
  }

  /** A sum of `hourly.get(h, 0)` over distinct hours counts the check-ins
      in those hours. */
  lemma HoursTotalCounts(cs: seq<CheckIn>, hours: seq<Hour>)
    requires Distinct(hours)
    ensures HoursTotal(Pass(cs), hours) == CountIn(Hours(cs), hours)
  {
    PassCalendar(cs);
    DenseTallyTotal(Hours(cs), hours);
  }

  /** The `time_of_day` totals count the check-ins from 5 to 11, 12 to 16,
      17 to 20, and 21 to 4 o'clock; they add up to all check-ins. */
  lemma TimeOfDayCounts(cs: seq<CheckIn>)
    requires |cs| > 0
    ensures Summarize(cs).morning == CountIn(Hours(cs), Morning)
    ensures Summarize(cs).afternoon == CountIn(Hours(cs), Afternoon)
    ensures Summarize(cs).evening == CountIn(Hours(cs), Evening)
    ensures Summarize(cs).night == CountIn(Hours(cs), Night)
    ensures Summarize(cs).morning + Summarize(cs).afternoon + Summarize(cs).evening + Summarize(cs).night == |cs|
  {
    HourRangeDistinct(5, 12);
    HourRangeDistinct(12, 17);
    HourRangeDistinct(17, 21);
    NightDistinct();
    HoursTotalCounts(cs, Morning);
    HoursTotalCounts(cs, Afternoon);
    HoursTotalCounts(cs, Evening);
    HoursTotalCounts(cs, Night);
    DayPartsCoverHours(Hours(cs));
  }

  /** `k` is the position of the first largest of `b`. */
  ghost predicate FirstLargest(b: seq<int>, k: int) {
    && 0 <= k < |b|
    && (forall j :: 0 <= j < |b| ==> b[j] <= b[k])
    && (forall j :: 0 <= j < k ==> b[j] < b[k])
  }

  /** `time_personality` names the first part of the day with the largest
      total, in the order morning, afternoon, evening, night. */
  lemma PersonalityIsFirstLargest(cs: seq<CheckIn>)
    requires |cs| > 0
    ensures var s := Summarize(cs);
      exists k :: FirstLargest([s.morning, s.afternoon, s.evening, s.night], k)
        && s.personality == Personalities[k]
  {
    var s := Summarize(cs);
    var acc := Pass(cs);
    assert [s.morning, s.afternoon, s.evening, s.night] == TimeOfDay(acc);
    assert s.personality == Personality(acc);
    var k := Extremes.ArgMax(TimeOfDay(acc));
    assert FirstLargest(TimeOfDay(acc), k);
  }

  /** Both halves of a duplicate-free sequence are duplicate-free, and no
      element is in both. */
  lemma DistinctSplit<K>(s: seq<K>, n: nat)
    requires Distinct(s) && n <= |s|
    ensures Distinct(s[..n]) && Distinct(s[n..])
    ensures forall k :: k in s[..n] ==> k !in s[n..]
  {
    forall k | k in s[..n] ensures k !in s[n..] {
      var i :| 0 <= i < n && s[..n][i] == k;
    }
  }

  /** The weekend total is the Saturday count plus the Sunday count. */
  lemma WeekendRows(acc: Acc)
    ensures Weekend(acc) == Get(acc.daily, "Saturday") + Get(acc.daily, "Sunday")
  {
    var d := Dense(acc.daily, WeekendDays);
    assert d == [Entry("Saturday", Get(acc.daily, "Saturday")), Entry("Sunday", Get(acc.daily, "Sunday"))];
    assert d[..1][..0] == [];
    assert Total(d[..1]) == d[0].count;
  }

  /** Every weekday name is a work day or a weekend day, never both. */
  lemma WeekParts(w: seq<string>)
    requires forall i :: 0 <= i < |w| ==> w[i] in DayNames
    ensures CountIn(w, WorkDays) + CountIn(w, WeekendDays) == |w|
  {
    assert DayNames == WorkDays + WeekendDays;
    DayNamesDistinct();
    DistinctSplit(DayNames, 5);
    CountInAll(w, DayNames);
    CountInSplit(w, WorkDays, WeekendDays);
  }

  lemma WeekdaysNamed(cs: seq<CheckIn>)
    ensures forall i :: 0 <= i < |Weekdays(cs)| ==> Weekdays(cs)[i] in DayNames
  {
    forall i | 0 <= i < |cs| ensures Weekdays(cs)[i] in DayNames {
      assert Weekdays(cs)[i] == DayNames[cs[i].weekday];
    }
  }

  /** `weekend` counts the check-ins on Saturday or Sunday. */
  lemma WeekendCount(cs: seq<CheckIn>)
    requires |cs| > 0
    ensures Summarize(cs).weekend == CountIn(Weekdays(cs), WeekendDays)
  {
    PassCalendar(cs);
    DayNamesDistinct();
    DistinctSplit(DayNames, 5);
    DenseTallyTotal(Weekdays(cs), WeekendDays);
    assert Summarize(cs).weekend == Weekend(Pass(cs));
  }

  /** `weekday` counts the check-ins on Monday to Friday. */
  lemma WorkdayCount(cs: seq<CheckIn>)
    requires |cs| > 0
    ensures Summarize(cs).weekday == CountIn(Weekdays(cs), WorkDays)
  {
    PassCalendar(cs);
    DayNamesDistinct();
    DistinctSplit(DayNames, 5);
    DenseTallyTotal(Weekdays(cs), WorkDays);
    assert Summarize(cs).weekday == Weekday(Pass(cs));
  }

  /** Every check-in is counted as weekend or as weekday. */
  lemma WeekCoversAll(cs: seq<CheckIn>)
    requires |cs| > 0
    ensures Summarize(cs).weekend + Summarize(cs).weekday == |cs|
  {
    WeekendCount(cs);
    WorkdayCount(cs);
    WeekdaysNamed(cs);
    WeekParts(Weekdays(cs));
  }

  // First and last check-in

  /** Check-in `i` has the smallest timestamp, and no earlier check-in has
      the same one. */
  ghost predicate IsEarliest(cs: seq<CheckIn>, i: int) {
    && 0 <= i < |cs|
    && (forall j :: 0 <= j < |cs| ==> CreatedAt(cs[i]) <= CreatedAt(cs[j]))
    && (forall j :: 0 <= j < i ==> CreatedAt(cs[i]) < CreatedAt(cs[j]))
  }

  /** Check-in `i` has the largest timestamp, and no earlier check-in has
      the same one. */
  ghost predicate IsLatest(cs: seq<CheckIn>, i: int) {
    && 0 <= i < |cs|
    && (forall j :: 0 <= j < |cs| ==> CreatedAt(cs[j]) <= CreatedAt(cs[i]))
    && (forall j :: 0 <= j < i ==> CreatedAt(cs[j]) < CreatedAt(cs[i]))
  }

  lemma ExtremeMoments(cs: seq<CheckIn>)
    requires |cs| > 0
    ensures IsEarliest(cs, Extremes.ArgMin(CreatedAts(cs)))
    ensures IsLatest(cs, Extremes.ArgMax(CreatedAts(cs)))
  {
    var t := CreatedAts(cs);
    assert forall j :: 0 <= j < |cs| ==> t[j] == CreatedAt(cs[j]);
  }

  /** `first_checkin` and `last_checkin` show the first check-in with the
      smallest and the first with the largest timestamp. */
  lemma FirstAndLast(cs: seq<CheckIn>)
    requires |cs| > 0
    ensures exists i :: IsEarliest(cs, i) && Summarize(cs).first == MomentOf(cs[i])
    ensures exists i :: IsLatest(cs, i) && Summarize(cs).last == MomentOf(cs[i])
  {
    var t := CreatedAts(cs);
    var i, k := Extremes.ArgMin(t), Extremes.ArgMax(t);
    ExtremeMoments(cs);
    assert Summarize(cs).first == MomentOf(cs[i]);
    assert Summarize(cs).last == MomentOf(cs[k]);
  }

  // Map

  /** `map_points` has one entry per rounded point, in the order the points
      are first pinned, each listing the labels of the pins at that point
      in input order. */
  lemma MapPointsGrouped(cs: seq<CheckIn>)
    requires |cs| > 0
    ensures var m := Summarize(cs).mapPoints; var pts := Keys(Tally(PinPoints(Pins(cs))));
      && |m| == |pts|
      && forall i :: 0 <= i < |m| ==>
           Point(m[i].lat, m[i].lng) == pts[i] && m[i].v == Join(PinLabels(Pins(cs), pts[i]))
  {
    PassBuckets(cs);
    assert Summarize(cs).mapPoints == Render(Group(Pins(cs)));
    RenderGroup(Pins(cs));
  }
}
