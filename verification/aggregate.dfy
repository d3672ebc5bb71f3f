/** The single pass of `analyze_checkins` over the check-ins: one step per
    record updates the venue cache, the counters, the per-record tallies and
    the map buckets. Each accumulator is then characterised without the
    loop: a counter is `Counter(list)` of a per-record list, where the
    venue-derived lists read the details of the FIRST check-in with the
    same venue id. */
module Aggregate {
  import opened CheckIns
  import opened Counters
  import opened Venues
  import opened MapPoints

  /** The loop's accumulators. `perDay` doubles as the set of active dates:
      its keys are exactly the dates added to `checkin_dates`. */
  datatype Acc = Acc(
    cache: Cache,
    venueCounts: Counter<string>,
    categoryCounts: Counter<string>,
    cityCounts: Counter<string>,
    countryCounts: Counter<string>,
    hourly: Counter<Hour>,
    daily: Counter<string>,
    monthly: Counter<string>,
    perDay: Counter<int>,
    friendCounts: Counter<string>,
    extras: Extras,
    buckets: Buckets)

  /** `checkins_with_friends`, `checkins_with_shouts` and `total_photos`. */
  datatype Extras = Extras(withFriends: nat, withShouts: nat, photos: nat)

  const Start: Acc := Acc([], [], [], [], [], [], [], [], [], [], Extras(0, 0, 0), [])

  /** What one check-in adds to the three plain tallies. */
  function CountExtras(e: Extras, c: CheckIn): Extras {
    Extras(
      e.withFriends + (if |c.companions| > 0 then 1 else 0),
      e.withShouts + (if HasShout(c) then 1 else 0),
      e.photos + c.photos)
  }

  /** The three plain tallies after the check-ins `cs`. */
  function ExtrasOf(cs: seq<CheckIn>): Extras {
    if |cs| == 0 then Extras(0, 0, 0) else CountExtras(ExtrasOf(cs[..|cs| - 1]), cs[|cs| - 1])
  }

  /** The names counted for one check-in's companions: none when it has no
      companions, otherwise every non-empty display name. */
  function Companions(c: CheckIn): seq<string> {
    if |c.companions| > 0 then FriendNames(c.companions) else []
  }

  /** The body of the loop for one check-in. */
  function Step(acc: Acc, c: CheckIn): Acc {
    var resolved := Resolve(acc.cache, c);
    var cache := resolved.0;
    var info := resolved.1;
    var pin := PinOf(VenueName(c), info.lat, info.lng);
    Acc(
      cache,
      Inc(acc.venueCounts, VenueName(c)),
      Inc(acc.categoryCounts, info.category),
      Inc(acc.cityCounts, CityKey(info)),
      Inc(acc.countryCounts, info.country),
      Inc(acc.hourly, c.hour),
      Inc(acc.daily, DayName(c)),
      Inc(acc.monthly, MonthName(c)),
      Inc(acc.perDay, c.day),
      IncAll(acc.friendCounts, Companions(c)),
      CountExtras(acc.extras, c),
      Place(acc.buckets, pin))
  }

  /** The accumulators after the loop has run over `cs`. */
  function Pass(cs: seq<CheckIn>): Acc {
    if |cs| == 0 then Start else Step(Pass(cs[..|cs| - 1]), cs[|cs| - 1])
  }

  // Per-record lists the counters count.

  function Names(cs: seq<CheckIn>): seq<string> {
    seq(|cs|, i requires 0 <= i < |cs| => VenueName(cs[i]))
  }

  function Categories(cs: seq<CheckIn>): seq<string> {
    seq(|cs|, i requires 0 <= i < |cs| => FirstInfo(cs, i).category)
  }

  function CityKeys(cs: seq<CheckIn>): seq<string> {
    seq(|cs|, i requires 0 <= i < |cs| => CityKey(FirstInfo(cs, i)))
  }

  function Countries(cs: seq<CheckIn>): seq<string> {
    seq(|cs|, i requires 0 <= i < |cs| => FirstInfo(cs, i).country)
  }

  function Hours(cs: seq<CheckIn>): seq<Hour> {
    seq(|cs|, i requires 0 <= i < |cs| => cs[i].hour)
  }

  function Weekdays(cs: seq<CheckIn>): seq<string> {
    seq(|cs|, i requires 0 <= i < |cs| => DayName(cs[i]))
  }

  function Months(cs: seq<CheckIn>): seq<string> {
    seq(|cs|, i requires 0 <= i < |cs| => MonthName(cs[i]))
  }

  function Days(cs: seq<CheckIn>): seq<int> {
    seq(|cs|, i requires 0 <= i < |cs| => cs[i].day)
  }

  /** Every counted companion name, check-in by check-in. */
  function Friends(cs: seq<CheckIn>): seq<string> {
    if |cs| == 0 then [] else Friends(cs[..|cs| - 1]) + Companions(cs[|cs| - 1])
  }

  function Pins(cs: seq<CheckIn>): seq<Option<Pin>> {
    seq(|cs|, i requires 0 <= i < |cs| =>
      PinOf(VenueName(cs[i]), FirstInfo(cs, i).lat, FirstInfo(cs, i).lng))
  }

  /** The number of check-ins with a non-empty companion list. */
  function WithCompanions(cs: seq<CheckIn>): nat {
    if |cs| == 0 then 0
    else WithCompanions(cs[..|cs| - 1]) + (if |cs[|cs| - 1].companions| > 0 then 1 else 0)
  }

  /** The number of check-ins with a non-empty shout. */
  function WithShouts(cs: seq<CheckIn>): nat {
    if |cs| == 0 then 0
    else WithShouts(cs[..|cs| - 1]) + (if HasShout(cs[|cs| - 1]) then 1 else 0)
  }

  /** The photo items of all check-ins together. */
  function Photos(cs: seq<CheckIn>): nat {
    if |cs| == 0 then 0 else Photos(cs[..|cs| - 1]) + cs[|cs| - 1].photos
  }

  lemma PassSnoc(cs: seq<CheckIn>)
    requires |cs| > 0
    ensures Pass(cs) == Step(Pass(cs[..|cs| - 1]), cs[|cs| - 1])
  {
  }

  /** The details read for every earlier check-in stay the same when one
      more check-in is appended. */
  lemma InfoSnoc(cs: seq<CheckIn>)
    requires |cs| > 0
    ensures forall j :: 0 <= j < |cs| - 1 ==> FirstInfo(cs[..|cs| - 1], j) == FirstInfo(cs, j)
  {
    forall j | 0 <= j < |cs| - 1 ensures FirstInfo(cs[..|cs| - 1], j) == FirstInfo(cs, j) {
      FirstInfoPrefix(cs, |cs| - 1, j);
    }
  }

  /** The step reads the details of the first check-in with the same id. */
  lemma StepInfo(cs: seq<CheckIn>, acc: Acc)
    requires |cs| > 0 && acc.cache == BuildCache(cs[..|cs| - 1])
    ensures Remember(acc.cache, cs[|cs| - 1]) == BuildCache(cs)
    ensures VenueId(cs[|cs| - 1]) in CacheIds(BuildCache(cs))
    ensures Known(BuildCache(cs), VenueId(cs[|cs| - 1])) == FirstInfo(cs, |cs| - 1)
  {
    KnownLast(cs);
  }

  /** The loop's cache is the cache of the check-ins seen so far. */
  lemma {:induction false} PassCache(cs: seq<CheckIn>)
    ensures Pass(cs).cache == BuildCache(cs)
    decreases |cs|
  {
    if |cs| > 0 {
      PassCache(cs[..|cs| - 1]);
      PassSnoc(cs);
      ResolveRemembers(Pass(cs[..|cs| - 1]).cache, cs[|cs| - 1]);
    }
  }

  /** What one step does to the venue-derived counters and the buckets,
      given the details it reads. */
  lemma StepVenueFields(acc: Acc, c: CheckIn, info: VenueInfo)
    requires Resolve(acc.cache, c).1 == info
    ensures Step(acc, c).categoryCounts == Inc(acc.categoryCounts, info.category)
    ensures Step(acc, c).cityCounts == Inc(acc.cityCounts, CityKey(info))
    ensures Step(acc, c).countryCounts == Inc(acc.countryCounts, info.country)
    ensures Step(acc, c).buckets == Place(acc.buckets, PinOf(VenueName(c), info.lat, info.lng))
  {
  }

  /** What one step does to the counters and tallies that read only the
      check-in itself. */
  lemma StepPlainFields(acc: Acc, c: CheckIn)
    ensures Step(acc, c).venueCounts == Inc(acc.venueCounts, VenueName(c))
    ensures Step(acc, c).hourly == Inc(acc.hourly, c.hour)
    ensures Step(acc, c).daily == Inc(acc.daily, DayName(c))
    ensures Step(acc, c).monthly == Inc(acc.monthly, MonthName(c))
    ensures Step(acc, c).perDay == Inc(acc.perDay, c.day)
    ensures Step(acc, c).friendCounts == IncAll(acc.friendCounts, Companions(c))
    ensures Step(acc, c).extras == CountExtras(acc.extras, c)
  {
  }

  /** The info the last step reads, from the loop's own state. */
  lemma PassInfo(cs: seq<CheckIn>)
    requires |cs| > 0
    ensures var acc := Pass(cs[..|cs| - 1]); var c := cs[|cs| - 1];
      Resolve(acc.cache, c).1 == FirstInfo(cs, |cs| - 1)
  {
    PassCache(cs[..|cs| - 1]);
    StepInfo(cs, Pass(cs[..|cs| - 1]));
    ResolveRemembers(Pass(cs[..|cs| - 1]).cache, cs[|cs| - 1]);
  }

  lemma NamesSnoc(cs: seq<CheckIn>)
    requires |cs| > 0
    ensures Names(cs) == Names(cs[..|cs| - 1]) + [VenueName(cs[|cs| - 1])]
  {
  }

  lemma CategoriesSnoc(cs: seq<CheckIn>)
    requires |cs| > 0
    ensures Categories(cs) == Categories(cs[..|cs| - 1]) + [FirstInfo(cs, |cs| - 1).category]
  {
    InfoSnoc(cs);
  }

  lemma CityKeysSnoc(cs: seq<CheckIn>)
    requires |cs| > 0
    ensures CityKeys(cs) == CityKeys(cs[..|cs| - 1]) + [CityKey(FirstInfo(cs, |cs| - 1))]
  {
    InfoSnoc(cs);
  }

  lemma CountriesSnoc(cs: seq<CheckIn>)
    requires |cs| > 0
    ensures Countries(cs) == Countries(cs[..|cs| - 1]) + [FirstInfo(cs, |cs| - 1).country]
  {
    InfoSnoc(cs);
  }

  lemma PinsSnoc(cs: seq<CheckIn>)
    requires |cs| > 0
    ensures Pins(cs) == Pins(cs[..|cs| - 1])
      + [PinOf(VenueName(cs[|cs| - 1]), FirstInfo(cs, |cs| - 1).lat, FirstInfo(cs, |cs| - 1).lng)]
  {
    var p := cs[..|cs| - 1];
    InfoSnoc(cs);
    forall j | 0 <= j < |p| ensures Pins(cs)[j] == Pins(p)[j] {
      assert p[j] == cs[j];
    }
    assert Pins(cs)[..|p|] == Pins(p);
  }

  lemma CalendarSnoc(cs: seq<CheckIn>)
    requires |cs| > 0
    ensures var p, x := cs[..|cs| - 1], cs[|cs| - 1];
      && Hours(cs) == Hours(p) + [x.hour]
      && Weekdays(cs) == Weekdays(p) + [DayName(x)]
      && Months(cs) == Months(p) + [MonthName(x)]
      && Days(cs) == Days(p) + [x.day]
  {
  }

  /** The venue counter is `Counter(names)`, with each check-in counted under
      its OWN venue name (not the cached one). */
  lemma {:induction false} PassVenues(cs: seq<CheckIn>)
    ensures Pass(cs).venueCounts == Tally(Names(cs))
    decreases |cs|
  {
    if |cs| > 0 {
      var p, x := cs[..|cs| - 1], cs[|cs| - 1];
      PassVenues(p);
      PassSnoc(cs);
      StepPlainFields(Pass(p), x);
      NamesSnoc(cs);
      TallySnoc(Names(p), VenueName(x));
    }
  }

  /** The category counter counts the cached primary category of each
      check-in's venue. */
  lemma {:induction false} PassCategories(cs: seq<CheckIn>)
    ensures Pass(cs).categoryCounts == Tally(Categories(cs))
    decreases |cs|
  {
    if |cs| > 0 {
      var p, x := cs[..|cs| - 1], cs[|cs| - 1];
      PassCategories(p);
      PassSnoc(cs);
      PassInfo(cs);
      var info := FirstInfo(cs, |cs| - 1);
      StepVenueFields(Pass(p), x, info);
      assert Pass(cs).categoryCounts == Inc(Pass(p).categoryCounts, info.category);
      CategoriesSnoc(cs);
      TallySnoc(Categories(p), info.category);
      assert Tally(Categories(cs)) == Inc(Tally(Categories(p)), info.category);
    }
  }

  /** The city counter counts the city key of each check-in's cached venue. */
  lemma {:induction false} PassCities(cs: seq<CheckIn>)
    ensures Pass(cs).cityCounts == Tally(CityKeys(cs))
    decreases |cs|
  {
    if |cs| > 0 {
      var p, x := cs[..|cs| - 1], cs[|cs| - 1];
      PassCities(p);
      PassSnoc(cs);
      PassInfo(cs);
      var info := FirstInfo(cs, |cs| - 1);
      StepVenueFields(Pass(p), x, info);
      assert Pass(cs).cityCounts == Inc(Pass(p).cityCounts, CityKey(info));
      CityKeysSnoc(cs);
      TallySnoc(CityKeys(p), CityKey(info));
      assert Tally(CityKeys(cs)) == Inc(Tally(CityKeys(p)), CityKey(info));
    }
  }

  /** The country counter counts the cached country of each check-in. */
  lemma {:induction false} PassCountries(cs: seq<CheckIn>)
    ensures Pass(cs).countryCounts == Tally(Countries(cs))
    decreases |cs|
  {
    if |cs| > 0 {
      var p, x := cs[..|cs| - 1], cs[|cs| - 1];
      PassCountries(p);
      PassSnoc(cs);
      PassInfo(cs);
      var info := FirstInfo(cs, |cs| - 1);
      StepVenueFields(Pass(p), x, info);
      assert Pass(cs).countryCounts == Inc(Pass(p).countryCounts, info.country);
      CountriesSnoc(cs);
      TallySnoc(Countries(p), info.country);
      assert Tally(Countries(cs)) == Inc(Tally(Countries(p)), info.country);
    }
  }

  /** The hour, weekday, month and date counters count each check-in's own
      calendar fields. */
  lemma {:induction false} PassCalendar(cs: seq<CheckIn>)
    ensures Pass(cs).hourly == Tally(Hours(cs))
    ensures Pass(cs).daily == Tally(Weekdays(cs))
    ensures Pass(cs).monthly == Tally(Months(cs))
    ensures Pass(cs).perDay == Tally(Days(cs))
    decreases |cs|
  {
    if |cs| > 0 {
      var p, x := cs[..|cs| - 1], cs[|cs| - 1];
      PassCalendar(p);
      PassSnoc(cs);
      StepPlainFields(Pass(p), x);
      CalendarSnoc(cs);
      TallySnoc(Hours(p), x.hour);
      TallySnoc(Weekdays(p), DayName(x));
      TallySnoc(Months(p), MonthName(x));
      TallySnoc(Days(p), x.day);
    }
  }

  /** The friend counter is `Counter` of every counted companion name. */
  lemma {:induction false} PassFriends(cs: seq<CheckIn>)
    ensures Pass(cs).friendCounts == Tally(Friends(cs))
    decreases |cs|
  {
    if |cs| > 0 {
      var p, x := cs[..|cs| - 1], cs[|cs| - 1];
      PassFriends(p);
      PassSnoc(cs);
      StepPlainFields(Pass(p), x);
      TallyConcat(Friends(p), Companions(x));
    }
  }

  lemma {:induction false} PassExtrasOf(cs: seq<CheckIn>)
    ensures Pass(cs).extras == ExtrasOf(cs)
    decreases |cs|
  {
    if |cs| > 0 {
      var p, x := cs[..|cs| - 1], cs[|cs| - 1];
      PassExtrasOf(p);
      PassSnoc(cs);
      StepPlainFields(Pass(p), x);
    }
  }

  lemma {:induction false} ExtrasCounts(cs: seq<CheckIn>)
    ensures ExtrasOf(cs) == Extras(WithCompanions(cs), WithShouts(cs), Photos(cs))
    decreases |cs|
  {
    if |cs| > 0 {
      ExtrasCounts(cs[..|cs| - 1]);
    }
  }

  /** The plain tallies count the check-ins with a non-empty companion list
      (whether or not any companion has a name), the check-ins with a
      non-empty shout, and all photo items. */
  lemma PassExtras(cs: seq<CheckIn>)
    ensures Pass(cs).extras.withFriends == WithCompanions(cs)
    ensures Pass(cs).extras.withShouts == WithShouts(cs)
    ensures Pass(cs).extras.photos == Photos(cs)
  {
    PassExtrasOf(cs);
    ExtrasCounts(cs);
  }

  /** The map buckets group the pins of the check-ins, each pin made from
      the check-in's own venue name and its cached coordinates. */
  lemma {:induction false} PassBuckets(cs: seq<CheckIn>)
    ensures Pass(cs).buckets == Group(Pins(cs))
    decreases |cs|
  {
    if |cs| > 0 {
      var p, x := cs[..|cs| - 1], cs[|cs| - 1];
      PassBuckets(p);
      PassSnoc(cs);
      PassInfo(cs);
      var info := FirstInfo(cs, |cs| - 1);
      var pin := PinOf(VenueName(x), info.lat, info.lng);
      StepVenueFields(Pass(p), x, info);
      assert Pass(cs).buckets == Place(Group(Pins(p)), pin);
      PinsSnoc(cs);
      GroupSnoc(Pins(p), pin);
    }
  }
}
