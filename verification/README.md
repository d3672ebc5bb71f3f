# Swarm Wrapped analysis, modelled in Dafny

This project models the analysis step of Swarm Wrapped. That step reads a list
of Foursquare/Swarm check-ins and produces the statistics of a yearly
"wrapped" report:

- the total number of check-ins;
- unique venues, with the ten most visited venues and their details;
- the top categories, the top cities and every country, with counts;
- hourly, weekday and monthly distributions, with their peaks;
- the active days, the span they cover, the busiest date and the longest
  streak of consecutive days;
- companions, with the five most frequent friends, plus solo check-ins,
  shouts and photos;
- time-of-day buckets and the resulting "personality";
- the weekend/weekday split;
- the first and last check-in;
- the map pins, grouped by rounded coordinates.

The loop over the check-ins is modelled as a fold, `Aggregate.Pass`. Its
accumulator holds:

- the first-seen venue cache;
- one `Counter` per tally;
- the companion, shout and photo counts;
- the map buckets.

A `Counter` is a sequence of key/count entries in insertion order, which is
the order of a Python `Counter`. `Analysis.Summarize` turns the accumulator
into the report record. `Analysis.Analyze` returns no record for an empty
list.

Each accumulator field is proved equal to the tally of a plain per-check-in
list (the `Pass*` lemmas). The report's fields are then proved against those
lists, with no reference to the loop (module `Properties`):

- each ranking is the `most_common` ranking of its list, and that ranking is
  unique: ties, including the tie at the cut-off, go to the value seen first;
- each distribution row counts its key;
- each peak is the most frequent value, ties going to the first seen;
- the streak is the longest run of consecutive active days;
- and so on for the remaining fields.

Two details follow the code of `analyze_checkins` exactly:

- midnight's peak-hour label is "0am", as line 188 computes it, not "12am";
- peak ties go to the key counted first, which is `max`'s order over a
  `Counter` (lines 187-190 and 210).

Modules, in dependency order:

- `Counters`: insertion-ordered counters, `Tally` (= `Counter(xs)`), and dense
  distributions over a fixed domain.
- `Extremes`: Python's `max`/`min` with a key, where the first maximal (minimal)
  element wins.
- `Ranking`: `most_common(n)` as a stable sort by count plus a prefix; the
  peak of a counter.
- `CheckIns`: the input records, their field defaults, and companion display
  names.
- `HourFormat`: the peak-hour label.
- `Streak`: sorted active days, their span, and `calculate_longest_streak`.
- `Venues`: the first-seen venue cache, the city key, and the name lookup used
  for the top-venue details.
- `MapPoints`: rounding to four decimals, and grouping pins by point.
- `Aggregate`: the loop as a fold, and what every accumulator field holds.
- `Analysis`: the report record and `analyze_checkins`.
- `Properties`: what each report field means in terms of the input list.

## Model

| member | source | states |
|---|---|---|
| Counters.Inc | analyze.py:63 | Counting a key leaves existing keys in place and appends a new key at the end, so keys stay distinct and in first-seen order |
| Counters.IncGet | analyze.py:63 | Counting a key raises that key's count by one and leaves every other count unchanged |
| Counters.TallyCounts | analyze.py:63 | In `Counter(xs)`, each key's count is its number of occurrences in `xs`, and the keys are exactly the values of `xs` |
| Counters.TallyKeysFirstSeen | analyze.py:63 | The keys of `Counter(xs)` are the distinct values of `xs` in order of first occurrence |
| Counters.Dense | analyze.py:177-184 | A dense distribution has exactly the domain's keys, in domain order |
| Counters.DenseTallyTotal | analyze.py:177-184 | The rows of a dense distribution over a duplicate-free domain add up to the number of values that fall in the domain |
| Extremes.ArgMax | analyze.py:269 | `max(..., key=...)` returns a maximal element, and no earlier element is as large: the first maximum wins |
| Extremes.ArgMin | analyze.py:268 | `min(..., key=...)` returns a minimal element, and no earlier element is as small: the first minimum wins |
| Ranking.PeakIndex | analyze.py:187-190 | The entry `max(counter, key=counter.get)` picks has a maximal count, and every earlier entry has a smaller count |
| Ranking.PeakOfTally | analyze.py:187-190 | The peak key of `Counter(xs)` occurs in `xs` as often as any value does, and among equally frequent values it is the one seen first |
| Ranking.SortByCount | analyze.py:159 | Sorting a counter by count yields a permutation of it in descending count order, with equal counts left in counter order |
| Ranking.MostCommon | analyze.py:159 | `most_common(n)` keeps min(n, size) distinct entries of the counter in descending order with ties in counter order; an entry left out has a smaller count than every kept one, or the same count and a later place in the counter |
| Ranking.TieKeepsEarlier | analyze.py:159 | When an entry is kept, every earlier entry of the counter with the same count is kept too |
| Ranking.TallySize | analyze.py:161 | `len(Counter(xs))` is the number of distinct values of `xs` |
| Ranking.RankedTally | analyze.py:157-174 | `Counter(xs).most_common(n)` is a ranking of `xs`: distinct values with their true counts, most frequent first, ties by first occurrence; an unlisted value is less frequent than every listed one, or as frequent and first seen later |
| Ranking.RankingUnique | analyze.py:157-174 | A list has only one such ranking for a given limit, so the properties above fix `most_common(n)` completely |
| CheckIns.Trim | analyze.py:114 | The stripped name starts and ends with a non-space |
| CheckIns.TrimSlice | analyze.py:114 | The stripped name is a slice of the original, and only spaces are cut off on either side |
| CheckIns.TrimEmptyIff | analyze.py:114-115 | A name strips to "" exactly when it consists of spaces only |
| CheckIns.TrimIdempotent | analyze.py:114 | Stripping an already stripped name changes nothing |
| CheckIns.FriendNames | analyze.py:113-116 | The names counted for one check-in are non-empty, and there are at most as many as companions |
| CheckIns.FriendNamesKeep | analyze.py:113-116 | Every companion whose display name is non-empty is counted |
| CheckIns.FriendNamesFrom | analyze.py:113-116 | Every counted name is some companion's display name |
| CheckIns.NamedPositions | analyze.py:113-115 | The positions of the companions with a non-empty display name, in ascending order |
| CheckIns.NamedPositionsComplete | analyze.py:113-115 | Every companion with a non-empty display name has its position listed |
| CheckIns.NonEmptyAtPositions | analyze.py:115-116 | Dropping the empty names of a list keeps exactly the names at its non-empty positions, in order |
| CheckIns.FriendNamesInOrder | analyze.py:113-116 | The names counted for one check-in are the display names of the named companions, one per companion, in companion order, so a name shared by two companions is counted twice |
| HourFormat.ParseNatToString | analyze.py:188 | Reading back the decimal rendering of a number gives the number |
| HourFormat.FormatHour | analyze.py:188 | The label ends in "am" exactly before noon; its number is the hour itself before noon (midnight reads "0am"), 12 at noon, and hour minus 12 after noon, written without leading zeros |
| HourFormat.FormatHourInjective | analyze.py:188 | Different hours get different labels |
| Streak.SortDays | analyze.py:193 | Sorting the set of active days yields the same days, each once, in strictly ascending order |
| Streak.SpanCoversDays | analyze.py:196-199 | There are never more active days than days from the first to the last, inclusive |
| Streak.ScanCorrect | analyze.py:299-312 | Continued from any consistent loop state, the streak loop ends with the length of the longest run of consecutive days |
| Streak.LongestStreak | analyze.py:294-312 | The result is the length of a run of consecutive days that no other run exceeds; it is 0 exactly for no days and at most the number of days |
| Streak.StreakCoversBlock | analyze.py:294-312 | On sorted days, any stretch of m calendar days that are all active is at most the longest streak |
| Streak.StreakIsBlock | analyze.py:294-312 | The longest streak is itself such a stretch: every day from some active day through streak-1 days later is active |
| Venues.Lookup | analyze.py:66-81 | Looking up an id finds nothing exactly when the id is not cached, and otherwise finds the details of its first entry |
| Venues.Remember | analyze.py:66-79 | Caching a check-in adds its venue id at the end when the id is new and changes no ids otherwise |
| Venues.RememberLookup | analyze.py:66-81 | After caching a check-in, every id keeps its details, and a new id gets the details of this check-in |
| Venues.CacheIdsFirstSeen | analyze.py:66-79 | The cache's ids are the distinct venue ids in order of first appearance |
| Venues.CacheSize | analyze.py:130 | `unique_venues` is the number of distinct venue ids; all id-less venues share the id "unknown" |
| Venues.CacheHoldsFirst | analyze.py:66-81 | The details cached for an id are those of the first check-in carrying it; an id no check-in carries is not cached |
| Venues.CacheNeverChanges | analyze.py:66 | Later check-ins never change what is cached for an id already seen |
| Venues.CachedFirst | analyze.py:66-79 | Every cache entry is the id and details of the first check-in with that id |
| Venues.FirstCached | analyze.py:66-79 | The first check-in with each id has an entry in the cache |
| Venues.CacheOrder | analyze.py:66-79 | Cache entries come in the order of their first check-ins |
| Venues.CityKey | analyze.py:86-92 | The city key is the city followed by ", state" when the state is non-empty, else by ", country" outside the United States; it is the bare city exactly when the state is empty and the country is "United States" |
| Venues.FindByName | analyze.py:145 | The name search finds nothing exactly when no cached venue has that name, and otherwise returns the earliest cached venue with it |
| Venues.FindByNameFirst | analyze.py:143-153 | A top venue's details are those of the earliest check-in that carries the name and is first for its venue id, or nothing when no such check-in exists |
| MapPoints.Round4Nearest | analyze.py:125-126 | A rounded coordinate is off by at most half a unit of 10^-4, and an exact half rounds to the even neighbour |
| MapPoints.Round4Unique | analyze.py:125-126 | Any nearest multiple of 10^-4 with halves to even is the rounded value |
| MapPoints.PinOf | analyze.py:124-127 | A check-in gets a pin exactly when both cached coordinates are truthy (present and non-zero), and the pin's text is the venue name followed by "(1)" |
| MapPoints.PinOfRounds | analyze.py:124-126 | A pin lies at the rounded point nearest the venue's coordinates |
| MapPoints.AddPin | analyze.py:127 | Adding a pin creates a new bucket at the end only when its point has none yet |
| MapPoints.AddPinLabels | analyze.py:127 | Adding a pin appends its text to the labels of its own point and leaves every other point's labels unchanged |
| MapPoints.GroupPoints | analyze.py:123-127 | The buckets' points are the distinct pinned points in order of first pin |
| MapPoints.GroupLabels | analyze.py:123-127 | Each bucket holds the texts of the pins at its point, in input order |
| MapPoints.RenderGroup | analyze.py:285-289 | The map has one entry per pinned point, in order of first pin, each joining the texts of the pins at that point in input order |
| Aggregate.PassCache | analyze.py:57-81 | After the loop, the venue cache is the one built by remembering the check-ins in order |
| Aggregate.PassVenues | analyze.py:60-63 | The venue counter is the tally of the check-ins' venue names |
| Aggregate.PassCategories | analyze.py:66-84 | The category counter is the tally of the cached primary category of each check-in's venue |
| Aggregate.PassCities | analyze.py:86-92 | The city counter is the tally of the city keys of each check-in's cached venue |
| Aggregate.PassCountries | analyze.py:94-95 | The country counter is the tally of each check-in's cached country |
| Aggregate.PassCalendar | analyze.py:97-107 | The hour, weekday, month and per-date counters tally the check-ins' hours, weekday names, month names and dates |
| Aggregate.PassFriends | analyze.py:109-116 | The friend counter tallies every non-empty companion name over all check-ins, in order |
| Aggregate.PassExtras | analyze.py:109-121 | The loop's counters hold the number of check-ins with companions, the number with a non-empty shout, and the total number of photos |
| Aggregate.PassBuckets | analyze.py:123-127 | The map buckets group the pins made from each check-in's own venue name and its cached coordinates |
| Analysis.Analyze | analyze.py:22-28 | An empty list yields no statistics; otherwise `total_checkins` is the number of check-ins |
| Properties.TopVenuesRanked | analyze.py:142-154 | `top_venues` ranks the venue names as `most_common(10)` does, and each row shows the details of the earliest check-in that carries the name and is first for its id; where there is none the source raises instead (see Findings), and the row shows empty strings |
| Analysis.FirstListingRaises | analyze.py:131-140 | The first listing raises `TypeError` exactly when some ranked name has no cached venue carrying it |
| Properties.FirstListingRaisesWhen | analyze.py:131-140 | The first listing raises exactly when some top-10 venue name is carried by no check-in that is the first with its venue id |
| Properties.RenamedVenue | analyze.py:131-154 | On one venue visited as "A" and then as "B", the first listing raises, while the listing of lines 143-154 shows "B" with empty details |
| Properties.DetailedShows | analyze.py:144-153 | A top-venue row keeps the name and count and shows the details the name search finds |
| Properties.UniqueVenuesCounted | analyze.py:130 | `unique_venues` is the number of distinct venue ids |
| Properties.TopCategoriesRanked | analyze.py:156-161 | `top_categories` is the top-10 ranking of the check-ins' categories, and `unique_categories` is the number of distinct categories |
| Properties.TopCitiesRanked | analyze.py:163-168 | `top_cities` is the top-10 ranking of the city keys, and `unique_cities` is the number of distinct city keys |
| Properties.CountriesRanked | analyze.py:170-174 | `countries` ranks every country of the check-ins |
| Properties.DenseOfTally | analyze.py:177-184 | Over a duplicate-free domain that contains every value, the dense distribution has one row per domain key holding its number of occurrences, and the rows add up to the number of values |
| Properties.Distributions | analyze.py:176-184 | The hourly, daily and monthly distributions list every hour 0-23, weekday and month in fixed order with its number of check-ins, and each adds up to the total |
| Properties.PeakKeyOfTally | analyze.py:187-190 | The peak key of a non-empty tally is the most frequent value, ties going to the first seen |
| Properties.PeaksAreMostFrequent | analyze.py:186-190 | `peak_hour`, `busiest_day` and `busiest_month` are each the most frequent hour, weekday and month, ties going to the first seen |
| Properties.BusiestDate | analyze.py:208-215 | `max_checkins_day` is the most frequent date, ties going to the first seen, and `max_checkins_count` is its number of check-ins |
| Properties.SortedDaysAreDays | analyze.py:193-194 | The sorted dates are the distinct check-in dates in strictly ascending order |
| Properties.SpanBounds | analyze.py:196-199 | The span of the sorted dates runs from the earliest to the latest active date and covers every active date |
| Properties.SpanOfDays | analyze.py:196-199 | The span of sorted distinct days runs from one listed day to another and covers every listed day |
| Properties.TotalDaysSpan | analyze.py:196-200 | `total_days_2025` is the number of days from the earliest to the latest check-in date, inclusive |
| Properties.DaysActiveCounted | analyze.py:193-200 | `days_active` is the number of distinct check-in dates, and never more than `total_days_2025` |
| Properties.StreakOfDays | analyze.py:294-312 | Over non-empty sorted distinct days, the longest streak is at least 1, is an all-active stretch, and no all-active stretch is longer |
| Properties.StreakIsLongestRun | analyze.py:217-218 | `longest_streak` is at least 1, some run of that many consecutive days is all active, and no longer all-active run exists |
| Properties.StreakWithinActiveDays | analyze.py:193-218 | `longest_streak` is never more than `days_active` |
| Properties.CompanionsAtMostAll | analyze.py:110-112 | At most every check-in has companions |
| Properties.CompanionCounts | analyze.py:220-229 | `checkins_with_friends` counts the check-ins with companions, and `solo_checkins` is the non-negative rest, so the two add up to the total |
| Properties.TopFriendsRanked | analyze.py:223-226 | `top_friends` is the top-5 ranking of the companion names |
| Properties.ShoutsAndPhotos | analyze.py:232-235 | `checkins_with_shouts` counts the check-ins with a non-empty shout, and `total_photos` sums their photos |
| Properties.DayPartMembers | analyze.py:238-241 | Morning is hours 5-11, afternoon 12-16, evening 17-20, and night 21-23 with 0-4 |
| Properties.DayPartsCoverHours | analyze.py:238-241 | The four day parts together count every check-in exactly once |
| Properties.HoursTotalCounts | analyze.py:238-241 | Summing the hourly counter over a set of hours counts the check-ins in those hours |
| Properties.TimeOfDayCounts | analyze.py:237-248 | Each time-of-day bucket counts the check-ins in its hours, and the four add up to the total |
| Properties.PersonalityIsFirstLargest | analyze.py:250-257 | `time_personality` names the first of morning, afternoon, evening and night whose count is largest |
| Properties.WeekendRows | analyze.py:260 | The weekend total is the Saturday count plus the Sunday count |
| Properties.WeekParts | analyze.py:259-262 | Counting weekday names over Monday-Friday and Saturday-Sunday together counts every one |
| Properties.WeekendCount | analyze.py:259-260 | The weekend total counts the check-ins on a Saturday or Sunday |
| Properties.WorkdayCount | analyze.py:261 | The weekday total counts the check-ins from Monday to Friday |
| Properties.WeekCoversAll | analyze.py:259-262 | The weekend and weekday totals add up to the number of check-ins |
| Properties.ExtremeMoments | analyze.py:266-269 | The earliest pick has the smallest timestamp with no earlier check-in at that timestamp; the latest pick likewise has the largest |
| Properties.FirstAndLast | analyze.py:266-283 | `first_checkin` shows the first check-in with the smallest timestamp and `last_checkin` the first with the largest: its venue name (default "Unknown") and its time |
| Properties.MapPointsGrouped | analyze.py:285-289 | `map_points` has one entry per rounded point, in order of first pin, each joining the texts of the pins at that point in check-in order |

## Left out

- Local time: `datetime.fromtimestamp` and the `strftime`/`strptime` calls
  (lines 99-107, 197-198, 271-277, 303-304) are not modelled. Each check-in
  carries its local hour, weekday, month and a day number (one per calendar
  day) as inputs. The date-string keys of `checkins_per_day` become those day
  numbers, and a difference of days is a subtraction.
- The first and last check-in show their timestamp, not the formatted date
  and time strings of lines 276-277 and 281-282.
- Floating-point results are left out: `activity_percentage`,
  `avg_checkins_per_active_day`, `friend_percentage`, `solo_percentage`,
  `shout_percentage`, `weekend_percentage` and `weekday_percentage` (lines
  201, 206, 222, 230, 234, 263-264). The integer counts they are computed
  from are modelled.
- Coordinates are exact decimals in units of 10^-8 degree. Python's `round` on a
  binary double (lines 125-126) can differ from exact halves-to-even near a tie.
  MapPoints.Round4Nearest states the exact-decimal rounding.
- The hourly distribution's keys are the hours as numbers, not the strings
  `str(h)` of line 177.
- Lines 131-140 build a `top_venues` list that line 154 replaces. When every
  top-10 name has a cached venue, that list is discarded and has no effect.
  Otherwise line 136 raises `TypeError` (see Findings). The model returns the
  list of lines 143-154 in both cases, with empty details for a name that no
  cached venue carries. It models the raise only as
  `Analysis.FirstListingRaises`.
- Analysis.Analyze: returns statistics for every non-empty list, including
  the lists on which line 136 raises.
- A category without a "name" key raises `KeyError` at line 69; the model
  takes categories as their names only.
- Malformed input is not modelled: a non-dict venue, location, friend or photos
  value, or a non-list "with" or "items" value.
- CheckIns.Trim: `str.strip()` removes all whitespace; the model removes only
  the space character.
- "with" and photo items: a check-in has a list of companions and a photo count.
  An empty companion list is falsy, as at line 111.
- `time_personalities.get(..., "Explorer")` (line 257) never falls back to
  "Explorer", because `max_time[0]` is always one of the four keys. The model
  has no such branch.
- The branches for an empty counter or date list (lines 187-190, 202-204,
  213-215, and `if checkins` at 267) cannot be reached after the empty-input
  return at line 22. The model keeps the defaults in `PeakKey`, `Span` and
  `MaxDay`; the properties are stated for non-empty input.
- Input fields that are present but null (`None`) are read as if they were
  missing. In the source, `get`'s default applies only to a missing key:
  - a null city is stored as `None` (line 74), so its city key reads
    "None, NY" (lines 87-92);
  - a null venue name labels the pin "None(1)" (line 127);
  - a null first or last name renders as "None" in the display name (line 114).
- The result is a record, not a dictionary; its field names follow the
  dictionary keys.

## Findings

| source | as written | input that shows it | evidently intended | confidence | as-written member | corrected member |
|---|---|---|---|---|---|---|
| analyze.py:131-140 | `venues.get(next(<ids with the name>, {}), {})`: when no cached venue carries a top-10 name, the key is the dict `{}`, which is unhashable, so `get` raises `TypeError` and the whole analysis fails | two check-ins at venue id "X", named "A" and then "B" (a renamed venue); two id-less venues with different names fail the same way | the listing of lines 143-154, which the comment at line 142 calls the fix: every ranked name gets a row, with empty details when no cached venue carries it | high; not executed | Analysis.FirstListingRaises | Properties.TopVenuesRanked |

`Properties.RenamedVenue` shows the as-written failure on the input above.
`Properties.FirstListingRaisesWhen` states exactly which inputs make the source
raise. `Analysis.TopVenues` builds the intended listing, and
`Properties.TopVenuesRanked` proves its ranking and details.
