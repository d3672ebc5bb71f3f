/** The first-seen venue cache and the city key. The cache maps a venue id
    to the details read from the FIRST check-in carrying that id; later
    check-ins at the same id never change it. */
module Venues {
  import opened CheckIns
  import opened Counters
  import opened Ranking

  /** What the cache keeps per venue id. */
  datatype VenueInfo = VenueInfo(
    name: string,
    category: string,
    city: string,
    state: string,
    country: string,
    lat: Option<Coord>,
    lng: Option<Coord>)

  /** The details a check-in contributes when its id is new: the name read
      as "Unknown Venue", the primary category as "Other", the city and
      country as "Unknown" and the state as "" when missing. */
  function InfoOf(c: CheckIn): VenueInfo {
    var loc := match c.venue
      case Some(v) => v.location.GetOr(Location(None, None, None, None, None))
      case None => Location(None, None, None, None, None);
    var cats := match c.venue
      case Some(v) => v.categories
      case None => [];
    VenueInfo(
      VenueName(c),
      if |cats| > 0 then cats[0] else "Other",
      loc.city.GetOr("Unknown"),
      loc.state.GetOr(""),
      loc.country.GetOr("Unknown"),
      loc.lat,
      loc.lng)
  }

  datatype Cached = Cached(id: string, info: VenueInfo)

  /** The `venues` dict, in insertion order. */
  type Cache = seq<Cached>

  function CacheIds(cache: Cache): seq<string> {
    seq(|cache|, i requires 0 <= i < |cache| => cache[i].id)
  }

  /** `venues.get(id)`: the first entry with that id. */
  function Lookup(cache: Cache, id: string): (r: Option<VenueInfo>)
    ensures r.None? <==> id !in CacheIds(cache)
    ensures r.Some? ==> r.value == cache[FirstIndex(CacheIds(cache), id)].info
  {
    if |cache| == 0 then None
    else
      assert CacheIds(cache) == [cache[0].id] + CacheIds(cache[1..]);
      if cache[0].id == id then Some(cache[0].info) else Lookup(cache[1..], id)
  }

  /** `if venue_id not in venues: venues[venue_id] = {...}`. */
  function Remember(cache: Cache, c: CheckIn): (r: Cache)
    ensures CacheIds(r) == if VenueId(c) in CacheIds(cache) then CacheIds(cache)
                           else CacheIds(cache) + [VenueId(c)]
  {
    if VenueId(c) in CacheIds(cache) then cache
    else
      var r := cache + [Cached(VenueId(c), InfoOf(c))];
      assert CacheIds(r) == CacheIds(cache) + [VenueId(c)];
      r
  }

  /** Remembering a check-in leaves the entry of every known id as it was,
      and makes the check-in's id known with the check-in's own details when
      it was new. */
  lemma RememberLookup(cache: Cache, c: CheckIn, id: string)
    ensures Lookup(Remember(cache, c), id) ==
      if id in CacheIds(cache) || id != VenueId(c) then Lookup(cache, id)
      else Some(InfoOf(c))
  {
    var r := Remember(cache, c);
    if VenueId(c) !in CacheIds(cache) && id in CacheIds(cache) {
      FirstIndexConcat(CacheIds(cache), [VenueId(c)], id);
    }
  }

  /** `venues[venue_id]` right after remembering the check-in. */
  function Known(cache: Cache, id: string): VenueInfo
    requires id in CacheIds(cache)
  {
    Lookup(cache, id).value
  }

  /** One step of the venue cache: the cache after remembering the check-in,
      and the details the cache holds for the check-in's venue id. */
  function Resolve(cache: Cache, c: CheckIn): (Cache, VenueInfo) {
    match Lookup(cache, VenueId(c))
    case Some(info) => (cache, info)
    case None => (cache + [Cached(VenueId(c), InfoOf(c))], InfoOf(c))
  }

  lemma ResolveRemembers(cache: Cache, c: CheckIn)
    ensures Resolve(cache, c).0 == Remember(cache, c)
    ensures VenueId(c) in CacheIds(Remember(cache, c))
    ensures Resolve(cache, c).1 == Known(Remember(cache, c), VenueId(c))
  {
    RememberLookup(cache, c, VenueId(c));
  }

  /** The venue ids of the check-ins, missing ones read as "unknown". */
  function Ids(cs: seq<CheckIn>): seq<string> {
    seq(|cs|, i requires 0 <= i < |cs| => VenueId(cs[i]))
  }

  lemma IdsSnoc(cs: seq<CheckIn>, c: CheckIn)
    ensures Ids(cs + [c]) == Ids(cs) + [VenueId(c)]
  {
  }

  /** The cache after the check-ins `cs`, in order. */
  function BuildCache(cs: seq<CheckIn>): Cache {
    if |cs| == 0 then [] else Remember(BuildCache(cs[..|cs| - 1]), cs[|cs| - 1])
  }

  /** The cache's ids are the distinct venue ids in first-seen order: the
      keys of `Counter(ids)`. */
  lemma {:induction false} CacheIdsFirstSeen(cs: seq<CheckIn>)
    ensures CacheIds(BuildCache(cs)) == Keys(Tally(Ids(cs)))
    decreases |cs|
  {
    if |cs| > 0 {
      var p, x := cs[..|cs| - 1], cs[|cs| - 1];
      assert cs == p + [x];
      CacheIdsFirstSeen(p);
      IdsSnoc(p, x);
      TallySnoc(Ids(p), VenueId(x));
    }
  }

  /** `unique_venues`: the cache has one entry per distinct venue id, all
      id-less venues sharing the one id "unknown". */
  lemma CacheSize(cs: seq<CheckIn>)
    ensures |BuildCache(cs)| == |Uniques(Ids(cs))|
    ensures Distinct(CacheIds(BuildCache(cs)))
  {
    CacheIdsFirstSeen(cs);
    TallySize(Ids(cs));
  }

  /** The details cached for an id are those of the first check-in carrying
      it; an id no check-in carries is not cached. */
  lemma {:induction false} CacheHoldsFirst(cs: seq<CheckIn>, id: string)
    ensures id in Ids(cs) ==> Lookup(BuildCache(cs), id) == Some(InfoOf(cs[FirstIndex(Ids(cs), id)]))
    ensures id !in Ids(cs) ==> Lookup(BuildCache(cs), id) == None
    decreases |cs|
  {
    if |cs| > 0 {
      var p, x := cs[..|cs| - 1], cs[|cs| - 1];
      assert cs == p + [x];
      CacheHoldsFirst(p, id);
      IdsSnoc(p, x);
      var cache := BuildCache(p);
      assert BuildCache(cs) == Remember(cache, x);
      assert id in CacheIds(cache) <==> id in Ids(p);
      RememberLookup(cache, x, id);
      if id in Ids(p) {
        var k := FirstIndex(Ids(p), id);
        FirstIndexConcat(Ids(p), [VenueId(x)], id);
        assert cs[k] == p[k];
      } else if id == VenueId(x) {
        assert FirstIndex(Ids(cs), id) == |p|;
      }
    }
  }

  /** Later check-ins never change what is cached for an id already seen. */
  lemma CacheNeverChanges(cs: seq<CheckIn>, more: seq<CheckIn>, id: string)
    requires id in Ids(cs)
    ensures Lookup(BuildCache(cs + more), id) == Lookup(BuildCache(cs), id)
  {
    assert Ids(cs + more) == Ids(cs) + Ids(more);
    CacheHoldsFirst(cs, id);
    CacheHoldsFirst(cs + more, id);
    FirstIndexConcat(Ids(cs), Ids(more), id);
  }

  /** The details the loop reads for check-in `i` of `cs`: those of the first
      check-in with the same venue id. */
  function FirstInfo(cs: seq<CheckIn>, i: nat): VenueInfo
    requires i < |cs|
  {
    assert Ids(cs)[i] == VenueId(cs[i]);
    InfoOf(cs[FirstIndex(Ids(cs), VenueId(cs[i]))])
  }

  /** Reading the cache right after remembering the latest check-in gives
      the details of the first check-in with the same venue id. */
  lemma KnownLast(cs: seq<CheckIn>)
    requires |cs| > 0
    ensures VenueId(cs[|cs| - 1]) in CacheIds(BuildCache(cs))
    ensures Known(BuildCache(cs), VenueId(cs[|cs| - 1])) == FirstInfo(cs, |cs| - 1)
  {
    var id := VenueId(cs[|cs| - 1]);
    assert Ids(cs)[|cs| - 1] == id;
    var k := FirstIndex(Ids(cs), id);
    var cache := BuildCache(cs);
    CacheHoldsFirst(cs, id);
    assert Lookup(cache, id) == Some(InfoOf(cs[k]));
  }

  /** `FirstInfo` does not depend on the check-ins that come later. */
  lemma FirstInfoPrefix(cs: seq<CheckIn>, n: nat, i: nat)
    requires i < n <= |cs|
    ensures FirstInfo(cs[..n], i) == FirstInfo(cs, i)
  {
    var pre, post := cs[..n], cs[n..];
    var id := VenueId(cs[i]);
    assert pre[i] == cs[i];
    assert Ids(pre)[i] == id;
    assert cs == pre + post;
    PrefixFirstIndex(pre, post, id);
  }

  lemma PrefixFirstIndex(pre: seq<CheckIn>, post: seq<CheckIn>, id: string)
    requires id in Ids(pre)
    ensures FirstIndex(Ids(pre + post), id) == FirstIndex(Ids(pre), id)
    ensures (pre + post)[FirstIndex(Ids(pre), id)] == pre[FirstIndex(Ids(pre), id)]
  {
    assert Ids(pre + post) == Ids(pre) + Ids(post);
    FirstIndexConcat(Ids(pre), Ids(post), id);
  }

  /** Check-in `r` is the first one carrying its venue id, so it is the one
      whose details the cache keeps. */
  ghost predicate FirstOfId(cs: seq<CheckIn>, r: int) {
    0 <= r < |cs| && FirstIndex(Ids(cs), VenueId(cs[r])) == r
  }

  /** Every cache entry is the id and details of the first check-in with
      that id. */
  lemma CachedFirst(cs: seq<CheckIn>, j: int) returns (r: int)
    requires 0 <= j < |BuildCache(cs)|
    ensures FirstOfId(cs, r)
    ensures BuildCache(cs)[j] == Cached(VenueId(cs[r]), InfoOf(cs[r]))
  {
    var cache := BuildCache(cs);
    var id := cache[j].id;
    CacheSize(cs);
    assert CacheIds(cache)[j] == id;
    DistinctFirstIndex(CacheIds(cache), j);
    CacheHoldsFirst(cs, id);
    r := FirstIndex(Ids(cs), id);
    assert Ids(cs)[r] == id;
  }

  /** The first check-in with an id has its entry in the cache. */
  lemma FirstCached(cs: seq<CheckIn>, r: int) returns (j: int)
    requires FirstOfId(cs, r)
    ensures 0 <= j < |BuildCache(cs)|
    ensures BuildCache(cs)[j] == Cached(VenueId(cs[r]), InfoOf(cs[r]))
  {
    var cache := BuildCache(cs);
    var id := VenueId(cs[r]);
    assert Ids(cs)[r] == id;
    CacheHoldsFirst(cs, id);
    j := FirstIndex(CacheIds(cache), id);
    assert cache[j].id == CacheIds(cache)[j];
  }

  /** Cache entries come in the order their first check-ins do. */
  lemma CacheOrder(cs: seq<CheckIn>, j1: int, j2: int, r1: int, r2: int)
    requires 0 <= j1 < j2 < |BuildCache(cs)|
    requires FirstOfId(cs, r1) && BuildCache(cs)[j1].id == VenueId(cs[r1])
    requires FirstOfId(cs, r2) && BuildCache(cs)[j2].id == VenueId(cs[r2])
    ensures r1 < r2
  {
    var cache := BuildCache(cs);
    CacheIdsFirstSeen(cs);
    TallyKeysFirstSeen(Ids(cs));
    assert CacheIds(cache)[j1] == cache[j1].id && CacheIds(cache)[j2] == cache[j2].id;
  }

  /** The key of the city counter: "city, state" when the state is non-empty,
      otherwise "city, country" outside the United States, otherwise the bare
      city. */
  function CityKey(info: VenueInfo): (key: string)
    ensures |info.city| <= |key| && key[..|info.city|] == info.city
    ensures key == info.city <==> info.state == "" && info.country == "United States"
    ensures info.state != "" ==> key[|info.city|..] == ", " + info.state
    ensures info.state == "" && info.country != "United States" ==>
      key[|info.city|..] == ", " + info.country
  {
    if info.state != "" then info.city + ", " + info.state
    else if info.country != "United States" then info.city + ", " + info.country
    else info.city
  }

  function CacheNames(cache: Cache): seq<string> {
    seq(|cache|, i requires 0 <= i < |cache| => cache[i].info.name)
  }

  /** `next((v for v in venues.values() if v["name"] == name), None)`: the
      details of the first cached venue with that name, if there is one. */
  function FindByName(cache: Cache, name: string): (r: Option<VenueInfo>)
    ensures r.None? <==> forall i :: 0 <= i < |cache| ==> cache[i].info.name != name
    ensures r.Some? ==> r.value.name == name
    ensures r.Some? ==> exists i :: (0 <= i < |cache| && cache[i].info == r.value
      && forall j :: 0 <= j < i ==> cache[j].info.name != name)
  {
    var i := FirstIndex(CacheNames(cache), name);
    assert forall j :: 0 <= j < |cache| ==> CacheNames(cache)[j] == cache[j].info.name;
    if i < |cache| then Some(cache[i].info) else None
  }

  /** The details `top_venues` shows for a name: those of the earliest check-in
      that both carries the name and is the first with its venue id, when
      there is one; none otherwise. A name that only ever appears on later
      check-ins of an id (the id's first check-in named it differently) finds
      nothing; for such a name the lookup at line 136 raises `TypeError`. */
  lemma FindByNameFirst(cs: seq<CheckIn>, name: string)
    ensures var found := FindByName(BuildCache(cs), name);
      found.None? <==> forall r :: FirstOfId(cs, r) ==> VenueName(cs[r]) != name
    ensures var found := FindByName(BuildCache(cs), name);
      found.Some? ==> exists r :: (FirstOfId(cs, r) && VenueName(cs[r]) == name
        && found.value == InfoOf(cs[r])
        && forall r' :: 0 <= r' < r && FirstOfId(cs, r') ==> VenueName(cs[r']) != name)
  {
    var cache := BuildCache(cs);
    var found := FindByName(cache, name);
    if found.None? {
      forall r | FirstOfId(cs, r) ensures VenueName(cs[r]) != name {
        var j := FirstCached(cs, r);
        assert cache[j].info.name == VenueName(cs[r]);
      }
    } else {
      var j :| 0 <= j < |cache| && cache[j].info == found.value
        && forall j' :: 0 <= j' < j ==> cache[j'].info.name != name;
      var r := CachedFirst(cs, j);
      forall r' | 0 <= r' < r && FirstOfId(cs, r') ensures VenueName(cs[r']) != name {
        var j' := FirstCached(cs, r');
        if j' > j {
          CacheOrder(cs, j, j', r, r');
        }
      }
    }
  }
}
