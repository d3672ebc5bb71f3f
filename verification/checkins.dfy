/** The input of the analysis: check-in records with optional fields, and
    the default each missing field is read as. Calendar fields are taken as
    already converted from the `createdAt` timestamp to local time. */
module CheckIns {

  datatype Option<+T> = None | Some(value: T) {
    function GetOr(default: T): T {
      match this
      case Some(v) => v
      case None => default
    }
  }

  type Hour = h: int | 0 <= h < 24

  /** Weekday position, Monday = 0 … Sunday = 6. */
  type WeekdayIndex = d: int | 0 <= d < 7

  /** Month position, January = 0 … December = 11. */
  type MonthIndex = m: int | 0 <= m < 12

  /** A coordinate as an exact decimal, in units of 10^-8 degree. */
  type Coord = int

  datatype Companion = Companion(firstName: Option<string>, lastName: Option<string>)

  datatype Location = Location(
    city: Option<string>,
    state: Option<string>,
    country: Option<string>,
    lat: Option<Coord>,
    lng: Option<Coord>)

  /** `categories` holds the names of the venue's categories, primary first. */
  datatype Venue = Venue(
    id: Option<string>,
    name: Option<string>,
    location: Option<Location>,
    categories: seq<string>)

  /** One check-in. `hour`, `weekday`, `month` and `day` (a day number that
      grows by one per calendar day) are the local date-time of `createdAt`;
      `photos` is the number of photo items. */
  datatype CheckIn = CheckIn(
    venue: Option<Venue>,
    createdAt: Option<int>,
    hour: Hour,
    weekday: WeekdayIndex,
    month: MonthIndex,
    day: int,
    companions: seq<Companion>,
    shout: Option<string>,
    photos: nat)

  const DayNames: seq<string> :=
    ["Monday", "Tuesday", "Wednesday", "Thursday", "Friday", "Saturday", "Sunday"]

  const MonthNames: seq<string> :=
    ["Jan", "Feb", "Mar", "Apr", "May", "Jun", "Jul", "Aug", "Sep", "Oct", "Nov", "Dec"]

  function DayName(c: CheckIn): string {
    DayNames[c.weekday]
  }

  function MonthName(c: CheckIn): string {
    MonthNames[c.month]
  }

  /** `venue.get("id", "unknown")`, with a missing venue read as `{}`. */
  function VenueId(c: CheckIn): string {
    match c.venue
    case None => "unknown"
    case Some(v) => v.id.GetOr("unknown")
  }

  /** `venue.get("name", "Unknown Venue")`. */
  function VenueName(c: CheckIn): string {
    match c.venue
    case None => "Unknown Venue"
    case Some(v) => v.name.GetOr("Unknown Venue")
  }

  /** The name shown for the first and last check-in, whose default differs:
      `venue.get("name", "Unknown")`. */
  function ShownVenueName(c: CheckIn): string {
    match c.venue
    case None => "Unknown"
    case Some(v) => v.name.GetOr("Unknown")
  }

  /** `checkin.get("createdAt", 0)`. */
  function CreatedAt(c: CheckIn): int {
    c.createdAt.GetOr(0)
  }

  /** A shout counts when it is present and non-empty (Python truthiness). */
  predicate HasShout(c: CheckIn) {
    c.shout.Some? && c.shout.value != ""
  }

  predicate AllSpaces(s: string) {
    forall i :: 0 <= i < |s| ==> s[i] == ' '
  }

  function TrimStart(s: string): (r: string)
    ensures |r| <= |s| && r == s[|s| - |r|..]
    ensures AllSpaces(s[..|s| - |r|])
    ensures |r| > 0 ==> r[0] != ' '
  {
    if |s| > 0 && s[0] == ' ' then TrimStart(s[1..]) else s
  }

  function TrimEnd(s: string): (r: string)
    ensures |r| <= |s| && r == s[..|r|]
    ensures AllSpaces(s[|r|..])
    ensures |r| > 0 ==> r[|r| - 1] != ' '
  {
    if |s| > 0 && s[|s| - 1] == ' ' then TrimEnd(s[..|s| - 1]) else s
  }

  /** `str.strip()`, restricted to the space character: the result neither
      starts nor ends with a space. */
  function Trim(s: string): (r: string)
    ensures |r| <= |s|
    ensures |r| > 0 ==> r[0] != ' ' && r[|r| - 1] != ' '
  {
    TrimEnd(TrimStart(s))
  }

  /** The trimmed string is a slice of `s`, and what is cut off on either
      side is spaces only. */
  lemma TrimSlice(s: string) returns (a: int, b: int)
    ensures 0 <= a <= b <= |s| && Trim(s) == s[a..b]
    ensures AllSpaces(s[..a]) && AllSpaces(s[b..])
  {
    var t := TrimStart(s);
    var r := TrimEnd(t);
    a := |s| - |t|;
    b := a + |r|;
    assert r == s[a..b];
    assert s[b..] == t[|r|..];
  }

  /** A trimmed string is empty exactly when the original is all spaces. */
  lemma TrimEmptyIff(s: string)
    ensures Trim(s) == "" <==> AllSpaces(s)
  {
    var a, b := TrimSlice(s);
    if Trim(s) == "" {
      forall i | 0 <= i < |s| ensures s[i] == ' ' {
        if i < a {
          assert s[..a][i] == s[i];
        } else {
          assert s[b..][i - b] == s[i];
        }
      }
    } else {
      assert s[a] == Trim(s)[0];
    }
  }

  /** Trimming twice trims nothing more. */
  lemma TrimIdempotent(s: string)
    ensures Trim(Trim(s)) == Trim(s)
  {
    var t := Trim(s);
    assert TrimStart(t) == t;
    assert TrimEnd(t) == t;
  }

  /** `f"{firstName} {lastName}".strip()`, missing parts read as "". */
  function DisplayName(f: Companion): string {
    Trim(f.firstName.GetOr("") + " " + f.lastName.GetOr(""))
  }

  /** The display names of the companions, in order. */
  function DisplayNames(fs: seq<Companion>): (ns: seq<string>)
    ensures |ns| == |fs|
    ensures forall i :: 0 <= i < |fs| ==> ns[i] == DisplayName(fs[i])
  {
    seq(|fs|, i requires 0 <= i < |fs| => DisplayName(fs[i]))
  }

  /** The non-empty names of `ns`, in order. */
  function NonEmpty(ns: seq<string>): (r: seq<string>)
    ensures forall n :: n in r ==> n != ""
    ensures |r| <= |ns|
  {
    if |ns| == 0 then []
    else
      var rest := NonEmpty(ns[1..]);
      if ns[0] != "" then [ns[0]] + rest else rest
  }

  /** The positions, from `lo` on, of the non-empty names of `ns`: ascending,
      and none left out. */
  function NonEmptyPositions(ns: seq<string>, lo: nat): (idx: seq<nat>)
    requires lo <= |ns|
    ensures forall k :: 0 <= k < |idx| ==> lo <= idx[k] < |ns| && ns[idx[k]] != ""
    ensures forall k, l :: 0 <= k < l < |idx| ==> idx[k] < idx[l]
    decreases |ns| - lo
  {
    if lo == |ns| then []
    else
      var rest := NonEmptyPositions(ns, lo + 1);
      if ns[lo] != "" then [lo] + rest else rest
  }

  /** No non-empty position from `lo` on is left out. */
  lemma {:induction false} NonEmptyPositionsComplete(ns: seq<string>, lo: nat, i: int)
    requires lo <= i < |ns| && ns[i] != ""
    ensures i in NonEmptyPositions(ns, lo)
    decreases i - lo
  {
    if lo < i {
      NonEmptyPositionsComplete(ns, lo + 1, i);
    }
  }

  /** The names of `ns` at the positions `idx`, in the order of `idx`. */
  function Pick(ns: seq<string>, idx: seq<nat>): (r: seq<string>)
    requires forall k :: 0 <= k < |idx| ==> idx[k] < |ns|
    ensures |r| == |idx| && forall k :: 0 <= k < |idx| ==> r[k] == ns[idx[k]]
  {
    seq(|idx|, k requires 0 <= k < |idx| => ns[idx[k]])
  }

  /** Filtering keeps exactly the names at the non-empty positions, each
      once, in order. */
  lemma {:induction false} NonEmptyAtPositions(ns: seq<string>, lo: nat)
    requires lo <= |ns|
    ensures NonEmpty(ns[lo..]) == Pick(ns, NonEmptyPositions(ns, lo))
    decreases |ns| - lo
  {
    if lo < |ns| {
      NonEmptyAtPositions(ns, lo + 1);
      NonEmptyStep(ns, lo);
      PickStep(ns, lo);
    }
  }

  lemma NonEmptyStep(ns: seq<string>, lo: nat)
    requires lo < |ns|
    ensures NonEmpty(ns[lo..]) == (if ns[lo] != "" then [ns[lo]] else []) + NonEmpty(ns[lo + 1..])
  {
    assert ns[lo..][1..] == ns[lo + 1..];
  }

  lemma PickStep(ns: seq<string>, lo: nat)
    requires lo < |ns|
    ensures Pick(ns, NonEmptyPositions(ns, lo)) ==
      (if ns[lo] != "" then [ns[lo]] else []) + Pick(ns, NonEmptyPositions(ns, lo + 1))
  {
    var rest := NonEmptyPositions(ns, lo + 1);
    if ns[lo] != "" {
      assert NonEmptyPositions(ns, lo) == [lo] + rest;
    }
  }

  /** Every non-empty name of `ns` is kept. */
  lemma {:induction false} NonEmptyKeeps(ns: seq<string>, i: int)
    requires 0 <= i < |ns| && ns[i] != ""
    ensures ns[i] in NonEmpty(ns)
    decreases i
  {
    if i > 0 {
      NonEmptyKeeps(ns[1..], i - 1);
    }
  }

  /** Every kept name is a name of `ns`. */
  lemma {:induction false} NonEmptyFrom(ns: seq<string>, n: string) returns (i: int)
    requires n in NonEmpty(ns)
    ensures 0 <= i < |ns| && ns[i] == n
    decreases |ns|
  {
    if ns[0] != "" && n == ns[0] {
      i := 0;
    } else {
      var j := NonEmptyFrom(ns[1..], n);
      i := j + 1;
    }
  }

  /** The names tallied for one check-in's companions: the non-empty display
      names, in order. */
  function FriendNames(fs: seq<Companion>): (names: seq<string>)
    ensures forall n :: n in names ==> n != ""
    ensures |names| <= |fs|
  {
    NonEmpty(DisplayNames(fs))
  }

  /** Every companion whose display name is non-empty is tallied. */
  lemma FriendNamesKeep(fs: seq<Companion>, i: int)
    requires 0 <= i < |fs| && DisplayName(fs[i]) != ""
    ensures DisplayName(fs[i]) in FriendNames(fs)
  {
    NonEmptyKeeps(DisplayNames(fs), i);
  }

  /** Every tallied name is the display name of some companion. */
  lemma FriendNamesFrom(fs: seq<Companion>, n: string) returns (i: int)
    requires n in FriendNames(fs)
    ensures 0 <= i < |fs| && DisplayName(fs[i]) == n
  {
    i := NonEmptyFrom(DisplayNames(fs), n);
  }

  /** The positions of the companions whose display name is non-empty:
      ascending, and none left out. */
  function NamedPositions(fs: seq<Companion>): (idx: seq<nat>)
    ensures forall k :: 0 <= k < |idx| ==> idx[k] < |fs| && DisplayName(fs[idx[k]]) != ""
    ensures forall k, l :: 0 <= k < l < |idx| ==> idx[k] < idx[l]
  {
    NonEmptyPositions(DisplayNames(fs), 0)
  }

  /** Every companion with a non-empty display name has its position listed. */
  lemma NamedPositionsComplete(fs: seq<Companion>, i: int)
    requires 0 <= i < |fs| && DisplayName(fs[i]) != ""
    ensures i in NamedPositions(fs)
  {
    NonEmptyPositionsComplete(DisplayNames(fs), 0, i);
  }

  /** The tallied names are the display names at `NamedPositions`, in that
      order: one name per named companion, in input order. */
  lemma FriendNamesInOrder(fs: seq<Companion>)
    ensures var idx := NamedPositions(fs);
      |FriendNames(fs)| == |idx| && forall k :: 0 <= k < |idx| ==> FriendNames(fs)[k] == DisplayName(fs[idx[k]])
  {
    var ns := DisplayNames(fs);
    NonEmptyAtPositions(ns, 0);
    assert ns[0..] == ns;
  }
}
