/** The active-day reductions: sorting the distinct active days, the span
    from first to last, and `calculate_longest_streak`. Days are day numbers,
    so "one calendar day later" is "plus one". */
module Streak {
  import opened Counters

  ghost predicate StrictlyAscending(d: seq<int>) {
    forall i, j :: 0 <= i < j < |d| ==> d[i] < d[j]
  }

  function InsertDay(x: int, s: seq<int>): (r: seq<int>)
    requires StrictlyAscending(s) && x !in s
    ensures StrictlyAscending(r)
    ensures |r| == |s| + 1
    ensures forall y :: y in r <==> y == x || y in s
  {
    if |s| == 0 || x < s[0] then [x] + s
    else
      var t := InsertDay(x, s[1..]);
      assert forall y :: y in s <==> y == s[0] || y in s[1..];
      assert forall k :: 0 <= k < |t| ==> t[k] in t;
      [s[0]] + t
  }

  /** `sorted(checkin_dates)` for a duplicate-free collection of days: the
      same days, each once, in ascending order. */
  function SortDays(xs: seq<int>): (r: seq<int>)
    requires Distinct(xs)
    ensures StrictlyAscending(r)
    ensures |r| == |xs|
    ensures forall y :: y in r <==> y in xs
  {
    if |xs| == 0 then []
    else
      var s := SortDays(xs[1..]);
      assert forall y :: y in xs <==> y == xs[0] || y in xs[1..];
      assert xs[0] !in xs[1..];
      InsertDay(xs[0], s)
  }

  /** The inclusive number of days from the first to the last sorted day;
      0 when there are none. */
  function Span(sorted: seq<int>): int {
    if |sorted| > 0 then sorted[|sorted| - 1] - sorted[0] + 1 else 0
  }

  /** Strictly ascending days are at least as far apart as their positions. */
  lemma {:induction false} AscendingGaps(d: seq<int>, i: int, j: int)
    requires StrictlyAscending(d) && 0 <= i <= j < |d|
    ensures d[j] - d[i] >= j - i
    decreases j - i
  {
    if i < j {
      AscendingGaps(d, i + 1, j);
    }
  }

  /** There are never more active days than days in their span. */
  lemma SpanCoversDays(sorted: seq<int>)
    requires StrictlyAscending(sorted)
    ensures |sorted| <= Span(sorted)
  {
    if |sorted| > 0 {
      AscendingGaps(sorted, 0, |sorted| - 1);
    }
  }

  /** Positions `lo .. hi-1` hold days that each follow the previous one by
      exactly one day. */
  ghost predicate Consecutive(d: seq<int>, lo: int, hi: int) {
    0 <= lo < hi <= |d| && forall k :: lo < k < hi ==> d[k] == d[k - 1] + 1
  }

  /** `n` is the length of the longest such run (0 for no days). */
  ghost predicate IsLongestStreak(d: seq<int>, n: nat) {
    && (|d| == 0 ==> n == 0)
    && (|d| > 0 ==> exists lo, hi :: Consecutive(d, lo, hi) && hi - lo == n)
    && (forall lo, hi :: Consecutive(d, lo, hi) ==> hi - lo <= n)
  }

  /** What the loop of `calculate_longest_streak` knows after looking at the
      first `i` days: `cur` is the length of the run ending at day `i - 1`
      (and that run cannot be extended to the left), `best` the length of the
      longest run seen so far. */
  ghost predicate ScanState(d: seq<int>, i: int, cur: int, best: int) {
    && 1 <= i <= |d|
    && 1 <= cur <= i
    && Consecutive(d, i - cur, i)
    && (i - cur == 0 || d[i - cur] != d[i - cur - 1] + 1)
    && cur <= best
    && (exists lo, hi :: hi <= i && Consecutive(d, lo, hi) && hi - lo == best)
    && (forall lo, hi :: hi <= i && Consecutive(d, lo, hi) ==> hi - lo <= best)
  }

  /** The loop of `calculate_longest_streak` from index `i` on. */
  function Scan(d: seq<int>, i: nat, cur: nat, best: nat): nat
    requires 1 <= i <= |d|
    decreases |d| - i
  {
    if i == |d| then best
    else if d[i] - d[i - 1] == 1 then
      var cur' := cur + 1;
      Scan(d, i + 1, cur', if best > cur' then best else cur')
    else
      Scan(d, i + 1, 1, best)
  }

  lemma ScanStep(d: seq<int>, i: nat, cur: nat, best: nat)
    requires ScanState(d, i, cur, best) && i < |d|
    ensures d[i] - d[i - 1] == 1 ==>
      var cur' := cur + 1;
      ScanState(d, i + 1, cur', if best > cur' then best else cur')
    ensures d[i] - d[i - 1] != 1 ==> ScanState(d, i + 1, 1, best)
  {
    if d[i] - d[i - 1] == 1 {
      var cur' := cur + 1;
      var best' := if best > cur' then best else cur';
      assert Consecutive(d, i - cur, i + 1);
      if best' == cur' {
        assert i + 1 <= i + 1 && Consecutive(d, i - cur, i + 1) && (i + 1) - (i - cur) == best';
      }
      assert forall lo, hi :: hi <= i + 1 && Consecutive(d, lo, hi) ==> hi - lo <= best';
    } else {
      assert Consecutive(d, i, i + 1);
      assert forall lo, hi :: hi <= i + 1 && Consecutive(d, lo, hi) ==> hi - lo <= best;
    }
  }

  lemma {:induction false} ScanCorrect(d: seq<int>, i: nat, cur: nat, best: nat)
    requires ScanState(d, i, cur, best)
    ensures IsLongestStreak(d, Scan(d, i, cur, best))
    decreases |d| - i
  {
    if i < |d| {
      ScanStep(d, i, cur, best);
      if d[i] - d[i - 1] == 1 {
        var cur' := cur + 1;
        ScanCorrect(d, i + 1, cur', if best > cur' then best else cur');
      } else {
        ScanCorrect(d, i + 1, 1, best);
      }
    }
  }

  /** `calculate_longest_streak(sorted_dates)`: the length of the longest run
      of days each exactly one day after the previous one; 0 for no days and
      otherwise between 1 and the number of days. */
  function LongestStreak(d: seq<int>): (n: nat)
    ensures IsLongestStreak(d, n)
    ensures |d| == 0 <==> n == 0
    ensures n <= |d|
  {
    if |d| == 0 then 0
    else
      assert Consecutive(d, 0, 1);
      ScanCorrect(d, 1, 1, 1);
      Scan(d, 1, 1, 1)
  }

  lemma {:induction false} BlockPositions(d: seq<int>, a: int, m: int, p: int, j: int)
    requires StrictlyAscending(d)
    requires forall x :: a <= x < a + m ==> x in d
    requires 0 <= p < |d| && d[p] == a
    requires 0 <= j < m
    ensures p + j < |d| && d[p + j] == a + j
    decreases j
  {
    if j > 0 {
      BlockPositions(d, a, m, p, j - 1);
      assert a + j in d;
      var q :| 0 <= q < |d| && d[q] == a + j;
    }
  }

  /** On strictly ascending days, every block of `m` consecutive calendar
      days that are all active is at most the longest streak long. */
  lemma StreakCoversBlock(d: seq<int>, a: int, m: int)
    requires StrictlyAscending(d)
    requires m >= 1 && forall x :: a <= x < a + m ==> x in d
    ensures m <= LongestStreak(d)
  {
    assert a in d;
    var p :| 0 <= p < |d| && d[p] == a;
    forall k | p <= k < p + m ensures k < |d| && d[k] == a + (k - p) {
      BlockPositions(d, a, m, p, k - p);
    }
    BlockPositions(d, a, m, p, m - 1);
    forall k | p < k < p + m ensures d[k] == d[k - 1] + 1 {
      assert d[k - 1] == a + (k - 1 - p);
    }
    assert Consecutive(d, p, p + m);
  }

  lemma {:induction false} RunValues(d: seq<int>, lo: int, hi: int, t: int)
    requires Consecutive(d, lo, hi) && 0 <= t < hi - lo
    ensures d[lo + t] == d[lo] + t
    decreases t
  {
    if t > 0 {
      RunValues(d, lo, hi, t - 1);
    }
  }

  /** The longest streak is itself such a block: it starts at some active
      day `a` and every day of `a .. a + streak - 1` is active. */
  lemma StreakIsBlock(d: seq<int>) returns (a: int)
    ensures forall x :: a <= x < a + LongestStreak(d) ==> x in d
  {
    var n := LongestStreak(d);
    if |d| == 0 {
      a := 0;
    } else {
      var lo, hi :| Consecutive(d, lo, hi) && hi - lo == n;
      a := d[lo];
      forall x | a <= x < a + n ensures x in d {
        RunValues(d, lo, hi, x - a);
        assert d[lo + (x - a)] == x;
      }
    }
  }
}
