/** Reductions over a counter: `Counter.most_common` (a stable sort by
    descending count, optionally cut to the first `n` entries) and
    `max(counter, key=counter.get)`. */
module Ranking {
  import opened Counters
  import Extremes

  /** The `n` argument of `most_common`: absent means every entry. */
  datatype Limit = All | Top(n: nat)

  function Limited(size: nat, lim: Limit): nat {
    match lim
    case All => size
    case Top(n) => if n < size then n else size
  }

  function Counts<K>(c: Counter<K>): seq<int> {
    seq(|c|, i requires 0 <= i < |c| => c[i].count)
  }

  /** Position of `max(counter, key=counter.get)`: the first entry whose count
      is maximal. */
  function PeakIndex<K>(c: Counter<K>): (m: nat)
    requires |c| > 0
    ensures m < |c|
    ensures forall i :: 0 <= i < |c| ==> c[i].count <= c[m].count
    ensures forall i :: 0 <= i < m ==> c[i].count < c[m].count
  {
    var m := Extremes.ArgMax(Counts(c));
    assert forall i :: 0 <= i < |c| ==> Counts(c)[i] == c[i].count;
    m
  }

  /** The key `max` picks from `Counter(xs)` occurs most often in `xs`, and
      among the keys that occur equally often it is the one seen first. */
  lemma PeakOfTally<K>(xs: seq<K>)
    requires |xs| > 0
    ensures var c := Tally(xs); var e := c[PeakIndex(c)];
      && e.key in xs
      && e.count == multiset(xs)[e.key]
      && (forall k :: multiset(xs)[k] <= e.count)
      && (forall k :: k in xs && k != e.key && multiset(xs)[k] == e.count ==>
            FirstIndex(xs, e.key) < FirstIndex(xs, k))
  {
    var c := Tally(xs);
    TallyCounts(xs);
    assert xs[0] in Keys(c);
    var m := PeakIndex(c);
    var e := c[m];
    TallyEntry(xs, m);
    TallyFirstSeenOrder(xs);
    forall k | k in xs
      ensures multiset(xs)[k] <= e.count
      ensures k != e.key && multiset(xs)[k] == e.count ==> FirstIndex(xs, e.key) < FirstIndex(xs, k)
    {
      assert k in Keys(c);
      var j :| 0 <= j < |c| && Keys(c)[j] == k;
      TallyEntry(xs, j);
      if k != e.key && multiset(xs)[k] == e.count {
        assert j != m;
        assert !(j < m);
      }
    }
  }

  /** Distinct elements of a sequence. */
  function Uniques<K>(xs: seq<K>): set<K> {
    set x | x in xs
  }

  lemma {:induction false} DistinctCard<K>(s: seq<K>)
    requires Distinct(s)
    ensures |Uniques(s)| == |s|
    decreases |s|
  {
    if |s| > 0 {
      var p, x := s[..|s| - 1], s[|s| - 1];
      assert s == p + [x];
      DistinctCard(p);
      assert Uniques(s) == Uniques(p) + {x};
      assert x !in Uniques(p);
    }
  }

  /** `len(Counter(xs))` is the number of distinct elements of `xs`. */
  lemma TallySize<K>(xs: seq<K>)
    ensures |Tally(xs)| == |Uniques(xs)|
  {
    var c := Tally(xs);
    TallyCounts(xs);
    DistinctCard(Keys(c));
    assert Uniques(Keys(c)) == Uniques(xs);
  }

  function InsertPos<K>(e: Entry<K>, s: Counter<K>): (m: nat)
    ensures m <= |s|
    ensures forall i :: 0 <= i < m ==> s[i].count > e.count
    ensures m < |s| ==> s[m].count <= e.count
  {
    if |s| == 0 || s[0].count <= e.count then 0 else 1 + InsertPos(e, s[1..])
  }

  ghost predicate Descending<K>(s: Counter<K>) {
    forall i, j :: 0 <= i < j < |s| ==> s[i].count >= s[j].count
  }

  /** Entries of `r` with equal counts keep the order their keys have in `c`. */
  ghost predicate TiesInCounterOrder<K>(c: Counter<K>, r: Counter<K>) {
    forall i, j :: 0 <= i < j < |r| && r[i].count == r[j].count ==>
      FirstIndex(Keys(c), r[i].key) < FirstIndex(Keys(c), r[j].key)
  }

  /** `s` with `e` placed at position `m`. */
  function InsertAt<K>(s: Counter<K>, m: nat, e: Entry<K>): (r: Counter<K>)
    requires m <= |s|
    ensures |r| == |s| + 1
    ensures forall i :: 0 <= i < m ==> r[i] == s[i]
    ensures r[m] == e
    ensures forall i :: m < i < |r| ==> r[i] == s[i - 1]
    ensures multiset(r) == multiset(s) + multiset{e}
  {
    assert s == s[..m] + s[m..];
    s[..m] + [e] + s[m..]
  }

  /** `sorted(counter.items(), key=count, reverse=True)`: Python's sort is
      stable, so entries with equal counts stay in counter order. */
  function SortByCount<K(==)>(c: Counter<K>): (r: Counter<K>)
    ensures |r| == |c|
    ensures multiset(r) == multiset(c)
    ensures Descending(r)
    ensures DistinctKeys(c) ==> DistinctKeys(r) && TiesInCounterOrder(c, r)
  {
    if |c| == 0 then []
    else
      var s := SortByCount(c[1..]);
      var m := InsertPos(c[0], s);
      var r := InsertAt(s, m, c[0]);
      assert c == [c[0]] + c[1..];
      InsertDescending(s, m, c[0]);
      if DistinctKeys(c) then
        InsertKeepsOrder(c, s, m);
        r
      else
        r
  }

  lemma InsertDescending<K>(s: Counter<K>, m: nat, e: Entry<K>)
    requires Descending(s)
    requires m == InsertPos(e, s)
    ensures Descending(InsertAt(s, m, e))
  {
    var r := InsertAt(s, m, e);
    forall i, j | 0 <= i < j < |r|
      ensures r[i].count >= r[j].count
    {
      if i == m && j - 1 != m {
        assert s[m].count >= s[j - 1].count;
      }
    }
  }

  /** Entries of `Sort(c[1..])` are entries of `c[1..]`; with distinct keys
      none shares `c[0]`'s key, and each sits one place later in `c`. */
  lemma TailEntries<K>(c: Counter<K>, s: Counter<K>, x: Entry<K>)
    requires |c| > 0 && DistinctKeys(c)
    requires multiset(s) == multiset(c[1..])
    requires x in s
    ensures x.key != c[0].key
    ensures FirstIndex(Keys(c), x.key) == 1 + FirstIndex(Keys(c[1..]), x.key)
  {
    assert x in multiset(s);
    var q :| 0 <= q < |c[1..]| && c[1..][q] == x;
    assert Keys(c)[q + 1] == x.key && Keys(c)[0] == c[0].key;
    KeysCons(c);
  }

  lemma InsertKeepsOrder<K>(c: Counter<K>, s: Counter<K>, m: nat)
    requires |c| > 0 && DistinctKeys(c)
    requires multiset(s) == multiset(c[1..])
    requires DistinctKeys(c[1..]) ==> DistinctKeys(s) && TiesInCounterOrder(c[1..], s)
    requires m == InsertPos(c[0], s)
    ensures DistinctKeys(InsertAt(s, m, c[0]))
    ensures TiesInCounterOrder(c, InsertAt(s, m, c[0]))
  {
    assert DistinctKeys(c[1..]) by {
      KeysCons(c);
      assert Keys(c[1..]) == Keys(c)[1..];
    }
    InsertKeepsDistinct(c, s, m);
    InsertKeepsTies(c, s, m);
  }

  lemma InsertKeepsDistinct<K>(c: Counter<K>, s: Counter<K>, m: nat)
    requires |c| > 0 && DistinctKeys(c)
    requires multiset(s) == multiset(c[1..])
    requires DistinctKeys(s)
    requires m <= |s|
    ensures DistinctKeys(InsertAt(s, m, c[0]))
  {
    var r := InsertAt(s, m, c[0]);
    forall i, j | 0 <= i < j < |Keys(r)|
      ensures Keys(r)[i] != Keys(r)[j]
    {
      if i != m && j != m {
        var i', j' := if i < m then i else i - 1, if j < m then j else j - 1;
        assert Keys(s)[i'] == r[i].key && Keys(s)[j'] == r[j].key;
      } else if i == m {
        TailEntries(c, s, r[j]);
      } else {
        TailEntries(c, s, r[i]);
      }
    }
  }

  lemma InsertKeepsTies<K>(c: Counter<K>, s: Counter<K>, m: nat)
    requires |c| > 0 && DistinctKeys(c)
    requires multiset(s) == multiset(c[1..])
    requires TiesInCounterOrder(c[1..], s)
    requires m == InsertPos(c[0], s)
    ensures TiesInCounterOrder(c, InsertAt(s, m, c[0]))
  {
    var r := InsertAt(s, m, c[0]);
    forall i, j | 0 <= i < j < |r| && r[i].count == r[j].count
      ensures FirstIndex(Keys(c), r[i].key) < FirstIndex(Keys(c), r[j].key)
    {
      if i == m {
        TailEntries(c, s, r[j]);
        assert Keys(c)[0] == c[0].key;
      } else if j != m {
        var i', j' := if i < m then i else i - 1, if j < m then j else j - 1;
        assert s[i'] == r[i] && s[j'] == r[j] && i' < j';
        TailEntries(c, s, r[i]);
        TailEntries(c, s, r[j]);
      }
    }
  }

  /** `counter.most_common(n)`. */
  function MostCommon<K(==)>(c: Counter<K>, lim: Limit): (r: Counter<K>)
    requires DistinctKeys(c)
    ensures |r| == Limited(|c|, lim)
    ensures Descending(r)
    ensures DistinctKeys(r)
    ensures forall i :: 0 <= i < |r| ==> r[i] in c
    ensures TiesInCounterOrder(c, r)
    ensures forall e :: e in c && e !in r ==> forall i :: 0 <= i < |r| ==>
      e.count < r[i].count
      || (e.count == r[i].count && FirstIndex(Keys(c), r[i].key) < FirstIndex(Keys(c), e.key))
  {
    var s := SortByCount(c);
    var n := Limited(|c|, lim);
    PrefixOfSorted(c, s, n);
    s[..n]
  }

  /** At a tie on the cut-off the entry counted first is the one kept: when
      a later entry with the same count is listed, so is the earlier one. */
  lemma TieKeepsEarlier<K>(c: Counter<K>, lim: Limit, p: int, q: int)
    requires DistinctKeys(c) && 0 <= p < q < |c| && c[p].count == c[q].count
    requires c[q] in MostCommon(c, lim)
    ensures c[p] in MostCommon(c, lim)
  {
    var r := MostCommon(c, lim);
    var i :| 0 <= i < |r| && r[i] == c[q];
    DistinctFirstIndex(Keys(c), p);
    DistinctFirstIndex(Keys(c), q);
    assert Keys(c)[p] == c[p].key && Keys(c)[q] == c[q].key;
  }

  lemma PrefixOfSorted<K>(c: Counter<K>, s: Counter<K>, n: nat)
    requires DistinctKeys(c) && n <= |c|
    requires |s| == |c| && multiset(s) == multiset(c) && Descending(s)
    requires DistinctKeys(s) && TiesInCounterOrder(c, s)
    ensures var r := s[..n];
      && Descending(r)
      && DistinctKeys(r)
      && (forall i :: 0 <= i < |r| ==> r[i] in c)
      && TiesInCounterOrder(c, r)
      && (forall e :: e in c && e !in r ==> forall i :: 0 <= i < |r| ==>
            e.count < r[i].count
            || (e.count == r[i].count && FirstIndex(Keys(c), r[i].key) < FirstIndex(Keys(c), e.key)))
  {
    var r := s[..n];
    assert Keys(r) == Keys(s)[..n];
    PrefixMembers(c, s, n);
    PrefixCovers(c, s, n);
  }

  lemma PrefixMembers<K>(c: Counter<K>, s: Counter<K>, n: nat)
    requires n <= |s| && multiset(s) == multiset(c)
    ensures forall i :: 0 <= i < n ==> s[..n][i] in c
  {
    forall i | 0 <= i < n ensures s[..n][i] in c {
      assert s[i] in multiset(s);
    }
  }

  /** An entry left out of the prefix is after every kept entry in the
      sorted order: a smaller count, or a tie broken by counter order. */
  lemma PrefixCovers<K>(c: Counter<K>, s: Counter<K>, n: nat)
    requires n <= |s| && multiset(s) == multiset(c) && Descending(s)
    requires TiesInCounterOrder(c, s)
    ensures forall e :: e in c && e !in s[..n] ==> forall i :: 0 <= i < n ==>
      e.count < s[..n][i].count
      || (e.count == s[..n][i].count && FirstIndex(Keys(c), s[..n][i].key) < FirstIndex(Keys(c), e.key))
  {
    forall e, i | e in c && e !in s[..n] && 0 <= i < n
      ensures e.count < s[..n][i].count
        || (e.count == s[..n][i].count && FirstIndex(Keys(c), s[..n][i].key) < FirstIndex(Keys(c), e.key))
    {
      assert e in multiset(c);
      var p :| 0 <= p < |s| && s[p] == e;
      assert p >= n;
      assert s[..n][i] == s[i];
    }
  }

  /** What a ranking of `Counter(xs)` promises about the counted elements:
      it lists `min(n, distinct elements)` of them, each once, each with the
      number of times it occurs, by descending count, ties in the order the
      elements first occur, and every unlisted element either occurs less
      often than each listed one or ties with it but first occurs later. */
  ghost predicate IsRanking<K>(r: Counter<K>, xs: seq<K>, lim: Limit) {
    && |r| == Limited(|Uniques(xs)|, lim)
    && DistinctKeys(r)
    && Descending(r)
    && (forall i :: 0 <= i < |r| ==> r[i].key in xs && r[i].count == multiset(xs)[r[i].key])
    && (forall i, j :: 0 <= i < j < |r| && r[i].count == r[j].count ==>
          FirstIndex(xs, r[i].key) < FirstIndex(xs, r[j].key))
    && (forall k :: k in xs && k !in Keys(r) ==>
          forall i :: 0 <= i < |r| ==>
            multiset(xs)[k] < r[i].count
            || (multiset(xs)[k] == r[i].count && FirstIndex(xs, r[i].key) < FirstIndex(xs, k)))
  }

  /** `a` ranks before `b` among the elements of `xs`: it occurs more often,
      or as often and first occurs earlier. */
  ghost predicate Before<K>(xs: seq<K>, a: K, b: K) {
    multiset(xs)[a] > multiset(xs)[b]
    || (multiset(xs)[a] == multiset(xs)[b] && FirstIndex(xs, a) < FirstIndex(xs, b))
  }

  /** The element at position `i` of a ranking ranks before every element
      not listed ahead of it. */
  lemma RankedBefore<K>(r: Counter<K>, xs: seq<K>, lim: Limit, i: int, b: K)
    requires IsRanking(r, xs, lim) && 0 <= i < |r|
    requires b in xs && b != r[i].key
    requires forall j :: 0 <= j < i ==> r[j].key != b
    ensures Before(xs, r[i].key, b)
  {
    if b in Keys(r) {
      var j :| 0 <= j < |r| && Keys(r)[j] == b;
      assert r[j].key == b;
      assert j > i;
    }
  }

  /** Two sequences agree on their first `n` positions when each position
      agrees as soon as all earlier ones do. */
  lemma {:induction false} AgreeByStep<T>(u: seq<T>, v: seq<T>, n: nat)
    requires n <= |u| && n <= |v|
    requires forall i :: 0 <= i < n && (forall j :: 0 <= j < i ==> u[j] == v[j]) ==> u[i] == v[i]
    ensures forall j :: 0 <= j < n ==> u[j] == v[j]
    decreases n
  {
    if n > 0 {
      AgreeByStep(u, v, n - 1);
    }
  }

  /** Rankings that agree before position `i` agree at `i`. */
  lemma RankingsAgreeAt<K>(xs: seq<K>, lim: Limit, r1: Counter<K>, r2: Counter<K>, i: nat)
    requires IsRanking(r1, xs, lim) && IsRanking(r2, xs, lim) && i < |r1|
    requires forall j :: 0 <= j < i ==> r1[j] == r2[j]
    ensures r1[i] == r2[i]
  {
    var a, b := r1[i].key, r2[i].key;
    if a != b {
      NotListedEarlier(r2, r1, i);
      NotListedEarlier(r1, r2, i);
      RankedBefore(r1, xs, lim, i, b);
      RankedBefore(r2, xs, lim, i, a);
      assert false;
    }
  }

  /** With distinct keys in `u`, the key at `u[i]` is not among the first `i`
      keys of `v` when `v` agrees with `u` there. */
  lemma NotListedEarlier<K>(u: Counter<K>, v: Counter<K>, i: nat)
    requires DistinctKeys(u) && i < |u| && i <= |v|
    requires forall j :: 0 <= j < i ==> v[j] == u[j]
    ensures forall j :: 0 <= j < i ==> v[j].key != u[i].key
  {
    forall j | 0 <= j < i ensures v[j].key != u[i].key {
      assert Keys(u)[j] == u[j].key && Keys(u)[i] == u[i].key;
    }
  }

  /** A ranking is determined by the elements and the limit, so ties at the
      cut-off are decided as well. */
  lemma RankingUnique<K>(xs: seq<K>, lim: Limit, r1: Counter<K>, r2: Counter<K>)
    requires IsRanking(r1, xs, lim) && IsRanking(r2, xs, lim)
    ensures r1 == r2
  {
    forall i | 0 <= i < |r1| && (forall j :: 0 <= j < i ==> r1[j] == r2[j])
      ensures r1[i] == r2[i]
    {
      RankingsAgreeAt(xs, lim, r1, r2, i);
    }
    AgreeByStep(r1, r2, |r1|);
  }

  lemma RankedTally<K>(xs: seq<K>, lim: Limit)
    ensures IsRanking(MostCommon(Tally(xs), lim), xs, lim)
  {
    var r := MostCommon(Tally(xs), lim);
    TallySize(xs);
    RankedCounts(xs, lim);
    RankedTies(xs, lim);
    RankedCovers(xs, lim);
  }

  lemma RankedCounts<K>(xs: seq<K>, lim: Limit)
    ensures var r := MostCommon(Tally(xs), lim);
      forall i :: 0 <= i < |r| ==> r[i].key in xs && r[i].count == multiset(xs)[r[i].key]
  {
    var r := MostCommon(Tally(xs), lim);
    forall i | 0 <= i < |r|
      ensures r[i].key in xs && r[i].count == multiset(xs)[r[i].key]
    {
      var _ := RankedEntry(xs, lim, r, i);
    }
  }

  lemma RankedTies<K>(xs: seq<K>, lim: Limit)
    ensures var r := MostCommon(Tally(xs), lim);
      forall i, j :: 0 <= i < j < |r| && r[i].count == r[j].count ==>
        FirstIndex(xs, r[i].key) < FirstIndex(xs, r[j].key)
  {
    var r := MostCommon(Tally(xs), lim);
    TallyFirstSeenOrder(xs);
    forall i, j | 0 <= i < j < |r| && r[i].count == r[j].count
      ensures FirstIndex(xs, r[i].key) < FirstIndex(xs, r[j].key)
    {
      var p := RankedEntry(xs, lim, r, i);
      var q := RankedEntry(xs, lim, r, j);
      assert p < q;
    }
  }

  lemma RankedCovers<K>(xs: seq<K>, lim: Limit)
    ensures var r := MostCommon(Tally(xs), lim);
      forall k :: k in xs && k !in Keys(r) ==>
        forall i :: 0 <= i < |r| ==>
          multiset(xs)[k] < r[i].count
          || (multiset(xs)[k] == r[i].count && FirstIndex(xs, r[i].key) < FirstIndex(xs, k))
  {
    var r := MostCommon(Tally(xs), lim);
    forall k, i | k in xs && k !in Keys(r) && 0 <= i < |r|
      ensures multiset(xs)[k] < r[i].count
        || (multiset(xs)[k] == r[i].count && FirstIndex(xs, r[i].key) < FirstIndex(xs, k))
    {
      UnrankedKey(xs, lim, k, i);
    }
  }

  /** A key left out of the ranking comes after every ranked key: it occurs
      less often, or as often but first occurs later. */
  lemma UnrankedKey<K>(xs: seq<K>, lim: Limit, k: K, i: int)
    requires k in xs && k !in Keys(MostCommon(Tally(xs), lim))
    requires 0 <= i < |MostCommon(Tally(xs), lim)|
    ensures var r := MostCommon(Tally(xs), lim);
      multiset(xs)[k] < r[i].count
      || (multiset(xs)[k] == r[i].count && FirstIndex(xs, r[i].key) < FirstIndex(xs, k))
  {
    var c := Tally(xs);
    var r := MostCommon(c, lim);
    TallyCounts(xs);
    assert k in Keys(c);
    var p :| 0 <= p < |c| && Keys(c)[p] == k;
    var e := c[p];
    TallyEntry(xs, p);
    MemberKey(r, e);
    assert e in c && e !in r;
    var q := RankedEntry(xs, lim, r, i);
    DistinctFirstIndex(Keys(c), p);
    if e.count == r[i].count {
      assert q < p;
      TallyFirstSeenOrder(xs);
      assert FirstIndex(xs, c[q].key) < FirstIndex(xs, c[p].key);
    }
  }

  lemma MemberKey<K>(r: Counter<K>, e: Entry<K>)
    ensures e in r ==> e.key in Keys(r)
  {
    if e in r {
      var j :| 0 <= j < |r| && r[j] == e;
      assert Keys(r)[j] == e.key;
    }
  }

  /** A ranked entry is the counter entry at its key's position. */
  lemma RankedEntry<K>(xs: seq<K>, lim: Limit, r: Counter<K>, i: int) returns (p: nat)
    requires r == MostCommon(Tally(xs), lim)
    requires 0 <= i < |r|
    ensures p < |Tally(xs)| && Tally(xs)[p] == r[i]
    ensures FirstIndex(Keys(Tally(xs)), r[i].key) == p
    ensures r[i].key in xs && r[i].count == multiset(xs)[r[i].key]
  {
    var c := Tally(xs);
    assert r[i] in c;
    p :| 0 <= p < |c| && c[p] == r[i];
    TallyEntry(xs, p);
    assert Keys(c)[p] == r[i].key;
  }
}
