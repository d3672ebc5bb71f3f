/** Insertion-ordered frequency tables: the behaviour of Python's
    `collections.Counter` when it is only ever incremented. A key that is
    counted for the first time is appended; counting it again bumps its entry
    in place, so the entries stay in first-seen order. */
module Counters {

  datatype Entry<K> = Entry(key: K, count: nat)

  /** Entries in first-insertion order. */
  type Counter<K> = seq<Entry<K>>

  predicate Distinct<K(==)>(s: seq<K>) {
    forall i, j :: 0 <= i < j < |s| ==> s[i] != s[j]
  }

  function Keys<K>(c: Counter<K>): seq<K> {
    seq(|c|, i requires 0 <= i < |c| => c[i].key)
  }

  predicate DistinctKeys<K(==)>(c: Counter<K>) {
    Distinct(Keys(c))
  }

  /** `counter.get(k, 0)`: the count of the first entry with key `k`. */
  function Get<K(==)>(c: Counter<K>, k: K): nat {
    if |c| == 0 then 0
    else if c[0].key == k then c[0].count
    else Get(c[1..], k)
  }

  lemma KeysCons<K>(c: Counter<K>)
    requires |c| > 0
    ensures Keys(c) == [c[0].key] + Keys(c[1..])
  {
  }

  lemma GetEntry<K>(c: Counter<K>, i: int)
    requires DistinctKeys(c) && 0 <= i < |c|
    ensures Get(c, c[i].key) == c[i].count
  {
    if i > 0 {
      assert Keys(c)[0] != Keys(c)[i];
      KeysCons(c);
      assert Keys(c[1..]) == Keys(c)[1..];
      GetEntry(c[1..], i - 1);
    }
  }

  lemma DistinctCons<K>(x: K, s: seq<K>)
    ensures Distinct([x] + s) <==> x !in s && Distinct(s)
  {
    if x !in s && Distinct(s) {
      forall i, j | 0 <= i < j < |[x] + s| ensures ([x] + s)[i] != ([x] + s)[j] {
        if i > 0 {
          assert ([x] + s)[i] == s[i - 1] && ([x] + s)[j] == s[j - 1];
        } else {
          assert ([x] + s)[j] == s[j - 1];
        }
      }
    }
    if Distinct([x] + s) {
      forall i, j | 0 <= i < j < |s| ensures s[i] != s[j] {
        assert s[i] == ([x] + s)[i + 1] && s[j] == ([x] + s)[j + 1];
      }
      forall i | 0 <= i < |s| ensures s[i] != x {
        assert ([x] + s)[0] == x && ([x] + s)[i + 1] == s[i];
      }
    }
  }

  /** `counter[k] += 1`. */
  function Inc<K(==)>(c: Counter<K>, k: K): (r: Counter<K>)
    ensures Keys(r) == if k in Keys(c) then Keys(c) else Keys(c) + [k]
    ensures DistinctKeys(c) ==> DistinctKeys(r)
  {
    if |c| == 0 then [Entry(k, 1)]
    else if c[0].key == k then
      var r := [Entry(k, c[0].count + 1)] + c[1..];
      KeysCons(c);
      KeysCons(r);
      assert r[1..] == c[1..];
      r
    else
      var t := Inc(c[1..], k);
      var r := [c[0]] + t;
      IncConsKeys(c, k, t, r);
      r
  }

  lemma IncConsKeys<K>(c: Counter<K>, k: K, t: Counter<K>, r: Counter<K>)
    requires |c| > 0 && c[0].key != k && r == [c[0]] + t
    requires Keys(t) == if k in Keys(c[1..]) then Keys(c[1..]) else Keys(c[1..]) + [k]
    requires DistinctKeys(c[1..]) ==> DistinctKeys(t)
    ensures Keys(r) == if k in Keys(c) then Keys(c) else Keys(c) + [k]
    ensures DistinctKeys(c) ==> DistinctKeys(r)
  {
    KeysCons(c);
    KeysCons(r);
    assert r[1..] == t;
    DistinctCons(c[0].key, Keys(c[1..]));
    DistinctCons(c[0].key, Keys(t));
  }

  /** Incrementing `k` adds one to its count and leaves every other count. */
  lemma {:induction false} IncGet<K>(c: Counter<K>, k: K, j: K)
    ensures Get(Inc(c, k), j) == Get(c, j) + (if j == k then 1 else 0)
  {
    if |c| > 0 && c[0].key != k {
      IncGet(c[1..], k, j);
      assert Inc(c, k)[1..] == Inc(c[1..], k);
    }
  }

  /** Count every element of `ys`, left to right, one `+= 1` at a time. */
  function IncAll<K(==)>(c: Counter<K>, ys: seq<K>): (r: Counter<K>)
    ensures DistinctKeys(c) ==> DistinctKeys(r)
    decreases |ys|
  {
    if |ys| == 0 then c else IncAll(Inc(c, ys[0]), ys[1..])
  }

  /** `Counter(xs)`: the counter built by counting `xs` in order. */
  function Tally<K(==)>(xs: seq<K>): (c: Counter<K>)
    ensures DistinctKeys(c)
  {
    if |xs| == 0 then [] else Inc(Tally(xs[..|xs| - 1]), xs[|xs| - 1])
  }

  /** `Counter(xs)[k]` is the number of occurrences of `k` in `xs`, and the
      counter's keys are exactly the elements of `xs`. */
  lemma {:induction false} TallyCounts<K>(xs: seq<K>)
    ensures forall k :: Get(Tally(xs), k) == multiset(xs)[k]
    ensures forall k :: k in Keys(Tally(xs)) <==> k in xs
    decreases |xs|
  {
    if |xs| > 0 {
      var p, x := xs[..|xs| - 1], xs[|xs| - 1];
      assert xs == p + [x];
      TallyCounts(p);
      forall k ensures Get(Tally(xs), k) == multiset(xs)[k] {
        IncGet(Tally(p), x, k);
      }
    }
  }

  lemma TallySnoc<K>(xs: seq<K>, x: K)
    ensures Tally(xs + [x]) == Inc(Tally(xs), x)
  {
    assert (xs + [x])[..|xs|] == xs;
  }

  /** Counting `ys` into the counter of `xs` is the counter of `xs + ys`. */
  lemma {:induction false} TallyConcat<K>(xs: seq<K>, ys: seq<K>)
    ensures Tally(xs + ys) == IncAll(Tally(xs), ys)
    decreases |ys|
  {
    if |ys| == 0 {
      assert xs + ys == xs;
    } else {
      var y, ys' := ys[0], ys[1..];
      calc {
        IncAll(Tally(xs), ys);
        IncAll(Inc(Tally(xs), y), ys');
        { TallySnoc(xs, y); }
        IncAll(Tally(xs + [y]), ys');
        { TallyConcat(xs + [y], ys'); }
        Tally(xs + [y] + ys');
        { assert xs + [y] + ys' == xs + ys; }
        Tally(xs + ys);
      }
    }
  }

  /** Every entry of a counter records exactly how often its key was counted. */
  lemma TallyEntry<K>(xs: seq<K>, i: int)
    requires 0 <= i < |Tally(xs)|
    ensures Tally(xs)[i].count == multiset(xs)[Tally(xs)[i].key]
    ensures Tally(xs)[i].key in xs
  {
    TallyCounts(xs);
    GetEntry(Tally(xs), i);
    assert Keys(Tally(xs))[i] == Tally(xs)[i].key;
    assert Tally(xs)[i].key in Keys(Tally(xs));
  }

  /** Position of the first occurrence of `k` in `xs`, or `|xs|` when absent. */
  function FirstIndex<K(==)>(xs: seq<K>, k: K): (i: nat)
    ensures i <= |xs|
    ensures i < |xs| <==> k in xs
    ensures i < |xs| ==> xs[i] == k
    ensures forall j :: 0 <= j < i ==> xs[j] != k
  {
    if |xs| == 0 then 0
    else if xs[0] == k then 0
    else 1 + FirstIndex(xs[1..], k)
  }

  /** In a duplicate-free sequence the first occurrence is the only one. */
  lemma DistinctFirstIndex<K>(s: seq<K>, j: int)
    requires Distinct(s) && 0 <= j < |s|
    ensures FirstIndex(s, s[j]) == j
  {
  }

  lemma FirstIndexSnoc<K>(xs: seq<K>, x: K, k: K)
    requires k in xs
    ensures FirstIndex(xs + [x], k) == FirstIndex(xs, k)
  {
    if xs[0] != k {
      assert (xs + [x])[1..] == xs[1..] + [x];
      FirstIndexSnoc(xs[1..], x, k);
    }
  }

  /** Appending never moves the first occurrence of a key already present. */
  lemma {:induction false} FirstIndexConcat<K>(xs: seq<K>, ys: seq<K>, k: K)
    requires k in xs
    ensures FirstIndex(xs + ys, k) == FirstIndex(xs, k)
  {
    if xs[0] != k {
      assert (xs + ys)[1..] == xs[1..] + ys;
      FirstIndexConcat(xs[1..], ys, k);
    }
  }

  /** `ks` lists keys in the order of their first occurrence in `xs`. */
  ghost predicate FirstSeenOrder<K>(xs: seq<K>, ks: seq<K>) {
    forall i, j :: 0 <= i < j < |ks| ==> FirstIndex(xs, ks[i]) < FirstIndex(xs, ks[j])
  }

  /** A key new to `p` is first seen after every key of `p`. */
  lemma FirstSeenSnoc<K>(p: seq<K>, x: K, ks: seq<K>)
    requires FirstSeenOrder(p, ks)
    requires forall k :: k in ks <==> k in p
    ensures FirstSeenOrder(p + [x], if x in p then ks else ks + [x])
  {
    var xs, ks' := p + [x], if x in p then ks else ks + [x];
    forall i, j | 0 <= i < j < |ks'|
      ensures FirstIndex(xs, ks'[i]) < FirstIndex(xs, ks'[j])
    {
      assert ks'[i] == ks[i] && ks[i] in p;
      FirstIndexSnoc(p, x, ks[i]);
      if j < |ks| {
        assert ks'[j] == ks[j] && ks[j] in p;
        FirstIndexSnoc(p, x, ks[j]);
      } else {
        assert FirstIndex(xs, x) == |p|;
      }
    }
  }

  /** The keys of `Counter(xs)` appear in the order they first occur in
      `xs`. */
  lemma {:induction false} TallyKeysFirstSeen<K>(xs: seq<K>)
    ensures FirstSeenOrder(xs, Keys(Tally(xs)))
    decreases |xs|
  {
    if |xs| > 0 {
      var p, x := xs[..|xs| - 1], xs[|xs| - 1];
      assert xs == p + [x];
      TallyKeysFirstSeen(p);
      TallyCounts(p);
      TallySnoc(p, x);
      FirstSeenSnoc(p, x, Keys(Tally(p)));
    }
  }

  /** The entries of `Counter(xs)` appear in the order their keys first
      occur in `xs`. */
  lemma TallyFirstSeenOrder<K>(xs: seq<K>)
    ensures var c := Tally(xs);
      forall i, j :: 0 <= i < j < |c| ==> FirstIndex(xs, c[i].key) < FirstIndex(xs, c[j].key)
  {
    var c := Tally(xs);
    TallyKeysFirstSeen(xs);
    assert forall i :: 0 <= i < |c| ==> Keys(c)[i] == c[i].key;
  }

  /** Sum of the counts. */
  function Total<K>(c: Counter<K>): nat {
    if |c| == 0 then 0 else Total(c[..|c| - 1]) + c[|c| - 1].count
  }

  lemma {:induction false} TotalBump<K>(d: Counter<K>, j: int)
    requires 0 <= j < |d|
    ensures Total(d[j := Entry(d[j].key, d[j].count + 1)]) == Total(d) + 1
    decreases |d|
  {
    var d' := d[j := Entry(d[j].key, d[j].count + 1)];
    var n := |d| - 1;
    if j == n {
      assert d'[..n] == d[..n];
    } else {
      assert d'[..n] == d[..n][j := Entry(d[j].key, d[j].count + 1)];
      TotalBump(d[..n], j);
    }
  }

  /** The dense table of `c` over the fixed domain `dom`: one entry per
      domain key, with an explicit zero for keys never counted. */
  function Dense<K(==)>(c: Counter<K>, dom: seq<K>): (d: Counter<K>)
    ensures Keys(d) == dom
  {
    seq(|dom|, i requires 0 <= i < |dom| => Entry(dom[i], Get(c, dom[i])))
  }

  /** How many elements of `xs` lie in `dom`. */
  function CountIn<K(==)>(xs: seq<K>, dom: seq<K>): nat {
    if |xs| == 0 then 0
    else CountIn(xs[..|xs| - 1], dom) + (if xs[|xs| - 1] in dom then 1 else 0)
  }

  /** A dense table over a duplicate-free domain adds up to the number of
      counted elements that fall in the domain. */
  lemma {:induction false} DenseTallyTotal<K>(xs: seq<K>, dom: seq<K>)
    requires Distinct(dom)
    ensures Total(Dense(Tally(xs), dom)) == CountIn(xs, dom)
    decreases |xs|
  {
    if |xs| == 0 {
      var d := Dense(Tally(xs), dom);
      assert Total(d) == 0 by { ZeroTotal(d); }
    } else {
      var p, x := xs[..|xs| - 1], xs[|xs| - 1];
      assert xs == p + [x];
      DenseTallyTotal(p, dom);
      DenseSnoc(p, x, dom);
    }
  }

  lemma DenseSnoc<K>(p: seq<K>, x: K, dom: seq<K>)
    requires Distinct(dom)
    ensures Total(Dense(Tally(p + [x]), dom))
         == Total(Dense(Tally(p), dom)) + (if x in dom then 1 else 0)
  {
    TallySnoc(p, x);
    if x in dom {
      DenseIncIn(Tally(p), x, dom);
    } else {
      DenseIncOut(Tally(p), x, dom);
    }
  }

  /** Counting a domain key bumps exactly its row of the dense table. */
  lemma DenseIncIn<K>(c: Counter<K>, x: K, dom: seq<K>)
    requires Distinct(dom) && x in dom
    ensures Total(Dense(Inc(c, x), dom)) == Total(Dense(c, dom)) + 1
  {
    var d, d' := Dense(c, dom), Dense(Inc(c, x), dom);
    var j :| 0 <= j < |dom| && dom[j] == x;
    var bumped := d[j := Entry(d[j].key, d[j].count + 1)];
    forall i | 0 <= i < |dom| ensures d'[i] == bumped[i] {
      IncGet(c, x, dom[i]);
    }
    assert d' == bumped;
    TotalBump(d, j);
  }

  /** Counting a key outside the domain leaves the dense table as it was. */
  lemma DenseIncOut<K>(c: Counter<K>, x: K, dom: seq<K>)
    requires x !in dom
    ensures Dense(Inc(c, x), dom) == Dense(c, dom)
  {
    var d, d' := Dense(c, dom), Dense(Inc(c, x), dom);
    forall i | 0 <= i < |dom| ensures d'[i] == d[i] {
      IncGet(c, x, dom[i]);
    }
  }

  lemma {:induction false} ZeroTotal<K>(d: Counter<K>)
    requires forall i :: 0 <= i < |d| ==> d[i].count == 0
    ensures Total(d) == 0
    decreases |d|
  {
    if |d| > 0 {
      ZeroTotal(d[..|d| - 1]);
    }
  }

  lemma {:induction false} CountInAll<K>(xs: seq<K>, dom: seq<K>)
    requires forall i :: 0 <= i < |xs| ==> xs[i] in dom
    ensures CountIn(xs, dom) == |xs|
    decreases |xs|
  {
    if |xs| > 0 {
      CountInAll(xs[..|xs| - 1], dom);
    }
  }

  lemma {:induction false} CountInSplit<K>(xs: seq<K>, a: seq<K>, b: seq<K>)
    requires forall k :: k in a ==> k !in b
    ensures CountIn(xs, a + b) == CountIn(xs, a) + CountIn(xs, b)
    decreases |xs|
  {
    if |xs| > 0 {
      CountInSplit(xs[..|xs| - 1], a, b);
    }
  }
}
