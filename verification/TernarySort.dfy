/** tsort (src/utils.c:138-203): three-way quicksort of a slice of indices by their keys, in place. */
module TernarySort {

  datatype Side = Less | Equal | Greater

  predicate On(side: Side, key: int, v: int) {
    match side
    case Less => key < v
    case Equal => key == v
    case Greater => key > v
  }

  /** Every entry of the stretch is an index with a key on that side of v. */
  ghost predicate All(s: seq<nat>, keys: seq<int>, from: int, to: int, side: Side, v: int) {
    0 <= from && to <= |s| && forall i: nat :: from <= i < to ==> s[i] < |keys| && On(side, keys[s[i]], v)
  }

  /** Every entry of the stretch is an index. */
  ghost predicate Indices(s: seq<nat>, keys: seq<int>, from: int, to: int) {
    0 <= from && to <= |s| && forall i: nat :: from <= i < to ==> s[i] < |keys|
  }

  /** The keys of the stretch never fall. */
  ghost predicate SortedKeys(s: seq<nat>, keys: seq<int>, from: int, to: int) {
    Indices(s, keys, from, to) && forall i: nat, j: nat :: from <= i < j < to ==> keys[s[i]] <= keys[s[j]]
  }

  /** Only the stretch has changed, and it holds the same entries. */
  ghost predicate Rearranged(s: seq<nat>, s': seq<nat>, from: int, to: int) {
    && 0 <= from <= to <= |s| == |s'|
    && s'[..from] == s[..from] && s'[to..] == s[to..] && multiset(s'[from..to]) == multiset(s[from..to])
  }

  function Swapped(s: seq<nat>, p: int, q: int): (s': seq<nat>)
    requires 0 <= p < |s| && 0 <= q < |s|
    ensures |s'| == |s|
  {
    s[p := s[q]][q := s[p]]
  }

  lemma SwapRearranges(s: seq<nat>, from: int, to: int, p: int, q: int)
    requires 0 <= from <= p < to <= |s| && from <= q < to
    ensures Rearranged(s, Swapped(s, p, q), from, to)
  {
    var w, w' := s[from..to], Swapped(s, p, q)[from..to];
    assert w' == w[p - from := w[q - from]][q - from := w[p - from]];
  }

  lemma RearrangedSame(s: seq<nat>, from: int, to: int)
    requires 0 <= from <= to <= |s|
    ensures Rearranged(s, s, from, to)
  {
  }

  lemma RearrangedThen(s: seq<nat>, s': seq<nat>, s'': seq<nat>, from: int, to: int)
    requires Rearranged(s, s', from, to) && Rearranged(s', s'', from, to)
    ensures Rearranged(s, s'', from, to)
  {
  }

  /** What is rearranged inside a part is rearranged inside the whole. */
  lemma RearrangedWider(s: seq<nat>, s': seq<nat>, from: int, to: int, lo: int, hi: int)
    requires Rearranged(s, s', from, to) && 0 <= lo <= from && to <= hi <= |s|
    ensures Rearranged(s, s', lo, hi)
  {
    assert s[lo..hi] == s[lo..from] + s[from..to] + s[to..hi];
    assert s'[lo..hi] == s'[lo..from] + s'[from..to] + s'[to..hi];
    assert s[lo..from] == s[..from][lo..] && s'[lo..from] == s'[..from][lo..];
    assert s[to..hi] == s[to..][..hi - to] && s'[to..hi] == s'[to..][..hi - to];
    assert s[..lo] == s[..from][..lo] && s'[..lo] == s'[..from][..lo];
    assert s[hi..] == s[to..][hi - to..] && s'[hi..] == s'[to..][hi - to..];
  }

  /** An entry of a rearranged stretch was in it before. */
  lemma RearrangedFrom(s: seq<nat>, s': seq<nat>, from: int, to: int, i: nat) returns (j: nat)
    requires Rearranged(s, s', from, to) && from <= i < to
    ensures from <= j < to && s[j] == s'[i]
  {
    var w, w' := s[from..to], s'[from..to];
    assert w'[i - from] in multiset(w);
    var k: nat :| k < |w| && w[k] == s'[i];
    j := from + k;
  }

  lemma RearrangedOutside(s: seq<nat>, s': seq<nat>, from: int, to: int, i: nat)
    requires Rearranged(s, s', from, to) && i < |s| && (i < from || to <= i)
    ensures s'[i] == s[i]
  {
    if i < from {
      assert s'[..from][i] == s[..from][i];
    } else {
      assert s'[to..][i - to] == s[to..][i - to];
    }
  }

  lemma RearrangedAll(s: seq<nat>, s': seq<nat>, keys: seq<int>, from: int, to: int, side: Side, v: int)
    requires Rearranged(s, s', from, to) && All(s, keys, from, to, side, v)
    ensures All(s', keys, from, to, side, v)
  {
    forall i: nat | from <= i < to ensures s'[i] < |keys| && On(side, keys[s'[i]], v) {
      var j := RearrangedFrom(s, s', from, to, i);
    }
  }

  lemma RearrangedIndices(s: seq<nat>, s': seq<nat>, keys: seq<int>, from: int, to: int)
    requires Rearranged(s, s', from, to) && Indices(s, keys, from, to)
    ensures Indices(s', keys, from, to)
  {
    forall i: nat | from <= i < to ensures s'[i] < |keys| {
      var j := RearrangedFrom(s, s', from, to, i);
    }
  }

  lemma UntouchedAll(s: seq<nat>, s': seq<nat>, keys: seq<int>, from: int, to: int, lo: int, hi: int, side: Side,
                     v: int)
    requires Rearranged(s, s', from, to) && All(s, keys, lo, hi, side, v) && (hi <= from || to <= lo)
    ensures All(s', keys, lo, hi, side, v)
  {
    forall i: nat | lo <= i < hi ensures s'[i] == s[i] {
      RearrangedOutside(s, s', from, to, i);
    }
  }

  // ---- short slices: insertion ----

  /** Sorted, but for entry j, which may be too small for its place. */
  ghost predicate SortedBut(s: seq<nat>, keys: seq<int>, from: int, to: int, j: int) {
    Indices(s, keys, from, to) &&
    forall p: nat, q: nat :: from <= p < q < to && q != j ==> keys[s[p]] <= keys[s[q]]
  }

  lemma SinkOne(s: seq<nat>, keys: seq<int>, from: int, to: int, j: int)
    requires SortedBut(s, keys, from, to, j) && 0 <= from < j < to <= |s|
    requires s[j] < |keys| && s[j - 1] < |keys| && keys[s[j]] < keys[s[j - 1]]
    ensures SortedBut(Swapped(s, j, j - 1), keys, from, to, j - 1)
  {
  }

  lemma SinkDone(s: seq<nat>, keys: seq<int>, from: int, to: int, j: int)
    requires SortedBut(s, keys, from, to, j) && 0 <= from <= j < to <= |s|
    requires j == from || (s[j] < |keys| && s[j - 1] < |keys| && keys[s[j]] >= keys[s[j - 1]])
    ensures SortedKeys(s, keys, from, to)
  {
    forall p: nat | from <= p < j ensures keys[s[p]] <= keys[s[j]] {
      assert p < j - 1 ==> keys[s[p]] <= keys[s[j - 1]];
    }
  }

  lemma SortedNext(s: seq<nat>, keys: seq<int>, from: int, to: int)
    requires SortedKeys(s, keys, from, to) && from < to < |s| && s[to] < |keys|
    ensures SortedBut(s, keys, from, to + 1, to)
  {
  }

  /** The state of the sinking entry j. */
  ghost predicate Sinking(s: seq<nat>, keys: seq<int>, was: seq<nat>, lo: int, hi: int, to: int, j: int) {
    && lo <= j < to <= hi && Rearranged(was, s, lo, hi) && Indices(s, keys, lo, hi) && SortedBut(s, keys, lo, to, j)
  }

  lemma SinkingKeys(s: seq<nat>, keys: seq<int>, was: seq<nat>, lo: int, hi: int, to: int, j: int)
    requires Sinking(s, keys, was, lo, hi, to, j) && lo < j
    ensures 1 <= j < |s| && s[j] < |keys| && s[j - 1] < |keys|
  {
  }

  lemma SinkingNext(s: seq<nat>, keys: seq<int>, was: seq<nat>, lo: int, hi: int, to: int, j: int)
    requires Sinking(s, keys, was, lo, hi, to, j) && lo < j
    requires 1 <= j < |s| && s[j] < |keys| && s[j - 1] < |keys| && keys[s[j]] < keys[s[j - 1]]
    ensures Sinking(Swapped(s, j, j - 1), keys, was, lo, hi, to, j - 1)
  {
    SinkOne(s, keys, lo, to, j);
    hide SortedBut, Rearranged, Indices, Swapped;
    SwapRearranges(s, lo, hi, j, j - 1);
    RearrangedThen(was, s, Swapped(s, j, j - 1), lo, hi);
    RearrangedIndices(s, Swapped(s, j, j - 1), keys, lo, hi);
  }

  lemma SinkingDone(s: seq<nat>, keys: seq<int>, was: seq<nat>, lo: int, hi: int, to: int, j: int)
    requires Sinking(s, keys, was, lo, hi, to, j)
    requires j > lo ==> 1 <= j < |s| && s[j] < |keys| && s[j - 1] < |keys| && keys[s[j]] >= keys[s[j - 1]]
    ensures Rearranged(was, s, lo, hi) && SortedKeys(s, keys, lo, to)
  {
    SinkDone(s, keys, lo, to, j);
  }

  lemma SinkingStarts(s: seq<nat>, keys: seq<int>, lo: int, hi: int, j: int)
    requires 0 <= lo < j < hi <= |s| && Indices(s, keys, lo, hi) && SortedKeys(s, keys, lo, j)
    ensures Sinking(s, keys, s, lo, hi, j + 1, j)
  {
    SortedNext(s, keys, lo, j);
  }

  /** SWAP. */
  method Swap(sa: array<nat>, p: int, q: int)
    requires 0 <= p < sa.Length && 0 <= q < sa.Length
    modifies sa
    ensures sa[..] == Swapped(old(sa[..]), p, q)
  {
    var tmp := sa[p];
    sa[p] := sa[q];
    sa[q] := tmp;
  }

  /** Sink entry i to its place among the entries of the slice before it. */
  method Sink(sa: array<nat>, keys: seq<int>, lo: nat, i: nat, ghost hi: nat)
    requires lo < i < hi <= sa.Length
    requires Indices(sa[..], keys, lo, hi) && SortedKeys(sa[..], keys, lo, i)
    modifies sa
    ensures Rearranged(old(sa[..]), sa[..], lo, hi) && SortedKeys(sa[..], keys, lo, i + 1)
  {
    hide Sinking, Swapped, Rearranged, SortedKeys, Indices;
    ghost var was: seq<nat> := sa[..];
    var j: nat := i;
    SinkingStarts(was, keys, lo, hi, i);
    SinkingKeys(was, keys, was, lo, hi, i + 1, j);
    while keys[sa[j]] < keys[sa[j - 1]]
      invariant lo < j <= i && sa[j] < |keys| && sa[j - 1] < |keys|
      invariant Sinking(sa[..], keys, was, lo, hi, i + 1, j)
      decreases j
    {
      SinkingNext(sa[..], keys, was, lo, hi, i + 1, j);
      Swap(sa, j, j - 1);
      j := j - 1;
      if j == lo {
        break;
      }
      SinkingKeys(sa[..], keys, was, lo, hi, i + 1, j);
    }
    SinkingDone(sa[..], keys, was, lo, hi, i + 1, j);
  }

  method InsertionSort(sa: array<nat>, keys: seq<int>, lo: nat, n: nat)
    requires lo + n <= sa.Length && Indices(sa[..], keys, lo, lo + n) && 1 <= n
    modifies sa
    ensures Rearranged(old(sa[..]), sa[..], lo, lo + n) && SortedKeys(sa[..], keys, lo, lo + n)
  {
    ghost var was: seq<nat>, hi := sa[..], lo + n;
    RearrangedSame(was, lo, hi);
    OneSorted(was, keys, lo);
    hide Rearranged, SortedKeys, Indices;
    for i := lo + 1 to lo + n
      invariant Rearranged(was, sa[..], lo, hi) && Indices(sa[..], keys, lo, hi)
      invariant SortedKeys(sa[..], keys, lo, i)
    {
      ghost var s: seq<nat> := sa[..];
      Sink(sa, keys, lo, i, hi);
      RearrangedThen(was, s, sa[..], lo, hi);
      RearrangedIndices(was, sa[..], keys, lo, hi);
    }
  }

  lemma OneSorted(s: seq<nat>, keys: seq<int>, at: nat)
    requires at < |s| && s[at] < |keys|
    ensures SortedKeys(s, keys, at, at + 1)
  {
  }

  // ---- the pivot ----

  /** m is one of the three, and two of them are not above and two not below it. */
  ghost predicate Median(m: int, a: int, b: int, c: int) {
    && (m == a || m == b || m == c)
    && AtMost(m, a, b, c) >= 2 && AtLeast(m, a, b, c) >= 2
  }

  ghost function AtMost(m: int, a: int, b: int, c: int): nat {
    (if a <= m then 1 else 0) + (if b <= m then 1 else 0) + (if c <= m then 1 else 0)
  }

  ghost function AtLeast(m: int, a: int, b: int, c: int): nat {
    (if a >= m then 1 else 0) + (if b >= m then 1 else 0) + (if c >= m then 1 else 0)
  }

  function Med3(a: int, b: int, c: int): (m: int)
    ensures Median(m, a, b, c)
  {
    if a < b then (if b < c then b else if a < c then c else a)
    else if b > c then b else if a > c then c else a
  }

  /** v is the key of some entry of the slice. */
  ghost predicate IsKey(s: seq<nat>, keys: seq<int>, lo: int, hi: int, v: int) {
    0 <= lo && hi <= |s| && exists i: nat :: lo <= i < hi && s[i] < |keys| && keys[s[i]] == v
  }

  /** The key of the entry at i. */
  ghost function KeyIn(s: seq<nat>, keys: seq<int>, i: nat): int {
    if i < |s| && s[i] < |keys| then keys[s[i]] else 0
  }

  /** The median of the medians of three triples, spread over the slice. */
  ghost predicate PseudoMedian(v: int, s: seq<nat>, keys: seq<int>, lo: nat, n: nat)
    requires 40 < n
  {
    var e, m, l := n / 8, lo + n / 2, lo + n - 1;
    exists low: int, mid: int, high: int ::
      && Median(low, KeyIn(s, keys, lo), KeyIn(s, keys, lo + e), KeyIn(s, keys, lo + 2 * e))
      && Median(mid, KeyIn(s, keys, m - e), KeyIn(s, keys, m), KeyIn(s, keys, m + e))
      && Median(high, KeyIn(s, keys, l - 2 * e), KeyIn(s, keys, l - e), KeyIn(s, keys, l))
      && Median(v, mid, low, high)
  }

  /** Of the nine keys sampled at least four are not above the pivot, and at least four not below it. */
  lemma PivotBalances(v: int, s: seq<nat>, keys: seq<int>, lo: nat, n: nat)
    requires 40 < n && PseudoMedian(v, s, keys, lo, n)
    ensures var e, m, l := n / 8, lo + n / 2, lo + n - 1;
            && AtMost(v, KeyIn(s, keys, lo), KeyIn(s, keys, lo + e), KeyIn(s, keys, lo + 2 * e)) +
               AtMost(v, KeyIn(s, keys, m - e), KeyIn(s, keys, m), KeyIn(s, keys, m + e)) +
               AtMost(v, KeyIn(s, keys, l - 2 * e), KeyIn(s, keys, l - e), KeyIn(s, keys, l)) >= 4
            && AtLeast(v, KeyIn(s, keys, lo), KeyIn(s, keys, lo + e), KeyIn(s, keys, lo + 2 * e)) +
               AtLeast(v, KeyIn(s, keys, m - e), KeyIn(s, keys, m), KeyIn(s, keys, m + e)) +
               AtLeast(v, KeyIn(s, keys, l - 2 * e), KeyIn(s, keys, l - e), KeyIn(s, keys, l)) >= 4
  {
    hide KeyIn;
  }

  /** KEY. */
  method KeyAt(sa: array<nat>, keys: seq<int>, lo: nat, n: nat, i: nat) returns (v: int)
    requires i < n && lo + n <= sa.Length && Indices(sa[..], keys, lo, lo + n)
    ensures IsKey(sa[..], keys, lo, lo + n, v) && v == KeyIn(sa[..], keys, lo + i)
  {
    ghost var s: seq<nat> := sa[..];
    assert s[lo + i] < |keys|;
    v := keys[sa[lo + i]];
  }

  /** The middle entry, the median of three, or the pseudo-median of nine. */
  method Pivot(sa: array<nat>, keys: seq<int>, lo: nat, n: nat) returns (v: int)
    requires 5 <= n && lo + n <= sa.Length && Indices(sa[..], keys, lo, lo + n)
    ensures IsKey(sa[..], keys, lo, lo + n, v)
    ensures n == 5 ==> v == KeyIn(sa[..], keys, lo + 2)
    ensures 5 < n <= 40 ==>
              Median(v, KeyIn(sa[..], keys, lo + n / 2), KeyIn(sa[..], keys, lo), KeyIn(sa[..], keys, lo + n - 1))
    ensures n > 40 ==> PseudoMedian(v, sa[..], keys, lo, n)
  {
    hide Indices, IsKey, KeyIn, Median;
    v := KeyAt(sa, keys, lo, n, n / 2);
    if n > 5 {
      var v1 := KeyAt(sa, keys, lo, n, 0);
      var v2 := KeyAt(sa, keys, lo, n, n - 1);
      if n > 40 {
        var s := n / 8;
        var k1 := KeyAt(sa, keys, lo, n, s);
        var k2 := KeyAt(sa, keys, lo, n, 2 * s);
        v1 := Med3(v1, k1, k2);
        k1 := KeyAt(sa, keys, lo, n, n / 2 - s);
        k2 := KeyAt(sa, keys, lo, n, n / 2 + s);
        v := Med3(k1, v, k2);
        k1 := KeyAt(sa, keys, lo, n, n - 1 - 2 * s);
        k2 := KeyAt(sa, keys, lo, n, n - 1 - s);
        v2 := Med3(k1, k2, v2);
      }
      v := Med3(v, v1, v2);
    }
  }

  // ---- the partition ----

  /** Equal, smaller, open, greater, equal: [lo,a) [a,b) [b,c] (c,d] (d,hi). */
  ghost predicate Parted(s: seq<nat>, keys: seq<int>, was: seq<nat>, v: int, lo: int, hi: int, a: int, b: int, c: int,
                         d: int) {
    && 0 <= lo <= a <= b <= c + 1 <= d + 1 <= hi <= |s|
    && Rearranged(was, s, lo, hi) && Indices(s, keys, lo, hi)
    && All(s, keys, lo, a, Equal, v) && All(s, keys, a, b, Less, v)
    && All(s, keys, c + 1, d + 1, Greater, v) && All(s, keys, d + 1, hi, Equal, v)
  }

  lemma PartedStart(s: seq<nat>, keys: seq<int>, v: int, lo: int, hi: int)
    requires 0 <= lo < hi <= |s| && Indices(s, keys, lo, hi)
    ensures Parted(s, keys, s, v, lo, hi, lo, lo, hi - 1, hi - 1)
  {
  }

  lemma PartedKey(s: seq<nat>, keys: seq<int>, was: seq<nat>, v: int, lo: int, hi: int, a: int, b: int, c: int, d: int)
    requires Parted(s, keys, was, v, lo, hi, a, b, c, d) && b <= c
    ensures 0 <= a <= b <= c <= d < |s| && s[b] < |keys| && s[c] < |keys|
  {
  }

  lemma PartedSwapped(s: seq<nat>, keys: seq<int>, was: seq<nat>, lo: int, hi: int, p: int, q: int)
    requires Rearranged(was, s, lo, hi) && Indices(s, keys, lo, hi) && 0 <= lo <= p < hi && lo <= q < hi <= |s|
    ensures Rearranged(was, Swapped(s, p, q), lo, hi) && Indices(Swapped(s, p, q), keys, lo, hi)
  {
    hide Rearranged, Indices, Swapped;
    SwapRearranges(s, lo, hi, p, q);
    RearrangedThen(was, s, Swapped(s, p, q), lo, hi);
    RearrangedIndices(s, Swapped(s, p, q), keys, lo, hi);
  }

  lemma LeftLess(s: seq<nat>, keys: seq<int>, was: seq<nat>, v: int, lo: int, hi: int, a: int, b: int, c: int, d: int)
    requires Parted(s, keys, was, v, lo, hi, a, b, c, d) && b <= c && s[b] < |keys| && keys[s[b]] < v
    ensures Parted(s, keys, was, v, lo, hi, a, b + 1, c, d)
  {
    hide Rearranged;
  }

  lemma LeftEqual(s: seq<nat>, keys: seq<int>, was: seq<nat>, v: int, lo: int, hi: int, a: int, b: int, c: int, d: int)
    requires Parted(s, keys, was, v, lo, hi, a, b, c, d) && b <= c && s[b] < |keys| && keys[s[b]] == v
    ensures Parted(Swapped(s, a, b), keys, was, v, lo, hi, a + 1, b + 1, c, d)
  {
    hide Rearranged;
    PartedSwapped(s, keys, was, lo, hi, a, b);
  }

  lemma RightGreater(s: seq<nat>, keys: seq<int>, was: seq<nat>, v: int, lo: int, hi: int, a: int, b: int, c: int,
                     d: int)
    requires Parted(s, keys, was, v, lo, hi, a, b, c, d) && b <= c && s[c] < |keys| && keys[s[c]] > v
    ensures Parted(s, keys, was, v, lo, hi, a, b, c - 1, d)
  {
    hide Rearranged;
  }

  lemma RightEqual(s: seq<nat>, keys: seq<int>, was: seq<nat>, v: int, lo: int, hi: int, a: int, b: int, c: int, d: int)
    requires Parted(s, keys, was, v, lo, hi, a, b, c, d) && b <= c && s[c] < |keys| && keys[s[c]] == v
    ensures Parted(Swapped(s, d, c), keys, was, v, lo, hi, a, b, c - 1, d - 1)
    ensures b < c ==> Swapped(s, d, c)[b] == s[b]
  {
    hide Rearranged;
    PartedSwapped(s, keys, was, lo, hi, d, c);
  }

  lemma Exchange(s: seq<nat>, keys: seq<int>, was: seq<nat>, v: int, lo: int, hi: int, a: int, b: int, c: int, d: int)
    requires Parted(s, keys, was, v, lo, hi, a, b, c, d) && b < c
    requires s[b] < |keys| && keys[s[b]] > v && s[c] < |keys| && keys[s[c]] < v
    ensures Parted(Swapped(s, b, c), keys, was, v, lo, hi, a, b + 1, c - 1, d)
  {
    hide Rearranged;
    PartedSwapped(s, keys, was, lo, hi, b, c);
  }

  /** The first inner loop: move b up to an entry greater than v. */
  method ScanUp(sa: array<nat>, keys: seq<int>, v: int, a0: nat, b0: nat, c: int,
                ghost was: seq<nat>, ghost lo: int, ghost hi: int, ghost d: int)
    returns (a: nat, b: nat)
    requires Parted(sa[..], keys, was, v, lo, hi, a0, b0, c, d)
    modifies sa
    ensures b0 <= b && Parted(sa[..], keys, was, v, lo, hi, a, b, c, d)
    ensures b <= c ==> 0 <= b < sa.Length && sa[b] < |keys| && keys[sa[b]] > v
  {
    hide Parted, Swapped;
    a, b := a0, b0;
    if b <= c {
      PartedKey(sa[..], keys, was, v, lo, hi, a, b, c, d);
    }
    while b <= c && v >= keys[sa[b]]
      invariant b0 <= b && Parted(sa[..], keys, was, v, lo, hi, a, b, c, d)
      invariant b <= c ==> a <= b < sa.Length && sa[b] < |keys|
    {
      if v == keys[sa[b]] {
        LeftEqual(sa[..], keys, was, v, lo, hi, a, b, c, d);
        Swap(sa, a, b);
        a := a + 1;
      } else {
        LeftLess(sa[..], keys, was, v, lo, hi, a, b, c, d);
      }
      b := b + 1;
      if b <= c {
        PartedKey(sa[..], keys, was, v, lo, hi, a, b, c, d);
      }
    }
  }

  /** The second inner loop: move c down to an entry smaller than v. */
  method ScanDown(sa: array<nat>, keys: seq<int>, v: int, b: nat, c0: int, d0: int,
                  ghost was: seq<nat>, ghost lo: int, ghost hi: int, ghost a: int)
    returns (c: int, d: int)
    requires Parted(sa[..], keys, was, v, lo, hi, a, b, c0, d0)
    requires b <= c0 ==> 0 <= b < sa.Length && sa[b] < |keys| && keys[sa[b]] > v
    modifies sa
    ensures c <= c0 && Parted(sa[..], keys, was, v, lo, hi, a, b, c, d)
    ensures b <= c ==> b < c < sa.Length && sa[b] < |keys| && keys[sa[b]] > v && sa[c] < |keys| && keys[sa[c]] < v
  {
    hide Parted, Swapped;
    c, d := c0, d0;
    if b <= c {
      PartedKey(sa[..], keys, was, v, lo, hi, a, b, c, d);
    }
    while c >= b && keys[sa[c]] >= v
      invariant c <= c0 && Parted(sa[..], keys, was, v, lo, hi, a, b, c, d)
      invariant b <= c ==> c <= d < sa.Length && sa[c] < |keys| && sa[b] < |keys| && keys[sa[b]] > v
      decreases c - b
    {
      if v == keys[sa[c]] {
        RightEqual(sa[..], keys, was, v, lo, hi, a, b, c, d);
        Swap(sa, d, c);
        d := d - 1;
      } else {
        RightGreater(sa[..], keys, was, v, lo, hi, a, b, c, d);
      }
      c := c - 1;
      if b <= c {
        PartedKey(sa[..], keys, was, v, lo, hi, a, b, c, d);
      }
    }
  }

  /** The outer loop. */
  method Partition(sa: array<nat>, keys: seq<int>, lo: nat, n: nat, v: int) returns (a: nat, b: nat, c: int, d: int)
    requires 1 <= n && lo + n <= sa.Length && Indices(sa[..], keys, lo, lo + n)
    modifies sa
    ensures a <= b && c == b - 1 && c <= d && Parted(sa[..], keys, old(sa[..]), v, lo, lo + n, a, b, c, d)
  {
    hide Parted, Swapped, Indices;
    ghost var was: seq<nat>, hi := sa[..], lo + n;
    PartedStart(was, keys, v, lo, hi);
    a, b, c, d := lo, lo, lo + n - 1, lo + n - 1;
    while true
      invariant Parted(sa[..], keys, was, v, lo, hi, a, b, c, d)
      decreases c - b
    {
      a, b := ScanUp(sa, keys, v, a, b, c, was, lo, hi, d);
      c, d := ScanDown(sa, keys, v, b, c, d, was, lo, hi, a);
      if b > c {
        break;
      }
      ghost var s: seq<nat> := sa[..];
      assert s[b] == sa[b] && s[c] == sa[c];
      Exchange(s, keys, was, v, lo, hi, a, b, c, d);
      Swap(sa, b, c);
      b := b + 1;
      c := c - 1;
    }
    PartedCrossed(sa[..], keys, was, v, lo, hi, a, b, c, d);
  }

  lemma PartedCrossed(s: seq<nat>, keys: seq<int>, was: seq<nat>, v: int, lo: int, hi: int, a: int, b: int, c: int,
                      d: int)
    requires Parted(s, keys, was, v, lo, hi, a, b, c, d) && b > c
    ensures a <= b && c == b - 1 && c <= d
  {
  }

  // ---- bringing the equal entries together ----

  /** k entries from l on and k entries from h on have changed places. */
  ghost predicate BlockSwapped(s: seq<nat>, s': seq<nat>, l: int, h: int, k: int) {
    && 0 <= l && 0 <= k && l + k <= h && h + k <= |s| == |s'|
    && forall i: nat :: i < |s'| ==> 0 <= BlockSource(l, h, k, i) < |s| && s'[i] == s[BlockSource(l, h, k, i)]
  }

  function BlockSource(l: int, h: int, k: int, i: int): int {
    if l <= i < l + k then i - l + h else if h <= i < h + k then i - h + l else i
  }

  lemma BlockStart(s: seq<nat>, l: int, h: int)
    requires 0 <= l <= h <= |s|
    ensures BlockSwapped(s, s, l, h, 0)
  {
  }

  lemma BlockNext(s: seq<nat>, s': seq<nat>, l: int, h: int, k: int)
    requires BlockSwapped(s, s', l, h, k) && 0 <= l + k < h && h + k < |s'|
    ensures BlockSwapped(s, Swapped(s', l + k, h + k), l, h, k + 1)
  {
    var s'' := Swapped(s', l + k, h + k);
    forall i: nat | i < |s''|
      ensures 0 <= BlockSource(l, h, k + 1, i) < |s| && s''[i] == s[BlockSource(l, h, k + 1, i)]
    {
      if i == l + k {
        assert s''[i] == s'[h + k];
      } else if i == h + k {
        assert s''[i] == s'[l + k];
      } else {
        assert s''[i] == s'[i];
      }
    }
  }

  lemma BlockStep(s0: seq<nat>, s: seq<nat>, was: seq<nat>, lo: int, hi: int, l0: int, h0: int, k: int, p: int, q: int)
    requires BlockSwapped(s0, s, l0, h0, k) && Rearranged(was, s, lo, hi)
    requires p == l0 + k < h0 && q == h0 + k < hi <= |s| && 0 <= lo <= l0 <= h0 && 0 <= k
    ensures 0 <= p < |s| && 0 <= q < |s|
    ensures BlockSwapped(s0, Swapped(s, p, q), l0, h0, k + 1) && Rearranged(was, Swapped(s, p, q), lo, hi)
  {
    hide BlockSwapped, Rearranged, Swapped;
    BlockNext(s0, s, l0, h0, k);
    SwapRearranges(s, lo, hi, p, q);
    RearrangedThen(was, s, Swapped(s, p, q), lo, hi);
  }

  /** The block swap loops. */
  method SwapBlocks(sa: array<nat>, l0: nat, h0: nat, count: nat, ghost was: seq<nat>, ghost lo: int, ghost hi: int)
    requires l0 + count <= h0 && h0 + count <= sa.Length && 0 <= lo <= l0 && h0 + count <= hi <= sa.Length
    requires Rearranged(was, sa[..], lo, hi)
    modifies sa
    ensures BlockSwapped(old(sa[..]), sa[..], l0, h0, count) && Rearranged(was, sa[..], lo, hi)
  {
    hide BlockSwapped, Rearranged, Swapped;
    ghost var s0: seq<nat> := sa[..];
    BlockStart(s0, l0, h0);
    var l, h, s := l0, h0, count;
    while s != 0
      decreases s
      invariant 0 <= s <= count && l == l0 + (count - s) && h == h0 + (count - s)
      invariant BlockSwapped(s0, sa[..], l0, h0, count - s) && Rearranged(was, sa[..], lo, hi)
    {
      BlockStep(s0, sa[..], was, lo, hi, l0, h0, count - s, l, h);
      Swap(sa, l, h);
      l := l + 1;
      h := h + 1;
      s := s - 1;
    }
  }

  /** Two neighbouring stretches change sides when the shorter is swapped with the far end of the longer. */
  lemma StretchesChangeSides(s: seq<nat>, s': seq<nat>, keys: seq<int>, v: int, l: int, m: int, r: int, k: int, x: Side,
                             y: Side)
    requires All(s, keys, l, m, x, v) && All(s, keys, m, r, y, v) && l <= m <= r
    requires k == (if m - l < r - m then m - l else r - m) && BlockSwapped(s, s', l, r - k, k)
    ensures All(s', keys, l, l + (r - m), y, v) && All(s', keys, l + (r - m), r, x, v)
  {
    hide On;
    forall i: nat | l <= i < l + (r - m) ensures s'[i] < |keys| && On(y, keys[s'[i]], v) {
      var j := BlockSource(l, r - k, k, i);
      assert s'[i] == s[j] && m <= j < r;
    }
    forall i: nat | l + (r - m) <= i < r ensures s'[i] < |keys| && On(x, keys[s'[i]], v) {
      var j := BlockSource(l, r - k, k, i);
      assert s'[i] == s[j] && l <= j < m;
    }
  }

  lemma BlockElsewhere(s: seq<nat>, s': seq<nat>, keys: seq<int>, v: int, l: int, h: int, k: int, from: int, to: int,
                       x: Side)
    requires BlockSwapped(s, s', l, h, k) && All(s, keys, from, to, x, v) && (to <= l || h + k <= from)
    ensures All(s', keys, from, to, x, v)
  {
  }

  /** Smaller, equal, greater: [lo,p) [p,q) [q,hi). */
  ghost predicate Split(s: seq<nat>, keys: seq<int>, was: seq<nat>, v: int, lo: int, hi: int, p: int, q: int) {
    && 0 <= lo <= p <= q <= hi <= |s| && Rearranged(was, s, lo, hi)
    && All(s, keys, lo, p, Less, v) && All(s, keys, p, q, Equal, v) && All(s, keys, q, hi, Greater, v)
  }

  lemma PartedParts(s: seq<nat>, keys: seq<int>, was: seq<nat>, v: int, lo: int, hi: int, a: int, b: int, c: int,
                    d: int)
    requires Parted(s, keys, was, v, lo, hi, a, b, c, d) && c == b - 1
    ensures 0 <= lo <= a <= b <= d + 1 <= hi <= |s| && Rearranged(was, s, lo, hi)
    ensures All(s, keys, lo, a, Equal, v) && All(s, keys, a, b, Less, v)
    ensures All(s, keys, b, d + 1, Greater, v) && All(s, keys, d + 1, hi, Equal, v)
  {
  }

  lemma PartsJoined(s: seq<nat>, keys: seq<int>, was: seq<nat>, v: int, lo: int, hi: int, p: int, b: int, q: int)
    requires 0 <= lo <= p <= b <= q <= hi <= |s| && Rearranged(was, s, lo, hi)
    requires All(s, keys, lo, p, Less, v) && All(s, keys, p, b, Equal, v)
    requires All(s, keys, b, q, Equal, v) && All(s, keys, q, hi, Greater, v)
    ensures Split(s, keys, was, v, lo, hi, p, q)
  {
    hide On, Rearranged;
  }

  /** The two block swaps. */
  method JoinEquals(sa: array<nat>, ghost keys: seq<int>, ghost v: int, lo: nat, n: nat, a: nat, b: nat, c: int, d: int,
                    ghost was: seq<nat>)
    requires lo + n <= sa.Length && c == b - 1 && Parted(sa[..], keys, was, v, lo, lo + n, a, b, c, d)
    modifies sa
    ensures Split(sa[..], keys, was, v, lo, lo + n, lo + (b - a), lo + n - (d - c))
  {
    hide Parted, Rearranged, All, BlockSwapped, Split;
    ghost var s0: seq<nat>, hi := sa[..], lo + n;
    PartedParts(s0, keys, was, v, lo, hi, a, b, c, d);
    var s := if a - lo < b - a then a - lo else b - a;
    SwapBlocks(sa, lo, b - s, s, was, lo, hi);
    ghost var s1: seq<nat> := sa[..];
    StretchesChangeSides(s0, s1, keys, v, lo, a, b, s, Equal, Less);
    BlockElsewhere(s0, s1, keys, v, lo, b - s, s, b, d + 1, Greater);
    BlockElsewhere(s0, s1, keys, v, lo, b - s, s, d + 1, hi, Equal);
    ghost var p := lo + (b - a);
    s := if d - c < lo + n - 1 - d then d - c else lo + n - 1 - d;
    SwapBlocks(sa, b, lo + n - s, s, was, lo, hi);
    ghost var s2: seq<nat> := sa[..];
    StretchesChangeSides(s1, s2, keys, v, b, d + 1, hi, s, Greater, Equal);
    BlockElsewhere(s1, s2, keys, v, b, hi - s, s, lo, p, Less);
    BlockElsewhere(s1, s2, keys, v, b, hi - s, s, p, b, Equal);
    PartsJoined(s2, keys, was, v, lo, hi, p, b, hi - (d - c));
  }

  // ---- the sort ----

  lemma RearrangedBack(s: seq<nat>, s': seq<nat>, from: int, to: int)
    requires Rearranged(s, s', from, to)
    ensures Rearranged(s', s, from, to)
  {
  }

  /** The pivot is a key of the slice, so some entry is equal to it, and both parts are shorter than the whole. */
  lemma SomeEqual(s: seq<nat>, keys: seq<int>, was: seq<nat>, v: int, lo: int, hi: int, p: int, q: int)
    requires Split(s, keys, was, v, lo, hi, p, q) && IsKey(was, keys, lo, hi, v)
    ensures p < q
  {
    var i: nat :| lo <= i < hi && was[i] < |keys| && keys[was[i]] == v;
    RearrangedBack(was, s, lo, hi);
    var j := RearrangedFrom(s, was, lo, hi, i);
    assert s[j] < |keys| && keys[s[j]] == v;
  }

  lemma UntouchedSorted(s: seq<nat>, s': seq<nat>, keys: seq<int>, from: int, to: int, lo: int, hi: int)
    requires Rearranged(s, s', from, to) && SortedKeys(s, keys, lo, hi) && (hi <= from || to <= lo)
    ensures SortedKeys(s', keys, lo, hi)
  {
    forall i: nat | lo <= i < hi ensures s'[i] == s[i] {
      RearrangedOutside(s, s', from, to, i);
    }
  }

  lemma SplitIndices(s: seq<nat>, keys: seq<int>, was: seq<nat>, v: int, lo: int, hi: int, p: int, q: int)
    requires Split(s, keys, was, v, lo, hi, p, q)
    ensures 0 <= lo <= p <= q <= hi <= |s| && Indices(s, keys, lo, p) && Indices(s, keys, q, hi)
  {
  }

  /** Sorting the outer parts keeps the split. */
  lemma SplitKept(s: seq<nat>, s': seq<nat>, keys: seq<int>, was: seq<nat>, v: int, lo: int, hi: int, p: int, q: int,
                  from: int, to: int)
    requires Split(s, keys, was, v, lo, hi, p, q) && Rearranged(s, s', from, to)
    requires (from == lo && to == p) || (from == q && to == hi)
    ensures Split(s', keys, was, v, lo, hi, p, q)
  {
    hide All, Rearranged;
    RearrangedWider(s, s', from, to, lo, hi);
    RearrangedThen(was, s, s', lo, hi);
    if to == p && from == lo {
      RearrangedAll(s, s', keys, lo, p, Less, v);
      UntouchedAll(s, s', keys, from, to, q, hi, Greater, v);
    } else {
      RearrangedAll(s, s', keys, q, hi, Greater, v);
      UntouchedAll(s, s', keys, from, to, lo, p, Less, v);
    }
    UntouchedAll(s, s', keys, from, to, p, q, Equal, v);
  }

  lemma SplitSorted(s: seq<nat>, keys: seq<int>, was: seq<nat>, v: int, lo: int, hi: int, p: int, q: int)
    requires Split(s, keys, was, v, lo, hi, p, q) && SortedKeys(s, keys, lo, p) && SortedKeys(s, keys, q, hi)
    ensures Rearranged(was, s, lo, hi) && SortedKeys(s, keys, lo, hi)
  {
  }

  lemma ShortSorted(s: seq<nat>, keys: seq<int>, lo: int, hi: int)
    requires 0 <= lo <= hi <= |s| && hi <= lo + 1 && Indices(s, keys, lo, hi)
    ensures SortedKeys(s, keys, lo, hi) && Rearranged(s, s, lo, hi)
  {
  }

  /** tsort: the slice of n entries from lo on is sorted by key, holds the same entries, and nothing else
      changes. */
  method TSort(sa: array<nat>, keys: seq<int>, lo: nat, n: nat)
    requires lo + n <= sa.Length && Indices(sa[..], keys, lo, lo + n)
    modifies sa
    ensures Rearranged(old(sa[..]), sa[..], lo, lo + n) && SortedKeys(sa[..], keys, lo, lo + n)
    decreases n
  {
    hide Rearranged, SortedKeys, Indices, IsKey, Parted, Split, All;
    ghost var was: seq<nat>, hi := sa[..], lo + n;
    if n <= 1 {
      ShortSorted(was, keys, lo, hi);
      return;
    }
    if n < 5 {
      InsertionSort(sa, keys, lo, n);
      return;
    }
    var v := Pivot(sa, keys, lo, n);
    var a, b, c, d := Partition(sa, keys, lo, n, v);
    JoinEquals(sa, keys, v, lo, n, a, b, c, d, was);
    ghost var s1: seq<nat>, p: int, q: int := sa[..], lo + (b - a), hi - (d - c);
    SplitIndices(s1, keys, was, v, lo, hi, p, q);
    SomeEqual(s1, keys, was, v, lo, hi, p, q);
    TSort(sa, keys, lo, b - a);
    ghost var s2: seq<nat> := sa[..];
    SplitKept(s1, s2, keys, was, v, lo, hi, p, q, lo, p);
    SplitIndices(s2, keys, was, v, lo, hi, p, q);
    TSort(sa, keys, lo + n - (d - c), d - c);
    ghost var s3: seq<nat> := sa[..];
    SplitKept(s2, s3, keys, was, v, lo, hi, p, q, q, hi);
    UntouchedSorted(s2, s3, keys, q, hi, lo, p);
    SplitSorted(s3, keys, was, v, lo, hi, p, q);
  }
}
