/** What merge computes for the triplets of all chunks, and the bookkeeping by which one pass in
    sorted order computes it (src/merge.c:318-379). */
module Resolution {
  import opened RunLength
  import opened JointWalk

  // ---- the specification ----

  /** How many entries the triplets hold whose current rank is c and whose next rank is below n. */
  ghost function Below(ts: seq<Triplet>, c: nat, n: nat): nat {
    if ts == [] then 0
    else (if ts[0].cur == c && ts[0].next < n then ts[0].count else 0) + Below(ts[1..], c, n)
  }

  /** How many entries have exactly the pair (c, n). */
  ghost function Same(ts: seq<Triplet>, c: nat, n: nat): nat {
    if ts == [] then 0
    else (if ts[0].cur == c && ts[0].next == n then ts[0].count else 0) + Same(ts[1..], c, n)
  }

  ghost function TotalBelow(Ts: seq<seq<Triplet>>, c: nat, n: nat): nat {
    if Ts == [] then 0 else Below(Ts[0], c, n) + TotalBelow(Ts[1..], c, n)
  }

  ghost function TotalSame(Ts: seq<seq<Triplet>>, c: nat, n: nat): nat {
    if Ts == [] then 0 else Same(Ts[0], c, n) + TotalSame(Ts[1..], c, n)
  }

  /** The record for a triplet: its current rank plus everything with the same current and a smaller
      next rank in any chunk; count 0 exactly when its pair occurs once in all chunks together. */
  ghost function Resolve(Ts: seq<seq<Triplet>>, t: Triplet): Run {
    Run(t.cur + TotalBelow(Ts, t.cur, t.next), if TotalSame(Ts, t.cur, t.next) == 1 then 0 else t.count)
  }

  ghost function ResolveAll(Ts: seq<seq<Triplet>>, ts: seq<Triplet>): (runs: seq<Run>)
    ensures |runs| == |ts|
    ensures forall k: nat :: k < |ts| ==> runs[k] == Resolve(Ts, ts[k])
  {
    if ts == [] then [] else [Resolve(Ts, ts[0])] + ResolveAll(Ts, ts[1..])
  }

  lemma {:induction false} ResolveAllAppend(Ts: seq<seq<Triplet>>, ts: seq<Triplet>, t: Triplet)
    ensures ResolveAll(Ts, ts + [t]) == ResolveAll(Ts, ts) + [Resolve(Ts, t)]
  {
    if ts == [] {
    } else {
      assert (ts + [t])[1..] == ts[1..] + [t];
      ResolveAllAppend(Ts, ts[1..], t);
    }
  }

  // ---- order ----

  predicate PairLe(a: Triplet, b: Triplet) {
    a.cur < b.cur || (a.cur == b.cur && a.next <= b.next)
  }

  predicate SamePair(a: Triplet, b: Triplet) {
    a.cur == b.cur && a.next == b.next
  }

  ghost predicate Sorted(ts: seq<Triplet>) {
    forall i: nat, j: nat :: i < j < |ts| ==> PairLe(ts[i], ts[j])
  }

  ghost predicate NeighboursDiffer(ts: seq<Triplet>) {
    forall i: nat, j: nat :: i + 1 == j < |ts| ==> !SamePair(ts[i], ts[j])
  }

  /** Sorted triplets whose neighbours differ are all different. */
  lemma SortedAndDifferent(ts: seq<Triplet>, i: nat, j: nat)
    requires Sorted(ts) && NeighboursDiffer(ts) && i < j < |ts|
    ensures PairLe(ts[i], ts[j]) && !SamePair(ts[i], ts[j])
  {
    assert PairLe(ts[i], ts[i + 1]) && !SamePair(ts[i], ts[i + 1]);
    assert i + 1 < j ==> PairLe(ts[i + 1], ts[j]);
  }

  ghost predicate AllAbove(Ts: seq<seq<Triplet>>, t: Triplet) {
    forall k: nat, m: nat :: k < |Ts| && m < |Ts[k]| ==> PairLe(t, Ts[k][m])
  }

  ghost predicate AllBelow(Ts: seq<seq<Triplet>>, t: Triplet) {
    forall k: nat, m: nat :: k < |Ts| && m < |Ts[k]| ==> PairLe(Ts[k][m], t)
  }

  // ---- counting in families ----

  lemma {:induction false} CountAppend(a: seq<Triplet>, b: seq<Triplet>, c: nat, n: nat)
    ensures Below(a + b, c, n) == Below(a, c, n) + Below(b, c, n)
    ensures Same(a + b, c, n) == Same(a, c, n) + Same(b, c, n)
  {
    if a == [] {
      assert a + b == b;
    } else {
      assert (a + b)[1..] == a[1..] + b;
      CountAppend(a[1..], b, c, n);
    }
  }

  /** Cutting every stream in two splits the totals. */
  lemma {:induction false} TotalSplit(Ts: seq<seq<Triplet>>, D: seq<seq<Triplet>>, R: seq<seq<Triplet>>, c: nat, n: nat)
    requires |Ts| == |D| == |R| && forall k: nat :: k < |Ts| ==> Ts[k] == D[k] + R[k]
    ensures TotalBelow(Ts, c, n) == TotalBelow(D, c, n) + TotalBelow(R, c, n)
    ensures TotalSame(Ts, c, n) == TotalSame(D, c, n) + TotalSame(R, c, n)
  {
    if Ts != [] {
      CountAppend(D[0], R[0], c, n);
      TotalSplit(Ts[1..], D[1..], R[1..], c, n);
    }
  }

  /** Adding one triplet to one stream. */
  lemma {:induction false} TotalAdd(D: seq<seq<Triplet>>, k: nat, t: Triplet, c: nat, n: nat)
    requires k < |D|
    ensures TotalBelow(D[k := D[k] + [t]], c, n) ==
            TotalBelow(D, c, n) + if t.cur == c && t.next < n then t.count else 0
    ensures TotalSame(D[k := D[k] + [t]], c, n) ==
            TotalSame(D, c, n) + if t.cur == c && t.next == n then t.count else 0
  {
    var D' := D[k := D[k] + [t]];
    if k == 0 {
      CountAppend(D[0], [t], c, n);
      assert Below([t], c, n) == (if t.cur == c && t.next < n then t.count else 0) + Below([], c, n);
      assert D'[1..] == D[1..];
    } else {
      assert D'[1..] == D[1..][k - 1 := D[1..][k - 1] + [t]];
      TotalAdd(D[1..], k - 1, t, c, n);
    }
  }

  lemma {:induction false} CountNone(ts: seq<Triplet>, c: nat, n: nat)
    ensures (forall m: nat :: m < |ts| ==> !(ts[m].cur == c && ts[m].next < n)) ==> Below(ts, c, n) == 0
    ensures (forall m: nat :: m < |ts| ==> !(ts[m].cur == c && ts[m].next == n)) ==> Same(ts, c, n) == 0
  {
    if ts != [] {
      CountNone(ts[1..], c, n);
      assert forall m: nat :: m < |ts[1..]| ==> ts[1..][m] == ts[m + 1];
    }
  }

  /** Nothing of the current rank and below the next rank of t is among triplets that are not below t;
      nothing with t's pair among those strictly above. */
  lemma {:induction false} TotalNoneAbove(R: seq<seq<Triplet>>, t: Triplet)
    requires AllAbove(R, t)
    ensures TotalBelow(R, t.cur, t.next) == 0
    ensures (forall k: nat, m: nat :: k < |R| && m < |R[k]| ==> !SamePair(R[k][m], t)) ==>
              TotalSame(R, t.cur, t.next) == 0
  {
    if R != [] {
      forall m: nat | m < |R[0]| ensures PairLe(t, R[0][m]) {}
      CountNone(R[0], t.cur, t.next);
      assert AllAbove(R[1..], t) by {
        forall k: nat, m: nat | k < |R[1..]| && m < |R[1..][k]| ensures PairLe(t, R[1..][k][m]) {
          assert R[1..][k] == R[k + 1];
        }
      }
      TotalNoneAbove(R[1..], t);
      if forall k: nat, m: nat :: k < |R| && m < |R[k]| ==> !SamePair(R[k][m], t) {
        forall k: nat, m: nat | k < |R[1..]| && m < |R[1..][k]| ensures !SamePair(R[1..][k][m], t) {
          assert R[1..][k] == R[k + 1];
        }
      }
    }
  }

  // ---- the bookkeeping of one pass ----

  /** After the triplets D have been taken in sorted order, t the last: how many entries taken so far
      share its pair, and the rank its group gets. */
  ghost predicate Book(D: seq<seq<Triplet>>, t: Triplet, updatedRank: nat, pairCount: nat) {
    && AllBelow(D, t) && 1 <= pairCount
    && pairCount == TotalSame(D, t.cur, t.next)
    && updatedRank == t.cur + TotalBelow(D, t.cur, t.next)
  }

  lemma {:induction false} CountAllBelow(ts: seq<Triplet>, l: Triplet, n: nat)
    requires (forall m: nat :: m < |ts| ==> PairLe(ts[m], l)) && l.next < n
    ensures Below(ts, l.cur, n) == Below(ts, l.cur, l.next) + Same(ts, l.cur, l.next)
    ensures Same(ts, l.cur, n) == 0
  {
    if ts != [] {
      assert PairLe(ts[0], l);
      assert forall m: nat :: m < |ts[1..]| ==> ts[1..][m] == ts[m + 1];
      CountAllBelow(ts[1..], l, n);
    }
  }

  lemma AllBelowTail(D: seq<seq<Triplet>>, l: Triplet)
    requires D != [] && AllBelow(D, l)
    ensures AllBelow(D[1..], l) && forall m: nat :: m < |D[0]| ==> PairLe(D[0][m], l)
  {
    forall k: nat, m: nat | k < |D[1..]| && m < |D[1..][k]| ensures PairLe(D[1..][k][m], l) {
      assert D[1..][k] == D[k + 1];
    }
  }

  /** A larger next rank collects the whole group of l. */
  lemma {:induction false} TotalAllBelow(D: seq<seq<Triplet>>, l: Triplet, n: nat)
    requires AllBelow(D, l) && l.next < n
    ensures TotalBelow(D, l.cur, n) == TotalBelow(D, l.cur, l.next) + TotalSame(D, l.cur, l.next)
    ensures TotalSame(D, l.cur, n) == 0
  {
    if D != [] {
      AllBelowTail(D, l);
      CountAllBelow(D[0], l, n);
      TotalAllBelow(D[1..], l, n);
    }
  }

  /** A larger current rank has nothing below it yet. */
  lemma {:induction false} TotalNewCurrent(D: seq<seq<Triplet>>, l: Triplet, c: nat, n: nat)
    requires AllBelow(D, l) && l.cur < c
    ensures TotalBelow(D, c, n) == 0 && TotalSame(D, c, n) == 0
  {
    if D != [] {
      AllBelowTail(D, l);
      CountNone(D[0], c, n);
      TotalNewCurrent(D[1..], l, c, n);
    }
  }

  lemma {:induction false} TotalEmpty(D: seq<seq<Triplet>>, c: nat, n: nat)
    requires forall k: nat :: k < |D| ==> D[k] == []
    ensures TotalBelow(D, c, n) == 0 && TotalSame(D, c, n) == 0
  {
    if D != [] {
      assert D[0] == [];
      TotalEmpty(D[1..], c, n);
    }
  }

  lemma AddKeepsBelow(D: seq<seq<Triplet>>, k: nat, l: Triplet, t: Triplet)
    requires k < |D| && AllBelow(D, l) && PairLe(l, t)
    ensures AllBelow(D[k := D[k] + [t]], t)
  {
  }

  lemma BookFirst(D: seq<seq<Triplet>>, k: nat, t: Triplet)
    requires k < |D| && (forall j: nat :: j < |D| ==> D[j] == []) && 1 <= t.count
    ensures Book(D[k := D[k] + [t]], t, t.cur, t.count)
  {
    TotalEmpty(D, t.cur, t.next);
    TotalAdd(D, k, t, t.cur, t.next);
  }

  /** The three cases of heap_to_output keep the book. */
  lemma BookStep(D: seq<seq<Triplet>>, k: nat, l: Triplet, t: Triplet, updatedRank: nat, pairCount: nat)
    requires k < |D| && Book(D, l, updatedRank, pairCount) && PairLe(l, t) && 1 <= t.count
    ensures var D' := D[k := D[k] + [t]];
            if l.cur != t.cur then Book(D', t, t.cur, t.count)
            else if l.next != t.next then Book(D', t, updatedRank + pairCount, t.count)
            else Book(D', t, updatedRank, pairCount + t.count)
  {
    AddKeepsBelow(D, k, l, t);
    TotalAdd(D, k, t, t.cur, t.next);
    if l.cur != t.cur {
      TotalNewCurrent(D, l, t.cur, t.next);
    } else if l.next != t.next {
      TotalAllBelow(D, l, t.next);
    }
  }

  // ---- what is written ----

  ghost predicate Cut(Ts: seq<seq<Triplet>>, D: seq<seq<Triplet>>, R: seq<seq<Triplet>>) {
    |Ts| == |D| == |R| && forall k: nat :: k < |Ts| ==> Ts[k] == D[k] + R[k]
  }

  /** Once no triplet ahead has the pair of l, its group is complete. */
  lemma ResolveComplete(Ts: seq<seq<Triplet>>, D: seq<seq<Triplet>>, R: seq<seq<Triplet>>, l: Triplet,
                        updatedRank: nat, pairCount: nat)
    requires Cut(Ts, D, R) && Book(D, l, updatedRank, pairCount) && AllAbove(R, l)
    requires forall k: nat, m: nat :: k < |R| && m < |R[k]| ==> !SamePair(R[k][m], l)
    ensures Resolve(Ts, l) == Run(updatedRank, if pairCount == 1 then 0 else l.count)
  {
    TotalSplit(Ts, D, R, l.cur, l.next);
    TotalNoneAbove(R, l);
  }

  lemma {:induction false} TotalHas(R: seq<seq<Triplet>>, k: nat, m: nat)
    requires k < |R| && m < |R[k]|
    ensures TotalSame(R, R[k][m].cur, R[k][m].next) >= R[k][m].count
  {
    var t := R[k][m];
    if k == 0 {
      assert R[0] == R[0][..m] + [t] + R[0][m + 1..];
      CountAppend(R[0][..m] + [t], R[0][m + 1..], t.cur, t.next);
      CountAppend(R[0][..m], [t], t.cur, t.next);
      assert Same([t], t.cur, t.next) == t.count + Same([], t.cur, t.next);
    } else {
      TotalHas(R[1..], k - 1, m);
    }
  }

  /** While a triplet ahead still has the pair of l, the group is not a singleton. */
  lemma ResolveOpen(Ts: seq<seq<Triplet>>, D: seq<seq<Triplet>>, R: seq<seq<Triplet>>, l: Triplet, k: nat, m: nat,
                    updatedRank: nat, pairCount: nat)
    requires Cut(Ts, D, R) && Book(D, l, updatedRank, pairCount) && AllAbove(R, l)
    requires k < |R| && m < |R[k]| && SamePair(R[k][m], l) && 1 <= R[k][m].count
    ensures Resolve(Ts, l) == Run(updatedRank, l.count)
  {
    TotalSplit(Ts, D, R, l.cur, l.next);
    TotalNoneAbove(R, l);
    TotalHas(R, k, m);
  }
}
