/** The heap of merge against the streams: it holds the first untaken triplet of each, and its top is
    the smallest of all untaken ones. */
module HeapHeads {
  import opened JointWalk
  import opened MergeHeap
  import opened Resolution

  ghost function Head(R: seq<seq<Triplet>>, k: nat): HeapElement
    requires k < |R| && R[k] != []
  {
    HeapElement(R[k][0].cur, R[k][0].next, R[k][0].count, k)
  }

  /** e is the first untaken triplet of its stream. */
  ghost predicate IsHead(R: seq<seq<Triplet>>, e: HeapElement) {
    0 <= e.chunkId < |R| && R[e.chunkId] != [] && e == Head(R, e.chunkId)
  }

  /** The elements are exactly the heads, one for each stream that still has a triplet. */
  ghost predicate HoldsHeads(M: multiset<HeapElement>, R: seq<seq<Triplet>>) {
    && (forall e :: e in M ==> IsHead(R, e) && M[e] == 1)
    && forall k: nat :: k < |R| && R[k] != [] ==> Head(R, k) in M
  }

  /** Taking the head of a stream: its element goes, and the next triplet's comes if there is one. */
  lemma HeadsAdvance(M: multiset<HeapElement>, R: seq<seq<Triplet>>, c: nat)
    requires HoldsHeads(M, R) && c < |R| && R[c] != []
    ensures var R' := R[c := R[c][1..]];
            && (R'[c] == [] ==> HoldsHeads(M - multiset{Head(R, c)}, R'))
            && (R'[c] != [] ==> HoldsHeads(M - multiset{Head(R, c)} + multiset{Head(R', c)}, R'))
  {
    var R' := R[c := R[c][1..]];
    var left := M - multiset{Head(R, c)};
    forall e | e in left ensures e.chunkId != c && IsHead(R', e) && left[e] == 1 {
      assert e in M && e != Head(R, c);
    }
    forall k: nat | k < |R| && k != c && R[k] != [] ensures Head(R', k) == Head(R, k) && Head(R, k) in left {
      assert Head(R, k) in M && Head(R, k) != Head(R, c);
    }
    if R'[c] != [] {
      var all := left + multiset{Head(R', c)};
      forall e | e in all ensures IsHead(R', e) && all[e] == 1 {
        assert e in left || e == Head(R', c);
      }
    }
  }

  /** A stream joins with its first triplet. */
  lemma HeadsJoin(M: multiset<HeapElement>, R: seq<seq<Triplet>>, c: nat, ts: seq<Triplet>)
    requires HoldsHeads(M, R) && c < |R| && R[c] == []
    ensures var R' := R[c := ts];
            && (ts == [] ==> HoldsHeads(M, R'))
            && (ts != [] ==> HoldsHeads(M + multiset{Head(R', c)}, R'))
  {
    var R' := R[c := ts];
    forall e | e in M ensures e.chunkId != c && IsHead(R', e) {
      assert IsHead(R, e);
    }
    forall k: nat | k < |R| && k != c && R[k] != [] ensures Head(R', k) in M {
      assert Head(R, k) in M;
    }
  }

  ghost predicate AllSorted(R: seq<seq<Triplet>>) {
    forall k: nat :: k < |R| ==> Sorted(R[k]) && PositiveTriplets(R[k])
  }

  ghost predicate AllDrained(R: seq<seq<Triplet>>) {
    forall k: nat :: k < |R| ==> R[k] == []
  }

  /** The heap is in order and holds exactly the heads. */
  ghost predicate HeapOf(h: seq<HeapElement>, R: seq<seq<Triplet>>) {
    HeapOrdered(h) && HoldsHeads(multiset(h), R)
  }

  /** The top of the heap is the smallest triplet that has not been taken, in any stream. */
  lemma TopIsSmallest(h: seq<HeapElement>, R: seq<seq<Triplet>>)
    requires HeapOf(h, R) && h != [] && AllSorted(R)
    ensures 0 <= h[0].chunkId < |R| && R[h[0].chunkId] != [] && h[0] == Head(R, h[0].chunkId)
    ensures AllAbove(R, R[h[0].chunkId][0])
  {
    assert h[0] in multiset(h);
    var t := R[h[0].chunkId][0];
    forall k: nat, m: nat | k < |R| && m < |R[k]| ensures PairLe(t, R[k][m]) {
      assert Head(R, k) in multiset(h);
      var i: nat :| i < |h| && h[i] == Head(R, k);
      TopIsMinimum(h, i);
      assert m > 0 ==> PairLe(R[k][0], R[k][m]);
    }
  }

  lemma EmptyHeapIsDrained(h: seq<HeapElement>, R: seq<seq<Triplet>>)
    requires HeapOf(h, R)
    ensures h == [] <==> AllDrained(R)
  {
    forall k: nat | k < |R| ensures R[k] != [] ==> h != [] {
      assert R[k] != [] ==> Head(R, k) in multiset(h);
    }
    if h != [] {
      assert h[0] in multiset(h);
    }
  }
}
