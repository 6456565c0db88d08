/** The order in which merge takes the triplets (src/merge.c:72-104): sorted over all chunks, and every
    triplet of every chunk once. */
module MergeOrder {
  import opened JointWalk
  import opened MergeHeap
  import opened Resolution
  import opened HeapHeads

  /** A triplet of chunk k as the heap holds it. */
  ghost function Element(t: Triplet, k: nat): HeapElement {
    HeapElement(t.cur, t.next, t.count, k)
  }

  /** Sorted by current rank, next rank and chunk. */
  ghost predicate InOrder(popped: seq<HeapElement>) {
    forall i: nat, j: nat :: i < j < |popped| ==> Le(popped[i], popped[j])
  }

  /** Nothing ahead is smaller than e. */
  ghost predicate AllAfter(R: seq<seq<Triplet>>, e: HeapElement) {
    forall k: nat, m: nat :: k < |R| && m < |R[k]| ==> Le(e, Element(R[k][m], k))
  }

  /** The triplets of chunk k among those taken, in the order of taking. */
  ghost function OfChunk(popped: seq<HeapElement>, k: nat): seq<Triplet> {
    if popped == [] then []
    else
      var e := popped[|popped| - 1];
      OfChunk(popped[..|popped| - 1], k) +
      if e.chunkId == k then [Triplet(e.currentRank, e.nextRank, e.count)] else []
  }

  /** Taken are exactly the triplets D: those of each chunk in its own order, and no others. */
  ghost predicate TakenAre(popped: seq<HeapElement>, D: seq<seq<Triplet>>) {
    && (forall i: nat :: i < |popped| ==> 0 <= popped[i].chunkId < |D|)
    && forall k: nat :: k < |D| ==> OfChunk(popped, k) == D[k]
  }

  /** During the pass: taken in order, and nothing ahead belongs before any of it. */
  ghost predicate PoppedSoFar(popped: seq<HeapElement>, D: seq<seq<Triplet>>, R: seq<seq<Triplet>>) {
    InOrder(popped) && TakenAre(popped, D) && forall i: nat :: i < |popped| ==> AllAfter(R, popped[i])
  }

  /** The top of the heap comes before everything ahead, ties between chunks included. */
  lemma TopIsFirst(h: seq<HeapElement>, R: seq<seq<Triplet>>)
    requires HeapOf(h, R) && h != [] && AllSorted(R)
    ensures AllAfter(R, h[0])
  {
    forall k: nat, m: nat | k < |R| && m < |R[k]| ensures Le(h[0], Element(R[k][m], k)) {
      assert Head(R, k) in multiset(h);
      var i: nat :| i < |h| && h[i] == Head(R, k);
      TopIsMinimum(h, i);
      assert m > 0 ==> PairLe(R[k][0], R[k][m]);
      CompareIsOrder(h[0], Head(R, k), Element(R[k][m], k));
    }
  }

  lemma PoppedStart(D: seq<seq<Triplet>>, R: seq<seq<Triplet>>)
    requires forall k: nat :: k < |D| ==> D[k] == []
    ensures PoppedSoFar([], D, R)
  {
  }

  lemma OfChunkNext(popped: seq<HeapElement>, e: HeapElement, k: nat)
    ensures OfChunk(popped + [e], k) ==
            OfChunk(popped, k) + if e.chunkId == k then [Triplet(e.currentRank, e.nextRank, e.count)] else []
  {
    assert (popped + [e])[..|popped|] == popped;
  }

  lemma AheadShrinks(R: seq<seq<Triplet>>, c: nat, e: HeapElement)
    requires c < |R| && R[c] != [] && AllAfter(R, e)
    ensures AllAfter(R[c := R[c][1..]], e)
  {
    var R' := R[c := R[c][1..]];
    forall k: nat, m: nat | k < |R'| && m < |R'[k]| ensures Le(e, Element(R'[k][m], k)) {
      assert R'[k][m] == if k == c then R[k][m + 1] else R[k][m];
    }
  }

  /** Taking the head of chunk c, the first of all, keeps the order. */
  lemma PoppedNext(popped: seq<HeapElement>, D: seq<seq<Triplet>>, R: seq<seq<Triplet>>, c: nat, e: HeapElement)
    requires PoppedSoFar(popped, D, R) && c < |R| == |D| && R[c] != [] && e == Head(R, c) && AllAfter(R, e)
    ensures PoppedSoFar(popped + [e], D[c := D[c] + [R[c][0]]], R[c := R[c][1..]])
  {
    var popped', D', R' := popped + [e], D[c := D[c] + [R[c][0]]], R[c := R[c][1..]];
    forall i: nat | i < |popped| ensures Le(popped[i], e) {
      assert AllAfter(R, popped[i]);
      assert e == Element(R[c][0], c);
    }
    forall i: nat, j: nat | i < j < |popped'| ensures Le(popped'[i], popped'[j]) {
      assert j < |popped| ==> Le(popped[i], popped[j]);
    }
    forall i: nat | i < |popped'| ensures AllAfter(R', popped'[i]) {
      AheadShrinks(R, c, popped'[i]);
    }
    forall k: nat | k < |D'| ensures OfChunk(popped', k) == D'[k] {
      OfChunkNext(popped, e, k);
    }
  }

  // ---- the union of the streams ----

  ghost function ElementsOf(ts: seq<Triplet>, k: nat): multiset<HeapElement> {
    if ts == [] then multiset{} else ElementsOf(ts[..|ts| - 1], k) + multiset{Element(ts[|ts| - 1], k)}
  }

  lemma ElementsNext(ts: seq<Triplet>, t: Triplet, k: nat)
    ensures ElementsOf(ts + [t], k) == ElementsOf(ts, k) + multiset{Element(t, k)}
  {
    assert (ts + [t])[..|ts|] == ts;
  }

  /** All triplets of the first n chunks. */
  ghost function UnionOf(D: seq<seq<Triplet>>, n: nat): multiset<HeapElement>
    requires n <= |D|
  {
    if n == 0 then multiset{} else UnionOf(D, n - 1) + ElementsOf(D[n - 1], n - 1)
  }

  lemma {:induction false} UnionOfNothing(D: seq<seq<Triplet>>, n: nat)
    requires n <= |D| && forall k: nat :: k < |D| ==> D[k] == []
    ensures UnionOf(D, n) == multiset{}
  {
    if n > 0 {
      UnionOfNothing(D, n - 1);
    }
  }

  lemma AddInEither<T>(x: multiset<T>, y: multiset<T>, z: multiset<T>)
    ensures x + (y + z) == (x + y) + z && (x + z) + y == (x + y) + z
  {
  }

  lemma UnionUnfold(D: seq<seq<Triplet>>, n: nat)
    requires 1 <= n <= |D|
    ensures UnionOf(D, n) == UnionOf(D, n - 1) + ElementsOf(D[n - 1], n - 1)
  {
  }

  /** The first n chunks do not see a change behind them. */
  lemma {:induction false} UnionBefore(D: seq<seq<Triplet>>, n: nat, c: nat, ts: seq<Triplet>)
    requires n <= c < |D|
    ensures UnionOf(D[c := ts], n) == UnionOf(D, n)
  {
    if n > 0 {
      UnionBefore(D, n - 1, c, ts);
    }
  }

  lemma {:induction false} UnionNext(D: seq<seq<Triplet>>, n: nat, c: nat, t: Triplet)
    requires c < n <= |D|
    ensures UnionOf(D[c := D[c] + [t]], n) == UnionOf(D, n) + multiset{Element(t, c)}
  {
    hide UnionOf, ElementsOf, Element;
    var D', one := D[c := D[c] + [t]], multiset{Element(t, c)};
    UnionUnfold(D, n);
    UnionUnfold(D', n);
    AddInEither(UnionOf(D, n - 1), ElementsOf(D[n - 1], n - 1), one);
    if n - 1 == c {
      UnionBefore(D, n - 1, c, D[c] + [t]);
      ElementsNext(D[c], t, c);
    } else {
      UnionNext(D, n - 1, c, t);
      assert D'[n - 1] == D[n - 1];
    }
  }

  /** What is taken is the multiset union of the chunks. */
  lemma {:induction false} TakenIsUnion(popped: seq<HeapElement>, D: seq<seq<Triplet>>)
    requires TakenAre(popped, D)
    ensures multiset(popped) == UnionOf(D, |D|)
  {
    if popped == [] {
      UnionOfNothing(D, |D|);
    } else {
      var n := |popped| - 1;
      var front, e := popped[..n], popped[n];
      assert popped == front + [e];
      var c: nat, t := e.chunkId, Triplet(e.currentRank, e.nextRank, e.count);
      var before := D[c := OfChunk(front, c)];
      forall k: nat | k < |D| ensures OfChunk(front, k) == before[k] && D[k] == before[k] + if k == c then [t] else [] {
        OfChunkNext(front, e, k);
      }
      TakenIsUnion(front, before);
      UnionNext(before, |D|, c, t);
      assert before[c := before[c] + [t]] == D;
      assert Element(t, c) == e;
    }
  }

  lemma PoppedAll(popped: seq<HeapElement>, D: seq<seq<Triplet>>, R: seq<seq<Triplet>>)
    requires PoppedSoFar(popped, D, R)
    ensures InOrder(popped) && TakenAre(popped, D) && multiset(popped) == UnionOf(D, |D|)
  {
    TakenIsUnion(popped, D);
  }
}
