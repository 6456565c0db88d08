/** The binary heap of merge (src/merge.c:48-55, 149-218) as sequences: sifting with a hole. */
module MergeHeap {

  datatype HeapElement = HeapElement(currentRank: nat, nextRank: nat, count: nat, chunkId: int)

  /** compare_heap_elements: current rank, then next rank, then chunk. */
  function Compare(a: HeapElement, b: HeapElement): int {
    if a.currentRank == b.currentRank then
      if a.nextRank == b.nextRank then a.chunkId - b.chunkId else a.nextRank - b.nextRank
    else a.currentRank - b.currentRank
  }

  predicate Le(a: HeapElement, b: HeapElement) {
    Compare(a, b) <= 0
  }

  /** The order goes by current rank, then next rank, then chunk; it is total and transitive, and only
      elements of one chunk with equal ranks tie. */
  lemma CompareIsOrder(a: HeapElement, b: HeapElement, c: HeapElement)
    ensures Compare(a, b) < 0 <==>
            || a.currentRank < b.currentRank
            || (a.currentRank == b.currentRank && a.nextRank < b.nextRank)
            || (a.currentRank == b.currentRank && a.nextRank == b.nextRank && a.chunkId < b.chunkId)
    ensures Le(a, b) || Le(b, a)
    ensures Le(a, b) && Le(b, c) ==> Le(a, c)
    ensures Le(a, b) && Le(b, a) ==>
            a.currentRank == b.currentRank && a.nextRank == b.nextRank && a.chunkId == b.chunkId
  {
  }

  function Parent(i: nat): nat
    requires i >= 1
    ensures Parent(i) < i
  {
    (i - 1) / 2
  }

  ghost predicate EdgeOk(h: seq<HeapElement>, i: nat)
    requires 1 <= i < |h|
  {
    Le(h[Parent(i)], h[i])
  }

  ghost predicate HeapOrdered(h: seq<HeapElement>) {
    forall i: nat :: 1 <= i < |h| ==> EdgeOk(h, i)
  }

  /** The top is the minimum. */
  lemma {:induction false} TopIsMinimum(h: seq<HeapElement>, i: nat)
    requires HeapOrdered(h) && i < |h|
    ensures Le(h[0], h[i])
  {
    if i > 0 {
      TopIsMinimum(h, Parent(i));
      assert EdgeOk(h, i);
      CompareIsOrder(h[0], h[Parent(i)], h[i]);
    }
  }

  /** Item is to be placed; with it in the hole every edge holds but those down from the hole, and
      what is below the hole is not below what is above it. */
  ghost predicate HoleDown(h: seq<HeapElement>, hole: nat, item: HeapElement) {
    && hole < |h|
    && (var v := h[hole := item]; forall i: nat :: 1 <= i < |h| && Parent(i) != hole ==> EdgeOk(v, i))
    && forall i: nat :: 1 <= i < |h| && Parent(i) == hole && hole >= 1 ==> Le(h[Parent(hole)], h[i])
  }

  lemma HoleAtTop(h: seq<HeapElement>, item: HeapElement)
    requires HeapOrdered(h) && |h| >= 1
    ensures HoleDown(h, 0, item)
  {
    forall i: nat | 1 <= i < |h| && Parent(i) != 0 ensures EdgeOk(h[0 := item], i) {
      assert EdgeOk(h, i);
    }
  }

  /** c is the smaller child of the hole. */
  ghost predicate SmallerChild(h: seq<HeapElement>, hole: nat, c: nat) {
    && 1 <= c < |h| && Parent(c) == hole
    && forall i: nat :: 1 <= i < |h| && Parent(i) == hole ==> Le(h[c], h[i])
  }

  lemma ChooseChild(h: seq<HeapElement>, hole: nat)
    requires 2 * hole + 1 < |h|
    ensures var c := 2 * hole + 1;
            SmallerChild(h, hole, if c + 1 < |h| && Compare(h[c], h[c + 1]) > 0 then c + 1 else c)
  {
    var c := 2 * hole + 1;
    var d := if c + 1 < |h| && Compare(h[c], h[c + 1]) > 0 then c + 1 else c;
    forall i: nat | 1 <= i < |h| && Parent(i) == hole ensures Le(h[d], h[i]) {
      assert i == c || i == c + 1;
    }
  }

  /** Moving the smaller child up into the hole moves the hole down. */
  lemma SiftDownStep(h: seq<HeapElement>, hole: nat, c: nat, item: HeapElement)
    requires HoleDown(h, hole, item) && SmallerChild(h, hole, c) && Compare(item, h[c]) > 0
    ensures HoleDown(h[hole := h[c]], c, item)
    ensures multiset(h[hole := h[c]][c := item]) == multiset(h[hole := item])
  {
    var h', v := h[hole := h[c]], h[hole := item];
    forall i: nat | 1 <= i < |h| && Parent(i) != c ensures EdgeOk(h'[c := item], i) {
      if i != c && i != hole && Parent(i) != hole {
        assert EdgeOk(v, i);
      }
    }
    forall i: nat | 1 <= i < |h| && Parent(i) == c ensures Le(h'[Parent(c)], h'[i]) {
      assert EdgeOk(v, i);
    }
  }

  lemma SiftDownDone(h: seq<HeapElement>, hole: nat, item: HeapElement)
    requires HoleDown(h, hole, item)
    requires forall i: nat :: 1 <= i < |h| && Parent(i) == hole ==> Le(item, h[i])
    ensures HeapOrdered(h[hole := item])
  {
    var v := h[hole := item];
    forall i: nat | 1 <= i < |v| ensures EdgeOk(v, i) {
    }
  }

  /** Item is to be placed; with it in the hole every edge holds but the one up from the hole. */
  ghost predicate HoleUp(h: seq<HeapElement>, hole: nat, item: HeapElement) {
    && hole < |h|
    && (var v := h[hole := item]; forall i: nat :: 1 <= i < |h| && i != hole ==> EdgeOk(v, i))
    && forall i: nat :: 1 <= i < |h| && Parent(i) == hole && hole >= 1 ==> Le(h[Parent(hole)], h[i])
  }

  lemma HoleAtEnd(h: seq<HeapElement>, item: HeapElement, filler: HeapElement)
    requires HeapOrdered(h)
    ensures HoleUp(h + [filler], |h|, item)
  {
    var v := (h + [filler])[|h| := item];
    forall i: nat | 1 <= i < |h| ensures EdgeOk(v, i) {
      assert EdgeOk(h, i);
    }
  }

  lemma SiftUpStep(h: seq<HeapElement>, hole: nat, item: HeapElement)
    requires HoleUp(h, hole, item) && hole >= 1 && Compare(h[Parent(hole)], item) > 0
    ensures HoleUp(h[hole := h[Parent(hole)]], Parent(hole), item)
    ensures multiset(h[hole := h[Parent(hole)]][Parent(hole) := item]) == multiset(h[hole := item])
  {
    var p := Parent(hole);
    var h', v := h[hole := h[p]], h[hole := item];
    var v' := h'[p := item];
    forall i: nat | 1 <= i < |h| && i != p ensures EdgeOk(v', i) {
      if i != hole {
        assert EdgeOk(v, i);
      }
    }
    forall i: nat | 1 <= i < |h| && Parent(i) == p && p >= 1 ensures Le(h'[Parent(p)], h'[i]) {
      assert EdgeOk(v, p);
      if i != hole {
        assert EdgeOk(v, i);
      }
    }
  }

  lemma SiftUpDone(h: seq<HeapElement>, hole: nat, item: HeapElement)
    requires HoleUp(h, hole, item) && (hole >= 1 ==> Le(h[Parent(hole)], item))
    ensures HeapOrdered(h[hole := item])
  {
    var v := h[hole := item];
    forall i: nat | 1 <= i < |v| ensures EdgeOk(v, i) {
    }
  }

  /** Moving the last element over the first drops the first. */
  lemma LastOverFirst(h: seq<HeapElement>)
    requires |h| >= 2
    ensures multiset(h[..|h| - 1][0 := h[|h| - 1]]) == multiset(h) - multiset{h[0]}
  {
    var f, item := h[..|h| - 1], h[|h| - 1];
    assert h == f + [item] && f == [f[0]] + f[1..] && f[0 := item] == [item] + f[1..];
  }

  lemma PrefixHeap(h: seq<HeapElement>)
    requires HeapOrdered(h) && |h| >= 1
    ensures HeapOrdered(h[..|h| - 1])
  {
    var f := h[..|h| - 1];
    forall i: nat | 1 <= i < |f| ensures EdgeOk(f, i) {
      assert EdgeOk(h, i);
    }
  }
}
