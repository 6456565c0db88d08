/** The k-way merge (src/merge.c): pop triplets in order, resolve each when the next one arrives. */
module Merge {
  import opened RunLength
  import opened JointWalk
  import opened ChunkStatus
  import opened ChunkStreams
  import opened MergeHeap
  import opened Resolution
  import opened HeapHeads
  import opened MergeOrder

  datatype OutputElement = OutputElement(newRank: nat, count: nat, chunkId: int)

  // ---- progress of the pass ----

  ghost function Advance(R: seq<seq<Triplet>>, c: nat): seq<seq<Triplet>>
    requires c < |R| && R[c] != []
  {
    R[c := R[c][1..]]
  }

  ghost function Taken(D: seq<seq<Triplet>>, R: seq<seq<Triplet>>, c: nat): seq<seq<Triplet>>
    requires c < |D| == |R| && R[c] != []
  {
    D[c := D[c] + [R[c][0]]]
  }

  lemma AdvanceKeeps(Ts: seq<seq<Triplet>>, D: seq<seq<Triplet>>, R: seq<seq<Triplet>>, c: nat)
    requires Cut(Ts, D, R) && AllSorted(R) && c < |R| && R[c] != []
    ensures Cut(Ts, Taken(D, R, c), Advance(R, c)) && AllSorted(Advance(R, c))
    ensures AllAbove(R, R[c][0]) ==> AllAbove(Advance(R, c), R[c][0])
  {
    var R', D' := Advance(R, c), Taken(D, R, c);
    assert D'[c] + R'[c] == D[c] + R[c];
    forall k: nat, m: nat | k < |R'| && m < |R'[k]| && AllAbove(R, R[c][0]) ensures PairLe(R[c][0], R'[k][m]) {
      assert R'[k][m] == if k == c then R[k][m + 1] else R[k][m];
    }
  }

  /** What merge still has to do for one stream: its walk yields `rest`, and `out` has been put. */
  ghost predicate Fed(s: ChunkStream, rest: seq<Triplet>, good: bool, out: seq<Run>)
    reads s, s.nextsBuf, s.curBuf
  {
    s.Valid() && s.Ready() && Yields(s.TheWalk(), rest, good) && s.output == EncodeAll(out)
  }

  /** The same before the first triplet is asked for: the buffers have just been filled. */
  ghost predicate Starts(s: ChunkStream, rest: seq<Triplet>, good: bool, out: seq<Run>)
    reads s, s.nextsBuf, s.curBuf
  {
    s.Valid() && s.cursor.nextRem == 0 && Yields(s.TheWalk(), rest, good) && s.output == EncodeAll(out)
  }

  /** Different streams share no memory. */
  ghost predicate Separate(streams: seq<ChunkStream>) {
    forall i: nat, j: nat :: i < |streams| && j < |streams| && i != j ==>
      && streams[i] != streams[j]
      && streams[i].nextsBuf != streams[j].nextsBuf && streams[i].nextsBuf != streams[j].curBuf
      && streams[i].curBuf != streams[j].nextsBuf && streams[i].curBuf != streams[j].curBuf
  }

  /** Of the first n streams those without a triplet are well formed. */
  ghost predicate DrainedGood(Ts: seq<seq<Triplet>>, good: seq<bool>, n: nat)
    requires n <= |Ts| == |good|
  {
    forall k: nat :: k < n && Ts[k] == [] ==> good[k]
  }

  lemma DrainedGoodNone(Ts: seq<seq<Triplet>>, good: seq<bool>)
    requires |Ts| == |good|
    ensures DrainedGood(Ts, good, 0)
  {
  }

  lemma DrainedGoodNext(Ts: seq<seq<Triplet>>, good: seq<bool>, n: nat)
    requires n < |Ts| == |good| && DrainedGood(Ts, good, n)
    ensures Ts[n] != [] || good[n] ==> DrainedGood(Ts, good, n + 1)
  {
  }

  /** Nothing taken from any stream. */
  ghost function None(Ts: seq<seq<Triplet>>): (D: seq<seq<Triplet>>)
    ensures |D| == |Ts| && forall k: nat :: k < |D| ==> D[k] == []
  {
    seq(|Ts|, _ => [])
  }

  /** The first n streams have joined the heap. */
  ghost function FirstStreams(Ts: seq<seq<Triplet>>, n: nat): (R: seq<seq<Triplet>>)
    ensures |R| == |Ts|
  {
    seq(|Ts|, k requires 0 <= k < |Ts| => if k < n then Ts[k] else [])
  }

  lemma NoneJoined(Ts: seq<seq<Triplet>>, h: seq<HeapElement>)
    requires h == []
    ensures HeapOf(h, FirstStreams(Ts, 0))
  {
  }

  lemma AllJoined(Ts: seq<seq<Triplet>>)
    ensures FirstStreams(Ts, |Ts|) == Ts
  {
  }

  lemma JoinNext(Ts: seq<seq<Triplet>>, i: nat, h: seq<HeapElement>, h': seq<HeapElement>)
    requires i < |Ts| && HeapOf(h, FirstStreams(Ts, i))
    requires HeapOrdered(h')
    requires multiset(h') == if Ts[i] == [] then multiset(h) else multiset(h) + multiset{Head(Ts, i)}
    ensures HeapOf(h', FirstStreams(Ts, i + 1))
  {
    HeadsJoin(multiset(h), FirstStreams(Ts, i), i, Ts[i]);
    assert FirstStreams(Ts, i)[i := Ts[i]] == FirstStreams(Ts, i + 1);
  }

  /** How many triplets are ahead. */
  ghost function Size(R: seq<seq<Triplet>>): nat {
    if R == [] then 0 else |R[0]| + Size(R[1..])
  }

  lemma {:induction false} SizeDrops(R: seq<seq<Triplet>>, c: nat)
    requires c < |R| && R[c] != []
    ensures Size(Advance(R, c)) < Size(R)
  {
    if c == 0 {
      assert Advance(R, 0)[1..] == R[1..];
    } else {
      assert Advance(R, c)[1..] == Advance(R[1..], c - 1);
      SizeDrops(R[1..], c - 1);
    }
  }

  // ---- what has been put ----

  const NOTHING := HeapElement(0, 0, 0, -1)

  function AsTriplet(e: HeapElement): Triplet {
    Triplet(e.currentRank, e.nextRank, e.count)
  }

  /** e is the last triplet taken from its stream. */
  ghost predicate Waits(D: seq<seq<Triplet>>, e: HeapElement) {
    0 <= e.chunkId < |D| && D[e.chunkId] != [] && D[e.chunkId][|D[e.chunkId]| - 1] == AsTriplet(e)
  }

  /** The pass stands after the triplets D; last is the one that waits to be resolved. */
  ghost predicate Pending(D: seq<seq<Triplet>>, R: seq<seq<Triplet>>, last: HeapElement, updatedRank: nat,
                          pairCount: nat) {
    if last.chunkId == -1 then AllDrained(D)
    else Book(D, AsTriplet(last), updatedRank, pairCount) && AllAbove(R, AsTriplet(last)) && 1 <= last.count
  }

  /** The triplets of stream k that have been put: all that were taken but the one that waits. */
  ghost function Put(D: seq<seq<Triplet>>, last: HeapElement, k: nat): seq<Triplet>
    requires k < |D|
  {
    if last.chunkId == k && D[k] != [] then D[k][..|D[k]| - 1] else D[k]
  }

  ghost function Rest(ts: seq<Triplet>): seq<Triplet> {
    if ts == [] then [] else ts[1..]
  }

  ghost function Rests(R: seq<seq<Triplet>>): (rests: seq<seq<Triplet>>)
    ensures |rests| == |R|
  {
    seq(|R|, k requires 0 <= k < |R| => Rest(R[k]))
  }

  /** The records each chunk's output holds while `last` waits. */
  ghost function Outs(Ts: seq<seq<Triplet>>, D: seq<seq<Triplet>>, last: HeapElement): (outs: seq<seq<Run>>)
    ensures |outs| == |D|
  {
    seq(|D|, k requires 0 <= k < |D| => ResolveAll(Ts, Put(D, last, k)))
  }

  lemma NothingPut(Ts: seq<seq<Triplet>>, last: HeapElement)
    ensures forall k: nat :: k < |Ts| ==> Outs(Ts, None(Ts), last)[k] == []
  {
  }

  lemma RestsAdvance(R: seq<seq<Triplet>>, c: nat)
    requires c < |R| && R[c] != []
    ensures Rests(R)[c] == R[c][1..]
    ensures Rests(Advance(R, c)) == Rests(R)[c := Rest(Rests(R)[c])]
  {
  }

  /** Resolving the triplet that waits completes its chunk's output. */
  lemma PutAppends(Ts: seq<seq<Triplet>>, D: seq<seq<Triplet>>, last: HeapElement)
    requires Waits(D, last)
    ensures ResolveAll(Ts, D[last.chunkId]) ==
            ResolveAll(Ts, Put(D, last, last.chunkId)) + [Resolve(Ts, AsTriplet(last))]
  {
    var ts := D[last.chunkId];
    assert ts == ts[..|ts| - 1] + [AsTriplet(last)];
    ResolveAllAppend(Ts, ts[..|ts| - 1], AsTriplet(last));
  }

  lemma OutsComplete(Ts: seq<seq<Triplet>>, D: seq<seq<Triplet>>, last: HeapElement)
    requires Waits(D, last)
    ensures var outs, c := Outs(Ts, D, last), last.chunkId;
            Outs(Ts, D, NOTHING) == outs[c := outs[c] + [Resolve(Ts, AsTriplet(last))]]
  {
    PutAppends(Ts, D, last);
    hide ResolveAll, Resolve, AsTriplet;
    var outs, c := Outs(Ts, D, last), last.chunkId;
    var done := Outs(Ts, D, NOTHING);
    forall k: nat | k < |D| ensures done[k] == outs[c := outs[c] + [Resolve(Ts, AsTriplet(last))]][k] {
    }
  }

  /** While the newly taken triplet waits nothing more has been put. */
  lemma OutsWaiting(Ts: seq<seq<Triplet>>, D: seq<seq<Triplet>>, R: seq<seq<Triplet>>, c: nat, smallest: HeapElement)
    requires c < |D| == |R| && R[c] != [] && smallest == Head(R, c)
    ensures Waits(Taken(D, R, c), smallest)
    ensures Outs(Ts, Taken(D, R, c), smallest) == Outs(Ts, D, NOTHING)
  {
    hide ResolveAll;
    var D' := Taken(D, R, c);
    forall k: nat | k < |D| ensures Put(D', smallest, k) == Put(D, NOTHING, k) {
      if k == c {
        assert D'[c][..|D'[c]| - 1] == D[c];
      }
    }
  }

  /** Which families of files can be merged. */
  lemma FamilyDecides(walks: seq<Walk>, Ts: seq<seq<Triplet>>, good: seq<bool>)
    requires |walks| == |Ts| == |good|
    requires forall k: nat :: k < |walks| ==> walks[k].cursor == START && Yields(walks[k], Ts[k], good[k])
    ensures !AllDrained(Ts) && (forall k: nat :: k < |good| ==> good[k]) <==>
              (exists k: nat :: k < |walks| && walks[k].nexts != []) &&
              forall k: nat :: k < |walks| ==> FilesAgree(walks[k].nexts, walks[k].currents)
  {
    hide Yields, FilesAgree;
    forall k: nat | k < |walks|
      ensures good[k] <==> FilesAgree(walks[k].nexts, walks[k].currents)
      ensures good[k] ==> (Ts[k] == [] <==> walks[k].nexts == [])
    {
      assert walks[k] == Walk(walks[k].nexts, walks[k].currents, START);
      FilesDecide(walks[k].nexts, walks[k].currents, Ts[k], good[k]);
    }
  }

  /** With nothing ahead everything has been taken and put. */
  lemma AllTaken(Ts: seq<seq<Triplet>>, D: seq<seq<Triplet>>, R: seq<seq<Triplet>>)
    requires Cut(Ts, D, R) && AllDrained(R)
    ensures D == Ts
    ensures forall k: nat :: k < |Ts| ==> Outs(Ts, D, NOTHING)[k] == ResolveAll(Ts, Ts[k])
  {
    forall k: nat | k < |Ts| ensures D[k] == Ts[k] {
      assert Ts[k] == D[k] + R[k];
    }
  }

  lemma OutsNothingTaken(Ts: seq<seq<Triplet>>, D: seq<seq<Triplet>>, last: HeapElement)
    requires last.chunkId == -1
    ensures Outs(Ts, D, last) == Outs(Ts, D, NOTHING)
  {
  }

  lemma HeapOfIsOrdered(h: seq<HeapElement>, R: seq<seq<Triplet>>)
    requires HeapOf(h, R)
    ensures HeapOrdered(h)
  {
  }

  lemma HeapAdvanced(h: seq<HeapElement>, h': seq<HeapElement>, R: seq<seq<Triplet>>, c: nat)
    requires HeapOf(h, R) && h != [] && c < |R| && R[c] != [] && h[0] == Head(R, c)
    requires HeapOrdered(h')
    requires multiset(h') == if |R[c]| > 1 then multiset(h) - multiset{h[0]} + multiset{Head(Advance(R, c), c)}
                             else multiset(h) - multiset{h[0]}
    ensures HeapOf(h', Advance(R, c))
  {
    HeadsAdvance(multiset(h), R, c);
  }

  /** What heap_to_output writes for the triplet taken before. */
  lemma ResolveLast(Ts: seq<seq<Triplet>>, D: seq<seq<Triplet>>, R: seq<seq<Triplet>>, c: nat, l: Triplet,
                    updatedRank: nat, pairCount: nat)
    requires Cut(Ts, D, R) && Book(D, l, updatedRank, pairCount) && AllAbove(R, l) && AllSorted(R)
    requires c < |R| && R[c] != [] && AllAbove(R, R[c][0])
    ensures Resolve(Ts, l) == Run(updatedRank, if !SamePair(R[c][0], l) && pairCount == 1 then 0 else l.count)
  {
    if SamePair(R[c][0], l) {
      ResolveOpen(Ts, D, R, l, c, 0, updatedRank, pairCount);
    } else {
      forall k: nat, m: nat | k < |R| && m < |R[k]| ensures !SamePair(R[k][m], l) {
        assert PairLe(R[c][0], R[k][m]) && PairLe(l, R[c][0]);
      }
      ResolveComplete(Ts, D, R, l, updatedRank, pairCount);
    }
  }

  lemma LeIsCompare(a: HeapElement, b: HeapElement)
    ensures Le(a, b) <==> !(Compare(a, b) > 0)
  {
  }

  lemma NoChild(h: seq<HeapElement>, hole: nat)
    requires 2 * hole + 1 >= |h|
    ensures forall i: nat :: 1 <= i < |h| ==> Parent(i) != hole
  {
  }

  lemma ChildBoundsAll(h: seq<HeapElement>, hole: nat, c: nat, item: HeapElement)
    requires SmallerChild(h, hole, c) && Compare(item, h[c]) <= 0
    ensures forall i: nat :: 1 <= i < |h| && Parent(i) == hole ==> Le(item, h[i])
  {
  }

  class Manager {
    const streams: seq<ChunkStream>
    const heap: array<HeapElement>
    var currentHeapSize: nat
    var updatedRank: nat
    var pairCount: nat
    var lastTransferred: HeapElement   // chunkId -1 before the first

    constructor (streams: seq<ChunkStream>)
      ensures this.streams == streams && fresh(heap) && heap.Length == |streams|
      ensures currentHeapSize == 0 && lastTransferred.chunkId == -1
    {
      this.streams := streams;
      heap := new HeapElement[|streams|](_ => HeapElement(0, 0, 0, -1));
      currentHeapSize, updatedRank, pairCount := 0, 0, 0;
      lastTransferred := HeapElement(0, 0, 0, -1);
    }

    /** Sift an element down from the top (the loops of replace_top and pop_top). */
    method SiftDown(item: HeapElement)
      requires 1 <= currentHeapSize <= heap.Length
      requires HoleDown(heap[..currentHeapSize], 0, item)
      modifies heap
      ensures HeapOrdered(heap[..currentHeapSize])
      ensures multiset(heap[..currentHeapSize]) == multiset(old(heap[..currentHeapSize])[0 := item])
    {
      hide HeapOrdered, HoleDown, SmallerChild, Compare, Le, Parent;
      var n := currentHeapSize;
      ghost var h := heap[..n];
      ghost var m := multiset(h[0 := item]);
      var parent: nat := 0;
      while 2 * parent + 1 < n
        invariant parent < n <= heap.Length && heap[..n] == h && HoleDown(h, parent, item)
        invariant multiset(h[parent := item]) == m
        decreases n - parent
      {
        var child := 2 * parent + 1;
        ChooseChild(h, parent);
        if child + 1 < n && Compare(heap[child], heap[child + 1]) > 0 {
          child := child + 1;
        }
        if Compare(item, heap[child]) > 0 {
          SiftDownStep(h, parent, child, item);
          heap[parent] := heap[child];
          h := h[parent := h[child]];
          parent := child;
        } else {
          ChildBoundsAll(h, parent, child, item);
          break;
        }
      }
      if 2 * parent + 1 >= n {
        NoChild(h, parent);
      }
      SiftDownDone(h, parent, item);
      heap[parent] := item;
      assert heap[..n] == h[parent := item];
    }

    /** replace_top_heap_element */
    method ReplaceTop(input: HeapElement)
      requires 1 <= currentHeapSize <= heap.Length && HeapOrdered(heap[..currentHeapSize])
      modifies heap
      ensures HeapOrdered(heap[..currentHeapSize])
      ensures multiset(heap[..currentHeapSize]) ==
              multiset(old(heap[..currentHeapSize])) - multiset{old(heap[0])} + multiset{input}
    {
      HoleAtTop(heap[..currentHeapSize], input);
      SiftDown(input);
    }

    /** pop_top_heap_element */
    method PopTop()
      requires 1 <= currentHeapSize <= heap.Length && HeapOrdered(heap[..currentHeapSize])
      modifies heap, `currentHeapSize
      ensures currentHeapSize == old(currentHeapSize) - 1
      ensures HeapOrdered(heap[..currentHeapSize])
      ensures multiset(heap[..currentHeapSize]) == multiset(old(heap[..currentHeapSize])) - multiset{old(heap[0])}
    {
      hide HeapOrdered, HoleDown;
      ghost var was := heap[..currentHeapSize];
      PrefixHeap(was);
      currentHeapSize := currentHeapSize - 1;
      assert was[..|was| - 1] == heap[..currentHeapSize];
      var item := heap[currentHeapSize];
      if currentHeapSize == 0 {
        assert was == [item];
        return;
      }
      LastOverFirst(was);
      HoleAtTop(heap[..currentHeapSize], item);
      SiftDown(item);
    }

    /** Sift the hole at the end up until item fits (the loop of insert_into_heap). */
    method SiftUp(item: HeapElement)
      requires 1 <= currentHeapSize <= heap.Length
      requires HoleUp(heap[..currentHeapSize], currentHeapSize - 1, item)
      modifies heap
      ensures HeapOrdered(heap[..currentHeapSize])
      ensures multiset(heap[..currentHeapSize]) ==
              multiset(old(heap[..currentHeapSize])[old(currentHeapSize) - 1 := item])
    {
      hide HeapOrdered, HoleUp, Compare, Le, Parent;
      var n := currentHeapSize;
      var child: nat := n - 1;
      ghost var h := heap[..n];
      ghost var m := multiset(h[child := item]);
      while child > 0
        invariant child < n <= heap.Length && heap[..n] == h && HoleUp(h, child, item)
        invariant multiset(h[child := item]) == m
      {
        var parent := Parent(child);
        if Compare(heap[parent], item) > 0 {
          SiftUpStep(h, child, item);
          h := h[child := h[parent]];
          heap[child] := heap[parent];
          assert heap[..n] == h;
          child := parent;
        } else {
          break;
        }
      }
      if child > 0 {
        LeIsCompare(h[Parent(child)], item);
      }
      SiftUpDone(h, child, item);
      heap[child] := item;
      assert heap[..n] == h[child := item];
    }

    /** insert_into_heap */
    method InsertIntoHeap(input: HeapElement) returns (r: Status)
      requires currentHeapSize <= heap.Length && HeapOrdered(heap[..currentHeapSize])
      modifies heap, `currentHeapSize
      ensures r == (if old(currentHeapSize) == heap.Length then FAILURE else SUCCESS)
      ensures r == FAILURE ==> currentHeapSize == old(currentHeapSize) && heap[..] == old(heap[..])
      ensures r == SUCCESS ==>
                currentHeapSize == old(currentHeapSize) + 1 && HeapOrdered(heap[..currentHeapSize]) &&
                multiset(heap[..currentHeapSize]) == multiset(old(heap[..currentHeapSize])) + multiset{input}
    {
      hide HeapOrdered, HoleUp;
      if currentHeapSize == heap.Length {
        return FAILURE;
      }
      ghost var was := heap[..currentHeapSize];
      ghost var child := currentHeapSize;
      currentHeapSize := currentHeapSize + 1;
      ghost var h := heap[..currentHeapSize];
      assert h == was + [heap[child]];
      HoleAtEnd(was, input, heap[child]);
      assert h[child := input] == was + [input];
      SiftUp(input);
      r := SUCCESS;
    }

    /** get_next_run: the next triplet of a chunk as a heap element. */
    method GetNextRun(c: nat, ghost ts: seq<Triplet>, ghost good: bool, ghost out: seq<Run>)
      returns (r: Status, e: HeapElement)
      requires c < |streams|
      requires Fed(streams[c], ts, good, out) || Starts(streams[c], ts, good, out)
      modifies streams[c], streams[c].nextsBuf, streams[c].curBuf
      ensures r == if ts != [] then SUCCESS else if good then EMPTY else FAILURE
      ensures r == SUCCESS ==> e == HeapElement(ts[0].cur, ts[0].next, ts[0].count, c)
      ensures r != FAILURE ==> Fed(streams[c], Rest(ts), good, out)
    {
      hide ChunkStream.Valid, NextStep, EncodeAll;
      var s := streams[c];
      var t;
      r, t := s.NextTriplet();
      e := HeapElement(t.cur, t.next, t.count, c);
    }

    /** heap_to_output: the triplet taken before is resolved now that its successor is known. */
    method HeapToOutput(current: HeapElement, ghost Ts: seq<seq<Triplet>>, ghost D: seq<seq<Triplet>>,
                        ghost R: seq<seq<Triplet>>, ghost c: nat)
      returns (result: OutputElement)
      requires Cut(Ts, D, R) && AllSorted(R) && c < |R| && R[c] != []
      requires current == Head(R, c) && AllAbove(R, R[c][0])
      requires Pending(D, R, lastTransferred, updatedRank, pairCount)
      requires lastTransferred.chunkId == -1 ==> updatedRank == current.currentRank
      modifies `updatedRank, `pairCount
      ensures Pending(Taken(D, R, c), Advance(R, c), current, updatedRank, pairCount)
      ensures lastTransferred.chunkId == -1 ==> result.chunkId == -1
      ensures lastTransferred.chunkId != -1 ==>
                result.chunkId == lastTransferred.chunkId &&
                Run(result.newRank, result.count) == Resolve(Ts, AsTriplet(lastTransferred))
      ensures current.count <= pairCount
      ensures pairCount == current.count <==>
              lastTransferred.chunkId == -1 || !SamePair(AsTriplet(lastTransferred), AsTriplet(current))
    {
      result := OutputElement(0, 0, -1);
      ghost var t := R[c][0];
      assert AsTriplet(current) == t;
      AdvanceKeeps(Ts, D, R, c);
      if lastTransferred.chunkId == -1 {
        BookFirst(D, c, t);
        pairCount := current.count;
        return;
      }
      ghost var l := AsTriplet(lastTransferred);
      BookStep(D, c, l, t, updatedRank, pairCount);
      ResolveLast(Ts, D, R, c, l, updatedRank, pairCount);
      result := OutputElement(updatedRank, lastTransferred.count, lastTransferred.chunkId);
      if current.currentRank == lastTransferred.currentRank {
        if current.nextRank == lastTransferred.nextRank {
          pairCount := pairCount + current.count;
        } else {
          if pairCount == 1 {
            result := result.(count := 0);
          }
          updatedRank := updatedRank + pairCount;
          pairCount := current.count;
        }
      } else {
        if pairCount == 1 {
          result := result.(count := 0);
        }
        updatedRank := current.currentRank;
        pairCount := current.count;
      }
    }

    /** heap_to_output_last: nothing follows the last triplet. */
    method HeapToOutputLast(current: HeapElement, ghost Ts: seq<seq<Triplet>>, ghost D: seq<seq<Triplet>>,
                            ghost R: seq<seq<Triplet>>)
      returns (result: OutputElement)
      requires Cut(Ts, D, R) && AllDrained(R) && current.chunkId != -1
      requires Pending(D, R, current, updatedRank, pairCount) && current.count <= pairCount
      requires pairCount == current.count <==>
               lastTransferred.chunkId == -1 || !SamePair(AsTriplet(lastTransferred), AsTriplet(current))
      ensures result.chunkId == current.chunkId
      ensures Run(result.newRank, result.count) == Resolve(Ts, AsTriplet(current))
    {
      ResolveComplete(Ts, D, R, AsTriplet(current), updatedRank, pairCount);
      if current.count == 1 && (lastTransferred.chunkId == -1
                                || current.currentRank != lastTransferred.currentRank
                                || current.nextRank != lastTransferred.nextRank) {
        result := OutputElement(updatedRank, 0, current.chunkId);
      } else {
        result := OutputElement(updatedRank, current.count, current.chunkId);
      }
    }

    /** The state between two iterations of merge_runs: D has been taken, R is ahead, the last triplet
        taken waits, and everything before it has been put to its chunk's output. */
    ghost predicate Between(Ts: seq<seq<Triplet>>, D: seq<seq<Triplet>>, R: seq<seq<Triplet>>)
      reads this, heap
    {
      && Cut(Ts, D, R) && AllSorted(R) && Separate(streams)
      && |Ts| == |D| == |R| == |streams| == heap.Length
      && currentHeapSize <= heap.Length && HeapOf(heap[..currentHeapSize], R)
      && (lastTransferred.chunkId == -1 || Waits(D, lastTransferred))
      && Pending(D, R, lastTransferred, updatedRank, pairCount)
    }

    /** Put a resolved record to the output of its chunk. */
    method WriteResult(result: OutputElement, ghost rests: seq<seq<Triplet>>, ghost good: seq<bool>,
                       ghost outs: seq<seq<Run>>)
      requires 0 <= result.chunkId < |streams| == |rests| == |good| == |outs| && Separate(streams)
      requires forall k: nat :: k < |streams| ==> Fed(streams[k], rests[k], good[k], outs[k])
      modifies streams[result.chunkId], streams[result.chunkId].nextsBuf
      ensures forall k: nat :: k < |streams| ==>
                Fed(streams[k], rests[k], good[k],
                    outs[result.chunkId := outs[result.chunkId] + [Run(result.newRank, result.count)]][k])
    {
      hide ChunkStream.Valid, Yields;
      EncodeAllAppend(outs[result.chunkId], Run(result.newRank, result.count));
      streams[result.chunkId].WriteOutput(result.newRank, result.count);
    }

    /** Fetch the next triplet of chunk c; the other streams are not touched. */
    method FetchNext(c: nat, ghost rests: seq<seq<Triplet>>, ghost good: seq<bool>, ghost outs: seq<seq<Run>>)
      returns (r: Status, next: HeapElement)
      requires c < |streams| == |rests| == |good| == |outs| && Separate(streams)
      requires forall k: nat :: k < |streams| ==> Fed(streams[k], rests[k], good[k], outs[k])
      modifies streams[c], streams[c].nextsBuf, streams[c].curBuf
      ensures r == if rests[c] != [] then SUCCESS else if good[c] then EMPTY else FAILURE
      ensures r == SUCCESS ==> next == HeapElement(rests[c][0].cur, rests[c][0].next, rests[c][0].count, c)
      ensures r != FAILURE ==> forall k: nat :: k < |streams| ==>
                Fed(streams[k], if k == c then Rest(rests[k]) else rests[k], good[k], outs[k])
    {
      hide Fed;
      r, next := GetNextRun(c, rests[c], good[c], outs[c]);
    }

    /** Replace the top by its chunk's next triplet, or drop it. */
    method AdvanceHeap(found: bool, next: HeapElement, ghost R: seq<seq<Triplet>>, ghost c: nat)
      requires 1 <= currentHeapSize <= heap.Length && HeapOf(heap[..currentHeapSize], R)
      requires c < |R| && R[c] != [] && heap[0] == Head(R, c)
      requires found <==> |R[c]| > 1
      requires found ==> next == Head(Advance(R, c), c)
      modifies heap, `currentHeapSize
      ensures currentHeapSize <= heap.Length && HeapOf(heap[..currentHeapSize], Advance(R, c))
    {
      hide HeapOf, HeapOrdered, Head, Advance;
      ghost var h := heap[..currentHeapSize];
      HeapOfIsOrdered(h, R);
      if found {
        ReplaceTop(next);
      } else {
        PopTop();
      }
      HeapAdvanced(h, heap[..currentHeapSize], R, c);
    }

    /** First half of an iteration: look at the top, fetch its chunk's next triplet, restore the heap. */
    method TakeTop(ghost Ts: seq<seq<Triplet>>, ghost D: seq<seq<Triplet>>, ghost R: seq<seq<Triplet>>,
                   ghost good: seq<bool>)
      returns (r: Status, smallest: HeapElement, ghost c: nat)
      requires Between(Ts, D, R) && currentHeapSize > 0 && |good| == |streams|
      requires forall k: nat :: k < |streams| ==>
                 Fed(streams[k], Rests(R)[k], good[k], Outs(Ts, D, lastTransferred)[k])
      modifies `updatedRank, `pairCount, `currentHeapSize, heap
      modifies streams, (set s | s in streams :: s.nextsBuf), (set s | s in streams :: s.curBuf)
      ensures c < |R| && R[c] != [] && smallest == Head(R, c) && AllAbove(R, R[c][0]) && AllAfter(R, smallest)
      ensures r == FAILURE ==> !good[c]
      ensures r != FAILURE ==>
                && currentHeapSize <= heap.Length && HeapOf(heap[..currentHeapSize], Advance(R, c))
                && (|R[c]| == 1 ==> good[c])
                && Pending(D, R, lastTransferred, updatedRank, pairCount)
                && (lastTransferred.chunkId == -1 ==> updatedRank == smallest.currentRank)
      ensures r != FAILURE ==> forall k: nat :: k < |streams| ==>
                Fed(streams[k], Rests(Advance(R, c))[k], good[k], Outs(Ts, D, lastTransferred)[k])
    {
      hide Fed, HeapOf, Cut, AllSorted, Book, AllDrained, AllAbove, AllAfter, HeapOrdered, Separate, Rests, Outs;
      smallest := heap[0];
      ghost var h := heap[..currentHeapSize];
      TopIsSmallest(h, R);
      TopIsFirst(h, R);
      c := smallest.chunkId;
      RestsAdvance(R, c);
      if lastTransferred.chunkId == -1 {
        updatedRank := smallest.currentRank;
        pairCount := 0;
      }
      var next;
      r, next := FetchNext(smallest.chunkId, Rests(R), good, Outs(Ts, D, lastTransferred));
      if r == FAILURE {
        return;
      }
      assert h == heap[..currentHeapSize];
      AdvanceHeap(r == SUCCESS, next, R, c);
    }

    /** Second half: resolve the triplet that waited, and the last one when the heap is empty. */
    method Deliver(smallest: HeapElement, ghost c: nat, ghost Ts: seq<seq<Triplet>>, ghost D: seq<seq<Triplet>>,
                   ghost R: seq<seq<Triplet>>, ghost good: seq<bool>)
      requires Cut(Ts, D, R) && AllSorted(R) && Separate(streams)
      requires |Ts| == |D| == |R| == |streams| == heap.Length == |good|
      requires c < |R| && R[c] != [] && smallest == Head(R, c) && AllAbove(R, R[c][0])
      requires currentHeapSize <= heap.Length && HeapOf(heap[..currentHeapSize], Advance(R, c))
      requires lastTransferred.chunkId == -1 || Waits(D, lastTransferred)
      requires Pending(D, R, lastTransferred, updatedRank, pairCount)
      requires lastTransferred.chunkId == -1 ==> updatedRank == smallest.currentRank
      requires forall k: nat :: k < |streams| ==>
                 Fed(streams[k], Rests(Advance(R, c))[k], good[k], Outs(Ts, D, lastTransferred)[k])
      modifies `updatedRank, `pairCount, `lastTransferred, streams, (set s | s in streams :: s.nextsBuf)
      ensures Between(Ts, Taken(D, R, c), Advance(R, c)) && lastTransferred == smallest
      ensures forall k: nat :: k < |streams| ==>
                Fed(streams[k], Rests(Advance(R, c))[k], good[k],
                    Outs(Ts, Taken(D, R, c), if currentHeapSize == 0 then NOTHING else smallest)[k])
    {
      hide Fed, HeapOf, Cut, AllSorted, Pending, Resolve, AllAbove, Outs, Rests, Separate;
      ghost var D', R' := Taken(D, R, c), Advance(R, c);
      AdvanceKeeps(Ts, D, R, c);
      OutsWaiting(Ts, D, R, c, smallest);
      var result := HeapToOutput(smallest, Ts, D, R, c);
      if result.chunkId >= 0 {
        OutsComplete(Ts, D, lastTransferred);
        WriteResult(result, Rests(R'), good, Outs(Ts, D, lastTransferred));
      }
      if lastTransferred.chunkId == -1 {
        OutsNothingTaken(Ts, D, lastTransferred);
      }
      EmptyHeapIsDrained(heap[..currentHeapSize], R');
      if currentHeapSize == 0 {
        result := HeapToOutputLast(smallest, Ts, D', R');
        OutsComplete(Ts, D', smallest);
        WriteResult(result, Rests(R'), good, Outs(Ts, D', smallest));
      }
      lastTransferred := smallest;
    }

    // ---- init_merge ----

    /** Fill both buffers of a chunk. */
    method FillBuffers(c: nat, ghost Ts: seq<seq<Triplet>>, ghost good: seq<bool>)
      requires c < |streams| == |Ts| == |good| && Separate(streams)
      requires forall k: nat :: k < c ==> Starts(streams[k], Ts[k], good[k], [])
      requires forall k: nat :: c <= k < |streams| ==>
                 streams[k].Fresh() && Yields(streams[k].TheWalk(), Ts[k], good[k])
      modifies streams[c], streams[c].nextsBuf, streams[c].curBuf
      ensures forall k: nat :: k < c + 1 ==> Starts(streams[k], Ts[k], good[k], [])
      ensures forall k: nat :: c < k < |streams| ==> streams[k].Fresh() && Yields(streams[k].TheWalk(), Ts[k], good[k])
    {
      hide ChunkStream.NextsValid, ChunkStream.CurrentsValid, ChunkStream.OutputValid, Yields;
      var r := streams[c].RefillNexts();
      r := streams[c].RefillCurrents();
    }

    /** The first loop of init_merge. */
    method FillAll(ghost Ts: seq<seq<Triplet>>, ghost good: seq<bool>)
      requires |Ts| == |good| == |streams| && Separate(streams)
      requires forall k: nat :: k < |streams| ==> streams[k].Fresh() && Yields(streams[k].TheWalk(), Ts[k], good[k])
      modifies streams, (set s | s in streams :: s.nextsBuf), (set s | s in streams :: s.curBuf)
      ensures forall k: nat :: k < |streams| ==> Starts(streams[k], Ts[k], good[k], [])
    {
      hide Starts, Separate, Yields, ChunkStream.Fresh;
      for i := 0 to |streams|
        invariant forall k: nat :: k < i ==> Starts(streams[k], Ts[k], good[k], [])
        invariant forall k: nat :: i <= k < |streams| ==>
                    streams[k].Fresh() && Yields(streams[k].TheWalk(), Ts[k], good[k])
      {
        FillBuffers(i, Ts, good);
      }
    }

    /** Fetch the first triplet of a chunk. */
    method FetchFirst(c: nat, ghost Ts: seq<seq<Triplet>>, ghost good: seq<bool>)
      returns (r: Status, first: HeapElement)
      requires c < |streams| == |Ts| == |good| && Separate(streams)
      requires forall k: nat :: k < c ==> Fed(streams[k], Rests(Ts)[k], good[k], [])
      requires forall k: nat :: c <= k < |streams| ==> Starts(streams[k], Ts[k], good[k], [])
      modifies streams[c], streams[c].nextsBuf, streams[c].curBuf
      ensures r == if Ts[c] != [] then SUCCESS else if good[c] then EMPTY else FAILURE
      ensures r == SUCCESS ==> first == Head(Ts, c)
      ensures r != FAILURE ==> forall k: nat :: k < c + 1 ==> Fed(streams[k], Rests(Ts)[k], good[k], [])
      ensures r != FAILURE ==> forall k: nat :: c < k < |streams| ==> Starts(streams[k], Ts[k], good[k], [])
    {
      hide Fed, Starts;
      r, first := GetNextRun(c, Ts[c], good[c], []);
    }

    /** The second loop of init_merge: the first triplet of every stream comes into the heap. */
    method FillHeap(ghost Ts: seq<seq<Triplet>>, ghost good: seq<bool>) returns (r: Status)
      requires |Ts| == |good| == |streams| == heap.Length && Separate(streams) && AllSorted(Ts)
      requires currentHeapSize == 0
      requires forall k: nat :: k < |streams| ==> Starts(streams[k], Ts[k], good[k], [])
      modifies heap, `currentHeapSize
      modifies streams, (set s | s in streams :: s.nextsBuf), (set s | s in streams :: s.curBuf)
      ensures r == FAILURE ==> exists k: nat :: k < |good| && !good[k]
      ensures r != FAILURE ==>
                && r == SUCCESS && currentHeapSize <= heap.Length && HeapOf(heap[..currentHeapSize], Ts)
                && DrainedGood(Ts, good, |Ts|)
                && forall k: nat :: k < |streams| ==> Fed(streams[k], Rests(Ts)[k], good[k], [])
    {
      hide Fed, Starts, Separate, AllSorted, Rests, HoldsHeads, HeapOrdered, FirstStreams, Head, DrainedGood;
      DrainedGoodNone(Ts, good);
      NoneJoined(Ts, heap[..0]);
      for i := 0 to |streams|
        invariant forall k: nat :: k < i ==> Fed(streams[k], Rests(Ts)[k], good[k], [])
        invariant forall k: nat :: i <= k < |streams| ==> Starts(streams[k], Ts[k], good[k], [])
        invariant currentHeapSize <= i && HeapOf(heap[..currentHeapSize], FirstStreams(Ts, i))
        invariant DrainedGood(Ts, good, i)
      {
        var ret, first := FetchFirst(i, Ts, good);
        DrainedGoodNext(Ts, good, i);
        if ret == FAILURE {
          return FAILURE;
        }
        ghost var h := heap[..currentHeapSize];
        if ret != EMPTY {
          var st := InsertIntoHeap(first);
          assert st == SUCCESS;
        }
        JoinNext(Ts, i, h, heap[..currentHeapSize]);
      }
      AllJoined(Ts);
      r := SUCCESS;
    }

    /** init_merge: fill the buffers of every stream and bring its first triplet into the heap. */
    method InitMerge(ghost Ts: seq<seq<Triplet>>, ghost good: seq<bool>) returns (r: Status)
      requires |Ts| == |good| == |streams| == heap.Length && Separate(streams) && AllSorted(Ts)
      requires currentHeapSize == 0 && lastTransferred.chunkId == -1
      requires forall k: nat :: k < |streams| ==> streams[k].Fresh() && Yields(streams[k].TheWalk(), Ts[k], good[k])
      modifies heap, `currentHeapSize
      modifies streams, (set s | s in streams :: s.nextsBuf), (set s | s in streams :: s.curBuf)
      ensures r == FAILURE ==> AllDrained(Ts) || exists k: nat :: k < |good| && !good[k]
      ensures r != FAILURE ==>
                && r == SUCCESS && currentHeapSize > 0 && Between(Ts, None(Ts), Ts)
                && DrainedGood(Ts, good, |Ts|)
                && forall k: nat :: k < |streams| ==>
                     Fed(streams[k], Rests(Ts)[k], good[k], Outs(Ts, None(Ts), lastTransferred)[k])
    {
      hide Fed, Starts, Separate, AllSorted, Rests, HeapOf, Yields, ChunkStream.Fresh, Outs, Between, AllDrained,
        DrainedGood;
      FillAll(Ts, good);
      r := FillHeap(Ts, good);
      if r == FAILURE {
        return;
      }
      EmptyHeapIsDrained(heap[..currentHeapSize], Ts);
      if currentHeapSize == 0 {
        return FAILURE;
      }
      NothingPut(Ts, lastTransferred);
      StartsBetween(Ts);
    }

    lemma StartsBetween(Ts: seq<seq<Triplet>>)
      requires |Ts| == |streams| == heap.Length && Separate(streams) && AllSorted(Ts)
      requires currentHeapSize <= heap.Length && HeapOf(heap[..currentHeapSize], Ts) && lastTransferred.chunkId == -1
      ensures Between(Ts, None(Ts), Ts)
    {
    }

    // ---- merge_runs ----

    /** One iteration of the loop of merge_runs. */
    method Transfer(ghost Ts: seq<seq<Triplet>>, ghost D: seq<seq<Triplet>>, ghost R: seq<seq<Triplet>>,
                    ghost good: seq<bool>)
      returns (r: Status, ghost c: nat)
      requires Between(Ts, D, R) && currentHeapSize > 0 && |good| == |streams|
      requires forall k: nat :: k < |streams| ==>
                 Fed(streams[k], Rests(R)[k], good[k], Outs(Ts, D, lastTransferred)[k])
      modifies this, heap
      modifies streams, (set s | s in streams :: s.nextsBuf), (set s | s in streams :: s.curBuf)
      ensures c < |R| && R[c] != []
      ensures r == FAILURE ==> !good[c]
      ensures r != FAILURE ==> Between(Ts, Taken(D, R, c), Advance(R, c)) && (|R[c]| == 1 ==> good[c])
      ensures r != FAILURE ==> lastTransferred == Head(R, c) && AllAfter(R, lastTransferred)
      ensures r != FAILURE ==> forall k: nat :: k < |streams| ==>
                Fed(streams[k], Rests(Advance(R, c))[k], good[k],
                    Outs(Ts, Taken(D, R, c), if currentHeapSize == 0 then NOTHING else lastTransferred)[k])
    {
      hide Fed, Separate, AllSorted, Cut, Rests, HeapOf, Outs, Pending, AllAbove, AllAfter, Head;
      var smallest;
      r, smallest, c := TakeTop(Ts, D, R, good);
      if r != FAILURE {
        Deliver(smallest, c, Ts, D, R, good);
      }
    }

    /** Flush what remains in each chunk's overlay. */
    method FlushAll(ghost rests: seq<seq<Triplet>>, ghost good: seq<bool>, ghost outs: seq<seq<Run>>)
      requires |streams| == |rests| == |good| == |outs| && Separate(streams)
      requires forall k: nat :: k < |streams| ==> Fed(streams[k], rests[k], good[k], outs[k])
      modifies streams
      ensures forall k: nat :: k < |streams| ==> streams[k].outFile == EncodeAll(outs[k])
    {
      hide EncodeAll, Yields, ChunkStream.NextsValid, ChunkStream.CurrentsValid;
      for i := 0 to |streams|
        invariant forall k: nat :: k < i ==> streams[k].outFile == EncodeAll(outs[k])
        invariant forall k: nat :: i <= k < |streams| ==> Fed(streams[k], rests[k], good[k], outs[k])
      {
        streams[i].FlushOutput();
      }
    }

    lemma BetweenStarts(Ts: seq<seq<Triplet>>)
      requires Between(Ts, None(Ts), Ts) && currentHeapSize > 0
      ensures !AllDrained(Ts)
    {
      EmptyHeapIsDrained(heap[..currentHeapSize], Ts);
    }

    /** When the heap is empty everything has been taken. */
    lemma PassDone(Ts: seq<seq<Triplet>>, D: seq<seq<Triplet>>, R: seq<seq<Triplet>>)
      requires Between(Ts, D, R) && currentHeapSize == 0
      ensures AllDrained(R) && D == Ts
      ensures forall k: nat :: k < |Ts| ==> Outs(Ts, D, NOTHING)[k] == ResolveAll(Ts, Ts[k])
    {
      hide Outs;
      EmptyHeapIsDrained(heap[..currentHeapSize], R);
      AllTaken(Ts, D, R);
    }

    /** The main loop: everything is taken, in order, and put but for what still lies in the buffers. */
    method RunPass(ghost Ts: seq<seq<Triplet>>, ghost good: seq<bool>)
      returns (r: Status, ghost popped: seq<HeapElement>, ghost R: seq<seq<Triplet>>)
      requires |Ts| == |good| == |streams| && DrainedGood(Ts, good, |Ts|)
      requires currentHeapSize > 0 && Between(Ts, None(Ts), Ts)
      requires forall k: nat :: k < |streams| ==>
                 Fed(streams[k], Rests(Ts)[k], good[k], Outs(Ts, None(Ts), lastTransferred)[k])
      modifies this, heap
      modifies streams, (set s | s in streams :: s.nextsBuf), (set s | s in streams :: s.curBuf)
      ensures r == FAILURE ==> exists k: nat :: k < |good| && !good[k]
      ensures r != FAILURE ==> |R| == |streams| && forall k: nat :: k < |good| ==> good[k]
      ensures r != FAILURE ==> forall k: nat :: k < |streams| ==>
                Fed(streams[k], Rests(R)[k], good[k], ResolveAll(Ts, Ts[k]))
      ensures r != FAILURE ==> InOrder(popped) && TakenAre(popped, Ts) && multiset(popped) == UnionOf(Ts, |Ts|)
    {
      hide Fed, Rests, HeapOf, Outs, Between, ResolveAll, InOrder, TakenAre, PoppedSoFar, AllAfter, UnionOf;
      ghost var D := None(Ts);
      r, popped, R := SUCCESS, [], Ts;
      PoppedStart(D, R);
      while currentHeapSize > 0
        invariant |D| == |R| == |streams| && Between(Ts, D, R) && PoppedSoFar(popped, D, R) && r != FAILURE
        invariant DrainedGood(R, good, |R|)
        invariant forall k: nat :: k < |streams| ==>
                    Fed(streams[k], Rests(R)[k], good[k],
                        Outs(Ts, D, if currentHeapSize == 0 then NOTHING else lastTransferred)[k])
        decreases Size(R)
      {
        ghost var c;
        r, c := Transfer(Ts, D, R, good);
        if r == FAILURE {
          return;
        }
        SizeDrops(R, c);
        PoppedNext(popped, D, R, c, lastTransferred);
        popped := popped + [lastTransferred];
        D, R := Taken(D, R, c), Advance(R, c);
      }
      PassDone(Ts, D, R);
      PoppedAll(popped, D, R);
    }

    /** Which streams can be merged, from the files they are opened on. */
    lemma StreamsDecide(Ts: seq<seq<Triplet>>, good: seq<bool>)
      requires |Ts| == |good| == |streams|
      requires forall k: nat :: k < |streams| ==> streams[k].Fresh() && Yields(streams[k].TheWalk(), Ts[k], good[k])
      ensures !AllDrained(Ts) && (forall k: nat :: k < |good| ==> good[k]) <==>
                (exists k: nat :: k < |streams| && streams[k].nextsAhead != []) &&
                forall k: nat :: k < |streams| ==> FilesAgree(streams[k].nextsAhead, streams[k].currentsAhead)
    {
      hide Yields, FilesAgree, AllDrained, ChunkStream.Valid;
      var walks := seq(|streams|, k requires 0 <= k < |streams| reads streams => streams[k].TheWalk());
      FamilyDecides(walks, Ts, good);
      assert forall k: nat :: k < |streams| ==>
                walks[k].nexts == streams[k].nextsAhead && walks[k].currents == streams[k].currentsAhead;
    }

    /** merge_runs: it succeeds exactly when some chunk has a triplet and every stream is well formed,
        that is some nexts file has a record, none is cut off, and no currents file is too short;
        and then global_<id> holds the resolved record of every triplet of the chunk, in its order.
        popped is what the loop peeked at the top of the heap: all triplets of all chunks, sorted. */
    method MergeRuns(ghost Ts: seq<seq<Triplet>>, ghost good: seq<bool>)
      returns (r: Status, ghost popped: seq<HeapElement>)
      requires |Ts| == |good| == |streams| == heap.Length && Separate(streams) && AllSorted(Ts)
      requires currentHeapSize == 0 && lastTransferred.chunkId == -1
      requires forall k: nat :: k < |streams| ==> streams[k].Fresh() && Yields(streams[k].TheWalk(), Ts[k], good[k])
      modifies this, heap
      modifies streams, (set s | s in streams :: s.nextsBuf), (set s | s in streams :: s.curBuf)
      ensures r == if !AllDrained(Ts) && (forall k: nat :: k < |good| ==> good[k]) then SUCCESS else FAILURE
      ensures r == SUCCESS <==>
                (exists k: nat :: k < |streams| && old(streams[k].nextsAhead) != []) &&
                forall k: nat :: k < |streams| ==>
                  FilesAgree(old(streams[k].nextsAhead), old(streams[k].currentsAhead))
      ensures r == SUCCESS ==> forall k: nat :: k < |streams| ==>
                streams[k].outFile == EncodeAll(ResolveAll(Ts, Ts[k]))
      ensures r == SUCCESS ==> InOrder(popped) && TakenAre(popped, Ts) && multiset(popped) == UnionOf(Ts, |Ts|)
    {
      hide Fed, AllSorted, Rests, HeapOf, Yields, ChunkStream.Fresh, Outs, Between, EncodeAll, Separate, DrainedGood,
        AllDrained, InOrder, TakenAre, UnionOf;
      StreamsDecide(Ts, good);
      hide FilesAgree;
      popped := [];
      r := InitMerge(Ts, good);
      if r == FAILURE {
        return;
      }
      BetweenStarts(Ts);
      ghost var R;
      r, popped, R := RunPass(Ts, good);
      if r == FAILURE {
        return;
      }
      ghost var outs := seq(|Ts|, k requires 0 <= k < |Ts| => ResolveAll(Ts, Ts[k]));
      FlushAll(Rests(R), good, outs);
      r := SUCCESS;
    }
  }
}
