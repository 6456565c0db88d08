/** The joint walk of merge (src/merge.c:222-304) over the records still ahead of it: two run-length
    forms of the same suffix array are cut into (current, next, count) triplets. */
module JointWalk {
  import opened RunLength

  datatype Triplet = Triplet(cur: nat, next: nat, count: nat)

  /** What is left of the current currents-run and the current nexts-run. */
  datatype Cursor = Cursor(curRank: nat, curRem: nat, nextRank: nat, nextRem: nat)

  /** The walk: the records ahead in the two streams, and the cursor. */
  datatype Walk = Walk(nexts: seq<RankRun>, currents: seq<RankRun>, cursor: Cursor)

  datatype WalkStep = Done | Failed | Step(t: Triplet, after: Walk)

  const START := Cursor(0, 0, 0, 0)

  function Take(w: Walk): WalkStep {
    var k := w.cursor;
    var take := if k.curRem < k.nextRem then k.curRem else k.nextRem;
    Step(Triplet(k.curRank, k.nextRank, take),
         w.(cursor := k.(curRem := k.curRem - take, nextRem := k.nextRem - take)))
  }

  function LoadCurrent(w: Walk): WalkStep {
    if w.cursor.curRem != 0 then Take(w)
    else match DecodeOne(w.currents)
      case Got(run, rest) => Take(w.(currents := rest, cursor := w.cursor.(curRank := run.rank, curRem := run.count)))
      case _ => Failed
  }

  /** next_triplet: the nexts stream is asked first, so a chunk without nexts never touches its
      currents; currents that end early, or a cut-off escape, are failures. */
  function NextStep(w: Walk): WalkStep {
    if w.cursor.nextRem != 0 then LoadCurrent(w)
    else match DecodeOne(w.nexts)
      case Drained => Done
      case Truncated => Failed
      case Got(run, rest) =>
        LoadCurrent(w.(nexts := rest, cursor := w.cursor.(nextRank := run.rank, nextRem := run.count)))
  }

  /** The walk yields exactly the triplets ts and is then done, or fails when good is false. */
  ghost predicate Yields(w: Walk, ts: seq<Triplet>, good: bool)
    decreases ts
  {
    if ts == [] then NextStep(w) == if good then Done else Failed
    else NextStep(w).Step? && NextStep(w).t == ts[0] && Yields(NextStep(w).after, ts[1..], good)
  }

  /** Every walk ends, whatever records it is given. */
  lemma {:induction false} WalkEnds(w: Walk) returns (ts: seq<Triplet>, good: bool)
    ensures Yields(w, ts, good)
    decreases 2 * (|w.nexts| + |w.currents|) +
              (if w.cursor.curRem > 0 then 1 else 0) + (if w.cursor.nextRem > 0 then 1 else 0)
  {
    match NextStep(w)
    case Done => ts, good := [], true;
    case Failed => ts, good := [], false;
    case Step(t, after) =>
      var rest;
      rest, good := WalkEnds(after);
      ts := [t] + rest;
      assert ts[1..] == rest;
  }

  /** So every family of stream pairs, well formed or not, stands for some family of triplet lists. */
  lemma StreamsYield(nexts: seq<seq<RankRun>>, currents: seq<seq<RankRun>>)
      returns (Ts: seq<seq<Triplet>>, good: seq<bool>)
    requires |nexts| == |currents|
    ensures |Ts| == |good| == |nexts|
    ensures forall c: nat :: c < |Ts| ==> Yields(Walk(nexts[c], currents[c], START), Ts[c], good[c])
  {
    Ts, good := [], [];
    while |Ts| < |nexts|
      invariant |Ts| == |good| <= |nexts|
      invariant forall c: nat :: c < |Ts| ==> Yields(Walk(nexts[c], currents[c], START), Ts[c], good[c])
    {
      hide Yields;
      var ts, g := WalkEnds(Walk(nexts[|Ts|], currents[|Ts|], START));
      Ts, good := Ts + [ts], good + [g];
    }
  }

  // ---- the same walk on runs ----

  function DropFront(runs: seq<Run>, n: nat): seq<Run>
    requires runs != [] && n <= runs[0].count
  {
    if n == runs[0].count then runs[1..] else [Run(runs[0].rank, runs[0].count - n)] + runs[1..]
  }

  /** The common refinement of two run-length forms. */
  function JoinRuns(cu: seq<Run>, nx: seq<Run>): (ts: seq<Triplet>)
    decreases |cu| + |nx|
  {
    if cu == [] || nx == [] then []
    else
      var take := if cu[0].count < nx[0].count then cu[0].count else nx[0].count;
      [Triplet(cu[0].rank, nx[0].rank, take)] + JoinRuns(DropFront(cu, take), DropFront(nx, take))
  }

  /** The runs ahead of a reader: what is left of the current one, then what the records spell. */
  ghost function RunsAhead(recs: seq<RankRun>, rank: nat, rem: nat): seq<Run> {
    (if rem == 0 then [] else [Run(rank, rem)]) + Spelled(recs)
  }

  ghost function NextsAhead(w: Walk): seq<Run> {
    RunsAhead(w.nexts, w.cursor.nextRank, w.cursor.nextRem)
  }

  ghost function CurrentsAhead(w: Walk): seq<Run> {
    RunsAhead(w.currents, w.cursor.curRank, w.cursor.curRem)
  }

  /** How many runs without entries stand at the end. */
  ghost function EmptyAtEnd(runs: seq<Run>): nat {
    if |Expand(runs)| == 0 then |runs| else EmptyAtEnd(runs[1..])
  }

  /** The currents reach as far as the nexts. */
  ghost predicate Suffices(cu: seq<Run>, nx: seq<Run>) {
    |Expand(nx)| < |Expand(cu)| || (|Expand(nx)| == |Expand(cu)| && EmptyAtEnd(nx) <= EmptyAtEnd(cu))
  }

  lemma EmptyFront(runs: seq<Run>)
    ensures |Expand(runs)| == 0 && runs != [] ==> runs[0].count == 0 && |Expand(runs[1..])| == 0
    ensures runs == [] ==> Expand(runs) == [] && EmptyAtEnd(runs) == 0
  {
  }

  /** Dropping entries from the front moves nothing at the end, unless nothing but empty runs is there. */
  lemma DropFrontEnd(runs: seq<Run>, n: nat)
    requires runs != [] && n <= runs[0].count
    ensures |Expand(DropFront(runs, n))| == |Expand(runs)| - n
    ensures |Expand(runs)| > 0 ==> EmptyAtEnd(DropFront(runs, n)) == EmptyAtEnd(runs)
    ensures |Expand(runs)| == 0 ==> EmptyAtEnd(DropFront(runs, n)) == EmptyAtEnd(runs) - 1
  {
    DropFrontExpands(runs, n);
    EmptyFront(runs);
    EmptyFront(runs[1..]);
    if n < runs[0].count {
      assert DropFront(runs, n)[1..] == runs[1..];
    }
  }

  lemma SufficesNext(cu: seq<Run>, nx: seq<Run>)
    requires cu != [] && nx != []
    ensures var take := if cu[0].count < nx[0].count then cu[0].count else nx[0].count;
            Suffices(cu, nx) <==> Suffices(DropFront(cu, take), DropFront(nx, take))
  {
    var take := if cu[0].count < nx[0].count then cu[0].count else nx[0].count;
    DropFrontEnd(cu, take);
    DropFrontEnd(nx, take);
    hide Expand, EmptyAtEnd, DropFront;
  }

  lemma SufficesAtEnd(cu: seq<Run>, nx: seq<Run>)
    ensures nx == [] ==> Suffices(cu, nx)
    ensures nx != [] && cu == [] ==> !Suffices(cu, nx)
  {
    EmptyFront(nx);
    EmptyFront(cu);
  }

  /** Taking n entries of the run in hand. */
  lemma TakeFront(rest: seq<RankRun>, run: Run, n: nat)
    requires n <= run.count
    ensures RunsAhead(rest, run.rank, run.count - n) == DropFront([run] + Spelled(rest), n)
  {
    hide Spelled;
    assert ([run] + Spelled(rest))[1..] == Spelled(rest);
  }

  /** The currents run that the step works on. */
  ghost function CurrentLoaded(w: Walk): Walk {
    match DecodeOne(w.currents)
    case Got(run, rest) =>
      if w.cursor.curRem != 0 then w
      else w.(currents := rest, cursor := w.cursor.(curRank := run.rank, curRem := run.count))
    case _ => w
  }

  lemma LoadedCurrent(w: Walk)
    ensures var cu, v := CurrentsAhead(w), CurrentLoaded(w);
            && LoadCurrent(w) == (if cu == [] then Failed else Take(v))
            && v.nexts == w.nexts
            && v.cursor.nextRank == w.cursor.nextRank && v.cursor.nextRem == w.cursor.nextRem
            && (cu != [] ==> cu == [Run(v.cursor.curRank, v.cursor.curRem)] + Spelled(v.currents))
  {
    DecodeReads(w.currents);
    hide Spelled, CutOff, DecodeOne;
  }

  /** The step once a nexts run is in hand. */
  lemma LoadOnRuns(w: Walk)
    ensures var cu, n := CurrentsAhead(w), Run(w.cursor.nextRank, w.cursor.nextRem);
            var nx := [n] + Spelled(w.nexts);
            && (cu == [] ==> LoadCurrent(w) == Failed)
            && (cu != [] ==>
                  var take := if cu[0].count < n.count then cu[0].count else n.count;
                  && LoadCurrent(w).Step? && LoadCurrent(w).t == Triplet(cu[0].rank, n.rank, take)
                  && CurrentsAhead(LoadCurrent(w).after) == DropFront(cu, take)
                  && NextsAhead(LoadCurrent(w).after) == DropFront(nx, take)
                  && LoadCurrent(w).after.nexts == w.nexts)
  {
    LoadedCurrent(w);
    var n, cu, v := Run(w.cursor.nextRank, w.cursor.nextRem), CurrentsAhead(w), CurrentLoaded(w);
    hide LoadCurrent, CurrentLoaded, DropFront, Spelled;
    if cu != [] {
      var take := if cu[0].count < n.count then cu[0].count else n.count;
      TakeFront(w.nexts, n, take);
      TakeFront(v.currents, cu[0], take);
    }
  }

  /** One step on the runs ahead: it fails where the nexts file is cut or the currents have run out. */
  lemma StepOnRuns(w: Walk)
    ensures var cu, nx := CurrentsAhead(w), NextsAhead(w);
            && (nx == [] ==> NextStep(w) == if CutOff(w.nexts) then Failed else Done)
            && (nx != [] && cu == [] ==> NextStep(w) == Failed)
            && (nx != [] && cu != [] ==>
                  var take := if cu[0].count < nx[0].count then cu[0].count else nx[0].count;
                  && NextStep(w).Step? && NextStep(w).t == Triplet(cu[0].rank, nx[0].rank, take)
                  && CurrentsAhead(NextStep(w).after) == DropFront(cu, take)
                  && NextsAhead(NextStep(w).after) == DropFront(nx, take)
                  && (CutOff(NextStep(w).after.nexts) <==> CutOff(w.nexts)))
  {
    DecodeReads(w.nexts);
    hide Spelled, CutOff, DecodeOne, LoadCurrent, DropFront;
    if w.cursor.nextRem != 0 {
      LoadOnRuns(w);
    } else if DecodeOne(w.nexts).Got? {
      var run, rest := DecodeOne(w.nexts).run, DecodeOne(w.nexts).rest;
      assert NextsAhead(w) == [run] + Spelled(rest);
      LoadOnRuns(w.(nexts := rest, cursor := w.cursor.(nextRank := run.rank, nextRem := run.count)));
    }
  }

  /** What merge makes of any two files of records, wherever the cursor stands: the triplets are the
      common refinement of the runs they spell, and the walk fails exactly when the nexts file is cut off
      or the currents do not reach as far. */
  lemma {:induction false} WalkExactly(w: Walk)
    ensures Yields(w, JoinRuns(CurrentsAhead(w), NextsAhead(w)),
                   !CutOff(w.nexts) && Suffices(CurrentsAhead(w), NextsAhead(w)))
    decreases |CurrentsAhead(w)| + |NextsAhead(w)|
  {
    var cu, nx := CurrentsAhead(w), NextsAhead(w);
    StepOnRuns(w);
    SufficesAtEnd(cu, nx);
    hide NextStep, CurrentsAhead, NextsAhead, Suffices, CutOff, DropFront;
    if cu != [] && nx != [] {
      SufficesNext(cu, nx);
      DropFrontShorter(cu, nx);
      WalkExactly(NextStep(w).after);
    }
  }

  /** A walk yields one list of triplets and has one outcome. */
  lemma {:induction false} YieldsUnique(w: Walk, ts: seq<Triplet>, good: bool, ts': seq<Triplet>, good': bool)
    requires Yields(w, ts, good) && Yields(w, ts', good')
    ensures ts == ts' && good == good'
    decreases ts
  {
    if ts != [] && ts' != [] {
      hide NextStep;
      YieldsUnique(NextStep(w).after, ts[1..], good, ts'[1..], good');
    }
  }

  lemma NoEmptyEnd(runs: seq<Run>)
    requires Positive(runs)
    ensures EmptyAtEnd(runs) == 0
    decreases |runs|
  {
    if runs != [] {
      ExpandNonEmpty(runs);
      NoEmptyEnd(runs[1..]);
    }
  }

  /** The files of a chunk can be merged: none is cut where it is read, and the currents suffice. */
  ghost predicate FilesAgree(nexts: seq<RankRun>, currents: seq<RankRun>) {
    !CutOff(nexts) && Suffices(Spelled(currents), Spelled(nexts))
  }

  /** The outcome of a chunk, from its two files. */
  lemma FilesDecide(nexts: seq<RankRun>, currents: seq<RankRun>, ts: seq<Triplet>, good: bool)
    requires Yields(Walk(nexts, currents, START), ts, good)
    ensures good <==> FilesAgree(nexts, currents)
    ensures ts == JoinRuns(Spelled(currents), Spelled(nexts))
    ensures good ==> (ts == [] <==> nexts == [])
  {
    var w := Walk(nexts, currents, START);
    WalkExactly(w);
    YieldsUnique(w, ts, good, JoinRuns(CurrentsAhead(w), NextsAhead(w)),
                 !CutOff(w.nexts) && Suffices(CurrentsAhead(w), NextsAhead(w)));
    assert CurrentsAhead(w) == Spelled(currents) && NextsAhead(w) == Spelled(nexts);
    SufficesAtEnd(Spelled(currents), Spelled(nexts));
  }

  /** On encoded streams, as the program writes them: the merge of a chunk fails exactly when its nexts
      file ends in half a pair, or its nexts have more entries than its currents. */
  lemma EncodedDecide(nx: seq<Run>, tail: seq<RankRun>, cu: seq<Run>, ts: seq<Triplet>, good: bool)
    requires AllFit(cu) && AllFit(nx) && Positive(nx)
    requires tail == [] || (|tail| == 1 && tail[0].count == 0xff)
    requires Yields(Walk(EncodeAll(nx) + tail, EncodeAll(cu), START), ts, good)
    ensures good <==> tail == [] && |Expand(nx)| <= |Expand(cu)|
    ensures ts == JoinRuns(cu, nx)
  {
    EncodedSpells(nx, tail);
    EncodedSpells(cu, []);
    assert EncodeAll(cu) + [] == EncodeAll(cu);
    FilesDecide(EncodeAll(nx) + tail, EncodeAll(cu), ts, good);
    NoEmptyEnd(nx);
  }

  /** Streams of equal length, as the loop keeps them, yield their common refinement and end well. */
  lemma WalkJoinsRuns(nexts: seq<RankRun>, currents: seq<RankRun>, cu: seq<Run>, nx: seq<Run>)
    requires AllFit(cu) && AllFit(nx) && Positive(nx)
    requires nexts == EncodeAll(nx) && currents == EncodeAll(cu) && |Expand(nx)| <= |Expand(cu)|
    ensures Yields(Walk(nexts, currents, START), JoinRuns(cu, nx), true)
  {
    var ts, good := WalkEnds(Walk(nexts, currents, START));
    assert nexts == EncodeAll(nx) + [];
    EncodedDecide(nx, [], cu, ts, good);
  }

  lemma ExpandNonEmpty(runs: seq<Run>)
    requires Positive(runs) && runs != []
    ensures |Expand(runs)| >= 1 && Expand(runs)[0] == runs[0].rank
  {
  }

  lemma DropFrontExpands(runs: seq<Run>, n: nat)
    requires runs != [] && n <= runs[0].count
    ensures |Expand(runs)| >= n && Expand(DropFront(runs, n)) == Expand(runs)[n..]
    ensures forall k :: 0 <= k < n ==> Expand(runs)[k] == runs[0].rank
  {
    var v, c, tail := runs[0].rank, runs[0].count, Expand(runs[1..]);
    assert Expand(runs) == Repeat(v, c) + tail;
    if n < c {
      var rest := [Run(v, c - n)] + runs[1..];
      assert rest[1..] == runs[1..];
      assert Expand(rest) == Repeat(v, c - n) + tail;
    }
    hide Expand;
    RepeatDrops(v, c, n, tail);
  }

  lemma RepeatDrops(v: nat, c: nat, n: nat, tail: seq<nat>)
    requires n <= c
    ensures (Repeat(v, c) + tail)[n..] == Repeat(v, c - n) + tail
    ensures n == c ==> Repeat(v, c - n) + tail == tail
  {
    assert Repeat(v, c)[n..] == Repeat(v, c - n);
  }

  // ---- what the triplets say ----

  function ExpandTriplets(ts: seq<Triplet>): seq<(nat, nat)> {
    if ts == [] then [] else seq(ts[0].count, _ => (ts[0].cur, ts[0].next)) + ExpandTriplets(ts[1..])
  }

  /** The pairs, as far as both sequences reach. */
  function Zip(a: seq<nat>, b: seq<nat>): (z: seq<(nat, nat)>)
    ensures |z| == if |a| < |b| then |a| else |b|
  {
    seq(if |a| < |b| then |a| else |b|, k requires 0 <= k < |a| && k < |b| => (a[k], b[k]))
  }

  ghost predicate PositiveTriplets(ts: seq<Triplet>) {
    forall k: nat :: k < |ts| ==> ts[k].count >= 1
  }

  lemma ZipConstantFront(a: seq<nat>, b: seq<nat>, n: nat, v: nat, w: nat)
    requires n <= |a| && n <= |b|
    requires forall k :: 0 <= k < n ==> a[k] == v
    requires forall k :: 0 <= k < n ==> b[k] == w
    ensures Zip(a, b) == seq(n, _ => (v, w)) + Zip(a[n..], b[n..])
  {
  }

  lemma DropFrontPositive(runs: seq<Run>, n: nat)
    requires Positive(runs) && runs != [] && n <= runs[0].count
    ensures Positive(DropFront(runs, n))
  {
  }

  /** The triplets are a run-length form of the zipped sequences; so where both are the entries of one
      list their counts add up to its length. */
  lemma {:induction false} JoinRunsZips(cu: seq<Run>, nx: seq<Run>)
    ensures ExpandTriplets(JoinRuns(cu, nx)) == Zip(Expand(cu), Expand(nx))
    decreases |cu| + |nx|
  {
    if cu != [] && nx != [] {
      hide Expand, DropFront;
      var take := if cu[0].count < nx[0].count then cu[0].count else nx[0].count;
      DropFrontExpands(cu, take);
      DropFrontExpands(nx, take);
      DropFrontShorter(cu, nx);
      JoinRunsZips(DropFront(cu, take), DropFront(nx, take));
      ZipConstantFront(Expand(cu), Expand(nx), take, cu[0].rank, nx[0].rank);
    }
  }

  lemma {:induction false} JoinRunsPositive(cu: seq<Run>, nx: seq<Run>)
    requires Positive(cu) && Positive(nx)
    ensures PositiveTriplets(JoinRuns(cu, nx))
    decreases |cu| + |nx|
  {
    if cu != [] && nx != [] {
      var take := if cu[0].count < nx[0].count then cu[0].count else nx[0].count;
      DropFrontPositive(cu, take);
      DropFrontPositive(nx, take);
      JoinRunsPositive(DropFront(cu, take), DropFront(nx, take));
    }
  }

  lemma DropFrontShorter(cu: seq<Run>, nx: seq<Run>)
    requires cu != [] && nx != []
    ensures var take := if cu[0].count < nx[0].count then cu[0].count else nx[0].count;
            |DropFront(cu, take)| + |DropFront(nx, take)| < |cu| + |nx|
  {
  }

  lemma DropFrontMaximal(runs: seq<Run>, n: nat)
    requires MaximalRuns(runs) && runs != [] && n <= runs[0].count
    ensures MaximalRuns(DropFront(runs, n))
  {
  }

  /** When both forms are maximal, neighbouring triplets differ: no run is cut without need. */
  lemma {:induction false} JoinRunsMaximal(cu: seq<Run>, nx: seq<Run>, k: nat)
    requires MaximalRuns(cu) && MaximalRuns(nx) && k + 1 < |JoinRuns(cu, nx)|
    ensures var ts := JoinRuns(cu, nx); ts[k].cur != ts[k + 1].cur || ts[k].next != ts[k + 1].next
    decreases |cu| + |nx|
  {
    var take := if cu[0].count < nx[0].count then cu[0].count else nx[0].count;
    DropFrontMaximal(cu, take);
    DropFrontMaximal(nx, take);
    if k > 0 {
      JoinRunsMaximal(DropFront(cu, take), DropFront(nx, take), k - 1);
    } else {
      assert take == cu[0].count && |cu| > 1 ==> cu[1].rank != cu[0].rank;
      assert take == nx[0].count && |nx| > 1 ==> nx[1].rank != nx[0].rank;
    }
  }
}
