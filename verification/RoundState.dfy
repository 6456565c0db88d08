/** What the files hold between two rounds of the doubling loop, and that one round carries it from L to 2L. */
module RoundState {
  import opened Arithmetic
  import opened SuffixOrder
  import opened Chunks
  import opened RunLength
  import opened JointWalk
  import opened Resolution
  import opened Doubling
  import opened Refine
  import opened Update
  import opened Rounds

  /** The currents stream is the encoding of the maximal runs that spell the current ranks in list order. */
  ghost predicate CurrentsSpell(currents: seq<RankRun>, cu: seq<Run>, ranks: seq<nat>, sa: seq<nat>) {
    && (forall k: nat :: k < |sa| ==> sa[k] < |ranks|)
    && currents == EncodeAll(cu) && MaximalRuns(cu) && AllFit(cu) && Expand(cu) == Gather(ranks, sa)
  }

  /** Between rounds, at prefix length L, for chunk c: the list is in suffix order and covers every
      position whose rank is shared; the currents stream and the window belong to it. */
  ghost predicate ChunkState(t: seq<int>, S: nat, L: nat, c: nat, ranks: seq<nat>, sa: seq<nat>, cu: seq<Run>,
                             currents: seq<RankRun>, lo: int, hi: int) {
    && Global(S, c, |ranks|) <= |t| && |sa| <= S
    && SuffixSorted(t, Global(S, c, 0), sa) && CurrentsSpell(currents, cu, ranks, sa)
    && (forall p: nat :: p < |ranks| && !Unique(t, L, Global(S, c, p)) ==> p in sa)
    && InWindow(sa, lo, hi) && (lo <= hi ==> 0 <= lo && hi < |ranks|)
  }

  /** The state of the whole loop. */
  ghost predicate LoopState(t: seq<int>, S: nat, L: nat, rank: seq<nat>, ranks: seq<seq<nat>>, sas: seq<seq<nat>>,
                            cus: seq<seq<Run>>, currents: seq<seq<RankRun>>, lo: seq<int>, hi: seq<int>) {
    && IsText(t) && |t| <= I40_LIMIT && 1 <= S <= INT_MAX
    && RanksAt(t, L, rank) && Holds(ranks, S, rank)
    && |ranks| == |sas| == |cus| == |currents| == |lo| == |hi|
    && forall c: nat :: c < |ranks| ==> ChunkState(t, S, L, c, ranks[c], sas[c], cus[c], currents[c], lo[c], hi[c])
  }

  lemma SortedIsDistinct(t: seq<int>, b: nat, sa: seq<nat>)
    requires SuffixSorted(t, b, sa)
    ensures Distinct(sa)
  {
    forall i: nat, j: nat | i < j < |sa| ensures sa[i] != sa[j] {
      LessTotal(t, |t|, b + sa[i], b + sa[j]);
    }
  }

  lemma RanksBounded(t: seq<int>, L: nat, rank: seq<nat>)
    requires RanksAt(t, L, rank) && |t| <= I40_LIMIT
    ensures Bounded(rank)
  {
    forall i: nat | i < |rank| ensures rank[i] < I40_LIMIT {
      RankBelowLength(t, L, i);
    }
  }

  // ---- the round, set up from the files ----

  /** The lists that take part in the round. */
  ghost function ActiveLists(sas: seq<seq<nat>>, L: nat, S: nat): (act: seq<seq<nat>>)
    requires S >= 1
    ensures |act| == |sas|
  {
    seq(|sas|, c requires 0 <= c < |sas| => if LocateNextRank(L, S, c, |sas|).isEmpty then [] else sas[c])
  }

  /** The next ranks in the buffers, by global position. */
  ghost function GlobalNexts(bufs: seq<seq<nat>>, S: nat, N: nat): (nxt: seq<nat>)
    requires S >= 1
    ensures |nxt| == N
  {
    seq(N, g requires 0 <= g < N => if g / S < |bufs| && g % S < |bufs[g / S]| then bufs[g / S][g % S] else 0)
  }

  lemma GlobalNextAt(bufs: seq<seq<nat>>, S: nat, N: nat, c: nat, p: nat)
    requires S >= 1 && c < |bufs| && p < |bufs[c]| && p < S && Global(S, c, p) < N
    ensures GlobalNexts(bufs, S, N)[Global(S, c, p)] == bufs[c][p]
  {
    DivModUnique(Global(S, c, p), S, c, p);
  }

  /** The triplets of one chunk. */
  ghost function ChunkTriplets(cu: seq<Run>, buf: seq<nat>, sa: seq<nat>): seq<Triplet>
    requires forall k: nat :: k < |sa| ==> sa[k] < |buf|
  {
    JoinRuns(cu, RunsOf(Gather(buf, sa)))
  }

  /** On the live list the pairs that the buffers give are those of the global tables. */
  lemma ListAgrees(t: seq<int>, S: nat, L: nat, rank: seq<nat>, ranks: seq<seq<nat>>, bufs: seq<seq<nat>>, c: nat,
                   sa: seq<nat>, cu: seq<Run>, currents: seq<RankRun>, lo: int, hi: int)
    requires 1 <= S && Holds(ranks, S, rank) && |rank| == |t| && c < |ranks| == |bufs| && |bufs[c]| == S
    requires ChunkState(t, S, L, c, ranks[c], sa, cu, currents, lo, hi)
    ensures Agrees(rank, GlobalNexts(bufs, S, |t|), S, c, ranks[c], bufs[c], sa)
    ensures Distinct(sa) && forall k: nat :: k < |sa| ==> sa[k] < S
  {
    SortedIsDistinct(t, Global(S, c, 0), sa);
    ChunkStretch(ranks, S, rank, c);
    forall k: nat | k < |sa|
      ensures sa[k] < |ranks[c]| && sa[k] < |bufs[c]| && Global(S, c, sa[k]) < |rank|
      ensures rank[Global(S, c, sa[k])] == ranks[c][sa[k]]
      ensures GlobalNexts(bufs, S, |t|)[Global(S, c, sa[k])] == bufs[c][sa[k]]
    {
      GlobalNextAt(bufs, S, |t|, c, sa[k]);
    }
  }

  lemma GatherBounds(buf: seq<nat>, sa: seq<nat>)
    requires (forall k: nat :: k < |sa| ==> sa[k] < |buf|) && Bounded(buf) && |sa| <= INT_MAX
    ensures AllFit(RunsOf(Gather(buf, sa)))
  {
    var runs, values := RunsOf(Gather(buf, sa)), Gather(buf, sa);
    forall k: nat | k < |runs| ensures Fits(runs[k]) {
      RunsOfBounds(values, k);
      var i: nat :| i < |values| && values[i] == runs[k].rank;
    }
  }

  /** The streams of an active chunk yield its triplets, and those stand for the pairs of its list. */
  lemma StreamsOfChunk(cu: seq<Run>, currents: seq<RankRun>, nexts: seq<RankRun>, ranks: seq<nat>, buf: seq<nat>,
                       sa: seq<nat>)
    requires CurrentsSpell(currents, cu, ranks, sa) && |sa| <= INT_MAX && Bounded(buf)
    requires NextsWritten(nexts, buf, sa) && sa != []
    ensures forall k: nat :: k < |sa| ==> sa[k] < |buf|
    ensures Yields(Walk(nexts, currents, START), ChunkTriplets(cu, buf, sa), true)
    ensures ExpandTriplets(ChunkTriplets(cu, buf, sa)) == PairsOf(ranks, buf, sa)
    ensures PositiveTriplets(ChunkTriplets(cu, buf, sa)) && NeighboursDiffer(ChunkTriplets(cu, buf, sa))
  {
    var nx := RunsOf(Gather(buf, sa));
    GatherBounds(buf, sa);
    RunsOfExpands(Gather(buf, sa));
    RunsOfMaximal(Gather(buf, sa));
    hide NeighboursDiffer, JoinRuns;
    WalkJoinsRuns(nexts, currents, cu, nx);
    JoinRunsZips(cu, nx);
    JoinRunsPositive(cu, nx);
    TripletsDiffer(cu, nx);
  }

  lemma TripletsDiffer(cu: seq<Run>, nx: seq<Run>)
    requires MaximalRuns(cu) && MaximalRuns(nx)
    ensures NeighboursDiffer(JoinRuns(cu, nx))
  {
    var ts := JoinRuns(cu, nx);
    hide MaximalRuns, JoinRuns;
    forall i: nat, j: nat | i + 1 == j < |ts| ensures !SamePair(ts[i], ts[j]) {
      JoinRunsMaximal(cu, nx, i);
    }
  }

  lemma IdleStreams(currents: seq<RankRun>)
    ensures Yields(Walk([], currents, START), [], true)
  {
  }

  /** Triplets whose entries are sorted by pair are sorted. */
  lemma SortedTriplets(ts: seq<Triplet>, z: seq<(nat, nat)>)
    requires PositiveTriplets(ts) && ExpandTriplets(ts) == z
    requires forall i: nat, j: nat :: i < j < |z| ==> z[i].0 < z[j].0 || (z[i].0 == z[j].0 && z[i].1 <= z[j].1)
    ensures Sorted(ts)
  {
    hide PositiveTriplets, ExpandTriplets;
    forall i: nat, j: nat | i < j < |ts| ensures PairLe(ts[i], ts[j]) {
      var m, l := TripletEntries(ts, z, i, j);
      assert z[m].0 < z[l].0 || (z[m].0 == z[l].0 && z[m].1 <= z[l].1);
    }
  }

  /** The live positions of the round cover every shared rank: a chunk that refine calls EMPTY has none. */
  lemma ListsCover(t: seq<int>, S: nat, L: nat, rank: seq<nat>, ranks: seq<seq<nat>>, sas: seq<seq<nat>>,
                   cus: seq<seq<Run>>, currents: seq<seq<RankRun>>, lo: seq<int>, hi: seq<int>, i: nat)
    requires LoopState(t, S, L, rank, ranks, sas, cus, currents, lo, hi)
    requires i < |t| && !Unique(t, L, i)
    ensures i in LivePositions(ActiveLists(sas, L, S), S)
  {
    var act := ActiveLists(sas, L, S);
    var c, p := ChunkOfPosition(S, i);
    PositionInChunk(ranks, S, rank, c, p);
    assert ChunkState(t, S, L, c, ranks[c], sas[c], cus[c], currents[c], lo[c], hi[c]);
    var j: nat :| j < |t| && j != i && PrefixEq(t, L, j, i);
    TieEndsBeforeSentinel(t, L, j, i);
    if LocateNextRank(L, S, c, |ranks|).isEmpty {
      EmptyChunkPastEnd(L, S, c, p, ranks, rank);
    }
    assert p in act[c];
    LiveFromMembers(act, S, 0, i);
  }

  /** The buffer holds the right next rank of a listed position of an active chunk. */
  lemma ListedNextRight(t: seq<int>, S: nat, L: nat, rank: seq<nat>, ranks: seq<seq<nat>>, c: nat, sa: seq<nat>,
                        cu: seq<Run>, currents: seq<RankRun>, lo: int, hi: int, nexts: seq<RankRun>,
                        bufs: seq<seq<nat>>, k: nat)
    requires 1 <= S && Holds(ranks, S, rank) && |rank| == |t| && c < |ranks| == |bufs|
    requires ChunkState(t, S, L, c, ranks[c], sa, cu, currents, lo, hi)
    requires ChunkRefined(ranks, rank, sa, lo, hi, L, S, c, nexts, bufs[c])
    requires !LocateNextRank(L, S, c, |ranks|).isEmpty && k < |sa|
    ensures var g := Global(S, c, sa[k]); g < |t| && (g + L < |t| ==> GlobalNexts(bufs, S, |t|)[g] == rank[g + L])
  {
    ListAgrees(t, S, L, rank, ranks, bufs, c, sa, cu, currents, lo, hi);
    hide Holds, SuffixSorted, CurrentsSpell, GlobalNexts, Unique, NextsWritten, Bounded;
    assert lo <= sa[k] <= hi;
  }

  /** Every live position of the round lies in the text and has the right next rank. */
  lemma ListsRight(t: seq<int>, S: nat, L: nat, rank: seq<nat>, ranks: seq<seq<nat>>, sas: seq<seq<nat>>,
                   cus: seq<seq<Run>>, currents: seq<seq<RankRun>>, lo: seq<int>, hi: seq<int>,
                   nexts: seq<seq<RankRun>>, bufs: seq<seq<nat>>, g: nat)
    requires LoopState(t, S, L, rank, ranks, sas, cus, currents, lo, hi) && |nexts| == |bufs| == |ranks|
    requires forall c: nat :: c < |ranks| ==>
               ChunkRefined(ranks, rank, sas[c], lo[c], hi[c], L, S, c, nexts[c], bufs[c])
    requires g in LivePositions(ActiveLists(sas, L, S), S)
    ensures g < |t| && (g + L < |t| ==> GlobalNexts(bufs, S, |t|)[g] == rank[g + L])
  {
    hide ChunkState, ChunkRefined, Holds, GlobalNexts, Rank;
    var act := ActiveLists(sas, L, S);
    LiveFromMembers(act, S, 0, g);
    var c: nat, p: nat :| c < |act| && p in act[c] && g == Global(S, c, p);
    assert act[c] == sas[c];
    var k: nat :| k < |sas[c]| && sas[c][k] == p;
    ListedNextRight(t, S, L, rank, ranks, c, sas[c], cus[c], currents[c], lo[c], hi[c], nexts[c], bufs, k);
  }

  /** The pairs along a list never fall. */
  lemma PairsSorted(t: seq<int>, S: nat, L: nat, rank: seq<nat>, nxt: seq<nat>, act: seq<seq<nat>>, c: nat,
                    ranks: seq<nat>, buf: seq<nat>)
    requires IsText(t) && RanksAt(t, L, rank) && c < |act| && Agrees(rank, nxt, S, c, ranks, buf, act[c])
    requires NextsAt(rank, L, nxt, LivePositions(act, S)) && LiveCovers(t, L, LivePositions(act, S))
    requires SuffixSorted(t, Global(S, c, 0), act[c])
    ensures var z := PairsOf(ranks, buf, act[c]);
            forall i: nat, j: nat :: i < j < |z| ==> z[i].0 < z[j].0 || (z[i].0 == z[j].0 && z[i].1 <= z[j].1)
  {
    var z, sa := PairsOf(ranks, buf, act[c]), act[c];
    forall i: nat, j: nat | i < j < |z| ensures z[i].0 < z[j].0 || (z[i].0 == z[j].0 && z[i].1 <= z[j].1) {
      var g, h := Global(S, c, sa[i]), Global(S, c, sa[j]);
      assert SuffixLess(t, Global(S, c, 0) + sa[i], Global(S, c, 0) + sa[j]);
      LiveFromMembers(act, S, 0, g);
      LiveFromMembers(act, S, 0, h);
      PairsFollowSuffixOrder(t, L, rank, nxt, LivePositions(act, S), g, h);
    }
  }

  /** What one chunk brings into the round. */
  ghost predicate ChunkReady(rank: seq<nat>, nxt: seq<nat>, S: nat, c: nat, ranks: seq<nat>, buf: seq<nat>,
                             sa: seq<nat>, nexts: seq<RankRun>, currents: seq<RankRun>, ts: seq<Triplet>) {
    && Agrees(rank, nxt, S, c, ranks, buf, sa) && Distinct(sa) && (forall k: nat :: k < |sa| ==> sa[k] < S)
    && ExpandTriplets(ts) == PairsOf(ranks, buf, sa) && PositiveTriplets(ts) && NeighboursDiffer(ts)
    && Yields(Walk(nexts, currents, START), ts, true)
  }

  /** The triplets of a chunk that takes part with the list act. */
  ghost function RoundTriplets(cu: seq<Run>, buf: seq<nat>, act: seq<nat>): seq<Triplet> {
    if act != [] && (forall k: nat :: k < |act| ==> act[k] < |buf|) then ChunkTriplets(cu, buf, act) else []
  }

  /** What the state of a chunk and its refined ranks say of the two streams. */
  lemma StreamParts(t: seq<int>, S: nat, L: nat, rank: seq<nat>, ranks: seq<seq<nat>>, c: nat, sa: seq<nat>,
                    cu: seq<Run>, currents: seq<RankRun>, lo: int, hi: int, nexts: seq<RankRun>, buf: seq<nat>,
                    act: seq<nat>)
    requires 1 <= S <= INT_MAX && Holds(ranks, S, rank) && c < |ranks|
    requires ChunkState(t, S, L, c, ranks[c], sa, cu, currents, lo, hi)
    requires ChunkRefined(ranks, rank, sa, lo, hi, L, S, c, nexts, buf)
    requires act == if LocateNextRank(L, S, c, |ranks|).isEmpty then [] else sa
    ensures |buf| == S
    ensures act == [] ==> nexts == []
    ensures act != [] ==>
              act == sa && |sa| <= INT_MAX && CurrentsSpell(currents, cu, ranks[c], sa) && Bounded(buf)
              && NextsWritten(nexts, buf, sa)
  {
    ChunkStretch(ranks, S, rank, c);
    SortedIsDistinct(t, Global(S, c, 0), sa);
  }

  lemma ChunkSetUp(t: seq<int>, S: nat, L: nat, rank: seq<nat>, ranks: seq<seq<nat>>, c: nat, sa: seq<nat>,
                   cu: seq<Run>, currents: seq<RankRun>, lo: int, hi: int, nexts: seq<RankRun>, bufs: seq<seq<nat>>,
                   act: seq<nat>)
    requires 1 <= S <= INT_MAX && Holds(ranks, S, rank) && |rank| == |t| && c < |ranks| == |bufs|
    requires ChunkState(t, S, L, c, ranks[c], sa, cu, currents, lo, hi)
    requires ChunkRefined(ranks, rank, sa, lo, hi, L, S, c, nexts, bufs[c])
    requires act == if LocateNextRank(L, S, c, |ranks|).isEmpty then [] else sa
    ensures ChunkReady(rank, GlobalNexts(bufs, S, |t|), S, c, ranks[c], bufs[c], act, nexts, currents,
                       RoundTriplets(cu, bufs[c], act))
  {
    StreamParts(t, S, L, rank, ranks, c, sa, cu, currents, lo, hi, nexts, bufs[c], act);
    ListAgrees(t, S, L, rank, ranks, bufs, c, sa, cu, currents, lo, hi);
    hide Holds, ChunkState, ChunkRefined, LocateNextRank, CurrentsSpell, NextsWritten, Bounded, GlobalNexts, Yields,
      ChunkTriplets;
    if act == [] {
      IdleStreams(currents);
    } else {
      StreamsOfChunk(cu, currents, nexts, ranks[c], bufs[c], sa);
    }
  }

  /** After refine the round is ready for merge: every stream yields its triplets, these are sorted, and
      their totals are those of the doubling step. */
  lemma RoundSetUp(t: seq<int>, S: nat, L: nat, rank: seq<nat>, ranks: seq<seq<nat>>, sas: seq<seq<nat>>,
                   cus: seq<seq<Run>>, currents: seq<seq<RankRun>>, lo: seq<int>, hi: seq<int>,
                   nexts: seq<seq<RankRun>>, bufs: seq<seq<nat>>)
    returns (Ts: seq<seq<Triplet>>)
    requires LoopState(t, S, L, rank, ranks, sas, cus, currents, lo, hi) && |nexts| == |bufs| == |ranks|
    requires forall c: nat :: c < |ranks| ==>
               ChunkRefined(ranks, rank, sas[c], lo[c], hi[c], L, S, c, nexts[c], bufs[c])
    ensures RoundReady(t, L, Ts, rank, GlobalNexts(bufs, S, |t|), S, ranks, bufs, ActiveLists(sas, L, S))
    ensures |Ts| == |ranks|
    ensures forall c: nat :: c < |ranks| ==>
              ChunkReady(rank, GlobalNexts(bufs, S, |t|), S, c, ranks[c], bufs[c], ActiveLists(sas, L, S)[c], nexts[c],
                         currents[c], Ts[c])
    ensures forall c: nat :: c < |ranks| ==> Sorted(Ts[c]) && PositiveTriplets(Ts[c])
  {
    Ts := seq(|ranks|, c requires 0 <= c < |ranks| => RoundTriplets(cus[c], bufs[c], ActiveLists(sas, L, S)[c]));
    forall c: nat | c < |ranks|
      ensures ChunkReady(rank, GlobalNexts(bufs, S, |t|), S, c, ranks[c], bufs[c], ActiveLists(sas, L, S)[c], nexts[c],
                         currents[c], Ts[c])
    {
      hide ChunkState, ChunkRefined, ChunkReady, Holds, RanksAt, IsText, RoundTriplets;
      ChunkSetUp(t, S, L, rank, ranks, c, sas[c], cus[c], currents[c], lo[c], hi[c], nexts[c], bufs,
                 ActiveLists(sas, L, S)[c]);
    }
    hide LoopState, ChunkRefined, ChunkReady, RoundReady, Sorted, PositiveTriplets, ActiveLists, GlobalNexts;
    RoundIsReady(t, S, L, rank, ranks, sas, cus, currents, lo, hi, nexts, bufs, Ts);
  }

  /** What the loop state says beside the state of each chunk. */
  lemma StateParts(t: seq<int>, S: nat, L: nat, rank: seq<nat>, ranks: seq<seq<nat>>, sas: seq<seq<nat>>,
                   cus: seq<seq<Run>>, currents: seq<seq<RankRun>>, lo: seq<int>, hi: seq<int>)
    requires LoopState(t, S, L, rank, ranks, sas, cus, currents, lo, hi)
    ensures IsText(t) && |t| <= I40_LIMIT && 1 <= S <= INT_MAX && RanksAt(t, L, rank) && Holds(ranks, S, rank)
    ensures |rank| == |t| && |ranks| == |sas| == |cus| == |currents| == |lo| == |hi|
  {
  }

  /** The live positions have the right next ranks and cover every shared rank. */
  lemma LiveIsRight(t: seq<int>, S: nat, L: nat, rank: seq<nat>, ranks: seq<seq<nat>>, sas: seq<seq<nat>>,
                    cus: seq<seq<Run>>, currents: seq<seq<RankRun>>, lo: seq<int>, hi: seq<int>,
                    nexts: seq<seq<RankRun>>, bufs: seq<seq<nat>>)
    requires LoopState(t, S, L, rank, ranks, sas, cus, currents, lo, hi) && |nexts| == |bufs| == |ranks|
    requires forall c: nat :: c < |ranks| ==>
               ChunkRefined(ranks, rank, sas[c], lo[c], hi[c], L, S, c, nexts[c], bufs[c])
    ensures var live := LivePositions(ActiveLists(sas, L, S), S);
            NextsAt(rank, L, GlobalNexts(bufs, S, |t|), live) && LiveCovers(t, L, live)
  {
    StateParts(t, S, L, rank, ranks, sas, cus, currents, lo, hi);
    hide LoopState, ChunkRefined, ActiveLists, GlobalNexts, LivePositions, Unique;
    var act, nxt := ActiveLists(sas, L, S), GlobalNexts(bufs, S, |t|);
    var live := LivePositions(act, S);
    forall g | g in live ensures g < |t| && (g + L < |t| ==> nxt[g] == rank[g + L]) {
      ListsRight(t, S, L, rank, ranks, sas, cus, currents, lo, hi, nexts, bufs, g);
    }
    forall i: nat | i < |t| && !Unique(t, L, i) ensures i in live {
      ListsCover(t, S, L, rank, ranks, sas, cus, currents, lo, hi, i);
    }
  }

  lemma ReadyRepresents(rank: seq<nat>, nxt: seq<nat>, S: nat, ranks: seq<seq<nat>>, bufs: seq<seq<nat>>,
                        act: seq<seq<nat>>, nexts: seq<seq<RankRun>>, currents: seq<seq<RankRun>>,
                        Ts: seq<seq<Triplet>>)
    requires |Ts| == |ranks| == |bufs| == |act| == |nexts| == |currents| && |nxt| == |rank|
    requires forall c: nat :: c < |ranks| ==>
               ChunkReady(rank, nxt, S, c, ranks[c], bufs[c], act[c], nexts[c], currents[c], Ts[c])
    ensures Represents(Ts, rank, nxt, S, ranks, bufs, act)
  {
    hide Agrees, Distinct, Yields, ExpandTriplets;
  }

  /** The triplets of one chunk are sorted. */
  lemma ChunkIsSorted(t: seq<int>, S: nat, L: nat, rank: seq<nat>, nxt: seq<nat>, ranks: seq<seq<nat>>,
                      sas: seq<seq<nat>>, cus: seq<seq<Run>>, currents: seq<seq<RankRun>>, lo: seq<int>, hi: seq<int>,
                      nexts: seq<seq<RankRun>>, bufs: seq<seq<nat>>, Ts: seq<seq<Triplet>>, c: nat)
    requires LoopState(t, S, L, rank, ranks, sas, cus, currents, lo, hi) && |nexts| == |bufs| == |ranks| == |Ts|
    requires c < |ranks| && var act := ActiveLists(sas, L, S);
             ChunkReady(rank, nxt, S, c, ranks[c], bufs[c], act[c], nexts[c], currents[c], Ts[c]) &&
             NextsAt(rank, L, nxt, LivePositions(act, S)) && LiveCovers(t, L, LivePositions(act, S))
    ensures Sorted(Ts[c]) && PositiveTriplets(Ts[c])
  {
    var act := ActiveLists(sas, L, S);
    assert ChunkState(t, S, L, c, ranks[c], sas[c], cus[c], currents[c], lo[c], hi[c]);
    assert SuffixSorted(t, Global(S, c, 0), act[c]);
    hide ChunkState, LoopState, SuffixSorted, NextsAt, LiveCovers, LivePositions, Agrees, Sorted, PositiveTriplets,
      ExpandTriplets, Yields, NeighboursDiffer, Global, Holds;
    PairsSorted(t, S, L, rank, nxt, act, c, ranks[c], bufs[c]);
    SortedTriplets(Ts[c], PairsOf(ranks[c], bufs[c], act[c]));
  }

  lemma RoundIsReady(t: seq<int>, S: nat, L: nat, rank: seq<nat>, ranks: seq<seq<nat>>, sas: seq<seq<nat>>,
                     cus: seq<seq<Run>>, currents: seq<seq<RankRun>>, lo: seq<int>, hi: seq<int>,
                     nexts: seq<seq<RankRun>>, bufs: seq<seq<nat>>, Ts: seq<seq<Triplet>>)
    requires LoopState(t, S, L, rank, ranks, sas, cus, currents, lo, hi) && |nexts| == |bufs| == |ranks| == |Ts|
    requires forall c: nat :: c < |ranks| ==>
               ChunkRefined(ranks, rank, sas[c], lo[c], hi[c], L, S, c, nexts[c], bufs[c])
    requires forall c: nat :: c < |ranks| ==>
               ChunkReady(rank, GlobalNexts(bufs, S, |t|), S, c, ranks[c], bufs[c], ActiveLists(sas, L, S)[c], nexts[c],
                          currents[c], Ts[c])
    ensures RoundReady(t, L, Ts, rank, GlobalNexts(bufs, S, |t|), S, ranks, bufs, ActiveLists(sas, L, S))
    ensures forall c: nat :: c < |ranks| ==> Sorted(Ts[c]) && PositiveTriplets(Ts[c])
  {
    StateParts(t, S, L, rank, ranks, sas, cus, currents, lo, hi);
    hide ActiveLists, GlobalNexts, ChunkReady, ChunkRefined, LoopState, ChunkState, Holds, SuffixSorted, Represents,
      NextsAt, LiveCovers, LivePositions, Sorted, PositiveTriplets, Global, RanksAt, IsText;
    var act, nxt := ActiveLists(sas, L, S), GlobalNexts(bufs, S, |t|);
    LiveIsRight(t, S, L, rank, ranks, sas, cus, currents, lo, hi, nexts, bufs);
    ReadyRepresents(rank, nxt, S, ranks, bufs, act, nexts, currents, Ts);
    forall c: nat | c < |ranks| ensures Sorted(Ts[c]) && PositiveTriplets(Ts[c]) {
      ChunkIsSorted(t, S, L, rank, nxt, ranks, sas, cus, currents, lo, hi, nexts, bufs, Ts, c);
    }
  }

  // ---- the state after the round ----

  lemma {:induction false} KeptMember(sa: seq<nat>, fates: seq<Fate>, m: nat)
    requires |sa| == |fates| && m < |sa| && fates[m].stays
    ensures sa[m] in Kept(sa, fates)
  {
    var n := |sa| - 1;
    if m < n {
      KeptMember(sa[..n], fates[..n], m);
    }
  }

  lemma SortedAppend(t: seq<int>, b: nat, front: seq<nat>, p: nat)
    requires SuffixSorted(t, b, front) && b + p < |t|
    requires forall k: nat :: k < |front| ==> SuffixLess(t, b + front[k], b + p)
    ensures SuffixSorted(t, b, front + [p])
  {
    hide SuffixLess;
  }

  lemma SortedFront(t: seq<int>, b: nat, sa: seq<nat>, n: nat)
    requires SuffixSorted(t, b, sa) && |sa| == n + 1
    ensures SuffixSorted(t, b, sa[..n]) && b + sa[n] < |t|
    ensures forall k: nat :: k < n ==> SuffixLess(t, b + sa[k], b + sa[n])
  {
    hide SuffixLess;
  }

  lemma KeptLast(sa: seq<nat>, fates: seq<Fate>)
    requires |sa| == |fates| && sa != []
    ensures var n := |sa| - 1;
            var front := Kept(sa[..n], fates[..n]);
            Kept(sa, fates) == if fates[n].stays then front + [sa[n]] else front
  {
  }

  /** The last entry may follow any selection of the entries before it. */
  lemma SortedSelection(t: seq<int>, b: nat, sa: seq<nat>, front: seq<nat>)
    requires sa != [] && SuffixSorted(t, b, sa) && SuffixSorted(t, b, front)
    requires forall k: nat :: k < |front| ==> front[k] in sa[..|sa| - 1]
    ensures SuffixSorted(t, b, front + [sa[|sa| - 1]])
  {
    var n := |sa| - 1;
    SortedFront(t, b, sa, n);
    SortedBounds(t, b, front);
    hide SuffixLess, SuffixSorted;
    forall k: nat | k < |front| ensures SuffixLess(t, b + front[k], b + sa[n]) {
      assert front[k] in sa[..n];
      var i: nat :| i < n && sa[..n][i] == front[k];
      assert sa[i] == front[k];
    }
    SortedAppend(t, b, front, sa[n]);
  }

  /** Dropping entries keeps the suffix order. */
  lemma {:induction false} KeptSorted(t: seq<int>, b: nat, sa: seq<nat>, fates: seq<Fate>)
    requires |sa| == |fates| && SuffixSorted(t, b, sa)
    ensures SuffixSorted(t, b, Kept(sa, fates))
  {
    if sa != [] {
      var n := |sa| - 1;
      KeptLast(sa, fates);
      SortedFront(t, b, sa, n);
      hide SuffixSorted, Kept;
      KeptSorted(t, b, sa[..n], fates[..n]);
      SortedSelection(t, b, sa, Kept(sa[..n], fates[..n]));
    }
  }

  lemma SortedBounds(t: seq<int>, b: nat, sa: seq<nat>)
    requires SuffixSorted(t, b, sa)
    ensures forall k: nat :: k < |sa| ==> b + sa[k] < |t|
  {
  }

  /** The new ranks of the entries that stay. */
  ghost function StayRanks(fates: seq<Fate>): seq<nat> {
    if fates == [] then []
    else StayRanks(fates[..|fates| - 1]) + if fates[|fates| - 1].stays then [fates[|fates| - 1].rank] else []
  }

  lemma {:induction false} StayRanksAppend(a: seq<Fate>, b: seq<Fate>)
    ensures StayRanks(a + b) == StayRanks(a) + StayRanks(b)
  {
    if b == [] {
      assert a + b == a;
    } else {
      assert (a + b)[..|a + b| - 1] == a + b[..|b| - 1];
      StayRanksAppend(a, b[..|b| - 1]);
    }
  }

  lemma {:induction false} StayRanksCopies(v: nat, k: nat)
    ensures StayRanks(seq(k, _ => Fate(v, true))) == Repeat(v, k)
  {
    if k > 0 {
      StayRanksCopies(v, k - 1);
      assert seq(k, _ => Fate(v, true))[..k - 1] == seq(k - 1, _ => Fate(v, true));
      assert Repeat(v, k) == Repeat(v, k - 1) + [v];
    }
  }

  lemma StayRanksOfRun(run: Run)
    ensures StayRanks(FatesOf(run)) == if run.count == 0 then [] else Repeat(run.rank, run.count)
  {
    if run.count == 0 {
      assert [Fate(run.rank, false)][..0] == [];
    } else {
      StayRanksCopies(run.rank, run.count);
    }
  }

  lemma {:induction false} FatesAppend(runs: seq<Run>, run: Run)
    ensures Fates(runs + [run]) == Fates(runs) + FatesOf(run)
  {
    if runs == [] {
      assert Fates([run]) == FatesOf(run) + Fates([]);
    } else {
      assert (runs + [run])[1..] == runs[1..] + [run];
      FatesAppend(runs[1..], run);
    }
  }

  lemma SurvivingStep(front: seq<Run>, last: Run)
    ensures Surviving(front + [last]) == if last.count != 0 then Surviving(front) + [last] else Surviving(front)
  {
    assert (front + [last])[..|front|] == front;
  }

  /** The surviving records spell the new ranks of the entries that stay. */
  lemma {:induction false} SurvivingSpells(runs: seq<Run>)
    ensures Expand(Surviving(runs)) == StayRanks(Fates(runs))
  {
    if runs != [] {
      var front, last := runs[..|runs| - 1], runs[|runs| - 1];
      assert runs == front + [last];
      hide Surviving, Expand, StayRanks, Fates, FatesOf;
      SurvivingSpells(front);
      SurvivingStep(front, last);
      FatesAppend(front, last);
      StayRanksAppend(Fates(front), FatesOf(last));
      ExpandAppend(Surviving(front), last);
      StayRanksOfRun(last);
    }
  }

  lemma {:induction false} SurvivingFits(runs: seq<Run>)
    requires AllFit(runs)
    ensures AllFit(Surviving(runs))
  {
    if runs != [] {
      SurvivingFits(runs[..|runs| - 1]);
    }
  }

  /** Surviving records are runs of different ranks: the maximal form needs no merging of neighbours. */
  lemma {:induction false} SurvivingMaximal(runs: seq<Run>)
    requires RisingRanks(runs)
    ensures MaximalRuns(Surviving(runs))
    ensures Surviving(runs) != [] ==> runs != [] && Surviving(runs)[|Surviving(runs)| - 1].rank <= runs[|runs| - 1].rank
  {
    if runs != [] {
      var front, last := runs[..|runs| - 1], runs[|runs| - 1];
      SurvivingMaximal(front);
      assert front != [] ==> runs[|front| - 1].rank < runs[|front|].rank;
      if last.count != 0 {
        RunAppended(Surviving(front), last);
      }
    }
  }

  /** The currents file of a chunk is exactly the encoded scan of its ranks in list order. */
  lemma CurrentsAreRuns(t: seq<int>, S: nat, L: nat, c: nat, ranks: seq<nat>, sa: seq<nat>, cu: seq<Run>,
                        currents: seq<RankRun>, lo: int, hi: int)
    requires ChunkState(t, S, L, c, ranks, sa, cu, currents, lo, hi)
    ensures forall k: nat :: k < |sa| ==> sa[k] < |ranks|
    ensures currents == EncodeAll(RunsOf(Gather(ranks, sa)))
  {
    MaximalFormUnique(cu);
  }

  /** Reading the new ranks along the compacted list gives the same. */
  lemma {:induction false} KeptReadsStayRanks(ranks: seq<nat>, sa: seq<nat>, fates: seq<Fate>)
    requires |sa| == |fates| && forall i: nat :: i < |sa| ==> sa[i] < |ranks| && ranks[sa[i]] == fates[i].rank
    ensures forall k: nat :: k < |Kept(sa, fates)| ==> Kept(sa, fates)[k] < |ranks|
    ensures Gather(ranks, Kept(sa, fates)) == StayRanks(fates)
  {
    if sa != [] {
      var n := |sa| - 1;
      KeptReadsStayRanks(ranks, sa[..n], fates[..n]);
      var front := Kept(sa[..n], fates[..n]);
      assert Gather(ranks, front + [sa[n]]) == Gather(ranks, front) + [ranks[sa[n]]];
    }
  }

  /** Every rank of the chunk is the rank at 2L. */
  ghost predicate ChunkRanksAt(t: seq<int>, L: nat, S: nat, c: nat, ranks: seq<nat>) {
    Global(S, c, |ranks|) <= |t| && forall p: nat :: p < |ranks| ==> ranks[p] == Rank(t, L, Global(S, c, p))
  }

  /** A chunk that takes no part has only unique prefixes, so its files are right at 2L as they are. */
  lemma IdleChunkNext(t: seq<int>, S: nat, L: nat, c: nat, ranks: seq<nat>, sa: seq<nat>, cu: seq<Run>,
                      currents: seq<RankRun>, lo: int, hi: int)
    requires ChunkState(t, S, L, c, ranks, sa, cu, currents, lo, hi) && ChunkRanksAt(t, L, S, c, ranks)
    requires forall p: nat :: p < |ranks| ==> Unique(t, L, Global(S, c, p))
    ensures ChunkState(t, S, 2 * L, c, ranks, sa, cu, currents, lo, hi) && ChunkRanksAt(t, 2 * L, S, c, ranks)
  {
    forall p: nat | p < |ranks|
      ensures Unique(t, 2 * L, Global(S, c, p)) && Rank(t, 2 * L, Global(S, c, p)) == Rank(t, L, Global(S, c, p))
    {
      UniqueRankIsFinal(t, L, 2 * L, Global(S, c, p));
    }
  }

  lemma UpdatedRank(t: seq<int>, S: nat, L: nat, c: nat, ranks: seq<nat>, sa: seq<nat>, fates: seq<Fate>,
                    ranks': seq<nat>, p: nat)
    requires Global(S, c, |ranks|) <= |t| && p < |ranks| && ChunkRanksAt(t, L, S, c, ranks)
    requires |fates| == |sa| && FatesRight(t, L, S, c, sa, 0, fates) && Distinct(sa)
    requires RanksSet(ranks, sa, fates, |sa|, ranks')
    requires p !in sa ==> Unique(t, L, Global(S, c, p))
    ensures ranks'[p] == Rank(t, 2 * L, Global(S, c, p))
    ensures !Unique(t, 2 * L, Global(S, c, p)) ==> p in Kept(sa, fates)
  {
    assert sa[..|sa|] == sa;
    if p in sa {
      var i: nat :| i < |sa| && sa[i] == p;
      assert sa[0 + i] == p && fates[i] == FateAt(t, L, Global(S, c, p));
      if fates[i].stays {
        KeptMember(sa, fates, i);
      }
    } else {
      UniqueRankIsFinal(t, L, 2 * L, Global(S, c, p));
    }
  }

  /** A chunk that takes part is right at 2L after update. */
  lemma ActiveChunkNext(t: seq<int>, S: nat, L: nat, c: nat, ranks: seq<nat>, sa: seq<nat>, cu: seq<Run>,
                        currents: seq<RankRun>, lo: int, hi: int, runs: seq<Run>,
                        ranks': seq<nat>, sa': seq<nat>, currents': seq<RankRun>, lo': int, hi': int)
    requires ChunkState(t, S, L, c, ranks, sa, cu, currents, lo, hi) && ChunkRanksAt(t, L, S, c, ranks)
    requires AllFit(runs) && |Fates(runs)| == |sa| && FatesRight(t, L, S, c, sa, 0, Fates(runs)) && RisingRanks(runs)
    requires ChunkUpdated(ranks, sa, runs, ranks', sa', currents', lo', hi')
    ensures ChunkState(t, S, 2 * L, c, ranks', sa', Surviving(runs), currents', lo', hi')
    ensures ChunkRanksAt(t, 2 * L, S, c, ranks')
  {
    var fates := Fates(runs);
    assert |ranks'| == |ranks|;
    forall p: nat | p < |ranks'|
      ensures ranks'[p] == Rank(t, 2 * L, Global(S, c, p))
      ensures !Unique(t, 2 * L, Global(S, c, p)) ==> p in sa'
    {
      UpdatedRank(t, S, L, c, ranks, sa, fates, ranks', p);
    }
    KeptSorted(t, Global(S, c, 0), sa, fates);
    CurrentsSpelled(sa, runs, ranks', sa', currents');
    UpdatedWindow(sa', lo', hi', |ranks'|);
  }

  /** The surviving records spell the new ranks along the new list. */
  lemma CurrentsSpelled(sa: seq<nat>, runs: seq<Run>, ranks': seq<nat>, sa': seq<nat>, currents': seq<RankRun>)
    requires AllFit(runs) && |Fates(runs)| == |sa| && RisingRanks(runs)
    requires forall i: nat :: i < |sa| ==> sa[i] < |ranks'| && ranks'[sa[i]] == Fates(runs)[i].rank
    requires sa' == Kept(sa, Fates(runs)) && currents' == EncodeAll(Surviving(runs))
    ensures CurrentsSpell(currents', Surviving(runs), ranks', sa')
  {
    hide Fates, Kept, Surviving, EncodeAll, RisingRanks;
    SurvivingSpells(runs);
    SurvivingFits(runs);
    SurvivingMaximal(runs);
    KeptReadsStayRanks(ranks', sa, Fates(runs));
  }

  lemma UpdatedWindow(sa: seq<nat>, lo: int, hi: int, n: nat)
    requires if sa == [] then lo == 0 && hi == -1 else TightWindow(sa, lo, hi)
    requires forall k: nat :: k < |sa| ==> sa[k] < n
    ensures InWindow(sa, lo, hi) && (lo <= hi ==> 0 <= lo && hi < n)
  {
  }

  /** A chunk without a list in this round has only unique prefixes. */
  lemma IdleChunkUnique(t: seq<int>, S: nat, L: nat, c: nat, ranks: seq<seq<nat>>, rank: seq<nat>, sa: seq<nat>,
                        cu: seq<Run>, currents: seq<RankRun>, lo: int, hi: int, p: nat)
    requires IsText(t) && 1 <= S && Holds(ranks, S, rank) && |rank| == |t| && c < |ranks| && p < |ranks[c]|
    requires ChunkState(t, S, L, c, ranks[c], sa, cu, currents, lo, hi)
    requires !Active(L, S, c, |ranks|, sa)
    ensures Global(S, c, p) < |t| && Unique(t, L, Global(S, c, p))
  {
    ChunkStretch(ranks, S, rank, c);
    var i := Global(S, c, p);
    if !Unique(t, L, i) {
      var j: nat :| j < |t| && j != i && PrefixEq(t, L, j, i);
      TieEndsBeforeSentinel(t, L, j, i);
      if LocateNextRank(L, S, c, |ranks|).isEmpty {
        EmptyChunkPastEnd(L, S, c, p, ranks, rank);
      }
    }
  }

  lemma RanksOfChunk(t: seq<int>, S: nat, L: nat, c: nat, ranks: seq<seq<nat>>, rank: seq<nat>)
    requires Holds(ranks, S, rank) && RanksAt(t, L, rank) && c < |ranks|
    ensures ChunkRanksAt(t, L, S, c, ranks[c])
  {
    ChunkStretch(ranks, S, rank, c);
  }

  /** Chunks whose ranks are right make a whole whose ranks are right. */
  lemma RanksOfAll(t: seq<int>, S: nat, L: nat, files: seq<seq<nat>>, rank: seq<nat>, ranks: seq<seq<nat>>)
      returns (rank': seq<nat>)
    requires Holds(files, S, rank) && |rank| == |t| && |ranks| == |files|
    requires forall c: nat :: c < |ranks| ==> |ranks[c]| == |files[c]| && ChunkRanksAt(t, L, S, c, ranks[c])
    ensures Holds(ranks, S, rank') && RanksAt(t, L, rank')
  {
    rank' := seq(|t|, i requires 0 <= i < |t| => Rank(t, L, i));
    forall c: nat, p: nat | c < |ranks| && p < |ranks[c]|
      ensures Global(S, c, p) < |rank'| && rank'[Global(S, c, p)] == ranks[c][p]
    {
      assert files[c][p] == rank[Global(S, c, p)];
      assert ChunkRanksAt(t, L, S, c, ranks[c]);
    }
  }
}
