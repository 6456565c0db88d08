/** The prefix-doubling loop of src/suffixrank.sh:149-216 over refine, merge and update. */
module Driver {
  import opened Arithmetic
  import opened Chunks
  import opened ChunkStatus
  import opened RunLength
  import opened JointWalk
  import opened ChunkStreams
  import opened HeapHeads
  import opened Resolution
  import opened Merge
  import opened Doubling
  import opened Refine
  import opened Update
  import opened Rounds
  import opened RoundState

  /** setup: one stream object a chunk. */
  method OpenStreams(nexts: seq<seq<RankRun>>, currents: seq<seq<RankRun>>, curCapacity: nat)
    returns (streams: seq<ChunkStream>)
    requires |nexts| == |currents| && 1 <= curCapacity
    ensures |streams| == |nexts| && Separate(streams)
    ensures forall k: nat :: k < |streams| ==>
              fresh(streams[k]) && fresh(streams[k].nextsBuf) && fresh(streams[k].curBuf) &&
              streams[k].Fresh() && streams[k].TheWalk() == Walk(nexts[k], currents[k], START)
  {
    hide ChunkStream.Valid;
    streams := [];
    while |streams| < |nexts|
      invariant |streams| <= |nexts| && Separate(streams)
      invariant forall k: nat :: k < |streams| ==>
                  fresh(streams[k]) && fresh(streams[k].nextsBuf) && fresh(streams[k].curBuf) &&
                  streams[k].Fresh() && streams[k].TheWalk() == Walk(nexts[k], currents[k], START)
    {
      var c := |streams|;
      var s := new ChunkStream(nexts[c], currents[c], 2 * curCapacity, curCapacity);
      streams := streams + [s];
    }
  }

  /** reduce: open the streams, merge them, and read back the output files. */
  method RunMerge(nexts: seq<seq<RankRun>>, currents: seq<seq<RankRun>>, curCapacity: nat,
                  ghost Ts: seq<seq<Triplet>>, ghost good: seq<bool>)
    returns (r: Status, globals: seq<seq<RankRun>>)
    requires |nexts| == |currents| == |Ts| == |good| && 1 <= curCapacity && AllSorted(Ts)
    requires forall c: nat :: c < |Ts| ==> Yields(Walk(nexts[c], currents[c], START), Ts[c], good[c])
    ensures r == if !AllDrained(Ts) && (forall c: nat :: c < |good| ==> good[c]) then SUCCESS else FAILURE
    ensures r == SUCCESS <==>
              (exists c: nat :: c < |nexts| && nexts[c] != []) &&
              forall c: nat :: c < |nexts| ==> FilesAgree(nexts[c], currents[c])
    ensures |globals| == |nexts|
    ensures r == SUCCESS ==> forall c: nat :: c < |Ts| ==> globals[c] == EncodeAll(ResolveAll(Ts, Ts[c]))
  {
    hide Yields, AllSorted, AllDrained, EncodeAll, ResolveAll, ChunkStream.Fresh, Separate, FilesAgree;
    var streams := OpenStreams(nexts, currents, curCapacity);
    r, globals := MergeStreams(streams, nexts, currents, Ts, good);
  }

  /** reduce on open streams. */
  method MergeStreams(streams: seq<ChunkStream>, ghost nexts: seq<seq<RankRun>>, ghost currents: seq<seq<RankRun>>,
                      ghost Ts: seq<seq<Triplet>>, ghost good: seq<bool>)
    returns (r: Status, globals: seq<seq<RankRun>>)
    requires |streams| == |nexts| == |currents| == |Ts| == |good| && AllSorted(Ts) && Separate(streams)
    requires forall k: nat :: k < |streams| ==>
               streams[k].Fresh() && streams[k].TheWalk() == Walk(nexts[k], currents[k], START)
    requires forall c: nat :: c < |Ts| ==> Yields(Walk(nexts[c], currents[c], START), Ts[c], good[c])
    modifies streams, (set s | s in streams :: s.nextsBuf), (set s | s in streams :: s.curBuf)
    ensures r == if !AllDrained(Ts) && (forall c: nat :: c < |good| ==> good[c]) then SUCCESS else FAILURE
    ensures r == SUCCESS <==>
              (exists c: nat :: c < |nexts| && nexts[c] != []) &&
              forall c: nat :: c < |nexts| ==> FilesAgree(nexts[c], currents[c])
    ensures |globals| == |nexts|
    ensures r == SUCCESS ==> forall c: nat :: c < |Ts| ==> globals[c] == EncodeAll(ResolveAll(Ts, Ts[c]))
  {
    hide Yields, AllSorted, AllDrained, EncodeAll, ResolveAll, ChunkStream.Fresh, Separate, FilesAgree;
    var manager := new Manager(streams);
    assert forall k: nat :: k < |streams| ==>
             streams[k].nextsAhead == nexts[k] && streams[k].currentsAhead == currents[k];
    ghost var popped;
    r, popped := manager.MergeRuns(Ts, good);
    globals := OutFiles(streams);
  }

  method OutFiles(streams: seq<ChunkStream>) returns (globals: seq<seq<RankRun>>)
    ensures |globals| == |streams| && forall c: nat :: c < |streams| ==> globals[c] == streams[c].outFile
  {
    globals := [];
    while |globals| < |streams|
      invariant |globals| <= |streams|
      invariant forall c: nat :: c < |globals| ==> globals[c] == streams[c].outFile
    {
      globals := globals + [streams[|globals|].outFile];
    }
  }

  // ---- update over all chunks ----

  /** What update leaves for a chunk: unchanged files when it is EMPTY, else the updated ones. */
  ghost predicate UpdateOutcome(L: nat, S: nat, c: nat, total: nat, ranks: seq<nat>, sa: seq<nat>,
                                currents: seq<RankRun>, lo: int, hi: int, globals: seq<RankRun>, runs: seq<Run>,
                                ranks': seq<nat>, sa': seq<nat>, currents': seq<RankRun>, lo': int, hi': int)
    requires S >= 1
  {
    if LocateNextRank(L, S, c, total).isEmpty || globals == []
    then ranks' == ranks && sa' == sa && currents' == currents && lo' == lo && hi' == hi
    else ChunkUpdated(ranks, sa, runs, ranks', sa', currents', lo', hi')
  }

  /** What update asks of a chunk. */
  ghost predicate UpdateAsks(S: nat, ranks: seq<nat>, sa: seq<nat>, lo: int, hi: int, globals: seq<RankRun>,
                             runs: seq<Run>) {
    && |ranks| <= S && |sa| <= S && Distinct(sa) && InWindow(sa, lo, hi) && (lo <= hi ==> 0 <= lo && hi < |ranks|)
    && globals == EncodeAll(runs) && AllFit(runs) && |Fates(runs)| <= S
  }

  /** The records of a chunk cover its list, if update reads them at all. */
  ghost predicate Covered(L: nat, S: nat, c: nat, total: nat, sa: seq<nat>, globals: seq<RankRun>, runs: seq<Run>)
    requires S >= 1
  {
    !LocateNextRank(L, S, c, total).isEmpty && globals != [] ==> |Fates(runs)| == |sa|
  }

  lemma NotCovered(L: nat, S: nat, c: nat, total: nat, sa: seq<nat>, globals: seq<RankRun>, runs: seq<Run>)
    requires S >= 1 && !LocateNextRank(L, S, c, total).isEmpty && globals != [] && |Fates(runs)| != |sa|
    ensures !Covered(L, S, c, total, sa, globals, runs)
  {
  }

  /** What update_local_ranks returns is the outcome of the chunk. */
  lemma OutcomeOfChunk(L: nat, S: nat, c: nat, total: nat, ranks: seq<nat>, sa: seq<nat>, currents: seq<RankRun>,
                       lo: int, hi: int, globals: seq<RankRun>, runs: seq<Run>, st: Status,
                       ranks': seq<nat>, sa': seq<nat>, currents': seq<RankRun>, lo': int, hi': int)
    requires S >= 1 && st != FAILURE
    requires st == if LocateNextRank(L, S, c, total).isEmpty || globals == [] then EMPTY
                   else if |Fates(runs)| == |sa| then SUCCESS else FAILURE
    requires st == EMPTY ==> ranks' == ranks && sa' == sa && currents' == currents && lo' == lo && hi' == hi
    requires st == SUCCESS ==> ChunkUpdated(ranks, sa, runs, ranks', sa', currents', lo', hi')
    ensures UpdateOutcome(L, S, c, total, ranks, sa, currents, lo, hi, globals, runs, ranks', sa', currents', lo', hi')
    ensures Covered(L, S, c, total, sa, globals, runs)
  {
  }

  lemma PlacesOfZeros(sa: seq<nat>, S: nat)
    requires 1 <= S && forall k: nat :: k < |sa| ==> sa[k] == 0
    ensures Places(sa, S)
  {
  }

  /** The main loop of update (src/update.c:190-203). */
  method UpdateAll(ranks: seq<seq<nat>>, sas: seq<seq<nat>>, currents: seq<seq<RankRun>>, globals: seq<seq<RankRun>>,
                   L: nat, S: nat, lo: seq<int>, hi: seq<int>, ghost runs: seq<seq<Run>>)
    returns (r: Status, ranks': seq<seq<nat>>, sas': seq<seq<nat>>, currents': seq<seq<RankRun>>, lo': seq<int>,
             hi': seq<int>)
    requires 1 <= S <= INT_MAX && |ranks| == |sas| == |currents| == |globals| == |lo| == |hi| == |runs|
    requires forall c: nat :: c < |ranks| ==>
               UpdateAsks(S, ranks[c], sas[c], lo[c], hi[c], globals[c], runs[c])
    ensures r == FAILURE <==>
              exists c: nat :: c < |ranks| && !Covered(L, S, c, |ranks|, sas[c], globals[c], runs[c])
    ensures r != FAILURE ==> |ranks'| == |sas'| == |currents'| == |lo'| == |hi'| == |ranks|
    ensures r != FAILURE ==>
              (r == SUCCESS <==>
               exists c: nat :: c < |ranks| && !LocateNextRank(L, S, c, |ranks|).isEmpty && globals[c] != [])
    ensures r != FAILURE ==> forall c: nat :: c < |ranks| ==>
              UpdateOutcome(L, S, c, |ranks|, ranks[c], sas[c], currents[c], lo[c], hi[c], globals[c], runs[c],
                            ranks'[c], sas'[c], currents'[c], lo'[c], hi'[c])
  {
    hide ChunkUpdated, LocateNextRank, Fates, EncodeAll, Covered, Places, UpdateOutcome;
    var buf := new nat[S](_ => 0);
    var saBuf := new nat[S](_ => 0);
    PlacesOfZeros(saBuf[..], S);
    r, ranks', sas', currents', lo', hi' := EMPTY, [], [], [], [], [];
    for c := 0 to |ranks|
      invariant Places(saBuf[..], S)
      invariant forall d: nat :: d < c ==> Covered(L, S, d, |ranks|, sas[d], globals[d], runs[d])
      invariant r != FAILURE && |ranks'| == |sas'| == |currents'| == |lo'| == |hi'| == c
      invariant r == SUCCESS <==>
                  exists d: nat :: d < c && !LocateNextRank(L, S, d, |ranks|).isEmpty && globals[d] != []
      invariant forall d: nat :: d < c ==>
                  UpdateOutcome(L, S, d, |ranks|, ranks[d], sas[d], currents[d], lo[d], hi[d], globals[d], runs[d],
                                ranks'[d], sas'[d], currents'[d], lo'[d], hi'[d])
    {
      assert UpdateAsks(S, ranks[c], sas[c], lo[c], hi[c], globals[c], runs[c]);
      var st, rk, sa, cu, l, h := UpdateLocalRanks(ranks[c], sas[c], currents[c], globals[c], L, S, c, |ranks|,
                                                   lo[c], hi[c], buf, saBuf, runs[c]);
      if st == FAILURE {
        NotCovered(L, S, c, |ranks|, sas[c], globals[c], runs[c]);
        r := FAILURE;
        return;
      }
      OutcomeOfChunk(L, S, c, |ranks|, ranks[c], sas[c], currents[c], lo[c], hi[c], globals[c], runs[c], st, rk, sa, cu,
                     l, h);
      ranks', sas', currents' := ranks' + [rk], sas' + [sa], currents' + [cu];
      lo', hi' := lo' + [l], hi' + [h];
      if st != EMPTY {
        r := SUCCESS;
      }
    }
  }

  // ---- one iteration ----

  /** The records of a chunk, and what they ask of update. */
  lemma RecordsOfChunk(t: seq<int>, S: nat, L: nat, Ts: seq<seq<Triplet>>, rank: seq<nat>, nxt: seq<nat>,
                       ranks: seq<seq<nat>>, bufs: seq<seq<nat>>, act: seq<seq<nat>>, c: nat, sa: seq<nat>,
                       cu: seq<Run>, nexts: seq<RankRun>, currents: seq<RankRun>, lo: int, hi: int)
    requires RoundReady(t, L, Ts, rank, nxt, S, ranks, bufs, act) && c < |Ts| && 1 <= S
    requires Holds(ranks, S, rank) && ChunkState(t, S, L, c, ranks[c], sa, cu, currents, lo, hi)
    requires ChunkReady(rank, nxt, S, c, ranks[c], bufs[c], act[c], nexts, currents, Ts[c])
    requires act[c] == (if LocateNextRank(L, S, c, |ranks|).isEmpty then [] else sa) && Sorted(Ts[c])
    ensures RisingRanks(ResolveAll(Ts, Ts[c]))
    ensures var runs := ResolveAll(Ts, Ts[c]);
            && UpdateAsks(S, ranks[c], sa, lo, hi, EncodeAll(runs), runs)
            && |Fates(runs)| == |act[c]| && FatesRight(t, L, S, c, act[c], 0, Fates(runs))
    ensures var runs := ResolveAll(Ts, Ts[c]); Covered(L, S, c, |ranks|, sa, EncodeAll(runs), runs)
    ensures EncodeAll(ResolveAll(Ts, Ts[c])) == [] <==> act[c] == []
    ensures Ts[c] == [] <==> act[c] == []
  {
    RoundBounds(t, L, Ts, rank, nxt, S, ranks, bufs, act);
    hide RoundReady, Holds, ChunkState, ChunkReady, LocateNextRank, Sorted, RisingRanks, FatesRight, EncodeAll, Fates,
      ResolveAll, InWindow, Distinct, AllFit, UpdateAsks, Covered;
    ListAsks(t, S, L, ranks, rank, c, sa, cu, currents, lo, hi);
    FatesOfRecords(t, S, L, Ts, rank, nxt, ranks, bufs, act, c, nexts, currents);
    RecordsExist(Ts, Ts[c]);
    RecordsFitChunk(S, L, c, |ranks|, ranks[c], sa, act[c], lo, hi, ResolveAll(Ts, Ts[c]));
  }

  /** Records with a fate for every entry that takes part are what update asks for. */
  lemma RecordsFitChunk(S: nat, L: nat, c: nat, total: nat, ranks: seq<nat>, sa: seq<nat>, act: seq<nat>, lo: int,
                        hi: int, runs: seq<Run>)
    requires 1 <= S && |ranks| <= S && |sa| <= S && Distinct(sa) && InWindow(sa, lo, hi)
    requires lo <= hi ==> 0 <= lo && hi < |ranks|
    requires AllFit(runs) && |Fates(runs)| == |act|
    requires act == if LocateNextRank(L, S, c, total).isEmpty then [] else sa
    ensures UpdateAsks(S, ranks, sa, lo, hi, EncodeAll(runs), runs)
    ensures Covered(L, S, c, total, sa, EncodeAll(runs), runs)
  {
  }

  /** The records of a chunk give its entries their fates. */
  lemma FatesOfRecords(t: seq<int>, S: nat, L: nat, Ts: seq<seq<Triplet>>, rank: seq<nat>, nxt: seq<nat>,
                       ranks: seq<seq<nat>>, bufs: seq<seq<nat>>, act: seq<seq<nat>>, c: nat, nexts: seq<RankRun>,
                       currents: seq<RankRun>)
    requires RoundReady(t, L, Ts, rank, nxt, S, ranks, bufs, act) && c < |Ts| && 1 <= S
    requires c < |ranks| == |bufs| == |act| && Sorted(Ts[c]) && |act[c]| <= S
    requires ChunkReady(rank, nxt, S, c, ranks[c], bufs[c], act[c], nexts, currents, Ts[c])
    ensures var runs := ResolveAll(Ts, Ts[c]);
            && RisingRanks(runs) && AllFit(runs) && |Fates(runs)| == |act[c]|
            && FatesRight(t, L, S, c, act[c], 0, Fates(runs))
    ensures Ts[c] == [] <==> act[c] == []
  {
    var z := PairsOf(ranks[c], bufs[c], act[c]);
    hide RoundReady, Agrees, Distinct, Yields, Sorted, NeighboursDiffer, PositiveTriplets, ExpandTriplets, RisingRanks,
      AllFit, Fates, FatesRight, ResolveAll;
    assert z[0..] == z;
    ExpandEmpty(Ts[c], z);
    ChunkFates(t, L, Ts, rank, nxt, S, ranks, bufs, act, c, 0, Ts[c]);
    RecordsRise(t, L, Ts, rank, nxt, S, ranks, bufs, act, c, Ts[c]);
  }

  lemma RecordsExist(Ts: seq<seq<Triplet>>, ts: seq<Triplet>)
    ensures EncodeAll(ResolveAll(Ts, ts)) == [] <==> ts == []
  {
    if ts != [] {
      assert |Encode(ResolveAll(Ts, ts)[0])| > 0;
    }
  }

  /** What the state of a chunk gives update to work on. */
  lemma ListAsks(t: seq<int>, S: nat, L: nat, ranks: seq<seq<nat>>, rank: seq<nat>, c: nat, sa: seq<nat>, cu: seq<Run>,
                 currents: seq<RankRun>, lo: int, hi: int)
    requires Holds(ranks, S, rank) && c < |ranks|
    requires ChunkState(t, S, L, c, ranks[c], sa, cu, currents, lo, hi)
    ensures |ranks[c]| <= S && |sa| <= S && Distinct(sa) && InWindow(sa, lo, hi)
    ensures lo <= hi ==> 0 <= lo && hi < |ranks[c]|
  {
    SortedIsDistinct(t, Global(S, c, 0), sa);
    ChunkStretch(ranks, S, rank, c);
  }

  /** The runs that spell the current ranks of a chunk after the round. */
  ghost function RunsAfter(L: nat, S: nat, c: nat, total: nat, sa: seq<nat>, cu: seq<Run>, runs: seq<Run>): seq<Run>
    requires S >= 1
  {
    if Active(L, S, c, total, sa) then Surviving(runs) else cu
  }

  /** After update the chunk is right at 2L, whether it took part or not. */
  lemma ChunkAfterRound(t: seq<int>, S: nat, L: nat, ranks: seq<seq<nat>>, rank: seq<nat>, c: nat, sa: seq<nat>,
                        cu: seq<Run>, currents: seq<RankRun>, lo: int, hi: int, runs: seq<Run>, ranks': seq<nat>,
                        sa': seq<nat>, currents': seq<RankRun>, lo': int, hi': int)
    requires IsText(t) && 1 <= S && Holds(ranks, S, rank) && RanksAt(t, L, rank) && c < |ranks|
    requires ChunkState(t, S, L, c, ranks[c], sa, cu, currents, lo, hi)
    requires UpdateAsks(S, ranks[c], sa, lo, hi, EncodeAll(runs), runs)
    requires EncodeAll(runs) == [] <==> !Active(L, S, c, |ranks|, sa)
    requires Active(L, S, c, |ranks|, sa) ==> FatesRight(t, L, S, c, sa, 0, Fates(runs)) && RisingRanks(runs)
    requires UpdateOutcome(L, S, c, |ranks|, ranks[c], sa, currents, lo, hi, EncodeAll(runs), runs, ranks', sa',
                           currents', lo', hi')
    ensures |ranks'| == |ranks[c]|
    ensures ChunkRanksAt(t, 2 * L, S, c, ranks')
    ensures ChunkState(t, S, 2 * L, c, ranks', sa', RunsAfter(L, S, c, |ranks|, sa, cu, runs), currents', lo', hi')
  {
    RanksOfChunk(t, S, L, c, ranks, rank);
    if Active(L, S, c, |ranks|, sa) {
      hide ChunkState, FatesRight, EncodeAll;
      ActiveChunkNext(t, S, L, c, ranks[c], sa, cu, currents, lo, hi, runs, ranks', sa', currents', lo', hi');
    } else {
      forall p: nat | p < |ranks[c]| ensures Unique(t, L, Global(S, c, p)) {
        IdleChunkUnique(t, S, L, c, ranks, rank, sa, cu, currents, lo, hi, p);
      }
      IdleChunkNext(t, S, L, c, ranks[c], sa, cu, currents, lo, hi);
    }
  }

  /** What merge hands to update, for all chunks. */
  ghost predicate RecordsReady(t: seq<int>, S: nat, L: nat, ranks: seq<seq<nat>>, sas: seq<seq<nat>>, lo: seq<int>,
                               hi: seq<int>, runs: seq<seq<Run>>)
    requires S >= 1 && |sas| == |lo| == |hi| == |runs| == |ranks|
  {
    forall c: nat :: c < |ranks| ==>
      && UpdateAsks(S, ranks[c], sas[c], lo[c], hi[c], EncodeAll(runs[c]), runs[c])
      && Covered(L, S, c, |ranks|, sas[c], EncodeAll(runs[c]), runs[c])
      && (EncodeAll(runs[c]) == [] <==> !Active(L, S, c, |ranks|, sas[c]))
      && (Active(L, S, c, |ranks|, sas[c]) ==>
            FatesRight(t, L, S, c, sas[c], 0, Fates(runs[c])) && RisingRanks(runs[c]))
  }

  /** The records merge writes for the triplets of the round. */
  ghost function AllRecords(Ts: seq<seq<Triplet>>): (runs: seq<seq<Run>>)
    ensures |runs| == |Ts| && forall c: nat :: c < |Ts| ==> runs[c] == ResolveAll(Ts, Ts[c])
  {
    seq(|Ts|, c requires 0 <= c < |Ts| => ResolveAll(Ts, Ts[c]))
  }

  lemma RecordsOfRound(t: seq<int>, S: nat, L: nat, rank: seq<nat>, ranks: seq<seq<nat>>, sas: seq<seq<nat>>,
                       cus: seq<seq<Run>>, currents: seq<seq<RankRun>>, lo: seq<int>, hi: seq<int>,
                       nexts: seq<seq<RankRun>>, bufs: seq<seq<nat>>, Ts: seq<seq<Triplet>>)
    requires LoopState(t, S, L, rank, ranks, sas, cus, currents, lo, hi) && |nexts| == |bufs| == |ranks| == |Ts|
    requires RoundReady(t, L, Ts, rank, GlobalNexts(bufs, S, |t|), S, ranks, bufs, ActiveLists(sas, L, S))
    requires forall c: nat :: c < |ranks| ==>
               ChunkReady(rank, GlobalNexts(bufs, S, |t|), S, c, ranks[c], bufs[c], ActiveLists(sas, L, S)[c], nexts[c],
                          currents[c], Ts[c])
    requires forall c: nat :: c < |Ts| ==> Sorted(Ts[c])
    ensures RecordsReady(t, S, L, ranks, sas, lo, hi, AllRecords(Ts))
    ensures AllDrained(Ts) <==> forall c: nat :: c < |ranks| ==> !Active(L, S, c, |ranks|, sas[c])
  {
    hide ChunkState, ChunkReady, RoundReady, UpdateAsks, Covered, FatesRight, Holds, LocateNextRank, GlobalNexts,
      RisingRanks, Sorted;
    var act := ActiveLists(sas, L, S);
    forall c: nat | c < |ranks|
      ensures UpdateAsks(S, ranks[c], sas[c], lo[c], hi[c], EncodeAll(AllRecords(Ts)[c]), AllRecords(Ts)[c])
      ensures Covered(L, S, c, |ranks|, sas[c], EncodeAll(AllRecords(Ts)[c]), AllRecords(Ts)[c])
      ensures EncodeAll(AllRecords(Ts)[c]) == [] <==> !Active(L, S, c, |ranks|, sas[c])
      ensures Active(L, S, c, |ranks|, sas[c]) ==>
                FatesRight(t, L, S, c, sas[c], 0, Fates(AllRecords(Ts)[c])) && RisingRanks(AllRecords(Ts)[c])
      ensures Ts[c] == [] <==> !Active(L, S, c, |ranks|, sas[c])
    {
      RecordsOfChunk(t, S, L, Ts, rank, GlobalNexts(bufs, S, |t|), ranks, bufs, act, c, sas[c], cus[c], nexts[c],
                     currents[c], lo[c], hi[c]);
    }
  }

  /** After update chunk c is right at 2L. */
  lemma ChunkDone(t: seq<int>, S: nat, L: nat, rank: seq<nat>, ranks: seq<seq<nat>>, sas: seq<seq<nat>>,
                  cus: seq<seq<Run>>, currents: seq<seq<RankRun>>, lo: seq<int>, hi: seq<int>, runs: seq<seq<Run>>,
                  c: nat, ranks': seq<nat>, sa': seq<nat>, currents': seq<RankRun>, lo': int, hi': int)
    requires LoopState(t, S, L, rank, ranks, sas, cus, currents, lo, hi) && |runs| == |ranks| && c < |ranks|
    requires RecordsReady(t, S, L, ranks, sas, lo, hi, runs)
    requires UpdateOutcome(L, S, c, |ranks|, ranks[c], sas[c], currents[c], lo[c], hi[c], EncodeAll(runs[c]), runs[c],
                           ranks', sa', currents', lo', hi')
    ensures |ranks'| == |ranks[c]| && ChunkRanksAt(t, 2 * L, S, c, ranks')
    ensures ChunkState(t, S, 2 * L, c, ranks', sa', RunsAfter(L, S, c, |ranks|, sas[c], cus[c], runs[c]), currents',
                       lo', hi')
  {
    hide ChunkState, UpdateAsks, FatesRight, Holds, LocateNextRank, UpdateOutcome, Active, EncodeAll, Fates,
      ChunkRanksAt, RanksAt, IsText;
    ChunkAfterRound(t, S, L, ranks, rank, c, sas[c], cus[c], currents[c], lo[c], hi[c], runs[c],
                    ranks', sa', currents', lo', hi');
  }

  lemma StateSizes(t: seq<int>, S: nat, L: nat, rank: seq<nat>, ranks: seq<seq<nat>>, sas: seq<seq<nat>>,
                   cus: seq<seq<Run>>, currents: seq<seq<RankRun>>, lo: seq<int>, hi: seq<int>)
    requires LoopState(t, S, L, rank, ranks, sas, cus, currents, lo, hi)
    ensures IsText(t) && |t| <= I40_LIMIT && 1 <= S <= INT_MAX && |rank| == |t| && Holds(ranks, S, rank)
    ensures |ranks| == |sas| == |cus| == |currents| == |lo| == |hi|
  {
  }

  lemma StateOf(t: seq<int>, S: nat, L: nat, rank: seq<nat>, ranks: seq<seq<nat>>, sas: seq<seq<nat>>,
                cus: seq<seq<Run>>, currents: seq<seq<RankRun>>, lo: seq<int>, hi: seq<int>)
    requires IsText(t) && |t| <= I40_LIMIT && 1 <= S <= INT_MAX && RanksAt(t, L, rank) && Holds(ranks, S, rank)
    requires |ranks| == |sas| == |cus| == |currents| == |lo| == |hi|
    requires forall c: nat :: c < |ranks| ==>
               ChunkState(t, S, L, c, ranks[c], sas[c], cus[c], currents[c], lo[c], hi[c])
    ensures LoopState(t, S, L, rank, ranks, sas, cus, currents, lo, hi)
  {
  }

  /** Update carries the whole state from L to 2L. */
  lemma RoundDone(t: seq<int>, S: nat, L: nat, rank: seq<nat>, ranks: seq<seq<nat>>, sas: seq<seq<nat>>,
                  cus: seq<seq<Run>>, currents: seq<seq<RankRun>>, lo: seq<int>, hi: seq<int>, runs: seq<seq<Run>>,
                  ranks': seq<seq<nat>>, sas': seq<seq<nat>>, currents': seq<seq<RankRun>>, lo': seq<int>,
                  hi': seq<int>)
    returns (rank': seq<nat>, cus': seq<seq<Run>>)
    requires LoopState(t, S, L, rank, ranks, sas, cus, currents, lo, hi) && |runs| == |ranks|
    requires |ranks'| == |sas'| == |currents'| == |lo'| == |hi'| == |ranks|
    requires RecordsReady(t, S, L, ranks, sas, lo, hi, runs)
    requires forall c: nat :: c < |ranks| ==>
               UpdateOutcome(L, S, c, |ranks|, ranks[c], sas[c], currents[c], lo[c], hi[c], EncodeAll(runs[c]), runs[c],
                             ranks'[c], sas'[c], currents'[c], lo'[c], hi'[c])
    ensures LoopState(t, S, 2 * L, rank', ranks', sas', cus', currents', lo', hi')
  {
    StateSizes(t, S, L, rank, ranks, sas, cus, currents, lo, hi);
    cus' := seq(|ranks|, c requires 0 <= c < |ranks| => RunsAfter(L, S, c, |ranks|, sas[c], cus[c], runs[c]));
    hide LoopState, ChunkState, UpdateOutcome, RecordsReady, EncodeAll, ChunkRanksAt, RanksAt, IsText, Holds, RunsAfter;
    forall c: nat | c < |ranks|
      ensures |ranks'[c]| == |ranks[c]| && ChunkRanksAt(t, 2 * L, S, c, ranks'[c])
      ensures ChunkState(t, S, 2 * L, c, ranks'[c], sas'[c], cus'[c], currents'[c], lo'[c], hi'[c])
    {
      ChunkDone(t, S, L, rank, ranks, sas, cus, currents, lo, hi, runs, c, ranks'[c], sas'[c], currents'[c], lo'[c],
                hi'[c]);
    }
    rank' := RanksOfAll(t, S, 2 * L, ranks, rank, ranks');
    StateOf(t, S, 2 * L, rank', ranks', sas', cus', currents', lo', hi');
  }

  /** The second half of an iteration: merge the streams and let update apply the records. */
  method MergeAndUpdate(ranks: seq<seq<nat>>, sas: seq<seq<nat>>, currents: seq<seq<RankRun>>, nexts: seq<seq<RankRun>>,
                        lo: seq<int>, hi: seq<int>, L: nat, S: nat, curCapacity: nat, ghost t: seq<int>,
                        ghost Ts: seq<seq<Triplet>>)
    returns (ranks': seq<seq<nat>>, sas': seq<seq<nat>>, currents': seq<seq<RankRun>>, lo': seq<int>, hi': seq<int>)
    requires 1 <= S <= INT_MAX && 1 <= curCapacity
    requires |ranks| == |sas| == |currents| == |nexts| == |lo| == |hi| == |Ts|
    requires AllSorted(Ts) && !AllDrained(Ts)
    requires forall c: nat :: c < |Ts| ==> Yields(Walk(nexts[c], currents[c], START), Ts[c], AllGood(Ts)[c])
    requires RecordsReady(t, S, L, ranks, sas, lo, hi, AllRecords(Ts))
    ensures |ranks'| == |sas'| == |currents'| == |lo'| == |hi'| == |ranks|
    ensures forall c: nat :: c < |ranks| ==>
              UpdateOutcome(L, S, c, |ranks|, ranks[c], sas[c], currents[c], lo[c], hi[c],
                            EncodeAll(AllRecords(Ts)[c]), AllRecords(Ts)[c],
                            ranks'[c], sas'[c], currents'[c], lo'[c], hi'[c])
  {
    hide RecordsReady, AllSorted, AllDrained, UpdateAsks, Covered, UpdateOutcome, Yields, EncodeAll, ResolveAll,
      LocateNextRank;
    var st, globals := RunMerge(nexts, currents, curCapacity, Ts, AllGood(Ts));
    assert st == SUCCESS;
    ghost var runs := AllRecords(Ts);
    RecordsAsk(t, S, L, ranks, sas, lo, hi, runs, globals);
    st, ranks', sas', currents', lo', hi' := UpdateAll(ranks, sas, currents, globals, L, S, lo, hi, runs);
  }

  /** One iteration of the loop: refine, and unless it reports EMPTY, merge and update.  room is false
      when refine overruns its output buffer. */
  method OneRound(ranks: seq<seq<nat>>, sas: seq<seq<nat>>, currents: seq<seq<RankRun>>, lo: seq<int>, hi: seq<int>,
                  L: nat, S: nat, curCapacity: nat, ghost t: seq<int>, ghost rank: seq<nat>, ghost cus: seq<seq<Run>>)
    returns (room: bool, more: bool, ranks': seq<seq<nat>>, sas': seq<seq<nat>>, currents': seq<seq<RankRun>>,
             lo': seq<int>, hi': seq<int>, ghost rank': seq<nat>, ghost cus': seq<seq<Run>>)
    requires LoopState(t, S, L, rank, ranks, sas, cus, currents, lo, hi) && 1 <= curCapacity
    ensures room <==> S >= 3 || NoneActive(L, S, sas)
    ensures room ==> (more <==> !NoneActive(L, S, sas))
    ensures room && more ==>
              LoopState(t, S, 2 * L, rank', ranks', sas', cus', currents', lo', hi') && |ranks'| == |ranks|
    ensures room && !more ==>
              ranks' == ranks && sas' == sas && currents' == currents && lo' == lo && hi' == hi &&
              rank' == rank && cus' == cus
  {
    ranks', sas', currents', lo', hi', rank', cus' := ranks, sas, currents, lo, hi, rank, cus;
    RefineAsks(t, S, L, rank, ranks, sas, cus, currents, lo, hi);
    hide LoopState, RoundReady, ChunkReady, RecordsReady, AllDrained, Holds, Bounded, InWindow, ChunkRefined, Active,
      ActiveLists, GlobalNexts, UpdateAsks, UpdateOutcome, Yields, EncodeAll, ResolveAll, Sorted, PositiveTriplets,
      LocateNextRank;
    var nexts;
    ghost var bufs;
    room, more, nexts, bufs := RefineAll(ranks, sas, lo, hi, L, S, rank);
    if room && more {
      ghost var Ts := RoundSetUp(t, S, L, rank, ranks, sas, cus, currents, lo, hi, nexts, bufs);
      RecordsOfRound(t, S, L, rank, ranks, sas, cus, currents, lo, hi, nexts, bufs, Ts);
      MergeAsks(rank, S, ranks, bufs, nexts, currents, GlobalNexts(bufs, S, |t|), ActiveLists(sas, L, S), Ts);
      ghost var runs := AllRecords(Ts);
      ranks', sas', currents', lo', hi' := MergeAndUpdate(ranks, sas, currents, nexts, lo, hi, L, S, curCapacity, t,
                                                          Ts);
      rank', cus' := RoundDone(t, S, L, rank, ranks, sas, cus, currents, lo, hi, runs, ranks', sas', currents', lo',
                               hi');
    }
  }

  ghost function AllGood(Ts: seq<seq<Triplet>>): (good: seq<bool>)
    ensures |good| == |Ts| && forall c: nat :: c < |good| ==> good[c]
  {
    seq(|Ts|, _ => true)
  }

  lemma RefineAsks(t: seq<int>, S: nat, L: nat, rank: seq<nat>, ranks: seq<seq<nat>>, sas: seq<seq<nat>>,
                   cus: seq<seq<Run>>, currents: seq<seq<RankRun>>, lo: seq<int>, hi: seq<int>)
    requires LoopState(t, S, L, rank, ranks, sas, cus, currents, lo, hi)
    ensures 1 <= S <= INT_MAX && Holds(ranks, S, rank) && Bounded(rank)
    ensures |ranks| == |sas| == |cus| == |currents| == |lo| == |hi|
    ensures forall c: nat :: c < |sas| ==> |sas[c]| <= S && InWindow(sas[c], lo[c], hi[c])
    ensures forall c: nat :: c < |sas| ==> lo[c] <= hi[c] ==> 0 <= lo[c] && hi[c] < S
  {
    RanksBounded(t, L, rank);
    forall c: nat | c < |sas|
      ensures |sas[c]| <= S && InWindow(sas[c], lo[c], hi[c]) && (lo[c] <= hi[c] ==> 0 <= lo[c] && hi[c] < S)
    {
      assert ChunkState(t, S, L, c, ranks[c], sas[c], cus[c], currents[c], lo[c], hi[c]);
      ChunkStretch(ranks, S, rank, c);
    }
  }

  lemma MergeAsks(rank: seq<nat>, S: nat, ranks: seq<seq<nat>>, bufs: seq<seq<nat>>, nexts: seq<seq<RankRun>>,
                  currents: seq<seq<RankRun>>, nxt: seq<nat>, act: seq<seq<nat>>, Ts: seq<seq<Triplet>>)
    requires |Ts| == |ranks| == |bufs| == |nexts| == |currents| == |act|
    requires forall c: nat :: c < |Ts| ==>
               ChunkReady(rank, nxt, S, c, ranks[c], bufs[c], act[c], nexts[c], currents[c], Ts[c])
    requires forall c: nat :: c < |Ts| ==> Sorted(Ts[c]) && PositiveTriplets(Ts[c])
    ensures AllSorted(Ts)
    ensures forall c: nat :: c < |Ts| ==> Yields(Walk(nexts[c], currents[c], START), Ts[c], AllGood(Ts)[c])
  {
    forall c: nat | c < |Ts| ensures Yields(Walk(nexts[c], currents[c], START), Ts[c], AllGood(Ts)[c]) {
      assert ChunkReady(rank, nxt, S, c, ranks[c], bufs[c], act[c], nexts[c], currents[c], Ts[c]);
    }
  }

  lemma RecordsAsk(t: seq<int>, S: nat, L: nat, ranks: seq<seq<nat>>, sas: seq<seq<nat>>, lo: seq<int>, hi: seq<int>,
                   runs: seq<seq<Run>>, globals: seq<seq<RankRun>>)
    requires S >= 1 && |sas| == |lo| == |hi| == |runs| == |ranks| == |globals|
    requires RecordsReady(t, S, L, ranks, sas, lo, hi, runs)
    requires forall c: nat :: c < |ranks| ==> globals[c] == EncodeAll(runs[c])
    ensures forall c: nat :: c < |ranks| ==>
              UpdateAsks(S, ranks[c], sas[c], lo[c], hi[c], globals[c], runs[c]) &&
              Covered(L, S, c, |ranks|, sas[c], globals[c], runs[c])
  {
    hide UpdateAsks, EncodeAll, Active, Covered;
  }

  // ---- the loop ----

  /** The prefix length of round n: k, 2k, 4k, ... */
  ghost function PrefixLength(k: nat, n: nat): nat {
    if n == 0 then k else 2 * PrefixLength(k, n - 1)
  }

  /** After so many rounds at prefix length L: every round but the last found its length inside the files. */
  ghost predicate RoundCount(k: nat, size: nat, L: nat, rounds: nat, more: bool) {
    if more then L == PrefixLength(k, rounds) && (rounds >= 1 ==> PrefixLength(k, rounds - 1) < size)
    else rounds >= 1 && (rounds >= 2 ==> PrefixLength(k, rounds - 2) < size)
  }

  lemma RoundCountStart(k: nat, size: nat)
    ensures RoundCount(k, size, k, 0, true)
  {
  }

  lemma RoundCountNext(k: nat, size: nat, L: nat, rounds: nat, more: bool)
    requires RoundCount(k, size, L, rounds, true) && (more ==> L < size)
    ensures RoundCount(k, size, 2 * L, rounds + 1, more)
  {
  }

  lemma RoundCountEnd(k: nat, size: nat, L: nat, rounds: nat)
    requires RoundCount(k, size, L, rounds, false)
    ensures rounds >= 1 && (rounds >= 2 ==> PrefixLength(k, rounds - 2) < size)
  {
  }

  /** How many positions the files have room for. */
  ghost function Capacity(total: nat, S: nat): nat {
    total * S
  }

  /** An active chunk has its next ranks inside the files, so the prefix length is below their total size. */
  lemma ActiveBoundsL(L: nat, S: nat, sas: seq<seq<nat>>)
    requires S >= 1 && !NoneActive(L, S, sas)
    ensures L < Capacity(|sas|, S)
  {
    QuotientBounds(L, S, |sas|);
  }

  /** When no chunk is active every rank is the number of smaller suffixes. */
  lemma LoopDone(t: seq<int>, S: nat, L: nat, rank: seq<nat>, ranks: seq<seq<nat>>, sas: seq<seq<nat>>,
                 cus: seq<seq<Run>>, currents: seq<seq<RankRun>>, lo: seq<int>, hi: seq<int>)
    requires LoopState(t, S, L, rank, ranks, sas, cus, currents, lo, hi) && NoneActive(L, S, sas)
    ensures Holds(ranks, S, rank) && SuffixRanks(t, rank)
  {
    forall i: nat | i < |t| ensures rank[i] == |SuffixesBelow(t, i)| {
      var c, p := ChunkOfPosition(S, i);
      PositionInChunk(ranks, S, rank, c, p);
      assert ChunkState(t, S, L, c, ranks[c], sas[c], cus[c], currents[c], lo[c], hi[c]);
      IdleChunkUnique(t, S, L, c, ranks, rank, sas[c], cus[c], currents[c], lo[c], hi[c], p);
      UniqueRanksAreSuffixRanks(t, L, i);
    }
  }

  /** The doubling loop: it ends, after a number of rounds logarithmic in the size of the files, with the
      rank of every suffix of the whole text.  room is false when refine overruns its output buffer: with
      chunks of 1 or 2 positions exactly when some chunk is active at the start, otherwise never. */
  method DoublingLoop(ranks0: seq<seq<nat>>, sas0: seq<seq<nat>>, currents0: seq<seq<RankRun>>, lo0: seq<int>,
                      hi0: seq<int>, k: nat, S: nat, curCapacity: nat, ghost t: seq<int>, ghost rank0: seq<nat>,
                      ghost cus0: seq<seq<Run>>)
    returns (room: bool, ranks: seq<seq<nat>>, ghost rank: seq<nat>, ghost rounds: nat)
    requires LoopState(t, S, k, rank0, ranks0, sas0, cus0, currents0, lo0, hi0) && 1 <= curCapacity && 1 <= k
    ensures room <==> S >= 3 || NoneActive(k, S, sas0)
    ensures room ==> Holds(ranks, S, rank) && SuffixRanks(t, rank) && |ranks| == |ranks0|
    ensures room ==> rounds >= 1 && (rounds >= 2 ==> PrefixLength(k, rounds - 2) < Capacity(|ranks|, S))
  {
    hide LoopState, Holds, SuffixRanks, NoneActive, RoundCount, PrefixLength, Capacity;
    room, ranks, rank, rounds := true, ranks0, rank0, 0;
    var sas, currents, lo, hi := sas0, currents0, lo0, hi0;
    ghost var cus := cus0;
    var L := k;
    var moreRuns := true;
    RefineAsks(t, S, k, rank, ranks, sas, cus, currents, lo, hi);
    ghost var size: nat := Capacity(|ranks|, S);
    RoundCountStart(k, size);
    while moreRuns
      invariant room && |ranks| == |ranks0| && (rounds == 0 ==> moreRuns && L == k && ranks == ranks0 && sas == sas0)
      invariant rounds >= 1 ==> S >= 3 || (NoneActive(k, S, sas0) && !moreRuns)
      invariant 1 <= L && RoundCount(k, size, L, rounds, moreRuns)
      invariant moreRuns ==> LoopState(t, S, L, rank, ranks, sas, cus, currents, lo, hi)
      invariant !moreRuns ==> Holds(ranks, S, rank) && SuffixRanks(t, rank)
      decreases moreRuns, 2 * size - L as int
    {
      RefineAsks(t, S, L, rank, ranks, sas, cus, currents, lo, hi);
      ghost var wasSas := sas;
      room, moreRuns, ranks, sas, currents, lo, hi, rank, cus :=
        OneRound(ranks, sas, currents, lo, hi, L, S, curCapacity, t, rank, cus);
      if !room {
        return;
      }
      if moreRuns {
        ActiveBoundsL(L, S, wasSas);
      } else {
        LoopDone(t, S, L, rank, ranks, sas, cus, currents, lo, hi);
      }
      RoundCountNext(k, size, L, rounds, moreRuns);
      L := 2 * L;
      rounds := rounds + 1;
    }
    RoundCountEnd(k, size, L, rounds);
  }
}
