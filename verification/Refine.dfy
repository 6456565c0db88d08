/** refine (src/refine.cpp, src/algorithm.h:19-33): load the ranks L positions on for the live window of
    a chunk from one or two rank files, and write their run-length form in suffix-array order. */
module Refine {
  import opened Chunks
  import opened RunLength

  datatype NextRankLoc = NextRankLoc(off: nat, baseChunk: nat, isEmpty: bool)

  /** next_rank_loc */
  function LocateNextRank(L: nat, S: nat, c: nat, total: nat): NextRankLoc
    requires S >= 1
  {
    NextRankLoc(L % S, c + L / S, c + L / S + 1 > total)
  }

  /** The position L past (c, p) is (baseChunk, off + p), one chunk further once off + p reaches S. */
  lemma NextRankPlace(L: nat, S: nat, c: nat, p: nat, total: nat)
    requires S >= 1 && p < S
    ensures var loc := LocateNextRank(L, S, c, total);
            && Global(S, c, p) + L == Global(S, loc.baseChunk, loc.off + p)
            && (loc.off + p >= S ==> Global(S, c, p) + L == Global(S, loc.baseChunk + 1, loc.off + p - S))
            && loc.off < S
  {
    assert L == (L / S) * S + L % S;
    assert (c + L / S) * S == c * S + (L / S) * S;
    NextBase(S, c + L / S);
  }

  /** A chunk reported empty has no position whose next rank lies inside the text. */
  lemma EmptyChunkPastEnd<T>(L: nat, S: nat, c: nat, p: nat, files: seq<seq<T>>, w: seq<T>)
    requires Holds(files, S, w) && p < S && LocateNextRank(L, S, c, |files|).isEmpty
    ensures Global(S, c, p) + L >= |w|
  {
    NextRankPlace(L, S, c, p, |files|);
    var loc := LocateNextRank(L, S, c, |files|);
    BaseMonotone(S, |files|, loc.baseChunk);
    NextBase(S, |files| - 1);
  }

  /** Which chunks have a next rank inside the text: those not reported EMPTY, but for one whose first
      next rank falls behind the end of the last file; that one goes on with stale next ranks. */
  lemma NextRankExists<T>(L: nat, S: nat, c: nat, files: seq<seq<T>>, w: seq<T>)
    requires Holds(files, S, w) && c < |files|
    ensures var loc := LocateNextRank(L, S, c, |files|);
            (exists p: nat :: p < S && Global(S, c, p) + L < |w|) <==>
            !loc.isEmpty && (loc.baseChunk + 1 < |files| || loc.off < |files[|files| - 1]|)
  {
    var loc := LocateNextRank(L, S, c, |files|);
    NextRankPlace(L, S, c, 0, |files|);
    assert (exists p: nat :: p < S && Global(S, c, p) + L < |w|) <==> Global(S, c, 0) + L < |w|;
    if loc.isEmpty {
      EmptyChunkPastEnd(L, S, c, 0, files, w);
    } else if loc.baseChunk + 1 < |files| {
      NextBase(S, loc.baseChunk);
      BaseMonotone(S, loc.baseChunk + 1, |files| - 1);
    }
  }

  /** fread of up to want entries from a place in a file into a place of a buffer. */
  method FreadAt(buf: array<nat>, at: nat, file: seq<nat>, from: nat, want: nat)
    requires at + want <= buf.Length
    modifies buf
    ensures forall k: nat :: k < buf.Length ==>
              buf[k] == if at <= k < at + want && from + k - at < |file| then file[from + k - at] else old(buf[k])
  {
    var got := if from >= |file| then 0 else if want < |file| - from then want else |file| - from;
    forall k | 0 <= k < got {
      buf[at + k] := file[from + k];
    }
  }

  /** The buffer holds the right next rank at every window position that has one. */
  ghost predicate WindowLoaded(buf: seq<nat>, rank: seq<nat>, S: nat, c: nat, L: nat, lo: int, hi: int) {
    |buf| == S && forall p: nat :: lo <= p <= hi && p < S && Global(S, c, p) + L < |rank| ==>
      buf[p] == rank[Global(S, c, p) + L]
  }

  /** All entries fit 40 bits. */
  ghost predicate Bounded(s: seq<nat>) {
    forall k: nat :: k < |s| ==> s[k] < I40_LIMIT
  }

  /** Position p of chunk c is in the window and has its next rank inside the text. */
  ghost predicate HasNext(N: nat, S: nat, c: nat, L: nat, lo: int, hi: int, p: nat) {
    lo <= p <= hi && Global(S, c, p) + L < N
  }

  /** What loading the window of chunk c makes of the buffer: next ranks where there are any, and
      everywhere else what was there. */
  ghost function Loaded(before: seq<nat>, rank: seq<nat>, S: nat, c: nat, L: nat, lo: int, hi: int): (buf: seq<nat>)
    ensures |buf| == |before|
  {
    seq(|before|, p requires 0 <= p < |before| =>
      if HasNext(|rank|, S, c, L, lo, hi, p) then rank[Global(S, c, p) + L] else before[p])
  }

  lemma LoadedBounded(before: seq<nat>, rank: seq<nat>, S: nat, c: nat, L: nat, lo: int, hi: int)
    requires |before| == S && Bounded(before) && Bounded(rank)
    ensures Bounded(Loaded(before, rank, S, c, L, lo, hi))
    ensures WindowLoaded(Loaded(before, rank, S, c, L, lo, hi), rank, S, c, L, lo, hi)
  {
  }

  /** A chunk reported EMPTY would have loaded nothing. */
  lemma NothingToLoad(before: seq<nat>, ranks: seq<seq<nat>>, rank: seq<nat>, S: nat, c: nat, L: nat, lo: int, hi: int)
    requires Holds(ranks, S, rank) && |before| == S && LocateNextRank(L, S, c, |ranks|).isEmpty
    ensures Loaded(before, rank, S, c, L, lo, hi) == before
  {
    forall p: nat | p < S ensures !HasNext(|rank|, S, c, L, lo, hi, p) {
      EmptyChunkPastEnd(L, S, c, p, ranks, rank);
    }
  }

  /** The shared buffer of refine after chunks 0 to c - 1: zeros at first. */
  ghost function SharedBuffer(rank: seq<nat>, S: nat, L: nat, lo: seq<int>, hi: seq<int>, c: nat): (buf: seq<nat>)
    requires c <= |lo| == |hi|
    ensures |buf| == S
  {
    if c == 0 then seq(S, _ => 0)
    else Loaded(SharedBuffer(rank, S, L, lo, hi, c - 1), rank, S, c - 1, L, lo[c - 1], hi[c - 1])
  }

  lemma SharedStart(rank: seq<nat>, S: nat, L: nat, lo: seq<int>, hi: seq<int>)
    requires |lo| == |hi|
    ensures SharedBuffer(rank, S, L, lo, hi, 0) == seq(S, _ => 0)
  {
  }

  lemma SharedStep(rank: seq<nat>, S: nat, L: nat, lo: seq<int>, hi: seq<int>, c: nat)
    requires c < |lo| == |hi|
    ensures SharedBuffer(rank, S, L, lo, hi, c + 1) ==
            Loaded(SharedBuffer(rank, S, L, lo, hi, c), rank, S, c, L, lo[c], hi[c])
  {
  }

  /** Where no chunk so far had a next rank the shared buffer still holds 0. */
  lemma {:induction false} SharedZero(rank: seq<nat>, S: nat, L: nat, lo: seq<int>, hi: seq<int>, c: nat, p: nat)
    requires c <= |lo| == |hi| && p < S
    requires forall d: nat :: d < c ==> !HasNext(|rank|, S, d, L, lo[d], hi[d], p)
    ensures SharedBuffer(rank, S, L, lo, hi, c)[p] == 0
  {
    if c > 0 {
      SharedZero(rank, S, L, lo, hi, c - 1, p);
      hide HasNext;
    }
  }

  /** Everywhere else it holds the next rank of the last chunk that had one there. */
  lemma {:induction false} SharedEntry(rank: seq<nat>, S: nat, L: nat, lo: seq<int>, hi: seq<int>, c: nat, p: nat,
                                       d: nat)
    requires d < c <= |lo| == |hi| && p < S && HasNext(|rank|, S, d, L, lo[d], hi[d], p)
    requires forall e: nat :: d < e < c ==> !HasNext(|rank|, S, e, L, lo[e], hi[e], p)
    ensures SharedBuffer(rank, S, L, lo, hi, c)[p] == rank[Global(S, d, p) + L]
  {
    if d < c - 1 {
      SharedEntry(rank, S, L, lo, hi, c - 1, p, d);
    }
  }

  /** The next rank of p is in the file at baseChunk, or in the one behind; past the end of the text the
      place is past the end of the file. */
  lemma NextRankInFile(ranks: seq<seq<nat>>, rank: seq<nat>, S: nat, c: nat, L: nat, p: nat)
    requires Holds(ranks, S, rank) && p < S
    ensures var loc := LocateNextRank(L, S, c, |ranks|);
            var d, q := if loc.off + p < S then loc.baseChunk else loc.baseChunk + 1,
                        if loc.off + p < S then loc.off + p else loc.off + p - S;
            && (Global(S, c, p) + L < |rank| <==> d < |ranks| && q < |ranks[d]|)
            && (Global(S, c, p) + L < |rank| ==> rank[Global(S, c, p) + L] == ranks[d][q])
  {
    var loc := LocateNextRank(L, S, c, |ranks|);
    NextRankPlace(L, S, c, p, |ranks|);
    hide Global;
    var d, q := if loc.off + p < S then loc.baseChunk else loc.baseChunk + 1,
                if loc.off + p < S then loc.off + p else loc.off + p - S;
    if Global(S, d, q) < |rank| {
      PositionInChunk(ranks, S, rank, d, q);
    }
  }

  /** Read the stretch of the window from the one or two files at the place located. */
  method ReadWindow(buf: array<nat>, ranks: seq<seq<nat>>, loc: NextRankLoc, S: nat, lo: int, hi: int)
    requires buf.Length == S && loc.off < S && loc.baseChunk < |ranks| && 0 <= lo <= hi < S
    modifies buf
    ensures forall p: nat :: p < S ==>
              var d := if loc.off + p < S then loc.baseChunk else loc.baseChunk + 1;
              var q := if loc.off + p < S then loc.off + p else loc.off + p - S;
              buf[p] == if lo <= p <= hi && d < |ranks| && q < |ranks[d]| then ranks[d][q] else old(buf[p])
  {
    if loc.off == 0 {
      FreadAt(buf, lo, ranks[loc.baseChunk], lo, hi - lo + 1);
    } else {
      var split := S - loc.off;
      var aHi := if hi < split - 1 then hi else split - 1;
      if aHi >= lo {
        FreadAt(buf, lo, ranks[loc.baseChunk], loc.off + lo, aHi - lo + 1);
      }
      var bLo := if lo > split then lo else split;
      if bLo <= hi && loc.baseChunk + 1 < |ranks| {
        FreadAt(buf, bLo, ranks[loc.baseChunk + 1], loc.off + bLo - S, hi - bLo + 1);
      }
    }
  }

  /** Load the next ranks of the window [lo, hi] (src/refine.cpp:90-133); what the files do not reach
      stays as it was. */
  method LoadWindow(buf: array<nat>, ranks: seq<seq<nat>>, L: nat, S: nat, c: nat, lo: int, hi: int,
                    ghost rank: seq<nat>)
    requires 1 <= S && Holds(ranks, S, rank) && buf.Length == S && c < |ranks|
    requires !LocateNextRank(L, S, c, |ranks|).isEmpty
    requires lo <= hi ==> 0 <= lo && hi < S
    modifies buf
    ensures buf[..] == Loaded(old(buf[..]), rank, S, c, L, lo, hi)
  {
    hide Global, Holds, Bounded;
    var loc := LocateNextRank(L, S, c, |ranks|);
    NextRankPlace(L, S, c, 0, |ranks|);
    if hi >= lo {
      ReadWindow(buf, ranks, loc, S, lo, hi);
      forall p: nat | p < S
        ensures buf[p] == if HasNext(|rank|, S, c, L, lo, hi, p) then rank[Global(S, c, p) + L] else old(buf[p])
      {
        NextRankInFile(ranks, rank, S, c, L, p);
      }
    }
  }

  /** The live list of a chunk lies in its window. */
  ghost predicate InWindow(sa: seq<nat>, lo: int, hi: int) {
    forall k: nat :: k < |sa| ==> lo <= sa[k] <= hi
  }

  /** What refine leaves for a chunk that is not empty: the run-length form of the buffer over its list. */
  ghost predicate NextsWritten(nexts: seq<RankRun>, buf: seq<nat>, sa: seq<nat>) {
    if sa == [] then nexts == []
    else (forall k: nat :: k < |sa| ==> sa[k] < |buf|) && nexts == EncodeAll(RunsOf(Gather(buf, sa)))
  }

  /** generate_local_runs_fast; more is false for EMPTY.  room is false when a record does not fit the
      output buffer of a third of a chunk, which then is overrun. */
  method GenerateLocalRuns(ranks: seq<seq<nat>>, sa: seq<nat>, L: nat, S: nat, c: nat, lo: int, hi: int,
                           buf: array<nat>, ghost rank: seq<nat>)
    returns (room: bool, more: bool, nexts: seq<RankRun>)
    requires 1 <= S && Holds(ranks, S, rank) && c < |ranks|
    requires buf.Length == S && |sa| <= S
    requires lo <= hi ==> 0 <= lo && hi < S
    requires InWindow(sa, lo, hi)
    modifies buf
    ensures buf[..] == Loaded(old(buf[..]), rank, S, c, L, lo, hi)
    ensures room <==> S >= 3 || !Active(L, S, c, |ranks|, sa)
    ensures more <==> Active(L, S, c, |ranks|, sa)
    ensures LocateNextRank(L, S, c, |ranks|).isEmpty ==> nexts == []
    ensures room && !LocateNextRank(L, S, c, |ranks|).isEmpty ==> NextsWritten(nexts, buf[..], sa)
  {
    hide Holds, Loaded, RunsOf;
    var loc := LocateNextRank(L, S, c, |ranks|);
    if loc.isEmpty {
      NothingToLoad(buf[..], ranks, rank, S, c, L, lo, hi);
      return true, false, [];
    }
    LoadWindow(buf, ranks, L, S, c, lo, hi, rank);
    if |sa| == 0 {
      return true, false, [];
    }
    assert InWindow(sa, lo, hi) && lo <= sa[0] <= hi;
    room, nexts := EmitRunsOf(buf[..], sa, S / 3);
    RoomOfScan(Gather(buf[..], sa), S);
    more := true;
  }

  /** A scan of a chunk fits the buffer, or its first record already does not. */
  lemma RoomOfScan(s: seq<nat>, S: nat)
    requires 1 <= |s| <= S
    ensures (forall k: nat :: k < |RunsOf(s)| ==> Room(S / 3, RunsOf(s)[k].count)) <==> S >= 3
  {
    if S >= 3 {
      ThirdOfChunkSuffices(S);
    } else {
      assert !Room(S / 3, RunsOf(s)[0].count);
    }
  }

  /** What refine leaves for chunk c; buf is what the shared buffer held after its window was loaded. */
  ghost predicate ChunkRefined(ranks: seq<seq<nat>>, rank: seq<nat>, sa: seq<nat>, lo: int, hi: int, L: nat, S: nat,
                               c: nat, nexts: seq<RankRun>, buf: seq<nat>)
    requires S >= 1
  {
    && |buf| == S && Bounded(buf)
    && if LocateNextRank(L, S, c, |ranks|).isEmpty then nexts == []
       else WindowLoaded(buf, rank, S, c, L, lo, hi) && NextsWritten(nexts, buf, sa)
  }

  /** The chunk takes part in this round. */
  ghost predicate Active(L: nat, S: nat, c: nat, total: nat, sa: seq<nat>)
    requires S >= 1
  {
    !LocateNextRank(L, S, c, total).isEmpty && sa != []
  }

  /** No chunk takes part: the loop is at its end. */
  ghost predicate NoneActive(L: nat, S: nat, sas: seq<seq<nat>>)
    requires S >= 1
  {
    forall c: nat :: c < |sas| ==> !Active(L, S, c, |sas|, sas[c])
  }

  /** The driver of refine (src/refine.cpp:186-204): one buffer for all chunks, so each sees what the
      ones before left in it; more is false when every chunk was EMPTY. */
  method RefineAll(ranks: seq<seq<nat>>, sas: seq<seq<nat>>, lo: seq<int>, hi: seq<int>, L: nat, S: nat,
                   ghost rank: seq<nat>)
    returns (room: bool, more: bool, nexts: seq<seq<RankRun>>, ghost bufs: seq<seq<nat>>)
    requires 1 <= S && Holds(ranks, S, rank) && Bounded(rank)
    requires |sas| == |lo| == |hi| == |ranks|
    requires forall c: nat :: c < |sas| ==> |sas[c]| <= S && InWindow(sas[c], lo[c], hi[c])
    requires forall c: nat :: c < |sas| ==> lo[c] <= hi[c] ==> 0 <= lo[c] && hi[c] < S
    ensures room <==> S >= 3 || NoneActive(L, S, sas)
    ensures room ==> |nexts| == |bufs| == |ranks|
    ensures room ==> (more <==> !NoneActive(L, S, sas))
    ensures room ==> forall c: nat :: c < |ranks| ==> bufs[c] == SharedBuffer(rank, S, L, lo, hi, c + 1)
    ensures room ==>
              forall c: nat :: c < |ranks| ==> ChunkRefined(ranks, rank, sas[c], lo[c], hi[c], L, S, c, nexts[c],
                                                            bufs[c])
  {
    hide Holds, Loaded, NextsWritten, InWindow, ChunkRefined, Bounded, SharedBuffer, WindowLoaded, LocateNextRank;
    var buf := new nat[S](_ => 0);
    assert buf[..] == seq(S, _ => 0);
    ZerosBounded(S);
    SharedStart(rank, S, L, lo, hi);
    room, more, nexts, bufs := true, false, [], [];
    for c := 0 to |ranks|
      invariant room && |nexts| == |bufs| == c && Bounded(buf[..]) && buf[..] == SharedBuffer(rank, S, L, lo, hi, c)
      invariant forall d: nat :: d < c ==> bufs[d] == SharedBuffer(rank, S, L, lo, hi, d + 1)
      invariant S >= 3 || forall d: nat :: d < c ==> !Active(L, S, d, |ranks|, sas[d])
      invariant more <==> exists d: nat :: d < c && Active(L, S, d, |ranks|, sas[d])
      invariant forall d: nat :: d < c ==> ChunkRefined(ranks, rank, sas[d], lo[d], hi[d], L, S, d, nexts[d], bufs[d])
    {
      var result, file;
      SharedStep(rank, S, L, lo, hi, c);
      LoadedBounded(buf[..], rank, S, c, L, lo[c], hi[c]);
      room, result, file := GenerateLocalRuns(ranks, sas[c], L, S, c, lo[c], hi[c], buf, rank);
      if !room {
        return;
      }
      ChunkIsRefined(ranks, rank, sas[c], lo[c], hi[c], L, S, c, file, buf[..]);
      nexts, bufs := nexts + [file], bufs + [buf[..]];
      if result {
        more := true;
      }
    }
  }

  lemma ZerosBounded(S: nat)
    ensures Bounded(seq(S, _ => 0))
  {
  }

  lemma ChunkIsRefined(ranks: seq<seq<nat>>, rank: seq<nat>, sa: seq<nat>, lo: int, hi: int, L: nat, S: nat, c: nat,
                       nexts: seq<RankRun>, buf: seq<nat>)
    requires S >= 1
    requires LocateNextRank(L, S, c, |ranks|).isEmpty ==> nexts == []
    requires !LocateNextRank(L, S, c, |ranks|).isEmpty ==>
               WindowLoaded(buf, rank, S, c, L, lo, hi) && NextsWritten(nexts, buf, sa)
    requires |buf| == S && Bounded(buf)
    ensures ChunkRefined(ranks, rank, sa, lo, hi, L, S, c, nexts, buf)
  {
  }
}
