/** One round of the doubling loop on the files: what refine leaves makes merge's totals the group sizes
    of the doubling step, so the records merge writes are the fates that carry every chunk from L to 2L. */
module Rounds {
  import opened Chunks
  import opened RunLength
  import opened JointWalk
  import opened Resolution
  import opened Doubling
  import opened Update

  // ---- counting pairs ----

  ghost function CountBelow(z: seq<(nat, nat)>, c: nat, n: nat): nat {
    if z == [] then 0 else (if z[0].0 == c && z[0].1 < n then 1 else 0) + CountBelow(z[1..], c, n)
  }

  ghost function CountSame(z: seq<(nat, nat)>, c: nat, n: nat): nat {
    if z == [] then 0 else (if z[0].0 == c && z[0].1 == n then 1 else 0) + CountSame(z[1..], c, n)
  }

  lemma {:induction false} CountCopies(v: (nat, nat), k: nat, z: seq<(nat, nat)>, c: nat, n: nat)
    ensures CountBelow(seq(k, _ => v) + z, c, n) == CountBelow(z, c, n) + if v.0 == c && v.1 < n then k else 0
    ensures CountSame(seq(k, _ => v) + z, c, n) == CountSame(z, c, n) + if v.0 == c && v.1 == n then k else 0
  {
    if k == 0 {
      assert seq(0, _ => v) + z == z;
    } else {
      assert (seq(k, _ => v) + z)[1..] == seq(k - 1, _ => v) + z;
      CountCopies(v, k - 1, z, c, n);
    }
  }

  /** Weighing triplets counts the entries they stand for. */
  lemma {:induction false} WeightIsCount(ts: seq<Triplet>, c: nat, n: nat)
    ensures Below(ts, c, n) == CountBelow(ExpandTriplets(ts), c, n)
    ensures Same(ts, c, n) == CountSame(ExpandTriplets(ts), c, n)
  {
    if ts != [] {
      WeightIsCount(ts[1..], c, n);
      CountCopies((ts[0].cur, ts[0].next), ts[0].count, ExpandTriplets(ts[1..]), c, n);
    }
  }

  // ---- live positions ----

  /** The global positions of a chunk's list. */
  ghost function ChunkLive(sa: seq<nat>, S: nat, c: nat): (live: set<nat>)
  {
    set p | p in sa :: Global(S, c, p)
  }

  ghost function LiveFrom(act: seq<seq<nat>>, S: nat, k: nat): set<nat>
    requires k <= |act|
    decreases |act| - k
  {
    if k == |act| then {} else ChunkLive(act[k], S, k) + LiveFrom(act, S, k + 1)
  }

  lemma {:induction false} LiveFromMembers(act: seq<seq<nat>>, S: nat, k: nat, g: nat)
    requires k <= |act|
    ensures g in LiveFrom(act, S, k) <==> exists c: nat, p: nat :: k <= c < |act| && p in act[c] && g == Global(S, c, p)
    decreases |act| - k
  {
    if k < |act| {
      LiveFromMembers(act, S, k + 1, g);
      if g in ChunkLive(act[k], S, k) {
        var p: nat :| p in act[k] && g == Global(S, k, p);
      }
    }
  }

  /** The pairs of a chunk's list. */
  ghost function PairsOf(ranks: seq<nat>, buf: seq<nat>, sa: seq<nat>): (z: seq<(nat, nat)>)
    requires forall k: nat :: k < |sa| ==> sa[k] < |ranks| && sa[k] < |buf|
    ensures |z| == |sa|
  {
    seq(|sa|, k requires 0 <= k < |sa| => (ranks[sa[k]], buf[sa[k]]))
  }

  /** The local tables agree with the global ones on the list. */
  ghost predicate Agrees(rank: seq<nat>, nxt: seq<nat>, S: nat, c: nat, ranks: seq<nat>, buf: seq<nat>, sa: seq<nat>) {
    |rank| == |nxt| && forall k: nat :: k < |sa| ==>
      && sa[k] < |ranks| && sa[k] < |buf| && Global(S, c, sa[k]) < |rank|
      && rank[Global(S, c, sa[k])] == ranks[sa[k]] && nxt[Global(S, c, sa[k])] == buf[sa[k]]
  }

  lemma GroupMembers(rank: seq<nat>, nxt: seq<nat>, live: set<nat>, c: nat, n: nat)
    requires |nxt| == |rank| && forall h :: h in live ==> h < |rank|
    ensures forall h :: h in GroupBelow(rank, nxt, live, c, n) <==> h in live && rank[h] == c && nxt[h] < n
    ensures forall h :: h in GroupSame(rank, nxt, live, c, n) <==> h in live && rank[h] == c && nxt[h] == n
  {
  }

  lemma GroupAdd(rank: seq<nat>, nxt: seq<nat>, live: set<nat>, g: nat, c: nat, n: nat)
    requires |nxt| == |rank| && g < |rank| && g !in live && forall h :: h in live ==> h < |rank|
    ensures |GroupBelow(rank, nxt, live + {g}, c, n)| ==
            |GroupBelow(rank, nxt, live, c, n)| + if rank[g] == c && nxt[g] < n then 1 else 0
    ensures |GroupSame(rank, nxt, live + {g}, c, n)| ==
            |GroupSame(rank, nxt, live, c, n)| + if rank[g] == c && nxt[g] == n then 1 else 0
  {
    GroupMembers(rank, nxt, live, c, n);
    GroupMembers(rank, nxt, live + {g}, c, n);
    hide GroupBelow, GroupSame;
    var below, same := GroupBelow(rank, nxt, live, c, n), GroupSame(rank, nxt, live, c, n);
    assert GroupBelow(rank, nxt, live + {g}, c, n) == if rank[g] == c && nxt[g] < n then below + {g} else below;
    assert GroupSame(rank, nxt, live + {g}, c, n) == if rank[g] == c && nxt[g] == n then same + {g} else same;
  }

  lemma ChunkLiveFirst(sa: seq<nat>, S: nat, c: nat)
    requires sa != [] && Distinct(sa)
    ensures Distinct(sa[1..])
    ensures Global(S, c, sa[0]) !in ChunkLive(sa[1..], S, c)
    ensures ChunkLive(sa, S, c) == ChunkLive(sa[1..], S, c) + {Global(S, c, sa[0])}
  {
    assert sa == [sa[0]] + sa[1..];
  }

  lemma ChunkLiveInRange(rank: seq<nat>, nxt: seq<nat>, S: nat, c: nat, ranks: seq<nat>, buf: seq<nat>, sa: seq<nat>)
    requires Agrees(rank, nxt, S, c, ranks, buf, sa)
    ensures forall g :: g in ChunkLive(sa, S, c) ==> g < |rank|
  {
  }

  /** Counting the pairs of a chunk counts its live positions. */
  lemma {:induction false} CountIsGroup(rank: seq<nat>, nxt: seq<nat>, S: nat, c: nat, ranks: seq<nat>, buf: seq<nat>,
                                        sa: seq<nat>, cc: nat, n: nat)
    requires Agrees(rank, nxt, S, c, ranks, buf, sa) && Distinct(sa)
    ensures forall g :: g in ChunkLive(sa, S, c) ==> g < |rank|
    ensures CountBelow(PairsOf(ranks, buf, sa), cc, n) == |GroupBelow(rank, nxt, ChunkLive(sa, S, c), cc, n)|
    ensures CountSame(PairsOf(ranks, buf, sa), cc, n) == |GroupSame(rank, nxt, ChunkLive(sa, S, c), cc, n)|
  {
    ChunkLiveInRange(rank, nxt, S, c, ranks, buf, sa);
    if sa == [] {
      assert ChunkLive(sa, S, c) == {};
    } else {
      ChunkLiveFirst(sa, S, c);
      var g := Global(S, c, sa[0]);
      assert PairsOf(ranks, buf, sa)[1..] == PairsOf(ranks, buf, sa[1..]);
      hide GroupBelow, GroupSame, ChunkLive, Global, Distinct;
      CountIsGroup(rank, nxt, S, c, ranks, buf, sa[1..], cc, n);
      GroupAdd(rank, nxt, ChunkLive(sa[1..], S, c), g, cc, n);
    }
  }

  lemma GroupUnion(rank: seq<nat>, nxt: seq<nat>, a: set<nat>, b: set<nat>, c: nat, n: nat)
    requires |nxt| == |rank| && a !! b && forall h :: h in a + b ==> h < |rank|
    ensures |GroupBelow(rank, nxt, a + b, c, n)| == |GroupBelow(rank, nxt, a, c, n)| + |GroupBelow(rank, nxt, b, c, n)|
    ensures |GroupSame(rank, nxt, a + b, c, n)| == |GroupSame(rank, nxt, a, c, n)| + |GroupSame(rank, nxt, b, c, n)|
  {
    assert GroupBelow(rank, nxt, a + b, c, n) == GroupBelow(rank, nxt, a, c, n) + GroupBelow(rank, nxt, b, c, n);
    assert GroupSame(rank, nxt, a + b, c, n) == GroupSame(rank, nxt, a, c, n) + GroupSame(rank, nxt, b, c, n);
  }

  /** The triplets of every chunk stand for the pairs of its list, and the local tables for the global ones. */
  ghost predicate Represents(Ts: seq<seq<Triplet>>, rank: seq<nat>, nxt: seq<nat>, S: nat, ranks: seq<seq<nat>>,
                             bufs: seq<seq<nat>>, act: seq<seq<nat>>) {
    && |Ts| == |ranks| == |bufs| == |act| && |nxt| == |rank|
    && forall c: nat :: c < |act| ==>
         && Agrees(rank, nxt, S, c, ranks[c], bufs[c], act[c])
         && Distinct(act[c]) && (forall k: nat :: k < |act[c]| ==> act[c][k] < S)
         && ExpandTriplets(Ts[c]) == PairsOf(ranks[c], bufs[c], act[c])
  }

  lemma ChunksApart(act: seq<seq<nat>>, S: nat, k: nat)
    requires k < |act| && forall c: nat, i: nat :: c < |act| && i < |act[c]| ==> act[c][i] < S
    ensures ChunkLive(act[k], S, k) !! LiveFrom(act, S, k + 1)
  {
    forall g | g in ChunkLive(act[k], S, k) ensures g !in LiveFrom(act, S, k + 1) {
      if g in LiveFrom(act, S, k + 1) {
        LiveFromMembers(act, S, k + 1, g);
        var p: nat :| p in act[k] && g == Global(S, k, p);
        var d: nat, q: nat :| k + 1 <= d < |act| && q in act[d] && g == Global(S, d, q);
        SamePlace(S, k, p, d, q);
      }
    }
  }

  /** Merge's totals over all streams are the sizes of the groups of the doubling step. */
  lemma {:induction false} TotalIsGroup(Ts: seq<seq<Triplet>>, rank: seq<nat>, nxt: seq<nat>, S: nat,
                                        ranks: seq<seq<nat>>, bufs: seq<seq<nat>>, act: seq<seq<nat>>, k: nat, c: nat,
                                        n: nat)
    requires Represents(Ts, rank, nxt, S, ranks, bufs, act) && k <= |Ts|
    ensures forall g :: g in LiveFrom(act, S, k) ==> g < |rank|
    ensures TotalBelow(Ts[k..], c, n) == |GroupBelow(rank, nxt, LiveFrom(act, S, k), c, n)|
    ensures TotalSame(Ts[k..], c, n) == |GroupSame(rank, nxt, LiveFrom(act, S, k), c, n)|
    decreases |Ts| - k
  {
    if k == |Ts| {
      assert Ts[k..] == [];
      assert LiveFrom(act, S, k) == {};
    } else {
      assert Ts[k..][1..] == Ts[k + 1..] && Ts[k..][0] == Ts[k];
      ChunksApart(act, S, k);
      WeightIsCount(Ts[k], c, n);
      CountIsGroup(rank, nxt, S, k, ranks[k], bufs[k], act[k], c, n);
      hide GroupBelow, GroupSame, ChunkLive;
      TotalIsGroup(Ts, rank, nxt, S, ranks, bufs, act, k + 1, c, n);
      GroupUnion(rank, nxt, ChunkLive(act[k], S, k), LiveFrom(act, S, k + 1), c, n);
    }
  }

  // ---- fates ----

  ghost function LivePositions(act: seq<seq<nat>>, S: nat): set<nat> {
    LiveFrom(act, S, 0)
  }

  /** The fate of a position in the round from L to 2L. */
  ghost function FateAt(t: seq<int>, L: nat, i: nat): Fate
    requires i < |t|
  {
    Fate(Rank(t, 2 * L, i), !Unique(t, 2 * L, i))
  }

  lemma ResolveIsFate(t: seq<int>, L: nat, Ts: seq<seq<Triplet>>, rank: seq<nat>, nxt: seq<nat>, S: nat,
                      ranks: seq<seq<nat>>, bufs: seq<seq<nat>>, act: seq<seq<nat>>, i: nat, x: Triplet)
    requires IsText(t) && RanksAt(t, L, rank) && Represents(Ts, rank, nxt, S, ranks, bufs, act)
    requires var live := LivePositions(act, S); NextsAt(rank, L, nxt, live) && LiveCovers(t, L, live) && i in live
    requires x.cur == rank[i] && x.next == nxt[i]
    ensures Resolve(Ts, x).rank == Rank(t, 2 * L, i)
    ensures Resolve(Ts, x).count == if Unique(t, 2 * L, i) then 0 else x.count
  {
    assert Ts[0..] == Ts;
    TotalIsGroup(Ts, rank, nxt, S, ranks, bufs, act, 0, x.cur, x.next);
    DoublingStep(t, L, rank, nxt, LivePositions(act, S), i);
  }

  /** What a round knows: ranks at L, next ranks for the live positions, and triplets that represent them. */
  ghost predicate RoundReady(t: seq<int>, L: nat, Ts: seq<seq<Triplet>>, rank: seq<nat>, nxt: seq<nat>, S: nat,
                             ranks: seq<seq<nat>>, bufs: seq<seq<nat>>, act: seq<seq<nat>>) {
    && IsText(t) && |t| <= I40_LIMIT && S <= INT_MAX && RanksAt(t, L, rank)
    && Represents(Ts, rank, nxt, S, ranks, bufs, act)
    && NextsAt(rank, L, nxt, LivePositions(act, S)) && LiveCovers(t, L, LivePositions(act, S))
  }

  lemma EntryFate(t: seq<int>, L: nat, Ts: seq<seq<Triplet>>, rank: seq<nat>, nxt: seq<nat>, S: nat,
                  ranks: seq<seq<nat>>, bufs: seq<seq<nat>>, act: seq<seq<nat>>, c: nat, m: nat, x: Triplet)
    requires RoundReady(t, L, Ts, rank, nxt, S, ranks, bufs, act)
    requires c < |act| && m < |act[c]| && Agrees(rank, nxt, S, c, ranks[c], bufs[c], act[c])
    requires PairsOf(ranks[c], bufs[c], act[c])[m] == (x.cur, x.next)
    ensures Global(S, c, act[c][m]) < |t|
    ensures Resolve(Ts, x).rank == Rank(t, 2 * L, Global(S, c, act[c][m]))
    ensures Resolve(Ts, x).count == if Unique(t, 2 * L, Global(S, c, act[c][m])) then 0 else x.count
  {
    var p := act[c][m];
    LiveFromMembers(act, S, 0, Global(S, c, p));
    ResolveIsFate(t, L, Ts, rank, nxt, S, ranks, bufs, act, Global(S, c, p), x);
  }

  /** The fates are those of the entries of the list from m on. */
  ghost predicate FatesRight(t: seq<int>, L: nat, S: nat, c: nat, sa: seq<nat>, m: nat, fates: seq<Fate>) {
    m + |fates| <= |sa| && forall j: nat :: j < |fates| ==>
      Global(S, c, sa[m + j]) < |t| && fates[j] == FateAt(t, L, Global(S, c, sa[m + j]))
  }

  /** One triplet: every entry it covers gets its fate. */
  lemma TripletFates(t: seq<int>, L: nat, Ts: seq<seq<Triplet>>, rank: seq<nat>, nxt: seq<nat>, S: nat,
                     ranks: seq<seq<nat>>, bufs: seq<seq<nat>>, act: seq<seq<nat>>, c: nat, m: nat, x: Triplet)
    requires RoundReady(t, L, Ts, rank, nxt, S, ranks, bufs, act)
    requires c < |act| && 1 <= x.count && m + x.count <= |act[c]| && Agrees(rank, nxt, S, c, ranks[c], bufs[c], act[c])
    requires forall j: nat :: m <= j < m + x.count ==> PairsOf(ranks[c], bufs[c], act[c])[j] == (x.cur, x.next)
    ensures |FatesOf(Resolve(Ts, x))| == x.count && Resolve(Ts, x).rank < |t| <= I40_LIMIT && S <= INT_MAX
    ensures FatesRight(t, L, S, c, act[c], m, FatesOf(Resolve(Ts, x)))
  {
    hide RoundReady, Represents, LivePositions, LiveFrom, Resolve, Unique, Rank;
    RoundBounds(t, L, Ts, rank, nxt, S, ranks, bufs, act);
    EntryFate(t, L, Ts, rank, nxt, S, ranks, bufs, act, c, m, x);
    RankBelowLength(t, 2 * L, Global(S, c, act[c][m]));
    if x.count > 1 && Resolve(Ts, x).count == 0 {
      EntryFate(t, L, Ts, rank, nxt, S, ranks, bufs, act, c, m + 1, x);
      DifferentPlaces(rank, nxt, S, c, ranks, bufs, act, Ts, t, L, m);
      SharedRankNotUnique(t, 2 * L, Global(S, c, act[c][m]), Global(S, c, act[c][m + 1]));
    }
    forall j: nat | j < x.count
      ensures Global(S, c, act[c][m + j]) < |t|
      ensures FatesOf(Resolve(Ts, x))[j] == FateAt(t, L, Global(S, c, act[c][m + j]))
    {
      EntryFate(t, L, Ts, rank, nxt, S, ranks, bufs, act, c, m + j, x);
    }
  }

  lemma RoundBounds(t: seq<int>, L: nat, Ts: seq<seq<Triplet>>, rank: seq<nat>, nxt: seq<nat>, S: nat,
                    ranks: seq<seq<nat>>, bufs: seq<seq<nat>>, act: seq<seq<nat>>)
    requires RoundReady(t, L, Ts, rank, nxt, S, ranks, bufs, act)
    ensures |t| <= I40_LIMIT && S <= INT_MAX && |ranks| == |bufs| == |act| == |Ts| && |rank| == |nxt| == |t|
  {
  }

  lemma DifferentPlaces(rank: seq<nat>, nxt: seq<nat>, S: nat, c: nat, ranks: seq<seq<nat>>, bufs: seq<seq<nat>>,
                        act: seq<seq<nat>>, Ts: seq<seq<Triplet>>, t: seq<int>, L: nat, m: nat)
    requires RoundReady(t, L, Ts, rank, nxt, S, ranks, bufs, act) && c < |act| && m + 1 < |act[c]|
    ensures Global(S, c, act[c][m]) != Global(S, c, act[c][m + 1])
  {
    assert Distinct(act[c]);
  }

  lemma SharedRankNotUnique(t: seq<int>, L: nat, i: nat, j: nat)
    requires i < |t| && j < |t| && i != j && Rank(t, L, i) == Rank(t, L, j)
    ensures !Unique(t, L, i)
  {
    RankOrder(t, L, j, i);
  }

  lemma ExpandHead(ts: seq<Triplet>, z: seq<(nat, nat)>)
    requires ts != [] && ExpandTriplets(ts) == z
    ensures ts[0].count <= |z| && ExpandTriplets(ts[1..]) == z[ts[0].count..]
    ensures forall j: nat :: j < ts[0].count ==> z[j] == (ts[0].cur, ts[0].next)
  {
  }

  lemma ExpandEmpty(ts: seq<Triplet>, z: seq<(nat, nat)>)
    requires PositiveTriplets(ts) && ExpandTriplets(ts) == z
    ensures ts == [] <==> z == []
  {
    if ts != [] {
      ExpandHead(ts, z);
    }
  }

  lemma FatesJoin(t: seq<int>, L: nat, S: nat, c: nat, sa: seq<nat>, m: nat, a: seq<Fate>, b: seq<Fate>)
    requires FatesRight(t, L, S, c, sa, m, a) && FatesRight(t, L, S, c, sa, m + |a|, b)
    ensures FatesRight(t, L, S, c, sa, m, a + b)
  {
    hide FateAt, Global;
    forall j: nat | j < |a + b|
      ensures Global(S, c, sa[m + j]) < |t| && (a + b)[j] == FateAt(t, L, Global(S, c, sa[m + j]))
    {
      if j < |a| {
        assert (a + b)[j] == a[j];
      } else {
        assert (a + b)[j] == b[j - |a|];
        assert sa[m + j] == sa[m + |a| + (j - |a|)];
      }
    }
  }

  lemma ResolveFits(t: seq<int>, L: nat, Ts: seq<seq<Triplet>>, x: Triplet, rest: seq<Run>, S: nat)
    requires |t| <= I40_LIMIT && Resolve(Ts, x).rank < |t| && x.count <= S <= INT_MAX && AllFit(rest)
    ensures AllFit([Resolve(Ts, x)] + rest)
    ensures Fates([Resolve(Ts, x)] + rest) == FatesOf(Resolve(Ts, x)) + Fates(rest)
  {
    var all := [Resolve(Ts, x)] + rest;
    assert all[1..] == rest;
    forall k: nat | k < |all| ensures Fits(all[k]) {
      assert k > 0 ==> all[k] == rest[k - 1];
    }
  }

  lemma HeadOfRest(z: seq<(nat, nat)>, m: nat, x: Triplet)
    requires m + x.count <= |z| && forall j: nat :: j < x.count ==> z[m..][j] == (x.cur, x.next)
    ensures z[m..][x.count..] == z[m + x.count..]
    ensures forall j: nat :: m <= j < m + x.count ==> z[j] == (x.cur, x.next)
  {
    forall j: nat | m <= j < m + x.count ensures z[j] == (x.cur, x.next) {
      assert z[j] == z[m..][j - m];
    }
  }

  lemma PositiveTail(ts: seq<Triplet>)
    requires PositiveTriplets(ts) && ts != []
    ensures PositiveTriplets(ts[1..]) && 1 <= ts[0].count
  {
  }

  lemma ResolveHead(Ts: seq<seq<Triplet>>, ts: seq<Triplet>)
    requires ts != []
    ensures ResolveAll(Ts, ts) == [Resolve(Ts, ts[0])] + ResolveAll(Ts, ts[1..])
  {
  }

  /** The records for the triplets of a chunk prescribe every entry its fate. */
  lemma {:induction false} ChunkFates(t: seq<int>, L: nat, Ts: seq<seq<Triplet>>, rank: seq<nat>, nxt: seq<nat>, S: nat,
                                      ranks: seq<seq<nat>>, bufs: seq<seq<nat>>, act: seq<seq<nat>>, c: nat, m: nat,
                                      ts: seq<Triplet>)
    requires RoundReady(t, L, Ts, rank, nxt, S, ranks, bufs, act)
    requires c < |act| && m <= |act[c]| <= S && Agrees(rank, nxt, S, c, ranks[c], bufs[c], act[c])
    requires PositiveTriplets(ts) && ExpandTriplets(ts) == PairsOf(ranks[c], bufs[c], act[c])[m..]
    ensures AllFit(ResolveAll(Ts, ts)) && |Fates(ResolveAll(Ts, ts))| == |act[c]| - m
    ensures FatesRight(t, L, S, c, act[c], m, Fates(ResolveAll(Ts, ts)))
    decreases |ts|
  {
    var z := PairsOf(ranks[c], bufs[c], act[c]);
    hide RoundReady, Represents, FatesRight, Resolve, FateAt, Fates, FatesOf, ExpandTriplets, LivePositions, Agrees,
      AllFit;
    RoundBounds(t, L, Ts, rank, nxt, S, ranks, bufs, act);
    ExpandEmpty(ts, z[m..]);
    if ts == [] {
      NoFates(t, L, S, c, act[c], m);
    } else {
      var x := ts[0];
      ExpandHead(ts, z[m..]);
      HeadOfRest(z, m, x);
      PositiveTail(ts);
      ResolveHead(Ts, ts);
      hide PositiveTriplets, PairsOf, ResolveAll;
      ChunkFates(t, L, Ts, rank, nxt, S, ranks, bufs, act, c, m + x.count, ts[1..]);
      TripletFates(t, L, Ts, rank, nxt, S, ranks, bufs, act, c, m, x);
      ResolveFits(t, L, Ts, x, ResolveAll(Ts, ts[1..]), S);
      FatesJoin(t, L, S, c, act[c], m, FatesOf(Resolve(Ts, x)), Fates(ResolveAll(Ts, ts[1..])));
    }
  }

  lemma NoFates(t: seq<int>, L: nat, S: nat, c: nat, sa: seq<nat>, m: nat)
    requires m <= |sa|
    ensures Fates([]) == [] && AllFit([]) && FatesRight(t, L, S, c, sa, m, [])
  {
  }

  // ---- the order of the records ----

  /** Every triplet stands for some entry of the list. */
  lemma {:induction false} TripletEntry(ts: seq<Triplet>, z: seq<(nat, nat)>, k: nat) returns (m: nat)
    requires PositiveTriplets(ts) && ExpandTriplets(ts) == z && k < |ts|
    ensures m < |z| && z[m] == (ts[k].cur, ts[k].next)
  {
    ExpandHead(ts, z);
    if k == 0 {
      m := 0;
    } else {
      var n := ts[0].count;
      m := TripletEntry(ts[1..], z[n..], k - 1);
      m := n + m;
    }
  }

  /** The entries of a later triplet come later. */
  lemma {:induction false} TripletEntries(ts: seq<Triplet>, z: seq<(nat, nat)>, i: nat, j: nat)
    returns (m: nat, l: nat)
    requires PositiveTriplets(ts) && ExpandTriplets(ts) == z && i < j < |ts|
    ensures m < l < |z| && z[m] == (ts[i].cur, ts[i].next) && z[l] == (ts[j].cur, ts[j].next)
  {
    ExpandHead(ts, z);
    var n := ts[0].count;
    if i == 0 {
      l := TripletEntry(ts[1..], z[n..], j - 1);
      m, l := 0, n + l;
    } else {
      m, l := TripletEntries(ts[1..], z[n..], i - 1, j - 1);
      m, l := n + m, n + l;
    }
  }

  /** The position behind an entry, with its rank at 2L. */
  lemma EntryRank(t: seq<int>, L: nat, Ts: seq<seq<Triplet>>, rank: seq<nat>, nxt: seq<nat>, S: nat,
                  ranks: seq<seq<nat>>, bufs: seq<seq<nat>>, act: seq<seq<nat>>, c: nat, m: nat, x: Triplet)
    returns (g: nat)
    requires RoundReady(t, L, Ts, rank, nxt, S, ranks, bufs, act)
    requires c < |act| && m < |act[c]| && Agrees(rank, nxt, S, c, ranks[c], bufs[c], act[c])
    requires PairsOf(ranks[c], bufs[c], act[c])[m] == (x.cur, x.next)
    ensures g in LivePositions(act, S) && g < |t| == |rank| == |nxt| && rank[g] == x.cur && nxt[g] == x.next
    ensures Resolve(Ts, x).rank == Rank(t, 2 * L, g)
  {
    g := Global(S, c, act[c][m]);
    LiveFromMembers(act, S, 0, g);
    hide Rank, Unique;
    ResolveIsFate(t, L, Ts, rank, nxt, S, ranks, bufs, act, g, x);
  }

  /** The records of a chunk have rising ranks. */
  lemma RecordsRise(t: seq<int>, L: nat, Ts: seq<seq<Triplet>>, rank: seq<nat>, nxt: seq<nat>, S: nat,
                    ranks: seq<seq<nat>>, bufs: seq<seq<nat>>, act: seq<seq<nat>>, c: nat, ts: seq<Triplet>)
    requires RoundReady(t, L, Ts, rank, nxt, S, ranks, bufs, act)
    requires c < |act| && Agrees(rank, nxt, S, c, ranks[c], bufs[c], act[c])
    requires PositiveTriplets(ts) && ExpandTriplets(ts) == PairsOf(ranks[c], bufs[c], act[c])
    requires Sorted(ts) && NeighboursDiffer(ts)
    ensures RisingRanks(ResolveAll(Ts, ts))
  {
    var z, runs := PairsOf(ranks[c], bufs[c], act[c]), ResolveAll(Ts, ts);
    hide Agrees, Resolve, LivePositions, Rank, PairsOf, PositiveTriplets, ExpandTriplets, Sorted, NeighboursDiffer,
      Represents;
    forall i: nat, j: nat | i < j < |runs| ensures runs[i].rank < runs[j].rank {
      SortedAndDifferent(ts, i, j);
      var m := TripletEntry(ts, z, i);
      var l := TripletEntry(ts, z, j);
      var g := EntryRank(t, L, Ts, rank, nxt, S, ranks, bufs, act, c, m, ts[i]);
      var h := EntryRank(t, L, Ts, rank, nxt, S, ranks, bufs, act, c, l, ts[j]);
      PairsDecideRank(t, L, rank, nxt, LivePositions(act, S), g, h);
    }
  }
}
