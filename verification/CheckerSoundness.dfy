/** What the checker's verdict means: its local comparisons decide the order of whole suffixes. */
module CheckerSoundness {
  import opened Arithmetic
  import opened SuffixOrder
  import opened Chunks
  import opened Doubling
  import opened Inversion
  import opened Checker

  /** sa lists every position of t exactly once, in increasing order of the suffixes. */
  ghost predicate IsSuffixArray(t: seq<int>, sa: seq<int>) {
    (forall v: nat :: v < |sa| ==> 0 <= sa[v]) && PartialSuffixArray(t, 0, |t|, sa)
  }

  // ---- local order is suffix order ----

  /** What the checker compares for two positions: the first symbols and the ranks that follow. */
  ghost predicate LocalLess(t: seq<int>, rank: seq<nat>, m: nat, l: nat)
    requires m < |t| && l < |t|
  {
    LexLessStrict(EncodeFirstKey(t[m], SentinelId(t[m])), NextRank(rank, m),
                  EncodeFirstKey(t[l], SentinelId(t[l])), NextRank(rank, l))
  }

  /** If smaller ranks always compare smaller locally, they belong to smaller suffixes. */
  lemma {:induction false} LocalOrderIsSuffixOrder(t: seq<int>, rank: seq<nat>, m: nat, l: nat)
    requires IsText(t) && |rank| == |t| && m < |t| && l < |t| && rank[m] < rank[l]
    requires forall p: nat, q: nat :: p < |t| && q < |t| && rank[p] < rank[q] ==> LocalLess(t, rank, p, q)
    ensures SuffixLess(t, m, l)
    decreases |t| - m
  {
    assert LocalLess(t, rank, m, l);
    if t[m] == t[l] && m + 1 < |t| && l + 1 < |t| {
      LocalOrderIsSuffixOrder(t, rank, m + 1, l + 1);
    }
  }

  /** Conversely the final ranks compare locally as the suffixes do. */
  lemma SuffixOrderIsLocalOrder(t: seq<int>, rank: seq<nat>, m: nat, l: nat)
    requires IsText(t) && SuffixRanks(t, rank) && m < |t| && l < |t| && SuffixLess(t, m, l)
    ensures LocalLess(t, rank, m, l)
  {
    LessTotal(t, |t|, m, l);
    if t[m] == t[l] && m + 1 < |t| && l + 1 < |t| {
      SuffixRanksOrder(t, rank, m + 1, l + 1);
    }
  }

  // ---- the records in the order of the buckets ----

  /** The bucket of a rank, and its slot there. */
  ghost function BucketNumber(r: nat, W: nat): nat
    requires 1 <= W
  {
    r / W
  }

  ghost function SlotNumber(r: nat, W: nat): nat
    requires 1 <= W
  {
    r % W
  }

  /** The situation behind a positive verdict. */
  ghost predicate Passed(t: seq<int>, rank: seq<nat>, pos: seq<nat>, W: nat, buckets: seq<seq<VerifyRecord>>,
                         sas: seq<seq<int>>) {
    && 1 <= W && |rank| == |pos| == |t| && |buckets| == |sas|
    && AllRouted(buckets, rank, pos, t, W, |t|) && CheckGood(buckets, sas, W)
    && forall m: nat :: m < |rank| ==> BucketNumber(rank[m], W) < |buckets|
  }

  /** The place of a position: the entries of the buckets before its bucket, and its slot. */
  ghost function Place(rank: seq<nat>, W: nat, buckets: seq<seq<VerifyRecord>>, m: nat): nat
    requires 1 <= W && m < |rank| && BucketNumber(rank[m], W) < |buckets|
  {
    Offset(Lists(buckets), BucketNumber(rank[m], W)) + SlotNumber(rank[m], W)
  }

  /** The record of a position is in the bucket of its rank, at the slot of its rank. */
  lemma RecordOf(b: seq<VerifyRecord>, rank: seq<nat>, pos: seq<nat>, t: seq<int>, W: nat, k: nat, m: nat)
      returns (j: nat)
    requires IsRouted(b, rank, pos, t, W, |t|, k) && |rank| == |t| && m < |t| && rank[m] / W == k
    ensures j < |b| && PairsBelow(rank, W, |t|, k)[j].index == m && b[j] == RecordAt(rank, pos, t, W, m)
  {
    BucketIsRight(rank, W, k, |t|);
    var pairs := PairsBelow(rank, W, |t|, k);
    assert InBucket(rank, W, k, m) && Listed(pairs, m);
    j :| j < |pairs| && pairs[j].index == m;
  }

  /** Every record of a bucket belongs to a position whose rank is in it. */
  lemma PositionOf(b: seq<VerifyRecord>, rank: seq<nat>, pos: seq<nat>, t: seq<int>, W: nat, k: nat, j: nat)
      returns (m: nat)
    requires IsRouted(b, rank, pos, t, W, |t|, k) && |rank| == |t| && j < |b|
    ensures m < |t| && m == PairsBelow(rank, W, |t|, k)[j].index
    ensures b[j] == RecordAt(rank, pos, t, W, m) && rank[m] / W == k
  {
    BucketIsRight(rank, W, k, |t|);
    m := PairsBelow(rank, W, |t|, k)[j].index;
  }

  /** The record of m stands at the place of m. */
  lemma RecordAtPlace(t: seq<int>, rank: seq<nat>, pos: seq<nat>, W: nat, buckets: seq<seq<VerifyRecord>>,
                      sas: seq<seq<int>>, m: nat)
    requires Passed(t, rank, pos, W, buckets, sas) && m < |t|
    ensures var all := Flat(Lists(buckets));
            Place(rank, W, buckets, m) < |all| && all[Place(rank, W, buckets, m)] == RecordAt(rank, pos, t, W, m)
    ensures SlotNumber(rank[m], W) < |buckets[BucketNumber(rank[m], W)]|
  {
    var k := BucketNumber(rank[m], W);
    var b := buckets[k];
    assert IsRouted(b, rank, pos, t, W, |t|, k) && ChunkGood(b, sas[k], W);
    var j := RecordOf(b, rank, pos, t, W, k, m);
    FoundAtSlot(b, |b|, j);
    FlatAt(Lists(buckets), k, b[j].slot);
  }

  /** And every place is the place of some position. */
  lemma PlaceTaken(t: seq<int>, rank: seq<nat>, pos: seq<nat>, W: nat, buckets: seq<seq<VerifyRecord>>,
                   sas: seq<seq<int>>, a: nat)
    returns (m: nat)
    requires Passed(t, rank, pos, W, buckets, sas) && a < |Flat(Lists(buckets))|
    ensures m < |t| && Place(rank, W, buckets, m) == a
  {
    var k, v := FlatPlace(Lists(buckets), a);
    var b := buckets[k];
    assert IsRouted(b, rank, pos, t, W, |t|, k) && ChunkGood(b, sas[k], W);
    var j := SlotFilled(b, |b|, v);
    m := PositionOf(b, rank, pos, t, W, k, j);
  }

  /** Places rise with ranks, and different positions have different ranks. */
  lemma PlacesFollowRanks(t: seq<int>, rank: seq<nat>, pos: seq<nat>, W: nat, buckets: seq<seq<VerifyRecord>>,
                          sas: seq<seq<int>>, m: nat, l: nat)
    requires Passed(t, rank, pos, W, buckets, sas) && m < |t| && l < |t|
    ensures rank[m] < rank[l] ==> Place(rank, W, buckets, m) < Place(rank, W, buckets, l)
    ensures rank[m] == rank[l] ==> m == l
  {
    RecordAtPlace(t, rank, pos, W, buckets, sas, m);
    var k := BucketNumber(rank[m], W);
    var b, lists := buckets[k], Lists(buckets);
    if rank[m] < rank[l] {
      var k' := BucketNumber(rank[l], W);
      RankParts(rank[m], rank[l], W);
      if k < k' {
        FlatStep(lists, k);
        OffsetMonotone(lists, k + 1, k');
      }
    } else if rank[m] == rank[l] && m != l {
      assert IsRouted(b, rank, pos, t, W, |t|, k) && ChunkGood(b, sas[k], W);
      var i := RecordOf(b, rank, pos, t, W, k, m);
      var j := RecordOf(b, rank, pos, t, W, k, l);
    }
  }

  lemma RankParts(r: nat, s: nat, W: nat)
    requires 1 <= W && r < s
    ensures BucketNumber(r, W) <= BucketNumber(s, W)
    ensures BucketNumber(r, W) == BucketNumber(s, W) ==> SlotNumber(r, W) < SlotNumber(s, W)
  {
    if s / W < r / W {
      MultipleGap(s / W, r / W, W);
    }
  }

  /** Increasing neighbours: every earlier record is smaller. */
  lemma {:induction false} ChainIncreases(all: seq<VerifyRecord>, a: nat, b: nat)
    requires Increasing(all) && a < b < |all|
    ensures RecordLess(all[a], all[b])
  {
    assert RecordLess(all[b - 1], all[b]);
    if a < b - 1 {
      ChainIncreases(all, a, b - 1);
    }
  }

  /** After a positive verdict the ranks order the positions exactly as their suffixes. */
  lemma RanksFollowSuffixes(t: seq<int>, rank: seq<nat>, pos: seq<nat>, W: nat, buckets: seq<seq<VerifyRecord>>,
                            sas: seq<seq<int>>, m: nat, l: nat)
    requires IsText(t) && Passed(t, rank, pos, W, buckets, sas) && m < |t| && l < |t|
    ensures rank[m] < rank[l] <==> SuffixLess(t, m, l)
  {
    var all := Flat(Lists(buckets));
    forall p: nat, q: nat | p < |t| && q < |t| && rank[p] < rank[q] ensures LocalLess(t, rank, p, q) {
      RecordAtPlace(t, rank, pos, W, buckets, sas, p);
      RecordAtPlace(t, rank, pos, W, buckets, sas, q);
      PlacesFollowRanks(t, rank, pos, W, buckets, sas, p, q);
      ChainIncreases(all, Place(rank, W, buckets, p), Place(rank, W, buckets, q));
    }
    PlacesFollowRanks(t, rank, pos, W, buckets, sas, m, l);
    LessTotal(t, |t|, m, l);
    if rank[m] < rank[l] {
      LocalOrderIsSuffixOrder(t, rank, m, l);
    } else if rank[l] < rank[m] {
      LocalOrderIsSuffixOrder(t, rank, l, m);
    }
  }

  // ---- what stands in the suffix array files ----

  /** Place by place the suffix array files hold the positions of the records. */
  lemma ListedPosition(t: seq<int>, rank: seq<nat>, pos: seq<nat>, W: nat, buckets: seq<seq<VerifyRecord>>,
                       sas: seq<seq<int>>, m: nat)
    requires Passed(t, rank, pos, W, buckets, sas) && m < |t|
    ensures Place(rank, W, buckets, m) < |Flat(sas)| && Flat(sas)[Place(rank, W, buckets, m)] == pos[m]
  {
    RecordAtPlace(t, rank, pos, W, buckets, sas, m);
    PassedSizes(t, rank, pos, W, buckets, sas);
    hide Passed, CheckGood, Flat, Offset, BucketNumber, SlotNumber;
    ListedAt(W, buckets, sas, BucketNumber(rank[m], W), SlotNumber(rank[m], W));
  }

  lemma ListedAt(W: nat, buckets: seq<seq<VerifyRecord>>, sas: seq<seq<int>>, k: nat, v: nat)
    requires |buckets| == |sas| && CheckGood(buckets, sas, W) && k < |buckets| && v < |buckets[k]|
    ensures var a := Offset(Lists(buckets), k) + v;
            a < |Flat(Lists(buckets))| && a < |Flat(sas)| && Flat(sas)[a] == Flat(Lists(buckets))[a].position
  {
    SizesMatch(W, buckets, sas);
    assert ChunkGood(buckets[k], sas[k], W);
    var lists := Lists(buckets);
    hide Flat, Offset, CheckGood;
    SameOffset(lists, sas, k);
    FlatAt(lists, k, v);
    FlatAt(sas, k, v);
  }

  lemma SizesMatch(W: nat, buckets: seq<seq<VerifyRecord>>, sas: seq<seq<int>>)
    requires |buckets| == |sas| && CheckGood(buckets, sas, W)
    ensures forall k: nat :: k < |sas| ==> |Lists(buckets)[k]| == |sas[k]|
    ensures |Flat(Lists(buckets))| == |Flat(sas)|
  {
    var lists := Lists(buckets);
    forall k: nat | k < |sas| ensures |lists[k]| == |sas[k]| {
      assert ChunkGood(buckets[k], sas[k], W);
    }
    SameOffset(lists, sas, |sas|);
    OffsetEnds(lists);
    OffsetEnds(sas);
  }

  /** With the true positions in the records, a positive verdict makes the files the suffix array. */
  lemma ListedInOrder(t: seq<int>, rank: seq<nat>, pos: seq<nat>, W: nat, buckets: seq<seq<VerifyRecord>>,
                      sas: seq<seq<int>>)
    requires IsText(t) && Passed(t, rank, pos, W, buckets, sas)
    requires forall m: nat :: m < |t| ==> pos[m] == m
    ensures IsSuffixArray(t, Flat(sas))
  {
    hide Passed, Place, SuffixLess;
    var sa := Flat(sas);
    assert |Flat(Lists(buckets))| == |sa| by { PassedSizes(t, rank, pos, W, buckets, sas); }
    assert 1 <= W && |rank| == |pos| == |t| by { PassedSizes(t, rank, pos, W, buckets, sas); }
    forall a: nat | a < |sa| ensures 0 <= sa[a] < |t| {
      var m := PlaceTaken(t, rank, pos, W, buckets, sas, a);
      ListedPosition(t, rank, pos, W, buckets, sas, m);
    }
    forall a: nat, b: nat | a < b < |sa| ensures SuffixLess(t, 0 + sa[a], 0 + sa[b]) {
      var m := PlaceTaken(t, rank, pos, W, buckets, sas, a);
      var l := PlaceTaken(t, rank, pos, W, buckets, sas, b);
      ListedPosition(t, rank, pos, W, buckets, sas, m);
      ListedPosition(t, rank, pos, W, buckets, sas, l);
      PlacesFollowRanks(t, rank, pos, W, buckets, sas, l, m);
      RanksFollowSuffixes(t, rank, pos, W, buckets, sas, m, l);
    }
    forall p: nat | p < |t| ensures p in sa {
      ListedPosition(t, rank, pos, W, buckets, sas, p);
    }
    EachOnce(t, sa);
  }

  lemma PassedSizes(t: seq<int>, rank: seq<nat>, pos: seq<nat>, W: nat, buckets: seq<seq<VerifyRecord>>,
                    sas: seq<seq<int>>)
    requires Passed(t, rank, pos, W, buckets, sas)
    ensures 1 <= W && |rank| == |pos| == |t| && |buckets| == |sas| && CheckGood(buckets, sas, W)
    ensures |Flat(Lists(buckets))| == |Flat(sas)|
  {
    SizesMatch(W, buckets, sas);
  }

  /** Every position, in strictly increasing suffix order: as many entries as positions. */
  lemma EachOnce(t: seq<int>, sa: seq<nat>)
    requires SuffixSorted(t, 0, sa) && forall p: nat :: p < |t| ==> p in sa
    ensures |sa| == |t|
  {
    forall v: nat, w: nat | v < w < |sa| ensures sa[v] != sa[w] {
      assert SuffixLess(t, 0 + sa[v], 0 + sa[w]);
      LessTotal(t, |t|, sa[v], sa[w]);
    }
    ImageSize(sa, |sa|);
    forall p: nat | p < |t| ensures p in Image(sa, |sa|) {
      assert p in sa;
      var v: nat :| v < |sa| && sa[v] == p;
    }
    assert Image(sa, |sa|) == Positions(|t|);
  }

  // ---- full files ----

  /** Every file but the last is full. */
  ghost predicate FullFiles<T>(files: seq<seq<T>>, W: nat) {
    forall c: nat :: c + 1 < |files| ==> |files[c]| >= W
  }

  /** With full files the positions given are the true ones. */
  lemma FullPositions(files: seq<seq<nat>>, W: nat, m: nat)
    requires FullFiles(files, W) && (forall c: nat :: c < |files| ==> |files[c]| <= W) && m < |Flat(files)|
    ensures m < |Flat(Nominal(files, W))| && Flat(Nominal(files, W))[m] == m
  {
    var c, i := FlatPlace(files, m);
    NominalOffset(files, W, c);
    FlatAt(Nominal(files, W), c, i);
    FullOffset(files, W, c);
  }

  /** The positions given rise from each symbol to the next. */
  lemma PositionsRise(files: seq<seq<nat>>, W: nat, m: nat)
    requires (forall c: nat :: c < |files| ==> |files[c]| <= W) && m + 1 < |Flat(files)|
    ensures var pos := Flat(Nominal(files, W)); m + 1 < |pos| && pos[m] < pos[m + 1]
  {
    var c, i := FlatPlace(files, m);
    var d, j := FlatPlace(files, m + 1);
    NominalOffset(files, W, c);
    NominalOffset(files, W, d);
    var places := Nominal(files, W);
    FlatAt(places, c, i);
    FlatAt(places, d, j);
    if c < d {
      NextBase(W, c);
      BaseMonotone(W, c + 1, d);
    } else if d < c {
      FlatStep(files, d);
      OffsetMonotone(files, d + 1, c);
    }
  }

  /** n rising numbers below n are 0, 1, ... n - 1. */
  lemma {:induction false} RisingBelow(pos: seq<nat>, m: nat)
    requires m < |pos| && (forall a: nat, b: nat :: a + 1 == b < |pos| ==> pos[a] < pos[b]) && pos[|pos| - 1] < |pos|
    ensures pos[m] == m
  {
    RisesFrom(pos, m);
    RisesTo(pos, m);
  }

  lemma {:induction false} RisesFrom(pos: seq<nat>, m: nat)
    requires m < |pos| && (forall a: nat, b: nat :: a + 1 == b < |pos| ==> pos[a] < pos[b])
    ensures pos[m] >= m
  {
    if m > 0 {
      RisesFrom(pos, m - 1);
    }
  }

  lemma {:induction false} RisesTo(pos: seq<nat>, m: nat)
    requires m < |pos| && (forall a: nat, b: nat :: a + 1 == b < |pos| ==> pos[a] < pos[b])
    ensures pos[m] + (|pos| - 1 - m) <= pos[|pos| - 1]
    decreases |pos| - m
  {
    if m + 1 < |pos| {
      RisesTo(pos, m + 1);
    }
  }

  /** True positions can only come from full files. */
  lemma TruePositionsAreFull(files: seq<seq<nat>>, W: nat, c: nat)
    requires 1 <= W && c + 1 < |files| && forall d: nat :: 1 <= d < |files| ==> files[d] != []
    requires var pos := Flat(Nominal(files, W)); forall m: nat :: m < |pos| ==> pos[m] == m
    ensures |files[c]| == W
  {
    TrueOffset(files, W, c);
    TrueOffset(files, W, c + 1);
    FlatStep(files, c);
    NextBase(W, c);
  }

  lemma TrueOffset(files: seq<seq<nat>>, W: nat, c: nat)
    requires 1 <= W && c < |files| && forall d: nat :: 1 <= d < |files| ==> files[d] != []
    requires var pos := Flat(Nominal(files, W)); forall m: nat :: m < |pos| ==> pos[m] == m
    ensures Offset(files, c) == Global(W, c, 0)
  {
    if c == 0 {
      OffsetEnds(files);
    } else {
      NominalOffset(files, W, c);
      FlatAt(Nominal(files, W), c, 0);
    }
  }

  // ---- the verdict ----

  /** What the verdict is about: the ranks read, in order. */
  ghost function RanksRead(ranks: seq<seq<nat>>, W: nat): seq<nat> {
    Flat(FilesAsRead(ranks, W))
  }

  lemma AcceptedPassed(t: seq<int>, ranks: seq<seq<nat>>, sas: seq<seq<int>>, W: nat)
      returns (buckets: seq<seq<VerifyRecord>>)
    requires 1 <= W && |ranks| == |sas| && Accepted(t, ranks, sas, W)
    ensures Passed(t, RanksRead(ranks, W), Flat(Nominal(FilesAsRead(ranks, W), W)), W, buckets, sas)
  {
    var files := FilesAsRead(ranks, W);
    var rank, pos := Flat(files), Flat(Nominal(files, W));
    buckets :| |buckets| == |ranks| && CheckGood(buckets, sas, W) && AllRouted(buckets, rank, pos, t, W, |t|);
    NominalOffset(files, W, |files|);
    OffsetEnds(files);
    OffsetEnds(Nominal(files, W));
    forall m: nat | m < |rank| ensures BucketNumber(rank[m], W) < |buckets| {
      var c, i := FlatPlace(files, m);
      assert FileGood(ranks, W, c);
    }
  }

  /** Soundness of the ranks, for files of any lengths: once accepted, they order the positions exactly
      as their suffixes. */
  lemma AcceptedRanksOrderSuffixes(t: seq<int>, ranks: seq<seq<nat>>, sas: seq<seq<int>>, W: nat, m: nat, l: nat)
    requires IsText(t) && 1 <= W && |ranks| == |sas| && Accepted(t, ranks, sas, W) && m < |t| && l < |t|
    ensures |RanksRead(ranks, W)| == |t|
    ensures RanksRead(ranks, W)[m] < RanksRead(ranks, W)[l] <==> SuffixLess(t, m, l)
  {
    var buckets := AcceptedPassed(t, ranks, sas, W);
    RanksFollowSuffixes(t, RanksRead(ranks, W), Flat(Nominal(FilesAsRead(ranks, W), W)), W, buckets, sas, m, l);
  }

  /** Soundness of the suffix array, with its exact condition: once accepted, the suffixarray files list
      every position once in increasing suffix order if and only if every ranks file but the last is full. */
  lemma AcceptedListsSuffixes(t: seq<int>, ranks: seq<seq<nat>>, sas: seq<seq<int>>, W: nat)
    requires IsText(t) && 1 <= W && |ranks| == |sas| && Accepted(t, ranks, sas, W)
    ensures IsSuffixArray(t, Flat(sas)) <==> FullFiles(ranks, W)
  {
    var buckets := AcceptedPassed(t, ranks, sas, W);
    FilesRead(t, ranks, W);
    hide Accepted, Passed, IsSuffixArray, FilesAsRead, Flat, Nominal, PartitionGood, IsText, FullFiles;
    var files := FilesAsRead(ranks, W);
    if FullFiles(files, W) {
      FullPassed(t, files, W, buckets, sas);
    }
    if IsSuffixArray(t, Flat(sas)) {
      PassedFull(t, files, W, buckets, sas);
    }
  }

  lemma FullPassed(t: seq<int>, files: seq<seq<nat>>, W: nat, buckets: seq<seq<VerifyRecord>>, sas: seq<seq<int>>)
    requires IsText(t) && Passed(t, Flat(files), Flat(Nominal(files, W)), W, buckets, sas)
    requires FullFiles(files, W) && forall c: nat :: c < |files| ==> |files[c]| <= W
    ensures IsSuffixArray(t, Flat(sas))
  {
    forall m: nat | m < |t| ensures Flat(Nominal(files, W))[m] == m {
      FullPositions(files, W, m);
    }
    ListedInOrder(t, Flat(files), Flat(Nominal(files, W)), W, buckets, sas);
  }

  lemma PassedFull(t: seq<int>, files: seq<seq<nat>>, W: nat, buckets: seq<seq<VerifyRecord>>, sas: seq<seq<int>>)
    requires Passed(t, Flat(files), Flat(Nominal(files, W)), W, buckets, sas) && IsSuffixArray(t, Flat(sas))
    requires forall c: nat :: c < |files| ==> |files[c]| <= W
    requires forall d: nat :: 1 <= d < |files| ==> files[d] != []
    ensures FullFiles(files, W)
  {
    ListedPositionsTrue(t, files, W, buckets, sas);
    hide AllRouted, CheckGood, IsSuffixArray, Flat, Nominal;
    forall c: nat | c + 1 < |files| ensures |files[c]| >= W {
      TruePositionsAreFull(files, W, c);
    }
  }

  /** What acceptance says about the files as read. */
  lemma FilesRead(t: seq<int>, ranks: seq<seq<nat>>, W: nat)
    requires 1 <= W && PartitionGood(ranks, W, t)
    ensures var files := FilesAsRead(ranks, W);
            && (forall c: nat :: c < |files| ==> |files[c]| <= W)
            && (forall d: nat :: 1 <= d < |files| ==> files[d] != [])
            && |Flat(files)| == |Flat(Nominal(files, W))| == |t|
            && (FullFiles(files, W) <==> FullFiles(ranks, W))
  {
    var files := FilesAsRead(ranks, W);
    NominalOffset(files, W, |files|);
    OffsetEnds(files);
    OffsetEnds(Nominal(files, W));
    forall d: nat | 1 <= d < |files| ensures files[d] != [] {
      assert FileGood(ranks, W, d - 1);
    }
    forall c: nat | c + 1 < |files| ensures |files[c]| >= W <==> |ranks[c]| >= W {
    }
  }

  /** If the files are the suffix array, the positions given to the records are the true ones. */
  lemma ListedPositionsTrue(t: seq<int>, files: seq<seq<nat>>, W: nat, buckets: seq<seq<VerifyRecord>>,
                            sas: seq<seq<int>>)
    requires Passed(t, Flat(files), Flat(Nominal(files, W)), W, buckets, sas) && IsSuffixArray(t, Flat(sas))
    requires forall c: nat :: c < |files| ==> |files[c]| <= W
    ensures forall m: nat :: m < |t| ==> Flat(Nominal(files, W))[m] == m
  {
    var rank, pos := Flat(files), Flat(Nominal(files, W));
    assert |pos| == |t|;
    forall m: nat | m < |t| ensures pos[m] == m {
      forall a: nat, b: nat | a + 1 == b < |pos| ensures pos[a] < pos[b] {
        PositionsRise(files, W, a);
      }
      ListedPosition(t, rank, pos, W, buckets, sas, |t| - 1);
      RisingBelow(pos, m);
    }
  }

  // ---- completeness ----

  /** The buckets that phase A makes. */
  lemma RoutedBuckets(rank: seq<nat>, pos: seq<nat>, t: seq<int>, W: nat, total: nat)
      returns (buckets: seq<seq<VerifyRecord>>)
    requires 1 <= W && |rank| == |pos| == |t|
    ensures |buckets| == total && AllRouted(buckets, rank, pos, t, W, |t|)
  {
    buckets := [];
    while |buckets| < total
      invariant |buckets| <= total && AllRouted(buckets, rank, pos, t, W, |t|)
    {
      var k := |buckets|;
      BucketIsRight(rank, W, k, |t|);
      var pairs := PairsBelow(rank, W, |t|, k);
      var b := seq(|pairs|, j requires 0 <= j < |pairs| => RecordAt(rank, pos, t, W, pairs[j].index));
      assert IsRouted(b, rank, pos, t, W, |t|, k);
      buckets := buckets + [b];
    }
  }

  /** With true ranks every bucket fills its slots. */
  lemma BucketFills(t: seq<int>, rank: seq<nat>, pos: seq<nat>, W: nat, b: seq<VerifyRecord>, k: nat, sa: seq<nat>)
    requires IsRouted(b, rank, pos, t, W, |t|, k) && |rank| == |t| && Inverse(rank, sa) && IsPermutation(rank)
    ensures FillsSlots(b, BucketSize(W, k, |t|)) && BucketSize(W, k, |t|) <= W
    ensures BucketHolds(PairsBelow(rank, W, |t|, k), rank, W, k, |rank|)
  {
    BucketIsRight(rank, W, k, |t|);
    hide Inverse, IsPermutation, BucketHolds, BucketSize, PairsBelow;
    var pairs := PairsBelow(rank, W, |t|, k);
    BucketFull(pairs, rank, sa, W, k);
    BucketSlotsDiffer(pairs, rank, W, k);
    BucketSizeBound(W, k, |t|);
    forall j: nat | j < |b| ensures b[j].slot == pairs[j].value % W && b[j].slot < |b| {
      SlotOfRecord(pairs, rank, W, k, j);
    }
  }

  /** The record in slot v is that of the position the suffix array lists there. */
  lemma SlotRecord(t: seq<int>, rank: seq<nat>, pos: seq<nat>, W: nat, b: seq<VerifyRecord>, k: nat, sa: seq<nat>,
                   v: nat)
    requires IsRouted(b, rank, pos, t, W, |t|, k) && |rank| == |t| && Inverse(rank, sa) && IsPermutation(rank)
    requires FillsSlots(b, |b|) && BucketHolds(PairsBelow(rank, W, |t|, k), rank, W, k, |rank|) && v < |b|
    ensures Global(W, k, v) < |sa| && sa[Global(W, k, v)] < |t|
    ensures InSlotOrder(b)[v] == RecordAt(rank, pos, t, W, sa[Global(W, k, v)])
  {
    hide BucketHolds, PairsBelow, Global;
    var j := SlotFilled(b, |b|, v);
    SlotOfRecord(PairsBelow(rank, W, |t|, k), rank, W, k, j);
  }

  /** With true ranks the records of a bucket stand where the suffix array says. */
  lemma BucketComplete(t: seq<int>, rank: seq<nat>, pos: seq<nat>, W: nat, b: seq<VerifyRecord>, k: nat,
                       saFile: seq<int>, sa: seq<nat>)
    requires IsRouted(b, rank, pos, t, W, |t|, k) && |rank| == |t| && Inverse(rank, sa) && IsPermutation(rank)
    requires forall m: nat :: m < |t| ==> pos[m] == m
    requires |saFile| == BucketSize(W, k, |t|)
    requires forall v: nat :: v < |saFile| ==> Global(W, k, v) < |sa| && saFile[v] == sa[Global(W, k, v)]
    ensures ChunkGood(b, saFile, W)
    ensures forall v: nat :: v < |b| ==>
              Global(W, k, v) < |sa| && sa[Global(W, k, v)] < |t| &&
              InSlotOrder(b)[v] == RecordAt(rank, pos, t, W, sa[Global(W, k, v)])
  {
    BucketFills(t, rank, pos, W, b, k, sa);
    hide IsRouted, Inverse, IsPermutation, BucketHolds, BucketSize, PairsBelow, Global, SlotsBelow, InSlotOrder;
    forall v: nat | v < |b|
      ensures Global(W, k, v) < |sa| && sa[Global(W, k, v)] < |t|
      ensures InSlotOrder(b)[v] == RecordAt(rank, pos, t, W, sa[Global(W, k, v)])
    {
      SlotRecord(t, rank, pos, W, b, k, sa, v);
    }
  }

  /** The true ranks and the suffix array pass the comparison. */
  lemma ListsComplete(t: seq<int>, rank: seq<nat>, pos: seq<nat>, W: nat, buckets: seq<seq<VerifyRecord>>,
                      sas: seq<seq<int>>, sa: seq<nat>)
    requires IsText(t) && SuffixRanks(t, rank) && Inverse(rank, sa) && 1 <= W && |buckets| == |sas| && Holds(sas, W, sa)
    requires |pos| == |t| && AllRouted(buckets, rank, pos, t, W, |t|) && forall m: nat :: m < |t| ==> pos[m] == m
    ensures CheckGood(buckets, sas, W)
  {
    SuffixRanksPermute(t, rank);
    HoldsIsFlat(sas, W, sa);
    hide SuffixRanks, IsPermutation, Inverse, Holds, Global, ChunkGood, Offset, Flat, IsRouted, RecordAt, SuffixLess;
    var lists := Lists(buckets);
    forall k: nat | k < |sas|
      ensures ChunkGood(buckets[k], sas[k], W) && |lists[k]| == |sas[k]|
      ensures forall v: nat :: v < |lists[k]| ==>
                Global(W, k, v) < |sa| && sa[Global(W, k, v)] < |t| &&
                lists[k][v] == RecordAt(rank, pos, t, W, sa[Global(W, k, v)])
    {
      FileSize(sas, W, sa, k);
      BucketComplete(t, rank, pos, W, buckets[k], k, sas[k], sa);
    }
    forall a: nat, b: nat | a + 1 == b < |Flat(lists)| ensures RecordLess(Flat(lists)[a], Flat(lists)[b]) {
      RecordInOrder(t, rank, pos, W, lists, sas, sa, a);
      RecordInOrder(t, rank, pos, W, lists, sas, sa, b);
      SuffixRanksOrder(t, rank, sa[a], sa[b]);
      SuffixOrderIsLocalOrder(t, rank, sa[a], sa[b]);
    }
  }

  lemma RecordInOrder(t: seq<int>, rank: seq<nat>, pos: seq<nat>, W: nat, lists: seq<seq<VerifyRecord>>,
                      sas: seq<seq<int>>, sa: seq<nat>, a: nat)
    requires 1 <= W && |lists| == |sas| && |rank| == |pos| == |t| && Inverse(rank, sa) && a < |Flat(lists)|
    requires forall k: nat :: k < |sas| ==> |lists[k]| == |sas[k]| && Offset(sas, k) == Global(W, k, 0)
    requires forall k: nat, v: nat :: k < |lists| && v < |lists[k]| ==>
               Global(W, k, v) < |sa| && sa[Global(W, k, v)] < |t| &&
               lists[k][v] == RecordAt(rank, pos, t, W, sa[Global(W, k, v)])
    ensures a < |sa| && Flat(lists)[a] == RecordAt(rank, pos, t, W, sa[a])
  {
    var k, v := FlatPlace(lists, a);
    SameOffset(lists, sas, k);
  }

  lemma FileSize(sas: seq<seq<int>>, W: nat, sa: seq<int>, k: nat)
    requires Holds(sas, W, sa) && k < |sas|
    ensures |sas[k]| == BucketSize(W, k, |sa|)
  {
    ChunkStretch(sas, W, sa, k);
  }

  /** The exact meaning of the verdict on files of the shape the pipeline writes: accepted if and only if
      the suffixarray files hold the suffix array and the ranks files its inverse. */
  lemma AcceptedIff(t: seq<int>, ranks: seq<seq<nat>>, rank: seq<nat>, sas: seq<seq<int>>, sa: seq<int>, W: nat)
    requires IsText(t) && 1 <= W <= 0xffff_ffff && |ranks| == |sas| && Holds(ranks, W, rank) && Holds(sas, W, sa)
    ensures Accepted(t, ranks, sas, W) <==> SuffixRanks(t, rank) && IsSuffixArray(t, sa)
  {
    HoldsIsFlat(ranks, W, rank);
    HoldsIsFlat(sas, W, sa);
    ReadsWhole(ranks, W, rank);
    if Accepted(t, ranks, sas, W) {
      AcceptedListsSuffixes(t, ranks, sas, W);
      AcceptedInverts(t, ranks, rank, sas, sa, W);
      InverseOfSuffixArray(t, rank, sa);
    }
    if SuffixRanks(t, rank) && IsSuffixArray(t, sa) {
      SuffixArrayInverts(t, rank, sa);
      AcceptsTrue(t, ranks, rank, sas, sa, W);
    }
  }

  /** Files of the right shape are read whole. */
  lemma ReadsWhole(ranks: seq<seq<nat>>, W: nat, rank: seq<nat>)
    requires Holds(ranks, W, rank)
    ensures FilesAsRead(ranks, W) == ranks && FullFiles(ranks, W)
    ensures forall c: nat :: c < |ranks| ==> 1 <= |ranks[c]| <= W
  {
    forall c: nat | c < |ranks| ensures FirstEntries(ranks[c], W) == ranks[c] && 1 <= |ranks[c]| <= W {
      ChunkStretch(ranks, W, rank, c);
    }
  }

  /** With full suffixarray files too, the place of a position is its rank. */
  lemma PlaceIsRank(t: seq<int>, rank: seq<nat>, pos: seq<nat>, W: nat, buckets: seq<seq<VerifyRecord>>,
                    sas: seq<seq<int>>, m: nat)
    requires Passed(t, rank, pos, W, buckets, sas) && m < |t|
    requires forall k: nat :: k < |sas| ==> Offset(sas, k) == Global(W, k, 0)
    ensures Place(rank, W, buckets, m) == rank[m]
  {
    SizesMatch(W, buckets, sas);
    RankBase(W, rank[m]);
    hide CheckGood, AllRouted, Global, Offset;
    SameOffset(Lists(buckets), sas, BucketNumber(rank[m], W));
  }

  lemma RankBase(W: nat, r: nat)
    requires 1 <= W
    ensures Global(W, BucketNumber(r, W), 0) + SlotNumber(r, W) == r
  {
  }

  lemma ListedAtRank(t: seq<int>, rank: seq<nat>, pos: seq<nat>, W: nat, buckets: seq<seq<VerifyRecord>>,
                     sas: seq<seq<int>>, m: nat)
    requires Passed(t, rank, pos, W, buckets, sas) && m < |t|
    requires forall k: nat :: k < |sas| ==> Offset(sas, k) == Global(W, k, 0)
    ensures rank[m] < |Flat(sas)| && Flat(sas)[rank[m]] == pos[m]
  {
    ListedPosition(t, rank, pos, W, buckets, sas, m);
    hide AllRouted, CheckGood, Flat, Place, Global, Offset;
    PlaceIsRank(t, rank, pos, W, buckets, sas, m);
  }

  lemma RankOfPlace(t: seq<int>, rank: seq<nat>, pos: seq<nat>, W: nat, buckets: seq<seq<VerifyRecord>>,
                    sas: seq<seq<int>>, v: nat)
    returns (m: nat)
    requires Passed(t, rank, pos, W, buckets, sas) && v < |Flat(sas)|
    requires forall k: nat :: k < |sas| ==> Offset(sas, k) == Global(W, k, 0)
    ensures m < |t| && rank[m] == v && Flat(sas)[v] == pos[m]
  {
    PassedSizes(t, rank, pos, W, buckets, sas);
    hide AllRouted, CheckGood, Flat, Place, Global, Offset;
    m := PlaceTaken(t, rank, pos, W, buckets, sas, v);
    PlaceIsRank(t, rank, pos, W, buckets, sas, m);
    ListedAtRank(t, rank, pos, W, buckets, sas, m);
  }

  /** Then the accepted ranks are the inverse of the suffix array. */
  lemma PassedInverts(t: seq<int>, rank: seq<nat>, pos: seq<nat>, W: nat, buckets: seq<seq<VerifyRecord>>,
                      sas: seq<seq<int>>, sa: seq<nat>)
    requires Passed(t, rank, pos, W, buckets, sas) && sa == Flat(sas)
    requires forall m: nat :: m < |t| ==> pos[m] == m
    requires forall k: nat :: k < |sas| ==> Offset(sas, k) == Global(W, k, 0)
    ensures Inverse(rank, sa)
  {
    PassedSizes(t, rank, pos, W, buckets, sas);
    hide Passed, Flat, CheckGood, Global, Offset;
    forall m: nat | m < |rank| ensures rank[m] < |sa| && sa[rank[m]] == m {
      ListedAtRank(t, rank, pos, W, buckets, sas, m);
    }
    forall v: nat | v < |sa| ensures sa[v] < |rank| && rank[sa[v]] == v {
      var m := RankOfPlace(t, rank, pos, W, buckets, sas, v);
    }
    CountOfInverse(rank, sa);
  }

  /** Two tables that undo each other are equally long. */
  lemma CountOfInverse(rank: seq<nat>, sa: seq<nat>)
    requires forall m: nat :: m < |rank| ==> rank[m] < |sa| && sa[rank[m]] == m
    requires forall v: nat :: v < |sa| ==> sa[v] < |rank| && rank[sa[v]] == v
    ensures |sa| == |rank|
  {
    forall v: nat, w: nat | v < w < |sa| ensures sa[v] != sa[w] {
      assert rank[sa[v]] == v && rank[sa[w]] == w;
    }
    ImageSize(sa, |sa|);
    forall m: nat | m < |rank| ensures m in Image(sa, |sa|) {
      assert sa[rank[m]] == m;
    }
    assert Image(sa, |sa|) == Positions(|rank|);
  }

  lemma AcceptedInverts(t: seq<int>, ranks: seq<seq<nat>>, rank: seq<nat>, sas: seq<seq<int>>, sa: seq<int>, W: nat)
    requires 1 <= W && |ranks| == |sas| && Holds(ranks, W, rank) && Holds(sas, W, sa)
    requires Accepted(t, ranks, sas, W) && IsSuffixArray(t, sa)
    ensures Inverse(rank, sa)
  {
    HoldsIsFlat(ranks, W, rank);
    HoldsIsFlat(sas, W, sa);
    ReadsWhole(ranks, W, rank);
    var buckets := AcceptedPassed(t, ranks, sas, W);
    var pos := Flat(Nominal(ranks, W));
    assert |rank| == |t| by { FilesRead(t, ranks, W); }
    hide Accepted, Passed, FilesAsRead, Flat, Nominal, Holds, Global, Offset;
    forall m: nat | m < |t| ensures m < |pos| && pos[m] == m {
      FullPositions(ranks, W, m);
    }
    PassedInverts(t, rank, pos, W, buckets, sas, sa);
  }

  /** Completeness: the true files are accepted. */
  lemma AcceptsTrue(t: seq<int>, ranks: seq<seq<nat>>, rank: seq<nat>, sas: seq<seq<int>>, sa: seq<nat>, W: nat)
    requires IsText(t) && 1 <= W <= 0xffff_ffff && |ranks| == |sas| && Holds(ranks, W, rank) && Holds(sas, W, sa)
    requires SuffixRanks(t, rank) && Inverse(rank, sa)
    ensures Accepted(t, ranks, sas, W)
  {
    HoldsIsFlat(ranks, W, rank);
    ReadsWhole(ranks, W, rank);
    SuffixRanksPermute(t, rank);
    var pos := Flat(Nominal(ranks, W));
    NominalOffset(ranks, W, |ranks|);
    OffsetEnds(ranks);
    OffsetEnds(Nominal(ranks, W));
    forall m: nat | m < |t| ensures pos[m] == m {
      FullPositions(ranks, W, m);
    }
    forall c: nat | c < |ranks| ensures FileGood(ranks, W, c) {
      forall i: nat | i < |ranks[c]| ensures ranks[c][i] / W < |ranks| {
        assert rank[Global(W, c, i)] == ranks[c][i];
        PlaceOf(ranks, W, rank, ranks[c][i]);
      }
    }
    var buckets := RoutedBuckets(rank, pos, t, W, |ranks|);
    ListsComplete(t, rank, pos, W, buckets, sas, sa);
  }

  // ---- when the accepted ranks are a permutation ----

  /** The suffixarray files have the sizes of the rank buckets of a permutation of [0, N). */
  ghost predicate BucketSizes(sas: seq<seq<int>>, W: nat, N: nat) {
    forall k: nat :: k < |sas| ==> |sas[k]| == BucketSize(W, k, N)
  }

  /** The checker takes its counting sort for a check that the ranks are a permutation of [0, N).  Once
      accepted, files of any lengths, they are if and only if every suffixarray file has the size of its
      rank bucket: W entries as long as W ranks are left, then the rest, then none. */
  lemma AcceptedRanksPermute(t: seq<int>, ranks: seq<seq<nat>>, sas: seq<seq<int>>, W: nat)
    requires 1 <= W && |ranks| == |sas| && Accepted(t, ranks, sas, W)
    ensures IsPermutation(RanksRead(ranks, W)) <==> BucketSizes(sas, W, |t|)
  {
    var buckets := AcceptedPassed(t, ranks, sas, W);
    var rank, pos := RanksRead(ranks, W), Flat(Nominal(FilesAsRead(ranks, W), W));
    hide Accepted, Passed, RanksRead, IsPermutation, BucketSizes, Nominal, FilesAsRead, Flat;
    if IsPermutation(rank) {
      PermutationSizes(t, rank, pos, W, buckets, sas);
    }
    if BucketSizes(sas, W, |t|) {
      SizesPermute(t, rank, pos, W, buckets, sas);
    }
  }

  lemma PermutationSizes(t: seq<int>, rank: seq<nat>, pos: seq<nat>, W: nat, buckets: seq<seq<VerifyRecord>>,
                         sas: seq<seq<int>>)
    requires Passed(t, rank, pos, W, buckets, sas) && IsPermutation(rank)
    ensures BucketSizes(sas, W, |t|)
  {
    var sa := InverseExists(rank);
    forall k: nat | k < |sas| ensures |sas[k]| == BucketSize(W, k, |t|) {
      assert IsRouted(buckets[k], rank, pos, t, W, |t|, k) && ChunkGood(buckets[k], sas[k], W);
      BucketIsRight(rank, W, k, |t|);
      BucketFull(PairsBelow(rank, W, |t|, k), rank, sa, W, k);
    }
  }

  lemma SizesPermute(t: seq<int>, rank: seq<nat>, pos: seq<nat>, W: nat, buckets: seq<seq<VerifyRecord>>,
                     sas: seq<seq<int>>)
    requires Passed(t, rank, pos, W, buckets, sas) && BucketSizes(sas, W, |t|)
    ensures IsPermutation(rank)
  {
    PassedSizes(t, rank, pos, W, buckets, sas);
    hide Passed, Flat, BucketSizes, CheckGood;
    forall i: nat | i < |rank| ensures rank[i] < |t| {
      SizedRank(t, rank, pos, W, buckets, sas, i);
    }
    forall i: nat, j: nat | i < j < |rank| ensures rank[i] != rank[j] {
      PlacesFollowRanks(t, rank, pos, W, buckets, sas, i, j);
    }
  }

  lemma SlotSize(W: nat, buckets: seq<seq<VerifyRecord>>, sas: seq<seq<int>>, k: nat)
    requires |buckets| == |sas| && CheckGood(buckets, sas, W) && k < |sas|
    ensures |buckets[k]| == |sas[k]|
  {
    assert ChunkGood(buckets[k], sas[k], W);
  }

  lemma RecordInSizes(t: seq<int>, rank: seq<nat>, W: nat, buckets: seq<seq<VerifyRecord>>, sas: seq<seq<int>>, i: nat,
                      k: nat)
    requires 1 <= W && i < |rank| && k == BucketNumber(rank[i], W) && k < |buckets| == |sas|
    requires SlotNumber(rank[i], W) < |buckets[k]|
    requires CheckGood(buckets, sas, W) && BucketSizes(sas, W, |t|)
    ensures rank[i] < |t|
  {
    SlotSize(W, buckets, sas, k);
    hide CheckGood, BucketSize, BucketNumber, SlotNumber;
    RankInSizes(W, rank[i], |t|);
  }

  lemma SizedRank(t: seq<int>, rank: seq<nat>, pos: seq<nat>, W: nat, buckets: seq<seq<VerifyRecord>>,
                  sas: seq<seq<int>>, i: nat)
    requires Passed(t, rank, pos, W, buckets, sas) && BucketSizes(sas, W, |t|) && i < |rank|
    ensures rank[i] < |t|
  {
    hide Flat, Place, CheckGood, BucketSizes, BucketNumber, SlotNumber;
    RecordAtPlace(t, rank, pos, W, buckets, sas, i);
    RecordInSizes(t, rank, W, buckets, sas, i, BucketNumber(rank[i], W));
  }

  /** A rank whose slot lies inside its bucket is below N. */
  lemma RankInSizes(W: nat, r: nat, N: nat)
    requires 1 <= W && SlotNumber(r, W) < BucketSize(W, BucketNumber(r, W), N)
    ensures r < N
  {
    RankBase(W, r);
  }

  /** With full ranks files it comes to full suffixarray files. */
  lemma AcceptedFullRanksPermute(t: seq<int>, ranks: seq<seq<nat>>, sas: seq<seq<int>>, W: nat)
    requires IsText(t) && 1 <= W && |ranks| == |sas| && Accepted(t, ranks, sas, W) && FullFiles(ranks, W)
    ensures IsPermutation(RanksRead(ranks, W)) <==> FullFiles(sas, W)
  {
    var buckets := AcceptedPassed(t, ranks, sas, W);
    FilesRead(t, ranks, W);
    AcceptedListsSuffixes(t, ranks, sas, W);
    AcceptedRanksPermute(t, ranks, sas, W);
    var files := FilesAsRead(ranks, W);
    hide Accepted, Passed, FilesAsRead, Flat, Nominal, PartitionGood, IsText, IsPermutation;
    if FullFiles(sas, W) {
      FullSasPermute(t, files, W, buckets, sas);
    }
    if BucketSizes(sas, W, |t|) {
      forall k: nat | k + 1 < |sas| ensures |sas[k]| >= W {
        WholeBefore(files, W, k);
      }
    }
  }

  lemma FullSasPermute(t: seq<int>, files: seq<seq<nat>>, W: nat, buckets: seq<seq<VerifyRecord>>, sas: seq<seq<int>>)
    requires Passed(t, Flat(files), Flat(Nominal(files, W)), W, buckets, sas) && IsSuffixArray(t, Flat(sas))
    requires FullFiles(files, W) && FullFiles(sas, W) && forall c: nat :: c < |files| ==> |files[c]| <= W
    ensures IsPermutation(Flat(files))
  {
    forall k: nat | k < |sas| ensures |sas[k]| <= W {
      assert ChunkGood(buckets[k], sas[k], W);
    }
    var rank, pos, sa := Flat(files), Flat(Nominal(files, W)), Flat(sas);
    hide AllRouted, CheckGood, Flat, Nominal, Offset, Global;
    forall m: nat | m < |t| ensures pos[m] == m {
      FullPositions(files, W, m);
    }
    forall k: nat | k < |sas| ensures Offset(sas, k) == Global(W, k, 0) {
      FullOffset(sas, W, k);
    }
    PassedInverts(t, rank, pos, W, buckets, sas, sa);
    forall i: nat, j: nat | i < j < |rank| ensures rank[i] != rank[j] {
      assert sa[rank[i]] == i && sa[rank[j]] == j;
    }
  }

  lemma WholeBefore(files: seq<seq<nat>>, W: nat, k: nat)
    requires k + 1 < |files| && FullFiles(files, W) && forall c: nat :: c < |files| ==> |files[c]| <= W
    ensures BucketSize(W, k, |Flat(files)|) == W
  {
    FullOffset(files, W, k + 1);
    OffsetMonotone(files, k + 1, |files|);
    OffsetEnds(files);
    NextBase(W, k);
  }

  /** Three symbols in chunks of two with the ranks 3, 2, 0: accepted, and not a permutation. */
  lemma GapInRanksAccepted()
    ensures var t: seq<int>, ranks: seq<seq<nat>>, sas: seq<seq<int>> := [3, 2, 0], [[3, 2], [0]], [[2], [1, 0]];
            IsText(t) && Accepted(t, ranks, sas, 2) && FullFiles(ranks, 2) && !IsPermutation(RanksRead(ranks, 2))
  {
    var t: seq<int>, ranks: seq<seq<nat>>, sas: seq<seq<int>> := [3, 2, 0], [[3, 2], [0]], [[2], [1, 0]];
    var buckets := [[VerifyRecord(2, -1, 0, 0)], [VerifyRecord(0, 2, 1, 4), VerifyRecord(1, 0, 0, 3)]];
    GapRead(ranks, t);
    GapRouted(RanksRead(ranks, 2), Flat(Nominal(FilesAsRead(ranks, 2), 2)), t, buckets);
    GapCompared(buckets, sas);
    hide AllRouted, CheckGood, PartitionGood, Flat, Nominal, FilesAsRead;
    assert RanksRead(ranks, 2)[0] == 3;
  }

  lemma GapRead(ranks: seq<seq<nat>>, t: seq<int>)
    requires ranks == [[3, 2], [0]] && |t| == 3
    ensures RanksRead(ranks, 2) == [3, 2, 0] && Flat(Nominal(FilesAsRead(ranks, 2), 2)) == [0, 1, 2]
    ensures PartitionGood(ranks, 2, t) && FullFiles(ranks, 2)
  {
    var files := FilesAsRead(ranks, 2);
    assert files == ranks;
    var places := Nominal(files, 2);
    assert places[0] == [0, 1] && places[1] == [2];
    FlatOfTwo(ranks);
    FlatOfTwo(places);
  }

  lemma GapRouted(rank: seq<nat>, pos: seq<nat>, t: seq<int>, buckets: seq<seq<VerifyRecord>>)
    requires rank == [3, 2, 0] && pos == [0, 1, 2] && t == [3, 2, 0]
    requires buckets == [[VerifyRecord(2, -1, 0, 0)], [VerifyRecord(0, 2, 1, 4), VerifyRecord(1, 0, 0, 3)]]
    ensures AllRouted(buckets, rank, pos, t, 2, 3)
  {
    var recs := GlobalRecords(rank);
    assert recs == [Pair(0, 3), Pair(1, 2), Pair(2, 0)] && recs[..3] == recs;
    GapBuckets(recs);
    hide Bucket;
  }

  lemma GapBuckets(recs: seq<Pair>)
    requires recs == [Pair(0, 3), Pair(1, 2), Pair(2, 0)]
    ensures Bucket(recs, 2, 0) == [recs[2]] && Bucket(recs, 2, 1) == [recs[0], recs[1]]
  {
    assert recs[..3] == recs && recs[..0] == [];
    forall k: nat | k < 2 ensures Bucket(recs[..3], 2, k) == if k == 0 then [recs[2]] else [recs[0], recs[1]] {
      BucketStep(recs, 2, k, 0);
      BucketStep(recs, 2, k, 1);
      BucketStep(recs, 2, k, 2);
      hide Bucket;
    }
  }

  lemma GapCompared(buckets: seq<seq<VerifyRecord>>, sas: seq<seq<int>>)
    requires buckets == [[VerifyRecord(2, -1, 0, 0)], [VerifyRecord(0, 2, 1, 4), VerifyRecord(1, 0, 0, 3)]]
    requires sas == [[2], [1, 0]]
    ensures CheckGood(buckets, sas, 2)
  {
    var b, lists := buckets[1], Lists(buckets);
    assert b[..1] == [b[0]];
    assert AtSlot(b, 0) == b[1] && AtSlot(b, 1) == b[0] && AtSlot(buckets[0], 0) == buckets[0][0];
    assert lists[0] == [buckets[0][0]] && lists[1] == [b[1], b[0]];
    FlatOfTwo(lists);
  }

  // ---- the condition is needed ----

  /** Two rank files of one entry each, in chunks of two: the second symbol gets position 2, and a
      suffixarray file that lists 2 is accepted although the text has no such position. */
  lemma ShortFileAccepted()
    ensures var t: seq<int>, ranks: seq<seq<nat>>, sas: seq<seq<int>> := [2, 0], [[1], [0]], [[2, 0], []];
            IsText(t) && Accepted(t, ranks, sas, 2) && !IsSuffixArray(t, Flat(sas)) && !FullFiles(ranks, 2)
  {
    var t: seq<int>, ranks: seq<seq<nat>>, sas: seq<seq<int>> := [2, 0], [[1], [0]], [[2, 0], []];
    var buckets := [[VerifyRecord(0, 0, 1, 3), VerifyRecord(2, -1, 0, 0)], []];
    ShortFileRead(ranks, t);
    ShortFileRouted(RanksRead(ranks, 2), Flat(Nominal(FilesAsRead(ranks, 2), 2)), t, buckets);
    ShortFileCompared(buckets, sas);
    hide AllRouted, CheckGood, PartitionGood, Flat, Nominal, FilesAsRead;
    NotListed(t, Flat(sas), 0);
  }

  lemma NotListed(t: seq<int>, sa: seq<int>, v: nat)
    requires v < |sa| && sa[v] >= |t|
    ensures !IsSuffixArray(t, sa)
  {
  }

  lemma ShortFileRead(ranks: seq<seq<nat>>, t: seq<int>)
    requires ranks == [[1], [0]] && |t| == 2
    ensures RanksRead(ranks, 2) == [1, 0] && Flat(Nominal(FilesAsRead(ranks, 2), 2)) == [0, 2]
    ensures PartitionGood(ranks, 2, t) && !FullFiles(ranks, 2)
  {
    var files := FilesAsRead(ranks, 2);
    assert files == ranks;
    var places := Nominal(files, 2);
    assert places[0] == [0] && places[1] == [2];
    FlatOfTwo(ranks);
    FlatOfTwo(places);
    assert |ranks[0]| < 2;
  }

  lemma ShortFileCompared(buckets: seq<seq<VerifyRecord>>, sas: seq<seq<int>>)
    requires buckets == [[VerifyRecord(0, 0, 1, 3), VerifyRecord(2, -1, 0, 0)], []] && sas == [[2, 0], []]
    ensures CheckGood(buckets, sas, 2) && Flat(sas) == [2, 0]
  {
    FlatOfTwo(sas);
    var b, lists := buckets[0], Lists(buckets);
    assert b[..1] == [b[0]];
    assert AtSlot(b, 0) == b[1] && AtSlot(b, 1) == b[0];
    assert lists[0] == [b[1], b[0]] && lists[1] == [];
    FlatOfTwo(lists);
  }

  lemma FlatOfTwo<T>(files: seq<seq<T>>)
    requires |files| == 2
    ensures Flat(files) == files[0] + files[1]
  {
    assert files[..1] == [files[0]] && files[..1][..0] == [];
    assert Flat(files[..1]) == Flat(files[..0]) + files[0];
  }

  lemma ShortFileRouted(rank: seq<nat>, pos: seq<nat>, t: seq<int>, buckets: seq<seq<VerifyRecord>>)
    requires rank == [1, 0] && pos == [0, 2] && t == [2, 0]
    requires buckets == [[VerifyRecord(0, 0, 1, 3), VerifyRecord(2, -1, 0, 0)], []]
    ensures AllRouted(buckets, rank, pos, t, 2, 2)
  {
    var recs := GlobalRecords(rank);
    assert recs == [Pair(0, 1), Pair(1, 0)] && recs[..2] == recs && recs[..0] == [];
    forall k: nat | k < 2 ensures Bucket(recs[..2], 2, k) == if k == 0 then recs else [] {
      BucketStep(recs, 2, k, 0);
      BucketStep(recs, 2, k, 1);
    }
  }
}
