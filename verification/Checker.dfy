/** The checker (src/verify.c): route a record of every position to the bucket of its rank, then compare
    neighbours by first symbol and by the rank of the suffix that follows. */
module Checker {
  import opened Chunks
  import opened ChunkStatus
  import opened Inversion

  const UINT32_MAX: int := 0xFFFF_FFFF

  datatype VerifyRecord = VerifyRecord(position: int, nextRank: int, slot: nat, firstKey: int)

  /** The sentinel has symbol 0 and id 0, a byte has its value plus one and no id. */
  function EncodeFirstKey(charVal: int, sentId: int): int {
    if charVal == 0 then sentId else 1 + charVal
  }

  predicate LexLessStrict(pFirstKey: int, pNextRank: int, cFirstKey: int, cNextRank: int) {
    if pFirstKey != cFirstKey then pFirstKey < cFirstKey else pNextRank < cNextRank
  }

  predicate RecordLess(p: VerifyRecord, c: VerifyRecord) {
    LexLessStrict(p.firstKey, p.nextRank, c.firstKey, c.nextRank)
  }

  /** What the input stream reports beside a symbol. */
  function SentinelId(symbol: int): int {
    if symbol == 0 then 0 else -1
  }

  /** The stored key of a symbol: 0 for the sentinel, two more than the byte for any other.  It fits 32 bits
      and keeps the order. */
  lemma KeyOfSymbol(symbol: int, other: int)
    requires 0 <= symbol <= 254 && 0 <= other <= 254
    ensures var key := EncodeFirstKey(symbol, SentinelId(symbol));
            && key == (if symbol == 0 then 0 else symbol + 1) && 0 <= key <= 0xffff_ffff
            && (key < EncodeFirstKey(other, SentinelId(other)) <==> symbol < other)
  {
  }

  // ---- what the ranks files say ----

  /** fread of at most W entries. */
  function FirstEntries(file: seq<nat>, W: nat): seq<nat> {
    if |file| <= W then file else file[..W]
  }

  /** A buffer of W entries takes the front of the file, and all of it when the buffer is not filled. */
  lemma ReadsFront(file: seq<nat>, W: nat)
    ensures var read := FirstEntries(file, W); |read| <= W && read <= file && (|read| < W ==> read == file)
  {
  }

  function FilesAsRead(ranks: seq<seq<nat>>, W: nat): (files: seq<seq<nat>>)
    ensures |files| == |ranks|
  {
    seq(|ranks|, c requires 0 <= c < |ranks| => FirstEntries(ranks[c], W))
  }

  /** The positions that the checker gives to the ranks: by file and place in the file. */
  ghost function Nominal(files: seq<seq<nat>>, W: nat): (places: seq<seq<nat>>)
    ensures |places| == |files|
  {
    seq(|files|, c requires 0 <= c < |files| => seq(|files[c]|, i requires 0 <= i < |files[c]| => Global(W, c, i)))
  }

  /** The record of the symbol m when the rank list and the position list are read beside the text. */
  ghost function RecordAt(rank: seq<nat>, pos: seq<nat>, t: seq<int>, W: nat, m: nat): VerifyRecord
    requires 1 <= W && m < |rank| == |pos| && m < |t|
  {
    VerifyRecord(pos[m], NextRank(rank, m), rank[m] % W, EncodeFirstKey(t[m], SentinelId(t[m])))
  }

  /** The rank that follows, or -1 behind the last. */
  ghost function NextRank(rank: seq<nat>, m: nat): int {
    if m + 1 < |rank| then rank[m + 1] else -1
  }

  /** Bucket k after the first n symbols: the records of the pairs that create_pairs would put there. */
  ghost predicate IsRouted(b: seq<VerifyRecord>, rank: seq<nat>, pos: seq<nat>, t: seq<int>, W: nat, n: nat, k: nat) {
    && 1 <= W && |rank| == |pos| && n <= |rank| && n <= |t|
    && |b| == |PairsBelow(rank, W, n, k)|
    && forall j: nat :: j < |b| ==>
         && PairsBelow(rank, W, n, k)[j].index < n
         && b[j] == RecordAt(rank, pos, t, W, PairsBelow(rank, W, n, k)[j].index)
  }

  ghost function PairsBelow(rank: seq<nat>, W: nat, n: nat, k: nat): seq<Pair>
    requires 1 <= W && n <= |rank|
  {
    Bucket(GlobalRecords(rank)[..n], W, k)
  }

  lemma RouteNext(b: seq<VerifyRecord>, rank: seq<nat>, pos: seq<nat>, t: seq<int>, W: nat, n: nat, k: nat)
    requires IsRouted(b, rank, pos, t, W, n, k) && n < |rank| && n < |t|
    ensures rank[n] / W == k ==> IsRouted(b + [RecordAt(rank, pos, t, W, n)], rank, pos, t, W, n + 1, k)
    ensures rank[n] / W != k ==> IsRouted(b, rank, pos, t, W, n + 1, k)
  {
    var recs := GlobalRecords(rank);
    BucketStep(recs, W, k, n);
    assert PairsBelow(rank, W, n + 1, k) ==
           PairsBelow(rank, W, n, k) + if rank[n] / W == k then [Pair(n, rank[n])] else [];
    hide PairsBelow, RecordAt;
  }

  ghost predicate AllRouted(buckets: seq<seq<VerifyRecord>>, rank: seq<nat>, pos: seq<nat>, t: seq<int>, W: nat,
                            n: nat) {
    forall k: nat :: k < |buckets| ==> IsRouted(buckets[k], rank, pos, t, W, n, k)
  }

  lemma RouteStep(buckets: seq<seq<VerifyRecord>>, rank: seq<nat>, pos: seq<nat>, t: seq<int>, W: nat, n: nat,
                  target: nat)
    requires AllRouted(buckets, rank, pos, t, W, n) && 1 <= W && |pos| == |rank| && n < |rank| && n < |t|
    requires target == rank[n] / W < |buckets|
    ensures AllRouted(buckets[target := buckets[target] + [RecordAt(rank, pos, t, W, n)]], rank, pos, t, W, n + 1)
  {
    hide IsRouted, RecordAt;
    var buckets', n' := buckets[target := buckets[target] + [RecordAt(rank, pos, t, W, n)]], n + 1;
    forall k: nat | k < |buckets'| ensures IsRouted(buckets'[k], rank, pos, t, W, n', k) {
      RouteNext(buckets[k], rank, pos, t, W, n, k);
    }
  }

  // ---- phase A ----

  /** One ranks file has its place in the whole: from at on, with nextFirst (or -1) behind it. */
  ghost predicate FileInWhole(R: seq<nat>, nextFirst: int, c: nat, W: nat, at: nat, rank: seq<nat>, pos: seq<nat>) {
    && |rank| == |pos| && 1 <= |R| && at + |R| <= |rank|
    && (forall i: nat :: i < |R| ==> rank[at + i] == R[i] && pos[at + i] == Global(W, c, i))
    && NextRank(rank, at + |R| - 1) == nextFirst
  }

  /** The first n ranks of a file belong to some bucket. */
  ghost predicate InBuckets(R: seq<nat>, W: nat, total: nat, n: nat)
    requires 1 <= W && n <= |R|
  {
    forall i: nat :: i < n ==> R[i] / W < total
  }

  /** The bucket and the slot in it, as the code computes them. */
  lemma SlotComputed(r: nat, W: nat)
    requires 1 <= W
    ensures 0 <= r / W && 0 <= r - (r / W) * W == r % W < W
  {
  }

  /** The symbols of one ranks file; the stream is read from at on. */
  method PartitionFile(stream: seq<int>, at: nat, R: seq<nat>, nextFirst: int, c: nat, W: nat,
                       buckets: seq<seq<VerifyRecord>>, ghost rank: seq<nat>, ghost pos: seq<nat>)
    returns (st: Status, buckets': seq<seq<VerifyRecord>>)
    requires 1 <= W <= UINT32_MAX && at <= |stream| && (R != [] ==> FileInWhole(R, nextFirst, c, W, at, rank, pos))
    requires AllRouted(buckets, rank, pos, stream, W, at)
    ensures |buckets'| == |buckets|
    ensures st == if at + |R| <= |stream| && InBuckets(R, W, |buckets|, |R|) then SUCCESS else FAILURE
    ensures st == SUCCESS ==> AllRouted(buckets', rank, pos, stream, W, at + |R|)
  {
    buckets' := buckets;
    for i := 0 to |R|
      invariant |buckets'| == |buckets| && at + i <= |stream|
      invariant AllRouted(buckets', rank, pos, stream, W, at + i)
      invariant InBuckets(R, W, |buckets|, i)
    {
      hide AllRouted, FileInWhole, RecordAt;
      if at + i >= |stream| {
        st := FAILURE;
        return;
      }
      var cv := stream[at + i];
      var sid := SentinelId(cv);
      var curRank := R[i];
      var nextRank: int := if i + 1 < |R| then R[i + 1] else nextFirst;
      var target := curRank / W;
      var slot := curRank - target * W;
      SlotComputed(curRank, W);
      if target < 0 || target >= |buckets| || slot < 0 || slot > UINT32_MAX {
        assert !InBuckets(R, W, |buckets|, |R|);
        st := FAILURE;
        return;
      }
      var rec := VerifyRecord(c * W + i, nextRank, slot, EncodeFirstKey(cv, sid));
      FileRecord(R, nextFirst, c, W, at, rank, pos, stream, i);
      RouteStep(buckets', rank, pos, stream, W, at + i, target);
      buckets' := buckets'[target := buckets'[target] + [rec]];
    }
    st := SUCCESS;
  }

  lemma FileRecord(R: seq<nat>, nextFirst: int, c: nat, W: nat, at: nat, rank: seq<nat>, pos: seq<nat>, t: seq<int>,
                   i: nat)
    requires FileInWhole(R, nextFirst, c, W, at, rank, pos) && i < |R| && at + i < |t| && 1 <= W
    ensures |rank| == |pos| && at + i < |rank| && rank[at + i] == R[i]
    ensures RecordAt(rank, pos, t, W, at + i) ==
            VerifyRecord(c * W + i, if i + 1 < |R| then R[i + 1] else nextFirst, R[i] % W,
                         EncodeFirstKey(t[at + i], SentinelId(t[at + i])))
  {
    assert i + 1 < |R| ==> rank[at + (i + 1)] == R[i + 1];
  }

  /** What phase A asks of ranks file c: something to peek at behind it, and every rank in some bucket. */
  ghost predicate FileGood(ranks: seq<seq<nat>>, W: nat, c: nat)
    requires 1 <= W && c < |ranks|
  {
    && (c + 1 < |ranks| ==> ranks[c + 1] != [])
    && var R := FirstEntries(ranks[c], W); InBuckets(R, W, |ranks|, |R|)
  }

  /** What phase A asks: a usable chunk size, good files, and as many ranks as symbols. */
  ghost predicate PartitionGood(ranks: seq<seq<nat>>, W: nat, t: seq<int>)
    requires 1 <= W
  {
    && W <= UINT32_MAX && |Flat(FilesAsRead(ranks, W))| == |t|
    && forall c: nat :: c < |ranks| ==> FileGood(ranks, W, c)
  }

  lemma NominalOffset(files: seq<seq<nat>>, W: nat, c: nat)
    requires c <= |files|
    ensures Offset(Nominal(files, W), c) == Offset(files, c)
  {
    SameOffset(files, Nominal(files, W), c);
  }

  /** Entry i of file c in the whole, and the position it gets. */
  lemma EntryStands(files: seq<seq<nat>>, W: nat, c: nat, i: nat)
    requires c < |files| && i < |files[c]|
    ensures var k := Offset(files, c) + i;
            && k < |Flat(files)| == |Flat(Nominal(files, W))|
            && Flat(files)[k] == files[c][i] && Flat(Nominal(files, W))[k] == Global(W, c, i)
  {
    var places := Nominal(files, W);
    assert places[c][i] == Global(W, c, i);
    hide Flat, Offset, Nominal, Global;
    NominalOffset(files, W, c);
    NominalOffset(files, W, |files|);
    OffsetEnds(files);
    OffsetEnds(places);
    FlatAt(files, c, i);
    FlatAt(places, c, i);
  }

  /** The rank behind file c is the first of the next file. */
  lemma PeekStands(files: seq<seq<nat>>, W: nat, c: nat)
    requires c < |files| && files[c] != [] && (c + 1 < |files| ==> files[c + 1] != [])
    ensures NextRank(Flat(files), Offset(files, c) + |files[c]| - 1) == if c + 1 < |files| then files[c + 1][0] else -1
  {
    FlatStep(files, c);
    OffsetEnds(files);
    hide Flat, Offset;
    if c + 1 < |files| {
      FlatAt(files, c + 1, 0);
    }
  }

  /** The ranks of file c, the position each gets, and what is peeked behind them. */
  lemma FileStands(files: seq<seq<nat>>, W: nat, c: nat, nextFirst: int)
    requires c < |files| && files[c] != []
    requires if c + 1 < |files| then files[c + 1] != [] && nextFirst == files[c + 1][0] else nextFirst == -1
    ensures FileInWhole(files[c], nextFirst, c, W, Offset(files, c), Flat(files), Flat(Nominal(files, W)))
  {
    hide Flat, Offset, Nominal, Global, NextRank;
    var R, at, rank, pos := files[c], Offset(files, c), Flat(files), Flat(Nominal(files, W));
    EntryStands(files, W, c, |R| - 1);
    PeekStands(files, W, c);
    forall i: nat | i < |R| ensures rank[at + i] == R[i] && pos[at + i] == Global(W, c, i) {
      EntryStands(files, W, c, i);
    }
  }

  lemma NothingRouted(total: nat, rank: seq<nat>, pos: seq<nat>, t: seq<int>, W: nat)
    requires 1 <= W && |rank| == |pos|
    ensures AllRouted(seq(total, _ => []), rank, pos, t, W, 0)
  {
    assert GlobalRecords(rank)[..0] == [];
  }

  lemma FileOfRanks(ranks: seq<seq<nat>>, W: nat, c: nat)
    requires 1 <= W && c < |ranks|
    ensures FilesAsRead(ranks, W)[c] == FirstEntries(ranks[c], W)
    ensures ranks[c] != [] ==> FirstEntries(ranks[c], W) != [] && FirstEntries(ranks[c], W)[0] == ranks[c][0]
    ensures var R := FirstEntries(ranks[c], W);
            FileGood(ranks, W, c) <==> (c + 1 < |ranks| ==> ranks[c + 1] != []) && InBuckets(R, W, |ranks|, |R|)
  {
  }

  /** One iteration of the main loop: read file c, peek at the file behind it, route its symbols. */
  method PartitionChunk(stream: seq<int>, at: nat, ranks: seq<seq<nat>>, W: nat, c: nat,
                        buckets: seq<seq<VerifyRecord>>, ghost rank: seq<nat>, ghost pos: seq<nat>)
    returns (st: Status, at': nat, buckets': seq<seq<VerifyRecord>>)
    requires 1 <= W <= UINT32_MAX && c < |ranks| == |buckets| && at == Offset(FilesAsRead(ranks, W), c) <= |stream|
    requires rank == Flat(FilesAsRead(ranks, W)) && pos == Flat(Nominal(FilesAsRead(ranks, W), W))
    requires AllRouted(buckets, rank, pos, stream, W, at)
    ensures |buckets'| == |buckets|
    ensures st == if FileGood(ranks, W, c) && Offset(FilesAsRead(ranks, W), c + 1) <= |stream| then SUCCESS else FAILURE
    ensures st == SUCCESS ==>
              at' == Offset(FilesAsRead(ranks, W), c + 1) && AllRouted(buckets', rank, pos, stream, W, at')
  {
    hide Flat, Offset, Nominal, InBuckets, AllRouted, FileInWhole, FirstEntries, FilesAsRead, FileGood;
    ghost var files := FilesAsRead(ranks, W);
    var R := FirstEntries(ranks[c], W);
    FileOfRanks(ranks, W, c);
    FlatStep(files, c);
    at', buckets' := at, buckets;
    var nextFirst: int := -1;
    if c + 1 < |ranks| {
      if ranks[c + 1] == [] {
        st := FAILURE;
        return;
      }
      nextFirst := ranks[c + 1][0];
      FileOfRanks(ranks, W, c + 1);
    }
    if R != [] {
      FileStands(files, W, c, nextFirst);
    }
    st, buckets' := PartitionFile(stream, at, R, nextFirst, c, W, buckets, rank, pos);
    at' := at + |R|;
  }

  /** verify_partition: it succeeds exactly when phase A has nothing to object to, and then every bucket
      holds the records of its ranks. */
  method VerifyPartition(stream: seq<int>, ranks: seq<seq<nat>>, W: nat)
    returns (st: Status, buckets: seq<seq<VerifyRecord>>)
    requires 1 <= W && 1 <= |ranks|
    ensures st == if PartitionGood(ranks, W, stream) then SUCCESS else FAILURE
    ensures |buckets| == |ranks|
    ensures st == SUCCESS ==>
              AllRouted(buckets, Flat(FilesAsRead(ranks, W)), Flat(Nominal(FilesAsRead(ranks, W), W)), stream, W,
                        |stream|)
  {
    hide Flat, Offset, Nominal, AllRouted, FilesAsRead, FileGood;
    var total := |ranks|;
    buckets := seq(total, _ => []);
    if W > UINT32_MAX {
      st := FAILURE;
      return;
    }
    ghost var files := FilesAsRead(ranks, W);
    ghost var rank, pos := Flat(files), Flat(Nominal(files, W));
    NominalOffset(files, W, total);
    OffsetEnds(files);
    OffsetEnds(Nominal(files, W));
    NothingRouted(total, rank, pos, stream, W);
    var at: nat := 0;
    for c := 0 to total
      invariant |buckets| == total && at == Offset(files, c) <= |stream|
      invariant AllRouted(buckets, rank, pos, stream, W, at)
      invariant forall d: nat :: d < c ==> FileGood(ranks, W, d)
    {
      OffsetMonotone(files, c + 1, total);
      st, at, buckets := PartitionChunk(stream, at, ranks, W, c, buckets, rank, pos);
      if st != SUCCESS {
        return;
      }
    }
    st := if at < |stream| then FAILURE else SUCCESS;
  }

  // ---- phase B ----

  const BLANK := VerifyRecord(0, 0, 0, 0)

  /** The record that stands in slot v after placing all of b. */
  ghost function AtSlot(b: seq<VerifyRecord>, v: nat): VerifyRecord {
    if b == [] then BLANK
    else if b[|b| - 1].slot == v then b[|b| - 1]
    else AtSlot(b[..|b| - 1], v)
  }

  /** The records of a bucket in slot order. */
  ghost function InSlotOrder(b: seq<VerifyRecord>): (l: seq<VerifyRecord>)
    ensures |l| == |b|
  {
    seq(|b|, v requires 0 <= v < |b| => AtSlot(b, v))
  }

  ghost predicate SlotsBelow(b: seq<VerifyRecord>, n: nat) {
    && (forall j: nat :: j < |b| ==> b[j].slot < n)
    && forall j: nat, l: nat :: j < l < |b| ==> b[j].slot != b[l].slot
  }

  /** The records take each of the n slots once. */
  ghost predicate FillsSlots(b: seq<VerifyRecord>, n: nat) {
    SlotsBelow(b, n) && |b| == n
  }

  /** With different slots, a record is found at its slot. */
  lemma {:induction false} FoundAtSlot(b: seq<VerifyRecord>, n: nat, j: nat)
    requires SlotsBelow(b, n) && j < |b|
    ensures AtSlot(b, b[j].slot) == b[j]
  {
    var last := |b| - 1;
    if j < last {
      assert b[j].slot != b[last].slot;
      FoundAtSlot(b[..last], n, j);
    }
  }

  /** n records in n slots leave none empty. */
  lemma SlotFilled(b: seq<VerifyRecord>, n: nat, v: nat) returns (j: nat)
    requires FillsSlots(b, n) && v < n
    ensures j < |b| && b[j].slot == v && AtSlot(b, v) == b[j]
  {
    var slots := seq(|b|, m requires 0 <= m < |b| => b[m].slot);
    assert IsPermutation(slots);
    j := RankTaken(slots, v);
    FoundAtSlot(b, n, j);
  }

  /** The slot arrays after placing the records b: seen marks their slots, and a marked slot holds its record. */
  ghost predicate Placed(b: seq<VerifyRecord>, n: nat, positions: seq<int>, nextRanks: seq<int>, firstKeys: seq<int>,
                         seen: seq<bool>) {
    && n <= |positions| == |nextRanks| == |firstKeys| == |seen|
    && forall v: nat :: v < n ==>
         && (seen[v] <==> exists j: nat :: j < |b| && b[j].slot == v)
         && (seen[v] ==> SlotHolds(b, v, positions, nextRanks, firstKeys))
  }

  ghost predicate SlotHolds(b: seq<VerifyRecord>, v: nat, positions: seq<int>, nextRanks: seq<int>, firstKeys: seq<int>)
    requires v < |positions| == |nextRanks| == |firstKeys|
  {
    AtSlot(b, v) == VerifyRecord(positions[v], nextRanks[v], v, firstKeys[v])
  }

  lemma PlaceNext(b: seq<VerifyRecord>, n: nat, positions: seq<int>, nextRanks: seq<int>, firstKeys: seq<int>,
                  seen: seq<bool>, rec: VerifyRecord)
    requires SlotsBelow(b, n) && Placed(b, n, positions, nextRanks, firstKeys, seen) && rec.slot < n
    ensures seen[rec.slot] ==> !SlotsBelow(b + [rec], n)
    ensures !seen[rec.slot] ==> SlotsBelow(b + [rec], n)
    ensures Placed(b + [rec], n, positions[rec.slot := rec.position], nextRanks[rec.slot := rec.nextRank],
                   firstKeys[rec.slot := rec.firstKey], seen[rec.slot := true])
  {
    var b' := b + [rec];
    assert b'[..|b|] == b;
    if seen[rec.slot] {
      var j: nat :| j < |b| && b[j].slot == rec.slot;
      assert b'[j].slot == b'[|b|].slot;
    }
    var positions', nextRanks', firstKeys' :=
      positions[rec.slot := rec.position], nextRanks[rec.slot := rec.nextRank], firstKeys[rec.slot := rec.firstKey];
    var seen' := seen[rec.slot := true];
    forall v: nat | v < n
      ensures seen'[v] <==> exists j: nat :: j < |b'| && b'[j].slot == v
      ensures seen'[v] ==> SlotHolds(b', v, positions', nextRanks', firstKeys')
    {
      if v == rec.slot {
        assert b'[|b|].slot == v;
      } else if seen[v] {
        var j: nat :| j < |b| && b[j].slot == v;
        assert b'[j].slot == v;
      }
    }
  }

  lemma SlotsBelowPrefix(b: seq<VerifyRecord>, n: nat, j: nat)
    requires SlotsBelow(b, n) && j <= |b|
    ensures SlotsBelow(b[..j], n)
  {
  }

  /** The counting sort of one bucket: it succeeds exactly when the records fill the slots. */
  method PlaceRecords(b: seq<VerifyRecord>, saCount: nat, positions: array<int>, nextRanks: array<int>,
                      firstKeys: array<int>, seen: array<bool>)
    returns (ok: bool)
    requires saCount <= positions.Length == nextRanks.Length == firstKeys.Length == seen.Length
    requires positions != nextRanks && positions != firstKeys && nextRanks != firstKeys
    modifies positions, nextRanks, firstKeys, seen
    ensures ok <==> FillsSlots(b, saCount)
    ensures ok ==> Placed(b, saCount, positions[..], nextRanks[..], firstKeys[..], seen[..])
  {
    for v := 0 to saCount
      invariant forall w: nat :: w < v ==> !seen[w]
    {
      seen[v] := false;
    }
    var placed := 0;
    for j := 0 to |b|
      invariant placed == j && SlotsBelow(b[..j], saCount)
      invariant Placed(b[..j], saCount, positions[..], nextRanks[..], firstKeys[..], seen[..])
    {
      hide Placed, SlotsBelow;
      var slot := b[j].slot;
      if slot < 0 || slot >= saCount {
        SlotOutside(b, saCount, j);
        return false;
      }
      PlaceNext(b[..j], saCount, positions[..], nextRanks[..], firstKeys[..], seen[..], b[j]);
      assert b[..j + 1] == b[..j] + [b[j]];
      if seen[slot] {
        NotFilled(b, saCount, j + 1);
        return false;
      }
      ghost var wasPositions, wasNexts, wasKeys, wasSeen := positions[..], nextRanks[..], firstKeys[..], seen[..];
      positions[slot] := b[j].position;
      nextRanks[slot] := b[j].nextRank;
      firstKeys[slot] := b[j].firstKey;
      seen[slot] := true;
      placed := placed + 1;
      assert positions[..] == wasPositions[slot := b[j].position] && nextRanks[..] == wasNexts[slot := b[j].nextRank];
      assert firstKeys[..] == wasKeys[slot := b[j].firstKey] && seen[..] == wasSeen[slot := true];
    }
    assert b[..|b|] == b;
    ok := placed == saCount;
  }

  lemma SlotOutside(b: seq<VerifyRecord>, n: nat, j: nat)
    requires j < |b| && b[j].slot >= n
    ensures !FillsSlots(b, n)
  {
  }

  lemma NotFilled(b: seq<VerifyRecord>, n: nat, j: nat)
    requires j <= |b| && !SlotsBelow(b[..j], n)
    ensures !FillsSlots(b, n)
  {
    if FillsSlots(b, n) {
      SlotsBelowPrefix(b, n, j);
    }
  }

  // ---- the comparison ----

  /** Every neighbour is smaller than the next. */
  ghost predicate Increasing(l: seq<VerifyRecord>) {
    forall v: nat, w: nat :: v + 1 == w < |l| ==> RecordLess(l[v], l[w])
  }

  ghost predicate PositionsMatch(l: seq<VerifyRecord>, sa: seq<int>) {
    |l| == |sa| && forall v: nat :: v < |l| ==> l[v].position == sa[v]
  }

  lemma IncreasingAppend(p: seq<VerifyRecord>, r: VerifyRecord)
    ensures Increasing(p + [r]) <==> Increasing(p) && (p != [] ==> RecordLess(p[|p| - 1], r))
  {
    var l := p + [r];
    if Increasing(l) {
      forall v: nat, w: nat | v + 1 == w < |p| ensures RecordLess(p[v], p[w]) {
        assert RecordLess(l[v], l[w]);
      }
      assert p != [] ==> RecordLess(l[|p| - 1], l[|p|]);
    }
  }

  lemma IncreasingPrefix(l: seq<VerifyRecord>, n: nat)
    requires n <= |l| && Increasing(l)
    ensures Increasing(l[..n])
  {
  }

  /** The slot arrays hold the list l. */
  ghost predicate ArraysHold(l: seq<VerifyRecord>, positions: seq<int>, nextRanks: seq<int>, firstKeys: seq<int>) {
    && |l| <= |positions| == |nextRanks| == |firstKeys|
    && forall v: nat :: v < |l| ==> l[v] == VerifyRecord(positions[v], nextRanks[v], v, firstKeys[v])
  }

  lemma PlacedInOrder(b: seq<VerifyRecord>, n: nat, positions: seq<int>, nextRanks: seq<int>, firstKeys: seq<int>,
                      seen: seq<bool>)
    requires FillsSlots(b, n) && Placed(b, n, positions, nextRanks, firstKeys, seen)
    ensures ArraysHold(InSlotOrder(b), positions, nextRanks, firstKeys)
  {
    var l := InSlotOrder(b);
    forall v: nat | v < |l| ensures l[v] == VerifyRecord(positions[v], nextRanks[v], v, firstKeys[v]) {
      var j := SlotFilled(b, n, v);
      assert SlotHolds(b, v, positions, nextRanks, firstKeys);
    }
  }

  /** What is carried from one bucket to the next: the last record seen so far. */
  ghost predicate Carries(prev: seq<VerifyRecord>, haveCarry: bool, nextRank: int, firstKey: int) {
    && (haveCarry <==> prev != [])
    && (haveCarry ==> nextRank == prev[|prev| - 1].nextRank && firstKey == prev[|prev| - 1].firstKey)
  }

  /** Compare a suffix array file with the placed positions, and every entry with the one before. */
  method CompareEntries(sa: seq<int>, positions: array<int>, nextRanks: array<int>, firstKeys: array<int>,
                        haveCarry: bool, carryNextRank: int, carryFirstKey: int,
                        ghost prev: seq<VerifyRecord>, ghost l: seq<VerifyRecord>)
    returns (ok: bool)
    requires |sa| == |l| && ArraysHold(l, positions[..], nextRanks[..], firstKeys[..])
    requires Increasing(prev) && Carries(prev, haveCarry, carryNextRank, carryFirstKey)
    ensures ok <==> PositionsMatch(l, sa) && Increasing(prev + l)
  {
    assert prev + l[..0] == prev;
    for i := 0 to |sa|
      invariant forall v: nat :: v < i ==> l[v].position == sa[v]
      invariant Increasing(prev + l[..i])
    {
      hide Increasing, RecordLess;
      if positions[i] != sa[i] {
        return false;
      }
      var hasPrev, prevNextRank, prevFirstKey := false, 0, 0;
      if i > 0 {
        hasPrev, prevNextRank, prevFirstKey := true, nextRanks[i - 1], firstKeys[i - 1];
      } else if haveCarry {
        hasPrev, prevNextRank, prevFirstKey := true, carryNextRank, carryFirstKey;
      }
      ghost var before := prev + l[..i];
      IncreasingAppend(before, l[i]);
      assert before + [l[i]] == prev + l[..i + 1];
      LastBefore(prev, l, i);
      if hasPrev && !LexLessStrict(prevFirstKey, prevNextRank, firstKeys[i], nextRanks[i]) {
        NotIncreasing(prev, l, i + 1);
        return false;
      }
    }
    assert l[..|l|] == l;
    ok := true;
  }

  lemma LastBefore(prev: seq<VerifyRecord>, l: seq<VerifyRecord>, i: nat)
    requires i < |l|
    ensures var before := prev + l[..i];
            && (before == [] <==> i == 0 && prev == [])
            && (before != [] ==>
                  (RecordLess(before[|before| - 1], l[i]) <==>
                   var p := if i > 0 then l[i - 1] else prev[|prev| - 1];
                   LexLessStrict(p.firstKey, p.nextRank, l[i].firstKey, l[i].nextRank)))
  {
  }

  lemma NotIncreasing(prev: seq<VerifyRecord>, l: seq<VerifyRecord>, i: nat)
    requires i <= |l| && !Increasing(prev + l[..i])
    ensures !Increasing(prev + l)
  {
    assert (prev + l)[..|prev| + i] == prev + l[..i];
  }

  /** What phase B asks of one bucket and its suffix array file. */
  ghost predicate ChunkGood(b: seq<VerifyRecord>, sa: seq<int>, W: nat) {
    |sa| <= W && FillsSlots(b, |sa|) && PositionsMatch(InSlotOrder(b), sa)
  }

  /** The buckets, each in slot order. */
  ghost function Lists(buckets: seq<seq<VerifyRecord>>): (ls: seq<seq<VerifyRecord>>)
    ensures |ls| == |buckets|
  {
    seq(|buckets|, k requires 0 <= k < |buckets| => InSlotOrder(buckets[k]))
  }

  /** What phase B asks. */
  ghost predicate CheckGood(buckets: seq<seq<VerifyRecord>>, sas: seq<seq<int>>, W: nat)
    requires |buckets| == |sas|
  {
    && (forall k: nat :: k < |sas| ==> ChunkGood(buckets[k], sas[k], W))
    && Increasing(Flat(Lists(buckets)))
  }

  /** One bucket of phase B. */
  method CheckBucket(b: seq<VerifyRecord>, sa: seq<int>, W: nat, positions: array<int>, nextRanks: array<int>,
                     firstKeys: array<int>, seen: array<bool>, haveCarry: bool, carryNextRank: int, carryFirstKey: int,
                     ghost prev: seq<VerifyRecord>)
    returns (ok: bool, haveCarry': bool, carryNextRank': int, carryFirstKey': int)
    requires W == positions.Length == nextRanks.Length == firstKeys.Length == seen.Length
    requires positions != nextRanks && positions != firstKeys && nextRanks != firstKeys
    requires Increasing(prev) && Carries(prev, haveCarry, carryNextRank, carryFirstKey)
    modifies positions, nextRanks, firstKeys, seen
    ensures ok <==> ChunkGood(b, sa, W) && Increasing(prev + InSlotOrder(b))
    ensures ok ==> Carries(prev + InSlotOrder(b), haveCarry', carryNextRank', carryFirstKey')
  {
    hide Increasing, FillsSlots, Placed, PositionsMatch, ArraysHold;
    haveCarry', carryNextRank', carryFirstKey' := haveCarry, carryNextRank, carryFirstKey;
    var saCount := |sa|;
    if saCount > W {
      return false, haveCarry', carryNextRank', carryFirstKey';
    }
    ok := PlaceRecords(b, saCount, positions, nextRanks, firstKeys, seen);
    if !ok {
      return;
    }
    ghost var l := InSlotOrder(b);
    PlacedInOrder(b, saCount, positions[..], nextRanks[..], firstKeys[..], seen[..]);
    SameSize(b, saCount);
    ok := CompareEntries(sa, positions, nextRanks, firstKeys, haveCarry, carryNextRank, carryFirstKey, prev, l);
    if ok && saCount > 0 {
      LastHeld(l, positions[..], nextRanks[..], firstKeys[..]);
      carryNextRank', carryFirstKey', haveCarry' := nextRanks[saCount - 1], firstKeys[saCount - 1], true;
    }
    assert saCount == 0 ==> prev + l == prev;
  }

  lemma SameSize(b: seq<VerifyRecord>, n: nat)
    requires FillsSlots(b, n)
    ensures |b| == n
  {
  }

  lemma LastHeld(l: seq<VerifyRecord>, positions: seq<int>, nextRanks: seq<int>, firstKeys: seq<int>)
    requires ArraysHold(l, positions, nextRanks, firstKeys) && l != []
    ensures l[|l| - 1].nextRank == nextRanks[|l| - 1] && l[|l| - 1].firstKey == firstKeys[|l| - 1]
  {
  }

  /** verify_check: it succeeds exactly when phase B has nothing to object to. */
  method VerifyCheck(buckets: seq<seq<VerifyRecord>>, sas: seq<seq<int>>, W: nat) returns (st: Status)
    requires |buckets| == |sas|
    ensures st == if CheckGood(buckets, sas, W) then SUCCESS else FAILURE
  {
    hide Increasing, ChunkGood, InSlotOrder, Flat;
    var positions, nextRanks, firstKeys := new int[W](_ => 0), new int[W](_ => 0), new int[W](_ => 0);
    var seen := new bool[W](_ => false);
    var haveCarry, carryNextRank, carryFirstKey := false, 0, 0;
    ghost var lists := Lists(buckets);
    NothingIncreasing(lists);
    for k := 0 to |sas|
      invariant forall j: nat :: j < k ==> ChunkGood(buckets[j], sas[j], W)
      invariant Increasing(Flat(lists[..k])) && Carries(Flat(lists[..k]), haveCarry, carryNextRank, carryFirstKey)
    {
      FlatStep(lists, k);
      var ok;
      ok, haveCarry, carryNextRank, carryFirstKey :=
        CheckBucket(buckets[k], sas[k], W, positions, nextRanks, firstKeys, seen, haveCarry, carryNextRank,
                    carryFirstKey, Flat(lists[..k]));
      if !ok {
        if !Increasing(Flat(lists[..k + 1])) {
          NotIncreasingFlat(lists, k + 1);
        }
        return FAILURE;
      }
    }
    assert lists[..|lists|] == lists;
    st := SUCCESS;
  }

  lemma NothingIncreasing(lists: seq<seq<VerifyRecord>>)
    ensures Flat(lists[..0]) == [] && Increasing([])
  {
  }

  lemma NotIncreasingFlat(lists: seq<seq<VerifyRecord>>, k: nat)
    requires k <= |lists| && !Increasing(Flat(lists[..k]))
    ensures !Increasing(Flat(lists))
  {
    if Increasing(Flat(lists)) {
      FlatIsPrefix(lists, k);
      IncreasingPrefix(Flat(lists), Offset(lists, k));
    }
  }

  /** verify: both phases. */
  ghost predicate Accepted(t: seq<int>, ranks: seq<seq<nat>>, sas: seq<seq<int>>, W: nat)
    requires 1 <= W && |ranks| == |sas|
  {
    PartitionGood(ranks, W, t) &&
    exists buckets: seq<seq<VerifyRecord>> ::
      && |buckets| == |ranks| && CheckGood(buckets, sas, W)
      && AllRouted(buckets, Flat(FilesAsRead(ranks, W)), Flat(Nominal(FilesAsRead(ranks, W), W)), t, W, |t|)
  }

  /** Slots in a bucket are stored in 32 bits. */
  lemma SlotsTooLarge(ranks: seq<seq<nat>>, W: nat, t: seq<int>)
    requires 1 <= W
    ensures PartitionGood(ranks, W, t) ==> W <= 0xffff_ffff
  {
  }

  lemma RoutedOnce(b: seq<VerifyRecord>, b': seq<VerifyRecord>, rank: seq<nat>, pos: seq<nat>, t: seq<int>, W: nat,
                   n: nat, k: nat)
    requires IsRouted(b, rank, pos, t, W, n, k) && IsRouted(b', rank, pos, t, W, n, k)
    ensures b == b'
  {
  }

  /** The program: total_chunks files of each kind (src/verify.c:374-396). */
  method Verify(stream: seq<int>, ranks: seq<seq<nat>>, sas: seq<seq<int>>, W: nat) returns (st: Status)
    requires 1 <= W && |ranks| == |sas|
    ensures st == if 1 <= |ranks| && Accepted(stream, ranks, sas, W) then SUCCESS else FAILURE
    ensures W > 0xffff_ffff ==> st == FAILURE
  {
    hide PartitionGood, CheckGood, Flat, Nominal, FilesAsRead, IsRouted;
    SlotsTooLarge(ranks, W, stream);
    if |ranks| <= 0 {
      return FAILURE;
    }
    var buckets;
    st, buckets := VerifyPartition(stream, ranks, W);
    if st != SUCCESS {
      return FAILURE;
    }
    st := VerifyCheck(buckets, sas, W);
    ghost var rank, pos := Flat(FilesAsRead(ranks, W)), Flat(Nominal(FilesAsRead(ranks, W), W));
    forall other: seq<seq<VerifyRecord>> | |other| == |ranks| && AllRouted(other, rank, pos, stream, W, |stream|)
      ensures other == buckets
    {
      forall k: nat | k < |ranks| ensures other[k] == buckets[k] {
        RoutedOnce(other[k], buckets[k], rank, pos, stream, W, |stream|, k);
      }
    }
  }
}
