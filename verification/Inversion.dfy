/** From final ranks to the suffix array (src/create_pairs.c, src/invert.c): scatter (position, rank)
    records into rank buckets, then scatter each bucket by rank modulo the chunk size. */
module Inversion {
  import opened Arithmetic
  import opened SuffixOrder
  import opened Chunks
  import opened RunLength
  import opened Doubling

  datatype Pair = Pair(index: nat, value: nat)

  /** The records of a chunk, in position order. */
  function RecordsOf(ranks: seq<nat>, S: nat, c: nat): (recs: seq<Pair>)
    ensures |recs| == |ranks|
  {
    seq(|ranks|, i requires 0 <= i < |ranks| => Pair(Global(S, c, i), ranks[i]))
  }

  /** The bucket of a record. */
  function BucketIndex(r: Pair, S: nat): nat
    requires S >= 1
  {
    r.value / S
  }

  /** The records of rank bucket j, in order. */
  function Bucket(recs: seq<Pair>, S: nat, j: nat): seq<Pair>
    requires S >= 1
  {
    if recs == [] then []
    else Bucket(recs[..|recs| - 1], S, j) +
         if BucketIndex(recs[|recs| - 1], S) == j then [recs[|recs| - 1]] else []
  }

  /** Where bucket j starts when the buckets lie one behind the other. */
  function Start(recs: seq<Pair>, S: nat, j: nat): nat
    requires S >= 1
  {
    if j == 0 then 0 else Start(recs, S, j - 1) + |Bucket(recs, S, j - 1)|
  }

  lemma BucketStep(recs: seq<Pair>, S: nat, j: nat, i: nat)
    requires S >= 1 && i < |recs|
    ensures Bucket(recs[..i + 1], S, j) ==
            Bucket(recs[..i], S, j) + if BucketIndex(recs[i], S) == j then [recs[i]] else []
  {
    assert recs[..i + 1][..i] == recs[..i];
  }

  lemma {:induction false} StartStep(recs: seq<Pair>, S: nat, j: nat)
    requires S >= 1 && recs != []
    ensures Start(recs, S, j) == Start(recs[..|recs| - 1], S, j) + if BucketIndex(recs[|recs| - 1], S) < j then 1 else 0
  {
    if j > 0 {
      StartStep(recs, S, j - 1);
    }
  }

  /** Every record is in one bucket, so the buckets together are as long as the records. */
  lemma {:induction false} StartTotal(recs: seq<Pair>, S: nat, total: nat)
    requires S >= 1 && forall i: nat :: i < |recs| ==> BucketIndex(recs[i], S) < total
    ensures Start(recs, S, total) == |recs|
  {
    if recs == [] {
      StartOfNothing(S, total);
    } else {
      StartTotal(recs[..|recs| - 1], S, total);
      StartStep(recs, S, total);
    }
  }

  lemma {:induction false} StartOfNothing(S: nat, j: nat)
    requires S >= 1
    ensures Start([], S, j) == 0
  {
    if j > 0 {
      StartOfNothing(S, j - 1);
    }
  }

  lemma StartUnfold(recs: seq<Pair>, S: nat, j: nat)
    requires S >= 1
    ensures Start(recs, S, 0) == 0 && Start(recs, S, j + 1) == Start(recs, S, j) + |Bucket(recs, S, j)|
  {
  }

  lemma {:induction false} StartMonotone(recs: seq<Pair>, S: nat, j: nat, l: nat)
    requires S >= 1 && j <= l
    ensures Start(recs, S, j) <= Start(recs, S, l)
  {
    if j < l {
      StartMonotone(recs, S, j, l - 1);
    }
  }

  lemma {:induction false} BucketOfPrefix(recs: seq<Pair>, S: nat, j: nat, i: nat)
    requires S >= 1 && i <= |recs|
    ensures |Bucket(recs[..i], S, j)| <= |Bucket(recs, S, j)|
    decreases |recs|
  {
    if i < |recs| {
      BucketOfPrefix(recs[..|recs| - 1], S, j, i);
      assert recs[..|recs| - 1][..i] == recs[..i];
    } else {
      assert recs[..i] == recs;
    }
  }

  // ---- create_pairs ----

  /** Count the records of each bucket. */
  method CountBuckets(ranks: seq<nat>, S: nat, c: nat, total: nat) returns (starts: array<nat>)
    requires S >= 1 && forall i: nat :: i < |ranks| ==> ranks[i] / S < total
    ensures fresh(starts) && starts.Length == total
    ensures Counted(starts[..], RecordsOf(ranks, S, c), S)
  {
    ghost var recs := RecordsOf(ranks, S, c);
    starts := new nat[total](_ => 0);
    for i := 0 to |ranks|
      invariant forall j: nat :: j < total ==> starts[j] == |Bucket(recs[..i], S, j)|
    {
      forall j: nat | j < total
        ensures |Bucket(recs[..i + 1], S, j)| == |Bucket(recs[..i], S, j)| + if ranks[i] / S == j then 1 else 0
      {
        BucketStep(recs, S, j, i);
      }
      starts[ranks[i] / S] := starts[ranks[i] / S] + 1;
    }
    assert recs[..|ranks|] == recs;
  }

  ghost predicate Counted(counts: seq<nat>, recs: seq<Pair>, S: nat)
    requires S >= 1
  {
    forall j: nat :: j < |counts| ==> counts[j] == |Bucket(recs, S, j)|
  }

  ghost predicate Started(starts: seq<nat>, recs: seq<Pair>, S: nat)
    requires S >= 1
  {
    forall j: nat :: j < |starts| ==> starts[j] == Start(recs, S, j)
  }

  lemma CountedAt(counts: seq<nat>, recs: seq<Pair>, S: nat, j: nat)
    requires S >= 1 && Counted(counts, recs, S) && j < |counts|
    ensures Start(recs, S, j + 1) == Start(recs, S, j) + counts[j]
  {
  }

  lemma StartedNext(starts: seq<nat>, recs: seq<Pair>, S: nat, sum: nat)
    requires S >= 1 && Started(starts, recs, S) && sum == Start(recs, S, |starts|)
    ensures Started(starts + [sum], recs, S)
  {
  }

  /** Turn counts into starts in place. */
  method SumStarts(starts: array<nat>, S: nat, ghost recs: seq<Pair>)
    requires S >= 1 && Counted(starts[..], recs, S)
    modifies starts
    ensures Started(starts[..], recs, S)
  {
    hide Counted, Started;
    ghost var counts := starts[..];
    var sum: nat := 0;
    StartedNone(recs, S);
    for j := 0 to starts.Length
      invariant sum == Start(recs, S, j)
      invariant Started(starts[..j], recs, S) && starts[j..] == counts[j..]
    {
      CountedAt(counts, recs, S, j);
      StartedNext(starts[..j], recs, S, sum);
      assert starts[j] == starts[j..][0] == counts[j];
      ghost var rest := starts[j + 1..];
      assert starts[j..][1..] == rest;
      var temp := starts[j];
      starts[j] := sum;
      sum := sum + temp;
      assert starts[..j + 1] == starts[..j] + [starts[j]];
    }
    assert starts[..starts.Length] == starts[..];
  }

  lemma StartedNone(recs: seq<Pair>, S: nat)
    requires S >= 1
    ensures Started([], recs, S) && Start(recs, S, 0) == 0
  {
  }

  /** After the first i records the filled part of every bucket holds its records so far. */
  ghost predicate Scattered(recs: seq<Pair>, S: nat, i: nat, starts: seq<nat>, buf: seq<Pair>)
    requires S >= 1
  {
    && i <= |recs| <= |buf|
    && forall j: nat :: j < |starts| ==> BucketFilled(recs, S, i, j, starts[j], buf)
  }

  ghost predicate BucketFilled(recs: seq<Pair>, S: nat, i: nat, j: nat, at: nat, buf: seq<Pair>)
    requires S >= 1 && i <= |recs|
  {
    && at == Start(recs, S, j) + |Bucket(recs[..i], S, j)|
    && at <= |buf| && buf[Start(recs, S, j)..at] == Bucket(recs[..i], S, j)
  }

  lemma FillOwn(recs: seq<Pair>, S: nat, i: nat, b: nat, at: nat, buf: seq<Pair>)
    requires S >= 1 && i < |recs| && BucketIndex(recs[i], S) == b && at < |buf|
    requires BucketFilled(recs, S, i, b, at, buf)
    ensures BucketFilled(recs, S, i + 1, b, at + 1, buf[at := recs[i]])
  {
    BucketStep(recs, S, b, i);
    hide Bucket, Start;
    var lo := Start(recs, S, b);
    assert buf[at := recs[i]][lo..at + 1] == buf[lo..at] + [recs[i]];
  }

  lemma FillOther(recs: seq<Pair>, S: nat, i: nat, j: nat, at: nat, buf: seq<Pair>, slot: nat)
    requires S >= 1 && i < |recs| && BucketIndex(recs[i], S) != j && slot < |buf|
    requires BucketFilled(recs, S, i, j, at, buf)
    requires slot < Start(recs, S, j) || Start(recs, S, j + 1) <= slot
    ensures BucketFilled(recs, S, i + 1, j, at, buf[slot := recs[i]])
  {
    BucketStep(recs, S, j, i);
    BucketOfPrefix(recs, S, j, i);
    StartUnfold(recs, S, j);
    hide Bucket, Start;
    var lo := Start(recs, S, j);
    assert Bucket(recs[..i], S, j) + [] == Bucket(recs[..i], S, j);
    assert buf[slot := recs[i]][lo..at] == buf[lo..at];
  }

  /** The slot of the next record lies inside its bucket. */
  lemma SlotInBucket(recs: seq<Pair>, S: nat, i: nat, b: nat, at: nat, buf: seq<Pair>, total: nat)
    requires S >= 1 && i < |recs| <= |buf| && BucketIndex(recs[i], S) == b < total
    requires BucketFilled(recs, S, i, b, at, buf)
    requires forall m: nat :: m < |recs| ==> BucketIndex(recs[m], S) < total
    ensures Start(recs, S, b) <= at < Start(recs, S, b + 1) <= |buf|
  {
    hide Bucket, Start;
    BucketStep(recs, S, b, i);
    BucketOfPrefix(recs, S, b, i + 1);
    StartUnfold(recs, S, b);
    StartMonotone(recs, S, b + 1, total);
    StartTotal(recs, S, total);
  }

  /** Two buckets do not overlap. */
  lemma BucketsApart(recs: seq<Pair>, S: nat, j: nat, b: nat)
    requires S >= 1 && j != b
    ensures j < b ==> Start(recs, S, j + 1) <= Start(recs, S, b)
    ensures b < j ==> Start(recs, S, b + 1) <= Start(recs, S, j)
  {
    if j < b {
      StartMonotone(recs, S, j + 1, b);
    } else {
      StartMonotone(recs, S, b + 1, j);
    }
  }

  /** What scattering record i does to bucket j. */
  lemma FillNext(recs: seq<Pair>, S: nat, i: nat, b: nat, slot: nat, buf: seq<Pair>, j: nat, at: nat)
    requires S >= 1 && i < |recs| && BucketIndex(recs[i], S) == b && slot < |buf|
    requires Start(recs, S, b) <= slot < Start(recs, S, b + 1)
    requires BucketFilled(recs, S, i, j, at, buf) && (j == b ==> at == slot)
    ensures BucketFilled(recs, S, i + 1, j, if j == b then at + 1 else at, buf[slot := recs[i]])
  {
    hide BucketFilled, Start, Bucket, BucketIndex;
    if j == b {
      FillOwn(recs, S, i, b, slot, buf);
    } else {
      BucketsApart(recs, S, j, b);
      FillOther(recs, S, i, j, at, buf, slot);
    }
  }

  /** The next record goes to the free slot of its bucket and disturbs no other. */
  lemma ScatterNext(recs: seq<Pair>, S: nat, i: nat, starts: seq<nat>, buf: seq<Pair>)
    requires S >= 1 && Scattered(recs, S, i, starts, buf) && i < |recs|
    requires forall m: nat :: m < |recs| ==> BucketIndex(recs[m], S) < |starts|
    ensures var b := BucketIndex(recs[i], S);
            && starts[b] < |buf|
            && Scattered(recs, S, i + 1, starts[b := starts[b] + 1], buf[starts[b] := recs[i]])
  {
    hide BucketFilled, Start, Bucket, BucketIndex;
    var b := BucketIndex(recs[i], S);
    var slot := starts[b];
    SlotInBucket(recs, S, i, b, slot, buf, |starts|);
    var starts', buf', i' := starts[b := slot + 1], buf[slot := recs[i]], i + 1;
    forall j: nat | j < |starts'| ensures BucketFilled(recs, S, i', j, starts'[j], buf') {
      FillNext(recs, S, i, b, slot, buf, j, starts[j]);
    }
  }

  /** Scatter the records into the buckets; afterwards the start of each bucket has moved to its end. */
  method Scatter(ranks: seq<nat>, S: nat, c: nat, starts: array<nat>, buf: array<Pair>, ghost recs: seq<Pair>)
    requires S >= 1 && recs == RecordsOf(ranks, S, c) && Scattered(recs, S, 0, starts[..], buf[..])
    requires forall i: nat :: i < |ranks| ==> ranks[i] / S < starts.Length && ranks[i] < I40_LIMIT
    requires Global(S, c, |ranks|) <= I40_LIMIT
    modifies starts, buf
    ensures Scattered(recs, S, |recs|, starts[..], buf[..])
  {
    hide Scattered;
    for i := 0 to |ranks|
      invariant Scattered(recs, S, i, starts[..], buf[..])
    {
      var val := ranks[i];
      var idx := i + c * S;
      assert recs[i] == Pair(idx, val);
      ghost var startsWas, bufWas := starts[..], buf[..];
      ScatterNext(recs, S, i, startsWas, bufWas);
      var b := val / S;
      buf[starts[b]] := Pair(I40(idx), I40(val));
      starts[b] := starts[b] + 1;
      assert buf[..] == bufWas[startsWas[b] := recs[i]] && starts[..] == startsWas[b := startsWas[b] + 1];
    }
  }

  lemma ScatterStart(recs: seq<Pair>, S: nat, starts: seq<nat>, buf: seq<Pair>)
    requires S >= 1 && |recs| <= |buf|
    requires Started(starts, recs, S)
    requires forall m: nat :: m < |recs| ==> BucketIndex(recs[m], S) < |starts|
    ensures Scattered(recs, S, 0, starts, buf)
  {
    StartTotal(recs, S, |starts|);
    forall j: nat | j < |starts| ensures BucketFilled(recs, S, 0, j, starts[j], buf) {
      StartMonotone(recs, S, j, |starts|);
      assert recs[..0] == [];
    }
  }

  /** After the scatter the shifted starts delimit the buckets. */
  lemma ScatterEnd(recs: seq<Pair>, S: nat, starts: seq<nat>, buf: seq<Pair>, j: nat)
    requires S >= 1 && Scattered(recs, S, |recs|, starts, buf) && j < |starts|
    ensures starts[j] == Start(recs, S, j + 1) <= |buf|
    ensures (if j == 0 then 0 else starts[j - 1]) <= starts[j]
    ensures buf[(if j == 0 then 0 else starts[j - 1])..starts[j]] == Bucket(recs, S, j)
  {
    assert recs[..|recs|] == recs;
    assert BucketFilled(recs, S, |recs|, j, starts[j], buf);
    StartUnfold(recs, S, j);
    if j > 0 {
      assert BucketFilled(recs, S, |recs|, j - 1, starts[j - 1], buf);
      StartUnfold(recs, S, j - 1);
    }
    hide Bucket, Start;
  }

  /** create_pairs: the records of a chunk, appended bucket by bucket to the pairs files. */
  method CreatePairs(ranks: seq<nat>, S: nat, c: nat, total: nat, pairs: seq<seq<Pair>>, buf: array<Pair>)
    returns (pairs': seq<seq<Pair>>)
    requires S >= 1 && |pairs| == total && |ranks| <= buf.Length && Global(S, c, |ranks|) <= I40_LIMIT
    requires forall i: nat :: i < |ranks| ==> ranks[i] / S < total && ranks[i] < I40_LIMIT
    modifies buf
    ensures |pairs'| == total
    ensures forall j: nat :: j < total ==> pairs'[j] == pairs[j] + Bucket(RecordsOf(ranks, S, c), S, j)
  {
    ghost var recs := RecordsOf(ranks, S, c);
    hide RecordsOf, Scattered, Bucket, Start, Counted, Started;
    RecordsBelow(ranks, S, c, total);
    var starts := CountBuckets(ranks, S, c, total);
    SumStarts(starts, S, recs);
    ScatterStart(recs, S, starts[..], buf[..]);
    Scatter(ranks, S, c, starts, buf, recs);
    ghost var ends, scattered := starts[..], buf[..];
    pairs' := [];
    for j := 0 to total
      modifies {}
      invariant |pairs'| == j
      invariant forall l: nat :: l < j ==> pairs'[l] == pairs[l] + Bucket(recs, S, l)
    {
      ScatterEnd(recs, S, ends, scattered, j);
      var from := if j == 0 then 0 else starts[j - 1];
      assert buf[from..starts[j]] == scattered[from..starts[j]];
      pairs' := pairs' + [pairs[j] + buf[from..starts[j]]];
    }
  }

  lemma RecordsBelow(ranks: seq<nat>, S: nat, c: nat, total: nat)
    requires S >= 1 && forall i: nat :: i < |ranks| ==> ranks[i] / S < total
    ensures forall m: nat :: m < |RecordsOf(ranks, S, c)| ==> BucketIndex(RecordsOf(ranks, S, c)[m], S) < total
    ensures |RecordsOf(ranks, S, c)| == |ranks|
  {
  }

  // ---- all chunks ----

  /** The records of the whole text. */
  ghost function GlobalRecords(rank: seq<nat>): (recs: seq<Pair>)
    ensures |recs| == |rank|
  {
    seq(|rank|, g requires 0 <= g < |rank| => Pair(g, rank[g]))
  }

  lemma {:induction false} BucketAppend(a: seq<Pair>, b: seq<Pair>, S: nat, j: nat)
    requires S >= 1
    ensures Bucket(a + b, S, j) == Bucket(a, S, j) + Bucket(b, S, j)
  {
    if b == [] {
      assert a + b == a;
    } else {
      assert (a + b)[..|a + b| - 1] == a + b[..|b| - 1];
      BucketAppend(a, b[..|b| - 1], S, j);
    }
  }

  lemma ChunkRecords(files: seq<seq<nat>>, S: nat, rank: seq<nat>, c: nat)
    requires Holds(files, S, rank) && c < |files|
    ensures var b, n := Global(S, c, 0), |files[c]|;
            b + n <= |rank| && GlobalRecords(rank)[..b] + RecordsOf(files[c], S, c) == GlobalRecords(rank)[..b + n]
    ensures c + 1 < |files| ==> Global(S, c + 1, 0) == Global(S, c, 0) + |files[c]|
    ensures c + 1 == |files| ==> Global(S, c, 0) + |files[c]| == |rank|
  {
    ChunkStretch(files, S, rank, c);
    var b, n := Global(S, c, 0), |files[c]|;
    forall i: nat | i < n ensures RecordsOf(files[c], S, c)[i] == GlobalRecords(rank)[b + i] {
      assert rank[Global(S, c, i)] == files[c][i];
    }
  }

  /** The main loop of create_pairs: pairs_<j> holds the records of bucket j of the whole text. */
  method CreateAllPairs(files: seq<seq<nat>>, S: nat, ghost rank: seq<nat>) returns (pairs: seq<seq<Pair>>)
    requires Holds(files, S, rank) && |rank| <= I40_LIMIT && IsPermutation(rank)
    ensures |pairs| == |files|
    ensures forall j: nat :: j < |pairs| ==> pairs[j] == Bucket(GlobalRecords(rank), S, j)
  {
    hide Bucket, Holds, Global, IsPermutation;
    HoldsShape(files, S, rank);
    var total := |files|;
    var buf := new Pair[S](_ => Pair(0, 0));
    ghost var recs := GlobalRecords(rank);
    pairs := seq(total, _ => []);
    NothingBucketed(S);
    ghost var done: nat := 0;
    FirstBase(S);
    for c := 0 to total
      invariant |pairs| == total && (c < total ==> done == Global(S, c, 0)) && (c == total ==> done == |rank|)
      invariant done <= |rank| && forall j: nat :: j < total ==> pairs[j] == Bucket(recs[..done], S, j)
    {
      ChunkRecords(files, S, rank, c);
      ChunkRanksBounded(files, S, rank, c);
      ghost var before := pairs;
      pairs := CreatePairs(files[c], S, c, total, pairs, buf);
      forall j: nat | j < total ensures pairs[j] == Bucket(recs[..done + |files[c]|], S, j) {
        BucketAppend(recs[..done], RecordsOf(files[c], S, c), S, j);
      }
      done := done + |files[c]|;
    }
    assert recs[..|rank|] == recs;
  }

  lemma FirstBase(S: nat)
    ensures Global(S, 0, 0) == 0
  {
  }

  lemma HoldsShape(files: seq<seq<nat>>, S: nat, rank: seq<nat>)
    requires Holds(files, S, rank)
    ensures 1 <= S && 1 <= |files|
  {
  }

  lemma NothingBucketed(S: nat)
    requires S >= 1
    ensures forall j: nat :: Bucket([], S, j) == []
  {
  }

  /** The ranks are a permutation of the positions. */
  ghost predicate IsPermutation(rank: seq<nat>) {
    && (forall i: nat :: i < |rank| ==> rank[i] < |rank|)
    && forall i: nat, j: nat :: i < j < |rank| ==> rank[i] != rank[j]
  }

  lemma ChunkRanksBounded(files: seq<seq<nat>>, S: nat, rank: seq<nat>, c: nat)
    requires Holds(files, S, rank) && IsPermutation(rank) && |rank| <= I40_LIMIT && c < |files|
    ensures forall i: nat :: i < |files[c]| ==> files[c][i] / S < |files| && files[c][i] < I40_LIMIT
    ensures Global(S, c, |files[c]|) <= I40_LIMIT && |files[c]| <= S
  {
    ChunkStretch(files, S, rank, c);
    forall i: nat | i < |files[c]| ensures files[c][i] / S < |files| && files[c][i] < I40_LIMIT {
      var v := files[c][i];
      assert rank[Global(S, c, i)] == v;
      PlaceOf(files, S, rank, v);
    }
  }

  /** A number below the text length has its quotient below the number of files. */
  lemma PlaceOf(files: seq<seq<nat>>, S: nat, rank: seq<nat>, v: nat)
    requires Holds(files, S, rank) && v < |rank|
    ensures v / S < |files| && v % S < |files[v / S]| && v == Global(S, v / S, v % S)
  {
    var c, p := ChunkOfPosition(S, v);
    hide Global;
    PositionInChunk(files, S, rank, c, p);
  }

  // ---- the inverse ----

  /** sa lists the positions by rank. */
  ghost predicate Inverse(rank: seq<nat>, sa: seq<nat>) {
    && |sa| == |rank|
    && (forall i: nat :: i < |rank| ==> rank[i] < |sa| && sa[rank[i]] == i)
    && forall v: nat :: v < |sa| ==> sa[v] < |rank| && rank[sa[v]] == v
  }

  ghost function Image(rank: seq<nat>, n: nat): set<nat>
    requires n <= |rank|
  {
    set i: nat | i < n :: rank[i]
  }

  lemma {:induction false} ImageSize(rank: seq<nat>, n: nat)
    requires n <= |rank| && forall i: nat, j: nat :: i < j < |rank| ==> rank[i] != rank[j]
    ensures |Image(rank, n)| == n
  {
    if n == 0 {
      assert Image(rank, 0) == {};
    } else {
      ImageSize(rank, n - 1);
      assert Image(rank, n) == Image(rank, n - 1) + {rank[n - 1]};
    }
  }

  /** Every rank is taken. */
  lemma RankTaken(rank: seq<nat>, v: nat) returns (i: nat)
    requires IsPermutation(rank) && v < |rank|
    ensures i < |rank| && rank[i] == v
  {
    ImageSize(rank, |rank|);
    SubsetSize(Image(rank, |rank|), Positions(|rank|));
    assert v in Image(rank, |rank|);
    i :| i < |rank| && rank[i] == v;
  }

  lemma InverseExists(rank: seq<nat>) returns (sa: seq<nat>)
    requires IsPermutation(rank)
    ensures Inverse(rank, sa)
  {
    sa := [];
    while |sa| < |rank|
      invariant |sa| <= |rank| && forall v: nat :: v < |sa| ==> sa[v] < |rank| && rank[sa[v]] == v
    {
      var i := RankTaken(rank, |sa|);
      sa := sa + [i];
    }
    forall i: nat | i < |rank| ensures rank[i] < |sa| && sa[rank[i]] == i {
      var j := sa[rank[i]];
      assert rank[j] == rank[i];
    }
  }

  // ---- invert ----

  /** The bucket of the first n positions: each of them whose rank is in it, once, in order. */
  ghost predicate BucketHolds(b: seq<Pair>, rank: seq<nat>, S: nat, k: nat, n: nat)
    requires S >= 1
  {
    && n <= |rank|
    && (forall m: nat :: m < |b| ==>
          b[m].index < n && b[m].value == rank[b[m].index] && InBucket(rank, S, k, b[m].index))
    && (forall m: nat, l: nat :: m < l < |b| ==> b[m].index < b[l].index)
    && forall g: nat :: g < n && InBucket(rank, S, k, g) ==> Listed(b, g)
  }

  ghost predicate InBucket(rank: seq<nat>, S: nat, k: nat, g: nat)
    requires S >= 1 && g < |rank|
  {
    rank[g] / S == k
  }

  ghost predicate Listed(b: seq<Pair>, g: nat) {
    exists m: nat :: m < |b| && b[m].index == g
  }

  lemma {:induction false} BucketIsRight(rank: seq<nat>, S: nat, k: nat, n: nat)
    requires S >= 1 && n <= |rank|
    ensures BucketHolds(Bucket(GlobalRecords(rank)[..n], S, k), rank, S, k, n)
  {
    var recs := GlobalRecords(rank);
    if n == 0 {
      assert recs[..0] == [];
    } else {
      BucketIsRight(rank, S, k, n - 1);
      BucketStep(recs, S, k, n - 1);
      hide BucketHolds, Bucket;
      var before := Bucket(recs[..n - 1], S, k);
      BucketHoldsNext(before, rank, S, k, n - 1);
      assert before + [] == before;
    }
  }

  lemma BucketHoldsNext(b: seq<Pair>, rank: seq<nat>, S: nat, k: nat, n: nat)
    requires S >= 1 && n < |rank| && BucketHolds(b, rank, S, k, n)
    ensures !InBucket(rank, S, k, n) ==> BucketHolds(b, rank, S, k, n + 1)
    ensures InBucket(rank, S, k, n) ==> BucketHolds(b + [Pair(n, rank[n])], rank, S, k, n + 1)
  {
    hide InBucket, Listed;
    if InBucket(rank, S, k, n) {
      var r := Pair(n, rank[n]);
      var b' := b + [r];
      forall m: nat | m < |b'|
        ensures b'[m].index < n + 1 && b'[m].value == rank[b'[m].index] && InBucket(rank, S, k, b'[m].index)
        ensures b'[m] == if m < |b| then b[m] else r
      {
      }
      forall g: nat | g < n + 1 && InBucket(rank, S, k, g) ensures Listed(b', g) {
        ListedAppend(b, r, g);
      }
    }
  }

  lemma ListedAppend(b: seq<Pair>, r: Pair, g: nat)
    ensures Listed(b + [r], g) <==> Listed(b, g) || r.index == g
  {
    if Listed(b, g) {
      var m: nat :| m < |b| && b[m].index == g;
      assert (b + [r])[m].index == g;
    }
    assert (b + [r])[|b|] == r;
  }

  /** How many ranks fall into bucket k. */
  ghost function BucketSize(S: nat, k: nat, N: nat): nat {
    var b := Global(S, k, 0);
    if N <= b then 0 else if N - b < S then N - b else S
  }

  ghost predicate SlotsDiffer(b: seq<Pair>, S: nat)
    requires S >= 1
  {
    forall m: nat, l: nat :: m < l < |b| ==> b[m].value % S != b[l].value % S
  }

  /** A record of bucket k goes to the slot by which its rank exceeds the bucket's base. */
  lemma SlotOfRecord(b: seq<Pair>, rank: seq<nat>, S: nat, k: nat, m: nat)
    requires S >= 1 && BucketHolds(b, rank, S, k, |rank|) && IsPermutation(rank) && m < |b|
    ensures b[m].value % S < BucketSize(S, k, |rank|) && b[m].value == Global(S, k, b[m].value % S)
    ensures b[m].index < |rank| && rank[b[m].index] == b[m].value
  {
  }

  /** In a bucket of a permutation no two records share a slot. */
  lemma BucketSlotsDiffer(b: seq<Pair>, rank: seq<nat>, S: nat, k: nat)
    requires S >= 1 && BucketHolds(b, rank, S, k, |rank|) && IsPermutation(rank)
    ensures SlotsDiffer(b, S)
  {
    forall m: nat, l: nat | m < l < |b| ensures b[m].value % S != b[l].value % S {
      SlotOfRecord(b, rank, S, k, m);
      SlotOfRecord(b, rank, S, k, l);
    }
  }

  /** The record of the position at suffix array place Global(S, k, p) is in bucket k, with slot p. */
  lemma SlotTaken(b: seq<Pair>, rank: seq<nat>, sa: seq<nat>, S: nat, k: nat, p: nat) returns (m: nat)
    requires S >= 1 && BucketHolds(b, rank, S, k, |rank|) && Inverse(rank, sa) && p < BucketSize(S, k, |rank|)
    ensures m < |b| && b[m].value % S == p && Global(S, k, p) < |sa| && b[m].index == sa[Global(S, k, p)]
  {
    var v := Global(S, k, p);
    DivModUnique(v, S, k, p);
    var g := sa[v];
    assert InBucket(rank, S, k, g) && Listed(b, g);
    m :| m < |b| && b[m].index == g;
  }

  /** Every bucket of a permutation is exactly full. */
  lemma BucketFull(b: seq<Pair>, rank: seq<nat>, sa: seq<nat>, S: nat, k: nat)
    requires S >= 1 && BucketHolds(b, rank, S, k, |rank|) && IsPermutation(rank) && Inverse(rank, sa)
    ensures |b| == BucketSize(S, k, |rank|)
  {
    var slots := seq(|b|, m requires 0 <= m < |b| => b[m].value % S);
    BucketSlotsDiffer(b, rank, S, k);
    ImageSize(slots, |b|);
    assert Image(slots, |b|) == Positions(BucketSize(S, k, |rank|)) by {
      forall m: nat | m < |b| ensures slots[m] < BucketSize(S, k, |rank|) {
        SlotOfRecord(b, rank, S, k, m);
      }
      forall p: nat | p < BucketSize(S, k, |rank|) ensures p in Image(slots, |b|) {
        var m := SlotTaken(b, rank, sa, S, k, p);
        assert slots[m] == p;
      }
    }
  }

  /** invert: scatter the records of one bucket by rank modulo the chunk size; suffixarray may hold
      anything before the call. */
  method Invert(pairs: seq<Pair>, S: nat, suffixarray: array<nat>, ghost rank: seq<nat>, ghost sa: seq<nat>,
                ghost k: nat)
    returns (out: seq<nat>)
    requires 1 <= S == suffixarray.Length
    requires IsPermutation(rank) && Inverse(rank, sa) && BucketHolds(pairs, rank, S, k, |rank|)
    modifies suffixarray
    ensures |out| == BucketSize(S, k, |rank|)
    ensures forall p: nat :: p < |out| ==> Global(S, k, p) < |sa| && out[p] == sa[Global(S, k, p)]
  {
    hide BucketHolds, IsPermutation, Inverse, Global, BucketSize;
    BucketFull(pairs, rank, sa, S, k);
    BucketSlotsDiffer(pairs, rank, S, k);
    BucketSizeBound(S, k, |rank|);
    var total := if |pairs| < S then |pairs| else S;
    for i := 0 to total
      invariant forall m: nat :: m < i ==> suffixarray[pairs[m].value % S] == pairs[m].index
    {
      suffixarray[pairs[i].value % S] := pairs[i].index;
    }
    out := suffixarray[..total];
    forall p: nat | p < |out| ensures Global(S, k, p) < |sa| && out[p] == sa[Global(S, k, p)] {
      var m := SlotTaken(pairs, rank, sa, S, k, p);
    }
  }

  lemma BucketSizeBound(S: nat, k: nat, N: nat)
    ensures BucketSize(S, k, N) <= S
  {
  }

  /** The main loop of invert. */
  method InvertAll(pairs: seq<seq<Pair>>, S: nat, ghost rank: seq<nat>, ghost sa: seq<nat>)
      returns (files: seq<seq<nat>>)
    requires S >= 1 && IsPermutation(rank) && Inverse(rank, sa) && ChunkCount(|pairs|, S, |rank|)
    requires forall k: nat :: k < |pairs| ==> BucketHolds(pairs[k], rank, S, k, |rank|)
    ensures |files| == |pairs| && Holds(files, S, sa)
  {
    files := [];
    var suffixarray := new nat[S](_ => 0);
    ghost var N := |rank|;
    for k := 0 to |pairs|
      invariant |files| == k
      invariant forall c: nat :: c < k ==> |files[c]| == BucketSize(S, c, N)
      invariant forall c: nat, p: nat :: c < k && p < |files[c]| ==>
                  Global(S, c, p) < |sa| && sa[Global(S, c, p)] == files[c][p]
    {
      var out := Invert(pairs[k], S, suffixarray, rank, sa, k);
      files := files + [out];
    }
    BucketShape(files, S, N);
  }

  /** N entries take this many chunks of S. */
  ghost predicate ChunkCount(total: nat, S: nat, N: nat) {
    1 <= total && Global(S, total - 1, 0) < N <= Global(S, total, 0)
  }

  lemma ShapeCount<T>(files: seq<seq<T>>, S: nat, N: nat)
    requires Shape(files, S, N)
    ensures ChunkCount(|files|, S, N)
  {
    NextBase(S, |files| - 1);
  }

  /** The text length and the chunk size determine the number of chunks. */
  lemma ChunkCountUnique(total: nat, other: nat, S: nat, N: nat)
    requires ChunkCount(total, S, N) && ChunkCount(other, S, N)
    ensures total == other
  {
    hide Global;
    if total < other {
      BaseMonotone(S, total, other - 1);
    } else if other < total {
      BaseMonotone(S, other, total - 1);
    }
  }

  lemma BucketShape(files: seq<seq<nat>>, S: nat, N: nat)
    requires S >= 1 && ChunkCount(|files|, S, N)
    requires forall c: nat :: c < |files| ==> |files[c]| == BucketSize(S, c, N)
    ensures Shape(files, S, N)
  {
    NextBase(S, |files| - 1);
    forall c: nat | c + 1 < |files| ensures |files[c]| == S {
      NextBase(S, c);
      BaseMonotone(S, c + 1, |files| - 1);
    }
  }

  // ---- the suffix array ----

  /** Final ranks are a permutation of the positions. */
  lemma SuffixRanksPermute(t: seq<int>, rank: seq<nat>)
    requires IsText(t) && SuffixRanks(t, rank)
    ensures IsPermutation(rank)
  {
    forall i: nat | i < |rank| ensures rank[i] < |rank| {
      SuffixRanksOrder(t, rank, i, i);
    }
    forall i: nat, j: nat | i < j < |rank| ensures rank[i] != rank[j] {
      SuffixRanksOrder(t, rank, i, j);
    }
  }

  /** The inverse of the final ranks is the suffix array of the text. */
  lemma InverseIsSuffixArray(t: seq<int>, rank: seq<nat>, sa: seq<nat>)
    requires IsText(t) && SuffixRanks(t, rank) && Inverse(rank, sa)
    ensures PartialSuffixArray(t, 0, |t|, sa)
  {
    forall v: nat, w: nat | v < w < |sa| ensures SuffixLess(t, 0 + sa[v], 0 + sa[w]) {
      SuffixRanksOrder(t, rank, sa[v], sa[w]);
    }
    forall p: nat | p < |t| ensures p in sa {
      assert sa[rank[p]] == p;
    }
  }

  /** The suffixes below the one at place v of the suffix array are those before it. */
  lemma SuffixesBeforePlace(t: seq<int>, sa: seq<nat>, v: nat)
    requires PartialSuffixArray(t, 0, |t|, sa) && v < |sa|
    ensures |SuffixesBelow(t, sa[v])| == v
  {
    forall u: nat, w: nat | u < w < |sa|
      ensures SuffixLess(t, sa[u], sa[w]) && !SuffixLess(t, sa[w], sa[u]) && sa[u] != sa[w]
    {
      assert SuffixLess(t, 0 + sa[u], 0 + sa[w]);
      LessTotal(t, |t|, sa[u], sa[w]);
    }
    LessTotal(t, |t|, sa[v], sa[v]);
    ImageSize(sa, v);
    forall p: nat | p < |t| ensures p in Image(sa, v) <==> SuffixLess(t, p, sa[v]) {
      assert p in sa;
      var u: nat :| u < |sa| && sa[u] == p;
    }
    assert Image(sa, v) == SuffixesBelow(t, sa[v]);
  }

  /** Conversely, only the true ranks have the suffix array as their inverse. */
  lemma InverseOfSuffixArray(t: seq<int>, rank: seq<nat>, sa: seq<nat>)
    requires PartialSuffixArray(t, 0, |t|, sa) && Inverse(rank, sa)
    ensures SuffixRanks(t, rank)
  {
    forall i: nat | i < |t| ensures rank[i] == |SuffixesBelow(t, i)| {
      SuffixesBeforePlace(t, sa, rank[i]);
    }
  }

  /** And only the true suffix array is the inverse of the true ranks. */
  lemma SuffixArrayInverts(t: seq<int>, rank: seq<nat>, sa: seq<nat>)
    requires PartialSuffixArray(t, 0, |t|, sa) && SuffixRanks(t, rank)
    ensures Inverse(rank, sa)
  {
    forall v: nat | v < |sa| ensures rank[sa[v]] == v {
      SuffixesBeforePlace(t, sa, v);
    }
    forall i: nat | i < |rank| ensures rank[i] < |sa| && sa[rank[i]] == i {
      assert i in sa;
      var v: nat :| v < |sa| && sa[v] == i;
    }
  }

  /** create_pairs, then invert: from files with the final ranks to files with the suffix array. */
  method InvertRanks(ranks: seq<seq<nat>>, S: nat, ghost t: seq<int>, ghost rank: seq<nat>)
    returns (sas: seq<seq<nat>>)
    requires IsText(t) && SuffixRanks(t, rank) && Holds(ranks, S, rank) && |rank| <= I40_LIMIT
    ensures Holds(sas, S, Flat(sas)) && |sas| == |ranks|
    ensures Inverse(rank, Flat(sas)) && PartialSuffixArray(t, 0, |t|, Flat(sas))
  {
    hide SuffixRanks, IsText, IsPermutation, Inverse, PartialSuffixArray, BucketHolds, Bucket;
    SuffixRanksPermute(t, rank);
    ghost var sa := InverseExists(rank);
    InverseIsSuffixArray(t, rank, sa);
    ShapeCount(ranks, S, |rank|);
    var pairs := CreateAllPairs(ranks, S, rank);
    forall k: nat | k < |pairs| ensures BucketHolds(pairs[k], rank, S, k, |rank|) {
      BucketIsRight(rank, S, k, |rank|);
      assert GlobalRecords(rank)[..|rank|] == GlobalRecords(rank);
    }
    sas := InvertAll(pairs, S, rank, sa);
    HoldsIsFlat(sas, S, sa);
  }
}
