/** The stages in a row (src/suffixrank.sh:117-258): init, the doubling loop, create_pairs, invert, and verify. */
module Pipeline {
  import opened SuffixOrder
  import opened Chunks
  import opened ChunkStatus
  import opened RunLength
  import opened PartialSort
  import opened Doubling
  import opened Refine
  import opened Update
  import opened RoundState
  import opened Driver
  import opened KmerSeed
  import Inversion
  import Checker
  import CheckerSoundness

  /** What init leaves of a chunk is a state of the doubling loop. */
  lemma SeededChunkState(t: seq<int>, S: nat, L: nat, c: nat, ranks: seq<seq<nat>>, rank: seq<nat>, sa: seq<nat>,
                         currents: seq<RankRun>)
    returns (cu: seq<Run>)
    requires 1 <= S <= INT_MAX && |t| <= I40_LIMIT && Holds(ranks, S, rank) && RanksAt(t, L, rank) && c < |ranks|
    requires ChunkSeeded(t, S, c, |ranks[c]|, ranks[c], sa, currents)
    ensures ChunkState(t, S, L, c, ranks[c], sa, cu, currents, 0, |ranks[c]| - 1)
  {
    ChunkStretch(ranks, S, rank, c);
    RanksBounded(t, L, rank);
    var n := |ranks[c]|;
    assert Bounded(ranks[c]) by {
      forall i: nat | i < n ensures ranks[c][i] < I40_LIMIT {
        assert rank[Global(S, c, i)] == ranks[c][i];
      }
    }
    var values := Gather(ranks[c], sa);
    cu := RunsOf(values);
    GatherBounds(ranks[c], sa);
    RunsOfExpands(values);
    RunsOfMaximal(values);
  }

  /** What init leaves is a state of the doubling loop. */
  lemma SeededLoopState(t: seq<int>, S: nat, k: nat, Xs: seq<seq<int>>, rank: seq<nat>, ranks: seq<seq<nat>>,
                        sas: seq<seq<nat>>, currents: seq<seq<RankRun>>, lo: seq<int>, hi: seq<int>)
    returns (cus: seq<seq<Run>>)
    requires IsText(t) && |t| <= I40_LIMIT && 1 <= S <= INT_MAX
    requires RanksAt(t, k, rank) && Holds(ranks, S, rank) && Holds(Xs, S, t) && |Xs| == |ranks| && Shape(ranks, S, |t|)
    requires |sas| == |currents| == |lo| == |hi| == |Xs|
    requires forall c: nat :: c < |Xs| ==> ChunkSeeded(t, S, c, |Xs[c]|, ranks[c], sas[c], currents[c])
    requires forall c: nat :: c < |Xs| ==> lo[c] == 0 && hi[c] == |Xs[c]| - 1
    ensures LoopState(t, S, k, rank, ranks, sas, cus, currents, lo, hi)
  {
    hide ChunkState, Holds, RanksAt, IsText, ChunkSeeded, Shape;
    cus := [];
    while |cus| < |ranks|
      invariant |cus| <= |ranks|
      invariant forall c: nat :: c < |cus| ==>
                  ChunkState(t, S, k, c, ranks[c], sas[c], cus[c], currents[c], lo[c], hi[c])
    {
      var c := |cus|;
      SameShape(Xs, ranks, S, t, c);
      var cu := SeededChunkState(t, S, k, c, ranks, rank, sas[c], currents[c]);
      cus := cus + [cu];
    }
  }

  lemma SameChunkCount(Xs: seq<seq<int>>, ranks: seq<seq<nat>>, S: nat, t: seq<int>, rank: seq<nat>)
    requires Holds(Xs, S, t) && Holds(ranks, S, rank) && |rank| == |t|
    ensures |ranks| == |Xs|
  {
    Inversion.ShapeCount(Xs, S, |t|);
    Inversion.ShapeCount(ranks, S, |t|);
    Inversion.ChunkCountUnique(|Xs|, |ranks|, S, |t|);
  }

  /** What becomes of a run.  After an overrun nothing is promised: refine has written behind its buffer. */
  datatype Outcome = Built(ranks: seq<seq<nat>>, sas: seq<seq<nat>>) | Refused | Overrun

  /** A byte that init refuses. */
  ghost predicate HasBadByte(input: seq<int>) {
    exists i: nat :: i < |input| && input[i] > 253
  }

  /** After init with chunks of 1 or 2 positions chunk 0 takes part in the first round. */
  lemma FirstChunkActive(input: seq<int>, S: nat, k: nat, ranks: seq<seq<nat>>, rank: seq<nat>, sa: seq<nat>,
                         currents: seq<RankRun>)
    requires 1 <= |input| && 1 <= S < 3 && k == 1 && Holds(ranks, S, rank) && |rank| == |input| + 1
    requires ChunkSeeded(TextOf(input), S, 0, |ranks[0]|, ranks[0], sa, currents)
    ensures Active(k, S, 0, |ranks|, sa)
  {
    ChunkStretch(ranks, S, rank, 0);
    assert S == 1 ==> |ranks| > 1;
  }

  /** The suffixarray files, read in order, are the suffix array of the input with its sentinel, and the
      ranks files hold its inverse. */
  ghost predicate BuiltRight(input: seq<int>, S: nat, ranks: seq<seq<nat>>, sas: seq<seq<nat>>) {
    && Holds(sas, S, Flat(sas)) && |ranks| == |sas|
    && PartialSuffixArray(TextOf(input), 0, |input| + 1, Flat(sas))
    && Holds(ranks, S, Flat(ranks)) && SuffixRanks(TextOf(input), Flat(ranks))
  }

  /** The loop starts at the seeded prefix length and doubles it as long as that is inside the files. */
  ghost predicate RoundsNeeded(k: nat, S: nat, chunks: nat, rounds: nat) {
    rounds >= 1 && (rounds >= 2 ==> PrefixLength(k, rounds - 2) < Capacity(chunks, S))
  }

  /** For every non-empty input of bytes up to 253, every chunk size of at least 3 and every merge capacity
      the files are right, after a logarithmic number of rounds from the prefix length k of init on.  Any
      other byte is refused.  With chunks of 1 or 2 positions refine overruns its output buffer on every
      input that is not refused. */
  method BuildSuffixArray(input: seq<int>, S: nat, curCapacity: nat)
    returns (outcome: Outcome, k: nat, ghost rounds: nat)
    requires IsBytes(input) && 1 <= |input| < 0x100_0000_0000 && 1 <= S <= 0x7fff_ffff && 1 <= curCapacity
    ensures outcome.Refused? <==> HasBadByte(input)
    ensures outcome.Overrun? <==> !HasBadByte(input) && S < 3
    ensures outcome.Built? ==> BuiltRight(input, S, outcome.ranks, outcome.sas)
    ensures !outcome.Refused? ==> SeedLength(input, S, k)
    ensures outcome.Built? ==> RoundsNeeded(k, S, |outcome.ranks|, rounds)
  {
    hide Holds, RanksAt, SuffixRanks, LoopState, ChunkSeeded, IsText, PartialSuffixArray, Active, SeedLength,
      PrefixLength, Capacity;
    ghost var t := TextOf(input);
    outcome, rounds := Refused, 0;
    var st, Xs, ranks;
    ghost var seeded;
    st, Xs, ranks, k, seeded := RunPasses1And2(input, S);
    if st == FAILURE {
      return;
    }
    SeedsFit(input, Xs, ranks, S, k, seeded);
    var partial, currents, lo, hi := RunPass3(Xs, ranks, S, t);
    ghost var cus := SeededLoopState(t, S, k, Xs, seeded, ranks, partial, currents, lo, hi);
    if S < 3 {
      FirstChunkActive(input, S, k, ranks, seeded, partial[0], currents[0]);
    }
    var room;
    ghost var rank;
    room, ranks, rank, rounds := DoublingLoop(ranks, partial, currents, lo, hi, k, S, curCapacity, t, seeded, cus);
    if !room {
      outcome := Overrun;
      return;
    }
    RankCount(t, rank);
    HoldsIsFlat(ranks, S, rank);
    var sas := Inversion.InvertRanks(ranks, S, t, rank);
    outcome := Built(ranks, sas);
  }

  lemma SeedsFit(input: seq<int>, Xs: seq<seq<int>>, ranks: seq<seq<nat>>, S: nat, k: nat, rank: seq<nat>)
    requires IsBytes(input) && forall i: nat :: i < |input| ==> input[i] <= 253
    requires Holds(Xs, S, TextOf(input)) && Holds(ranks, S, rank) && RanksAt(TextOf(input), k, rank)
    ensures 1 <= |ranks| == |Xs| && Shape(ranks, S, |TextOf(input)|) && |rank| == |input| + 1 && |ranks[0]| == |Xs[0]|
    ensures forall i: nat :: i < |TextOf(input)| ==> TextOf(input)[i] <= 254
  {
    SameChunkCount(Xs, ranks, S, TextOf(input), rank);
    SameShape(Xs, ranks, S, TextOf(input), 0);
  }

  lemma RankCount(t: seq<int>, rank: seq<nat>)
    requires SuffixRanks(t, rank)
    ensures |rank| == |t|
  {
  }

  /** suffixrank.sh with --verify: what the pipeline builds, its checker accepts, and nothing else is
      reported as a success. */
  method BuildAndVerify(input: seq<int>, S: nat, curCapacity: nat)
    returns (outcome: Outcome, k: nat, verdict: Status)
    requires IsBytes(input) && 1 <= |input| < 0x100_0000_0000 && 1 <= S <= 0x7fff_ffff && 1 <= curCapacity
    ensures outcome.Refused? <==> HasBadByte(input)
    ensures outcome.Overrun? <==> !HasBadByte(input) && S < 3
    ensures outcome.Built? ==> BuiltRight(input, S, outcome.ranks, outcome.sas)
    ensures !outcome.Refused? ==> SeedLength(input, S, k)
    ensures verdict == if outcome.Built? then SUCCESS else FAILURE
  {
    hide Holds, SuffixRanks, IsText, PartialSuffixArray, Checker.Accepted, SeedLength, RoundsNeeded;
    ghost var rounds;
    outcome, k, rounds := BuildSuffixArray(input, S, curCapacity);
    verdict := FAILURE;
    if outcome.Built? {
      BuiltIsAccepted(input, outcome.ranks, outcome.sas, S);
      verdict := Checker.Verify(TextOf(input), outcome.ranks, outcome.sas, S);
    }
  }

  lemma BuiltIsAccepted(input: seq<int>, ranks: seq<seq<nat>>, sas: seq<seq<nat>>, S: nat)
    requires IsBytes(input) && 1 <= S <= INT_MAX && |ranks| == |sas|
    requires Holds(sas, S, Flat(sas)) && PartialSuffixArray(TextOf(input), 0, |input| + 1, Flat(sas))
    requires Holds(ranks, S, Flat(ranks)) && SuffixRanks(TextOf(input), Flat(ranks))
    ensures 1 <= |ranks| && Checker.Accepted(TextOf(input), ranks, sas, S)
  {
    CheckerSoundness.AcceptedIff(TextOf(input), ranks, Flat(ranks), sas, Flat(sas), S);
  }
}
