/** The (rank, count) records of src/algorithm.h: run-length form, the count escape, and the buffered
    writer that init, refine and update all use. */
module RunLength {
  import opened Arithmetic

  const COUNT_ESCAPE: nat := 255

  const I40_LIMIT: nat := 0x100_0000_0000

  /** i40_store keeps the low 40 bits. */
  function I40(v: nat): nat {
    v % I40_LIMIT
  }

  /** A record as it is stored: a 40-bit rank and a count byte. */
  datatype RankRun = RankRun(rank: nat, count: nat)

  /** A run as it is meant: count entries of the given rank. */
  datatype Run = Run(rank: nat, count: nat)

  ghost predicate Fits(run: Run) {
    run.rank < I40_LIMIT && run.count < I40_LIMIT
  }

  ghost predicate AllFit(runs: seq<Run>) {
    forall k: nat :: k < |runs| ==> Fits(runs[k])
  }

  // ---- the codec ----

  function Encode(run: Run): (recs: seq<RankRun>) {
    if run.count < COUNT_ESCAPE then [RankRun(I40(run.rank), run.count)]
    else [RankRun(I40(run.rank), COUNT_ESCAPE), RankRun(I40(run.count), 0)]
  }

  function EncodeAll(runs: seq<Run>): seq<RankRun> {
    if runs == [] then [] else Encode(runs[0]) + EncodeAll(runs[1..])
  }

  datatype Decoded = Drained | Truncated | Got(run: Run, rest: seq<RankRun>)

  /** decode_rankrun on the records still ahead. */
  function DecodeOne(recs: seq<RankRun>): Decoded {
    if recs == [] then Drained
    else if recs[0].count != COUNT_ESCAPE then Got(Run(recs[0].rank, recs[0].count), recs[1..])
    else if |recs| == 1 then Truncated
    else Got(Run(recs[0].rank, recs[1].rank), recs[2..])
  }

  /** Decoding undoes encoding for every run that fits 40 bits, wherever the stream goes on. */
  lemma DecodeEncode(run: Run, rest: seq<RankRun>)
    requires Fits(run)
    ensures DecodeOne(Encode(run) + rest) == Got(run, rest)
  {
    var recs := Encode(run) + rest;
    assert recs[|Encode(run)|..] == rest;
  }

  /** A run is restored exactly when its rank and its count fit five bytes. */
  lemma DecodeEncodeExactly(run: Run, rest: seq<RankRun>)
    ensures DecodeOne(Encode(run) + rest) == Got(run, rest) <==>
              run.rank < 0x100_0000_0000 && run.count < 0x100_0000_0000
  {
    if Fits(run) {
      DecodeEncode(run, rest);
    } else {
      var recs := Encode(run) + rest;
      assert recs[0] == Encode(run)[0];
      assert run.count >= COUNT_ESCAPE ==> recs[1] == Encode(run)[1];
    }
  }

  // ---- what lies in the files ----

  /** A store keeps the low five bytes, and so the value itself exactly below 2^40. */
  lemma StoreKeepsLowBytes(v: nat)
    ensures I40(v) < 0x100_0000_0000 && (v - I40(v)) % 0x100_0000_0000 == 0
    ensures I40(v) == v <==> v < 0x100_0000_0000
  {
    DropMultiple(v, 0x100_0000_0000);
  }

  lemma DropMultiple(v: nat, p: nat)
    requires 1 <= p
    ensures (v - v % p) % p == 0
  {
    DivModUnique(v - v % p, p, v / p, 0);
  }

  /** A run takes one record up to a count of 254 and two from 255 on; the second holds the count where
      the first holds the rank, and a zero count. */
  lemma RecordsOfRun(run: Run)
    ensures |Encode(run)| == (if run.count <= 254 then 1 else 2)
    ensures Encode(run)[0] == RankRun(I40(run.rank), if run.count <= 254 then run.count else 255)
    ensures run.count >= 255 ==> Encode(run)[1] == RankRun(I40(run.count), 0)
  {
  }

  /** Every record fits its six bytes: five for the rank, one for the count. */
  lemma {:induction false} RecordsFitBytes(runs: seq<Run>, k: nat)
    requires k < |EncodeAll(runs)|
    ensures EncodeAll(runs)[k].rank < 0x100_0000_0000 && EncodeAll(runs)[k].count <= 0xff
  {
    RecordsOfRun(runs[0]);
    if k >= |Encode(runs[0])| {
      RecordsFitBytes(runs[1..], k - |Encode(runs[0])|);
    }
  }

  // ---- what a file of records spells, well formed or not ----

  /** The runs that a file of records spells, up to a first record that is cut off. */
  ghost function Spelled(recs: seq<RankRun>): seq<Run> {
    if recs == [] then []
    else if recs[0].count != 0xff then [Run(recs[0].rank, recs[0].count)] + Spelled(recs[1..])
    else if |recs| == 1 then []
    else [Run(recs[0].rank, recs[1].rank)] + Spelled(recs[2..])
  }

  /** The file ends in the first record of a pair. */
  ghost predicate CutOff(recs: seq<RankRun>) {
    recs != [] &&
    if recs[0].count != 0xff then CutOff(recs[1..]) else |recs| == 1 || CutOff(recs[2..])
  }

  /** decode_rankrun reads what the file spells, one run after the other, and tells its end from a cut. */
  lemma DecodeReads(recs: seq<RankRun>)
    ensures DecodeOne(recs) == Drained <==> Spelled(recs) == [] && !CutOff(recs)
    ensures DecodeOne(recs) == Truncated <==> Spelled(recs) == [] && CutOff(recs)
    ensures DecodeOne(recs).Got? ==>
              var rest := DecodeOne(recs).rest;
              Spelled(recs) == [DecodeOne(recs).run] + Spelled(rest) && (CutOff(recs) <==> CutOff(rest))
  {
  }

  lemma EncodedFront(runs: seq<Run>, tail: seq<RankRun>)
    requires runs != []
    ensures EncodeAll(runs) + tail == Encode(runs[0]) + (EncodeAll(runs[1..]) + tail)
  {
  }

  /** An encoded list spells itself and is not cut; one more first record of a pair cuts it. */
  lemma {:induction false} EncodedSpells(runs: seq<Run>, tail: seq<RankRun>)
    requires AllFit(runs) && (tail == [] || (|tail| == 1 && tail[0].count == 0xff))
    ensures Spelled(EncodeAll(runs) + tail) == runs && (CutOff(EncodeAll(runs) + tail) <==> tail != [])
  {
    if runs == [] {
      assert EncodeAll(runs) + tail == tail;
    } else {
      var recs, rest := EncodeAll(runs) + tail, EncodeAll(runs[1..]) + tail;
      EncodedFront(runs, tail);
      hide EncodeAll, Encode;
      DecodeEncode(runs[0], rest);
      DecodeReads(recs);
      hide Spelled, CutOff, DecodeOne;
      EncodedSpells(runs[1..], tail);
    }
  }

  lemma {:induction false} EncodeAllAppend(runs: seq<Run>, run: Run)
    ensures EncodeAll(runs + [run]) == EncodeAll(runs) + Encode(run)
  {
    if runs == [] {
      assert EncodeAll([run]) == Encode(run) + EncodeAll([]);
    } else {
      assert (runs + [run])[1..] == runs[1..] + [run];
      EncodeAllAppend(runs[1..], run);
    }
  }

  // ---- run-length form ----

  function Repeat(v: nat, n: nat): (s: seq<nat>)
    ensures |s| == n && forall k :: 0 <= k < n ==> s[k] == v
  {
    seq(n, _ => v)
  }

  function Expand(runs: seq<Run>): seq<nat> {
    if runs == [] then [] else Repeat(runs[0].rank, runs[0].count) + Expand(runs[1..])
  }

  ghost predicate Positive(runs: seq<Run>) {
    forall k: nat :: k < |runs| ==> runs[k].count >= 1
  }

  /** Neighbouring runs have different ranks, so no shorter list of runs expands to the same. */
  ghost predicate MaximalRuns(runs: seq<Run>) {
    Positive(runs) && forall k: nat, m: nat :: k < |runs| && m == k + 1 && m < |runs| ==> runs[k].rank != runs[m].rank
  }

  ghost predicate RisingRanks(runs: seq<Run>) {
    forall i: nat, j: nat :: i < j < |runs| ==> runs[i].rank < runs[j].rank
  }

  lemma {:induction false} ExpandAppend(runs: seq<Run>, run: Run)
    ensures Expand(runs + [run]) == Expand(runs) + Repeat(run.rank, run.count)
  {
    if runs == [] {
      assert Expand([run]) == Repeat(run.rank, run.count) + Expand([]);
    } else {
      assert (runs + [run])[1..] == runs[1..] + [run];
      ExpandAppend(runs[1..], run);
    }
  }

  // ---- rankrun_emit ----

  /** rankrun_emit: append one or two records.  The caller must have left room for them. */
  method RankrunEmit(buf: array<RankRun>, pos: nat, rank: nat, count: nat) returns (pos': nat)
    requires pos + |Encode(Run(rank, count))| <= buf.Length
    modifies buf
    ensures pos' == pos + |Encode(Run(rank, count))|
    ensures buf[..pos'] == old(buf[..pos]) + Encode(Run(rank, count))
    ensures forall k :: pos' <= k < buf.Length ==> buf[k] == old(buf[k])
  {
    if count < COUNT_ESCAPE {
      buf[pos] := RankRun(I40(rank), count);
      pos' := pos + 1;
    } else {
      buf[pos] := RankRun(I40(rank), COUNT_ESCAPE);
      buf[pos + 1] := RankRun(I40(count), 0);
      pos' := pos + 2;
    }
  }

  /** An empty buffer can take the records of a run. */
  predicate Room(capacity: nat, count: nat) {
    capacity >= 2 || (capacity == 1 && count < COUNT_ESCAPE)
  }

  /** A buffer of records in front of a file: what refine's emit_run and the writers of the currents
      stream in init and update work with. */
  class RunWriter {
    const buf: array<RankRun>
    var out: nat
    var file: seq<RankRun>
    ghost var runs: seq<Run>   // every run emitted so far

    ghost predicate Valid()
      reads this, buf
    {
      out <= buf.Length && file + buf[..out] == EncodeAll(runs)
    }

    constructor (capacity: nat)
      ensures Valid() && fresh(this) && fresh(buf)
      ensures runs == [] && buf.Length == capacity
    {
      buf := new RankRun[capacity](_ => RankRun(0, 0));
      out, file, runs := 0, [], [];
    }

    /** Flush when an escape pair might not fit, then append. */
    method Emit(rank: nat, count: nat)
      requires Valid() && Room(buf.Length, count)
      modifies this, buf
      ensures Valid() && runs == old(runs) + [Run(rank, count)]
    {
      EncodeAllAppend(runs, Run(rank, count));
      if out + 2 > buf.Length {
        file := file + buf[..out];
        out := 0;
      }
      out := RankrunEmit(buf, out, rank, count);
      runs := runs + [Run(rank, count)];
    }

    method Close()
      requires Valid()
      modifies this
      ensures Valid() && runs == old(runs)
      ensures file == EncodeAll(runs)
    {
      if out > 0 {
        file := file + buf[..out];
      }
      out := 0;
    }
  }

  // ---- the scan ----

  /** One more value: the last run grows, or a new one starts. */
  function AddToRuns(runs: seq<Run>, v: nat): seq<Run> {
    if runs != [] && runs[|runs| - 1].rank == v
    then runs[..|runs| - 1] + [Run(v, runs[|runs| - 1].count + 1)]
    else runs + [Run(v, 1)]
  }

  /** The maximal runs of a sequence. */
  function RunsOf(s: seq<nat>): (runs: seq<Run>) {
    if s == [] then [] else AddToRuns(RunsOf(s[..|s| - 1]), s[|s| - 1])
  }

  lemma RunsOfAppend(s: seq<nat>, v: nat)
    ensures RunsOf(s + [v]) == AddToRuns(RunsOf(s), v)
  {
    hide AddToRuns;
    assert (s + [v])[..|s|] == s;
  }

  lemma AddToRunsExpands(runs: seq<Run>, v: nat)
    ensures Expand(AddToRuns(runs, v)) == Expand(runs) + [v]
  {
    hide Expand;
    if runs != [] && runs[|runs| - 1].rank == v {
      var init, c := runs[..|runs| - 1], runs[|runs| - 1].count;
      assert runs == init + [Run(v, c)];
      ExpandAppend(init, Run(v, c));
      ExpandAppend(init, Run(v, c + 1));
      assert Repeat(v, c + 1) == Repeat(v, c) + [v];
    } else {
      ExpandAppend(runs, Run(v, 1));
      assert Repeat(v, 1) == [v];
    }
  }

  lemma {:induction false} RunsOfExpands(s: seq<nat>)
    ensures Expand(RunsOf(s)) == s
  {
    if s != [] {
      var v, front := s[|s| - 1], s[..|s| - 1];
      RunsOfExpands(front);
      AddToRunsExpands(RunsOf(front), v);
      hide Expand, AddToRuns;
      assert s == front + [v];
    }
  }

  lemma RunAppended(runs: seq<Run>, run: Run)
    requires MaximalRuns(runs) && run.count >= 1
    requires runs != [] ==> runs[|runs| - 1].rank != run.rank
    ensures MaximalRuns(runs + [run])
  {
  }

  lemma FrontOfMaximal(runs: seq<Run>)
    requires MaximalRuns(runs) && runs != []
    ensures var init := runs[..|runs| - 1];
            MaximalRuns(init) && (init != [] ==> init[|init| - 1].rank != runs[|runs| - 1].rank)
  {
    var init := runs[..|runs| - 1];
    assert init != [] ==> init[|init| - 1].rank != runs[|init|].rank;
  }

  lemma AddToRunsMaximal(runs: seq<Run>, v: nat)
    requires MaximalRuns(runs)
    ensures MaximalRuns(AddToRuns(runs, v))
  {
    if runs != [] && runs[|runs| - 1].rank == v {
      FrontOfMaximal(runs);
      hide MaximalRuns;
      RunAppended(runs[..|runs| - 1], Run(v, runs[|runs| - 1].count + 1));
    } else {
      hide MaximalRuns;
      RunAppended(runs, Run(v, 1));
    }
  }

  lemma {:induction false} RunsOfMaximal(s: seq<nat>)
    ensures MaximalRuns(RunsOf(s))
  {
    if s != [] {
      var front := s[..|s| - 1];
      RunsOfMaximal(front);
      AddToRunsMaximal(RunsOf(front), s[|s| - 1]);
      hide MaximalRuns, AddToRuns;
    }
  }

  lemma {:induction false} RunsOfBounds(s: seq<nat>, k: nat)
    requires k < |RunsOf(s)|
    ensures RunsOf(s)[k].count <= |s| && RunsOf(s)[k].rank in s
  {
    var before := RunsOf(s[..|s| - 1]);
    if k < |before| {
      RunsOfBounds(s[..|s| - 1], k);
    }
  }

  /** The values of a table at the listed indices, in list order. */
  function Gather(table: seq<nat>, sa: seq<nat>): (s: seq<nat>)
    requires forall k: nat :: k < |sa| ==> sa[k] < |table|
    ensures |s| == |sa|
  {
    seq(|sa|, k requires 0 <= k < |sa| => table[sa[k]])
  }

  /** No two lists of maximal runs spell the same: the scan finds the only one. */
  lemma {:induction false} MaximalFormUnique(runs: seq<Run>)
    requires MaximalRuns(runs)
    ensures RunsOf(Expand(runs)) == runs
  {
    if runs != [] {
      var front, last := runs[..|runs| - 1], runs[|runs| - 1];
      assert runs == front + [last];
      FrontOfMaximal(runs);
      MaximalFormUnique(front);
      ExpandAppend(front, last);
      hide MaximalRuns, Expand;
      RunsOfRepeat(Expand(front), last.rank, last.count);
    }
  }

  lemma RunsOfLastCopy(s: seq<nat>, v: nat, n: nat)
    requires 1 <= n
    ensures RunsOf(s + Repeat(v, n)) == AddToRuns(RunsOf(s + Repeat(v, n - 1)), v)
  {
    var shorter := s + Repeat(v, n - 1);
    assert s + Repeat(v, n) == shorter + [v];
    RunsOfAppend(shorter, v);
  }

  lemma StartedOn(runs: seq<Run>, v: nat)
    requires runs != [] ==> runs[|runs| - 1].rank != v
    ensures AddToRuns(runs, v) == runs + [Run(v, 1)]
  {
  }

  lemma CountedOn(runs: seq<Run>, v: nat, n: nat)
    ensures AddToRuns(runs + [Run(v, n)], v) == runs + [Run(v, n + 1)]
  {
    var all := runs + [Run(v, n)];
    assert all[..|all| - 1] == runs;
  }

  /** The same value n times. */
  ghost function AddMany(runs: seq<Run>, v: nat, n: nat): seq<Run> {
    if n == 0 then runs else AddToRuns(AddMany(runs, v, n - 1), v)
  }

  lemma {:induction false} RunsOfCopies(s: seq<nat>, v: nat, n: nat)
    ensures RunsOf(s + Repeat(v, n)) == AddMany(RunsOf(s), v, n)
    decreases n
  {
    if n == 0 {
      assert s + Repeat(v, 0) == s;
    } else {
      RunsOfLastCopy(s, v, n);
      hide RunsOf, Repeat, AddToRuns;
      RunsOfCopies(s, v, n - 1);
    }
  }

  lemma {:induction false} CopiesAreOneRun(runs: seq<Run>, v: nat, n: nat)
    requires 1 <= n && (runs != [] ==> runs[|runs| - 1].rank != v)
    ensures AddMany(runs, v, n) == runs + [Run(v, n)]
    decreases n
  {
    hide AddToRuns;
    if n > 1 {
      CopiesAreOneRun(runs, v, n - 1);
      CountedOn(runs, v, n - 1);
    } else {
      StartedOn(runs, v);
    }
  }

  lemma RunsOfRepeat(s: seq<nat>, v: nat, n: nat)
    requires 1 <= n && var before := RunsOf(s); before != [] ==> before[|before| - 1].rank != v
    ensures RunsOf(s + Repeat(v, n)) == RunsOf(s) + [Run(v, n)]
  {
    hide RunsOf;
    RunsOfCopies(s, v, n);
    CopiesAreOneRun(RunsOf(s), v, n);
  }

  lemma RunsOfStep(s: seq<nat>, i: nat)
    requires i < |s|
    ensures RunsOf(s[..i + 1]) == AddToRuns(RunsOf(s[..i]), s[i])
  {
    assert s[..i + 1] == s[..i] + [s[i]];
    RunsOfAppend(s[..i], s[i]);
  }

  /** A run of a prefix that another follows is a run of the whole. */
  lemma {:induction false} RunsOfClosed(s: seq<nat>, i: nat, k: nat)
    requires i <= |s| && k + 1 < |RunsOf(s[..i])|
    ensures k < |RunsOf(s)| && RunsOf(s)[k] == RunsOf(s[..i])[k]
    decreases |s| - i
  {
    if i < |s| {
      RunsOfStep(s, i);
      hide RunsOf;
      RunsOfClosed(s, i + 1, k);
    } else {
      assert s[..i] == s;
    }
  }

  /** When a third of a chunk is room enough for every scan of a chunk. */
  lemma ThirdOfChunkSuffices(S: nat)
    requires S >= 1
    ensures (forall s: seq<nat>, k: nat :: 1 <= |s| <= S && k < |RunsOf(s)| ==> Room(S / 3, RunsOf(s)[k].count)) <==>
              S >= 3
  {
    if S >= 3 {
      forall s: seq<nat>, k: nat | 1 <= |s| <= S && k < |RunsOf(s)| ensures Room(S / 3, RunsOf(s)[k].count) {
        RunsOfBounds(s, k);
      }
    } else {
      RunsOfFirst([0]);
      assert [0][..1] == [0];
      assert !Room(S / 3, RunsOf([0])[0].count);
    }
  }

  lemma RunsOfFirst(s: seq<nat>)
    requires |s| >= 1
    ensures RunsOf(s[..1]) == [Run(s[0], 1)]
  {
    assert s[..1][..0] == [];
  }

  /** The linear scan of refine (src/refine.cpp:147-166) and of init's seeding (src/init.cpp:496-519):
      one run whenever the value at the next suffix-array entry changes.  room is false when a record
      does not fit the buffer; the program writes it behind the buffer's end. */
  method EmitRunsOf(table: seq<nat>, sa: seq<nat>, capacity: nat) returns (room: bool, file: seq<RankRun>)
    requires |sa| >= 1 && forall k: nat :: k < |sa| ==> sa[k] < |table|
    ensures room <==> forall k: nat :: k < |RunsOf(Gather(table, sa))| ==>
              Room(capacity, RunsOf(Gather(table, sa))[k].count)
    ensures room ==> file == EncodeAll(RunsOf(Gather(table, sa)))
  {
    hide RunsOf, EncodeAll, Expand, Encode, Room;
    ghost var values := Gather(table, sa);
    var writer := new RunWriter(capacity);
    var curN, curCount := table[sa[0]], 1;
    RunsOfFirst(values);
    var i := 1;
    while i < |sa|
      invariant 1 <= i <= |sa| && 1 <= curCount <= i
      invariant writer.Valid() && fresh(writer) && fresh(writer.buf) && writer.buf.Length == capacity
      invariant writer.runs + [Run(curN, curCount)] == RunsOf(values[..i])
      invariant forall k: nat :: k < |writer.runs| ==> Room(capacity, writer.runs[k].count)
    {
      RunsOfStep(values, i);
      var n := table[sa[i]];
      if n == curN {
        curCount := curCount + 1;
      } else {
        RunsOfClosed(values, i + 1, |writer.runs|);
        if !Room(capacity, curCount) {
          return false, [];
        }
        writer.Emit(curN, curCount);
        curN, curCount := n, 1;
      }
      i := i + 1;
    }
    assert values[..i] == values;
    if !Room(capacity, curCount) {
      assert RunsOf(values)[|writer.runs|] == Run(curN, curCount);
      return false, [];
    }
    writer.Emit(curN, curCount);
    writer.Close();
    room, file := true, writer.file;
  }
}
