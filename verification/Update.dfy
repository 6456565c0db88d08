/** update (src/update.c): apply the resolved records to a chunk's ranks, drop resolved positions from
    its suffix array, tighten its window and write the next currents stream. */
module Update {
  import opened RunLength
  import opened Refine
  import opened ChunkStatus

  /** What happens to one suffix-array entry: its new rank, and whether it stays live. */
  datatype Fate = Fate(rank: nat, stays: bool)

  /** The fates a list of records prescribes, entry by entry; count 0 is one entry that is resolved. */
  function Fates(runs: seq<Run>): seq<Fate> {
    if runs == [] then []
    else FatesOf(runs[0]) + Fates(runs[1..])
  }

  function FatesOf(run: Run): (f: seq<Fate>)
    ensures |f| == if run.count == 0 then 1 else run.count
  {
    if run.count == 0 then [Fate(run.rank, false)] else seq(run.count, _ => Fate(run.rank, true))
  }

  lemma FatesOfAt(rank: nat, cnt: nat, j: nat)
    requires j < cnt
    ensures FatesOf(Run(rank, cnt))[j] == Fate(rank, true)
  {
  }

  /** The entries that stay, in order. */
  function Kept(sa: seq<nat>, fates: seq<Fate>): (kept: seq<nat>)
    requires |sa| == |fates|
    ensures |kept| <= |sa|
    ensures forall k: nat :: k < |kept| ==> kept[k] in sa
  {
    if sa == [] then []
    else Kept(sa[..|sa| - 1], fates[..|sa| - 1]) + if fates[|sa| - 1].stays then [sa[|sa| - 1]] else []
  }

  /** The records that stay: the next currents stream. */
  function Surviving(runs: seq<Run>): seq<Run> {
    if runs == [] then []
    else Surviving(runs[..|runs| - 1]) + if runs[|runs| - 1].count != 0 then [runs[|runs| - 1]] else []
  }

  ghost predicate Distinct(sa: seq<nat>) {
    forall i: nat, j: nat :: i < j < |sa| ==> sa[i] != sa[j]
  }

  /** [lo, hi] is exactly the range of the list, or the markers of an empty one. */
  ghost predicate TightWindow(sa: seq<nat>, lo: int, hi: int) {
    if sa == [] then lo == INT_MAX && hi == -1 else lo in sa && hi in sa && InWindow(sa, lo, hi)
  }

  const INT_MAX: int := 0x7fff_ffff

  /** The list names places of the buffer. */
  ghost predicate Places(sa: seq<nat>, n: nat) {
    forall i: nat :: i < |sa| ==> sa[i] < n && sa[i] < INT_MAX
  }

  /** The first m entries have their new rank, every other place its old one. */
  ghost predicate RanksSet(buf0: seq<nat>, sa0: seq<nat>, fates: seq<Fate>, m: nat, buf: seq<nat>) {
    && |buf| == |buf0| && m <= |fates| && m <= |sa0| && Places(sa0, |buf0|)
    && (Distinct(sa0) ==> forall i: nat :: i < m ==> buf[sa0[i]] == fates[i].rank)
    && forall p: nat :: p < |buf| && p !in sa0[..m] ==> buf[p] == buf0[p]
  }

  /** The survivors among the first m entries are at the front, the entries ahead untouched. */
  ghost predicate ListCompacted(sa0: seq<nat>, fates: seq<Fate>, m: nat, sa: seq<nat>, displacement: nat) {
    && |sa| >= |sa0| && m <= |fates| && m <= |sa0| && displacement <= m
    && sa[..m - displacement] == Kept(sa0[..m], fates[..m])
    && sa[m..|sa0|] == sa0[m..]
  }

  /** The first m entries have been dealt with. */
  ghost predicate Applying(buf0: seq<nat>, sa0: seq<nat>, fates: seq<Fate>, m: nat,
                           buf: seq<nat>, sa: seq<nat>, displacement: nat, lo: int, hi: int) {
    && RanksSet(buf0, sa0, fates, m, buf) && ListCompacted(sa0, fates, m, sa, displacement)
    && TightWindow(Kept(sa0[..m], fates[..m]), lo, hi)
  }

  lemma ApplyingStart(buf0: seq<nat>, sa0: seq<nat>, fates: seq<Fate>, sa: seq<nat>)
    requires |sa| >= |sa0| && sa[..|sa0|] == sa0 && Places(sa0, |buf0|)
    ensures Applying(buf0, sa0, fates, 0, buf0, sa, 0, INT_MAX, -1)
  {
    assert sa[0..|sa0|] == sa[..|sa0|];
  }

  lemma KeptStep(sa: seq<nat>, fates: seq<Fate>, m: nat)
    requires m < |sa| && m < |fates|
    ensures Kept(sa[..m + 1], fates[..m + 1]) == Kept(sa[..m], fates[..m]) + if fates[m].stays then [sa[m]] else []
  {
    assert sa[..m + 1][..m] == sa[..m] && fates[..m + 1][..m] == fates[..m];
  }

  lemma ApplyingBounds(buf0: seq<nat>, sa0: seq<nat>, fates: seq<Fate>, m: nat,
                       buf: seq<nat>, sa: seq<nat>, displacement: nat, lo: int, hi: int)
    requires Applying(buf0, sa0, fates, m, buf, sa, displacement, lo, hi)
    ensures displacement <= m <= |sa0| <= |sa| && |buf| == |buf0|
    ensures m < |sa0| ==> sa[m] == sa0[m] < |buf| && sa0[m] < INT_MAX
  {
    hide Kept;
    if m < |sa0| {
      assert sa[m..|sa0|][0] == sa0[m..][0];
    }
  }

  lemma RankWritten(buf0: seq<nat>, sa0: seq<nat>, fates: seq<Fate>, m: nat, buf: seq<nat>)
    requires RanksSet(buf0, sa0, fates, m, buf) && m < |sa0| && m < |fates|
    ensures RanksSet(buf0, sa0, fates, m + 1, buf[sa0[m] := fates[m].rank])
  {
    assert sa0[..m + 1] == sa0[..m] + [sa0[m]];
  }

  lemma EntryDropped(sa0: seq<nat>, fates: seq<Fate>, m: nat, sa: seq<nat>, displacement: nat)
    requires ListCompacted(sa0, fates, m, sa, displacement) && m < |sa0| && m < |fates| && !fates[m].stays
    ensures ListCompacted(sa0, fates, m + 1, sa, displacement + 1)
  {
    KeptStep(sa0, fates, m);
    hide Kept;
    assert sa[m + 1..|sa0|] == sa[m..|sa0|][1..];
  }

  lemma EntryMoved(sa0: seq<nat>, fates: seq<Fate>, m: nat, sa: seq<nat>, displacement: nat)
    requires ListCompacted(sa0, fates, m, sa, displacement) && m < |sa0| && m < |fates| && fates[m].stays
    ensures ListCompacted(sa0, fates, m + 1, sa[m - displacement := sa0[m]], displacement)
  {
    KeptStep(sa0, fates, m);
    hide Kept;
    var sa' := sa[m - displacement := sa0[m]];
    assert sa'[..m + 1 - displacement] == sa[..m - displacement] + [sa0[m]];
    assert sa'[m + 1..|sa0|] == sa[m..|sa0|][1..];
  }

  lemma WindowGrows(kept: seq<nat>, lo: int, hi: int, pos: nat)
    requires TightWindow(kept, lo, hi) && pos < INT_MAX
    ensures TightWindow(kept + [pos], if pos < lo then pos else lo, if pos > hi then pos else hi)
  {
    var all := kept + [pos];
    assert all[|kept|] == pos;
    forall k: nat | k < |kept| ensures all[k] == kept[k] {}
    if kept != [] {
      var i: nat :| i < |kept| && kept[i] == lo;
      var j: nat :| j < |kept| && kept[j] == hi;
      assert all[i] == lo && all[j] == hi;
    }
  }

  /** A resolved entry: its rank is stored and it is dropped. */
  lemma ApplyResolved(buf0: seq<nat>, sa0: seq<nat>, fates: seq<Fate>, m: nat,
                      buf: seq<nat>, sa: seq<nat>, displacement: nat, lo: int, hi: int)
    requires Applying(buf0, sa0, fates, m, buf, sa, displacement, lo, hi)
    requires m < |sa0| && m < |fates| && !fates[m].stays
    ensures sa0[m] < |buf|
    ensures Applying(buf0, sa0, fates, m + 1, buf[sa0[m] := fates[m].rank], sa, displacement + 1, lo, hi)
  {
    hide Kept, TightWindow, ListCompacted;
    KeptStep(sa0, fates, m);
    RankWritten(buf0, sa0, fates, m, buf);
    EntryDropped(sa0, fates, m, sa, displacement);
    assert Kept(sa0[..m], fates[..m]) + [] == Kept(sa0[..m], fates[..m]);
  }

  /** A surviving entry: its rank is stored and it moves left over the gap. */
  lemma ApplySurvivor(buf0: seq<nat>, sa0: seq<nat>, fates: seq<Fate>, m: nat,
                      buf: seq<nat>, sa: seq<nat>, displacement: nat, lo: int, hi: int)
    requires Applying(buf0, sa0, fates, m, buf, sa, displacement, lo, hi)
    requires m < |sa0| && m < |fates| && fates[m].stays
    ensures sa0[m] < |buf| && displacement <= m < |sa|
    ensures var pos := sa0[m];
            Applying(buf0, sa0, fates, m + 1, buf[pos := fates[m].rank], sa[m - displacement := pos], displacement,
                     if pos < lo then pos else lo, if pos > hi then pos else hi)
  {
    hide Kept, TightWindow;
    KeptStep(sa0, fates, m);
    RankWritten(buf0, sa0, fates, m, buf);
    EntryMoved(sa0, fates, m, sa, displacement);
    WindowGrows(Kept(sa0[..m], fates[..m]), lo, hi, sa0[m]);
  }

  lemma PlaceMoved(sa: seq<nat>, n: nat, to: nat, from: nat)
    requires Places(sa, n) && to < |sa| && from < |sa|
    ensures Places(sa[to := sa[from]], n)
  {
  }

  /** The body of the record loop for one record (src/update.c:89-105). */
  method ApplyRecord(buf: array<nat>, sa: array<nat>, rank: nat, cnt: nat, m0: nat, displacement0: nat, lo0: int,
                     hi0: int, ghost buf0: seq<nat>, ghost sa0: seq<nat>, ghost fates: seq<Fate>)
    returns (m: nat, displacement: nat, lo: int, hi: int)
    requires buf != sa && Applying(buf0, sa0, fates, m0, buf[..], sa[..], displacement0, lo0, hi0)
    requires rank < I40_LIMIT && m0 + |FatesOf(Run(rank, cnt))| <= |fates| <= |sa0|
    requires fates[m0..m0 + |FatesOf(Run(rank, cnt))|] == FatesOf(Run(rank, cnt)) && Places(sa[..], buf.Length)
    modifies buf, sa
    ensures Places(sa[..], buf.Length)
    ensures m == m0 + |FatesOf(Run(rank, cnt))|
    ensures Applying(buf0, sa0, fates, m, buf[..], sa[..], displacement, lo, hi)
  {
    hide Applying, Places;
    m, displacement, lo, hi := m0, displacement0, lo0, hi0;
    ApplyingBounds(buf0, sa0, fates, m, buf[..], sa[..], displacement, lo, hi);
    if cnt == 0 {
      assert fates[m0..m0 + 1][0] == Fate(rank, false);
      var pos: nat := sa[m];
      ApplyResolved(buf0, sa0, fates, m, buf[..], sa[..], displacement, lo, hi);
      ghost var was := buf[..];
      buf[pos] := I40(rank);
      assert buf[..] == was[pos := rank];
      displacement := displacement + 1;
      m := m + 1;
    } else {
      var j := 0;
      while j < cnt
        invariant j <= cnt && m == m0 + j && Places(sa[..], buf.Length)
        invariant Applying(buf0, sa0, fates, m, buf[..], sa[..], displacement, lo, hi)
      {
        ApplyingBounds(buf0, sa0, fates, m, buf[..], sa[..], displacement, lo, hi);
        FatesOfAt(rank, cnt, j);
        assert fates[m] == fates[m0..m0 + cnt][j];
        var pos: nat := sa[m];
        ApplySurvivor(buf0, sa0, fates, m, buf[..], sa[..], displacement, lo, hi);
        ghost var was, saWas := buf[..], sa[..];
        buf[pos] := I40(rank);
        assert buf[..] == was[pos := rank];
        if pos < lo { lo := pos; }
        if pos > hi { hi := pos; }
        if displacement != 0 {
          sa[m - displacement] := sa[m];
        }
        assert sa[..] == saWas[m - displacement := pos];
        PlaceMoved(saWas, buf.Length, m - displacement, m);
        m := m + 1;
        j := j + 1;
      }
    }
  }

  // ---- the record loop ----

  lemma FatesUnfold(runs: seq<Run>, k: nat)
    requires k < |runs|
    ensures Fates(runs[k..]) == FatesOf(runs[k]) + Fates(runs[k + 1..])
    ensures EncodeAll(runs[k..]) == Encode(runs[k]) + EncodeAll(runs[k + 1..])
    ensures Surviving(runs[..k + 1]) == Surviving(runs[..k]) + if runs[k].count != 0 then [runs[k]] else []
  {
    assert runs[k..][1..] == runs[k + 1..] && runs[..k + 1][..k] == runs[..k];
  }

  /** The records from q on are the encoding of runs[k..]. */
  ghost predicate AtRecord(globals: seq<RankRun>, runs: seq<Run>, q: nat, k: nat) {
    k <= |runs| && q <= |globals| && globals[q..] == EncodeAll(runs[k..])
  }

  /** The fates from entry m on are those of runs[k..]. */
  ghost predicate AtEntry(fates: seq<Fate>, runs: seq<Run>, m: nat, k: nat) {
    k <= |runs| && m <= |fates| && fates[m..] == Fates(runs[k..])
  }

  lemma AtRecordStep(globals: seq<RankRun>, runs: seq<Run>, q: nat, k: nat)
    requires AtRecord(globals, runs, q, k) && q < |globals| && AllFit(runs)
    ensures k < |runs| && runs[k].rank < I40_LIMIT
    ensures globals[q].rank == runs[k].rank
    ensures globals[q].count != COUNT_ESCAPE ==>
              globals[q].count == runs[k].count && AtRecord(globals, runs, q + 1, k + 1)
    ensures globals[q].count == COUNT_ESCAPE ==>
              q + 1 < |globals| && globals[q + 1].rank == runs[k].count && AtRecord(globals, runs, q + 2, k + 1)
  {
    assert |globals[q..]| > 0;
    assert runs[k..] != [];
    FatesUnfold(runs, k);
    assert Fits(runs[k]);
    DecodeEncode(runs[k], EncodeAll(runs[k + 1..]));
    hide EncodeAll, Encode;
    assert globals[q..][0] == globals[q] && globals[q..][1..] == globals[q + 1..];
    if globals[q].count == COUNT_ESCAPE {
      assert globals[q..][1] == globals[q + 1] && globals[q..][2..] == globals[q + 2..];
    }
  }

  lemma AtEntryStep(fates: seq<Fate>, runs: seq<Run>, m: nat, k: nat)
    requires AtEntry(fates, runs, m, k) && k < |runs|
    ensures var m' := m + |FatesOf(runs[k])|;
            m' <= |fates| && fates[m..m'] == FatesOf(runs[k]) && AtEntry(fates, runs, m', k + 1)
  {
    FatesUnfold(runs, k);
    hide Fates, FatesOf;
    CutFront(fates, m, FatesOf(runs[k]), Fates(runs[k + 1..]));
  }

  lemma CutFront<T>(s: seq<T>, i: nat, x: seq<T>, y: seq<T>)
    requires i <= |s| && s[i..] == x + y
    ensures i + |x| <= |s| && s[i..i + |x|] == x && s[i + |x|..] == y
  {
    assert s[i..][..|x|] == x && s[i..][|x|..] == y;
  }

  lemma AtStart(globals: seq<RankRun>, runs: seq<Run>)
    requires globals == EncodeAll(runs)
    ensures AtRecord(globals, runs, 0, 0) && AtEntry(Fates(runs), runs, 0, 0)
  {
    assert runs[0..] == runs && globals[0..] == globals && Fates(runs)[0..] == Fates(runs);
  }

  lemma AtEnd(globals: seq<RankRun>, runs: seq<Run>, fates: seq<Fate>, k: nat, m: nat)
    requires AtRecord(globals, runs, |globals|, k) && AtEntry(fates, runs, m, k)
    ensures k == |runs| && m == |fates|
  {
    if k < |runs| {
      FatesUnfold(runs, k);
    } else {
      assert runs[k..] == [];
    }
  }

  lemma SurvivingNone(runs: seq<Run>)
    ensures Surviving(runs[..0]) == []
  {
  }

  lemma PlacesFront(sa: seq<nat>, m: nat, n: nat)
    requires Places(sa, n) && m <= |sa|
    ensures Places(sa[..m], n)
  {
  }

  /** Walk the records and apply them (src/update.c:79-113). */
  method ApplyRecords(buf: array<nat>, sa: array<nat>, globals: seq<RankRun>, capacity: nat,
                      ghost sa0: seq<nat>, ghost runs: seq<Run>)
    returns (m: nat, displacement: nat, lo: int, hi: int, currents: seq<RankRun>)
    requires buf != sa && globals == EncodeAll(runs) && AllFit(runs) && |Fates(runs)| <= |sa0| <= sa.Length
    requires sa[..|sa0|] == sa0 && Places(sa[..], buf.Length) && 2 <= capacity
    modifies buf, sa
    ensures Places(sa[..], buf.Length)
    ensures m == |Fates(runs)| && currents == EncodeAll(Surviving(runs))
    ensures Applying(old(buf[..]), sa0, Fates(runs), m, buf[..], sa[..], displacement, lo, hi)
  {
    hide Applying, AtRecord, AtEntry, Surviving, Fates, FatesOf, EncodeAll, Encode, Places;
    ghost var buf0, fates := buf[..], Fates(runs);
    assert sa[..][..|sa0|] == sa[..|sa0|];
    PlacesFront(sa[..], |sa0|, buf.Length);
    ApplyingStart(buf0, sa0, fates, sa[..]);
    AtStart(globals, runs);
    SurvivingNone(runs);
    var writer := new RunWriter(capacity);
    var q: nat := 0;
    ghost var k: nat := 0;
    m, displacement, lo, hi := 0, 0, INT_MAX, -1;
    while q < |globals|
      invariant q <= |globals| && k <= |runs| && AtRecord(globals, runs, q, k) && AtEntry(fates, runs, m, k)
      invariant Applying(buf0, sa0, fates, m, buf[..], sa[..], displacement, lo, hi) && Places(sa[..], buf.Length)
      invariant writer.Valid() && fresh(writer) && fresh(writer.buf) && writer.buf.Length == capacity
      invariant writer.runs == Surviving(runs[..k])
      decreases |globals| - q
    {
      AtRecordStep(globals, runs, q, k);
      AtEntryStep(fates, runs, m, k);
      FatesUnfold(runs, k);
      var rank, cnt := globals[q].rank, globals[q].count;
      if cnt == COUNT_ESCAPE {
        q := q + 1;
        cnt := globals[q].rank;
      }
      assert Run(rank, cnt) == runs[k];
      m, displacement, lo, hi := ApplyRecord(buf, sa, rank, cnt, m, displacement, lo, hi, buf0, sa0, fates);
      if cnt != 0 {
        writer.Emit(rank, cnt);
      }
      q := q + 1;
      k := k + 1;
    }
    AtEnd(globals, runs, fates, k, m);
    assert runs[..k] == runs;
    writer.Close();
    currents := writer.file;
  }

  // ---- a whole chunk ----

  /** What update makes of a chunk: exactly the listed positions get the rank their record says, the
      list keeps the entries that stay in their order, the window is their range, and the currents
      stream holds the surviving records. */
  ghost predicate ChunkUpdated(ranks: seq<nat>, sa: seq<nat>, runs: seq<Run>,
                               ranks': seq<nat>, sa': seq<nat>, currents': seq<RankRun>, lo': int, hi': int) {
    && Distinct(sa) && RanksSet(ranks, sa, Fates(runs), |sa|, ranks') && |Fates(runs)| == |sa|
    && sa' == Kept(sa, Fates(runs)) && currents' == EncodeAll(Surviving(runs))
    && (if sa' == [] then lo' == 0 && hi' == -1 else TightWindow(sa', lo', hi'))
  }

  lemma WindowReversed(sa: seq<nat>, lo: int, hi: int)
    requires TightWindow(sa, lo, hi)
    ensures hi < lo <==> sa == []
  {
    if sa != [] {
      assert lo <= sa[0] <= hi;
    }
  }

  lemma WindowNotEmpty(sa: seq<nat>, lo: int, hi: int)
    requires InWindow(sa, lo, hi) && sa != []
    ensures lo <= hi
  {
    assert lo <= sa[0] <= hi;
  }

  /** Writing only the window back equals writing the whole chunk. */
  lemma WindowSliceSuffices(file: seq<nat>, buf0: seq<nat>, buf: seq<nat>, sa: seq<nat>, fates: seq<Fate>, lo: int,
                            hi: int)
    requires |file| <= |buf0| && RanksSet(buf0, sa, fates, |sa|, buf)
    requires InWindow(sa, lo, hi) && (lo <= hi ==> 0 <= lo && hi < |file|)
    requires forall p: nat :: lo <= p <= hi ==> p < |file| && buf0[p] == file[p]
    requires forall i: nat :: i < |sa| ==> sa[i] < |file|
    ensures lo <= hi ==> RanksSet(file, sa, fates, |sa|, file[..lo] + buf[lo..hi + 1] + file[hi + 1..])
    ensures lo > hi ==> RanksSet(file, sa, fates, |sa|, file)
  {
    assert sa[..|sa|] == sa;
    if sa != [] {
      WindowNotEmpty(sa, lo, hi);
    }
    if lo <= hi {
      var w := file[..lo] + buf[lo..hi + 1] + file[hi + 1..];
      forall p: nat | p < |file| ensures w[p] == if lo <= p <= hi then buf[p] else file[p] {}
    }
  }

  /** How many runs take a second record. */
  ghost function Escapes(runs: seq<Run>): nat {
    if runs == [] then 0 else (if runs[0].count < COUNT_ESCAPE then 0 else 1) + Escapes(runs[1..])
  }

  lemma {:induction false} RecordCount(runs: seq<Run>)
    ensures |EncodeAll(runs)| == |runs| + Escapes(runs)
    ensures |runs| <= |Fates(runs)| && Escapes(runs) * COUNT_ESCAPE <= |Fates(runs)|
  {
    if runs != [] {
      RecordCount(runs[1..]);
    }
  }

  /** The buffer that update reads all records of a chunk into is large enough as long as the counts do
      not exceed the chunk size: only counts of 255 or more take a second record. */
  lemma RecordsFitBuffer(runs: seq<Run>, S: nat)
    requires |Fates(runs)| <= S
    ensures |EncodeAll(runs)| <= S + S / COUNT_ESCAPE
  {
    RecordCount(runs);
  }

  /** The slice written back, the front of the list and the tightened window make the chunk updated. */
  lemma WrittenBack(ranks: seq<nat>, sa: seq<nat>, runs: seq<Run>, buf0: seq<nat>, buf: seq<nat>, list: seq<nat>,
                    displacement: nat, newLo: int, newHi: int, lo: int, hi: int, written: seq<RankRun>)
    requires |Fates(runs)| == |sa| && Applying(buf0, sa, Fates(runs), |sa|, buf, list, displacement, newLo, newHi)
    requires |ranks| <= |buf0| && Distinct(sa) && InWindow(sa, lo, hi)
    requires (lo <= hi ==> 0 <= lo && hi < |ranks|) && forall i: nat :: i < |sa| ==> sa[i] < |ranks|
    requires forall p: nat :: lo <= p <= hi ==> buf0[p] == ranks[p]
    requires written == EncodeAll(Surviving(runs))
    ensures |buf| == |buf0| && displacement <= |sa| <= |list|
    ensures ChunkUpdated(ranks, sa, runs, if lo <= hi then ranks[..lo] + buf[lo..hi + 1] + ranks[hi + 1..] else ranks,
                         list[..|sa| - displacement], written,
                         if newHi < newLo then 0 else newLo, if newHi < newLo then -1 else newHi)
  {
    ApplyingBounds(buf0, sa, Fates(runs), |sa|, buf, list, displacement, newLo, newHi);
    hide Applying, RanksSet, ListCompacted, Places, EncodeAll, Kept, Fates, TightWindow, Distinct, Surviving;
    AppliedAll(buf0, sa, Fates(runs), buf, list, displacement, newLo, newHi);
    WindowSliceSuffices(ranks, buf0, buf, sa, Fates(runs), lo, hi);
  }

  /** update_local_ranks.  saBuf holds what the chunks before left in it: counts beyond the list are
      applied to those entries before the mismatch is found. */
  method UpdateLocalRanks(ranks: seq<nat>, sa: seq<nat>, currents: seq<RankRun>, globals: seq<RankRun>, L: nat, S: nat,
                          c: nat, total: nat, lo: int, hi: int, buf: array<nat>, saBuf: array<nat>,
                          ghost runs: seq<Run>)
    returns (r: Status, ranks': seq<nat>, sa': seq<nat>, currents': seq<RankRun>, lo': int, hi': int)
    requires 1 <= S <= INT_MAX && buf != saBuf && buf.Length == saBuf.Length == S && |ranks| <= S && |sa| <= S
    requires Distinct(sa) && InWindow(sa, lo, hi) && (lo <= hi ==> 0 <= lo && hi < |ranks|)
    requires globals == EncodeAll(runs) && AllFit(runs) && |Fates(runs)| <= S && Places(saBuf[..], S)
    modifies buf, saBuf
    ensures Places(saBuf[..], S)
    ensures r == FAILURE ==> ranks' == ranks && sa' == sa && lo' == lo && hi' == hi
    ensures r == if LocateNextRank(L, S, c, total).isEmpty || globals == [] then EMPTY
                 else if |Fates(runs)| == |sa| then SUCCESS else FAILURE
    ensures r == EMPTY ==> ranks' == ranks && sa' == sa && currents' == currents && lo' == lo && hi' == hi
    ensures r == SUCCESS ==> ChunkUpdated(ranks, sa, runs, ranks', sa', currents', lo', hi')
  {
    hide Applying, RanksSet, ListCompacted, Places, EncodeAll, Kept, Fates, TightWindow, Distinct;
    ghost var stale := saBuf[..];
    r, ranks', sa', currents', lo', hi' := EMPTY, ranks, sa, currents, lo, hi;
    if LocateNextRank(L, S, c, total).isEmpty {
      return;
    }
    if hi >= lo {
      FreadAt(buf, lo, ranks, lo, hi - lo + 1);
    }
    ghost var buf0 := buf[..];
    FreadAt(saBuf, 0, sa, 0, |sa|);
    PlacesInWindow(sa, lo, hi, |ranks|, S);
    PlacesRead(stale, sa, saBuf[..], S);
    if |globals| == 0 {
      return;
    }
    ghost var list := saBuf[..if |sa| < |Fates(runs)| then |Fates(runs)| else |sa|];
    var m, displacement, newLo, newHi, written :=
      ApplyRecords(buf, saBuf, globals, if S / 3 < 2 then 2 else S / 3, list, runs);
    if m != |sa| {
      r := FAILURE;
      return;
    }
    assert list == sa;
    ghost var now, left: seq<nat> := buf[..], saBuf[..];
    WrittenBack(ranks, sa, runs, buf0, now, left, displacement, newLo, newHi, lo, hi, written);
    hide ChunkUpdated, InWindow, AllFit;
    if hi >= lo {
      ranks' := ranks[..lo] + buf[lo..hi + 1] + ranks[hi + 1..];
      assert now[lo..hi + 1] == buf[lo..hi + 1];
    }
    if newHi < newLo {
      newLo, newHi := 0, -1;
    }
    assert left[..|sa| - displacement] == saBuf[..|sa| - displacement];
    r, sa', currents', lo', hi' := SUCCESS, saBuf[..|sa| - displacement], written, newLo, newHi;
  }

  lemma PlacesRead(stale: seq<nat>, sa: seq<nat>, buf: seq<nat>, S: nat)
    requires Places(stale, S) && Places(sa, S) && |sa| <= |stale| == |buf|
    requires forall k: nat :: k < |buf| ==> buf[k] == if k < |sa| then sa[k] else stale[k]
    ensures Places(buf, S) && buf[..|sa|] == sa
  {
  }

  lemma PlacesInWindow(sa: seq<nat>, lo: int, hi: int, n: nat, S: nat)
    requires Distinct(sa) && InWindow(sa, lo, hi) && (lo <= hi ==> 0 <= lo && hi < n) && n <= S <= INT_MAX
    ensures Places(sa, S) && forall i: nat :: i < |sa| ==> sa[i] < n
  {
  }

  lemma AppliedAll(buf0: seq<nat>, sa: seq<nat>, fates: seq<Fate>, buf: seq<nat>, list: seq<nat>, displacement: nat,
                   lo: int, hi: int)
    requires |fates| == |sa| && Applying(buf0, sa, fates, |sa|, buf, list, displacement, lo, hi)
    ensures |list| >= |sa| >= displacement && list[..|sa| - displacement] == Kept(sa, fates)
    ensures RanksSet(buf0, sa, fates, |sa|, buf) && TightWindow(Kept(sa, fates), lo, hi)
    ensures hi < lo <==> Kept(sa, fates) == []
  {
    assert sa[..|sa|] == sa && fates[..|sa|] == fates;
    WindowReversed(Kept(sa, fates), lo, hi);
  }
}
