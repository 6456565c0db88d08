/** Passes 1 and 2 of init (src/init.cpp:75-371): symbol codes, the k-mer histogram, the byte chunks for
    the sorter, and the initial ranks. */
module KmerSeed {
  import opened Arithmetic
  import opened SuffixOrder
  import opened Chunks
  import opened ChunkStatus
  import opened RunLength
  import opened Doubling
  import opened KmerKeys

  /** The text of an input: bytes raised by one, then the sentinel. */
  function TextOf(input: seq<int>): (t: seq<int>)
    ensures |t| == |input| + 1
  {
    seq(|input|, i requires 0 <= i < |input| => input[i] + 1) + [0]
  }

  /** The suffixes of the text are in the order of those of the input; that of the sentinel stands for the
      empty one. */
  lemma {:induction false} TextOrder(input: seq<int>, i: nat, j: nat)
    requires IsBytes(input) && i <= |input| && j <= |input|
    ensures SuffixLess(TextOf(input), i, j) <==> SuffixLess(input, i, j)
    decreases |input| - i
  {
    var t, n := TextOf(input), |input|;
    assert !Less(t, n + 1, n + 1, n + 1);
    assert i < n ==> t[i] == input[i] + 1;
    assert j < n ==> t[j] == input[j] + 1;
    if i < n && j < n && input[i] == input[j] {
      TextOrder(input, i + 1, j + 1);
    }
  }

  // ---- the sliding window ----

  /** Slots of a ring of k entries for indices less than k apart are different. */
  lemma RingSlots(q: int, p: int, k: nat)
    requires 1 <= k && p - k < q < p
    ensures q % k != p % k
  {
    ModuloSmall(p - q, k);
    if q % k == p % k {
      DivModUnique(p - q, k, p / k - q / k, 0);
    }
  }

  lemma RingBack(p: int, k: nat)
    requires 1 <= k
    ensures (p - k) % k == p % k
  {
    var q, r := p / k, p % k;
    assert p - k == (q - 1) * k + r;
    DivModUnique(p - k, k, q - 1, r);
  }

  class KWin {
    const ring: array<nat>
    const B: nat
    const k: nat
    const topw: nat
    var key: nat
    var p: nat
    ghost var fed: seq<nat>   // every code fed so far

    ghost predicate Valid()
      reads this, ring
    {
      && 1 <= k == ring.Length && topw == Power(B, k - 1) && p == |fed|
      && key == Key(fed, B, p - k, k)
      && forall q: int :: p - k <= q < p ==> ring[q % k] == Code(fed, q)
    }

    /** kwin_reset on a fresh ring. */
    constructor (B: nat, k: nat, topw: nat)
      requires 1 <= k && topw == Power(B, k - 1)
      ensures Valid() && fresh(ring) && fed == [] && this.B == B && this.k == k
    {
      this.B, this.k, this.topw := B, k, topw;
      ring := new nat[k](_ => 0);
      key, p, fed := 0, 0, [];
      new;
      ghost var width: int := k;
      KeyOfNothing(B, 0 - width, k);
    }

    /** kwin_feed: the key of the window that the new code completes, and where that window starts. */
    method Feed(e: nat) returns (emitPos: int, K: nat)
      requires Valid()
      modifies this, ring
      ensures Valid() && fed == old(fed) + [e]
      ensures emitPos == |old(fed)| - (k - 1) && K == Key(fed, B, emitPos, k)
    {
      var idx := p % k;
      RingBack(p, k);
      var oldCode := ring[idx];
      ghost var was, now := fed, fed + [e];
      assert oldCode == Code(was, p - k);
      KeySameWindow(was, now, B, p - k, k);
      KeyRolls(now, B, p - k, k);
      forall q: int | p - k < q < p ensures q % k != idx {
        RingSlots(q, p, k);
      }
      hide Key, Power;
      ring[idx] := e;
      key := (key - oldCode * topw) * B + e;
      emitPos := p - (k - 1);
      fed := now;
      p := p + 1;
      K := key;
    }
  }

  lemma {:induction false} KeyOfNothing(B: nat, i: int, n: nat)
    ensures Key([], B, i, n) == 0
  {
    if n > 0 {
      KeyOfNothing(B, i, n - 1);
    }
  }

  // ---- chunk files ----

  /** A buffer that is written out as a chunk file whenever it is full (FLUSH_X_IF_FULL, APPEND_RANK). */
  class ChunkWriter<T(0)> {
    const S: nat
    const buf: array<T>
    var pos: nat
    var files: seq<seq<T>>
    ghost var written: seq<T>

    ghost predicate Valid()
      reads this, buf
    {
      && 1 <= S == buf.Length && pos < S
      && Filled(files, S, buf[..pos], written)
    }

    constructor (S: nat)
      requires 1 <= S
      ensures Valid() && fresh(buf) && written == [] && this.S == S
    {
      this.S := S;
      buf := new T[S];
      pos, files, written := 0, [], [];
    }

    method Append(v: T)
      requires Valid()
      modifies this, buf
      ensures Valid() && written == old(written) + [v]
    {
      hide Filled;
      FilledAppend(files, S, buf[..pos], written, v);
      ghost var was := buf[..pos];
      buf[pos] := v;
      assert buf[..pos + 1] == was + [v];
      pos := pos + 1;
      written := written + [v];
      if pos == S {
        FilledChunk(files, S, buf[..pos], written);
        files := files + [buf[..pos]];
        pos := 0;
      }
      assert buf[..0] == [];
    }

    /** The last, possibly shorter file. */
    method Close()
      requires Valid() && written != []
      modifies `files
      ensures Holds(files, S, written)
    {
      FilledHolds(files, S, buf[..pos], written);
      if pos > 0 {
        files := files + [buf[..pos]];
      }
    }
  }

  /** Full files and the buffer content behind them hold w. */
  ghost predicate Filled<T>(files: seq<seq<T>>, S: nat, rest: seq<T>, w: seq<T>) {
    && (forall c: nat :: c < |files| ==> |files[c]| == S)
    && |w| == Global(S, |files|, |rest|)
    && (forall c: nat, p: nat :: c < |files| && p < |files[c]| ==>
          Global(S, c, p) < |w| && w[Global(S, c, p)] == files[c][p])
    && forall p: nat :: p < |rest| ==> Global(S, |files|, p) < |w| && w[Global(S, |files|, p)] == rest[p]
  }

  lemma FilledAppend<T>(files: seq<seq<T>>, S: nat, rest: seq<T>, w: seq<T>, v: T)
    requires Filled(files, S, rest, w)
    ensures Filled(files, S, rest + [v], w + [v])
  {
    assert Global(S, |files|, |rest| + 1) == Global(S, |files|, |rest|) + 1;
  }

  lemma FilledChunk<T>(files: seq<seq<T>>, S: nat, rest: seq<T>, w: seq<T>)
    requires Filled(files, S, rest, w) && |rest| == S
    ensures Filled(files + [rest], S, [], w)
  {
    NextBase(S, |files|);
  }

  lemma FilledHolds<T>(files: seq<seq<T>>, S: nat, rest: seq<T>, w: seq<T>)
    requires Filled(files, S, rest, w) && |rest| < S && w != []
    ensures rest == [] ==> Holds(files, S, w)
    ensures rest != [] ==> Holds(files + [rest], S, w)
  {
    if rest == [] {
      assert files != [];
      NextBase(S, |files| - 1);
    }
  }

  // ---- counting keys ----

  /** How many of the first n windows have key K, and how many a smaller one. */
  ghost function CountEq(cs: seq<nat>, B: nat, k: nat, n: nat, K: nat): nat {
    if n == 0 then 0 else CountEq(cs, B, k, n - 1, K) + if Key(cs, B, n - 1, k) == K then 1 else 0
  }

  ghost function CountLess(cs: seq<nat>, B: nat, k: nat, n: nat, K: nat): nat {
    if n == 0 then 0 else CountLess(cs, B, k, n - 1, K) + if Key(cs, B, n - 1, k) < K then 1 else 0
  }

  lemma {:induction false} CountLessStep(cs: seq<nat>, B: nat, k: nat, n: nat, K: nat)
    ensures CountLess(cs, B, k, n, K + 1) == CountLess(cs, B, k, n, K) + CountEq(cs, B, k, n, K)
  {
    if n > 0 {
      CountLessStep(cs, B, k, n - 1, K);
    }
  }

  lemma {:induction false} CountLessZero(cs: seq<nat>, B: nat, k: nat, n: nat)
    ensures CountLess(cs, B, k, n, 0) == 0
  {
    if n > 0 {
      CountLessZero(cs, B, k, n - 1);
    }
  }

  ghost function KeysBelow(cs: seq<nat>, B: nat, k: nat, n: nat, K: nat): set<nat> {
    set j: nat | j < n && Key(cs, B, j, k) < K
  }

  lemma {:induction false} CountLessIsSet(cs: seq<nat>, B: nat, k: nat, n: nat, K: nat)
    ensures CountLess(cs, B, k, n, K) == |KeysBelow(cs, B, k, n, K)|
  {
    hide Key;
    if n == 0 {
      assert KeysBelow(cs, B, k, n, K) == {};
    } else {
      CountLessIsSet(cs, B, k, n - 1, K);
      var before := KeysBelow(cs, B, k, n - 1, K);
      assert KeysBelow(cs, B, k, n, K) == if Key(cs, B, n - 1, k) < K then before + {n - 1} else before;
    }
  }

  /** The seeded rank of a real position: 1 plus the real positions with a smaller key. */
  ghost function SeedRank(cs: seq<nat>, B: nat, k: nat, i: nat): nat {
    1 + CountLess(cs, B, k, |cs|, Key(cs, B, i, k))
  }

  /** It is the rank of the position at prefix length k, and the sentinel's is 0. */
  lemma SeedRankIsRank(t: seq<int>, cs: seq<nat>, B: nat, k: nat, i: nat)
    requires IsText(t) && CodesOrder(t, cs) && CodesBelow(cs, B) && 1 <= k && i < |cs|
    ensures SeedRank(cs, B, k, i) == Rank(t, k, i)
    ensures Rank(t, k, |cs|) == 0
  {
    hide Key;
    var n, K := |cs|, Key(cs, B, i, k);
    CountLessIsSet(cs, B, k, n, K);
    forall j: nat | j < |t| ensures PrefixLess(t, k, j, i) <==> j == n || (j < n && Key(cs, B, j, k) < K) {
      if j < n {
        KeyOrder(t, cs, B, j, i, k);
      }
    }
    assert Smaller(t, k, i) == KeysBelow(cs, B, k, n, K) + {n};
    forall j: nat | j < |t| ensures !PrefixLess(t, k, j, n) {
      PrefixTrichotomy(t, k, j, n);
    }
    assert Smaller(t, k, n) == {};
  }

  // ---- what the window has seen ----

  /** The first p codes fed: the stream, then zeros. */
  ghost function Padded(cs: seq<nat>, p: nat): (fed: seq<nat>)
    ensures |fed| == p
  {
    seq(p, i requires 0 <= i < p => Code(cs, i))
  }

  lemma PaddedStep(cs: seq<nat>, p: nat)
    ensures Padded(cs, p) + [Code(cs, p)] == Padded(cs, p + 1)
  {
  }

  /** A completed window has the key of the stream's window. */
  lemma PaddedKey(cs: seq<nat>, B: nat, p: nat, i: int, k: nat)
    requires i + k <= p
    ensures Key(Padded(cs, p), B, i, k) == Key(cs, B, i, k)
  {
    KeySameWindow(Padded(cs, p), cs, B, i, k);
  }

  /** How many windows are complete after p codes. */
  function Emitted(p: nat, k: nat): nat {
    if p < k then 0 else p - k + 1
  }

  // ---- pass 1: codes ----

  /** The codes of the bytes: in [1, B) for every used byte, in byte order. */
  ghost predicate IsCoding(input: seq<int>, code: seq<nat>, B: nat) {
    && |code| == 256
    && (forall b: nat :: b < 256 && b in input ==> 1 <= code[b] < B)
    && forall b: nat, d: nat :: b < d < 256 && b in input && d in input ==> code[b] < code[d]
  }

  ghost predicate CodesSoFar(input: seq<int>, code: seq<nat>, b: nat, sigma: nat) {
    && |code| == 256
    && (forall d: nat :: d < b && d < 256 && d in input ==> 1 <= code[d] <= sigma)
    && forall d: nat, e: nat :: d < e < b && e < 256 && d in input && e in input ==> code[d] < code[e]
  }

  /** The byte values below b that occur. */
  ghost function UsedBelow(input: seq<int>, b: nat): set<nat> {
    set v: nat | v < b && v in input
  }

  /** The base of the keys: the used bytes and the sentinel. */
  ghost function Base(input: seq<int>): nat {
    1 + |UsedBelow(input, 256)|
  }

  lemma UsedNext(input: seq<int>, b: nat)
    ensures |UsedBelow(input, 0)| == 0
    ensures |UsedBelow(input, b + 1)| == |UsedBelow(input, b)| + if b in input then 1 else 0
  {
    assert UsedBelow(input, 0) == {};
    assert UsedBelow(input, b + 1) == UsedBelow(input, b) + if b in input then {b} else {};
  }

  lemma CodesNext(input: seq<int>, code: seq<nat>, b: nat, sigma: nat)
    requires CodesSoFar(input, code, b, sigma) && b < 256
    ensures b in input ==> CodesSoFar(input, code[b := sigma + 1], b + 1, sigma + 1)
    ensures b !in input ==> CodesSoFar(input, code, b + 1, sigma)
  {
  }

  /** The count scan: slot b + 1 says how often byte b occurs. */
  method CountBytes(input: seq<int>) returns (counts: array<nat>)
    requires IsBytes(input)
    ensures fresh(counts) && counts.Length == 257
    ensures counts[0] == 0 && forall v: nat :: v < 256 ==> counts[v + 1] == multiset(input)[v]
  {
    counts := new nat[257](_ => 0);
    for c := 0 to |input|
      invariant counts[0] == 0 && forall v: nat :: v < 256 ==> counts[v + 1] == multiset(input[..c])[v]
    {
      assert input[..c + 1] == input[..c] + [input[c]];
      counts[input[c] + 1] := counts[input[c] + 1] + 1;
    }
    assert input[..|input|] == input;
  }

  lemma CountsUsed(counts: seq<nat>, input: seq<int>)
    requires |counts| == 257 && forall v: nat :: v < 256 ==> counts[v + 1] == multiset(input)[v]
    ensures forall v: nat :: v < 256 ==> (counts[v + 1] != 0 <==> v in input)
  {
    forall v: nat | v < 256 ensures counts[v + 1] != 0 <==> v in input {
      assert v in multiset(input) <==> v in input;
    }
  }

  /** Count the bytes, refuse those above 253, and give the used ones dense codes (src/init.cpp:282-316). */
  method AssignCodes(input: seq<int>) returns (st: Status, code: seq<nat>, B: nat)
    requires IsBytes(input)
    ensures st == if exists i: nat :: i < |input| && input[i] > 253 then FAILURE else SUCCESS
    ensures st == SUCCESS ==> IsCoding(input, code, B) && B == Base(input)
  {
    var counts := CountBytes(input);
    CountsUsed(counts[..], input);
    for sym := 255 to 257
      modifies {}
      invariant forall v: nat :: 254 <= v < sym - 1 ==> v !in input
    {
      if counts[sym] != 0 {
        assert sym - 1 in input;
        return FAILURE, [], 0;
      }
    }
    assert forall i: nat :: i < |input| ==> input[i] in input;
    var sigma: nat := 0;
    code := seq(256, _ => 0);
    for b := 0 to 256
      modifies {}
      invariant CodesSoFar(input, code, b, sigma) && sigma == |UsedBelow(input, b)|
    {
      CodesNext(input, code, b, sigma);
      UsedNext(input, b);
      assert counts[b + 1] != 0 <==> b in input;
      if counts[b + 1] != 0 {
        code := code[b := sigma + 1];
        sigma := sigma + 1;
      }
    }
    st, B := SUCCESS, sigma + 1;
  }

  /** The base of the keys is 1 exactly for the empty input. */
  lemma BaseOfInput(input: seq<int>)
    requires IsBytes(input)
    ensures Base(input) == 1 <==> input == []
  {
    if input != [] {
      var b: nat := input[0];
      assert b in input && b in UsedBelow(input, 256);
    } else {
      assert UsedBelow(input, 256) == {};
    }
  }

  /** What the k loop makes of an input: it ends exactly when the input is not empty. */
  lemma KLoopEndsOnInput(input: seq<int>, S: nat)
    requires IsBytes(input) && 1 <= S
    ensures var base := Base(input); (exists n: nat :: !GuardAfter(base, S, n)) <==> input != []
  {
    BaseOfInput(input);
    var base := Base(input);
    KLoopEndsExactly(base, S);
  }

  // ---- passes B and C ----

  ghost predicate Histogram(counts: seq<nat>, cs: seq<nat>, B: nat, k: nat, n: nat) {
    |counts| == Power(B, k) && forall K: nat :: K < |counts| ==> counts[K] == CountEq(cs, B, k, n, K)
  }

  lemma HistogramNext(counts: seq<nat>, cs: seq<nat>, B: nat, k: nat, n: nat)
    requires Histogram(counts, cs, B, k, n) && CodesBelow(cs, B)
    ensures var K := Key(cs, B, n, k); K < |counts| && Histogram(counts[K := counts[K] + 1], cs, B, k, n + 1)
  {
    KeyBound(cs, B, n, k);
    hide Key, Power;
  }

  /** What a pass over the stream keeps: p codes fed, one window emitted for each complete one. */
  ghost predicate WindowAt(w: KWin, cs: seq<nat>, B: nat, k: nat, p: nat)
    reads w, w.ring
  {
    w.Valid() && w.fed == Padded(cs, p) && w.B == B && w.k == k
  }

  /** Feeding the next code completes the window at Emitted(p) when p + 1 codes make one. */
  method FeedNext(w: KWin, e: nat, ghost cs: seq<nat>, ghost B: nat, ghost k: nat, ghost p: nat)
      returns (emitPos: int, K: nat)
    requires WindowAt(w, cs, B, k, p) && e == Code(cs, p)
    modifies w, w.ring
    ensures WindowAt(w, cs, B, k, p + 1)
    ensures emitPos >= 0 <==> Emitted(p + 1, k) == Emitted(p, k) + 1
    ensures emitPos < 0 ==> Emitted(p + 1, k) == 0
    ensures emitPos >= 0 ==> emitPos == Emitted(p, k) && K == Key(cs, B, Emitted(p, k), k)
  {
    hide Key;
    PaddedStep(cs, p);
    emitPos, K := w.Feed(e);
    PaddedKey(cs, B, p + 1, emitPos, k);
  }

  /** Feed a code and count the window it completes, if it completes one. */
  method CountWindow(w: KWin, counts: array<nat>, e: nat, ghost B: nat, ghost k: nat, ghost cs: seq<nat>, ghost p: nat)
    requires WindowAt(w, cs, B, k, p) && e == Code(cs, p) && CodesBelow(cs, B) && counts != w.ring
    requires Histogram(counts[..], cs, B, k, Emitted(p, k))
    modifies w, w.ring, counts
    ensures WindowAt(w, cs, B, k, p + 1) && Histogram(counts[..], cs, B, k, Emitted(p + 1, k))
  {
    hide Histogram, Key;
    ghost var was := counts[..];
    var emitPos, K := FeedNext(w, e, cs, B, k, p);
    assert counts[..] == was;
    if emitPos >= 0 {
      HistogramNext(was, cs, B, k, Emitted(p, k));
      counts[K] := counts[K] + 1;
      assert counts[..] == was[K := was[K] + 1];
    }
  }

  /** Pass B: the byte chunks and the histogram of all windows (src/init.cpp:131-202). */
  method BuildHistogramAndX(input: seq<int>, code: seq<nat>, B: nat, k: nat, topw: nat, S: nat, hist: nat,
                            ghost cs: seq<nat>)
    returns (counts: array<nat>, Xs: seq<seq<int>>)
    requires IsBytes(input) && IsCoding(input, code, B) && 1 <= k && topw == Power(B, k - 1) && 1 <= S
    requires (forall i: nat :: i < |input| ==> input[i] <= 253) && hist == Power(B, k)
    requires CodesBelow(cs, B) && |cs| == |input| && forall i: nat :: i < |cs| ==> cs[i] == code[input[i]]
    ensures fresh(counts) && Histogram(counts[..], cs, B, k, |cs|)
    ensures Holds(Xs, S, TextOf(input))
  {
    hide Histogram, Holds, Key, Power, ChunkWriter.Valid, WindowAt, IsCoding;
    var w := new KWin(B, k, topw);
    var out := new ChunkWriter<int>(S);
    counts := new nat[hist](_ => 0);
    NothingSeen(counts[..], w, cs, B, k);
    CodeLength(input, code, B);
    for c := 0 to |input|
      invariant WindowAt(w, cs, B, k, c) && fresh(w) && fresh(w.ring)
      invariant out.Valid() && fresh(out) && fresh(out.buf) && out.written == TextOf(input)[..c]
      invariant fresh(counts) && Histogram(counts[..], cs, B, k, Emitted(c, k))
    {
      var v := input[c];
      assert TextOf(input)[..c + 1] == TextOf(input)[..c] + [v + 1];
      out.Append((1 + v) % 256);
      CountWindow(w, counts, code[v], B, k, cs, c);
    }
    for extra := 0 to k - 1
      invariant WindowAt(w, cs, B, k, |input| + extra) && fresh(w) && fresh(w.ring)
      invariant out.Valid() && fresh(out) && fresh(out.buf) && out.written == TextOf(input)[..|input|]
      invariant fresh(counts) && Histogram(counts[..], cs, B, k, Emitted(|input| + extra, k))
    {
      CountWindow(w, counts, 0, B, k, cs, |input| + extra);
    }
    out.Append(0);
    assert TextOf(input) == TextOf(input)[..|input|] + [0];
    out.Close();
    Xs := out.files;
  }

  lemma CodeLength(input: seq<int>, code: seq<nat>, B: nat)
    requires IsCoding(input, code, B)
    ensures |code| == 256
  {
  }

  lemma NothingSeen(counts: seq<nat>, w: KWin, cs: seq<nat>, B: nat, k: nat)
    requires |counts| == Power(B, k) && forall K: nat :: K < |counts| ==> counts[K] == 0
    requires w.Valid() && w.fed == [] && w.B == B && w.k == k
    ensures Histogram(counts, cs, B, k, 0) && WindowAt(w, cs, B, k, 0)
  {
  }

  /** The bucket starts: how many windows have a smaller key. */
  ghost predicate BucketStarts(starts: seq<nat>, cs: seq<nat>, B: nat, k: nat) {
    |starts| == Power(B, k) && forall K: nat :: K < |starts| ==> starts[K] == CountLess(cs, B, k, |cs|, K)
  }

  /** The cumulative sum in place (src/init.cpp:348-354). */
  method SumInPlace(counts: array<nat>, ghost cs: seq<nat>, ghost B: nat, ghost k: nat)
    requires Histogram(counts[..], cs, B, k, |cs|)
    modifies counts
    ensures BucketStarts(counts[..], cs, B, k)
  {
    ghost var was := counts[..];
    var acc: nat := 0;
    CountLessZero(cs, B, k, |cs|);
    hide CountLess, CountEq, Power;
    for i := 0 to counts.Length
      invariant acc == CountLess(cs, B, k, |cs|, i)
      invariant forall K: nat :: K < i ==> counts[K] == CountLess(cs, B, k, |cs|, K)
      invariant forall K: nat :: i <= K < counts.Length ==> counts[K] == was[K]
    {
      CountLessStep(cs, B, k, |cs|, i);
      var c := counts[i];
      counts[i] := acc;
      acc := acc + c;
    }
  }

  /** The seeded ranks of the first n positions. */
  ghost function SeedRanks(cs: seq<nat>, B: nat, k: nat, n: nat): (r: seq<nat>)
    ensures |r| == n
  {
    seq(n, i requires 0 <= i < n => SeedRank(cs, B, k, i))
  }

  lemma StartsGiveRank(starts: seq<nat>, cs: seq<nat>, B: nat, k: nat, n: nat)
    requires BucketStarts(starts, cs, B, k) && CodesBelow(cs, B) && n < |cs| < I40_LIMIT
    ensures var K := Key(cs, B, n, k);
            K < |starts| && I40(1 + starts[K]) == SeedRank(cs, B, k, n)
    ensures SeedRanks(cs, B, k, n) + [SeedRank(cs, B, k, n)] == SeedRanks(cs, B, k, n + 1)
  {
    var K := Key(cs, B, n, k);
    KeyBound(cs, B, n, k);
    CountLessBound(cs, B, k, |cs|, K, n);
    hide Key, Power, CountLess, CodesBelow;
    ModuloSmall(1 + starts[K], I40_LIMIT);
  }

  /** A position is not below itself, so the count of smaller keys is below the number of positions. */
  lemma {:induction false} CountLessBound(cs: seq<nat>, B: nat, k: nat, n: nat, K: nat, i: nat)
    ensures CountLess(cs, B, k, n, K) <= n
    ensures i < n && Key(cs, B, i, k) >= K ==> CountLess(cs, B, k, n, K) < n
  {
    hide Key;
    if n > 0 {
      CountLessBound(cs, B, k, n - 1, K, i);
    }
  }

  /** Feed a code and append the rank of the position whose window it completes. */
  method RankWindow(w: KWin, out: ChunkWriter<nat>, starts: array<nat>, e: nat, ghost B: nat, ghost k: nat,
                    ghost cs: seq<nat>, ghost p: nat)
    requires WindowAt(w, cs, B, k, p) && e == Code(cs, p) && CodesBelow(cs, B) && |cs| < I40_LIMIT
    requires p + 1 < |cs| + k
    requires starts != w.ring && starts != out.buf && w.ring != out.buf
    requires BucketStarts(starts[..], cs, B, k)
    requires out.Valid() && out.written == SeedRanks(cs, B, k, Emitted(p, k))
    modifies w, w.ring, out, out.buf
    ensures WindowAt(w, cs, B, k, p + 1)
    ensures out.Valid() && out.written == SeedRanks(cs, B, k, Emitted(p + 1, k))
  {
    hide BucketStarts, Key, SeedRanks, SeedRank;
    ghost var table := starts[..];
    var emitPos, K := FeedNext(w, e, cs, B, k, p);
    assert starts[..] == table;
    if emitPos >= 0 {
      StartsGiveRank(table, cs, B, k, Emitted(p, k));
      out.Append(I40(1 + starts[K]));
    }
  }

  /** Pass C: the ranks files (src/init.cpp:209-268). */
  method WriteRanks(input: seq<int>, code: seq<nat>, B: nat, k: nat, topw: nat, S: nat, starts: array<nat>,
                    ghost cs: seq<nat>)
    returns (ranks: seq<seq<nat>>)
    requires IsBytes(input) && IsCoding(input, code, B) && 1 <= k && topw == Power(B, k - 1) && 1 <= S
    requires CodesBelow(cs, B) && |cs| == |input| < I40_LIMIT && forall i: nat :: i < |cs| ==> cs[i] == code[input[i]]
    requires BucketStarts(starts[..], cs, B, k)
    ensures Holds(ranks, S, SeedRanks(cs, B, k, |cs|) + [0])
  {
    hide BucketStarts, Holds, Key, Power, ChunkWriter.Valid, IsCoding, SeedRanks, KWin.Valid, CodesBelow;
    var w := new KWin(B, k, topw);
    var out := new ChunkWriter<nat>(S);
    CodeLength(input, code, B);
    RanksStart(w, cs, B, k);
    ghost var table := starts[..];
    for c := 0 to |input|
      invariant WindowAt(w, cs, B, k, c) && fresh(w) && fresh(w.ring) && starts[..] == table
      invariant out.Valid() && fresh(out) && fresh(out.buf) && out.written == SeedRanks(cs, B, k, Emitted(c, k))
      invariant w.ring != out.buf
    {
      RankWindow(w, out, starts, code[input[c]], B, k, cs, c);
    }
    for extra := 0 to k - 1
      invariant WindowAt(w, cs, B, k, |input| + extra) && fresh(w) && fresh(w.ring) && starts[..] == table
      invariant out.Valid() && fresh(out) && fresh(out.buf)
      invariant out.written == SeedRanks(cs, B, k, Emitted(|input| + extra, k))
      invariant w.ring != out.buf
    {
      RankWindow(w, out, starts, 0, B, k, cs, |input| + extra);
    }
    out.Append(I40(0));
    out.Close();
    ranks := out.files;
  }

  lemma RanksStart(w: KWin, cs: seq<nat>, B: nat, k: nat)
    requires w.Valid() && w.fed == [] && w.B == B && w.k == k
    ensures WindowAt(w, cs, B, k, 0) && SeedRanks(cs, B, k, 0) == []
  {
  }

  // ---- passes 1 and 2 together ----

  /** The codes of the input. */
  function CodesOf(input: seq<int>, code: seq<nat>): (cs: seq<nat>)
    requires |code| == 256 && IsBytes(input)
    ensures |cs| == |input| && forall i: nat :: i < |cs| ==> cs[i] == code[input[i]]
  {
    seq(|input|, i requires 0 <= i < |input| => code[input[i]])
  }

  lemma CodesKeepOrder(input: seq<int>, code: seq<nat>, B: nat)
    requires IsBytes(input) && IsCoding(input, code, B) && B >= 1
    ensures var cs := CodesOf(input, code); CodesBelow(cs, B) && CodesOrder(TextOf(input), cs) && IsText(TextOf(input))
  {
    var cs, t := CodesOf(input, code), TextOf(input);
    forall i: nat | i < |input| ensures 1 <= cs[i] < B {
      assert input[i] in input;
    }
    forall i: nat, j: nat | i < |t| && j < |t| ensures t[i] < t[j] <==> Code(cs, i) < Code(cs, j) {
      if i < |input| && j < |input| {
        var b: nat, d: nat := input[i], input[j];
        assert b in input && d in input;
      }
    }
  }

  /** The ranks written are the ranks at prefix length k. */
  lemma SeededRanks(t: seq<int>, cs: seq<nat>, B: nat, k: nat)
    requires IsText(t) && CodesOrder(t, cs) && CodesBelow(cs, B) && 1 <= k && 1 <= |cs|
    ensures RanksAt(t, k, SeedRanks(cs, B, k, |cs|) + [0])
  {
    forall i: nat | i < |cs| ensures SeedRank(cs, B, k, i) == Rank(t, k, i) {
      SeedRankIsRank(t, cs, B, k, i);
    }
    SeedRankIsRank(t, cs, B, k, 0);
  }

  /** The prefix length of the first ranks: the largest k of at least 1 for which a table of all k-symbol
      keys over the symbols used, and the padding, has at most S entries. */
  ghost predicate SeedLength(input: seq<int>, S: nat, k: nat)
    requires IsBytes(input)
  {
    1 <= k && (k > 1 ==> Power(Base(input), k) <= S) && S < Power(Base(input), k + 1)
  }

  /** No other length will do. */
  lemma SeedLengthUnique(input: seq<int>, S: nat, k: nat, k': nat)
    requires IsBytes(input) && input != [] && SeedLength(input, S, k) && SeedLength(input, S, k')
    ensures k == k'
  {
    BaseOfInput(input);
    if k < k' {
      PowerRises(Base(input), k + 1, k');
    } else if k' < k {
      PowerRises(Base(input), k' + 1, k);
    }
  }

  lemma {:induction false} PowerRises(B: nat, m: nat, n: nat)
    requires B >= 2 && m <= n
    ensures Power(B, m) <= Power(B, n)
  {
    if m < n {
      PowerRises(B, m, n - 1);
      PowerStep(B, n);
      MoreThanDoubles(Power(B, n - 1), B);
    }
  }

  /** run_passes_1_and_2: for every non-empty input of bytes up to 253 the byte chunks hold the text and
      the rank files hold the rank of every position at prefix length k; other bytes are refused. */
  method RunPasses1And2(input: seq<int>, S: nat)
    returns (st: Status, Xs: seq<seq<int>>, ranks: seq<seq<nat>>, k: nat, ghost rank: seq<nat>)
    requires IsBytes(input) && 1 <= |input| < I40_LIMIT && 1 <= S
    ensures st == if exists i: nat :: i < |input| && input[i] > 253 then FAILURE else SUCCESS
    ensures st == SUCCESS ==>
              && IsText(TextOf(input)) && Holds(Xs, S, TextOf(input))
              && 1 <= k && RanksAt(TextOf(input), k, rank) && Holds(ranks, S, rank)
              && (k > 1 ==> 4 <= S)
    ensures st == SUCCESS ==> SeedLength(input, S, k)
  {
    hide IsCoding, Histogram, BucketStarts, CodesOrder, CodesBelow, RanksAt, Holds, Power, SeedRanks, IsText;
    var code, B;
    st, code, B := AssignCodes(input);
    Xs, ranks, k, rank := [], [], 0, [];
    if st == FAILURE {
      return;
    }
    BaseOfInput(input);
    CodeLength(input, code, B);
    ghost var cs := CodesOf(input, code);
    CodesKeepOrder(input, code, B);
    var hist, topw;
    k, hist, topw := ChooseK(B, S);
    if k > 1 {
      SecondPower(B, k);
    }
    var counts;
    counts, Xs := BuildHistogramAndX(input, code, B, k, topw, S, hist, cs);
    SumInPlace(counts, cs, B, k);
    ranks := WriteRanks(input, code, B, k, topw, S, counts, cs);
    SeededRanks(TextOf(input), cs, B, k);
    rank := SeedRanks(cs, B, k, |cs|) + [0];
  }
}
