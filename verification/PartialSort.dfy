/** Pass 3 of init (src/init.cpp:385-541): chunk after chunk from the last to the first, rewrite the
    chunk so that its plain suffix order is the order in the whole text, and sort it. */
module PartialSort {
  import opened SuffixOrder
  import opened RangeMatching
  import opened Chunks
  import opened RunLength

  // ---- the Z transform ----

  /** Whether symbol j of the chunk x is raised by one; gt is gt_eof of the chunk. */
  predicate Raised(x: seq<int>, gt: seq<bool>, j: nat)
    requires j < |x| <= |gt|
  {
    x[j] >= 1 &&
    (j == |x| - 1 || x[j] > x[|x| - 1] || (x[j] == x[|x| - 1] && gt[j + 1]))
  }

  /** z is the chunk x after the transform. */
  ghost predicate IsTransformed(x: seq<int>, gt: seq<bool>, z: seq<int>)
  {
    |z| == |x| <= |gt| && forall j: nat :: j < |x| ==> z[j] == if Raised(x, gt, j) then x[j] + 1 else x[j]
  }

  /** The chunk x stands at b in the text, does not reach its end, and gt says which suffixes that
      start inside it are above the one that starts right behind it. */
  ghost predicate ChunkInText(t: seq<int>, b: nat, x: seq<int>, gt: seq<bool>)
  {
    && 1 <= |x| <= |gt| && b + |x| < |t| && t[b..b + |x|] == x
    && (forall j: nat :: j < |x| ==> x[j] >= 1)
    && forall j: nat :: 1 <= j < |x| ==> (gt[j] <==> SuffixLess(t, b + |x|, b + j))
  }

  /** Different rewritten symbols already decide the order in the text. */
  lemma TransformedSymbolDecides(t: seq<int>, b: nat, x: seq<int>, gt: seq<bool>, z: seq<int>, i: nat, j: nat)
    requires ChunkInText(t, b, x, gt) && IsTransformed(x, gt, z)
    requires i < |x| && j < |x| && z[i] < z[j]
    ensures SuffixLess(t, b + i, b + j)
  {
    var e := b + |x|;
    assert t[b + i] == x[i] && t[b + j] == x[j];
    if x[i] == x[j] {
      assert !Raised(x, gt, i) && Raised(x, gt, j);
      assert i < |x| - 1 && !gt[i + 1];
      assert !SuffixLess(t, e, b + i + 1);
      LessTotal(t, |t|, e, b + i + 1);
      if j < |x| - 1 {
        assert SuffixLess(t, e, b + j + 1);
        LessTransitive(t, |t|, b + i + 1, e, b + j + 1);
      }
    }
  }

  lemma TransformedSymbolKeepsSymbol(x: seq<int>, gt: seq<bool>, z: seq<int>, i: nat, j: nat)
    requires IsTransformed(x, gt, z) && i < |x| && j < |x| && z[i] == z[j]
    requires x[i] >= 1 && x[j] >= 1
    ensures x[i] == x[j]
  {
  }

  /** The point of the transform: plain suffix order of the rewritten chunk, with its end below every
      symbol, is the order of the suffixes in the whole text. */
  lemma {:induction false} TransformedOrder(t: seq<int>, b: nat, x: seq<int>, gt: seq<bool>, z: seq<int>, i: nat,
                                            j: nat)
    requires ChunkInText(t, b, x, gt) && IsTransformed(x, gt, z)
    requires i < |x| && j < |x|
    ensures Less(z, |x|, i, j) == SuffixLess(t, b + i, b + j)
    decreases |x| - i
  {
    var last, e := |x| - 1, b + |x|;
    assert t[b + i] == x[i] && t[b + j] == x[j];
    if z[i] < z[j] {
      TransformedSymbolDecides(t, b, x, gt, z, i, j);
    } else if z[j] < z[i] {
      TransformedSymbolDecides(t, b, x, gt, z, j, i);
      LessTotal(t, |t|, b + i, b + j);
    } else {
      TransformedSymbolKeepsSymbol(x, gt, z, i, j);
      LessTotal(t, |t|, b + i, b + j);
      if i == j {
        LessTotal(z, |x|, i, j);
      } else if i < last && j < last {
        TransformedOrder(t, b, x, gt, z, i + 1, j + 1);
      } else if i == last {
        assert Raised(x, gt, j) && gt[j + 1];
      } else {
        assert Raised(x, gt, i) && gt[i + 1];
        LessTotal(t, |t|, e, b + i + 1);
      }
    }
  }

  /** The transform in place (src/init.cpp:434-441), with the cast to a byte. */
  method ZTransform(X: array<int>, n: nat, gt: seq<bool>)
    requires 1 <= n <= X.Length && n <= |gt|
    requires forall j: nat :: j < n ==> 1 <= X[j] <= 254
    modifies X
    ensures IsTransformed(old(X[..n]), gt, X[..n])
    ensures forall k :: n <= k < X.Length ==> X[k] == old(X[k])
  {
    ghost var x := X[..n];
    var last := X[n - 1];
    for j := 0 to n
      invariant forall k: nat :: k < j ==> X[k] == if Raised(x, gt, k) then x[k] + 1 else x[k]
      invariant forall k: nat :: j <= k < n ==> X[k] == x[k]
      invariant forall k :: n <= k < X.Length ==> X[k] == old(X[k])
    {
      if X[j] >= 1 && (j == n - 1 || X[j] > last || (X[j] == last && gt[j + 1])) {
        X[j] := (X[j] + 1) % 256;
      }
    }
  }

  // ---- divsufsort ----

  lemma InsertKeepsSorted(x: seq<int>, sa: seq<nat>, k: nat, p: nat)
    requires SuffixSorted(x, 0, sa) && k <= |sa| && p < |x| && p !in sa
    requires k > 0 ==> Less(x, |x|, sa[k - 1], p)
    requires k < |sa| ==> !Less(x, |x|, sa[k], p)
    ensures SuffixSorted(x, 0, sa[..k] + [p] + sa[k..])
  {
    hide Less;
    forall m: nat | m < k ensures SuffixLess(x, 0 + sa[m], 0 + p) {
      if m < k - 1 {
        LessTransitive(x, |x|, sa[m], sa[k - 1], p);
      }
    }
    forall m: nat | k <= m < |sa| ensures SuffixLess(x, 0 + p, 0 + sa[m]) {
      LessTotal(x, |x|, p, sa[k]);
      if k < m {
        LessTransitive(x, |x|, p, sa[k], sa[m]);
      }
    }
    InsertedSorted(x, sa, k, p);
  }

  lemma InsertedSorted(x: seq<int>, sa: seq<nat>, k: nat, p: nat)
    requires SuffixSorted(x, 0, sa) && k <= |sa| && p < |x|
    requires forall m: nat :: m < k ==> SuffixLess(x, 0 + sa[m], 0 + p)
    requires forall m: nat :: k <= m < |sa| ==> SuffixLess(x, 0 + p, 0 + sa[m])
    ensures SuffixSorted(x, 0, sa[..k] + [p] + sa[k..])
  {
    hide SuffixLess;
    var sa' := sa[..k] + [p] + sa[k..];
    forall m: nat | m < |sa'| ensures sa'[m] == if m < k then sa[m] else if m == k then p else sa[m - 1] {
    }
    forall i: nat, j: nat | i < j < |sa'| ensures SuffixLess(x, 0 + sa'[i], 0 + sa'[j]) {
      var i', j' := if i < k then i else i - 1, if j < k then j else j - 1;
    }
  }

  /** Stands for divsufsort: the suffix array of a byte string, with its end below every symbol. */
  method DivSufSort(x: seq<int>) returns (sa: seq<nat>)
    ensures PartialSuffixArray(x, 0, |x|, sa)
  {
    sa := [];
    for p := 0 to |x|
      invariant |sa| == p && SuffixSorted(x, 0, sa)
      invariant forall q: nat :: q in sa <==> q < p
    {
      var k := 0;
      while k < |sa| && Less(x, |x|, sa[k], p)
        invariant k <= |sa|
        invariant k > 0 ==> Less(x, |x|, sa[k - 1], p)
      {
        k := k + 1;
      }
      InsertKeepsSorted(x, sa, k, p);
      ghost var was := sa;
      sa := sa[..k] + [p] + sa[k..];
      assert was == was[..k] + was[k..];
      assert forall q: nat :: q in sa <==> q in was || q == p;
    }
  }

  // ---- one chunk of the reverse pass ----

  lemma JoinedIsSuffix(t: seq<int>, b: nat, m: nat, n: nat)
    requires b + m + n <= |t|
    ensures Joined(t[b..b + m], t[b + m..b + m + n], t[b + m + n..]) == t[b..]
  {
  }

  /** gt_head of the chunk behind, right for the whole text, is right for the text from b on. */
  lemma GtHeadShift(t: seq<int>, b: nat, m: nat, n: nat, gtHead: seq<bool>)
    requires b + m + n <= |t| && GtHeadBits(gtHead, t, b + m, n)
    ensures GtHeadBits(gtHead, t[b..], m, n)
  {
    var w := t[b..];
    forall e: nat | e < n ensures GtHeadBit(gtHead, w, m, n, e) {
      assert GtHeadBit(gtHead, t, b + m, n, e);
      DropKeepsOrder(t, b, m, m + e);
    }
  }

  /** gt_eof of a chunk, computed from the raw chunk behind it, is right for the whole text at every
      position but the first: a whole copy of the next chunk fits inside this one only there. */
  lemma GtEofInText(t: seq<int>, b: nat, m: nat, n: nat, bits: seq<bool>)
    requires b + m + n <= |t| && (b + m + n < |t| ==> m <= n) && 1 <= m <= |bits|
    requires GtBits(bits, t[b..b + m], t[b + m..b + m + n], t[b + m + n..], m)
    ensures forall j: nat :: 1 <= j < m ==> (bits[j] <==> SuffixLess(t, b + m, b + j))
  {
    var B, A, tail := t[b..b + m], t[b + m..b + m + n], t[b + m + n..];
    JoinedIsSuffix(t, b, m, n);
    forall j: nat | 1 <= j < m ensures bits[j] <==> SuffixLess(t, b + m, b + j) {
      assert bits[j] <==> Answer(B, A, tail, j);
      AnswerIsRight(B, A, tail, j);
      DropKeepsOrder(t, b, m, j);
    }
  }

  /** gt_head computed on the string z is gt_head for the whole text when z orders like the text. */
  lemma GtHeadInText(t: seq<int>, b: nat, z: seq<int>, bits: seq<bool>)
    requires b + |z| <= |t| && GtHeadBits(bits, z, 0, |z|)
    requires OrdersLikeText(t, b, z)
    ensures GtHeadBits(bits, t, b, |z|)
  {
    forall e: nat | e < |z| ensures GtHeadBit(bits, t, b, |z|, e) {
      assert GtHeadBit(bits, z, 0, |z|, e);
      assert SuffixLess(z, 0, e) == SuffixLess(t, b + 0, b + e);
    }
  }

  /** Plain suffix order of z is the order of the suffixes of t that start at b, b + 1, ... */
  ghost predicate OrdersLikeText(t: seq<int>, b: nat, z: seq<int>)
  {
    b + |z| <= |t| &&
    forall i: nat, j: nat :: i < |z| && j < |z| ==> SuffixLess(z, i, j) == SuffixLess(t, b + i, b + j)
  }

  lemma TransformedOrdersLikeText(t: seq<int>, b: nat, x: seq<int>, gt: seq<bool>, z: seq<int>)
    requires ChunkInText(t, b, x, gt) && IsTransformed(x, gt, z)
    ensures OrdersLikeText(t, b, z)
  {
    forall i: nat, j: nat | i < |z| && j < |z| ensures SuffixLess(z, i, j) == SuffixLess(t, b + i, b + j) {
      TransformedOrder(t, b, x, gt, z, i, j);
    }
  }

  lemma LastChunkOrdersLikeText(t: seq<int>, b: nat)
    requires b <= |t|
    ensures OrdersLikeText(t, b, t[b..])
  {
    var z := t[b..];
    forall i: nat, j: nat | i < |z| && j < |z| ensures SuffixLess(z, i, j) == SuffixLess(t, b + i, b + j) {
      DropKeepsOrder(t, b, i, j);
    }
  }

  lemma SortedInText(t: seq<int>, b: nat, z: seq<int>, sa: seq<nat>)
    requires OrdersLikeText(t, b, z) && PartialSuffixArray(z, 0, |z|, sa)
    ensures PartialSuffixArray(t, b, |z|, sa)
  {
    forall k: nat, m: nat | k < m < |sa| ensures SuffixLess(t, b + sa[k], b + sa[m]) {
      assert SuffixLess(z, 0 + sa[k], 0 + sa[m]);
    }
  }

  method ReadAll(file: seq<int>, buf: array<int>)
    requires |file| <= buf.Length
    modifies buf
    ensures buf[..|file|] == file
  {
    for k := 0 to |file|
      invariant buf[..k] == file[..k]
    {
      buf[k] := file[k];
    }
  }

  /** The body of the reverse loop for a chunk that has a chunk A behind it (src/init.cpp:419-451). */
  method TransformChunk(X: array<int>, n: nat, A: seq<int>, gtHead: seq<bool>, ghost t: seq<int>, ghost b: nat)
    requires 1 <= n <= X.Length && b + n + |A| <= |t| && 1 <= |A|
    requires X[..n] == t[b..b + n] && A == t[b + n..b + n + |A|]
    requires b + n + |A| < |t| ==> n <= |A|
    requires GtHeadBits(gtHead, t, b + n, |A|)
    requires forall j: nat :: j < n ==> 1 <= X[j] <= 254
    modifies X
    ensures OrdersLikeText(t, b, X[..n])
  {
    hide GtHeadBits, GtBits, SuffixLess, OrdersLikeText, IsTransformed, Joined;
    ghost var x := X[..n];
    ghost var tail := t[b + n + |A|..];
    JoinedIsSuffix(t, b, n, |A|);
    GtHeadShift(t, b, n, |A|, gtHead);
    var gtEof := new bool[n](_ => false);
    ghost var steps, work := ComputeGtEof(A, X[..n], gtHead, gtEof, tail);
    GtEofInText(t, b, n, |A|, gtEof[..]);
    assert ChunkInText(t, b, x, gtEof[..]);
    ZTransform(X, n, gtEof[..]);
    TransformedOrdersLikeText(t, b, x, gtEof[..], X[..n]);
  }

  /** What pass 3 leaves of chunk c: its partial suffix array in the order of the whole text, and the
      current ranks in that order as a record stream. */
  ghost predicate ChunkSeeded(t: seq<int>, S: nat, c: nat, n: nat, ranks: seq<nat>, sa: seq<nat>,
                              currents: seq<RankRun>)
  {
    && |ranks| == n && PartialSuffixArray(t, Global(S, c, 0), n, sa)
    && currents == EncodeAll(RunsOf(Gather(ranks, sa)))
  }

  /** One iteration of the reverse loop: gtHead is what the chunk behind has saved, gtHead' what this
      one saves. */
  method SeedChunk(X: array<int>, Xs: seq<seq<int>>, ranks: seq<seq<nat>>, S: nat, c: nat, gtHead: seq<bool>,
                   ghost t: seq<int>)
    returns (gtHead': seq<bool>, sa: seq<nat>, currents: seq<RankRun>)
    requires IsText(t) && Holds(Xs, S, t) && c < |Xs| == |ranks| && |ranks[c]| == |Xs[c]| && X.Length == S
    requires forall i: nat :: i < |t| ==> t[i] <= 254
    requires c + 1 < |Xs| ==> Global(S, c + 1, 0) + |Xs[c + 1]| <= |t| &&
                              GtHeadBits(gtHead, t, Global(S, c + 1, 0), |Xs[c + 1]|)
    modifies X
    ensures Global(S, c, 0) + |Xs[c]| <= |t|
    ensures |Xs| > 1 ==> |gtHead'| == |Xs[c]| && GtHeadBits(gtHead', t, Global(S, c, 0), |Xs[c]|)
    ensures ChunkSeeded(t, S, c, |Xs[c]|, ranks[c], sa, currents)
  {
    hide GtHeadBits, OrdersLikeText, PartialSuffixArray, Global, IsText;
    ghost var b := Global(S, c, 0);
    ChunkStretch(Xs, S, t, c);
    var n := |Xs[c]|;
    ReadAll(Xs[c], X);
    if c + 1 < |Xs| {
      ChunkStretch(Xs, S, t, c + 1);
      SymbolsInside(t, b, n);
      TransformChunk(X, n, Xs[c + 1], gtHead, t, b);
    } else {
      LastChunkOrdersLikeText(t, b);
      assert X[..n] == t[b..];
    }
    var x := X[..n];
    gtHead' := [];
    if |Xs| > 1 {
      var bv := new bool[n](_ => false);
      var rank;
      ghost var steps, work;
      rank, steps, work := ComputeNewGtHead(x, bv);
      gtHead' := bv[..];
      GtHeadInText(t, b, x, gtHead');
    }
    sa := DivSufSort(x);
    SortedInText(t, b, x, sa);
    PartialSuffixArrayBounds(t, b, n, sa);
    var capacity := if S / 3 < 2 then 2 else S / 3;
    var room;
    room, currents := EmitRunsOf(ranks[c], sa, capacity);
  }

  lemma SymbolsInside(t: seq<int>, b: nat, n: nat)
    requires IsText(t) && b + n < |t| && forall i: nat :: i < |t| ==> t[i] <= 254
    ensures var x := t[b..b + n]; forall j: nat :: j < n ==> 1 <= x[j] <= 254
  {
  }

  lemma PartialSuffixArrayBounds(t: seq<int>, b: nat, n: nat, sa: seq<nat>)
    requires PartialSuffixArray(t, b, n, sa)
    ensures |sa| == n && forall k: nat :: k < n ==> sa[k] < n
  {
  }

  /** run_pass_3: every chunk gets its true partial suffix array, its currents stream, and the window
      that covers it. */
  method RunPass3(Xs: seq<seq<int>>, ranks: seq<seq<nat>>, S: nat, ghost t: seq<int>)
    returns (sas: seq<seq<nat>>, currents: seq<seq<RankRun>>, lo: seq<int>, hi: seq<int>)
    requires IsText(t) && Holds(Xs, S, t) && Shape(ranks, S, |t|) && |ranks| == |Xs|
    requires forall i: nat :: i < |t| ==> t[i] <= 254
    ensures |sas| == |currents| == |lo| == |hi| == |Xs|
    ensures forall c: nat :: c < |Xs| ==> ChunkSeeded(t, S, c, |Xs[c]|, ranks[c], sas[c], currents[c])
    ensures forall c: nat :: c < |Xs| ==> lo[c] == 0 && hi[c] == |Xs[c]| - 1
  {
    hide GtHeadBits, ChunkSeeded, IsText, Holds;
    var X := new int[S];
    var gtHead: seq<bool> := [];
    sas, currents := seq(|Xs|, _ => []), seq(|Xs|, _ => []);
    lo, hi := seq(|Xs|, _ => 0), seq(|Xs|, _ => 0);
    var c: nat := |Xs|;
    while c > 0
      invariant c <= |Xs| && |sas| == |currents| == |lo| == |hi| == |Xs|
      invariant 0 < c < |Xs| ==> Global(S, c, 0) + |Xs[c]| <= |t| && GtHeadBits(gtHead, t, Global(S, c, 0), |Xs[c]|)
      invariant forall d: nat :: c <= d < |Xs| ==> ChunkSeeded(t, S, d, |Xs[d]|, ranks[d], sas[d], currents[d])
      invariant forall d: nat :: c <= d < |Xs| ==> lo[d] == 0 && hi[d] == |Xs[d]| - 1
    {
      c := c - 1;
      SameShape(Xs, ranks, S, t, c);
      var sa, cur;
      gtHead, sa, cur := SeedChunk(X, Xs, ranks, S, c, gtHead, t);
      sas, currents := sas[c := sa], currents[c := cur];
      lo, hi := lo[c := 0], hi[c := |Xs[c]| - 1];
    }
  }

  lemma SameShape(Xs: seq<seq<int>>, ranks: seq<seq<nat>>, S: nat, t: seq<int>, c: nat)
    requires Holds(Xs, S, t) && Shape(ranks, S, |t|) && |ranks| == |Xs| && c < |Xs|
    ensures |ranks[c]| == |Xs[c]|
  {
  }
}
