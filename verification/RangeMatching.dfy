/** Crochemore's string range matching as src/srank.hpp runs it: which suffixes are above a pattern. */
module RangeMatching {
  import opened Arithmetic
  import opened SuffixOrder
  import opened MaximalSuffix

  // ---- the periodic case ----

  /** The test of the matcher: p is a period of the part from s on, and the first s symbols
      repeat after p as well. */
  ghost predicate LooksPeriodic(x: seq<int>, el: nat, s: nat, p: nat)
  {
    0 < p && 3 * p <= el <= |x| && s + p <= el && Match(x, 0, p, s)
  }

  /** A period of the whole prefix pulls the maximal suffix into its first occurrence. */
  lemma MaximalStartsEarly(x: seq<int>, n: nat, s: nat, q: nat)
    requires s < n <= |x| && StartsMaximal(x, s, n) && IsPeriod(x, 0, n, q)
    ensures s < q
  {
    if q <= s {
      var j, d := s - q, n - s;
      assert Match(x, s, j, d) by {
        forall k: nat | k < d ensures Agree(x, s, j, k) {
          PeriodStep(x, 0, n, q, j + k);
        }
      }
      LessSkip(x, n, s, j, d);
      LessTotal(x, n, s, j);
    }
  }

  /** When the test succeeds, p is the smallest period of the whole prefix. */
  lemma PeriodicPrefix(x: seq<int>, el: nat, s: nat, p: nat, r: nat)
    requires MaximalState(x, el, s, p, r) && LooksPeriodic(x, el, s, p)
    ensures SmallestPeriod(x, 0, el, p) && s < p
  {
    forall k: nat | k < el - p ensures Agree(x, 0, p, k) {
      if k < s {
      } else {
        PeriodStep(x, s, el, p, k);
      }
    }
    forall q: nat | q < p ensures !IsPeriod(x, 0, el, q) {
      if IsPeriod(x, 0, el, q) {
        PeriodOfSuffix(x, 0, el, s, q);
      }
    }
    MaximalStartsEarly(x, el, s, p);
  }

  /** A prefix of a self-maximal string is self-maximal. */
  lemma PrefixSelfMaximal(x: seq<int>, s: nat, n: nat, m: nat)
    requires SelfMaximal(x, s, n) && s < m <= n
    ensures SelfMaximal(x, s, m)
  {
    forall j: nat | s < j < m ensures Less(x, m, j, s) {
      var d := CommonPrefix(x, m, j, s);
      assert Less(x, n, j, s);
      if j + d < m {
        LessAtMismatch(x, n, j, s, d);
      }
    }
  }

  /** A prefix of a self-maximal string that holds its smallest period has no smaller one: where the
      smaller one first fails the next symbol drops, and after a drop there is no border left. */
  lemma PrefixKeepsSmallestPeriod(x: seq<int>, s: nat, n: nat, p: nat, m: nat, q: nat)
    requires SelfMaximal(x, s, n) && SmallestPeriod(x, s, n, p)
    requires s + p <= m <= n && q < p
    ensures !IsPeriod(x, s, m, q)
    decreases n - m
  {
    if IsPeriod(x, s, m, q) {
      assert m < n;
      PrefixSelfMaximal(x, s, n, m);
      PrefixSelfMaximal(x, s, n, m + 1);
      PeriodExtends(x, s, m, q);
      PrefixKeepsSmallestPeriod(x, s, n, p, m + 1, q);
      assert x[m] != x[m - q];
      PeriodNeverBroken(x, s, m, q);
      var b, u := m - s - p, s + p;
      PeriodOfPrefix(x, s, n, m + 1, p);
      assert Match(x, s, u, b) by {
        PeriodOfPrefix(x, s, m + 1, m, p);
      }
      AfterBorder(x, s, m, q, b);
      PeriodStep(x, s, m + 1, p, m - p);
    }
  }

  /** In a self-maximal string the symbol after a period is no larger than the period predicts. */
  lemma PeriodNeverBroken(x: seq<int>, s: nat, m: nat, q: nat)
    requires m < |x| && SelfMaximal(x, s, m + 1) && IsPeriod(x, s, m, q)
    ensures x[m] <= x[m - q]
  {
    var j, d := s + q, m - s - q;
    assert Match(x, j, s, d) by {
      forall k: nat | k < d ensures Agree(x, j, s, k) {
        assert Agree(x, s, j, k);
      }
    }
    assert j < m + 1;
    assert Less(x, m + 1, j, s);
    LessSkip(x, m + 1, j, s, d);
  }

  /** After a shift by a whole period the state is right for the shorter prefix, unchanged. */
  lemma PeriodicShift(x: seq<int>, el: nat, s: nat, p: nat, r: nat)
    requires MaximalState(x, el, s, p, r) && LooksPeriodic(x, el, s, p)
    ensures MaximalState(x, el - p, s, p, r)
  {
    PeriodicPrefix(x, el, s, p, r);
    var n := el - p;
    PrefixSelfMaximal(x, s, el, n);
    forall j: nat | j < n && j != s ensures Less(x, n, j, s) {
      if j < s {
        ShiftKeepsEarlierBelow(x, el, s, p, j);
      }
    }
    PeriodOfPrefix(x, s, el, n, p);
    forall q: nat | q < p ensures !IsPeriod(x, s, n, q) {
      PrefixKeepsSmallestPeriod(x, s, el, p, n, q);
    }
    ModuloBack(el - s, p);
  }

  lemma ShiftKeepsEarlierBelow(x: seq<int>, el: nat, s: nat, p: nat, j: nat)
    requires j < s < p && 3 * p <= el <= |x| && IsPeriod(x, 0, el, p) && Less(x, el, j, s)
    ensures Less(x, el - p, j, s)
  {
    var d := CommonPrefix(x, el, j, s);
    if p <= d {
      assert Agree(x, j, s, d - p);
      PeriodStep(x, 0, el, p, j + d - p);
      PeriodStep(x, 0, el, p, s + d - p);
    }
    LessAtMismatch(x, el - p, j, s, d);
  }

  // ---- the other case ----

  /** When the test fails, no k up to a third of the prefix is a period of it. */
  lemma NoShortPeriod(x: seq<int>, el: nat, s: nat, p: nat, r: nat, k: nat)
    requires MaximalState(x, el, s, p, r) && IsPeriod(x, 0, el, k) && 3 * k <= el
    ensures LooksPeriodic(x, el, s, p)
  {
    MaximalStartsEarly(x, el, s, k);
    PeriodOfSuffix(x, 0, el, s, k);
    assert p <= k;
    forall j: nat | j < s ensures Agree(x, 0, p, j) {
      PeriodStep(x, 0, el, k, j);
      PeriodStep(x, s, el, p, j + k);
      PeriodStep(x, 0, el, k, j + p);
    }
  }

  // ---- skipping ----

  ghost predicate SymbolAt(t: seq<int>, i: nat, x: seq<int>, c: nat)
    requires i + c < |t| && c < |x|
  {
    t[i + c] == x[c]
  }

  /** The first el symbols of x stand at i in t. */
  ghost predicate Occurs(t: seq<int>, i: nat, x: seq<int>, el: nat)
  {
    el <= |x| && i + el <= |t| && forall c: nat :: c < el ==> SymbolAt(t, i, x, c)
  }

  lemma FirstBreak(x: seq<int>, el: nat, k: nat) returns (d: nat)
    requires 1 <= k <= el <= |x| && !IsPeriod(x, 0, el, k)
    ensures k <= d < el && x[d] != x[d - k] && Match(x, 0, k, d - k)
  {
    d := k;
    while d < el && x[d] == x[d - k]
      invariant k <= d <= el && Match(x, 0, k, d - k)
    {
      d := d + 1;
    }
  }

  /** Where x[..el) stands at i, the suffix k further on is decided against x inside the match. */
  lemma DecidedInside(t: seq<int>, a: nat, i: nat, x: seq<int>, el: nat, k: nat, d: nat)
    requires Occurs(t, a, x, el) && Occurs(t, i, x, el)
    requires 1 <= k <= d < el && x[d] != x[d - k] && Match(x, 0, k, d - k)
    ensures SuffixLess(t, a, i + k) <==> x[d - k] < x[d]
    ensures !Occurs(t, i + k, x, |x|)
  {
    var u, e := i + k, d - k;
    forall c: nat | c < e ensures Agree(t, a, u, c) {
      assert SymbolAt(t, a, x, c) && SymbolAt(t, i, x, k + c) && Agree(x, 0, k, c);
    }
    assert SymbolAt(t, a, x, e) && SymbolAt(t, i, x, k + e);
    LessAtMismatch(t, |t|, a, u, e);
    assert !SymbolAt(t, u, x, e);
  }

  /** What the matcher knows of one position: the match there, and the state of the matched prefix. */
  ghost predicate Matched(t: seq<int>, nb: nat, i: nat, x: seq<int>, el: nat, s: nat, p: nat, r: nat)
  {
    && i + el <= nb <= |t| && Occurs(t, i, x, el)
    && (el == 0 ==> s == 0 && p == 0)
    && (el > 0 ==> MaximalState(x, el, s, p, r))
  }

  /** How far the matcher moves on from a match of length el. */
  ghost function SkipLength(x: seq<int>, el: nat, s: nat, p: nat): (h: nat)
    ensures 1 <= h
  {
    if LooksPeriodic(x, el, s, p) then p else el / 3 + 1
  }

  lemma NoPeriodBelowSkip(x: seq<int>, el: nat, s: nat, p: nat, r: nat, k: nat)
    requires MaximalState(x, el, s, p, r) && 1 <= k < SkipLength(x, el, s, p)
    ensures k < el && !IsPeriod(x, 0, el, k)
  {
    if LooksPeriodic(x, el, s, p) {
      PeriodicPrefix(x, el, s, p, r);
    } else if IsPeriod(x, 0, el, k) {
      NoShortPeriod(x, el, s, p, r, k);
    }
  }

  /** Two overlapping matches of the same prefix make their distance a period of it. */
  lemma OverlapIsPeriod(t: seq<int>, j: nat, i: nat, x: seq<int>, el: nat)
    requires j < i <= j + el && Occurs(t, j, x, el) && Occurs(t, i, x, el)
    ensures IsPeriod(x, 0, el, i - j)
  {
    var q := i - j;
    forall k: nat | k < el - q ensures Agree(x, 0, q, k) {
      assert SymbolAt(t, i, x, k) && SymbolAt(t, j, x, q + k);
    }
  }

  /** Skipping is sound: inside the skip the answer at i + k is the answer at j + k, which is
      already known, and it does not depend on what follows the match. */
  lemma SkipCopies(t: seq<int>, nb: nat, a: nat, j: nat, i: nat, x: seq<int>, el: nat,
                   s: nat, p: nat, r: nat, k: nat)
    requires Matched(t, nb, i, x, el, s, p, r) && Occurs(t, j, x, el) && Occurs(t, a, x, el)
    requires el > 0 ==> j < i
    requires 1 <= k < SkipLength(x, el, s, p)
    ensures j + k < i && i + k < nb
    ensures SuffixLess(t, a, i + k) == SuffixLess(t, a, j + k)
    ensures !Occurs(t, i + k, x, |x|) && !Occurs(t, j + k, x, |x|)
  {
    NoPeriodBelowSkip(x, el, s, p, r, k);
    if i <= j + k {
      NoPeriodBelowSkip(x, el, s, p, r, i - j);
      OverlapIsPeriod(t, j, i, x, el);
    }
    var d := FirstBreak(x, el, k);
    DecidedInside(t, a, i, x, el, k, d);
    DecidedInside(t, a, j, x, el, k, d);
  }

  // ---- compute_gt_eof_bv ----

  /** The text around the boundary: B, the pattern A right after it, and what follows A. */
  ghost function Joined(B: seq<int>, A: seq<int>, tail: seq<int>): (t: seq<int>)
    ensures |t| == |B| + |A| + |tail|
  {
    B + A + tail
  }

  /** The suffix at i is above the one that starts with A. */
  ghost predicate Above(B: seq<int>, A: seq<int>, tail: seq<int>, i: nat)
    requires i <= |B|
  {
    SuffixLess(Joined(B, A, tail), |B|, i)
  }

  /** What the matcher answers at i: it sees B and A alone, and takes a whole copy of A for above. */
  ghost predicate Answer(B: seq<int>, A: seq<int>, tail: seq<int>, i: nat)
    requires i <= |B|
  {
    Occurs(B, i, A, |A|) || Above(B, A, tail, i)
  }

  /** The first n bits are the answers. */
  ghost predicate GtBits(bits: seq<bool>, B: seq<int>, A: seq<int>, tail: seq<int>, n: nat)
    requires n <= |bits| && n <= |B|
  {
    forall q: nat :: q < n ==> (bits[q] <==> Answer(B, A, tail, q))
  }

  /** The bits of gt_head, stored right to left: which suffixes that start in A are above the whole A tail. */
  ghost predicate GtHeadBits(bits: seq<bool>, t: seq<int>, a: nat, m: nat)
    requires a + m <= |t|
  {
    m <= |bits| && forall e: nat :: e < m ==> GtHeadBit(bits, t, a, m, e)
  }

  ghost predicate GtHeadBit(bits: seq<bool>, t: seq<int>, a: nat, m: nat, e: nat)
    requires a + e <= |t| && e < m <= |bits|
  {
    bits[m - 1 - e] <==> SuffixLess(t, a, a + e)
  }

  ghost predicate AllFalse(bits: seq<bool>, lo: nat)
  {
    forall q: nat :: lo <= q < |bits| ==> !bits[q]
  }

  lemma OccursInText(B: seq<int>, A: seq<int>, tail: seq<int>, i: nat, el: nat)
    requires el <= |A| && i + el <= |B|
    ensures Occurs(B, i, A, el) <==> Occurs(Joined(B, A, tail), i, A, el)
  {
    var t := Joined(B, A, tail);
    assert forall c: nat :: c < el ==> SymbolAt(B, i, A, c) == SymbolAt(t, i, A, c);
  }

  lemma PatternInText(B: seq<int>, A: seq<int>, tail: seq<int>, el: nat)
    requires el <= |A|
    ensures Occurs(Joined(B, A, tail), |B|, A, el)
  {
  }

  lemma MatchFromOccurs(t: seq<int>, a: nat, i: nat, x: seq<int>, el: nat)
    requires Occurs(t, a, x, el) && Occurs(t, i, x, el)
    ensures Match(t, a, i, el)
  {
    forall c: nat | c < el ensures Agree(t, a, i, c) {
      assert SymbolAt(t, a, x, c) && SymbolAt(t, i, x, c);
    }
  }

  /** When the answer is wrong: only at a whole copy of A, and there exactly when what follows the copy is
      not above what follows A. */
  lemma AnswerIsRight(B: seq<int>, A: seq<int>, tail: seq<int>, i: nat)
    requires i < |B|
    ensures (Answer(B, A, tail, i) <==> Above(B, A, tail, i)) <==>
            (Occurs(B, i, A, |A|) ==> SuffixLess(Joined(B, A, tail), |B| + |A|, i + |A|))
    ensures tail == [] ==> (Answer(B, A, tail, i) <==> Above(B, A, tail, i))
  {
    if Occurs(B, i, A, |A|) {
      var t, n := Joined(B, A, tail), |A|;
      OccursInText(B, A, tail, i, n);
      PatternInText(B, A, tail, n);
      MatchFromOccurs(t, |B|, i, A, n);
      LessSkip(t, |t|, |B|, i, n);
    }
  }

  /** Every symbol of x[u..e) is 255. */
  ghost predicate AllTop(x: seq<int>, u: nat, e: nat) {
    e <= |x| && forall q: nat :: u <= q < e ==> x[q] == 255
  }

  /** A run of 255 stands above whatever bytes follow it. */
  lemma {:induction false} RunIsAbove(t: seq<int>, u: nat, e: nat)
    requires IsBytes(t) && u < e && AllTop(t, u, e)
    ensures SuffixLess(t, e, u)
    decreases |t| - e
  {
    if e < |t| && t[e] == 255 {
      RunIsAbove(t, u + 1, e + 1);
    }
  }

  /** A run of 255 that ends inside x, and where it ends. */
  lemma RunEnds(x: seq<int>, u: nat) returns (m: nat)
    requires IsBytes(x) && u <= |x| && !AllTop(x, u, |x|)
    ensures u + m < |x| && AllTop(x, u, u + m) && x[u + m] < 255
  {
    m := 0;
    while u + m < |x| && x[u + m] == 255
      invariant u + m <= |x| && AllTop(x, u, u + m)
    {
      m := m + 1;
    }
  }

  /** The tail that a whole copy is answered wrongly for: one 255 more than stand behind the copy. */
  lemma WrongTail(B: seq<int>, A: seq<int>, i: nat) returns (tail: seq<int>)
    requires IsBytes(B) && IsBytes(A) && i < |B| && Occurs(B, i, A, |A|) && !AllTop(B + A, i + |A|, |B| + |A|)
    ensures IsBytes(tail) && Answer(B, A, tail, i) && !Above(B, A, tail, i)
  {
    var x, u, e := B + A, i + |A|, |B| + |A|;
    var m := RunEnds(x, u);
    tail := seq(m + 1, _ => 255);
    var t := Joined(B, A, tail);
    assert t == x + tail;
    forall k: nat | k < m ensures Agree(t, e, u, k) {
      assert t[u + k] == x[u + k];
    }
    LessAtMismatch(t, |t|, e, u, m);
    AnswerIsRight(B, A, tail, i);
  }

  /** Before the call, on B and A alone.  Where A does not stand whole in B at i, so that the branch
      el == A_length is not taken, the answer is right whatever follows A. */
  lemma AnswerIsRightWithoutCopy(B: seq<int>, A: seq<int>, tail: seq<int>, i: nat)
    requires i < |B| && !Occurs(B, i, A, |A|)
    ensures Answer(B, A, tail, i) <==> Above(B, A, tail, i)
  {
  }

  /** Exactly, for the bytes the program works on: right whatever bytes follow A if and only if A does not
      stand whole in B at i, or nothing but 255 stands between the end of that copy and the end of A. */
  lemma AnswerIsRightForAnyTail(B: seq<int>, A: seq<int>, i: nat)
    requires IsBytes(B) && IsBytes(A) && i < |B|
    ensures (forall tail: seq<int> :: IsBytes(tail) ==> (Answer(B, A, tail, i) <==> Above(B, A, tail, i))) <==>
              !Occurs(B, i, A, |A|) || AllTop(B + A, i + |A|, |B| + |A|)
  {
    if Occurs(B, i, A, |A|) {
      if AllTop(B + A, i + |A|, |B| + |A|) {
        forall tail: seq<int> | IsBytes(tail) ensures Answer(B, A, tail, i) <==> Above(B, A, tail, i) {
          var t := Joined(B, A, tail);
          assert t == (B + A) + tail;
          RunIsAbove(t, i + |A|, |B| + |A|);
          AnswerIsRight(B, A, tail, i);
        }
      } else {
        var tail := WrongTail(B, A, i);
      }
    }
  }

  /** And it can be wrong: in 5 5 7 the suffix 5 5 7 is below 5 7, but B = 5 holds a copy of A = 5. */
  lemma AnswerCanBeWrong()
    ensures Answer([5], [5], [7], 0) && !Above([5], [5], [7], 0)
  {
    var t := Joined([5], [5], [7]);
    assert t == [5, 5, 7];
    assert SymbolAt([5], 0, [5], 0);
    LessTotal(t, 3, 1, 2);
  }

  /** The three-way test after a maximal match gives the answer. */
  lemma GtEofOutcome(B: seq<int>, A: seq<int>, tail: seq<int>, i: nat, el: nat, gtHead: seq<bool>)
    requires i < |B| && i + el <= |B| && el <= |A| && Occurs(Joined(B, A, tail), i, A, el)
    requires i + el == |B| || el == |A| || B[i + el] != A[el]
    requires GtHeadBits(gtHead, Joined(B, A, tail), |B|, |A|)
    ensures |A| <= |gtHead|
    ensures Answer(B, A, tail, i) <==>
            el == |A| || (i + el == |B| && !gtHead[|A| - 1 - el]) || (i + el < |B| && B[i + el] > A[el])
  {
    var t, a := Joined(B, A, tail), |B|;
    PatternInText(B, A, tail, el);
    MatchFromOccurs(t, a, i, A, el);
    LessSkip(t, |t|, a, i, el);
    if el == |A| {
      OccursInText(B, A, tail, i, el);
    } else if i + el == |B| {
      assert el > 0 ==> GtHeadBit(gtHead, t, a, |A|, el);
      LessTotal(t, |t|, a, a + el);
    } else {
      assert !SymbolAt(B, i, A, el);
    }
  }

  lemma GtBitsNone(bits: seq<bool>, B: seq<int>, A: seq<int>, tail: seq<int>)
    ensures GtBits(bits, B, A, tail, 0)
  {
  }

  /** The set of bits is right up to n + 1 once bit n is. */
  lemma GtBitsExtend(bits: seq<bool>, B: seq<int>, A: seq<int>, tail: seq<int>, n: nat)
    requires n < |bits| && n < |B| && GtBits(bits, B, A, tail, n)
    requires bits[n] <==> Answer(B, A, tail, n)
    ensures GtBits(bits, B, A, tail, n + 1)
  {
  }

  lemma GtBitsUpdate(bits: seq<bool>, bits': seq<bool>, B: seq<int>, A: seq<int>, tail: seq<int>, n: nat)
    requires n <= |bits| == |bits'| && n <= |B| && GtBits(bits, B, A, tail, n)
    requires bits[..n] == bits'[..n]
    ensures GtBits(bits', B, A, tail, n)
  {
    forall q: nat | q < n ensures bits'[q] <==> Answer(B, A, tail, q) {
      assert bits[q] == bits[..n][q] == bits'[..n][q];
    }
  }

  /** Copying the answer at j + k makes bit i + k right. */
  lemma CopiedBit(bits: seq<bool>, B: seq<int>, A: seq<int>, tail: seq<int>, j: nat, i: nat, el: nat,
                  s: nat, p: nat, r: nat, k: nat)
    requires Matched(Joined(B, A, tail), |B|, i, A, el, s, p, r) && Occurs(Joined(B, A, tail), j, A, el)
    requires el > 0 ==> j < i
    requires 1 <= k < SkipLength(A, el, s, p)
    requires i + k <= |bits| && i + k <= |B| && GtBits(bits, B, A, tail, i + k)
    ensures j + k < i && i + k < |B|
    ensures bits[j + k] <==> Answer(B, A, tail, i + k)
  {
    var t := Joined(B, A, tail);
    PatternInText(B, A, tail, el);
    SkipCopies(t, |B|, |B|, j, i, A, el, s, p, r, k);
    CopyInText(B, A, tail, j + k);
    CopyInText(B, A, tail, i + k);
  }

  lemma CopyInText(B: seq<int>, A: seq<int>, tail: seq<int>, i: nat)
    ensures Occurs(B, i, A, |A|) ==> Occurs(Joined(B, A, tail), i, A, |A|)
  {
    if Occurs(B, i, A, |A|) {
      OccursInText(B, A, tail, i, |A|);
    }
  }

  lemma NextSymbolMatched(t: seq<int>, i: nat, x: seq<int>, el: nat)
    requires Occurs(t, i, x, el) && el < |x| && i + el < |t| && t[i + el] == x[el]
    ensures Occurs(t, i, x, el + 1)
  {
    assert SymbolAt(t, i, x, el);
  }

  lemma ShorterOccurs(t: seq<int>, i: nat, x: seq<int>, el: nat, m: nat)
    requires Occurs(t, i, x, el) && m <= el
    ensures Occurs(t, i, x, m)
  {
  }

  /** One outer step forward keeps what is known of the position: by a whole period the match
      shrinks but its state stays, otherwise it starts afresh. */
  lemma MatchedAfterPeriod(t: seq<int>, nb: nat, i: nat, x: seq<int>, el: nat, s: nat, p: nat, r: nat)
    requires Matched(t, nb, i, x, el, s, p, r) && el > 0 && LooksPeriodic(x, el, s, p)
    ensures Matched(t, nb, i + p, x, el - p, s, p, r) && s < p
  {
    PeriodicPrefix(x, el, s, p, r);
    PeriodicShift(x, el, s, p, r);
    var u, m := i + p, el - p;
    forall c: nat | c < m ensures SymbolAt(t, u, x, c) {
      assert SymbolAt(t, i, x, p + c) && Agree(x, 0, p, c);
    }
  }

  /** The loops over the skipped positions in compute_gt_eof_bv. */
  method CopyBits(gtEof: array<bool>, j: nat, i: nat, h: nat, ghost A: seq<int>, ghost B: seq<int>,
                  ghost tail: seq<int>, ghost el: nat, ghost s: nat, ghost p: nat, ghost r: nat)
    requires Matched(Joined(B, A, tail), |B|, i, A, el, s, p, r) && Occurs(Joined(B, A, tail), j, A, el)
    requires i < |B| <= gtEof.Length && (el > 0 ==> j < i)
    requires h == SkipLength(A, el, s, p)
    requires GtBits(gtEof[..], B, A, tail, i + 1) && AllFalse(gtEof[..], i + 1)
    modifies gtEof
    ensures i + h <= |B|
    ensures GtBits(gtEof[..], B, A, tail, i + h) && AllFalse(gtEof[..], i + h)
  {
    hide Matched, GtBits, Occurs;
    var k := 1;
    while k < h
      invariant 1 <= k <= h && i + k <= |B|
      invariant GtBits(gtEof[..], B, A, tail, i + k) && AllFalse(gtEof[..], i + k)
    {
      ghost var was := gtEof[..];
      CopiedBit(was, B, A, tail, j, i, el, s, p, r, k);
      if gtEof[j + k] {
        gtEof[i + k] := true;
      }
      GtBitsUpdate(was, gtEof[..], B, A, tail, i + k);
      GtBitsExtend(gtEof[..], B, A, tail, i + k);
      k := k + 1;
    }
  }

  lemma MatchedStart(t: seq<int>, nb: nat, i: nat, x: seq<int>, r: nat)
    requires i <= nb <= |t|
    ensures Matched(t, nb, i, x, 0, 0, 0, r)
  {
  }

  lemma MatchedBounds(t: seq<int>, nb: nat, i: nat, x: seq<int>, el: nat, s: nat, p: nat, r: nat)
    requires Matched(t, nb, i, x, el, s, p, r)
    ensures i + el <= nb && el <= |x| && Occurs(t, i, x, el) && s + p <= el
    ensures el == 0 ==> s == 0 && p == 0
    ensures el > 0 ==> MaximalState(x, el, s, p, r) && 1 <= p
  {
  }

  /** A match that reaches further is a match of the shorter prefix too. */
  lemma MatchedAt(t: seq<int>, nb: nat, j: nat, i: nat, x: seq<int>, el: nat, s: nat, p: nat, r: nat, m: nat)
    requires Matched(t, nb, j, x, el, s, p, r) && Occurs(t, i, x, m) && el <= m && i + m <= nb
    ensures Matched(t, nb, i, x, el, s, p, r)
  {
  }

  lemma MatchedGrows(t: seq<int>, nb: nat, i: nat, x: seq<int>, el: nat, s: nat, p: nat, r: nat)
    requires i + el <= nb <= |t| && 0 < el && Occurs(t, i, x, el) && MaximalState(x, el, s, p, r)
    ensures Matched(t, nb, i, x, el, s, p, r)
  {
  }

  lemma SameSliceMatches(x: seq<int>, p: nat, s: nat)
    requires p + s <= |x|
    ensures x[..s] == x[p..p + s] <==> Match(x, 0, p, s)
  {
    if x[..s] == x[p..p + s] {
      forall k: nat | k < s ensures Agree(x, 0, p, k) {
        assert x[..s][k] == x[p..p + s][k];
      }
    }
    if Match(x, 0, p, s) {
      forall k: nat | k < s ensures x[..s][k] == x[p..p + s][k] {
        assert Agree(x, 0, p, k);
      }
    }
  }

  /** The test `p && 3 * p <= el && !memcmp(A, A + p, s)`, and the skip it chooses. */
  lemma TestPeriodic(A: seq<int>, el: nat, s: nat, p: nat)
    requires el <= |A| && s + p <= el
    ensures 0 < p && 3 * p <= el && A[..s] == A[p..p + s] <==> LooksPeriodic(A, el, s, p)
    ensures SkipLength(A, el, s, p) == if LooksPeriodic(A, el, s, p) then p else el / 3 + 1
  {
    SameSliceMatches(A, p, s);
  }

  /** The inner loop of both matchers: extend the match at i by one symbol after the other.  `matched`
      counts the symbols, `moved` also the iterations inside srank_next. */
  method MatchOn(B: seq<int>, A: seq<int>, i: nat, el0: nat, s0: nat, p0: nat, r0: nat, ghost t: seq<int>)
    returns (el: nat, s: nat, p: nat, r: nat, ghost matched: nat, ghost moved: nat)
    requires |B| <= |t| && B == t[..|B|] && Matched(t, |B|, i, A, el0, s0, p0, r0)
    ensures el0 <= el <= |A| && i + el <= |B| && Matched(t, |B|, i, A, el, s, p, r)
    ensures i + el == |B| || el == |A| || B[i + el] != A[el]
    ensures matched == el - el0 && moved + s0 <= 2 * matched + s
  {
    hide Matched, Occurs, MaximalState;
    el, s, p, r, matched, moved := el0, s0, p0, r0, 0, 0;
    MatchedBounds(t, |B|, i, A, el, s, p, r);
    while i + el < |B| && el < |A| && B[i + el] == A[el]
      invariant el0 <= el <= |A| && i + el <= |B| && Matched(t, |B|, i, A, el, s, p, r)
      invariant matched == el - el0 && moved + s0 <= 2 * matched + s
    {
      MatchedBounds(t, |B|, i, A, el, s, p, r);
      NextSymbolMatched(t, i, A, el);
      el := el + 1;
      ghost var steps;
      s, p, r, steps := SrankNext(A, el, s, p, r);
      MatchedGrows(t, |B|, i, A, el, s, p, r);
      matched, moved := matched + 1, moved + 1 + steps;
    }
  }

  /** The second half of the outer loop of compute_gt_eof_bv: move on by a whole period and keep the
      state, or by a third of the match and start afresh. */
  method SkipAhead(gtEof: array<bool>, j: nat, i0: nat, A: seq<int>, ghost B: seq<int>, ghost tail: seq<int>,
                   el0: nat, s0: nat, p0: nat, r: nat)
    returns (i: nat, el: nat, s: nat, p: nat, ghost cost: nat)
    requires Matched(Joined(B, A, tail), |B|, i0, A, el0, s0, p0, r) && Occurs(Joined(B, A, tail), j, A, el0)
    requires i0 < |B| <= gtEof.Length && (el0 > 0 ==> j < i0)
    requires GtBits(gtEof[..], B, A, tail, i0 + 1) && AllFalse(gtEof[..], i0 + 1)
    modifies gtEof
    ensures i0 < i <= |B| && Matched(Joined(B, A, tail), |B|, i, A, el, s, p, r)
    ensures GtBits(gtEof[..], B, A, tail, i) && AllFalse(gtEof[..], i)
    ensures 3 * i0 + el0 < 3 * i + el
    ensures cost + 13 * i0 + 2 * el0 + s0 <= 13 * i + 2 * el + s
  {
    hide Matched, GtBits, Occurs, MaximalState, SuffixLess, LooksPeriodic, Answer, SkipLength, Joined;
    ghost var t := Joined(B, A, tail);
    MatchedBounds(t, |B|, i0, A, el0, s0, p0, r);
    TestPeriodic(A, el0, s0, p0);
    if 0 < p0 && 3 * p0 <= el0 && A[..s0] == A[p0..p0 + s0] {
      CopyBits(gtEof, j, i0, p0, A, B, tail, el0, s0, p0, r);
      MatchedAfterPeriod(t, |B|, i0, A, el0, s0, p0, r);
      i, el, s, p := i0 + p0, el0 - p0, s0, p0;
      cost := s0 + p0;
    } else {
      var h := el0 / 3 + 1;
      CopyBits(gtEof, j, i0, h, A, B, tail, el0, s0, p0, r);
      i, el, s, p := i0 + h, 0, 0, 0;
      cost := s0 + h;
      MatchedStart(t, |B|, i, A, r);
    }
  }

  /** compute_gt_eof_bv: every bit is the answer of its position, set or copied.  `steps` counts outer
      iterations and matched symbols;
      `work` also counts the iterations inside srank_next, the symbols memcmp may read and the
      copied bits. */
  method ComputeGtEof(A: seq<int>, B: seq<int>, gtHead: seq<bool>, gtEof: array<bool>, ghost tail: seq<int>)
    returns (ghost steps: nat, ghost work: nat)
    requires |B| <= gtEof.Length && AllFalse(gtEof[..], 0)
    requires GtHeadBits(gtHead, Joined(B, A, tail), |B|, |A|)
    modifies gtEof
    ensures GtBits(gtEof[..], B, A, tail, |B|) && AllFalse(gtEof[..], |B|)
    ensures steps <= 3 * |B| + 2 * |A|
    ensures work <= 13 * |B| + 6 * |A|
  {
    assert Joined(B, A, tail)[..|B|] == B;
    hide Matched, GtBits, Occurs, MaximalState, GtHeadBits, SuffixLess, LooksPeriodic, Answer, SkipLength, Joined;
    ghost var t := Joined(B, A, tail);
    var i: nat, el: nat, s: nat, p: nat, r: nat := 0, 0, 0, 0, 0;
    var iMax: nat, elMax: nat, sMax: nat, pMax: nat, rMax: nat := 0, 0, 0, 0, 0;
    steps, work := 0, 0;
    MatchedStart(t, |B|, 0, A, 0);
    ghost var bits := gtEof[..];
    GtBitsNone(bits, B, A, tail);
    while i < |B|
      invariant i <= |B| && Matched(t, |B|, i, A, el, s, p, r)
      invariant Matched(t, |B|, iMax, A, elMax, sMax, pMax, rMax) && (elMax > 0 ==> iMax < i)
      invariant gtEof[..] == bits && GtBits(bits, B, A, tail, i) && AllFalse(bits, i)
      invariant steps <= 3 * i + el + elMax
      invariant work <= 13 * i + 2 * el + s + 2 * elMax + sMax
    {
      MatchedBounds(t, |B|, i, A, el, s, p, r);
      ghost var matched, moved;
      el, s, p, r, matched, moved := MatchOn(B, A, i, el, s, p, r, t);
      steps, work := steps + matched, work + moved;
      MatchedBounds(t, |B|, i, A, el, s, p, r);
      MatchedBounds(t, |B|, iMax, A, elMax, sMax, pMax, rMax);

      GtEofOutcome(B, A, tail, i, el, gtHead);
      if el == |A| || (i + el == |B| && !gtHead[|A| - 1 - el]) || (i + el < |B| && B[i + el] > A[el]) {
        gtEof[i] := true;
        GtBitsUpdate(bits, bits[i := true], B, A, tail, i);
        bits := bits[i := true];
      }
      GtBitsExtend(bits, B, A, tail, i);

      var j := iMax;
      if el > elMax {
        MatchedAt(t, |B|, iMax, i, A, elMax, sMax, pMax, rMax, el);
        el, elMax := elMax, el;
        s, sMax := sMax, s;
        p, pMax := pMax, p;
        r, rMax := rMax, r;
        iMax := i;
      } else {
        ShorterOccurs(t, iMax, A, elMax, el);
      }

      assert gtEof[..] == bits;
      ghost var cost;
      i, el, s, p, cost := SkipAhead(gtEof, j, i, A, B, tail, el, s, p, r);
      steps, work := steps + 1, work + cost;
      bits := gtEof[..];
    }
    MatchedBounds(t, |B|, i, A, el, s, p, r);
    MatchedBounds(t, |B|, iMax, A, elMax, sMax, pMax, rMax);
  }

  // ---- compute_new_gt_head_bv ----

  /** The answers for the suffixes 0, ..., n - 1 of T, stored right to left; T is not above itself. */
  ghost predicate HeadBits(bits: seq<bool>, T: seq<int>, n: nat)
    requires n <= |T|
  {
    |T| <= |bits| && forall e: nat :: e < n ==> GtHeadBit(bits, T, 0, |T|, e)
  }

  ghost predicate FalseBelow(bits: seq<bool>, n: nat)
  {
    n <= |bits| && forall q: nat :: q < n ==> !bits[q]
  }

  /** How many of the suffixes 1, ..., n - 1 of T are above T. */
  ghost function CountAbove(T: seq<int>, n: nat): (c: nat)
    requires n <= |T|
    ensures c <= if n == 0 then 0 else n - 1
  {
    if n <= 1 then 0 else CountAbove(T, n - 1) + if SuffixLess(T, 0, n - 1) then 1 else 0
  }

  /** The suffixes of T at 1, ..., n - 1 that are below T. */
  ghost function BelowWhole(T: seq<int>, n: nat): (b: set<nat>)
    requires n <= |T|
  {
    set e: nat | 1 <= e < n && SuffixLess(T, e, 0)
  }

  lemma {:induction false} CountBelowWhole(T: seq<int>, n: nat)
    requires 1 <= n <= |T|
    ensures |BelowWhole(T, n)| + CountAbove(T, n) == n - 1
  {
    if n == 1 {
      assert BelowWhole(T, n) == {};
    } else {
      CountBelowWhole(T, n - 1);
      LessTotal(T, |T|, n - 1, 0);
      if SuffixLess(T, n - 1, 0) {
        assert BelowWhole(T, n) == BelowWhole(T, n - 1) + {n - 1};
      } else {
        assert BelowWhole(T, n) == BelowWhole(T, n - 1);
      }
    }
  }

  lemma HeadBitsExtend(bits: seq<bool>, T: seq<int>, n: nat)
    requires 1 <= n < |T| && HeadBits(bits, T, n) && FalseBelow(bits, |T| - n)
    ensures HeadBits(bits[|T| - 1 - n := SuffixLess(T, 0, n)], T, n + 1)
    ensures FalseBelow(bits[|T| - 1 - n := SuffixLess(T, 0, n)], |T| - n - 1)
    ensures !SuffixLess(T, 0, n) ==> bits[|T| - 1 - n := SuffixLess(T, 0, n)] == bits
    ensures CountAbove(T, n + 1) == CountAbove(T, n) + if SuffixLess(T, 0, n) then 1 else 0
  {
    var bits' := bits[|T| - 1 - n := SuffixLess(T, 0, n)];
    var n' := n + 1;
    forall e: nat | e < n' ensures GtHeadBit(bits', T, 0, |T|, e) {
      assert e < n ==> GtHeadBit(bits, T, 0, |T|, e);
    }
  }

  lemma HeadBitsNone(bits: seq<bool>, T: seq<int>)
    requires 1 <= |T| <= |bits| && FalseBelow(bits, |T|)
    ensures HeadBits(bits, T, 1) && FalseBelow(bits, |T| - 1) && CountAbove(T, 1) == 0
  {
    LessSkip(T, |T|, 0, 0, |T|);
  }

  lemma HeadBitsDone(bits: seq<bool>, T: seq<int>)
    requires HeadBits(bits, T, |T|)
    ensures GtHeadBits(bits, T, 0, |T|)
  {
  }

  /** After a maximal match the next symbol decides; a suffix that ends inside T is below T. */
  lemma HeadOutcome(T: seq<int>, i: nat, el: nat)
    requires 1 <= i && i + el <= |T| && Occurs(T, i, T, el)
    requires i + el < |T| ==> T[i + el] != T[el]
    ensures SuffixLess(T, 0, i) <==> i + el < |T| && T[i + el] > T[el]
  {
    assert Occurs(T, 0, T, el);
    MatchFromOccurs(T, 0, i, T, el);
    LessSkip(T, |T|, 0, i, el);
  }

  lemma CopiedHeadBit(bits: seq<bool>, T: seq<int>, j: nat, i: nat, el: nat, s: nat, p: nat, r: nat, k: nat)
    requires Matched(T, |T|, i, T, el, s, p, r) && Occurs(T, j, T, el)
    requires el > 0 ==> 1 <= j < i
    requires 1 <= k < SkipLength(T, el, s, p)
    requires i + k <= |T| && HeadBits(bits, T, i + k)
    ensures 1 <= j + k < i && i + k < |T|
    ensures bits[|T| - 1 - (j + k)] <==> SuffixLess(T, 0, i + k)
  {
    assert Occurs(T, 0, T, el);
    SkipCopies(T, |T|, 0, j, i, T, el, s, p, r, k);
    assert GtHeadBit(bits, T, 0, |T|, j + k);
  }

  /** The loops over the skipped positions in compute_new_gt_head_bv. */
  method CopyHeadBits(bv: array<bool>, j: nat, i: nat, h: nat, rank0: int, ghost T: seq<int>, n: nat, ghost el: nat,
                      ghost s: nat, ghost p: nat, ghost r: nat)
    returns (rank: int)
    requires Matched(T, |T|, i, T, el, s, p, r) && Occurs(T, j, T, el) && n == |T|
    requires 1 <= i < n <= bv.Length && (el > 0 ==> 1 <= j < i)
    requires h == SkipLength(T, el, s, p)
    requires HeadBits(bv[..], T, i + 1) && FalseBelow(bv[..], n - i - 1)
    requires rank0 == n - 1 - CountAbove(T, i + 1)
    modifies bv
    ensures i + h <= n
    ensures HeadBits(bv[..], T, i + h) && FalseBelow(bv[..], n - (i + h))
    ensures forall q :: n <= q < bv.Length ==> bv[q] == old(bv[q])
    ensures rank == n - 1 - CountAbove(T, i + h)
  {
    hide Matched, Occurs, SuffixLess, HeadBits, CountAbove, FalseBelow;
    rank := rank0;
    var k := 1;
    while k < h
      invariant 1 <= k <= h && i + k <= n
      invariant HeadBits(bv[..], T, i + k) && FalseBelow(bv[..], n - (i + k))
      invariant forall q :: n <= q < bv.Length ==> bv[q] == old(bv[q])
      invariant rank == n - 1 - CountAbove(T, i + k)
    {
      ghost var was := bv[..];
      CopiedHeadBit(was, T, j, i, el, s, p, r, k);
      HeadBitsExtend(was, T, i + k);
      if bv[n - 1 - (j + k)] {
        bv[n - 1 - (i + k)] := true;
        assert bv[..] == was[n - 1 - (i + k) := true];
        rank := rank - 1;
      }
      k := k + 1;
    }
  }

  /** The second half of the outer loop of compute_new_gt_head_bv, with its rank counter. */
  method SkipAheadInHead(bv: array<bool>, j: nat, i0: nat, T: seq<int>, el0: nat, s0: nat, p0: nat, r: nat, rank0: int)
    returns (i: nat, el: nat, s: nat, p: nat, rank: int, ghost cost: nat)
    requires Matched(T, |T|, i0, T, el0, s0, p0, r) && Occurs(T, j, T, el0)
    requires 1 <= i0 < |T| <= bv.Length && (el0 > 0 ==> 1 <= j < i0)
    requires HeadBits(bv[..], T, i0 + 1) && FalseBelow(bv[..], |T| - i0 - 1)
    requires rank0 == |T| - 1 - CountAbove(T, i0 + 1)
    modifies bv
    ensures i0 < i <= |T| && Matched(T, |T|, i, T, el, s, p, r)
    ensures HeadBits(bv[..], T, i) && FalseBelow(bv[..], |T| - i)
    ensures forall q :: |T| <= q < bv.Length ==> bv[q] == old(bv[q])
    ensures rank == |T| - 1 - CountAbove(T, i)
    ensures 3 * i0 + el0 < 3 * i + el
    ensures cost + 13 * i0 + 2 * el0 + s0 <= 13 * i + 2 * el + s
  {
    hide Matched, Occurs, MaximalState, SuffixLess, LooksPeriodic, SkipLength, HeadBits, CountAbove, FalseBelow, Match;
    MatchedBounds(T, |T|, i0, T, el0, s0, p0, r);
    TestPeriodic(T, el0, s0, p0);
    if 0 < p0 && 3 * p0 <= el0 && T[..s0] == T[p0..p0 + s0] {
      rank := CopyHeadBits(bv, j, i0, p0, rank0, T, |T|, el0, s0, p0, r);
      MatchedAfterPeriod(T, |T|, i0, T, el0, s0, p0, r);
      i, el, s, p := i0 + p0, el0 - p0, s0, p0;
      cost := s0 + p0;
    } else {
      var h := el0 / 3 + 1;
      rank := CopyHeadBits(bv, j, i0, h, rank0, T, |T|, el0, s0, p0, r);
      i, el, s, p := i0 + h, 0, 0, 0;
      cost := s0 + h;
      MatchedStart(T, |T|, i, T, r);
    }
  }

  /** compute_new_gt_head_bv: bit n - 1 - i says whether T[i..] is above T, for every i from 0 on, and the
      result is the number of suffixes of T below T. */
  method ComputeNewGtHead(T: seq<int>, bv: array<bool>) returns (rank: int, ghost steps: nat, ghost work: nat)
    requires 1 <= |T| <= bv.Length && FalseBelow(bv[..], |T|)
    modifies bv
    ensures GtHeadBits(bv[..], T, 0, |T|)
    ensures forall q :: |T| <= q < bv.Length ==> bv[q] == old(bv[q])
    ensures rank == |BelowWhole(T, |T|)|
    ensures steps <= 5 * |T| && work <= 19 * |T|
  {
    hide Matched, Occurs, MaximalState, SuffixLess, HeadBits, CountAbove, FalseBelow, BelowWhole;
    rank, steps, work := |T| - 1, 0, 0;
    var i: nat, el: nat, s: nat, p: nat, r: nat := 1, 0, 0, 0, 0;
    var iMax: nat, elMax: nat, sMax: nat, pMax: nat, rMax: nat := 0, 0, 0, 0, 0;
    ghost var n := |T|;
    MatchedStart(T, n, 0, T, 0);
    MatchedStart(T, n, 1, T, 0);
    ghost var bits := bv[..];
    HeadBitsNone(bits, T);
    while i < |T|
      invariant 1 <= i <= n && Matched(T, n, i, T, el, s, p, r)
      invariant Matched(T, n, iMax, T, elMax, sMax, pMax, rMax) && (elMax > 0 ==> 1 <= iMax < i)
      invariant bv[..] == bits && HeadBits(bits, T, i) && FalseBelow(bits, n - i)
      invariant forall q :: n <= q < bv.Length ==> bv[q] == old(bv[q])
      invariant rank == n - 1 - CountAbove(T, i)
      invariant steps <= 3 * i + el + elMax
      invariant work <= 13 * i + 2 * el + s + 2 * elMax + sMax
    {
      MatchedBounds(T, n, i, T, el, s, p, r);
      ghost var matched, moved;
      el, s, p, r, matched, moved := MatchOn(T, T, i, el, s, p, r, T);
      steps, work := steps + matched, work + moved;
      MatchedBounds(T, n, i, T, el, s, p, r);
      MatchedBounds(T, n, iMax, T, elMax, sMax, pMax, rMax);

      HeadOutcome(T, i, el);
      HeadBitsExtend(bits, T, i);
      if i + el < |T| && (el == |T| || T[i + el] > T[el]) {
        bv[|T| - 1 - i] := true;
        bits := bits[|T| - 1 - i := true];
        rank := rank - 1;
      }

      var j := iMax;
      if el > elMax {
        MatchedAt(T, n, iMax, i, T, elMax, sMax, pMax, rMax, el);
        el, elMax := elMax, el;
        s, sMax := sMax, s;
        p, pMax := pMax, p;
        r, rMax := rMax, r;
        iMax := i;
      } else {
        ShorterOccurs(T, iMax, T, elMax, el);
      }

      assert bv[..] == bits;
      ghost var cost;
      i, el, s, p, rank, cost := SkipAheadInHead(bv, j, i, T, el, s, p, r, rank);
      steps, work := steps + 1, work + cost;
      bits := bv[..];
    }
    MatchedBounds(T, n, i, T, el, s, p, r);
    MatchedBounds(T, n, iMax, T, elMax, sMax, pMax, rMax);
    CountBelowWhole(T, n);
    HeadBitsDone(bits, T);
  }
}
