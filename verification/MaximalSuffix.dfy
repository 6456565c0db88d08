/** The maximal suffix of a growing prefix and its smallest period, kept by srank_next (src/srank.hpp). */
module MaximalSuffix {
  import opened Arithmetic
  import opened SuffixOrder

  /** q is a period of x[s..n): shifting the string by q keeps it. */
  ghost predicate IsPeriod(x: seq<int>, s: nat, n: nat, q: nat)
  {
    1 <= q && s + q <= n <= |x| && Match(x, s, s + q, n - s - q)
  }

  ghost predicate SmallestPeriod(x: seq<int>, s: nat, n: nat, p: nat)
  {
    IsPeriod(x, s, n, p) && forall q: nat :: q < p ==> !IsPeriod(x, s, n, q)
  }

  /** No proper suffix of x[s..n) is above it. */
  ghost predicate SelfMaximal(x: seq<int>, s: nat, n: nat)
  {
    s < n <= |x| && forall j: nat :: s < j < n ==> Less(x, n, j, s)
  }

  /** s starts the maximal suffix of x[0..n). */
  ghost predicate StartsMaximal(x: seq<int>, s: nat, n: nat)
    requires s < n <= |x|
  {
    forall j: nat :: j < n && j != s ==> Less(x, n, j, s)
  }

  /** What srank_next keeps: the maximal suffix of x[0..n), its smallest period, and the length it
      has run past a whole number of periods. */
  ghost predicate MaximalState(x: seq<int>, n: nat, s: nat, p: nat, r: nat)
  {
    s < n <= |x| && StartsMaximal(x, s, n) && SmallestPeriod(x, s, n, p) && r == (n - s) % p
  }

  // ---- periods ----

  /** A shorter prefix keeps every period it is long enough for. */
  lemma PeriodOfPrefix(x: seq<int>, s: nat, n: nat, m: nat, q: nat)
    requires IsPeriod(x, s, n, q) && s + q <= m <= n
    ensures IsPeriod(x, s, m, q)
  {
    var u := s + q;
    assert forall k: nat :: k < m - u ==> Agree(x, s, u, k);
  }

  /** A suffix keeps every period it is long enough for. */
  lemma PeriodOfSuffix(x: seq<int>, s: nat, n: nat, u: nat, q: nat)
    requires IsPeriod(x, s, n, q) && s <= u && u + q <= n
    ensures IsPeriod(x, u, n, q)
  {
    var v := u + q;
    forall k: nat | k < n - v ensures Agree(x, u, v, k) {
      assert Agree(x, s, s + q, u - s + k);
    }
  }

  /** One more symbol keeps the period exactly when it repeats the symbol one period back. */
  lemma PeriodExtends(x: seq<int>, s: nat, n: nat, q: nat)
    requires IsPeriod(x, s, n, q) && n < |x|
    ensures IsPeriod(x, s, n + 1, q) <==> x[n] == x[n - q]
  {
    var u := s + q;
    assert Agree(x, s, u, n - u) <==> x[n - q] == x[n];
    assert forall k: nat :: k < n - u ==> Agree(x, s, u, k);
  }

  lemma PeriodStep(x: seq<int>, s: nat, n: nat, q: nat, k: nat)
    requires IsPeriod(x, s, n, q) && s <= k && k + q < n
    ensures x[k] == x[k + q]
  {
    assert Agree(x, s, s + q, k - s);
  }

  /** The symbol m past s is the symbol m modulo the period past s. */
  lemma {:induction false} PeriodModulo(x: seq<int>, s: nat, n: nat, p: nat, m: nat)
    requires IsPeriod(x, s, n, p) && s + m < n
    ensures x[s + m % p] == x[s + m]
  {
    if m >= p {
      ModuloBack(m, p);
      PeriodStep(x, s, n, p, s + m - p);
      PeriodModulo(x, s, n, p, m - p);
    } else {
      ModuloSmall(m, p);
    }
  }

  // ---- one step of srank_next: x[s..i) is maximal among its own suffixes, its smallest period is p ----

  /** After any border of a self-maximal string comes a symbol no smaller than the one that
      continues the period p. */
  lemma AfterBorder(x: seq<int>, s: nat, i: nat, p: nat, b: nat)
    requires i < |x| && SelfMaximal(x, s, i) && IsPeriod(x, s, i, p)
    requires b + p <= i - s && Match(x, s, i - b, b)
    ensures x[s + b] >= x[i - p]
  {
    var j := i - b - p;
    if j > s {
      assert Match(x, j, s, b) by {
        forall k: nat | k < b ensures Agree(x, j, s, k) {
          PeriodStep(x, s, i, p, j + k);
          assert Agree(x, s, i - b, k);
        }
      }
      LessSkip(x, i, j, s, b);
      assert Less(x, i, j + b, s + b);
    }
  }

  /** A suffix of x[s..i) that ties with it is a border, and the distance is a period. */
  lemma BorderIsPeriod(x: seq<int>, s: nat, i: nat, j: nat)
    requires s < j < i <= |x| && Match(x, j, s, i - j)
    ensures IsPeriod(x, s, i, j - s)
  {
    assert s + (j - s) == j;
    forall k: nat | k < i - j ensures Agree(x, s, j, k) {
      assert Agree(x, j, s, k);
    }
  }

  /** Appending a symbol no larger than the one the period predicts keeps the string self-maximal. */
  lemma AppendKeepsMaximal(x: seq<int>, s: nat, i: nat, p: nat)
    requires i < |x| && SelfMaximal(x, s, i) && SmallestPeriod(x, s, i, p)
    requires x[i] <= x[i - p]
    ensures SelfMaximal(x, s, i + 1)
  {
    var n := i + 1;
    forall j: nat | s < j < n ensures Less(x, n, j, s) {
      var d := CommonPrefix(x, i + 1, j, s);
      if j + d < i {
        assert Less(x, i, j, s);
        LessAtMismatch(x, i, j, s, d);
      } else if j + d == i {
        if j < i {
          BorderIsPeriod(x, s, i, j);
        }
        assert Match(x, s, j, d) by {
          forall k: nat | k < d ensures Agree(x, s, j, k) {
            assert Agree(x, j, s, k);
          }
        }
        AfterBorder(x, s, i, p, d);
      }
    }
  }

  /** Appending a smaller symbol than predicted leaves no period but the whole length. */
  lemma AppendBreaksPeriods(x: seq<int>, s: nat, i: nat, p: nat)
    requires i < |x| && SelfMaximal(x, s, i) && SmallestPeriod(x, s, i, p)
    requires x[i] < x[i - p]
    ensures SmallestPeriod(x, s, i + 1, i + 1 - s)
  {
    var n := i + 1;
    forall q: nat | 1 <= q <= i - s ensures !IsPeriod(x, s, n, q) {
      if IsPeriod(x, s, i + 1, q) {
        PeriodOfPrefix(x, s, i + 1, i, q);
        var b, u := i - s - q, i - (i - s - q);
        assert Match(x, s, u, b);
        AfterBorder(x, s, i, p, b);
        PeriodStep(x, s, i + 1, q, i - q);
      }
    }
  }

  /** The symbol srank_next compares with is the one that would continue the period. */
  lemma PredictedSymbol(x: seq<int>, s: nat, i: nat, p: nat)
    requires IsPeriod(x, s, i, p)
    ensures s + (i - s) % p < i && x[s + (i - s) % p] == x[i - p]
  {
    ModuloBack(i - s, p);
    PeriodModulo(x, s, i, p, i - s - p);
  }

  /** The last (i - s) mod p symbols repeat the first ones. */
  lemma RemainderIsBorder(x: seq<int>, s: nat, i: nat, p: nat)
    requires IsPeriod(x, s, i, p)
    ensures var r := (i - s) % p; r < p && Match(x, i - r, s, r)
  {
    var r, u := (i - s) % p, i - (i - s) % p;
    var q := (i - s) / p;
    forall k: nat | k < r ensures Agree(x, u, s, k) {
      assert u - s + k == q * p + k;
      DivModUnique(u - s + k, p, q, k);
      PeriodModulo(x, s, i, p, u - s + k);
    }
  }

  /** A symbol above the predicted one moves the maximum: every suffix that starts before the
      remainder falls below the remainder. */
  lemma LargerSymbolMovesMaximum(x: seq<int>, s: nat, i: nat, p: nat, n: nat, j: nat)
    requires i < n <= |x| && SelfMaximal(x, s, i) && SmallestPeriod(x, s, i, p)
    requires x[i - p] < x[i]
    requires s <= j < i - (i - s) % p
    ensures Less(x, n, j, i - (i - s) % p)
  {
    var r := (i - s) % p;
    var m := i - r;
    PredictedSymbol(x, s, i, p);
    RemainderIsBorder(x, s, i, p);
    assert Match(x, s, m, r) by {
      forall k: nat | k < r ensures Agree(x, s, m, k) {
        assert Agree(x, m, s, k);
      }
    }
    LessAtMismatch(x, n, s, m, r);
    if s < j {
      var d := CommonPrefix(x, i, j, s);
      if j + d < i {
        assert Less(x, i, j, s);
        LessAtMismatch(x, n, j, s, d);
        LessTransitive(x, n, j, s, m);
      } else {
        assert r < d;
        assert Agree(x, j, s, r);
        assert Match(x, j, m, r) by {
          forall k: nat | k < r ensures Agree(x, j, m, k) {
            assert Agree(x, j, s, k) && Agree(x, m, s, k);
          }
        }
        LessAtMismatch(x, n, j, m, r);
      }
    }
  }

  lemma OneSymbol(x: seq<int>, s: nat)
    requires s < |x|
    ensures SelfMaximal(x, s, s + 1) && SmallestPeriod(x, s, s + 1, 1) && (s + 1 - s) % 1 == 0
  {
  }

  /** A suffix before the maximal one is already below it by a mismatch, so it stays below. */
  lemma EarlierStaysBelow(x: seq<int>, n: nat, s: nat, j: nat)
    requires j < s < n < |x| && Less(x, n, j, s)
    ensures Less(x, n + 1, j, s)
  {
    var d := CommonPrefix(x, n, j, s);
    LessAtMismatch(x, n + 1, j, s, d);
  }

  /** What the loop of srank_next keeps: the part from s on is settled for x[s..i), and every suffix
      that starts before s is below the one at s whatever the loop still does. */
  ghost predicate ScanState(x: seq<int>, n: nat, i: nat, s: nat, p: nat, r: nat)
  {
    && s < i <= n <= |x|
    && SelfMaximal(x, s, i) && SmallestPeriod(x, s, i, p) && r == (i - s) % p
    && forall j: nat :: j < s ==> Less(x, n, j, s)
  }

  lemma ScanStart(x: seq<int>, n: nat, s: nat, p: nat, r: nat)
    requires n < |x| && MaximalState(x, n, s, p, r)
    ensures ScanState(x, n + 1, n, s, p, r)
  {
    var m := n + 1;
    forall j: nat | j < s ensures Less(x, m, j, s) {
      EarlierStaysBelow(x, n, s, j);
    }
  }

  lemma ScanRestart(x: seq<int>, n: nat, i: nat, s: nat, p: nat, r: nat)
    requires i < n && ScanState(x, n, i, s, p, r) && x[s + r] < x[i]
    ensures s < i - r && ScanState(x, n, i - r + 1, i - r, 1, 0)
  {
    PredictedSymbol(x, s, i, p);
    RemainderIsBorder(x, s, i, p);
    var m := i - r;
    OneSymbol(x, m);
    LargerSymbolMovesMaximum(x, s, i, p, n, s);
    forall j: nat | j < m ensures Less(x, n, j, m) {
      if s <= j {
        LargerSymbolMovesMaximum(x, s, i, p, n, j);
      } else {
        LessTransitive(x, n, j, s, m);
      }
    }
  }

  lemma ScanSmaller(x: seq<int>, n: nat, i: nat, s: nat, p: nat, r: nat)
    requires i < n && ScanState(x, n, i, s, p, r) && x[i] < x[s + r]
    ensures ScanState(x, n, i + 1, s, i - s + 1, 0)
  {
    PredictedSymbol(x, s, i, p);
    AppendKeepsMaximal(x, s, i, p);
    AppendBreaksPeriods(x, s, i, p);
    DivModUnique(i + 1 - s, i + 1 - s, 1, 0);
  }

  lemma ScanEqual(x: seq<int>, n: nat, i: nat, s: nat, p: nat, r: nat)
    requires i < n && ScanState(x, n, i, s, p, r) && x[i] == x[s + r]
    ensures ScanState(x, n, i + 1, s, p, if r + 1 == p then 0 else r + 1)
  {
    PredictedSymbol(x, s, i, p);
    AppendKeepsMaximal(x, s, i, p);
    PeriodExtends(x, s, i, p);
    ModuloNext(i - s, p);
    var n' := i + 1;
    forall q: nat | q < p ensures !IsPeriod(x, s, n', q) {
      if IsPeriod(x, s, n', q) {
        PeriodOfPrefix(x, s, n', i, q);
      }
    }
  }

  lemma ScanBounds(x: seq<int>, n: nat, i: nat, s: nat, p: nat, r: nat)
    requires ScanState(x, n, i, s, p, r)
    ensures s < i <= n <= |x| && r < p && s + p + r <= i
  {
    ModuloBack(i - s, p);
  }

  lemma ScanDone(x: seq<int>, n: nat, s: nat, p: nat, r: nat)
    requires ScanState(x, n, n, s, p, r)
    ensures MaximalState(x, n, s, p, r)
  {
  }

  lemma FirstSymbol(x: seq<int>)
    requires 1 <= |x|
    ensures MaximalState(x, 1, 0, 1, 0)
  {
  }

  /** srank_next: from the state of text[0..length - 1) to the state of text[0..length).  i moves
      back when a larger symbol arrives, but then s rises; steps counts the loop's iterations, which
      the rise of s and length together pay for. */
  method SrankNext(text: seq<int>, length: nat, s0: nat, p0: nat, r0: nat)
    returns (s: nat, p: nat, r: nat, ghost steps: nat)
    requires 1 <= length <= |text|
    requires length == 1 || MaximalState(text, length - 1, s0, p0, r0)
    ensures MaximalState(text, length, s, p, r)
    ensures length == 1 ==> s == 0 && steps == 0
    ensures length > 1 ==> steps <= 1 + s - s0
  {
    hide ScanState, MaximalState;
    s, p, r, steps := s0, p0, r0, 0;
    if length == 1 {
      s, p, r := 0, 1, 0;
      FirstSymbol(text);
      return;
    }
    var i: nat := length - 1;
    ScanStart(text, length - 1, s, p, r);
    while i < length
      invariant i <= length && ScanState(text, length, i, s, p, r)
      invariant s0 <= s && steps + length - 1 + s0 <= i + s
      decreases length - s, length - i
    {
      ScanBounds(text, length, i, s, p, r);
      var a, b := text[s + r], text[i];
      if a > b {
        ScanSmaller(text, length, i, s, p, r);
        p, r := i - s + 1, 0;
      } else if a < b {
        ScanRestart(text, length, i, s, p, r);
        i := i - r;
        s, p, r := i, 1, 0;
      } else {
        ScanEqual(text, length, i, s, p, r);
        r := r + 1;
        if r == p { r := 0; }
      }
      i := i + 1;
      steps := steps + 1;
    }
    ScanDone(text, length, s, p, r);
  }
}
