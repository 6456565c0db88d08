/** Lexicographic order on the suffixes of a string, the order every stage of the pipeline is about. */
module SuffixOrder {

  /** The symbols are unsigned bytes. */
  ghost predicate IsBytes(x: seq<int>) {
    forall i: nat :: i < |x| ==> 0 <= x[i] <= 255
  }

  /** x[i..n) is smaller than x[j..n); a proper prefix is smaller than what it is a prefix of. */
  predicate Less(x: seq<int>, n: nat, i: nat, j: nat)
    requires i <= n && j <= n <= |x|
    decreases n - i
  {
    j < n && (i == n || x[i] < x[j] || (x[i] == x[j] && Less(x, n, i + 1, j + 1)))
  }

  /** The suffix of the whole text t at i is smaller than the one at j. */
  ghost predicate SuffixLess(t: seq<int>, i: nat, j: nat)
    requires i <= |t| && j <= |t|
  {
    Less(t, |t|, i, j)
  }

  /** x[i..] and x[j..] hold the same symbol at offset k. */
  ghost predicate Agree(x: seq<int>, i: nat, j: nat, k: nat)
    requires i + k < |x| && j + k < |x|
  {
    x[i + k] == x[j + k]
  }

  /** The d symbols from i on and the d symbols from j on are the same. */
  ghost predicate Match(x: seq<int>, i: nat, j: nat, d: nat)
    requires i + d <= |x| && j + d <= |x|
  {
    forall k: nat :: k < d ==> Agree(x, i, j, k)
  }

  /** A common prefix does not decide the order. */
  lemma {:induction false} LessSkip(x: seq<int>, n: nat, i: nat, j: nat, d: nat)
    requires i + d <= n && j + d <= n <= |x|
    requires Match(x, i, j, d)
    ensures Less(x, n, i, j) == Less(x, n, i + d, j + d)
  {
    if d == 0 {
    } else {
      assert Agree(x, i, j, d - 1);
      LessSkip(x, n, i, j, d - 1);
    }
  }

  /** The longest common prefix of x[i..n) and x[j..n), and the order it decides. */
  lemma CommonPrefix(x: seq<int>, n: nat, i: nat, j: nat) returns (d: nat)
    requires i <= n && j <= n <= |x|
    ensures i + d <= n && j + d <= n && Match(x, i, j, d)
    ensures i + d == n || j + d == n || x[i + d] != x[j + d]
    ensures Less(x, n, i, j) <==> j + d < n && (i + d == n || x[i + d] < x[j + d])
  {
    d := 0;
    while i + d < n && j + d < n && x[i + d] == x[j + d]
      invariant i + d <= n && j + d <= n && Match(x, i, j, d)
    {
      d := d + 1;
    }
    LessSkip(x, n, i, j, d);
  }

  /** The first mismatch decides the order, whatever follows it. */
  lemma LessAtMismatch(x: seq<int>, n: nat, i: nat, j: nat, d: nat)
    requires i + d < n && j + d < n <= |x|
    requires Match(x, i, j, d) && x[i + d] != x[j + d]
    ensures Less(x, n, i, j) <==> x[i + d] < x[j + d]
    ensures Less(x, n, j, i) <==> x[j + d] < x[i + d]
  {
    assert Match(x, j, i, d) by {
      forall k: nat | k < d ensures Agree(x, j, i, k) {
        assert Agree(x, i, j, k);
      }
    }
    LessSkip(x, n, i, j, d);
    LessSkip(x, n, j, i, d);
  }

  /** Different suffixes are ordered one way and not the other; no suffix is below itself. */
  lemma {:induction false} LessTotal(x: seq<int>, n: nat, i: nat, j: nat)
    requires i <= n && j <= n <= |x|
    ensures Less(x, n, i, j) ==> !Less(x, n, j, i)
    ensures i != j ==> Less(x, n, i, j) || Less(x, n, j, i)
    decreases n - i
  {
    if i < n && j < n {
      LessTotal(x, n, i + 1, j + 1);
    }
  }

  lemma {:induction false} LessTransitive(x: seq<int>, n: nat, i: nat, j: nat, k: nat)
    requires i <= n && j <= n && k <= n <= |x|
    requires Less(x, n, i, j) && Less(x, n, j, k)
    ensures Less(x, n, i, k)
    decreases n - i
  {
    if i < n && x[i] == x[j] == x[k] {
      LessTransitive(x, n, i + 1, j + 1, k + 1);
    }
  }
}
