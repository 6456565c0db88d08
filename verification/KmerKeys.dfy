/** Keys of k-symbol windows: base-B values, their order, and the rolling update (src/init.cpp:97-125). */
module KmerKeys {
  import opened Arithmetic
  import opened Chunks
  import opened Doubling

  function Power(B: nat, n: nat): nat {
    if n == 0 then 1 else B * Power(B, n - 1)
  }

  /** The code at a stream index; codes before the stream and past its end are 0. */
  function Code(cs: seq<nat>, i: int): nat {
    if 0 <= i < |cs| then cs[i] else 0
  }

  /** The base-B value of the window of n codes that starts at i. */
  function Key(cs: seq<nat>, B: nat, i: int, n: nat): nat {
    if n == 0 then 0 else Key(cs, B, i, n - 1) * B + Code(cs, i + n - 1)
  }

  ghost predicate CodesBelow(cs: seq<nat>, B: nat) {
    B >= 1 && forall i: nat :: i < |cs| ==> cs[i] < B
  }

  /** A window has fewer than B^n values. */
  lemma {:induction false} KeyBound(cs: seq<nat>, B: nat, i: int, n: nat)
    requires CodesBelow(cs, B)
    ensures Key(cs, B, i, n) < Power(B, n)
  {
    if n > 0 {
      KeyBound(cs, B, i, n - 1);
      MultipleGap(Key(cs, B, i, n - 1), Power(B, n - 1), B);
      PowerStep(B, n);
    }
  }

  /** Splitting off the first code instead of the last. */
  lemma {:induction false} KeyFront(cs: seq<nat>, B: nat, i: int, n: nat)
    requires n >= 1
    ensures Key(cs, B, i, n) == Code(cs, i) * Power(B, n - 1) + Key(cs, B, i + 1, n - 1)
  {
    if n > 1 {
      KeyFront(cs, B, i, n - 1);
      var c, p, r := Code(cs, i), Power(B, n - 2), Key(cs, B, i + 1, n - 2);
      Distribute(c, p, r, B);
      assert Key(cs, B, i + 1, n - 1) == r * B + Code(cs, i + n - 1);
    }
  }

  lemma Distribute(c: nat, p: nat, r: nat, B: nat)
    ensures (c * p + r) * B == c * (B * p) + r * B
  {
  }

  /** The rolling update moves the window one index on. */
  lemma KeyRolls(cs: seq<nat>, B: nat, i: int, n: nat)
    requires n >= 1
    ensures Key(cs, B, i + 1, n) == (Key(cs, B, i, n) - Code(cs, i) * Power(B, n - 1)) * B + Code(cs, i + n)
  {
    KeyFront(cs, B, i, n);
  }

  /** A window value depends only on the codes in the window. */
  lemma {:induction false} KeySameWindow(cs: seq<nat>, ds: seq<nat>, B: nat, i: int, n: nat)
    requires forall j: int :: i <= j < i + n ==> Code(cs, j) == Code(ds, j)
    ensures Key(cs, B, i, n) == Key(ds, B, i, n)
  {
    if n > 0 {
      KeySameWindow(cs, ds, B, i, n - 1);
    }
  }

  // ---- the order of keys ----

  /** The codes keep the order of the text symbols, the sentinel being 0. */
  ghost predicate CodesOrder(t: seq<int>, cs: seq<nat>) {
    |t| == |cs| + 1 &&
    forall i: nat, j: nat :: i < |t| && j < |t| ==> (t[i] < t[j] <==> Code(cs, i) < Code(cs, j))
  }

  lemma LeadingDigitDecides(a: nat, b: nat, p: nat, x: nat, y: nat)
    requires a < b && x < p
    ensures a * p + x < b * p + y
  {
    MultipleGap(a, b, p);
  }

  /** Keys compare by their first codes and, on a tie, by the keys behind. */
  lemma KeysCompare(cs: seq<nat>, B: nat, i: nat, j: nat, k: nat)
    requires CodesBelow(cs, B) && k > 0
    ensures Key(cs, B, i, k) < Key(cs, B, j, k) <==>
              Code(cs, i) < Code(cs, j) ||
              (Code(cs, i) == Code(cs, j) && Key(cs, B, i + 1, k - 1) < Key(cs, B, j + 1, k - 1))
    ensures Key(cs, B, i, k) == Key(cs, B, j, k) <==>
              Code(cs, i) == Code(cs, j) && Key(cs, B, i + 1, k - 1) == Key(cs, B, j + 1, k - 1)
  {
    KeyFront(cs, B, i, k);
    KeyFront(cs, B, j, k);
    KeyBound(cs, B, i + 1, k - 1);
    KeyBound(cs, B, j + 1, k - 1);
    hide Key, Power, Code, CodesBelow;
    var a, b, p, x, y := Code(cs, i), Code(cs, j), Power(B, k - 1), Key(cs, B, i + 1, k - 1), Key(cs, B, j + 1, k - 1);
    if a < b {
      LeadingDigitDecides(a, b, p, x, y);
    } else if b < a {
      LeadingDigitDecides(b, a, p, y, x);
    }
  }

  /** Key order is the order of the k-symbol prefixes, ties included. */
  lemma {:induction false} KeyOrder(t: seq<int>, cs: seq<nat>, B: nat, i: nat, j: nat, k: nat)
    requires IsText(t) && CodesOrder(t, cs) && CodesBelow(cs, B) && i < |t| && j < |t|
    ensures PrefixLess(t, k, i, j) <==> Key(cs, B, i, k) < Key(cs, B, j, k)
    ensures PrefixEq(t, k, i, j) <==> Key(cs, B, i, k) == Key(cs, B, j, k)
    decreases k
  {
    PrefixTrichotomy(t, k, i, j);
    hide Key, Power;
    if k > 0 && i != j {
      KeysCompare(cs, B, i, j, k);
      if t[i] == t[j] {
        KeyOrder(t, cs, B, i + 1, j + 1, k - 1);
      }
    }
  }

  // ---- the choice of k ----

  lemma FitsOnceMore(hist: nat, B: nat, budget: nat)
    requires B >= 1
    ensures hist <= budget / B <==> hist * B <= budget
  {
    var q := budget / B;
    if hist <= q {
      if hist < q { MultipleGap(hist, q, B); }
    } else {
      MultipleGap(q, hist, B);
    }
  }

  lemma {:induction false} PowerGrows(B: nat, n: nat)
    requires B >= 2
    ensures Power(B, n) > n
  {
    if n > 0 {
      PowerGrows(B, n - 1);
      assert B * Power(B, n - 1) >= 2 * Power(B, n - 1);
    }
  }

  /** From k = 2 on there are at least four keys. */
  lemma SecondPower(B: nat, k: nat)
    requires B >= 2 && k >= 2
    ensures Power(B, k) >= 4
  {
    PowerGrows(B, k - 1);
    MoreThanDoubles(Power(B, k - 1), B);
    PowerStep(B, k);
  }

  lemma PowerStep(B: nat, n: nat)
    requires n >= 1
    ensures Power(B, n) == Power(B, n - 1) * B
  {
  }

  lemma MoreThanDoubles(h: nat, B: nat)
    requires B >= 2
    ensures h * B >= 2 * h
  {
  }

  /** The k loop: the largest k of at least 1 for which B^k keys fit the budget (src/init.cpp:318-327). */
  method ChooseK(B: nat, budget: nat) returns (k: nat, hist: nat, topw: nat)
    requires B >= 2
    ensures k >= 1 && hist == Power(B, k) && topw == Power(B, k - 1)
    ensures k > 1 ==> Power(B, k) <= budget
    ensures Power(B, k + 1) > budget
  {
    k, hist := 1, B;
    assert Power(B, 1) == B * Power(B, 0);
    hide Power;
    while hist <= budget / B
      invariant k >= 1 && hist == Power(B, k) && (k > 1 ==> hist <= budget)
      decreases budget - hist
    {
      FitsOnceMore(hist, B, budget);
      PowerGrows(B, k);
      MoreThanDoubles(hist, B);
      PowerStep(B, k + 1);
      hist := hist * B;
      k := k + 1;
    }
    FitsOnceMore(hist, B, budget);
    PowerStep(B, k + 1);
    PowerStep(B, k);
    DivModUnique(hist, B, Power(B, k - 1), 0);
    topw := hist / B;
  }

  lemma {:induction false} PowerOfOne(n: nat)
    ensures Power(1, n) == 1
  {
    if n > 0 {
      PowerOfOne(n - 1);
    }
  }

  /** The guard of the k loop after n iterations. */
  predicate GuardAfter(B: nat, budget: nat, n: nat)
    requires B >= 1
  {
    Power(B, n + 1) <= budget / B
  }

  lemma GuardFails(B: nat, budget: nat)
    requires B >= 2
    ensures !GuardAfter(B, budget, budget)
  {
    var h := Power(B, budget + 1);
    PowerGrows(B, budget + 1);
    MoreThanDoubles(h, B);
    hide Power;
    FitsOnceMore(h, B, budget);
  }

  lemma GuardNeverFails(budget: nat, n: nat)
    ensures GuardAfter(1, budget, n) <==> budget >= 1
  {
    PowerOfOne(n + 1);
  }

  /** The loop ends exactly when the input has a symbol (B is at least 2) or the budget is 0: with B = 1,
      which is what an empty input gives, the guard holds after every number of iterations. */
  lemma KLoopEndsExactly(B: nat, budget: nat)
    requires B >= 1
    ensures (exists n: nat :: !GuardAfter(B, budget, n)) <==> B >= 2 || budget == 0
  {
    hide GuardAfter;
    if B >= 2 {
      GuardFails(B, budget);
    } else {
      forall n: nat ensures GuardAfter(B, budget, n) <==> budget >= 1 {
        GuardNeverFails(budget, n);
      }
      assert budget == 0 ==> !GuardAfter(B, budget, 0);
    }
  }
}
