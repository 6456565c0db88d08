/** Prefix doubling on the whole text: what a rank means, and why one round carries ranks of L-symbol
    prefixes to ranks of 2L-symbol prefixes whatever stands in the next-ranks past the text end. */
module Doubling {
  import opened SuffixOrder
  import opened Chunks

  /** The first L symbols from i on (fewer at the text end) are below those from j on. */
  ghost predicate PrefixLess(t: seq<int>, L: nat, i: nat, j: nat)
    requires i <= |t| && j <= |t|
  {
    L > 0 && j < |t| && (i == |t| || t[i] < t[j] || (t[i] == t[j] && PrefixLess(t, L - 1, i + 1, j + 1)))
  }

  ghost predicate PrefixEq(t: seq<int>, L: nat, i: nat, j: nat)
    requires i <= |t| && j <= |t|
  {
    L == 0 || (i == |t| && j == |t|) ||
    (i < |t| && j < |t| && t[i] == t[j] && PrefixEq(t, L - 1, i + 1, j + 1))
  }

  /** Exactly one of below, above and equal holds. */
  lemma {:induction false} PrefixTrichotomy(t: seq<int>, L: nat, i: nat, j: nat)
    requires i <= |t| && j <= |t|
    ensures PrefixEq(t, L, i, j) <==> PrefixEq(t, L, j, i)
    ensures PrefixEq(t, L, i, j) ==> !PrefixLess(t, L, i, j) && !PrefixLess(t, L, j, i)
    ensures PrefixLess(t, L, i, j) ==> !PrefixLess(t, L, j, i)
    ensures PrefixEq(t, L, i, j) || PrefixLess(t, L, i, j) || PrefixLess(t, L, j, i)
    ensures i == j ==> PrefixEq(t, L, i, j)
  {
    if L > 0 && i < |t| && j < |t| {
      PrefixTrichotomy(t, L - 1, i + 1, j + 1);
    }
  }

  /** Below-or-equal composes, and is equal only if both parts are. */
  lemma {:induction false} PrefixCompose(t: seq<int>, L: nat, i: nat, j: nat, k: nat)
    requires i <= |t| && j <= |t| && k <= |t|
    requires PrefixLess(t, L, i, j) || PrefixEq(t, L, i, j)
    requires PrefixLess(t, L, j, k) || PrefixEq(t, L, j, k)
    ensures PrefixEq(t, L, i, j) && PrefixEq(t, L, j, k) ==> PrefixEq(t, L, i, k)
    ensures PrefixLess(t, L, i, j) || PrefixLess(t, L, j, k) ==> PrefixLess(t, L, i, k)
  {
    if L > 0 && i < |t| && j < |t| && k < |t| && t[i] == t[j] == t[k] {
      PrefixCompose(t, L - 1, i + 1, j + 1, k + 1);
    }
  }

  /** L + M symbols are compared by the first L and then, on a tie, by the M behind them. */
  lemma {:induction false} PrefixSplit(t: seq<int>, L: nat, M: nat, i: nat, j: nat)
    requires i + L <= |t| && j + L <= |t|
    ensures PrefixLess(t, L + M, i, j) <==>
            PrefixLess(t, L, i, j) || (PrefixEq(t, L, i, j) && PrefixLess(t, M, i + L, j + L))
    ensures PrefixEq(t, L + M, i, j) <==> PrefixEq(t, L, i, j) && PrefixEq(t, M, i + L, j + L)
  {
    if L > 0 {
      PrefixSplit(t, L - 1, M, i + 1, j + 1);
    }
  }

  /** What the first symbols decide stays decided with more symbols. */
  lemma {:induction false} PrefixLessExtends(t: seq<int>, L: nat, M: nat, i: nat, j: nat)
    requires i <= |t| && j <= |t| && L <= M
    ensures PrefixLess(t, L, i, j) ==> PrefixLess(t, M, i, j)
    ensures PrefixEq(t, M, i, j) ==> PrefixEq(t, L, i, j)
  {
    if L > 0 && i < |t| && j < |t| {
      PrefixLessExtends(t, L - 1, M - 1, i + 1, j + 1);
    }
  }

  /** Prefix order is suffix order with the ties left open. */
  lemma {:induction false} PrefixOfSuffixOrder(t: seq<int>, L: nat, i: nat, j: nat)
    requires i <= |t| && j <= |t|
    ensures PrefixLess(t, L, i, j) ==> SuffixLess(t, i, j)
    ensures SuffixLess(t, i, j) ==> PrefixLess(t, L, i, j) || PrefixEq(t, L, i, j)
  {
    if L > 0 && i < |t| && j < |t| {
      PrefixOfSuffixOrder(t, L - 1, i + 1, j + 1);
    }
  }

  /** The sentinel is unique, so two different positions can only tie before it. */
  lemma {:induction false} TieEndsBeforeSentinel(t: seq<int>, L: nat, i: nat, j: nat)
    requires IsText(t) && i < |t| && j < |t| && i != j && PrefixEq(t, L, i, j)
    ensures i + L < |t| && j + L < |t|
  {
    if L > 0 {
      TieEndsBeforeSentinel(t, L - 1, i + 1, j + 1);
    }
  }

  // ---- ranks ----

  ghost function Smaller(t: seq<int>, L: nat, i: nat): (s: set<nat>)
    requires i < |t|
  {
    set j: nat | j < |t| && PrefixLess(t, L, j, i)
  }

  /** The rank of i at prefix length L: how many positions have a smaller L-symbol prefix. */
  ghost function Rank(t: seq<int>, L: nat, i: nat): nat
    requires i < |t|
  {
    |Smaller(t, L, i)|
  }

  /** No other position shares the L-symbol prefix of i. */
  ghost predicate Unique(t: seq<int>, L: nat, i: nat)
    requires i < |t|
  {
    forall j: nat :: j < |t| && j != i ==> !PrefixEq(t, L, j, i)
  }

  lemma SubsetSize<T>(a: set<T>, b: set<T>)
    requires a <= b
    ensures |a| <= |b|
    ensures a != b ==> |a| < |b|
  {
    assert b == a + (b - a);
  }

  /** Ranks are ordered exactly as the prefixes are. */
  lemma RankOrder(t: seq<int>, L: nat, i: nat, j: nat)
    requires i < |t| && j < |t|
    ensures Rank(t, L, i) < Rank(t, L, j) <==> PrefixLess(t, L, i, j)
    ensures Rank(t, L, i) == Rank(t, L, j) <==> PrefixEq(t, L, i, j)
  {
    PrefixTrichotomy(t, L, i, j);
    if PrefixLess(t, L, i, j) {
      RankRises(t, L, i, j);
    } else if PrefixLess(t, L, j, i) {
      RankRises(t, L, j, i);
    } else {
      forall k: nat | k < |t| ensures PrefixLess(t, L, k, i) == PrefixLess(t, L, k, j) {
        if PrefixLess(t, L, k, i) {
          PrefixCompose(t, L, k, i, j);
        } else if PrefixLess(t, L, k, j) {
          PrefixCompose(t, L, k, j, i);
        }
      }
      assert Smaller(t, L, i) == Smaller(t, L, j);
    }
  }

  lemma RankRises(t: seq<int>, L: nat, i: nat, j: nat)
    requires i < |t| && j < |t| && PrefixLess(t, L, i, j)
    ensures Rank(t, L, i) < Rank(t, L, j)
  {
    forall k: nat | k < |t| && PrefixLess(t, L, k, i) ensures PrefixLess(t, L, k, j) {
      PrefixCompose(t, L, k, i, j);
    }
    PrefixTrichotomy(t, L, i, i);
    assert i in Smaller(t, L, j) && i !in Smaller(t, L, i);
    SubsetSize(Smaller(t, L, i), Smaller(t, L, j));
  }

  lemma RankBelowLength(t: seq<int>, L: nat, i: nat)
    requires i < |t|
    ensures Rank(t, L, i) < |t|
  {
    var all := Positions(|t|);
    PrefixTrichotomy(t, L, i, i);
    assert i in all && i !in Smaller(t, L, i);
    SubsetSize(Smaller(t, L, i), all);
  }

  /** All positions below n; there are n of them. */
  ghost function Positions(n: nat): (s: set<nat>)
    ensures |s| == n && forall i: nat :: i in s <==> i < n
  {
    if n == 0 then {} else Positions(n - 1) + {n - 1}
  }

  /** When every prefix is unique the ranks invert the suffix array. */
  lemma UniqueRanksAreSuffixRanks(t: seq<int>, L: nat, i: nat)
    requires i < |t| && Unique(t, L, i)
    ensures Rank(t, L, i) == |SuffixesBelow(t, i)|
  {
    forall j: nat | j < |t| ensures PrefixLess(t, L, j, i) == SuffixLess(t, j, i) {
      PrefixOfSuffixOrder(t, L, j, i);
      if j == i {
        LessTotal(t, |t|, i, i);
        PrefixTrichotomy(t, L, i, i);
      }
    }
    assert Smaller(t, L, i) == SuffixesBelow(t, i);
  }

  ghost function SuffixesBelow(t: seq<int>, i: nat): set<nat>
    requires i < |t|
  {
    set j: nat | j < |t| && SuffixLess(t, j, i)
  }

  /** rank is the inverse suffix array of t: the rank of a suffix is the number of smaller suffixes. */
  ghost predicate SuffixRanks(t: seq<int>, rank: seq<nat>) {
    |rank| == |t| && forall i: nat :: i < |t| ==> rank[i] == |SuffixesBelow(t, i)|
  }

  /** Final ranks order the positions exactly as their suffixes, and stay below the text length. */
  lemma SuffixRanksOrder(t: seq<int>, rank: seq<nat>, i: nat, j: nat)
    requires IsText(t) && SuffixRanks(t, rank) && i < |t| && j < |t|
    ensures rank[i] < rank[j] <==> SuffixLess(t, i, j)
    ensures rank[i] == rank[j] <==> i == j
    ensures rank[i] < |t|
  {
    forall k: nat, l: nat | k < |t| && l < |t| && k != l ensures !PrefixEq(t, |t|, l, k) {
      if PrefixEq(t, |t|, l, k) {
        TieEndsBeforeSentinel(t, |t|, l, k);
      }
    }
    UniqueRanksAreSuffixRanks(t, |t|, i);
    UniqueRanksAreSuffixRanks(t, |t|, j);
    RankOrder(t, |t|, i, j);
    RankBelowLength(t, |t|, i);
    PrefixOfSuffixOrder(t, |t|, i, j);
    PrefixTrichotomy(t, |t|, i, j);
    LessTotal(t, |t|, i, j);
  }

  // ---- one round ----

  /** rank holds the ranks of all positions at prefix length L. */
  ghost predicate RanksAt(t: seq<int>, L: nat, rank: seq<nat>)
  {
    |rank| == |t| && forall i: nat :: i < |t| ==> rank[i] == Rank(t, L, i)
  }

  /** For a live position nxt holds the rank L positions on if there is such a position, and anything
      otherwise. */
  ghost predicate NextsAt(rank: seq<nat>, L: nat, nxt: seq<nat>, live: set<nat>)
  {
    |nxt| == |rank| && forall i :: i in live && i + L < |rank| ==> i < |nxt| && nxt[i] == rank[i + L]
  }

  /** The live positions include every one whose rank is shared. */
  ghost predicate LiveCovers(t: seq<int>, L: nat, live: set<nat>)
  {
    && (forall i :: i in live ==> i < |t|)
    && forall i: nat :: i < |t| && !Unique(t, L, i) ==> i in live
  }

  /** Live positions with the same current rank and a smaller next rank. */
  ghost function GroupBelow(rank: seq<nat>, nxt: seq<nat>, live: set<nat>, c: nat, n: nat): set<nat>
    requires |nxt| == |rank| && forall i :: i in live ==> i < |rank|
  {
    set g | g in live && rank[g] == c && nxt[g] < n
  }

  /** Live positions with the same current and next rank. */
  ghost function GroupSame(rank: seq<nat>, nxt: seq<nat>, live: set<nat>, c: nat, n: nat): set<nat>
    requires |nxt| == |rank| && forall i :: i in live ==> i < |rank|
  {
    set g | g in live && rank[g] == c && nxt[g] == n
  }

  /** In a tied group the next ranks compare the second halves. */
  lemma NextsCompareSecondHalf(t: seq<int>, L: nat, rank: seq<nat>, nxt: seq<nat>, live: set<nat>, i: nat, j: nat)
    requires IsText(t) && RanksAt(t, L, rank) && NextsAt(rank, L, nxt, live)
    requires i in live && j in live && i < |t| && j < |t| && i != j && PrefixEq(t, L, i, j)
    ensures nxt[i] < nxt[j] <==> PrefixLess(t, 2 * L, i, j)
    ensures nxt[i] == nxt[j] <==> PrefixEq(t, 2 * L, i, j)
  {
    TieEndsBeforeSentinel(t, L, i, j);
    RankOrder(t, L, i + L, j + L);
    PrefixTrichotomy(t, L, i, j);
    PrefixSplit(t, L, L, i, j);
    assert nxt[i] == rank[i + L] && nxt[j] == rank[j + L];
  }

  /** A unique prefix has its final rank already. */
  lemma UniqueRankIsFinal(t: seq<int>, L: nat, M: nat, i: nat)
    requires i < |t| && L <= M && Unique(t, L, i)
    ensures Unique(t, M, i) && Rank(t, M, i) == Rank(t, L, i)
  {
    forall j: nat | j < |t|
      ensures PrefixLess(t, L, j, i) == PrefixLess(t, M, j, i)
      ensures j != i ==> !PrefixEq(t, M, j, i)
    {
      PrefixTrichotomy(t, L, j, i);
      PrefixTrichotomy(t, M, j, i);
      PrefixLessExtends(t, L, M, j, i);
      PrefixLessExtends(t, L, M, i, j);
    }
    assert Smaller(t, L, i) == Smaller(t, M, i);
  }

  /** The doubling step: current rank plus the live positions of the same rank with a smaller next
      rank is the rank at 2L, and a pair that occurs once among the live positions is a unique
      2L-prefix.  Nothing is asked of next-ranks that lie past the text end. */
  lemma DoublingStep(t: seq<int>, L: nat, rank: seq<nat>, nxt: seq<nat>, live: set<nat>, i: nat)
    requires IsText(t) && RanksAt(t, L, rank) && NextsAt(rank, L, nxt, live) && LiveCovers(t, L, live)
    requires i in live
    ensures rank[i] + |GroupBelow(rank, nxt, live, rank[i], nxt[i])| == Rank(t, 2 * L, i)
    ensures |GroupSame(rank, nxt, live, rank[i], nxt[i])| == 1 <==> Unique(t, 2 * L, i)
  {
    var below := GroupBelow(rank, nxt, live, rank[i], nxt[i]);
    var same := GroupSame(rank, nxt, live, rank[i], nxt[i]);
    forall j: nat | j < |t|
      ensures j in below <==> PrefixLess(t, 2 * L, j, i) && !PrefixLess(t, L, j, i)
      ensures j in same <==> PrefixEq(t, 2 * L, j, i)
      ensures PrefixLess(t, L, j, i) ==> PrefixLess(t, 2 * L, j, i)
    {
      GroupMember(t, L, rank, nxt, live, i, j);
    }
    assert Smaller(t, 2 * L, i) == Smaller(t, L, i) + below;
    assert Smaller(t, L, i) !! below;
    PrefixTrichotomy(t, 2 * L, i, i);
    assert i in same;
    if Unique(t, 2 * L, i) {
      assert same == {i};
    } else {
      var j: nat :| j < |t| && j != i && PrefixEq(t, 2 * L, j, i);
      assert {i, j} <= same;
      SubsetSize({i, j}, same);
    }
  }

  lemma GroupMember(t: seq<int>, L: nat, rank: seq<nat>, nxt: seq<nat>, live: set<nat>, i: nat, j: nat)
    requires IsText(t) && RanksAt(t, L, rank) && NextsAt(rank, L, nxt, live) && LiveCovers(t, L, live)
    requires i in live && j < |t|
    ensures j in GroupBelow(rank, nxt, live, rank[i], nxt[i]) <==>
            PrefixLess(t, 2 * L, j, i) && !PrefixLess(t, L, j, i)
    ensures j in GroupSame(rank, nxt, live, rank[i], nxt[i]) <==> PrefixEq(t, 2 * L, j, i)
    ensures PrefixLess(t, L, j, i) ==> PrefixLess(t, 2 * L, j, i)
  {
    RankOrder(t, L, j, i);
    PrefixLessExtends(t, L, 2 * L, j, i);
    PrefixLessExtends(t, L, 2 * L, i, j);
    PrefixTrichotomy(t, L, j, i);
    PrefixTrichotomy(t, 2 * L, j, i);
    if PrefixEq(t, L, j, i) && j != i {
      assert !Unique(t, L, j);
      NextsCompareSecondHalf(t, L, rank, nxt, live, j, i);
    }
  }

  /** A smaller pair means a smaller 2L-rank. */
  lemma PairsDecideRank(t: seq<int>, L: nat, rank: seq<nat>, nxt: seq<nat>, live: set<nat>, i: nat, j: nat)
    requires IsText(t) && RanksAt(t, L, rank) && NextsAt(rank, L, nxt, live) && LiveCovers(t, L, live)
    requires i in live && j in live
    requires rank[i] < rank[j] || (rank[i] == rank[j] && nxt[i] < nxt[j])
    ensures Rank(t, 2 * L, i) < Rank(t, 2 * L, j)
  {
    RankOrder(t, L, i, j);
    if rank[i] < rank[j] {
      PrefixLessExtends(t, L, 2 * L, i, j);
    } else {
      NextsCompareSecondHalf(t, L, rank, nxt, live, i, j);
    }
    RankOrder(t, 2 * L, i, j);
  }

  /** Along the suffix order the pairs (current rank, next rank) never fall, so a chunk's streams reach
      merge sorted. */
  lemma PairsFollowSuffixOrder(t: seq<int>, L: nat, rank: seq<nat>, nxt: seq<nat>, live: set<nat>, i: nat, j: nat)
    requires IsText(t) && RanksAt(t, L, rank) && NextsAt(rank, L, nxt, live) && LiveCovers(t, L, live)
    requires i in live && j in live && SuffixLess(t, i, j)
    ensures rank[i] < rank[j] || (rank[i] == rank[j] && nxt[i] <= nxt[j])
  {
    RankOrder(t, L, i, j);
    PrefixOfSuffixOrder(t, L, i, j);
    LessTotal(t, |t|, i, j);
    if PrefixEq(t, L, i, j) {
      NextsCompareSecondHalf(t, L, rank, nxt, live, i, j);
      PrefixOfSuffixOrder(t, 2 * L, i, j);
    }
  }
}
