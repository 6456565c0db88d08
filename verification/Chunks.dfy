/** How the text is cut into chunk files, and the suffix order of the positions inside one chunk. */
module Chunks {
  import opened SuffixOrder

  /** The encoded input: symbols above 0, then one sentinel 0. */
  ghost predicate IsText(t: seq<int>)
  {
    && |t| >= 1 && t[|t| - 1] == 0
    && forall i :: 0 <= i < |t| - 1 ==> t[i] > 0
  }

  /** The global position of local index p of chunk c. */
  function Global(S: nat, c: nat, p: nat): nat
  {
    c * S + p
  }

  /** One file a chunk: every file but the last holds S entries, the last between 1 and S. */
  ghost predicate Shape<T>(files: seq<seq<T>>, S: nat, N: nat)
  {
    && 1 <= S && 1 <= |files|
    && (forall c: nat :: c + 1 < |files| ==> |files[c]| == S)
    && 1 <= |files[|files| - 1]| <= S
    && N == Global(S, |files| - 1, |files[|files| - 1]|)
  }

  /** The files, read in order, hold the sequence w. */
  ghost predicate Holds<T>(files: seq<seq<T>>, S: nat, w: seq<T>)
  {
    && Shape(files, S, |w|)
    && forall c: nat, p: nat :: c < |files| && p < |files[c]| ==>
         Global(S, c, p) < |w| && w[Global(S, c, p)] == files[c][p]
  }

  /** Dropping a prefix of the text does not change the order of the suffixes that are left. */
  lemma {:induction false} DropKeepsOrder(t: seq<int>, b: nat, i: nat, j: nat)
    requires b + i <= |t| && b + j <= |t|
    ensures SuffixLess(t[b..], i, j) == SuffixLess(t, b + i, b + j)
    decreases |t| - i
  {
    if b + i < |t| && b + j < |t| {
      DropKeepsOrder(t, b, i + 1, j + 1);
    }
  }

  /** The list holds local indices of the chunk at b, in increasing order of their suffixes. */
  ghost predicate SuffixSorted(t: seq<int>, b: nat, sa: seq<nat>)
  {
    && (forall k: nat :: k < |sa| ==> b + sa[k] < |t|)
    && forall k: nat, m: nat :: k < m < |sa| ==> SuffixLess(t, b + sa[k], b + sa[m])
  }

  /** The list is the partial suffix array of the n positions from b on. */
  ghost predicate PartialSuffixArray(t: seq<int>, b: nat, n: nat, sa: seq<nat>)
  {
    && |sa| == n && SuffixSorted(t, b, sa)
    && (forall k: nat :: k < |sa| ==> sa[k] < n)
    && forall p: nat :: p < n ==> p in sa
  }

  /** A chunk file is the stretch of the whole that starts at its base. */
  lemma ChunkStretch<T>(files: seq<seq<T>>, S: nat, w: seq<T>, c: nat)
    requires Holds(files, S, w) && c < |files|
    ensures Global(S, c, 0) + |files[c]| <= |w| && 1 <= |files[c]| <= S
    ensures files[c] == w[Global(S, c, 0)..Global(S, c, 0) + |files[c]|]
    ensures c + 1 < |files| ==> |files[c]| == S && Global(S, c + 1, 0) == Global(S, c, 0) + S
    ensures c + 1 == |files| <==> Global(S, c, 0) + |files[c]| == |w|
  {
    NextBase(S, c);
    if c + 1 < |files| {
      BaseMonotone(S, c + 1, |files| - 1);
    }
    var b, n := Global(S, c, 0), |files[c]|;
    forall p: nat | p < n ensures b + p < |w| && w[b + p] == files[c][p] {
      assert Global(S, c, p) == b + p;
    }
  }

  lemma NextBase(S: nat, c: nat)
    ensures Global(S, c + 1, 0) == Global(S, c, 0) + S
  {
  }

  lemma {:induction false} BaseMonotone(S: nat, c: nat, d: nat)
    requires c <= d
    ensures Global(S, c, 0) <= Global(S, d, 0)
  {
    if c < d {
      BaseMonotone(S, c, d - 1);
      NextBase(S, d - 1);
    }
  }

  /** A global position inside the text lies in the chunk its index says. */
  lemma PositionInChunk<T>(files: seq<seq<T>>, S: nat, w: seq<T>, c: nat, p: nat)
    requires Holds(files, S, w) && p < S && Global(S, c, p) < |w|
    ensures c < |files| && p < |files[c]| && w[Global(S, c, p)] == files[c][p]
  {
    var last := |files| - 1;
    if last < c {
      BaseMonotone(S, last + 1, c);
      NextBase(S, last);
    }
  }

  /** Every position is in some chunk, at a unique place. */
  lemma ChunkOfPosition(S: nat, g: nat) returns (c: nat, p: nat)
    requires 1 <= S
    ensures p < S && g == Global(S, c, p) && c == g / S && p == g % S
  {
    c, p := g / S, g % S;
  }

  lemma SamePlace(S: nat, c: nat, p: nat, d: nat, q: nat)
    requires p < S && q < S && Global(S, c, p) == Global(S, d, q)
    ensures c == d && p == q
  {
    if c < d {
      BaseMonotone(S, c + 1, d);
      NextBase(S, c);
    } else if d < c {
      BaseMonotone(S, d + 1, c);
      NextBase(S, d);
    }
  }

  // ---- files read one behind the other ----

  /** What reading the files in order gives. */
  function Flat<T>(files: seq<seq<T>>): seq<T> {
    if files == [] then [] else Flat(files[..|files| - 1]) + files[|files| - 1]
  }

  /** How many entries stand in the files before file c. */
  ghost function Offset<T>(files: seq<seq<T>>, c: nat): nat
    requires c <= |files|
  {
    |Flat(files[..c])|
  }

  lemma FlatStep<T>(files: seq<seq<T>>, c: nat)
    requires c < |files|
    ensures Flat(files[..c + 1]) == Flat(files[..c]) + files[c]
    ensures Offset(files, c + 1) == Offset(files, c) + |files[c]|
  {
    assert files[..c + 1][..c] == files[..c];
  }

  lemma OffsetEnds<T>(files: seq<seq<T>>)
    ensures Offset(files, 0) == 0 && Offset(files, |files|) == |Flat(files)|
  {
    assert files[..0] == [] && files[..|files|] == files;
  }

  lemma {:induction false} OffsetMonotone<T>(files: seq<seq<T>>, c: nat, d: nat)
    requires c <= d <= |files|
    ensures Offset(files, c) <= Offset(files, d)
  {
    if c < d {
      OffsetMonotone(files, c, d - 1);
      FlatStep(files, d - 1);
    }
  }

  /** Files of the same lengths have the same offsets. */
  lemma {:induction false} SameOffset<T, U>(files: seq<seq<T>>, others: seq<seq<U>>, c: nat)
    requires |files| == |others| && c <= |files|
    requires forall d: nat :: d < |files| ==> |files[d]| == |others[d]|
    ensures Offset(files, c) == Offset(others, c)
  {
    if c > 0 {
      SameOffset(files, others, c - 1);
      FlatStep(files, c - 1);
      FlatStep(others, c - 1);
    }
  }

  lemma {:induction false} FlatIsPrefix<T>(files: seq<seq<T>>, c: nat)
    requires c <= |files|
    ensures Offset(files, c) <= |Flat(files)| && Flat(files)[..Offset(files, c)] == Flat(files[..c])
    decreases |files|
  {
    if c == |files| {
      assert files[..c] == files;
    } else {
      var front := files[..|files| - 1];
      FlatIsPrefix(front, c);
      assert front[..c] == files[..c];
    }
  }

  /** Entry i of file c, in the whole. */
  lemma {:induction false} FlatAt<T>(files: seq<seq<T>>, c: nat, i: nat)
    requires c < |files| && i < |files[c]|
    ensures Offset(files, c) + i < |Flat(files)| && Flat(files)[Offset(files, c) + i] == files[c][i]
    decreases |files|
  {
    if c < |files| - 1 {
      var front := files[..|files| - 1];
      FlatAt(front, c, i);
      assert front[..c] == files[..c];
    }
  }

  /** Every entry of the whole comes from some file. */
  lemma {:induction false} FlatPlace<T>(files: seq<seq<T>>, a: nat) returns (c: nat, i: nat)
    requires a < |Flat(files)|
    ensures c < |files| && i < |files[c]| && a == Offset(files, c) + i && Flat(files)[a] == files[c][i]
  {
    c := |files| - 1;
    var front := files[..c];
    if a < |Flat(front)| {
      c, i := FlatPlace(front, a);
      assert front[..c] == files[..c];
    } else {
      i := a - |Flat(front)|;
    }
  }

  /** The files before file c hold the stretch of w before its base. */
  lemma {:induction false} FlatPrefix<T>(files: seq<seq<T>>, S: nat, w: seq<T>, c: nat)
    requires Holds(files, S, w) && c < |files|
    ensures Global(S, c, 0) <= |w| && Flat(files[..c]) == w[..Global(S, c, 0)]
    ensures Offset(files, c) == Global(S, c, 0)
  {
    if c == 0 {
      assert files[..0] == [];
    } else {
      FlatPrefix(files, S, w, c - 1);
      FlatStep(files, c - 1);
      ChunkStretch(files, S, w, c - 1);
      ChunkStretch(files, S, w, c);
      hide Holds, Global;
      var b := Global(S, c - 1, 0);
      assert w[..b] + w[b..b + S] == w[..b + S];
    }
  }

  /** Files that hold w are w cut up: reading them in order gives w. */
  lemma HoldsIsFlat<T>(files: seq<seq<T>>, S: nat, w: seq<T>)
    requires Holds(files, S, w)
    ensures Flat(files) == w
    ensures forall c: nat :: c < |files| ==> Offset(files, c) == Global(S, c, 0)
  {
    hide Holds, Global;
    forall c: nat | c < |files| ensures Offset(files, c) == Global(S, c, 0) {
      FlatPrefix(files, S, w, c);
    }
    var last := |files| - 1;
    LastFile(files, S, w);
    FlatPrefix(files, S, w, last);
    var b := Global(S, last, 0);
    assert w[..b] + w[b..] == w;
  }

  lemma LastFile<T>(files: seq<seq<T>>, S: nat, w: seq<T>)
    requires Holds(files, S, w)
    ensures |files| >= 1 && Global(S, |files| - 1, 0) <= |w|
    ensures files[|files| - 1] == w[Global(S, |files| - 1, 0)..]
  {
    ChunkStretch(files, S, w, |files| - 1);
  }

  /** The converse: full files but the last, read in order. */
  lemma {:induction false} FullOffset<T>(files: seq<seq<T>>, S: nat, c: nat)
    requires c < |files| && forall d: nat :: d < c ==> |files[d]| == S
    ensures Offset(files, c) == Global(S, c, 0)
  {
    if c > 0 {
      FullOffset(files, S, c - 1);
      FlatStep(files, c - 1);
      NextBase(S, c - 1);
    } else {
      assert files[..0] == [];
    }
  }
}
