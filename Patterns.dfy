/** `_generate_patterns_from_centroids` of tetra3 (tetra3/tetra3.py:120-146):
    every `pattern_size`-subset of the centroid indices, each once, in
    colexicographic order starting from `0..p-1`.

    The proof ranks each pattern by the combinatorial number system,
    `Rank(s) = sum C(s[k], k + 1)`, which numbers the p-subsets of `[0, n)`
    `0, 1, ..., C(n, p) - 1` in colexicographic order: one step of the
    generator adds exactly one to the rank. */
module Patterns {

  function Binomial(n: nat, k: nat): nat {
    if k == 0 then 1 else if n == 0 then 0 else Binomial(n - 1, k - 1) + Binomial(n - 1, k)
  }

  /** Strictly increasing indices in `[0, n)`: the index list of one pattern. */
  predicate Increasing(s: seq<int>, n: int) {
    (forall i :: 0 <= i < |s| ==> 0 <= s[i] < n) &&
    (forall i, j :: 0 <= i < j < |s| ==> s[i] < s[j])
  }

  predicate NonNegative(s: seq<int>) {
    forall i :: 0 <= i < |s| ==> s[i] >= 0
  }

  /** `m, m + 1, ..., m + len - 1`. */
  function Run(m: int, len: nat): (r: seq<int>)
    ensures |r| == len
  {
    seq(len, k => m + k)
  }

  /** Colexicographic rank of a pattern. */
  function Rank(s: seq<int>): nat
    requires NonNegative(s)
  {
    if |s| == 0 then 0 else Rank(s[..|s| - 1]) + Binomial(s[|s| - 1], |s|)
  }

  /** The index after position `j` in the generator's list `[-1] + s + [n]`. */
  function Next(s: seq<int>, n: int, j: nat): int
    requires j < |s|
  {
    if j + 1 < |s| then s[j + 1] else n
  }

  /** Incrementing position `j` keeps it below the next index. */
  predicate CanBump(s: seq<int>, n: int, j: nat)
    requires j < |s|
  {
    s[j] + 1 < Next(s, n, j)
  }

  /** Some position of the pattern can still be incremented. */
  predicate HasBump(s: seq<int>, n: int) {
    exists k :: 0 <= k < |s| && CanBump(s, n, k)
  }

  function FirstBumpFrom(s: seq<int>, n: int, j: nat): (i: nat)
    requires j <= |s|
    requires exists k :: j <= k < |s| && CanBump(s, n, k)
    ensures j <= i < |s| && CanBump(s, n, i)
    ensures forall k :: j <= k < i ==> !CanBump(s, n, k)
    decreases |s| - j
  {
    if CanBump(s, n, j) then j else FirstBumpFrom(s, n, j + 1)
  }

  /** The lowest position the generator's `for` loop can increment. */
  function FirstBump(s: seq<int>, n: int): (i: nat)
    requires HasBump(s, n)
    ensures i < |s| && CanBump(s, n, i)
    ensures forall k :: 0 <= k < i ==> !CanBump(s, n, k)
  {
    FirstBumpFrom(s, n, 0)
  }

  /** One step of the generator: bump the lowest position that can move and
      reset every position below it to `0, 1, ...`. */
  function Successor(s: seq<int>, n: int): (r: seq<int>)
    requires HasBump(s, n)
    ensures |r| == |s|
  {
    var i := FirstBump(s, n);
    seq(|s|, k requires 0 <= k < |s| => if k < i then k else if k == i then s[i] + 1 else s[k])
  }

  // ---------------------------------------------------------------------------
  // Binomial coefficients

  lemma {:induction false} BinomialAbove(n: nat, k: nat)
    requires k > n
    ensures Binomial(n, k) == 0
    decreases n
  {
    if n > 0 {
      BinomialAbove(n - 1, k - 1);
      BinomialAbove(n - 1, k);
    }
  }

  lemma {:induction false} BinomialDiagonal(n: nat)
    ensures Binomial(n, n) == 1
    decreases n
  {
    if n > 0 {
      BinomialDiagonal(n - 1);
      BinomialAbove(n - 1, n);
    }
  }

  lemma {:induction false} BinomialMonotone(a: nat, b: nat, k: nat)
    requires a <= b
    ensures Binomial(a, k) <= Binomial(b, k)
    decreases b - a
  {
    if a < b {
      BinomialMonotone(a, b - 1, k);
    }
  }

  lemma BinomialPositive(n: nat, k: nat)
    requires k <= n
    ensures Binomial(n, k) >= 1
  {
    BinomialMonotone(k, n, k);
    BinomialDiagonal(k);
  }

  // ---------------------------------------------------------------------------
  // Shape of increasing index lists

  /** Strictly increasing integers are at least as far apart as their positions. */
  lemma {:induction false} Spread(s: seq<int>, n: int, i: nat, j: nat)
    requires Increasing(s, n) && i <= j < |s|
    ensures s[j] - s[i] >= j - i
    decreases j - i
  {
    if i < j {
      Spread(s, n, i, j - 1);
      assert s[j - 1] < s[j];
    }
  }

  lemma IncreasingInit(s: seq<int>, n: int)
    requires Increasing(s, n) && |s| > 0
    ensures Increasing(s[..|s| - 1], s[|s| - 1])
  {
  }

  /** The only p-subset whose first index is `n - p` (or more) is the last one,
      `n-p, ..., n-1`: the generator's loop condition. */
  lemma LastPattern(s: seq<int>, n: int)
    requires Increasing(s, n) && |s| > 0 && s[0] >= n - |s|
    ensures s == Run(n - |s|, |s|)
  {
    var p := |s|;
    forall j | 0 <= j < p
      ensures s[j] == n - p + j
    {
      Spread(s, n, 0, j);
      Spread(s, n, j, p - 1);
    }
  }

  /** When no position can be bumped the pattern is the last one. */
  lemma NoBumpIsLast(s: seq<int>, n: int)
    requires Increasing(s, n) && |s| > 0
    requires forall k :: 0 <= k < |s| ==> !CanBump(s, n, k)
    ensures s[0] == n - |s|
  {
    var p := |s|;
    assert s[p - 1] == n - 1 by { assert !CanBump(s, n, p - 1); }
    NoBumpConsecutive(s, n, 0);
  }

  lemma {:induction false} NoBumpConsecutive(s: seq<int>, n: int, j: nat)
    requires Increasing(s, n) && j < |s|
    requires forall k :: 0 <= k < |s| ==> !CanBump(s, n, k)
    ensures s[|s| - 1] - s[j] == |s| - 1 - j
    decreases |s| - j
  {
    if j < |s| - 1 {
      assert !CanBump(s, n, j);
      NoBumpConsecutive(s, n, j + 1);
    }
  }

  /** Below the first bump position the indices are consecutive. */
  lemma {:induction false} PrefixConsecutive(s: seq<int>, n: int, i: nat, j: nat)
    requires Increasing(s, n) && i < |s| && j <= i
    requires forall k :: 0 <= k < i ==> !CanBump(s, n, k)
    ensures s[j] == s[0] + j
    decreases j
  {
    if j > 0 {
      PrefixConsecutive(s, n, i, j - 1);
      assert !CanBump(s, n, j - 1);
    }
  }

  /** The generator's step keeps the pattern strictly increasing inside `[0, n)`. */
  lemma SuccessorIncreasing(s: seq<int>, n: int)
    requires Increasing(s, n)
    requires HasBump(s, n)
    ensures Increasing(Successor(s, n), n)
  {
    var i := FirstBump(s, n);
    var r := Successor(s, n);
    Spread(s, n, 0, i);
    assert s[i] >= i;
    assert s[i] + 1 < Next(s, n, i);
    assert s[i] + 1 < n by {
      if i + 1 < |s| { assert s[i + 1] < n; }
    }
    forall a, b | 0 <= a < b < |r|
      ensures r[a] < r[b]
    {
      if b > i {
        if a == i {
          assert s[i + 1] <= s[b];
        } else if a > i {
          assert s[a] < s[b];
        } else {
          Spread(s, n, i, b);
        }
      }
    }
  }

  // ---------------------------------------------------------------------------
  // The colexicographic rank

  /** The rank of a run of consecutive indices: `C(m + len, len) - 1`. */
  lemma {:induction false} RankRun(m: nat, len: nat)
    ensures NonNegative(Run(m, len)) && Rank(Run(m, len)) + 1 == Binomial(m + len, len)
    decreases len
  {
    if len > 0 {
      RankRun(m, len - 1);
      assert Run(m, len)[..len - 1] == Run(m, len - 1);
    }
  }

  /** Positions from `i` on contribute the same to the rank of two patterns
      that agree there. */
  lemma {:induction false} RankCommonSuffix(a: seq<int>, b: seq<int>, i: nat)
    requires NonNegative(a) && NonNegative(b) && |a| == |b| && i <= |a|
    requires a[i..] == b[i..]
    ensures Rank(a) - Rank(a[..i]) == Rank(b) - Rank(b[..i])
    decreases |a| - i
  {
    var p := |a|;
    if i < p {
      var a', b' := a[..p - 1], b[..p - 1];
      assert a[p - 1] == a[i..][p - 1 - i] == b[i..][p - 1 - i] == b[p - 1];
      assert a'[i..] == b'[i..];
      assert a'[..i] == a[..i] && b'[..i] == b[..i];
      RankCommonSuffix(a', b', i);
    } else {
      assert a[..i] == a && b[..i] == b;
    }
  }

  lemma RankAppend(x: seq<int>, v: nat)
    requires NonNegative(x)
    ensures NonNegative(x + [v]) && Rank(x + [v]) == Rank(x) + Binomial(v, |x| + 1)
  {
    assert (x + [v])[..|x|] == x;
  }

  /** Below the first bump position the pattern is a run, so its head ranks
      one below `C(s[i] + 1, i + 1)`. */
  lemma RankPrefix(s: seq<int>, n: int, i: nat)
    requires Increasing(s, n) && i < |s|
    requires forall k :: 0 <= k < i ==> !CanBump(s, n, k)
    ensures NonNegative(s[..i + 1]) && Rank(s[..i + 1]) + 1 == Binomial(s[i] + 1, i + 1)
  {
    var m: nat := s[0];
    forall j | 0 <= j <= i
      ensures s[j] == m + j
    {
      PrefixConsecutive(s, n, i, j);
    }
    assert s[..i + 1] == Run(m, i + 1);
    RankRun(m, i + 1);
  }

  /** The reset head `0, 1, ..., i - 1, v` ranks `C(v, i + 1)`. */
  lemma RankResetHead(i: nat, v: nat)
    ensures NonNegative(Run(0, i) + [v]) && Rank(Run(0, i) + [v]) == Binomial(v, i + 1)
  {
    RankRun(0, i);
    BinomialDiagonal(i);
    RankAppend(Run(0, i), v);
  }

  /** One step of the generator, written out position by position, adds one
      to the rank. */
  lemma RankStep(s: seq<int>, n: int, i: nat, t: seq<int>)
    requires Increasing(s, n) && i < |s| == |t|
    requires t[i] == s[i] + 1
    requires forall k :: 0 <= k < i ==> t[k] == k && !CanBump(s, n, k)
    requires forall k :: i < k < |s| ==> t[k] == s[k]
    ensures NonNegative(s) && NonNegative(t) && Rank(t) == Rank(s) + 1
  {
    RankPrefix(s, n, i);
    assert t[..i + 1] == Run(0, i) + [s[i] + 1];
    RankResetHead(i, s[i] + 1);
    assert t[i + 1..] == s[i + 1..];
    assert NonNegative(t);
    RankCommonSuffix(t, s, i + 1);
  }

  /** One step of the generator adds one to the rank. */
  lemma RankSuccessor(s: seq<int>, n: int)
    requires Increasing(s, n)
    requires HasBump(s, n)
    ensures NonNegative(Successor(s, n)) && Rank(Successor(s, n)) == Rank(s) + 1
  {
    RankStep(s, n, FirstBump(s, n), Successor(s, n));
  }

  /** A pattern whose indices are all below `m` ranks below `C(m, p)`. */
  lemma {:induction false} RankBound(s: seq<int>, m: int)
    requires Increasing(s, m) && m >= 0
    ensures NonNegative(s) && Rank(s) < Binomial(m, |s|)
    decreases |s|
  {
    var p := |s|;
    if p > 0 {
      var last := s[p - 1];
      IncreasingInit(s, m);
      RankBound(s[..p - 1], last);
      BinomialMonotone(last + 1, m, p);
    }
  }

  /** Distinct patterns of one size have distinct ranks. */
  lemma {:induction false} RankInjective(s: seq<int>, t: seq<int>, n: int)
    requires Increasing(s, n) && Increasing(t, n) && |s| == |t|
    requires NonNegative(s) && NonNegative(t) && Rank(s) == Rank(t)
    ensures s == t
    decreases |s|
  {
    var p := |s|;
    if p > 0 {
      var ls, lt := s[p - 1], t[p - 1];
      IncreasingInit(s, n);
      IncreasingInit(t, n);
      RankBound(s[..p - 1], ls);
      RankBound(t[..p - 1], lt);
      if ls < lt {
        BinomialMonotone(ls + 1, lt, p);
        assert false;
      } else if lt < ls {
        BinomialMonotone(lt + 1, ls, p);
        assert false;
      }
      assert Increasing(s[..p - 1], n) && Increasing(t[..p - 1], n);
      RankInjective(s[..p - 1], t[..p - 1], n);
      assert s == s[..p - 1] + [ls] && t == t[..p - 1] + [lt];
    }
  }

  /** The list the generator's `for` loop leaves behind is the successor: it
      bumped position `i`, the first that could move, and reset those below. */
  lemma BumpIsSuccessor(s: seq<int>, n: int, i: nat, t: seq<int>)
    requires Increasing(s, n) && i < |s| == |t|
    requires t[i] == s[i] + 1 && t[i] < Next(s, n, i)
    requires forall k :: 0 <= k < i ==> t[k] == k && !CanBump(s, n, k)
    requires forall k :: i < k < |s| ==> t[k] == s[k]
    ensures HasBump(s, n)
    ensures t == Successor(s, n)
  {
    assert CanBump(s, n, i);
    assert FirstBump(s, n) == i;
  }

  /** What one pass of the generator's `while` loop achieves: the next list
      is again a pattern, and its rank is one more, still below `C(n, |s|)`. */
  lemma GeneratorStep(s: seq<int>, n: int)
    requires Increasing(s, n) && HasBump(s, n)
    ensures Increasing(Successor(s, n), n) && NonNegative(s) && NonNegative(Successor(s, n))
    ensures Rank(Successor(s, n)) == Rank(s) + 1 <= Binomial(n, |s|)
  {
    RankSuccessor(s, n);
    SuccessorIncreasing(s, n);
    RankBound(Successor(s, n), n);
  }

  // ---------------------------------------------------------------------------
  // The generator

  /** `star_centroids[pattern_indices[1:-1]]`: the centroids at the given indices. */
  function Pick<T>(centroids: seq<T>, indices: seq<int>): (r: seq<T>)
    requires forall k :: 0 <= k < |indices| ==> 0 <= indices[k] < |centroids|
    ensures |r| == |indices|
  {
    seq(|indices|, k requires 0 <= k < |indices| => centroids[indices[k]])
  }

  /** The generator's `for index_to_change in range(1, pattern_size + 1)` loop
      on `pattern_indices` (held in `pi`, sentinels `-1` and `n` included):
      it moves the pattern to its colexicographic successor. */
  method Advance(pi: array<int>, p: nat, n: int)
    requires pi.Length == p + 2 && pi[0] == -1 && pi[p + 1] == n
    requires Increasing(pi[1..p + 1], n) && p > 0 && pi[1] < n - p
    modifies pi
    ensures pi[0] == -1 && pi[p + 1] == n
    ensures HasBump(old(pi[1..p + 1]), n) && pi[1..p + 1] == Successor(old(pi[1..p + 1]), n)
  {
    ghost var s := pi[1..p + 1];
    var j := 1;
    while j <= p
      invariant 1 <= j <= p + 1
      invariant pi[0] == -1 && pi[p + 1] == n
      invariant forall k :: 1 <= k <= p ==> pi[k] == if k < j then k - 1 else s[k - 1]
      invariant forall k :: 0 <= k < j - 1 ==> !CanBump(s, n, k)
    {
      assert pi[j] == s[j - 1] && pi[j + 1] == Next(s, n, j - 1);
      pi[j] := pi[j] + 1;
      if pi[j] < pi[j + 1] {
        break;
      }
      pi[j] := pi[j - 1] + 1;
      j := j + 1;
    }
    if j > p {
      NoBumpIsLast(s, n);
      assert false;
    }
    ghost var t := pi[1..p + 1];
    assert forall k :: 0 <= k < p ==> t[k] == pi[k + 1];
    BumpIsSuccessor(s, n, j - 1, t);
  }

  /** The pattern the generator's `while` condition stops at ranks last. */
  lemma LastRank(s: seq<int>, n: int)
    requires Increasing(s, n) && n >= |s|
    requires |s| > 0 ==> s[0] >= n - |s|
    ensures NonNegative(s) && Rank(s) + 1 == Binomial(n, |s|)
  {
    var p := |s|;
    if p > 0 {
      LastPattern(s, n);
      var m: nat := n - p;
      RankRun(m, p);
      assert m + p == n;
    }
  }

  /** The `k`-th entry of `indices` is a p-subset of `[0, n)` of rank `k`. */
  predicate Ranked(indices: seq<seq<int>>, n: int, p: nat) {
    forall k :: 0 <= k < |indices| ==>
      Increasing(indices[k], n) && |indices[k]| == p && NonNegative(indices[k]) && Rank(indices[k]) == k
  }

  lemma RankedAppend(indices: seq<seq<int>>, t: seq<int>, n: int, p: nat)
    requires Ranked(indices, n, p)
    requires Increasing(t, n) && |t| == p && NonNegative(t) && Rank(t) == |indices|
    ensures Ranked(indices + [t], n, p)
  {
  }

  /** Each of `patterns` holds the centroids at the matching index list. */
  ghost predicate Picked<T>(centroids: seq<T>, patterns: seq<seq<T>>, indices: seq<seq<int>>) {
    |patterns| == |indices| &&
    forall k :: 0 <= k < |indices| ==>
      Increasing(indices[k], |centroids|) && patterns[k] == Pick(centroids, indices[k])
  }

  lemma PickedAppend<T>(centroids: seq<T>, patterns: seq<seq<T>>, indices: seq<seq<int>>, t: seq<int>)
    requires Picked(centroids, patterns, indices) && Increasing(t, |centroids|)
    ensures Picked(centroids, patterns + [Pick(centroids, t)], indices + [t])
  {
  }

  /** A list of patterns ranked `0, 1, ..., C(n, p) - 1` in order holds every
      p-subset of `[0, n)`, each once. */
  lemma ListedOnce(indices: seq<seq<int>>, n: int, p: nat)
    requires n >= 0 && |indices| == Binomial(n, p)
    requires Ranked(indices, n, p)
    ensures forall k, l :: 0 <= k < l < |indices| ==> indices[k] != indices[l]
    ensures forall s :: |s| == p && Increasing(s, n) ==> s in indices
  {
    forall s | |s| == p && Increasing(s, n)
      ensures s in indices
    {
      RankBound(s, n);
      RankInjective(s, indices[Rank(s)], n);
    }
  }

  /** One pass of the generator's loop: the successor of the last pattern
      listed comes next in rank, and the lists stay ranked and picked. */
  lemma ListsStep<T>(centroids: seq<T>, patterns: seq<seq<T>>, indices: seq<seq<int>>, s: seq<int>)
    requires Increasing(s, |centroids|) && NonNegative(s) && HasBump(s, |centroids|)
    requires |indices| == Rank(s) + 1
    requires Ranked(indices, |centroids|, |s|) && Picked(centroids, patterns, indices)
    ensures var t := Successor(s, |centroids|);
      Increasing(t, |centroids|) && NonNegative(t) && Rank(s) < Rank(t) <= Binomial(|centroids|, |s|) &&
      |indices + [t]| == Rank(t) + 1 &&
      Ranked(indices + [t], |centroids|, |s|) && Picked(centroids, patterns + [Pick(centroids, t)], indices + [t])
  {
    var t := Successor(s, |centroids|);
    GeneratorStep(s, |centroids|);
    RankedAppend(indices, t, |centroids|, |s|);
    PickedAppend(centroids, patterns, indices, t);
  }

  /** `_generate_patterns_from_centroids(star_centroids, pattern_size)`, with the
      yielded values collected in order: `patterns` are the centroid rows,
      `indices` the index lists they were taken at. */
  method GeneratePatterns<T>(centroids: seq<T>, p: nat) returns (patterns: seq<seq<T>>, indices: seq<seq<int>>)
    ensures |patterns| == |indices|
    ensures forall k :: 0 <= k < |indices| ==>
      Increasing(indices[k], |centroids|) && |indices[k]| == p && patterns[k] == Pick(centroids, indices[k])
    ensures |centroids| < p ==> indices == []
    ensures |centroids| >= p ==> |indices| == Binomial(|centroids|, p) > 0 && indices[0] == Run(0, p)
    ensures Ranked(indices, |centroids|, p)
    ensures forall k, l :: 0 <= k < l < |indices| ==> indices[k] != indices[l]
    ensures forall s :: |s| == p && Increasing(s, |centroids|) && |centroids| >= p ==> s in indices
  {
    var n := |centroids|;
    if n < p {
      return [], [];
    }
    var pi := new int[p + 2](k => if k == 0 then -1 else if k == p + 1 then n else k - 1);
    assert pi[1..p + 1] == Run(0, p);
    RankRun(0, p);
    BinomialDiagonal(p);
    indices := [pi[1..p + 1]];
    patterns := [Pick(centroids, pi[1..p + 1])];
    while pi[1] < n - p
      invariant pi.Length == p + 2 && pi[0] == -1 && pi[p + 1] == n
      invariant Increasing(pi[1..p + 1], n) && NonNegative(pi[1..p + 1])
      invariant |indices| == Rank(pi[1..p + 1]) + 1
      invariant indices[0] == Run(0, p)
      invariant Ranked(indices, n, p) && Picked(centroids, patterns, indices)
      decreases Binomial(n, p) - Rank(pi[1..p + 1])
    {
      ghost var s := pi[1..p + 1];
      Advance(pi, p, n);
      var t := pi[1..p + 1];
      ListsStep(centroids, patterns, indices, s);
      indices := indices + [t];
      patterns := patterns + [Pick(centroids, t)];
    }
    LastRank(pi[1..p + 1], n);
    ListedOnce(indices, n, p);
  }
}
