/** The hash codes `solve_from_image` looks up for one image pattern
    (tetra3/tetra3.py:684-691): each edge ratio, widened by the allowed error
    and scaled to bins, gives a range of bins clamped to `[0, p_bins)`; every
    tuple of the ranges' product is sorted, and each distinct sorted tuple is
    one code handed to `_key_to_index`. The scaled, truncated bounds come in
    as integers. */
module CodeSpace {
  import ProbeTable

  /** `range(max(low, 0), min(high + 1, bins))`, in increasing order. */
  function BinRange(low: int, high: int, bins: int): (r: seq<int>)
    ensures forall k :: 0 <= k < |r| ==> r[k] == (if low > 0 then low else 0) + k
    decreases high - low
  {
    var start := if low > 0 then low else 0;
    var stop := if high + 1 < bins then high + 1 else bins;
    if start >= stop then [] else [start] + BinRange(start + 1, high, bins)
  }

  /** A bin is in the range exactly when it is at least `low` and 0 and at most
      `high` and below `bins`. */
  lemma {:induction false} BinRangeMembers(low: int, high: int, bins: int, c: int)
    ensures c in BinRange(low, high, bins) <==> (0 <= c && low <= c && c <= high && c < bins)
    decreases high - low
  {
    var start := if low > 0 then low else 0;
    var stop := if high + 1 < bins then high + 1 else bins;
    if start < stop {
      BinRangeMembers(start + 1, high, bins, c);
    }
  }

  /** One range per edge ratio, from the ratio's lower and upper bin. */
  function Ranges(lows: seq<int>, highs: seq<int>, bins: int): (r: seq<seq<int>>)
    requires |lows| == |highs|
    ensures |r| == |lows|
    ensures forall i :: 0 <= i < |r| ==> r[i] == BinRange(lows[i], highs[i], bins)
  {
    seq(|lows|, i requires 0 <= i < |lows| => BinRange(lows[i], highs[i], bins))
  }

  /** Every `tail` with `x` put in front, for each `x` of `xs` in turn. */
  function Prepend(xs: seq<int>, tails: seq<seq<int>>): seq<seq<int>>
  {
    if |xs| == 0 then []
    else seq(|tails|, j requires 0 <= j < |tails| => [xs[0]] + tails[j]) + Prepend(xs[1..], tails)
  }

  /** `itertools.product(*ranges)`: first coordinate slowest, last fastest. */
  function Product(ranges: seq<seq<int>>): seq<seq<int>>
    decreases |ranges|
  {
    if |ranges| == 0 then [[]] else Prepend(ranges[0], Product(ranges[1..]))
  }

  lemma {:induction false} PrependMembers(xs: seq<int>, tails: seq<seq<int>>, t: seq<int>)
    ensures t in Prepend(xs, tails) <==> |t| > 0 && t[0] in xs && t[1..] in tails
    decreases |xs|
  {
    if |xs| > 0 {
      var front := seq(|tails|, j requires 0 <= j < |tails| => [xs[0]] + tails[j]);
      PrependMembers(xs[1..], tails, t);
      if t in front {
        var j :| 0 <= j < |tails| && t == front[j];
        assert t[1..] == tails[j];
      }
      if |t| > 0 && t[0] == xs[0] && t[1..] in tails {
        var j :| 0 <= j < |tails| && t[1..] == tails[j];
        assert t == [t[0]] + t[1..] == front[j];
      }
      assert xs == [xs[0]] + xs[1..];
    }
  }

  /** A tuple is in the product exactly when it has one entry per range and
      each entry lies in its range. */
  lemma {:induction false} ProductMembers(ranges: seq<seq<int>>, t: seq<int>)
    ensures t in Product(ranges) <==> |t| == |ranges| && forall i :: 0 <= i < |t| ==> t[i] in ranges[i]
    decreases |ranges|
  {
    if |ranges| > 0 {
      PrependMembers(ranges[0], Product(ranges[1..]), t);
      if |t| > 0 {
        ProductMembers(ranges[1..], t[1..]);
        if |t| == |ranges| && forall i :: 0 <= i < |t| ==> t[i] in ranges[i] {
          forall i | 0 <= i < |t| - 1
            ensures t[1..][i] in ranges[1..][i]
          {
            assert t[1..][i] == t[i + 1];
          }
        }
        if t[0] in ranges[0] && t[1..] in Product(ranges[1..]) {
          forall i | 0 <= i < |t|
            ensures t[i] in ranges[i]
          {
            if i > 0 {
              assert t[i] == t[1..][i - 1];
            }
          }
        }
      }
    }
  }

  // ---------------------------------------------------------------------------
  // Sorting a tuple

  predicate Sorted(s: seq<int>) {
    forall i, j :: 0 <= i < j < |s| ==> s[i] <= s[j]
  }

  /** `x` put into the sorted `s` before its first larger entry. */
  function Insert(x: int, s: seq<int>): seq<int> {
    if |s| == 0 || x <= s[0] then [x] + s else [s[0]] + Insert(x, s[1..])
  }

  /** `sorted(code)`: ascending, by insertion. */
  function SortCode(t: seq<int>): seq<int> {
    if |t| == 0 then [] else Insert(t[0], SortCode(t[1..]))
  }

  lemma {:induction false} InsertKeeps(x: int, s: seq<int>)
    ensures multiset(Insert(x, s)) == multiset([x]) + multiset(s)
    decreases |s|
  {
    if |s| > 0 && x > s[0] {
      InsertKeeps(x, s[1..]);
      assert s == [s[0]] + s[1..];
    }
  }

  /** Every entry of a sorted tuple's tail is at least its head. */
  lemma SortedTail(s: seq<int>)
    requires |s| > 0 && Sorted(s)
    ensures Sorted(s[1..]) && forall y :: y in multiset(s[1..]) ==> s[0] <= y
  {
    var rest := s[1..];
    forall i, j | 0 <= i < j < |rest|
      ensures rest[i] <= rest[j]
    {
      assert rest[i] == s[i + 1] && rest[j] == s[j + 1];
    }
    forall y | y in multiset(rest)
      ensures s[0] <= y
    {
      var m :| 0 <= m < |rest| && rest[m] == y;
      assert rest[m] == s[m + 1];
    }
  }

  lemma {:induction false} InsertSorted(x: int, s: seq<int>)
    requires Sorted(s)
    ensures Sorted(Insert(x, s))
    decreases |s|
  {
    if |s| > 0 && x > s[0] {
      SortedTail(s);
      InsertSorted(x, s[1..]);
      InsertKeeps(x, s[1..]);
      var r := Insert(x, s[1..]);
      forall k | 0 <= k < |r|
        ensures s[0] <= r[k]
      {
        assert r[k] in multiset(r);
      }
    }
  }

  /** The sorted tuple is sorted and holds the same entries as the tuple. */
  lemma {:induction false} SortCodeSortsAndKeeps(t: seq<int>)
    ensures Sorted(SortCode(t))
    ensures multiset(SortCode(t)) == multiset(t)
    decreases |t|
  {
    if |t| > 0 {
      SortCodeSortsAndKeeps(t[1..]);
      InsertKeeps(t[0], SortCode(t[1..]));
      InsertSorted(t[0], SortCode(t[1..]));
      assert t == [t[0]] + t[1..];
    }
  }

  /** A tuple already in order is left as it is. */
  lemma {:induction false} SortCodeOfSorted(t: seq<int>)
    requires Sorted(t)
    ensures SortCode(t) == t
    decreases |t|
  {
    if |t| > 0 {
      var rest := t[1..];
      SortedTail(t);
      SortCodeOfSorted(rest);
      if |rest| > 0 {
        assert t[0] <= rest[0] == t[1];
      }
      assert [t[0]] + rest == t;
    }
  }

  // ---------------------------------------------------------------------------
  // The code space

  /** `set(tuple(sorted(code)) for code in itertools.product(*hash_code_space))`. */
  function Codes(lows: seq<int>, highs: seq<int>, bins: int): set<seq<int>>
    requires |lows| == |highs|
  {
    set t | t in Product(Ranges(lows, highs, bins)) :: SortCode(t)
  }

  /** Every code looked up is a sorted key of `|lows|` base-`bins` digits, so
      `_key_to_index` reads it as a number below `bins^|lows|`. */
  lemma CodesAreKeys(lows: seq<int>, highs: seq<int>, bins: int, code: seq<int>)
    requires |lows| == |highs| && bins > 0
    requires code in Codes(lows, highs, bins)
    ensures Sorted(code) && |code| == |lows| && ProbeTable.Digits(code, bins)
    ensures 0 <= ProbeTable.KeyValue(code, bins) < ProbeTable.Pow(bins, |lows|)
  {
    var ranges := Ranges(lows, highs, bins);
    var t :| t in Product(ranges) && code == SortCode(t);
    ProductMembers(ranges, t);
    SortCodeSortsAndKeeps(t);
    assert |code| == |multiset(code)| == |multiset(t)| == |t|;
    forall i | 0 <= i < |code|
      ensures 0 <= code[i] < bins
    {
      assert code[i] in multiset(t);
      var m :| 0 <= m < |t| && t[m] == code[i];
      BinRangeMembers(lows[m], highs[m], bins, t[m]);
    }
    ProbeTable.KeyValueRange(code, bins);
  }

  /** Each sorted code is looked up once: two different codes have different key values. */
  lemma CodesDistinctKeys(lows: seq<int>, highs: seq<int>, bins: int, a: seq<int>, b: seq<int>)
    requires |lows| == |highs| && bins > 0
    requires a in Codes(lows, highs, bins) && b in Codes(lows, highs, bins) && a != b
    ensures ProbeTable.KeyValue(a, bins) != ProbeTable.KeyValue(b, bins)
  {
    CodesAreKeys(lows, highs, bins, a);
    CodesAreKeys(lows, highs, bins, b);
    if ProbeTable.KeyValue(a, bins) == ProbeTable.KeyValue(b, bins) {
      ProbeTable.KeyValueInjective(a, b, bins);
    }
  }

  /** Every sorted key whose `i`-th bin lies within the `i`-th ratio's bounds
      and below `bins` is among the codes looked up; the catalogue stores its
      keys sorted, since a pattern's edge ratios are sorted. */
  lemma SortedKeyIsLookedUp(lows: seq<int>, highs: seq<int>, bins: int, key: seq<int>)
    requires |lows| == |highs| == |key| && Sorted(key)
    requires forall i :: 0 <= i < |key| ==> 0 <= key[i] < bins && lows[i] <= key[i] <= highs[i]
    ensures key in Codes(lows, highs, bins)
  {
    var ranges := Ranges(lows, highs, bins);
    forall i | 0 <= i < |key|
      ensures key[i] in ranges[i]
    {
      BinRangeMembers(lows[i], highs[i], bins, key[i]);
    }
    ProductMembers(ranges, key);
    SortCodeOfSorted(key);
  }
}
