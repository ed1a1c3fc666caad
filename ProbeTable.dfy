/** The open-addressed pattern catalogue of tetra3: keys are hashed with a
    multiplicative constant, rows are stored with quadratic probing, and a row
    whose entries are all zero marks an empty slot (tetra3/tetra3.py:87-117). */
module ProbeTable {
  import opened Arith

  /** `_MAGIC_RAND`, the multiplier that scrambles a key's integer value. */
  const MagicRand: int := 2654435761

  function Pow(b: int, e: nat): int {
    if e == 0 then 1 else b * Pow(b, e - 1)
  }

  /** `sum(int(val) * int(bin_factor)**i for (i, val) in enumerate(key))`,
      accumulated left to right. */
  function KeyValue(key: seq<int>, binFactor: int): int {
    if |key| == 0 then 0
    else KeyValue(key[..|key| - 1], binFactor) + key[|key| - 1] * Pow(binFactor, |key| - 1)
  }

  /** `_key_to_index`: the key's value times `_MAGIC_RAND`, modulo the table size.
      Python's `%` with a positive modulus is the same as Dafny's. */
  function KeyToIndex(key: seq<int>, binFactor: int, maxIndex: int): (r: int)
    requires maxIndex > 0
    ensures 0 <= r < maxIndex
  {
    (KeyValue(key, binFactor) * MagicRand) % maxIndex
  }

  /** The key value read most-significant-digit last, as Horner's rule. */
  lemma {:induction false} KeyValueHorner(key: seq<int>, b: int)
    requires |key| > 0
    ensures KeyValue(key, b) == key[0] + b * KeyValue(key[1..], b)
    decreases |key|
  {
    var n := |key|;
    if n == 1 {
      assert key[..0] == [];
      assert key[1..] == [];
    } else {
      var init := key[..n - 1];
      KeyValueHorner(init, b);
      assert init[1..] == key[1..][..n - 2];
      assert init[0] == key[0];
      calc {
        KeyValue(key, b);
        KeyValue(init, b) + key[n - 1] * Pow(b, n - 1);
        key[0] + b * KeyValue(init[1..], b) + key[n - 1] * (b * Pow(b, n - 2));
        key[0] + b * (KeyValue(key[1..][..n - 2], b) + key[1..][n - 2] * Pow(b, n - 2));
        key[0] + b * KeyValue(key[1..], b);
      }
    }
  }

  predicate Digits(key: seq<int>, b: int) {
    forall i :: 0 <= i < |key| ==> 0 <= key[i] < b
  }

  /** A key of base-`b` digits has a value in `[0, b^|key|)`. */
  lemma {:induction false} KeyValueRange(key: seq<int>, b: int)
    requires b > 0 && Digits(key, b)
    ensures 0 <= KeyValue(key, b) < Pow(b, |key|)
    decreases |key|
  {
    if |key| > 0 {
      KeyValueHorner(key, b);
      KeyValueRange(key[1..], b);
      DigitThenRest(key[0], KeyValue(key[1..], b), b, Pow(b, |key| - 1));
    }
  }

  /** A digit followed by a value below `p` reads as a value below `b * p`. */
  lemma DigitThenRest(d: int, v: int, b: int, p: int)
    requires 0 <= d < b && 0 <= v < p
    ensures 0 <= d + b * v < b * p
  {
    MulMonotone(b, 0, v);
    MulMonotone(b, v, p - 1);
  }

  /** Reading a key as a base-`bin_factor` number is injective on keys of one
      length whose entries are digits: distinct hash codes get distinct values
      before the modulo. */
  lemma {:induction false} KeyValueInjective(k1: seq<int>, k2: seq<int>, b: int)
    requires b > 0 && |k1| == |k2| && Digits(k1, b) && Digits(k2, b)
    requires KeyValue(k1, b) == KeyValue(k2, b)
    ensures k1 == k2
    decreases |k1|
  {
    if |k1| > 0 {
      KeyValueHorner(k1, b);
      KeyValueHorner(k2, b);
      KeyValueRange(k1[1..], b);
      KeyValueRange(k2[1..], b);
      var v1, v2 := KeyValue(k1[1..], b), KeyValue(k2[1..], b);
      DigitSplit(k1[0], v1, k2[0], v2, b);
      KeyValueInjective(k1[1..], k2[1..], b);
      assert k1 == [k1[0]] + k1[1..];
      assert k2 == [k2[0]] + k2[1..];
    }
  }

  lemma DigitSplit(d1: int, v1: int, d2: int, v2: int, b: int)
    requires b > 0 && 0 <= d1 < b && 0 <= d2 < b
    requires d1 + b * v1 == d2 + b * v2
    ensures d1 == d2 && v1 == v2
  {
    if v1 < v2 {
      assert b * v2 >= b * (v1 + 1) by { MulMonotone(b, v1 + 1, v2); }
      assert false;
    } else if v2 < v1 {
      assert b * v1 >= b * (v2 + 1) by { MulMonotone(b, v2 + 1, v1); }
      assert false;
    }
  }

  // ---------------------------------------------------------------------------
  // Quadratic probing

  /** The `c`-th probe position `(index + c**2) % max_ind`. */
  function Probe(index: int, c: int, n: int): (i: int)
    requires n > 0
    ensures 0 <= i < n
  {
    (index + c * c) % n
  }

  /** `all(table[i, :] == 0)`: the slot holds no row. */
  predicate Empty(row: seq<int>) {
    forall k :: 0 <= k < |row| ==> row[k] == 0
  }

  /** Some probe offset below the table size reaches an empty slot. */
  predicate EmptyReachable(rows: seq<seq<int>>, index: int)
    requires |rows| > 0
  {
    exists c :: 0 <= c < |rows| && Empty(rows[Probe(index, c, |rows|)])
  }

  /** The smallest probe offset, from `c` on, that lands on an empty slot. */
  function FirstEmptyFrom(rows: seq<seq<int>>, index: int, c: nat): (k: nat)
    requires |rows| > 0
    requires exists c' :: c <= c' < |rows| && Empty(rows[Probe(index, c', |rows|)])
    ensures c <= k < |rows| && Empty(rows[Probe(index, k, |rows|)])
    ensures forall j :: c <= j < k ==> !Empty(rows[Probe(index, j, |rows|)])
    decreases |rows| - c
  {
    if Empty(rows[Probe(index, c, |rows|)]) then c
    else FirstEmptyFrom(rows, index, c + 1)
  }

  function FirstEmpty(rows: seq<seq<int>>, index: int): (k: nat)
    requires |rows| > 0 && EmptyReachable(rows, index)
    ensures k < |rows| && Empty(rows[Probe(index, k, |rows|)])
    ensures forall j :: 0 <= j < k ==> !Empty(rows[Probe(index, j, |rows|)])
  {
    FirstEmptyFrom(rows, index, 0)
  }

  /** What `_get_at_index` collects: the rows met, in probe order, before the
      first empty slot. */
  function ProbeRun(rows: seq<seq<int>>, index: int): seq<seq<int>>
    requires |rows| > 0 && EmptyReachable(rows, index)
  {
    seq(FirstEmpty(rows, index), c requires 0 <= c < |rows| => rows[Probe(index, c, |rows|)])
  }

  /** What `_insert_at_index` leaves behind: `item` written into the first
      empty slot on the probe sequence, every other row unchanged. */
  function Inserted(rows: seq<seq<int>>, index: int, item: seq<int>): seq<seq<int>>
    requires |rows| > 0 && EmptyReachable(rows, index)
  {
    rows[Probe(index, FirstEmpty(rows, index), |rows|) := item]
  }

  /** The probe sequence is periodic with the table size, because
      `(c + n)**2 = c**2 + n*(2*c + n)`. */
  lemma ProbePeriodic(index: int, c: int, n: int)
    requires n > 0
    ensures Probe(index, c + n, n) == Probe(index, c, n)
  {
    var m := 2 * c + n;
    assert (c + n) * (c + n) == c * c + n * m;
    ModAddMultiple(index + c * c, m, n);
  }

  lemma ModAddMultiple(x: int, m: int, n: int)
    requires n > 0
    ensures (x + n * m) % n == x % n
  {
    var q, r := x / n, x % n;
    assert x == n * q + r;
    assert x + n * m == n * (q + m) + r;
    DivModUnique(x + n * m, n, q + m, r);
  }

  /** Every probe offset, however large, lands where the offset reduced modulo
      the table size lands. */
  lemma {:induction false} ProbeBelowSize(index: int, c: nat, n: int)
    requires n > 0
    ensures 0 <= c % n < n && Probe(index, c, n) == Probe(index, c % n, n)
    decreases c
  {
    if c >= n {
      var d: nat := c - n;
      ProbePeriodic(index, d, n);
      ProbeBelowSize(index, d, n);
      DivModUnique(d, n, d / n, d % n);
      DivModUnique(c, n, d / n + 1, d % n);
    } else {
      DivModUnique(c, n, 0, c);
    }
  }

  /** Without an empty slot at an offset below the table size, no probe offset
      at all reaches one: the source's unbounded `itertools.count()` loops in
      `_insert_at_index` and `_get_at_index` then never return. */
  lemma NoEmptyNeverEnds(rows: seq<seq<int>>, index: int, c: nat)
    requires |rows| > 0 && !EmptyReachable(rows, index)
    ensures !Empty(rows[Probe(index, c, |rows|)])
  {
    ProbeBelowSize(index, c, |rows|);
  }

  /** `_insert_at_index(item, index, table)`: probes `(index + c**2) % n` for
      `c = 0, 1, ...` and writes `item` into the first all-zero row. */
  method InsertAtIndex(item: seq<int>, index: int, table: array<seq<int>>)
    requires table.Length > 0 && EmptyReachable(table[..], index)
    requires forall r :: 0 <= r < table.Length ==> |table[r]| == |item|
    modifies table
    ensures table[..] == Inserted(old(table[..]), index, item)
  {
    var maxInd := table.Length;
    ghost var rows := table[..];
    ghost var k := FirstEmpty(rows, index);
    var c := 0;
    while true
      invariant 0 <= c <= k
      invariant table[..] == rows
      decreases k - c
    {
      var i := (index + c * c) % maxInd;
      assert i == Probe(index, c, maxInd);
      if Empty(table[i]) {
        table[i] := item;
        return;
      }
      c := c + 1;
    }
  }

  /** `_get_at_index(index, table)`: the rows along the probe sequence up to,
      not including, the first all-zero row. */
  method GetAtIndex(index: int, table: array<seq<int>>) returns (found: seq<seq<int>>)
    requires table.Length > 0 && EmptyReachable(table[..], index)
    ensures found == ProbeRun(table[..], index)
  {
    var maxInd := table.Length;
    ghost var rows := table[..];
    ghost var k := FirstEmpty(rows, index);
    found := [];
    var c := 0;
    while true
      invariant 0 <= c <= k
      invariant |found| == c
      invariant forall j :: 0 <= j < c ==> found[j] == rows[Probe(index, j, maxInd)]
      decreases k - c
    {
      var i := (index + c * c) % maxInd;
      assert i == Probe(index, c, maxInd);
      if Empty(table[i]) {
        return;
      }
      found := found + [table[i]];
      c := c + 1;
    }
  }

  // ---------------------------------------------------------------------------
  // Properties of the catalogue

  /** Every row `_get_at_index` returns is occupied, and the result is empty
      exactly when the start slot is empty. */
  lemma ProbeRunShape(rows: seq<seq<int>>, index: int)
    requires |rows| > 0 && EmptyReachable(rows, index)
    ensures forall r :: r in ProbeRun(rows, index) ==> !Empty(r)
    ensures |ProbeRun(rows, index)| == 0 <==> Empty(rows[index % |rows|])
  {
    assert Probe(index, 0, |rows|) == index % |rows|;
  }

  /** Round trip: after inserting a non-empty row, looking up the same start
      index finds what it found before, then the new row, provided an empty
      slot is still reachable afterwards. */
  lemma {:induction false} InsertThenGet(rows: seq<seq<int>>, index: int, item: seq<int>)
    requires |rows| > 0 && EmptyReachable(rows, index) && !Empty(item)
    requires EmptyReachable(Inserted(rows, index, item), index)
    ensures var before, after := ProbeRun(rows, index), ProbeRun(Inserted(rows, index, item), index);
      |before| < |after| && after[..|before|] == before && after[|before|] == item
  {
    var n := |rows|;
    var k := FirstEmpty(rows, index);
    var slot := Probe(index, k, n);
    var rows' := Inserted(rows, index, item);
    var k' := FirstEmpty(rows', index);
    forall j | 0 <= j < k
      ensures rows'[Probe(index, j, n)] == rows[Probe(index, j, n)]
      ensures !Empty(rows'[Probe(index, j, n)])
    {
      assert !Empty(rows[Probe(index, j, n)]);
      assert Probe(index, j, n) != slot;
    }
    assert rows'[slot] == item;
    if k' <= k {
      assert false;
    }
    var before, after := ProbeRun(rows, index), ProbeRun(rows', index);
    assert |before| == k && |after| == k';
    assert after[..k] == before;
    assert after[k] == item;
  }

  /** Consequence of the round trip: the inserted row is among those found. */
  lemma InsertedIsFound(rows: seq<seq<int>>, index: int, item: seq<int>)
    requires |rows| > 0 && EmptyReachable(rows, index) && !Empty(item)
    requires EmptyReachable(Inserted(rows, index, item), index)
    ensures item in ProbeRun(Inserted(rows, index, item), index)
  {
    InsertThenGet(rows, index, item);
  }

  /** The catalogue is sized to twice the pattern count, which is not prime in
      general; with eight slots, the probes from start 0 visit only slots 0, 1
      and 4, so a table holding four rows can leave no empty slot reachable. */
  lemma EightSlotProbes(c: nat)
    ensures Probe(0, c, 8) in {0, 1, 4}
  {
    ProbeBelowSize(0, c, 8);
    var r := c % 8;
    assert r == 0 || r == 1 || r == 2 || r == 3 || r == 4 || r == 5 || r == 6 || r == 7;
  }
}
