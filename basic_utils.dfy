/**
 * The iteration helpers of src/utils/basicUtils.ts: number ranges, the nested
 * (Cartesian product) loop, and the Y-major linear index of a cell in a cube.
 */
module BasicUtils {

  // ---------------------------------------------------------------------------
  // createRange
  // ---------------------------------------------------------------------------

  /**
   * The values that createRange(start, end, step) yields: start, start + step,
   * ... while the value is below end. With a non-positive step and start < end
   * the iterator never finishes, so that case is excluded.
   */
  function RangeValues(start: int, end: int, step: int): seq<int>
    requires step > 0 || end <= start
    decreases if start < end then end - start else 0
  {
    if start < end then [start] + RangeValues(start + step, end, step) else []
  }

  /** The iterator object that createRange's [Symbol.iterator]() returns. */
  class RangeIterator {
    const end: int
    const step: int
    /** Never advanced by the source: the value reported once the range is done. */
    const counter: int
    var nextIndex: int

    constructor (start: int, end: int, step: int)
      ensures this.end == end && this.step == step
      ensures counter == 0 && nextIndex == start
    {
      this.end := end;
      this.step := step;
      counter := 0;
      nextIndex := start;
    }

    /** next(): yields the current index and advances it by step, or reports done. */
    method Next() returns (value: int, done: bool)
      modifies this
      ensures done <==> !(old(nextIndex) < end)
      ensures !done ==> value == old(nextIndex) && nextIndex == old(nextIndex) + step
      ensures done ==> value == counter && nextIndex == old(nextIndex)
    {
      if nextIndex < end {
        value, done := nextIndex, false;
        nextIndex := nextIndex + step;
      } else {
        value, done := counter, true;
      }
    }
  }

  /**
   * createRange(start, end, step) as every caller consumes it: a fresh
   * iterator driven until it reports done, its values collected in order.
   */
  method CreateRange(start: int, end: int, step: int) returns (values: seq<int>)
    requires step > 0 || end <= start
    ensures values == RangeValues(start, end, step)
  {
    var it := new RangeIterator(start, end, step);
    values := [];
    while true
      invariant it.end == end && it.step == step
      invariant step > 0 || end <= it.nextIndex
      invariant values + RangeValues(it.nextIndex, end, step) == RangeValues(start, end, step)
      decreases if it.nextIndex < end then end - it.nextIndex else 0
    {
      var value, done := it.Next();
      if done {
        break;
      }
      values := values + [value];
    }
  }

  /** The k-th value of a range is start + k * step, and every value is below end. */
  lemma {:induction false} RangeValuesAt(start: int, end: int, step: int, k: int)
    requires step > 0 || end <= start
    requires 0 <= k < |RangeValues(start, end, step)|
    ensures RangeValues(start, end, step)[k] == start + k * step
    ensures RangeValues(start, end, step)[k] < end
    decreases if start < end then end - start else 0
  {
    if k > 0 {
      RangeValuesAt(start + step, end, step, k - 1);
    }
  }

  /** The range stops at the first value that is not below end. */
  lemma {:induction false} RangeValuesStop(start: int, end: int, step: int)
    requires step > 0 || end <= start
    ensures start + |RangeValues(start, end, step)| * step >= end
    decreases if start < end then end - start else 0
  {
    if start < end {
      RangeValuesStop(start + step, end, step);
    }
  }

  predicate StrictlyIncreasing(s: seq<int>) {
    forall i, j :: 0 <= i < j < |s| ==> s[i] < s[j]
  }

  /**
   * createRange with a positive step: the values are start, start + step, ...,
   * strictly increasing, all below end, and the next value would not be.
   */
  lemma RangeProperties(start: int, end: int, step: int)
    requires step > 0
    ensures var r := RangeValues(start, end, step);
      && (forall k :: 0 <= k < |r| ==> r[k] == start + k * step && r[k] < end)
      && start + |r| * step >= end
      && StrictlyIncreasing(r)
  {
    var r := RangeValues(start, end, step);
    forall k | 0 <= k < |r|
      ensures r[k] == start + k * step && r[k] < end
    {
      RangeValuesAt(start, end, step, k);
    }
    RangeValuesStop(start, end, step);
    forall i, j | 0 <= i < j < |r|
      ensures r[i] < r[j]
    {
      RangeValuesAt(start, end, step, i);
      RangeValuesAt(start, end, step, j);
      assert r[j] - r[i] == (j - i) * step;
    }
  }

  function Max0(n: int): nat {
    if n < 0 then 0 else n
  }

  /** With the default step 1 the range holds exactly max(0, end - start) values. */
  lemma {:induction false} RangeUnitLength(start: int, end: int)
    ensures |RangeValues(start, end, 1)| == Max0(end - start)
    decreases if start < end then end - start else 0
  {
    if start < end {
      RangeUnitLength(start + 1, end);
    }
  }

  /** createRange(0, max) holds 0, 1, ..., max - 1. */
  lemma IotaRange(max: int)
    ensures |RangeValues(0, max, 1)| == Max0(max)
    ensures forall k :: 0 <= k < |RangeValues(0, max, 1)| ==> RangeValues(0, max, 1)[k] == k
  {
    RangeUnitLength(0, max);
    forall k | 0 <= k < |RangeValues(0, max, 1)|
      ensures RangeValues(0, max, 1)[k] == k
    {
      RangeValuesAt(0, max, 1, k);
    }
  }

  lemma IotaRanges()
    ensures forall max: int :: |RangeValues(0, max, 1)| == Max0(max)
    ensures forall max: int, k :: 0 <= k < |RangeValues(0, max, 1)| ==> RangeValues(0, max, 1)[k] == k
  {
    forall max: int
      ensures |RangeValues(0, max, 1)| == Max0(max)
      ensures forall k :: 0 <= k < |RangeValues(0, max, 1)| ==> RangeValues(0, max, 1)[k] == k
    {
      IotaRange(max);
    }
  }

  // ---------------------------------------------------------------------------
  // createSimpleRanges and getRangesFromMax
  // ---------------------------------------------------------------------------

  /** createSimpleRanges(...maxes): one range [0, max) per argument, in argument order. */
  function CreateSimpleRanges(maxes: seq<int>): (ranges: seq<seq<int>>)
    ensures |ranges| == |maxes|
    ensures forall i :: 0 <= i < |maxes| ==> |ranges[i]| == Max0(maxes[i])
    ensures forall i, k :: 0 <= i < |maxes| && 0 <= k < |ranges[i]| ==> ranges[i][k] == k
  {
    IotaRanges();
    seq(|maxes|, i requires 0 <= i < |maxes| => RangeValues(0, maxes[i], 1))
  }

  /** getRangesFromMax(...maxes): written out again in the source, it yields what createSimpleRanges does. */
  function GetRangesFromMax(maxes: seq<int>): (ranges: seq<seq<int>>)
    ensures ranges == CreateSimpleRanges(maxes)
  {
    seq(|maxes|, i requires 0 <= i < |maxes| => RangeValues(0, maxes[i], 1))
  }

  // ---------------------------------------------------------------------------
  // deepLoop
  // ---------------------------------------------------------------------------

  /**
   * deepLoop(ranges, fn) as the sequence of argument lists it passes to fn, in
   * call order. Each range is given by the values its iterator yields (the
   * source spreads a range afresh each time it loops over it).
   */
  function DeepLoop(ranges: seq<seq<int>>): (r: seq<seq<int>>)
    ensures |ranges| == 0 ==> r == []
    ensures |ranges| >= 1 ==> |r| == LengthProduct(ranges)
    ensures forall t :: t in r ==> Drawn(t, [], ranges)
  {
    if |ranges| == 0 then []
    else if |ranges| == 1 then
      var r := seq(|ranges[0]|, k requires 0 <= k < |ranges[0]| => [ranges[0][k]]);
      assert r == RecursiveLoop([], ranges) by {
        var loop := RecursiveLoop([], ranges);
        assert forall k | 0 <= k < |r| :: r[k] == loop[k];
      }
      r
    else
      assert [ranges[0]] + ranges[1..] == ranges;
      LoopEach([], ranges[0], ranges[1..])
  }

  /**
   * An argument list made of values followed by one value drawn from each of
   * ranges, in order.
   */
  predicate Drawn(t: seq<int>, values: seq<int>, ranges: seq<seq<int>>)
  {
    && |t| == |values| + |ranges|
    && t[..|values|] == values
    && forall i :: 0 <= i < |ranges| ==> t[|values| + i] in ranges[i]
  }

  /** recursiveLoop(values, ranges, fn), which the source calls with at least one range. */
  function RecursiveLoop(values: seq<int>, ranges: seq<seq<int>>): (r: seq<seq<int>>)
    requires |ranges| >= 1
    ensures |r| == LengthProduct(ranges)
    ensures forall t :: t in r ==> Drawn(t, values, ranges)
    decreases |ranges|, 1, 0
  {
    if |ranges| == 1 then
      var r := seq(|ranges[0]|, k requires 0 <= k < |ranges[0]| => values + [ranges[0][k]]);
      assert forall t :: t in r ==> Drawn(t, values, ranges) by {
        forall t | t in r ensures Drawn(t, values, ranges) {
          var k :| 0 <= k < |r| && r[k] == t;
          assert t[..|values|] == values;
        }
      }
      r
    else
      assert [ranges[0]] + ranges[1..] == ranges;
      LoopEach(values, ranges[0], ranges[1..])
  }

  /** For each value i of range in order, the recursion on the remaining ranges with i appended to values. */
  function LoopEach(values: seq<int>, range: seq<int>, rest: seq<seq<int>>): (r: seq<seq<int>>)
    requires |rest| >= 1
    ensures |r| == |range| * LengthProduct(rest)
    ensures forall t :: t in r ==> Drawn(t, values, [range] + rest)
    decreases |rest| + 1, 0, |range|
  {
    if range == [] then []
    else
      var head := RecursiveLoop(values + [range[0]], rest);
      var tail := LoopEach(values, range[1..], rest);
      assert |head| + |tail| == |range| * LengthProduct(rest) by {
        assert |range| * LengthProduct(rest) == LengthProduct(rest) + (|range| - 1) * LengthProduct(rest);
      }
      assert forall t :: t in head ==> Drawn(t, values, [range] + rest) by {
        forall t | t in head ensures Drawn(t, values, [range] + rest) {
          DrawnHead(t, values, range[0], range, rest);
        }
      }
      assert forall t :: t in tail ==> Drawn(t, values, [range] + rest) by {
        forall t | t in tail ensures Drawn(t, values, [range] + rest) {
          DrawnTail(t, values, range, rest);
        }
      }
      head + tail
  }

  /** An argument list built with the first value of range is drawn from range and rest. */
  lemma DrawnHead(t: seq<int>, values: seq<int>, v: int, range: seq<int>, rest: seq<seq<int>>)
    requires v in range && Drawn(t, values + [v], rest)
    ensures Drawn(t, values, [range] + rest)
  {
    var n := |values|;
    assert t[..n] == (t[..n + 1])[..n];
    forall i | 0 <= i < 1 + |rest| ensures t[n + i] in ([range] + rest)[i] {
      if i == 0 { assert t[n] == (t[..n + 1])[n]; } else { assert t[n + i] == t[(n + 1) + (i - 1)]; }
    }
  }

  /** An argument list drawn from a suffix of range is drawn from range itself. */
  lemma DrawnTail(t: seq<int>, values: seq<int>, range: seq<int>, rest: seq<seq<int>>)
    requires range != [] && Drawn(t, values, [range[1..]] + rest)
    ensures Drawn(t, values, [range] + rest)
  {
    var n := |values|;
    forall i | 0 <= i < 1 + |rest| ensures t[n + i] in ([range] + rest)[i] {
      if i == 0 { assert t[n] in range[1..]; } else { assert ([range] + rest)[i] == ([range[1..]] + rest)[i]; }
    }
  }

  // Reference definition: the Cartesian product in lexicographic order.

  function Prepend(values: seq<int>, tuples: seq<seq<int>>): (r: seq<seq<int>>)
    ensures |r| == |tuples|
  {
    seq(|tuples|, k requires 0 <= k < |tuples| => values + tuples[k])
  }

  function PrefixEach(range: seq<int>, tails: seq<seq<int>>): seq<seq<int>>
  {
    if range == [] then [] else Prepend([range[0]], tails) + PrefixEach(range[1..], tails)
  }

  function Product(ranges: seq<seq<int>>): seq<seq<int>>
  {
    if ranges == [] then [[]] else PrefixEach(ranges[0], Product(ranges[1..]))
  }

  function LengthProduct(ranges: seq<seq<int>>): nat
  {
    if ranges == [] then 1 else |ranges[0]| * LengthProduct(ranges[1..])
  }

  /** Strict lexicographic order on argument lists. */
  predicate LexLess(a: seq<int>, b: seq<int>)
  {
    if a == [] then b != []
    else b != [] && (a[0] < b[0] || (a[0] == b[0] && LexLess(a[1..], b[1..])))
  }

  predicate LexSorted(ts: seq<seq<int>>)
  {
    forall i, j :: 0 <= i < j < |ts| ==> LexLess(ts[i], ts[j])
  }

  lemma PrependConcat(values: seq<int>, a: seq<seq<int>>, b: seq<seq<int>>)
    ensures Prepend(values, a + b) == Prepend(values, a) + Prepend(values, b)
  {
  }

  lemma PrependPrepend(values: seq<int>, more: seq<int>, tuples: seq<seq<int>>)
    ensures Prepend(values, Prepend(more, tuples)) == Prepend(values + more, tuples)
  {
    forall k | 0 <= k < |tuples|
      ensures Prepend(values, Prepend(more, tuples))[k] == Prepend(values + more, tuples)[k]
    {
      assert values + (more + tuples[k]) == (values + more) + tuples[k];
    }
  }

  lemma {:induction false} PrefixEachSingletons(range: seq<int>)
    ensures PrefixEach(range, [[]]) == seq(|range|, k requires 0 <= k < |range| => [range[k]])
  {
    if range != [] {
      PrefixEachSingletons(range[1..]);
      assert [range[0]] + [] == [range[0]];
      assert Prepend([range[0]], [[]]) == [[range[0]]];
    }
  }

  lemma {:induction false} RecursiveLoopIsProduct(values: seq<int>, ranges: seq<seq<int>>)
    requires |ranges| >= 1
    ensures RecursiveLoop(values, ranges) == Prepend(values, Product(ranges))
    decreases |ranges|, 1, 0
  {
    if |ranges| == 1 {
      assert ranges[1..] == [];
      PrefixEachSingletons(ranges[0]);
      assert Product(ranges) == PrefixEach(ranges[0], [[]]);
    } else {
      LoopEachIsProduct(values, ranges[0], ranges[1..]);
    }
  }

  lemma {:induction false} LoopEachIsProduct(values: seq<int>, range: seq<int>, rest: seq<seq<int>>)
    requires |rest| >= 1
    ensures LoopEach(values, range, rest) == Prepend(values, PrefixEach(range, Product(rest)))
    decreases |rest| + 1, 0, |range|
  {
    if range != [] {
      var p := Product(rest);
      RecursiveLoopIsProduct(values + [range[0]], rest);
      LoopEachIsProduct(values, range[1..], rest);
      PrependConcat(values, Prepend([range[0]], p), PrefixEach(range[1..], p));
      PrependPrepend(values, [range[0]], p);
    }
  }

  /**
   * deepLoop calls fn once per tuple of the Cartesian product of its ranges,
   * in lexicographic order (first range outermost); with no range it never
   * calls fn.
   */
  lemma DeepLoopIsProduct(ranges: seq<seq<int>>)
    ensures |ranges| == 0 ==> DeepLoop(ranges) == []
    ensures |ranges| >= 1 ==> DeepLoop(ranges) == Product(ranges)
  {
    if |ranges| == 1 {
      SingleLoopIsProduct(ranges);
    } else if |ranges| >= 2 {
      NestedLoopIsProduct(ranges);
    }
  }

  /** With a single range deepLoop calls fn once per value, which is the product of that range. */
  lemma SingleLoopIsProduct(ranges: seq<seq<int>>)
    requires |ranges| == 1
    ensures DeepLoop(ranges) == Product(ranges)
  {
    assert ranges[1..] == [];
    PrefixEachSingletons(ranges[0]);
  }

  /** With two or more ranges deepLoop is the forEach over the first range, starting from no values. */
  lemma NestedLoopIsProduct(ranges: seq<seq<int>>)
    requires |ranges| >= 2
    ensures DeepLoop(ranges) == Product(ranges)
  {
    LoopEachIsProduct([], ranges[0], ranges[1..]);
    var p := PrefixEach(ranges[0], Product(ranges[1..]));
    assert Prepend([], p) == p by {
      forall k | 0 <= k < |p| ensures Prepend([], p)[k] == p[k] {
        assert [] + p[k] == p[k];
      }
    }
  }

  lemma {:induction false} PrefixEachLength(range: seq<int>, tails: seq<seq<int>>)
    ensures |PrefixEach(range, tails)| == |range| * |tails|
  {
    if range != [] {
      PrefixEachLength(range[1..], tails);
    }
  }

  /** The number of calls is the product of the range lengths. */
  lemma {:induction false} ProductLength(ranges: seq<seq<int>>)
    ensures |Product(ranges)| == LengthProduct(ranges)
  {
    if ranges != [] {
      ProductLength(ranges[1..]);
      PrefixEachLength(ranges[0], Product(ranges[1..]));
    }
  }

  lemma {:induction false} PrefixEachMember(range: seq<int>, tails: seq<seq<int>>, t: seq<int>)
    ensures t in PrefixEach(range, tails) <==> |t| >= 1 && t[0] in range && t[1..] in tails
  {
    if range != [] {
      PrefixEachMember(range[1..], tails, t);
      var head := Prepend([range[0]], tails);
      if t in head {
        var k :| 0 <= k < |head| && head[k] == t;
        assert t[1..] == tails[k];
      }
      if |t| >= 1 && t[0] == range[0] && t[1..] in tails {
        var k :| 0 <= k < |tails| && tails[k] == t[1..];
        assert head[k] == t;
      }
    }
  }

  /** A tuple is passed to fn exactly when each argument comes from its range. */
  lemma {:induction false} ProductMember(ranges: seq<seq<int>>, t: seq<int>)
    ensures t in Product(ranges) <==> |t| == |ranges| && forall j :: 0 <= j < |ranges| ==> t[j] in ranges[j]
  {
    if ranges == [] {
    } else {
      PrefixEachMember(ranges[0], Product(ranges[1..]), t);
      if |t| >= 1 {
        ProductMember(ranges[1..], t[1..]);
        if |t| == |ranges| && forall j :: 0 <= j < |ranges| ==> t[j] in ranges[j] {
          assert forall j :: 0 <= j < |ranges| - 1 ==> t[1..][j] == t[j + 1];
        }
        if t in Product(ranges) {
          forall j | 0 <= j < |ranges|
            ensures t[j] in ranges[j]
          {
            if j > 0 {
              assert t[1..][j - 1] in ranges[1..][j - 1];
            }
          }
        }
      }
    }
  }

  lemma {:induction false} LexLessIrreflexive(a: seq<int>)
    ensures !LexLess(a, a)
  {
    if a != [] {
      LexLessIrreflexive(a[1..]);
    }
  }

  lemma SortedConcat(a: seq<seq<int>>, b: seq<seq<int>>)
    requires LexSorted(a) && LexSorted(b)
    requires forall i, j :: 0 <= i < |a| && 0 <= j < |b| ==> LexLess(a[i], b[j])
    ensures LexSorted(a + b)
  {
    var c := a + b;
    forall i, j | 0 <= i < j < |c|
      ensures LexLess(c[i], c[j])
    {
      if j < |a| {
        assert c[i] == a[i] && c[j] == a[j];
      } else if i >= |a| {
        assert c[i] == b[i - |a|] && c[j] == b[j - |a|];
      } else {
        assert c[i] == a[i] && c[j] == b[j - |a|];
      }
    }
  }

  lemma {:induction false} PrefixEachSorted(range: seq<int>, tails: seq<seq<int>>)
    requires StrictlyIncreasing(range) && LexSorted(tails)
    ensures LexSorted(PrefixEach(range, tails))
  {
    if range != [] {
      var head := Prepend([range[0]], tails);
      var rest := PrefixEach(range[1..], tails);
      PrefixEachSorted(range[1..], tails);
      forall i, j | 0 <= i < j < |head|
        ensures LexLess(head[i], head[j])
      {
        assert head[i][1..] == tails[i] && head[j][1..] == tails[j];
      }
      forall i, j | 0 <= i < |head| && 0 <= j < |rest|
        ensures LexLess(head[i], rest[j])
      {
        PrefixEachMember(range[1..], tails, rest[j]);
        var k :| 0 <= k < |range[1..]| && range[1..][k] == rest[j][0];
        assert range[0] < range[k + 1];
      }
      SortedConcat(head, rest);
    }
  }

  /** With strictly increasing ranges the calls come in strict lexicographic order. */
  lemma {:induction false} ProductSorted(ranges: seq<seq<int>>)
    requires forall j :: 0 <= j < |ranges| ==> StrictlyIncreasing(ranges[j])
    ensures LexSorted(Product(ranges))
  {
    if ranges != [] {
      ProductSorted(ranges[1..]);
      PrefixEachSorted(ranges[0], Product(ranges[1..]));
    }
  }

  /** A strictly sorted call sequence never repeats a tuple. */
  lemma SortedDistinct(ts: seq<seq<int>>)
    requires LexSorted(ts)
    ensures forall i, j :: 0 <= i < j < |ts| ==> ts[i] != ts[j]
  {
    forall i, j | 0 <= i < j < |ts|
      ensures ts[i] != ts[j]
    {
      LexLessIrreflexive(ts[i]);
    }
  }

  /**
   * deepLoop with at least one range: fn receives one argument per range, each
   * drawn from its range, every tuple of the product exactly once (when the
   * ranges do not repeat values), in lexicographic order.
   */
  lemma DeepLoopOrder(ranges: seq<seq<int>>)
    requires |ranges| >= 1
    requires forall j :: 0 <= j < |ranges| ==> StrictlyIncreasing(ranges[j])
    ensures |DeepLoop(ranges)| == LengthProduct(ranges)
    ensures forall t :: t in DeepLoop(ranges) <==>
      |t| == |ranges| && forall j :: 0 <= j < |ranges| ==> t[j] in ranges[j]
    ensures LexSorted(DeepLoop(ranges))
    ensures forall i, j :: 0 <= i < j < |DeepLoop(ranges)| ==> DeepLoop(ranges)[i] != DeepLoop(ranges)[j]
  {
    DeepLoopIsProduct(ranges);
    ProductLength(ranges);
    forall t
      ensures t in DeepLoop(ranges) <==>
        |t| == |ranges| && forall j :: 0 <= j < |ranges| ==> t[j] in ranges[j]
    {
      ProductMember(ranges, t);
    }
    ProductSorted(ranges);
    SortedDistinct(DeepLoop(ranges));
  }

  // ---------------------------------------------------------------------------
  // getOffsetFromPosition
  // ---------------------------------------------------------------------------

  /** Index of cell (x, y, z) in a cube of edge `length` stored Y-major, then Z, then X. */
  function GetOffsetFromPosition(x: int, y: int, z: int, length: int): (offset: int)
    ensures 0 <= x < length && 0 <= y < length && 0 <= z < length ==>
      0 <= offset < length * length * length
  {
    OffsetBound(x, y, z, length);
    y * length * length + z * length + x
  }

  lemma OffsetBound(x: int, y: int, z: int, length: int)
    ensures 0 <= x < length && 0 <= y < length && 0 <= z < length ==>
      0 <= y * length * length + z * length + x < length * length * length
  {
    if 0 <= x < length && 0 <= y < length && 0 <= z < length {
      OffsetBoundIn(x, y, z, length);
    }
  }

  lemma OffsetBoundIn(x: int, y: int, z: int, length: int)
    requires 0 <= x < length && 0 <= y < length && 0 <= z < length
    ensures 0 <= y * length * length + z * length + x < length * length * length
  {
    DigitBound(y, z, length, length);
    DigitBound(y * length + z, x, length * length, length);
    OffsetNested(x, y, z, length);
  }

  /** Appending one base-`base` digit to a number below n gives a number below n * base. */
  lemma DigitBound(a: int, d: int, n: int, base: int)
    requires 0 <= a < n && 0 <= d < base
    ensures 0 <= a * base + d < n * base
  {
    MulMonotone(a, n - 1, base);
    assert (n - 1) * base == n * base - base;
  }

  lemma OffsetNested(x: int, y: int, z: int, length: int)
    ensures y * length * length + z * length + x == (y * length + z) * length + x
  {
  }

  lemma MulMonotone(a: int, b: int, c: int)
    requires 0 <= a <= b && 0 <= c
    ensures 0 <= a * c <= b * c
  {
  }

  /** Quotient and remainder are determined by any decomposition with 0 <= r < m. */
  lemma DivModUnique(a: int, q: int, r: int, m: int)
    requires m > 0 && 0 <= r < m && a == q * m + r
    ensures a / m == q && a % m == r
  {
    var d, e := a / m, a % m;
    assert (d - q) * m == r - e by {
      assert (d - q) * m == d * m - q * m;
    }
    MulSign(d - q, m);
  }

  /** A non-zero multiple of m is at least m away from zero. */
  lemma MulSign(k: int, m: int)
    requires m > 0
    ensures k >= 1 ==> k * m >= m
    ensures k <= -1 ==> k * m <= -m
  {
    if k >= 1 {
      MulMonotone(1, k, m);
    } else if k <= -1 {
      MulMonotone(1, -k, m);
      assert k * m == -((-k) * m);
    }
  }

  /** A local cell position is recovered from its offset, x varying fastest. */
  lemma OffsetDecode(x: int, y: int, z: int, length: int)
    requires 0 <= x < length && 0 <= y < length && 0 <= z < length
    ensures GetOffsetFromPosition(x, y, z, length) % length == x
    ensures GetOffsetFromPosition(x, y, z, length) / length % length == z
    ensures GetOffsetFromPosition(x, y, z, length) / length / length == y
  {
    var o := GetOffsetFromPosition(x, y, z, length);
    assert o == (y * length + z) * length + x;
    DivModUnique(o, y * length + z, x, length);
    DivModUnique(y * length + z, y, z, length);
  }

  /** Distinct local positions occupy distinct slots of the chunk buffer. */
  lemma OffsetInjective(x1: int, y1: int, z1: int, x2: int, y2: int, z2: int, length: int)
    requires 0 <= x1 < length && 0 <= y1 < length && 0 <= z1 < length
    requires 0 <= x2 < length && 0 <= y2 < length && 0 <= z2 < length
    requires GetOffsetFromPosition(x1, y1, z1, length) == GetOffsetFromPosition(x2, y2, z2, length)
    ensures x1 == x2 && y1 == y2 && z1 == z2
  {
    OffsetDecode(x1, y1, z1, length);
    OffsetDecode(x2, y2, z2, length);
  }
}
