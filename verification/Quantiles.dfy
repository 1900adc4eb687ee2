/** Length quantiles read off a histogram, and what they say about the records. */
module Quantiles {
  import opened Prelude
  import opened Measurement

  function HistogramOf(lengths: seq<nat>): Histogram {
    if lengths == [] then map[] else Bump(HistogramOf(lengths[..|lengths| - 1]), lengths[|lengths| - 1], 1)
  }

  function TokenLengths(codec: Codec, records: seq<Record>): seq<nat> {
    if records == [] then [] else TokenLengths(codec, records[..|records| - 1]) + [codec.tokens(records[|records| - 1].text)]
  }

  function ByteLengths(records: seq<Record>): seq<nat> {
    if records == [] then [] else ByteLengths(records[..|records| - 1]) + [|records[|records| - 1].text|]
  }

  /** The histograms of a measurement are those of its records. */
  lemma {:induction false} MeasuredHistograms(codec: Codec, records: seq<Record>)
    ensures Sequential(codec, records).tokenLengths == HistogramOf(TokenLengths(codec, records))
    ensures Sequential(codec, records).byteLengths == HistogramOf(ByteLengths(records))
    ensures |TokenLengths(codec, records)| == |ByteLengths(records)| == |records| == Sequential(codec, records).totals.records
  {
    if records != [] {
      var front, last := records[..|records| - 1], records[|records| - 1];
      MeasuredHistograms(codec, front);
      var tokens, bytes := TokenLengths(codec, records), ByteLengths(records);
      assert tokens[..|tokens| - 1] == TokenLengths(codec, front) && bytes[..|bytes| - 1] == ByteLengths(front);
      BumpIsMerge(HistogramOf(TokenLengths(codec, front)), codec.tokens(last.text), 1);
      BumpIsMerge(HistogramOf(ByteLengths(front)), |last.text|, 1);
    }
  }

  // ----- Counting -----

  function CountAtMost(lengths: seq<nat>, k: int): nat {
    if lengths == [] then 0
    else CountAtMost(lengths[..|lengths| - 1], k) + if lengths[|lengths| - 1] <= k then 1 else 0
  }

  function SumAt(h: Histogram, keys: seq<nat>): int {
    if keys == [] then 0 else SumAt(h, keys[..|keys| - 1]) + CountAt(h, keys[|keys| - 1])
  }

  predicate Ascending(keys: seq<nat>) {
    |keys| <= 1 || (Ascending(keys[..|keys| - 1]) && keys[|keys| - 2] < keys[|keys| - 1])
  }

  lemma {:induction false} LastIsGreatest(keys: seq<nat>, i: nat)
    requires Ascending(keys) && i < |keys|
    ensures i < |keys| - 1 ==> keys[i] < keys[|keys| - 1]
  {
    if i < |keys| - 2 { LastIsGreatest(keys[..|keys| - 1], i); }
  }

  lemma {:induction false} AscendingPrefix(keys: seq<nat>, n: nat)
    requires Ascending(keys) && n <= |keys|
    ensures Ascending(keys[..n])
  {
    if n < |keys| {
      AscendingPrefix(keys[..|keys| - 1], n);
      assert keys[..|keys| - 1][..n] == keys[..n];
    } else {
      assert keys[..n] == keys;
    }
  }

  lemma AscendingOrder(keys: seq<nat>, i: nat, j: nat)
    requires Ascending(keys) && i < j < |keys|
    ensures keys[i] < keys[j]
  {
    AscendingPrefix(keys, j + 1);
    LastIsGreatest(keys[..j + 1], i);
  }

  lemma {:induction false} SumAtBump(h: Histogram, keys: seq<nat>, k: nat)
    requires Ascending(keys)
    ensures SumAt(Bump(h, k, 1), keys) == SumAt(h, keys) + if k in keys then 1 else 0
  {
    if keys != [] {
      var front, last := keys[..|keys| - 1], keys[|keys| - 1];
      SumAtBump(h, front, k);
      assert keys == front + [last];
      if k == last && k in front {
        var i :| 0 <= i < |front| && front[i] == k;
        LastIsGreatest(keys, i);
      }
    }
  }

  /** The counts at the keys up to k, all of them listed, are the number of lengths up to k. */
  lemma {:induction false} SumIsCount(lengths: seq<nat>, keys: seq<nat>, k: int)
    requires Ascending(keys) && forall l: nat :: l in lengths ==> (l in keys <==> l <= k)
    ensures SumAt(HistogramOf(lengths), keys) == CountAtMost(lengths, k)
  {
    if lengths == [] {
      SumOfNothing(keys);
    } else {
      var front, last := lengths[..|lengths| - 1], lengths[|lengths| - 1];
      assert lengths == front + [last];
      SumIsCount(front, keys, k);
      SumAtBump(HistogramOf(front), keys, last);
    }
  }

  lemma {:induction false} SumOfNothing(keys: seq<nat>)
    ensures SumAt(map[], keys) == 0
  {
    if keys != [] { SumOfNothing(keys[..|keys| - 1]); }
  }

  lemma {:induction false} HistogramKeys(lengths: seq<nat>, l: nat)
    ensures l in HistogramOf(lengths) <==> l in lengths
  {
    if lengths != [] {
      var front, last := lengths[..|lengths| - 1], lengths[|lengths| - 1];
      assert lengths == front + [last];
      HistogramKeys(front, l);
    }
  }

  lemma {:induction false} CountAll(lengths: seq<nat>, k: int)
    requires forall l: nat :: l in lengths ==> l <= k
    ensures CountAtMost(lengths, k) == |lengths|
  {
    if lengths != [] {
      var front, last := lengths[..|lengths| - 1], lengths[|lengths| - 1];
      assert forall l: nat :: l in front ==> l in lengths;
      assert last in lengths;
      CountAll(front, k);
    }
  }

  // ----- Sorting the keys -----

  function Insert(keys: seq<nat>, k: nat): seq<nat> {
    if keys == [] || keys[|keys| - 1] < k then keys + [k] else Insert(keys[..|keys| - 1], k) + [keys[|keys| - 1]]
  }

  lemma {:induction false} InsertAscending(keys: seq<nat>, k: nat)
    requires Ascending(keys) && k !in keys
    ensures |Insert(keys, k)| == |keys| + 1 && Ascending(Insert(keys, k))
    ensures ToSet(Insert(keys, k)) == ToSet(keys) + {k}
    ensures Insert(keys, k)[|keys|] == k || (keys != [] && Insert(keys, k)[|keys|] == keys[|keys| - 1])
  {
    if keys == [] || keys[|keys| - 1] < k {
      assert (keys + [k])[..|keys|] == keys;
    } else {
      var front, last := keys[..|keys| - 1], keys[|keys| - 1];
      assert keys == front + [last];
      InsertAscending(front, k);
      assert (Insert(front, k) + [last])[..|keys|] == Insert(front, k);
    }
  }

  method SortInts(values: set<nat>) returns (keys: seq<nat>)
    ensures Ascending(keys) && ToSet(keys) == values
  {
    keys := [];
    var rest := values;
    while rest != {}
      invariant rest <= values && Ascending(keys) && ToSet(keys) == values - rest
    {
      var k :| k in rest;
      assert k !in ToSet(keys);
      InsertAscending(keys, k);
      keys, rest := Insert(keys, k), rest - {k};
    }
  }

  // ----- Quantiles -----

  function Ceil(x: real): int { 0 - (0.0 - x).Floor }

  /** The rank to reach. */
  function Target(total: int, quantile: real): int { Ceil(total as real * quantile) }

  /** The least length that at least `target` of the lengths do not exceed. */
  ghost predicate IsQuantile(lengths: seq<nat>, target: int, q: int) {
    && q in lengths && CountAtMost(lengths, q) >= target
    && forall k: nat :: k in lengths && k < q ==> CountAtMost(lengths, k) < target
  }

  ghost predicate IsGreatest(lengths: seq<nat>, q: int) {
    q in lengths && forall l: nat :: l in lengths ==> l <= q
  }

  lemma PrefixCount(lengths: seq<nat>, keys: seq<nat>, i: nat)
    requires Ascending(keys) && i < |keys| && forall l: nat :: l in lengths <==> l in keys
    ensures SumAt(HistogramOf(lengths), keys[..i + 1]) == CountAtMost(lengths, keys[i])
  {
    AscendingPrefix(keys, i + 1);
    forall l: nat | l in lengths ensures l in keys[..i + 1] <==> l <= keys[i] {
      var j :| 0 <= j < |keys| && keys[j] == l;
      if j <= i {
        assert keys[..i + 1][j] == l;
        if j < i { AscendingOrder(keys, j, i); }
      } else {
        AscendingOrder(keys, i, j);
        if l in keys[..i + 1] {
          var m :| 0 <= m < i + 1 && keys[..i + 1][m] == l;
          AscendingOrder(keys, m, j);
        }
      }
    }
    SumIsCount(lengths, keys[..i + 1], keys[i]);
  }

  /** histogramQuantile: walk the keys upwards until the rank is reached; past the end, the greatest key. */
  method HistogramQuantile(h: Histogram, total: int, quantile: real, ghost lengths: seq<nat>) returns (q: int)
    requires h == HistogramOf(lengths) && (total > 0 ==> lengths != [])
    ensures total <= 0 ==> q == 0
    ensures total > 0 && Target(total, quantile) <= |lengths| ==> IsQuantile(lengths, Target(total, quantile), q)
    ensures total > 0 && Target(total, quantile) > |lengths| ==> IsGreatest(lengths, q)
  {
    if total <= 0 {
      return 0;
    }
    var keys := SortInts(h.Keys);
    forall l: nat ensures l in lengths <==> l in keys {
      HistogramKeys(lengths, l);
      assert l in keys <==> l in ToSet(keys);
    }
    assert lengths[0] in lengths;
    var target := Target(total, quantile);
    var seen := 0;
    for i := 0 to |keys|
      invariant seen == SumAt(h, keys[..i])
      invariant forall j :: 0 <= j < i ==> CountAtMost(lengths, keys[j]) < target
    {
      assert keys[..i + 1][..i] == keys[..i];
      PrefixCount(lengths, keys, i);
      seen := seen + CountAt(h, keys[i]);
      if seen >= target {
        Reached(lengths, keys, i, target);
        return keys[i];
      }
    }
    q := keys[|keys| - 1];
    NotReached(lengths, keys, target);
  }

  lemma Reached(lengths: seq<nat>, keys: seq<nat>, i: nat, target: int)
    requires Ascending(keys) && i < |keys| && forall l: nat :: l in lengths <==> l in keys
    requires forall j :: 0 <= j < i ==> CountAtMost(lengths, keys[j]) < target
    requires CountAtMost(lengths, keys[i]) >= target
    ensures IsQuantile(lengths, target, keys[i]) && target <= |lengths|
  {
    assert keys[i] in lengths;
    forall k: nat | k in lengths && k < keys[i] ensures CountAtMost(lengths, k) < target {
      var j :| 0 <= j < |keys| && keys[j] == k;
      if i < j { AscendingOrder(keys, i, j); }
    }
    CountBound(lengths, keys[i]);
  }

  lemma {:induction false} CountBound(lengths: seq<nat>, k: int)
    ensures CountAtMost(lengths, k) <= |lengths|
  {
    if lengths != [] { CountBound(lengths[..|lengths| - 1], k); }
  }

  lemma NotReached(lengths: seq<nat>, keys: seq<nat>, target: int)
    requires keys != [] && Ascending(keys) && forall l: nat :: l in lengths <==> l in keys
    requires forall j :: 0 <= j < |keys| ==> CountAtMost(lengths, keys[j]) < target
    ensures IsGreatest(lengths, keys[|keys| - 1]) && target > |lengths|
  {
    var last := keys[|keys| - 1];
    assert last in lengths;
    forall l: nat | l in lengths ensures l <= last {
      var j :| 0 <= j < |keys| && keys[j] == l;
      LastIsGreatest(keys, j);
    }
    CountAll(lengths, last);
  }

  /** A rank between the records is always reached. */
  lemma TargetWithin(total: nat, quantile: real)
    requires 0.0 < quantile <= 1.0 && total > 0
    ensures 0 < Target(total, quantile) <= total
  {
    var x := total as real * quantile;
    assert x > 0.0;
    assert x <= total as real by {
      assert total as real * (1.0 - quantile) >= 0.0;
    }
    assert (0.0 - x).Floor as real <= 0.0 - x < (0.0 - x).Floor as real + 1.0;
  }

  /** The token quantiles of a measurement with any number of workers. */
  method MeasureTokenQuantile(codec: Codec, records: seq<Record>, workers: int, quantile: real) returns (q: int)
    requires 0.0 < quantile <= 1.0
    ensures records == [] ==> q == 0
    ensures records != [] ==> IsQuantile(TokenLengths(codec, records), Target(|records|, quantile), q)
  {
    var total := Measure(codec, records, workers);
    MeasuredHistograms(codec, records);
    if records != [] { TargetWithin(|records|, quantile); }
    q := HistogramQuantile(total.tokenLengths, total.totals.records, quantile, TokenLengths(codec, records));
  }

  /** The rank is the least integer that is not below the total times the quantile. */
  lemma TargetIsLeast(total: int, quantile: real, n: int)
    ensures n as real >= total as real * quantile <==> n >= Target(total, quantile)
  {
  }

  ghost function Positions(lengths: seq<nat>, k: int): set<int> { set i | 0 <= i < |lengths| && lengths[i] <= k }

  lemma PositionsMore(lengths: seq<nat>, k: int)
    requires lengths != []
    ensures var n := |lengths| - 1;
            |Positions(lengths, k)| == |Positions(lengths[..n], k)| + if lengths[n] <= k then 1 else 0
  {
    var n := |lengths| - 1;
    var some := Positions(lengths[..n], k);
    assert n !in some;
    assert Positions(lengths, k) == some + if lengths[n] <= k then {n} else {};
  }

  /** Counting up to a length is counting positions. */
  lemma {:induction false} CountIsPositions(lengths: seq<nat>, k: int)
    ensures CountAtMost(lengths, k) == |Positions(lengths, k)|
  {
    if lengths == [] {
      assert Positions(lengths, k) == {};
    } else {
      hide Positions;
      CountIsPositions(lengths[..|lengths| - 1], k);
      PositionsMore(lengths, k);
    }
  }
}
