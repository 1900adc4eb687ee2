/** The exact integer aggregates used by indexes and bills of materials. */
module Measures {
  import opened Prelude

  datatype Measures = Measures(shards: int, docs: int, tokens: int, bytes: int)

  const Zero := Measures(0, 0, 0, 0)

  function Plus(a: Measures, b: Measures): Measures {
    Measures(a.shards + b.shards, a.docs + b.docs, a.tokens + b.tokens, a.bytes + b.bytes)
  }

  datatype Modality = Modality(samples: int, items: int, tokens: int, durationMS: int, contentBytes: int)

  const NoModality := Modality(0, 0, 0, 0, 0)

  type Modalities = map<string, Modality>

  function PlusModality(a: Modality, b: Modality): Modality {
    Modality(a.samples + b.samples, a.items + b.items, a.tokens + b.tokens,
             a.durationMS + b.durationMS, a.contentBytes + b.contentBytes)
  }

  function ModalityAt(m: Modalities, name: string): Modality { if name in m then m[name] else NoModality }

  function MeasuresAt(m: map<string, Measures>, name: string): Measures { if name in m then m[name] else Zero }

  /** `addModalities`: the pointwise sum. */
  function MergeModalities(target: Modalities, source: Modalities): Modalities {
    map k | k in target.Keys + source.Keys :: PlusModality(ModalityAt(target, k), ModalityAt(source, k))
  }

  /** `addMeasureMap` */
  function AddAt(target: map<string, Measures>, key: string, value: Measures): map<string, Measures> {
    target[key := Plus(MeasuresAt(target, key), value)]
  }

  /** The sum over the entries of a map, in whatever order they are visited. */
  ghost function TokenSum(m: Modalities): int
    decreases |m|
  {
    if m == map[] then 0
    else
      var k :| k in m;
      assert |(m - {k}).Keys| < |m.Keys| by { assert (m - {k}).Keys == m.Keys - {k}; }
      m[k].tokens + TokenSum(m - {k})
  }

  lemma {:induction false} TokenSumStep(m: Modalities, k: string)
    requires k in m
    ensures TokenSum(m) == m[k].tokens + TokenSum(m - {k})
    decreases |m|
  {
    var j :| j in m && TokenSum(m) == m[j].tokens + TokenSum(m - {j});
    if j != k {
      assert (m - {j}).Keys == m.Keys - {j};
      assert |m.Keys - {j}| < |m.Keys|;
      TokenSumStep(m - {j}, k);
      assert (m - {k}).Keys == m.Keys - {k};
      assert |m.Keys - {k}| < |m.Keys|;
      TokenSumStep(m - {k}, j);
      assert m - {j} - {k} == m - {k} - {j};
    }
  }

  method ModalityTokens(m: Modalities) returns (total: int)
    ensures total == TokenSum(m)
  {
    total := 0;
    var rest := m;
    while rest != map[]
      invariant total + TokenSum(rest) == TokenSum(m)
      decreases |rest|
    {
      var k :| k in rest;
      TokenSumStep(rest, k);
      assert (rest - {k}).Keys == rest.Keys - {k};
      total, rest := total + rest[k].tokens, rest - {k};
    }
  }

  method AddModalities(target: Modalities, source: Modalities) returns (sum: Modalities)
    ensures sum == MergeModalities(target, source)
  {
    sum := target;
    var rest := source.Keys;
    while rest != {}
      invariant rest <= source.Keys
      invariant sum.Keys == target.Keys + (source.Keys - rest)
      invariant forall k :: k in sum ==>
        sum[k] == if k in source && k !in rest then PlusModality(ModalityAt(target, k), source[k]) else target[k]
    {
      var k :| k in rest;
      sum := sum[k := PlusModality(ModalityAt(sum, k), source[k])];
      rest := rest - {k};
    }
    forall k | k in sum ensures sum[k] == MergeModalities(target, source)[k] {
    }
  }

  /** The sum over all keys, in whatever order they are visited. */
  ghost function MeasureSum(m: map<string, Measures>): Measures
    decreases |m|
  {
    if m == map[] then Zero
    else
      var k :| k in m;
      assert |(m - {k}).Keys| < |m.Keys| by { assert (m - {k}).Keys == m.Keys - {k}; }
      Plus(m[k], MeasureSum(m - {k}))
  }

  lemma {:induction false} MeasureSumStep(m: map<string, Measures>, k: string)
    requires k in m
    ensures MeasureSum(m) == Plus(m[k], MeasureSum(m - {k}))
    decreases |m|
  {
    var j :| j in m && MeasureSum(m) == Plus(m[j], MeasureSum(m - {j}));
    if j != k {
      assert (m - {j}).Keys == m.Keys - {j};
      assert |m.Keys - {j}| < |m.Keys|;
      MeasureSumStep(m - {j}, k);
      assert (m - {k}).Keys == m.Keys - {k};
      assert |m.Keys - {k}| < |m.Keys|;
      MeasureSumStep(m - {k}, j);
      assert m - {j} - {k} == m - {k} - {j};
      PlusSwap(m[j], m[k], MeasureSum(m - {j} - {k}));
    }
  }

  lemma PlusSwap(a: Measures, b: Measures, c: Measures)
    ensures Plus(a, Plus(b, c)) == Plus(b, Plus(a, c))
  {
  }

  lemma AddAtSum(m: map<string, Measures>, k: string, v: Measures)
    ensures MeasureSum(AddAt(m, k, v)) == Plus(MeasureSum(m), v)
  {
    var more := AddAt(m, k, v);
    MeasureSumStep(more, k);
    assert more - {k} == m - {k};
    if k in m {
      MeasureSumStep(m, k);
    } else {
      assert m - {k} == m;
    }
  }

  /** The sum over a list of keys. */
  function SumOver(m: map<string, Measures>, keys: seq<string>): Measures {
    if keys == [] then Zero else Plus(SumOver(m, keys[..|keys| - 1]), MeasuresAt(m, keys[|keys| - 1]))
  }

  lemma SumOverStep(m: map<string, Measures>, keys: seq<string>, i: nat)
    requires i < |keys|
    ensures SumOver(m, keys[..i + 1]) == Plus(SumOver(m, keys[..i]), MeasuresAt(m, keys[i]))
  {
    assert keys[..i + 1][..i] == keys[..i];
  }

  lemma {:induction false} SumOverWithout(m: map<string, Measures>, keys: seq<string>, k: string)
    requires k !in keys
    ensures SumOver(m - {k}, keys) == SumOver(m, keys)
  {
    if keys != [] { SumOverWithout(m, keys[..|keys| - 1], k); }
  }

  /** A list of all keys, each once, gives the sum over the map. */
  lemma {:induction false} SumOverAll(m: map<string, Measures>, keys: seq<string>)
    requires NoDuplicates(keys) && ToSet(keys) == m.Keys
    ensures SumOver(m, keys) == MeasureSum(m)
  {
    if keys != [] {
      var front, last := keys[..|keys| - 1], keys[|keys| - 1];
      NoDuplicatesFront(keys);
      assert last in ToSet(keys);
      assert (m - {last}).Keys == m.Keys - {last};
      SumOverAll(m - {last}, front);
      SumOverWithout(m, front, last);
      MeasureSumStep(m, last);
    }
  }
}
