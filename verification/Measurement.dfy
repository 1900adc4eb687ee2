/**
 Measuring a record stream with several tokenizer workers.  Each worker keeps
 its own counts, histograms and corpus table; they are merged at the end.
 Ratios and quantile ranks are exact reals.
 */
module Measurement {
  import opened Prelude

  datatype Record = Record(text: string, corpus: string)

  /** The tokenizer, the character count and the sequence length. */
  datatype Codec = Codec(tokens: string -> nat, characters: string -> nat, sequenceLength: int)

  datatype Fertility = Fertility(records: int, bytes: int, characters: int, tokens: int)

  type Histogram = map<nat, int>

  datatype Tally = Tally(totals: Fertility, fitRecords: int, tokenLengths: Histogram, byteLengths: Histogram,
                         corpora: map<string, Fertility>)

  const NoFertility := Fertility(0, 0, 0, 0)

  const Nothing := Tally(NoFertility, 0, map[], map[], map[])

  function PlusFertility(a: Fertility, b: Fertility): Fertility {
    Fertility(a.records + b.records, a.bytes + b.bytes, a.characters + b.characters, a.tokens + b.tokens)
  }

  function CountAt(h: Histogram, k: nat): int { if k in h then h[k] else 0 }

  function FertilityAt(m: map<string, Fertility>, k: string): Fertility { if k in m then m[k] else NoFertility }

  function MergeCounts(a: Histogram, b: Histogram): Histogram {
    map k | k in a.Keys + b.Keys :: CountAt(a, k) + CountAt(b, k)
  }

  function MergeCorpora(a: map<string, Fertility>, b: map<string, Fertility>): map<string, Fertility> {
    map k | k in a.Keys + b.Keys :: PlusFertility(FertilityAt(a, k), FertilityAt(b, k))
  }

  function Merge(a: Tally, b: Tally): Tally {
    Tally(PlusFertility(a.totals, b.totals), a.fitRecords + b.fitRecords, MergeCounts(a.tokenLengths, b.tokenLengths),
          MergeCounts(a.byteLengths, b.byteLengths), MergeCorpora(a.corpora, b.corpora))
  }

  /** What one record contributes. */
  function Single(codec: Codec, r: Record): Tally {
    var bytes, tokens := |r.text|, codec.tokens(r.text);
    var f := Fertility(1, bytes, codec.characters(r.text), tokens);
    Tally(f, if tokens + 1 <= codec.sequenceLength then 1 else 0, map[tokens := 1], map[bytes := 1], map[CorpusOf(r) := f])
  }

  function CorpusOf(r: Record): string { if r.corpus == "" then "unattributed" else r.corpus }

  /** The reference: one worker, one record after the other. */
  function Sequential(codec: Codec, records: seq<Record>): Tally {
    if records == [] then Nothing
    else Merge(Sequential(codec, records[..|records| - 1]), Single(codec, records[|records| - 1]))
  }

  // ----- What the reference counts -----

  function BytesIn(records: seq<Record>): int {
    if records == [] then 0 else BytesIn(records[..|records| - 1]) + |records[|records| - 1].text|
  }

  function CharactersIn(codec: Codec, records: seq<Record>): int {
    if records == [] then 0 else CharactersIn(codec, records[..|records| - 1]) + codec.characters(records[|records| - 1].text)
  }

  function TokensIn(codec: Codec, records: seq<Record>): int {
    if records == [] then 0 else TokensIn(codec, records[..|records| - 1]) + codec.tokens(records[|records| - 1].text)
  }

  /** The records that fit into one sequence together with the token that ends them. */
  function Fitting(codec: Codec, records: seq<Record>): int {
    if records == [] then 0
    else
      Fitting(codec, records[..|records| - 1])
      + if codec.tokens(records[|records| - 1].text) < codec.sequenceLength then 1 else 0
  }

  predicate From(r: Record, corpus: string) { r.corpus == corpus != "" || (r.corpus == "" && corpus == "unattributed") }

  function AllFrom(records: seq<Record>, corpus: string): seq<Record> {
    if records == [] then []
    else
      var front, last := AllFrom(records[..|records| - 1], corpus), records[|records| - 1];
      if From(last, corpus) then front + [last] else front
  }

  function FertilityOf(codec: Codec, records: seq<Record>): Fertility {
    Fertility(|records|, BytesIn(records), CharactersIn(codec, records), TokensIn(codec, records))
  }

  lemma FertilityAppend(codec: Codec, records: seq<Record>, r: Record)
    ensures FertilityOf(codec, records + [r]) ==
            PlusFertility(FertilityOf(codec, records), Fertility(1, |r.text|, codec.characters(r.text), codec.tokens(r.text)))
  {
    assert (records + [r])[..|records|] == records;
  }

  /** A measurement gives the records, bytes, characters and tokens of the stream, how many records fit, and the same
      four numbers for each corpus that has records. */
  lemma {:induction false} SequentialMeaning(codec: Codec, records: seq<Record>, corpus: string)
    ensures var t := Sequential(codec, records);
            && t.totals == FertilityOf(codec, records) && t.fitRecords == Fitting(codec, records)
            && (corpus in t.corpora <==> AllFrom(records, corpus) != [])
            && FertilityAt(t.corpora, corpus) == FertilityOf(codec, AllFrom(records, corpus))
  {
    hide PlusFertility, FertilityOf;
    if records == [] {
      NoFertilityOf(codec);
    } else {
      var front, last := records[..|records| - 1], records[|records| - 1];
      assert records == front + [last];
      SequentialMeaning(codec, front, corpus);
      FertilityAppend(codec, front, last);
      FertilityAppend(codec, AllFrom(front, corpus), last);
      MergedAt(Sequential(codec, front).corpora, Single(codec, last).corpora, corpus);
      PlusNothing(FertilityOf(codec, AllFrom(front, corpus)));
    }
  }

  lemma NoFertilityOf(codec: Codec)
    ensures FertilityOf(codec, []) == NoFertility
  {
  }

  // ----- Merging is a commutative sum -----

  lemma CountsCommute(a: Histogram, b: Histogram)
    ensures MergeCounts(a, b) == MergeCounts(b, a)
  {
  }

  lemma CountsAssociate(a: Histogram, b: Histogram, c: Histogram)
    ensures MergeCounts(MergeCounts(a, b), c) == MergeCounts(a, MergeCounts(b, c))
  {
  }

  lemma CorporaCommute(a: map<string, Fertility>, b: map<string, Fertility>)
    ensures MergeCorpora(a, b) == MergeCorpora(b, a)
  {
  }

  lemma MergedAt(a: map<string, Fertility>, b: map<string, Fertility>, k: string)
    ensures FertilityAt(MergeCorpora(a, b), k) == PlusFertility(FertilityAt(a, k), FertilityAt(b, k))
  {
  }

  lemma PlusAssociates(a: Fertility, b: Fertility, c: Fertility)
    ensures PlusFertility(PlusFertility(a, b), c) == PlusFertility(a, PlusFertility(b, c))
  {
  }

  lemma CorporaAssociate(a: map<string, Fertility>, b: map<string, Fertility>, c: map<string, Fertility>)
    ensures MergeCorpora(MergeCorpora(a, b), c) == MergeCorpora(a, MergeCorpora(b, c))
  {
    hide PlusFertility, FertilityAt;
    var left, right := MergeCorpora(MergeCorpora(a, b), c), MergeCorpora(a, MergeCorpora(b, c));
    assert left.Keys == a.Keys + b.Keys + c.Keys == right.Keys;
    forall k | k in left ensures left[k] == right[k] {
      MergedAt(a, b, k);
      MergedAt(b, c, k);
      PlusAssociates(FertilityAt(a, k), FertilityAt(b, k), FertilityAt(c, k));
    }
  }

  lemma MergeCommutes(a: Tally, b: Tally)
    ensures Merge(a, b) == Merge(b, a)
  {
    CountsCommute(a.tokenLengths, b.tokenLengths);
    CountsCommute(a.byteLengths, b.byteLengths);
    CorporaCommute(a.corpora, b.corpora);
  }

  lemma MergeAssociates(a: Tally, b: Tally, c: Tally)
    ensures Merge(Merge(a, b), c) == Merge(a, Merge(b, c))
  {
    CountsAssociate(a.tokenLengths, b.tokenLengths, c.tokenLengths);
    CountsAssociate(a.byteLengths, b.byteLengths, c.byteLengths);
    CorporaAssociate(a.corpora, b.corpora, c.corpora);
  }

  lemma MergeNothing(a: Tally)
    ensures Merge(a, Nothing) == a && Merge(Nothing, a) == a
  {
    hide MergeCounts, MergeCorpora;
    MergeCommutes(a, Nothing);
    CountsNothing(a.tokenLengths);
    CountsNothing(a.byteLengths);
    CorporaNothing(a.corpora);
  }

  lemma MergeSwap(a: Tally, b: Tally, c: Tally)
    ensures Merge(Merge(a, b), c) == Merge(Merge(a, c), b)
    ensures Merge(a, Merge(b, c)) == Merge(b, Merge(a, c))
  {
    hide Merge, Single;
    MergeAssociates(a, b, c);
    MergeAssociates(a, c, b);
    MergeCommutes(b, c);
    MergeAssociates(b, a, c);
    MergeCommutes(a, b);
  }

  lemma {:induction false} SequentialConcat(codec: Codec, a: seq<Record>, b: seq<Record>)
    ensures Sequential(codec, a + b) == Merge(Sequential(codec, a), Sequential(codec, b))
  {
    hide Merge, Single;
    if b == [] {
      assert a + b == a;
      MergeNothing(Sequential(codec, a));
    } else {
      var all, front, last := a + b, b[..|b| - 1], b[|b| - 1];
      assert all[..|all| - 1] == a + front && all[|all| - 1] == last;
      SequentialConcat(codec, a, front);
      MergeAssociates(Sequential(codec, a), Sequential(codec, front), Single(codec, last));
    }
  }

  // ----- The methods -----

  function Bump(h: Histogram, k: nat, n: int): Histogram { h[k := CountAt(h, k) + n] }

  lemma BumpIsMerge(h: Histogram, k: nat, n: int)
    ensures Bump(h, k, n) == MergeCounts(h, map[k := n])
  {
  }

  lemma CorpusIsMerge(m: map<string, Fertility>, k: string, f: Fertility)
    ensures m[k := PlusFertility(FertilityAt(m, k), f)] == MergeCorpora(m, map[k := f])
  {
  }

  /** measureComposeRecord: every counter of one worker, updated in place. */
  method MeasureRecord(codec: Codec, r: Record, t: Tally) returns (next: Tally)
    ensures next == Merge(t, Single(codec, r))
  {
    var bytes, characters, tokens := |r.text|, codec.characters(r.text), codec.tokens(r.text);
    var totals := t.totals;
    totals := totals.(records := totals.records + 1, bytes := totals.bytes + bytes);
    totals := totals.(characters := totals.characters + characters, tokens := totals.tokens + tokens);
    var fit := t.fitRecords;
    if tokens + 1 <= codec.sequenceLength {
      fit := fit + 1;
    }
    var corpus := if r.corpus == "" then "unattributed" else r.corpus;
    var f := FertilityAt(t.corpora, corpus);
    f := Fertility(f.records + 1, f.bytes + bytes, f.characters + characters, f.tokens + tokens);
    BumpIsMerge(t.tokenLengths, tokens, 1);
    BumpIsMerge(t.byteLengths, bytes, 1);
    CorpusIsMerge(t.corpora, corpus, Fertility(1, bytes, characters, tokens));
    next := Tally(totals, fit, Bump(t.tokenLengths, tokens, 1), Bump(t.byteLengths, bytes, 1), t.corpora[corpus := f]);
  }

  lemma CountsStep(target: Histogram, source: Histogram, rest: set<nat>, k: nat)
    requires k in rest && rest <= source.Keys
    ensures Bump(MergeCounts(target, source - rest), k, source[k]) == MergeCounts(target, source - (rest - {k}))
  {
    var more := source - (rest - {k});
    assert more.Keys == (source - rest).Keys + {k};
    assert forall x :: x in source - rest ==> more[x] == (source - rest)[x];
  }

  method AddCounts(target: Histogram, source: Histogram) returns (r: Histogram)
    ensures r == MergeCounts(target, source)
  {
    hide MergeCounts;
    r := target;
    var rest := source.Keys;
    assert source - rest == map[];
    CountsNothing(target);
    while rest != {}
      invariant rest <= source.Keys && r == MergeCounts(target, source - rest)
    {
      var k :| k in rest;
      CountsStep(target, source, rest, k);
      r := Bump(r, k, source[k]);
      rest := rest - {k};
    }
    assert source - {} == source;
  }

  lemma CountsNothing(a: Histogram)
    ensures MergeCounts(a, map[]) == a
  {
  }

  lemma CorporaStep(target: map<string, Fertility>, source: map<string, Fertility>, rest: set<string>, k: string)
    requires k in rest && rest <= source.Keys
    ensures var done := MergeCorpora(target, source - rest);
            done[k := PlusFertility(FertilityAt(done, k), source[k])] == MergeCorpora(target, source - (rest - {k}))
  {
    hide PlusFertility;
    var done, more := MergeCorpora(target, source - rest), source - (rest - {k});
    assert more.Keys == (source - rest).Keys + {k};
    MergedAt(target, source - rest, k);
    PlusNothing(FertilityAt(target, k));
    assert forall x :: x in source - rest ==> more[x] == (source - rest)[x];
  }

  lemma PlusNothing(f: Fertility)
    ensures PlusFertility(f, NoFertility) == f
  {
  }

  lemma CorporaNothing(a: map<string, Fertility>)
    ensures MergeCorpora(a, map[]) == a
  {
  }

  method AddCorpora(target: map<string, Fertility>, source: map<string, Fertility>) returns (r: map<string, Fertility>)
    ensures r == MergeCorpora(target, source)
  {
    hide MergeCorpora, PlusFertility;
    r := target;
    var rest := source.Keys;
    assert source - rest == map[];
    CorporaNothing(target);
    while rest != {}
      invariant rest <= source.Keys && r == MergeCorpora(target, source - rest)
    {
      var k :| k in rest;
      CorporaStep(target, source, rest, k);
      r := r[k := PlusFertility(FertilityAt(r, k), source[k])];
      rest := rest - {k};
    }
    assert source - {} == source;
  }

  /** mergeComposeMeasurement and mergeComposeCorpora */
  method MergeInto(target: Tally, source: Tally) returns (r: Tally)
    ensures r == Merge(target, source)
  {
    var tokenLengths := AddCounts(target.tokenLengths, source.tokenLengths);
    var byteLengths := AddCounts(target.byteLengths, source.byteLengths);
    var corpora := AddCorpora(target.corpora, source.corpora);
    r := Tally(PlusFertility(target.totals, source.totals), target.fitRecords + source.fitRecords, tokenLengths, byteLengths, corpora);
  }

  function MergeAll(tallies: seq<Tally>): Tally {
    if tallies == [] then Nothing else Merge(MergeAll(tallies[..|tallies| - 1]), tallies[|tallies| - 1])
  }

  /** What one worker adds to its own tally, it adds to the sum. */
  lemma {:induction false} UpdateOne(tallies: seq<Tally>, w: nat, s: Tally)
    requires w < |tallies|
    ensures MergeAll(tallies[w := Merge(tallies[w], s)]) == Merge(MergeAll(tallies), s)
  {
    hide Merge, Single;
    var n := |tallies| - 1;
    var after := tallies[w := Merge(tallies[w], s)];
    if w == n {
      assert after[..n] == tallies[..n];
      MergeAssociates(MergeAll(tallies[..n]), tallies[n], s);
    } else {
      assert after[..n] == tallies[..n][w := Merge(tallies[w], s)];
      UpdateOne(tallies[..n], w, s);
      MergeSwap(MergeAll(tallies[..n]), s, tallies[n]);
    }
  }

  lemma {:induction false} MergeAllNothing(tallies: seq<Tally>)
    requires forall i :: 0 <= i < |tallies| ==> tallies[i] == Nothing
    ensures MergeAll(tallies) == Nothing
  {
    hide Merge, Single;
    if tallies != [] {
      MergeAllNothing(tallies[..|tallies| - 1]);
      MergeNothing(Nothing);
    }
  }

  // ----- Positions done in any order -----

  ghost function Over(codec: Codec, batch: seq<Record>, positions: set<nat>): Tally
    decreases |positions|
  {
    if positions == {} then Nothing
    else
      var i :| i in positions;
      Merge(Over(codec, batch, positions - {i}), At(codec, batch, i))
  }

  function At(codec: Codec, batch: seq<Record>, i: nat): Tally { if i < |batch| then Single(codec, batch[i]) else Nothing }

  lemma {:induction false} OverStep(codec: Codec, batch: seq<Record>, positions: set<nat>, k: nat)
    requires k in positions
    ensures Over(codec, batch, positions) == Merge(Over(codec, batch, positions - {k}), At(codec, batch, k))
    decreases |positions|
  {
    hide Merge, Single;
    var j :| j in positions && Over(codec, batch, positions) == Merge(Over(codec, batch, positions - {j}), At(codec, batch, j));
    if j != k {
      OverStep(codec, batch, positions - {j}, k);
      OverStep(codec, batch, positions - {k}, j);
      assert positions - {j} - {k} == positions - {k} - {j};
      MergeSwap(Over(codec, batch, positions - {j} - {k}), At(codec, batch, k), At(codec, batch, j));
    }
  }

  lemma {:induction false} OverAll(codec: Codec, batch: seq<Record>, n: nat)
    requires n <= |batch|
    ensures Over(codec, batch, Below(n)) == Sequential(codec, batch[..n])
  {
    hide Merge, Single;
    if n > 0 {
      OverAll(codec, batch, n - 1);
      BelowMeaning(n - 1, n - 1);
      var all := Below(n);
      assert all - {n - 1} == Below(n - 1);
      OverStep(codec, batch, all, n - 1);
      assert batch[..n][..n - 1] == batch[..n - 1];
    }
  }

  // ----- The strided flush -----

  /** Worker w has handled w, w + active, w + 2 * active, … up to `next[w]`. */
  ghost predicate Strides(next: seq<nat>, done: set<nat>, n: nat) {
    && |next| > 0
    && (forall w :: 0 <= w < |next| ==> next[w] % |next| == w)
    && forall p: nat :: p in done <==> p < n && p < next[p % |next|]
  }

  lemma SameResidue(p: nat, q: nat, a: nat)
    requires a > 0 && p % a == q % a && q <= p < q + a
    ensures p == q
  {
    var x, y := p / a, q / a;
    MulBound(a, x - y);
    assert a * (x - y) == a * x - a * y == p - q;
  }

  lemma Residue(n: nat, a: nat, q: nat, r: nat)
    requires a > 0 && n == a * q + r && r < a
    ensures n % a == r
  {
    var x := n / a;
    MulBound(a, x - q);
    assert a * (x - q) == a * x - a * q == r - n % a;
  }

  lemma NextResidue(q: nat, a: nat)
    requires a > 0
    ensures (q + a) % a == q % a
  {
    assert a * (q / a + 1) == a * (q / a) + a;
    Residue(q + a, a, q / a + 1, q % a);
  }

  lemma StrideStep(next: seq<nat>, done: set<nat>, n: nat, w: nat)
    requires Strides(next, done, n) && w < |next| && next[w] < n
    ensures Strides(next[w := next[w] + |next|], done + {next[w]}, n) && next[w] !in done
  {
    var a, q := |next|, next[w];
    NextResidue(q, a);
    forall p: nat ensures p in done + {q} <==> p < n && p < next[w := q + a][p % a] {
      if p % a == w && q <= p < q + a { SameResidue(p, q, a); }
    }
  }

  lemma StridesCover(next: seq<nat>, done: set<nat>, n: nat)
    requires Strides(next, done, n) && forall w :: 0 <= w < |next| ==> next[w] >= n
    ensures done == Below(n)
  {
    forall p: nat ensures p in done <==> p in Below(n) {
      BelowMeaning(n, p);
      var w := p % |next|;
      assert 0 <= w < |next| && next[w] >= n;
    }
  }

  lemma StridesBegin(active: nat, n: nat)
    requires active > 0
    ensures Strides(seq(active, w requires 0 <= w < active => w), {}, n)
  {
    forall p: nat ensures !(p < p % active) { }
    forall w | 0 <= w < active ensures w % active == w { Residue(w, active, 0, w); }
  }

  lemma DoneSize(done: set<nat>, n: nat)
    requires forall p :: p in done ==> p < n
    ensures done <= Below(n)
  {
    forall p | p in done ensures p in Below(n) { BelowMeaning(n, p); }
  }

  lemma EmptySequence(codec: Codec)
    ensures Sequential(codec, []) == Nothing
  {
  }

  lemma OverNothing(codec: Codec, batch: seq<Record>)
    ensures Over(codec, batch, {}) == Nothing
  {
  }

  /** One step of one worker. */
  method Step(codec: Codec, batch: seq<Record>, tallies: seq<Tally>, next: seq<nat>, w: nat, ghost done: set<nat>, ghost base: Tally)
    returns (newTallies: seq<Tally>, newNext: seq<nat>)
    requires Strides(next, done, |batch|) && w < |next| <= |tallies| && next[w] < |batch|
    requires MergeAll(tallies) == Merge(base, Over(codec, batch, done))
    ensures newNext == next[w := next[w] + |next|] && |newTallies| == |tallies|
    ensures Strides(newNext, done + {next[w]}, |batch|) && next[w] !in done
    ensures MergeAll(newTallies) == Merge(base, Over(codec, batch, done + {next[w]}))
  {
    hide Merge, Single;
    var position := next[w];
    StrideStep(next, done, |batch|, w);
    OverStep(codec, batch, done + {position}, position);
    assert done + {position} - {position} == done;
    UpdateOne(tallies, w, Single(codec, batch[position]));
    MergeAssociates(base, Over(codec, batch, done), Single(codec, batch[position]));
    var measured := MeasureRecord(codec, batch[position], tallies[w]);
    newTallies, newNext := tallies[w := measured], next[w := position + |next|];
  }

  /** flush: the workers advance in any interleaving; together they add the batch, each record once. */
  method Flush(codec: Codec, batch: seq<Record>, tallies: seq<Tally>) returns (r: seq<Tally>)
    requires |tallies| > 0
    ensures |r| == |tallies| && MergeAll(r) == Merge(MergeAll(tallies), Sequential(codec, batch))
  {
    hide Merge, Single, MergeAll, Sequential, Below, Over;
    r := tallies;
    OverNothing(codec, batch);
    if batch == [] {
      EmptySequence(codec);
      MergeNothing(MergeAll(tallies));
      return;
    }
    var active := if |tallies| > |batch| then |batch| else |tallies|;
    var next: seq<nat> := seq(active, w requires 0 <= w < active => w);
    ghost var done: set<nat> := {};
    var running := Below(active);
    StridesBegin(active, |batch|);
    MergeNothing(MergeAll(tallies));
    forall w: nat ensures w in running <==> w < active { BelowMeaning(active, w); }
    while running != {}
      invariant |next| == active && |r| == |tallies| && Strides(next, done, |batch|)
      invariant MergeAll(r) == Merge(MergeAll(tallies), Over(codec, batch, done))
      invariant forall w: nat :: w in running ==> w < active
      invariant forall w: nat :: w < active && w !in running ==> next[w] >= |batch|
      decreases Below(|batch|) - done, running
    {
      var w :| w in running;
      DoneSize(done, |batch|);
      if next[w] < |batch| {
        ghost var position := next[w];
        BelowMeaning(|batch|, position);
        r, next := Step(codec, batch, r, next, w, done, MergeAll(tallies));
        done := done + {position};
      } else {
        running := running - {w};
      }
    }
    StridesCover(next, done, |batch|);
    OverAll(codec, batch, |batch|);
    assert batch[..|batch|] == batch;
  }

  /** measureComposeRecordSource: batches of eight records for each worker, merged at the end. */
  method Measure(codec: Codec, records: seq<Record>, requested: int) returns (total: Tally)
    ensures total == Sequential(codec, records)
  {
    hide Merge, Single;
    var workers: nat := if requested < 1 then 1 else requested;
    var tallies := seq(workers, i => Nothing);
    MergeAllNothing(tallies);
    var batch: seq<Record> := [];
    MergeNothing(Sequential(codec, []));
    for i := 0 to |records|
      invariant |tallies| == workers
      invariant Merge(MergeAll(tallies), Sequential(codec, batch)) == Sequential(codec, records[..i])
    {
      assert records[..i + 1][..i] == records[..i] && (batch + [records[i]])[..|batch|] == batch;
      MergeAssociates(MergeAll(tallies), Sequential(codec, batch), Single(codec, records[i]));
      batch := batch + [records[i]];
      if |batch| >= workers * 8 {
        tallies := Flush(codec, batch, tallies);
        batch := [];
        MergeNothing(MergeAll(tallies));
      }
    }
    assert records[..|records|] == records;
    tallies := Flush(codec, batch, tallies);
    total := Nothing;
    for i := 0 to |tallies|
      invariant total == MergeAll(tallies[..i])
    {
      assert tallies[..i + 1][..i] == tallies[..i];
      total := MergeInto(total, tallies[i]);
    }
    assert tallies[..|tallies|] == tallies;
  }
}
