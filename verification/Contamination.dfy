/**
 The contamination check.  The source looks training records up in an exact
 index and an inverted shingle index; the reference compares every training
 record with every evaluation record.
 */
module Contamination {
  import opened Prelude
  import opened Jaccard

  datatype Overlap = Overlap(trainingID: string, evaluationID: string, ratio: real)

  datatype Limit = Limit(exactRecords: int, fuzzyRecords: int, shingleWords: nat, fuzzyRatio: real)

  datatype Report = Report(exact: seq<Overlap>, fuzzy: seq<Overlap>, passed: bool)

  // ----- The reference: all pairs -----

  function ExactPair(t: Fingerprint, e: Fingerprint): seq<Overlap> {
    if t.exact == e.exact then [Overlap(t.id, e.id, 1.0)] else []
  }

  predicate IsFuzzy(t: Fingerprint, e: Fingerprint, ratio: real) {
    t.exact != e.exact && Jaccard.Overlap(t.shingles, e.shingles) >= ratio
  }

  predicate SharesAny(e: Fingerprint, shingles: set<string>) { shingles * e.shingles != {} }

  predicate Shares(t: Fingerprint, e: Fingerprint) { SharesAny(e, t.shingles) }

  /** All fuzzy pairs, or only those that the index can find. */
  predicate Reported(t: Fingerprint, e: Fingerprint, ratio: real, indexed: bool) {
    IsFuzzy(t, e, ratio) && (indexed ==> Shares(t, e))
  }

  function FuzzyPair(t: Fingerprint, e: Fingerprint, ratio: real, indexed: bool): multiset<Overlap> {
    if Reported(t, e, ratio, indexed) then multiset{Overlap(t.id, e.id, Jaccard.Overlap(t.shingles, e.shingles))} else multiset{}
  }

  /** The exact matches of one training record, in evaluation order. */
  function ExactWith(t: Fingerprint, evaluation: seq<Fingerprint>): seq<Overlap> {
    if evaluation == [] then []
    else ExactWith(t, evaluation[..|evaluation| - 1]) + ExactPair(t, evaluation[|evaluation| - 1])
  }

  /** Against the first n evaluation records. */
  function FuzzyWith(t: Fingerprint, evaluation: seq<Fingerprint>, ratio: real, indexed: bool, n: nat): multiset<Overlap>
    requires n <= |evaluation|
  {
    if n == 0 then multiset{}
    else FuzzyWith(t, evaluation, ratio, indexed, n - 1) + FuzzyPair(t, evaluation[n - 1], ratio, indexed)
  }

  function AllExact(training: seq<Fingerprint>, evaluation: seq<Fingerprint>): seq<Overlap> {
    if training == [] then []
    else AllExact(training[..|training| - 1], evaluation) + ExactWith(training[|training| - 1], evaluation)
  }

  function AllFuzzy(training: seq<Fingerprint>, evaluation: seq<Fingerprint>, ratio: real, indexed: bool): multiset<Overlap> {
    if training == [] then multiset{}
    else
      var n := |training| - 1;
      AllFuzzy(training[..n], evaluation, ratio, indexed) + FuzzyWith(training[n], evaluation, ratio, indexed, |evaluation|)
  }

  // ----- The indexes -----

  type Index = map<string, seq<nat>>

  function At(index: Index, key: string): seq<nat> { if key in index then index[key] else [] }

  /** The positions with the given digest, ascending. */
  function WithDigest(evaluation: seq<Fingerprint>, key: string): seq<nat> {
    if evaluation == [] then []
    else
      var n := |evaluation| - 1;
      WithDigest(evaluation[..n], key) + if evaluation[n].exact == key then [n] else []
  }

  /** The positions that contain the given shingle, ascending. */
  function WithShingle(evaluation: seq<Fingerprint>, key: string): seq<nat> {
    if evaluation == [] then []
    else
      var n := |evaluation| - 1;
      WithShingle(evaluation[..n], key) + if key in evaluation[n].shingles then [n] else []
  }

  ghost predicate DigestIndex(evaluation: seq<Fingerprint>, index: Index) {
    forall key :: At(index, key) == WithDigest(evaluation, key)
  }

  ghost predicate ShingleIndex(evaluation: seq<Fingerprint>, index: Index) {
    forall key :: At(index, key) == WithShingle(evaluation, key)
  }

  lemma {:induction false} WithDigestMeaning(evaluation: seq<Fingerprint>, key: string, i: nat)
    ensures i in WithDigest(evaluation, key) <==> i < |evaluation| && evaluation[i].exact == key
  {
    if evaluation != [] { WithDigestMeaning(evaluation[..|evaluation| - 1], key, i); }
  }

  lemma {:induction false} WithShingleMeaning(evaluation: seq<Fingerprint>, key: string, i: nat)
    ensures i in WithShingle(evaluation, key) <==> i < |evaluation| && key in evaluation[i].shingles
  {
    if evaluation != [] { WithShingleMeaning(evaluation[..|evaluation| - 1], key, i); }
  }

  lemma WithDigestAppend(evaluation: seq<Fingerprint>, e: Fingerprint, key: string)
    ensures WithDigest(evaluation + [e], key) == WithDigest(evaluation, key) + if e.exact == key then [|evaluation|] else []
    ensures WithShingle(evaluation + [e], key) ==
            WithShingle(evaluation, key) + if key in e.shingles then [|evaluation|] else []
  {
    assert (evaluation + [e])[..|evaluation|] == evaluation;
  }

  /** The inner loop over the shingles of one evaluation record, in whatever order the set yields them. */
  method AddShingles(evaluation: seq<Fingerprint>, e: Fingerprint, inverted: Index) returns (r: Index)
    requires ShingleIndex(evaluation, inverted)
    ensures ShingleIndex(evaluation + [e], r)
  {
    r := inverted;
    var rest := e.shingles;
    while rest != {}
      invariant rest <= e.shingles
      invariant forall key :: At(r, key) ==
                  WithShingle(evaluation, key) + if key in e.shingles - rest then [|evaluation|] else []
    {
      var shingle :| shingle in rest;
      r := r[shingle := At(r, shingle) + [|evaluation|]];
      rest := rest - {shingle};
    }
    forall key { WithDigestAppend(evaluation, e, key); }
  }

  method BuildIndexes(evaluation: seq<Fingerprint>) returns (exact: Index, inverted: Index)
    ensures DigestIndex(evaluation, exact) && ShingleIndex(evaluation, inverted)
  {
    exact, inverted := map[], map[];
    for i := 0 to |evaluation|
      invariant DigestIndex(evaluation[..i], exact) && ShingleIndex(evaluation[..i], inverted)
    {
      var e := evaluation[i];
      assert evaluation[..i + 1] == evaluation[..i] + [e];
      forall key { WithDigestAppend(evaluation[..i], e, key); }
      exact := exact[e.exact := At(exact, e.exact) + [i]];
      inverted := AddShingles(evaluation[..i], e, inverted);
    }
    assert evaluation[..|evaluation|] == evaluation;
  }

  // ----- One training record -----

  /** The loop over the exact matches. */
  method ReportExact(t: Fingerprint, evaluation: seq<Fingerprint>, exact: Index) returns (overlaps: seq<Overlap>, matches: set<nat>)
    requires DigestIndex(evaluation, exact)
    ensures overlaps == ExactWith(t, evaluation)
    ensures forall i: nat :: i in matches <==> i < |evaluation| && evaluation[i].exact == t.exact
  {
    overlaps, matches := [], {};
    var positions := At(exact, t.exact);
    for k := 0 to |positions|
      invariant matches == ToSet(positions[..k])
      invariant overlaps == ReportAt(t, evaluation, positions[..k])
    {
      assert positions[..k + 1] == positions[..k] + [positions[k]] && positions[..k + 1][..k] == positions[..k];
      assert positions[k] in positions;
      WithDigestMeaning(evaluation, t.exact, positions[k]);
      matches := matches + {positions[k]};
      overlaps := overlaps + [Overlap(t.id, evaluation[positions[k]].id, 1.0)];
    }
    assert positions[..|positions|] == positions;
    ReportedExact(t, evaluation);
    forall i: nat ensures i in matches <==> i < |evaluation| && evaluation[i].exact == t.exact {
      WithDigestMeaning(evaluation, t.exact, i);
    }
  }

  function ReportAt(t: Fingerprint, evaluation: seq<Fingerprint>, positions: seq<nat>): seq<Overlap> {
    if positions == [] then []
    else
      var last := positions[|positions| - 1];
      ReportAt(t, evaluation, positions[..|positions| - 1])
      + if last < |evaluation| then [Overlap(t.id, evaluation[last].id, 1.0)] else []
  }

  lemma {:induction false} ReportLonger(t: Fingerprint, evaluation: seq<Fingerprint>, e: Fingerprint, positions: seq<nat>)
    requires forall k :: 0 <= k < |positions| ==> positions[k] < |evaluation|
    ensures ReportAt(t, evaluation + [e], positions) == ReportAt(t, evaluation, positions)
  {
    if positions != [] { ReportLonger(t, evaluation, e, positions[..|positions| - 1]); }
  }

  lemma {:induction false} ReportedExact(t: Fingerprint, evaluation: seq<Fingerprint>)
    ensures ReportAt(t, evaluation, WithDigest(evaluation, t.exact)) == ExactWith(t, evaluation)
  {
    if evaluation != [] {
      var n := |evaluation| - 1;
      var front, last := evaluation[..n], evaluation[n];
      var before := WithDigest(front, t.exact);
      assert evaluation == front + [last];
      ReportedExact(t, front);
      forall k | 0 <= k < |before| ensures before[k] < |front| {
        assert before[k] in before;
        WithDigestMeaning(front, t.exact, before[k]);
      }
      ReportLonger(t, front, last, before);
      if last.exact == t.exact {
        assert (before + [n])[..|before|] == before;
      } else {
        assert before + [] == before;
      }
    }
  }

  /** The evaluation records that share a shingle with the training record. */
  method Candidates(t: Fingerprint, evaluation: seq<Fingerprint>, inverted: Index) returns (candidates: set<nat>)
    requires ShingleIndex(evaluation, inverted)
    ensures forall i: nat :: i in candidates <==> i < |evaluation| && Shares(t, evaluation[i])
  {
    candidates := {};
    var rest := t.shingles;
    while rest != {}
      invariant rest <= t.shingles
      invariant forall i: nat :: i in candidates <==> i < |evaluation| && SharesAny(evaluation[i], t.shingles - rest)
    {
      var shingle :| shingle in rest;
      assert At(inverted, shingle) == WithShingle(evaluation, shingle);
      forall i: nat ensures i in ToSet(WithShingle(evaluation, shingle)) <==> i < |evaluation| && shingle in evaluation[i].shingles {
        WithShingleMeaning(evaluation, shingle, i);
      }
      forall i: nat | i < |evaluation|
        ensures SharesAny(evaluation[i], t.shingles - (rest - {shingle})) <==>
                SharesAny(evaluation[i], t.shingles - rest) || shingle in evaluation[i].shingles
      {
        OneMoreShared(evaluation[i], t.shingles - rest, shingle);
        assert t.shingles - (rest - {shingle}) == t.shingles - rest + {shingle};
      }
      candidates := candidates + ToSet(At(inverted, shingle));
      rest := rest - {shingle};
    }
    assert t.shingles - {} == t.shingles;
  }

  lemma OneMoreShared(e: Fingerprint, shingles: set<string>, more: string)
    ensures SharesAny(e, shingles + {more}) <==> SharesAny(e, shingles) || more in e.shingles
  {
    if more in e.shingles { assert more in (shingles + {more}) * e.shingles; }
    assert (shingles + {more}) * e.shingles == shingles * e.shingles + {more} * e.shingles;
  }

  // ----- Sums over sets of positions -----

  function PairAt(t: Fingerprint, evaluation: seq<Fingerprint>, ratio: real, i: nat): multiset<Overlap> {
    if i < |evaluation| then FuzzyPair(t, evaluation[i], ratio, true) else multiset{}
  }

  ghost function Over(positions: set<nat>, t: Fingerprint, evaluation: seq<Fingerprint>, ratio: real): multiset<Overlap>
    decreases |positions|
  {
    if positions == {} then multiset{}
    else
      var i :| i in positions;
      PairAt(t, evaluation, ratio, i) + Over(positions - {i}, t, evaluation, ratio)
  }

  lemma {:induction false} OverStep(positions: set<nat>, t: Fingerprint, evaluation: seq<Fingerprint>, ratio: real, k: nat)
    requires k in positions
    ensures Over(positions, t, evaluation, ratio) ==
            PairAt(t, evaluation, ratio, k) + Over(positions - {k}, t, evaluation, ratio)
    decreases |positions|
  {
    var j :| j in positions && Over(positions, t, evaluation, ratio) ==
                               PairAt(t, evaluation, ratio, j) + Over(positions - {j}, t, evaluation, ratio);
    if j != k {
      OverStep(positions - {j}, t, evaluation, ratio, k);
      OverStep(positions - {k}, t, evaluation, ratio, j);
      assert positions - {j} - {k} == positions - {k} - {j};
    }
  }

  /** Positions that contribute nothing can be left out. */
  lemma {:induction false} OverSubset(some: set<nat>, all: set<nat>, t: Fingerprint, evaluation: seq<Fingerprint>, ratio: real)
    requires some <= all && forall i :: i in all && i !in some ==> PairAt(t, evaluation, ratio, i) == multiset{}
    ensures Over(some, t, evaluation, ratio) == Over(all, t, evaluation, ratio)
    decreases |all|
  {
    if all == some {
    } else {
      var i :| i in all && i !in some;
      OverStep(all, t, evaluation, ratio, i);
      OverSubset(some, all - {i}, t, evaluation, ratio);
    }
  }

  lemma BelowLast(n: nat)
    requires n > 0
    ensures n - 1 in Below(n) && Below(n) - {n - 1} == Below(n - 1)
  {
    BelowMeaning(n - 1, n - 1);
  }

  lemma {:induction false} OverAll(t: Fingerprint, evaluation: seq<Fingerprint>, ratio: real, n: nat)
    requires n <= |evaluation|
    ensures Over(Below(n), t, evaluation, ratio) == FuzzyWith(t, evaluation, ratio, true, n)
  {
    if n > 0 {
      var all := Below(n);
      BelowLast(n);
      OverStep(all, t, evaluation, ratio, n - 1);
      OverAll(t, evaluation, ratio, n - 1);
    }
  }

  /** The candidates are all that an indexed search can report. */
  lemma CandidatesSuffice(candidates: set<nat>, t: Fingerprint, evaluation: seq<Fingerprint>, ratio: real)
    requires forall i: nat :: i in candidates <==> i < |evaluation| && Shares(t, evaluation[i])
    ensures Over(candidates, t, evaluation, ratio) == FuzzyWith(t, evaluation, ratio, true, |evaluation|)
  {
    forall i: nat ensures i in Below(|evaluation|) <==> i < |evaluation| { BelowMeaning(|evaluation|, i); }
    forall i | i in Below(|evaluation|) && i !in candidates ensures PairAt(t, evaluation, ratio, i) == multiset{} {
    }
    OverSubset(candidates, Below(|evaluation|), t, evaluation, ratio);
    OverAll(t, evaluation, ratio, |evaluation|);
  }

  /** One candidate: an exact match is passed over. */
  method Compare(t: Fingerprint, e: Fingerprint, exact: bool, ratio: real) returns (overlaps: seq<Overlap>)
    requires Shares(t, e) && (exact <==> e.exact == t.exact)
    ensures multiset(overlaps) == FuzzyPair(t, e, ratio, true)
  {
    overlaps := [];
    if !exact {
      var overlap := ShingleOverlap(t.shingles, e.shingles);
      if overlap >= ratio {
        overlaps := [Overlap(t.id, e.id, overlap)];
      }
    }
  }

  /** The loop over the candidates, in whatever order the set yields them. */
  method ReportFuzzy(t: Fingerprint, evaluation: seq<Fingerprint>, candidates: set<nat>, matches: set<nat>, ratio: real)
    returns (overlaps: seq<Overlap>)
    requires forall i :: i in candidates ==> i < |evaluation| && Shares(t, evaluation[i])
    requires forall i: nat :: i in matches <==> i < |evaluation| && evaluation[i].exact == t.exact
    ensures multiset(overlaps) == Over(candidates, t, evaluation, ratio)
  {
    overlaps := [];
    var rest := candidates;
    while rest != {}
      invariant rest <= candidates
      invariant multiset(overlaps) + Over(rest, t, evaluation, ratio) == Over(candidates, t, evaluation, ratio)
    {
      var i :| i in rest;
      OverStep(rest, t, evaluation, ratio, i);
      rest := rest - {i};
      var more := Compare(t, evaluation[i], i in matches, ratio);
      overlaps := overlaps + more;
    }
  }

  // ----- The whole check -----

  /** The callback for one training record. */
  method CheckRecord(t: Fingerprint, evaluation: seq<Fingerprint>, exactIndex: Index, inverted: Index, ratio: real)
    returns (found: seq<Overlap>, close: seq<Overlap>)
    requires DigestIndex(evaluation, exactIndex) && ShingleIndex(evaluation, inverted)
    ensures found == ExactWith(t, evaluation)
    ensures multiset(close) == FuzzyWith(t, evaluation, ratio, true, |evaluation|)
  {
    var matches;
    found, matches := ReportExact(t, evaluation, exactIndex);
    var candidates := Candidates(t, evaluation, inverted);
    close := ReportFuzzy(t, evaluation, candidates, matches, ratio);
    CandidatesSuffice(candidates, t, evaluation, ratio);
  }

  method Fingerprints(text: Text, records: seq<Record>, width: nat) returns (result: seq<Fingerprint>)
    requires width >= 1
    ensures result == FingerprintsOf(text, records, width)
  {
    result := [];
    for i := 0 to |records|
      invariant result == FingerprintsOf(text, records[..i], width)
    {
      assert records[..i + 1][..i] == records[..i];
      var f := FingerprintRecord(text, records[i], width);
      result := result + [f];
    }
    assert records[..|records|] == records;
  }

  /** CheckContamination, from the records to the report, up to its final sort and digest. */
  method CheckContamination(text: Text, trainingRecords: seq<Record>, evaluationRecords: seq<Record>, limit: Limit)
    returns (report: Report)
    requires limit.shingleWords >= 1
    ensures var training := FingerprintsOf(text, trainingRecords, limit.shingleWords);
            var evaluation := FingerprintsOf(text, evaluationRecords, limit.shingleWords);
            && report.exact == AllExact(training, evaluation)
            && multiset(report.fuzzy) == AllFuzzy(training, evaluation, limit.fuzzyRatio, true)
            && (limit.fuzzyRatio > 0.0 ==> multiset(report.fuzzy) == AllFuzzy(training, evaluation, limit.fuzzyRatio, false))
    ensures report.passed <==> |report.exact| <= limit.exactRecords && |report.fuzzy| <= limit.fuzzyRecords
  {
    hide ExactWith, FuzzyWith, Reported, IsFuzzy, FingerprintOf;
    var width := limit.shingleWords;
    var evaluation := Fingerprints(text, evaluationRecords, width);
    var exactIndex, inverted := BuildIndexes(evaluation);
    var exact: seq<Overlap>, fuzzy: seq<Overlap> := [], [];
    for k := 0 to |trainingRecords|
      invariant exact == AllExact(FingerprintsOf(text, trainingRecords[..k], width), evaluation)
      invariant multiset(fuzzy) == AllFuzzy(FingerprintsOf(text, trainingRecords[..k], width), evaluation, limit.fuzzyRatio, true)
    {
      ghost var before := FingerprintsOf(text, trainingRecords[..k], width);
      assert trainingRecords[..k + 1][..k] == trainingRecords[..k];
      var source := FingerprintRecord(text, trainingRecords[k], width);
      assert (before + [source])[..|before|] == before;
      var found, close := CheckRecord(source, evaluation, exactIndex, inverted, limit.fuzzyRatio);
      exact, fuzzy := exact + found, fuzzy + close;
    }
    assert trainingRecords[..|trainingRecords|] == trainingRecords;
    if limit.fuzzyRatio > 0.0 {
      IndexMissesNothing(FingerprintsOf(text, trainingRecords, width), evaluation, limit.fuzzyRatio);
    }
    report := Report(exact, fuzzy, |exact| <= limit.exactRecords && |fuzzy| <= limit.fuzzyRecords);
  }

  /** The index reports the pair exactly when the comparison of all pairs does. */
  predicate Agree(text: Text, width: nat, t: Record, e: Record, ratio: real) {
    var x, y := FingerprintOf(text, t, width), FingerprintOf(text, e, width);
    Reported(x, y, ratio, true) <==> Reported(x, y, ratio, false)
  }

  /** A positive ratio cannot be reached without a common shingle.  A ratio that is not positive, which the policy
      validation excludes, is reached by the records "a" and "b", which the index never compares. */
  lemma AgreeIffPositive(text: Text, width: nat, ratio: real)
    requires width >= 1
    requires text.words("a") == ["a"] && text.words("b") == ["b"] && text.hash("a") != text.hash("b")
    ensures ratio > 0.0 <==> forall t, e :: Agree(text, width, t, e, ratio)
  {
    if ratio > 0.0 {
      forall t, e ensures Agree(text, width, t, e, ratio) {
        OverlapRange(FingerprintOf(text, t, width).shingles, FingerprintOf(text, e, width).shingles);
      }
    } else {
      OneWord("a", width);
      OneWord("b", width);
      var x, y := FingerprintOf(text, Record("t", "a"), width), FingerprintOf(text, Record("e", "b"), width);
      assert x.shingles * y.shingles == {};
      OverlapRange(x.shingles, y.shingles);
      assert !Agree(text, width, Record("t", "a"), Record("e", "b"), ratio);
    }
  }

  lemma OneWord(word: string, width: nat)
    requires width >= 1 && word != ""
    ensures Shingles([word], width) == {word} && Join([word]) == word
  {
    if width == 1 {
      assert [word][0..1] == [word];
      assert Runs([word], 1, 1) == Runs([word], 1, 0) + {word};
    }
  }

  lemma {:induction false} IndexMissesNothingWith(t: Fingerprint, evaluation: seq<Fingerprint>, ratio: real, n: nat)
    requires ratio > 0.0 && n <= |evaluation|
    ensures FuzzyWith(t, evaluation, ratio, true, n) == FuzzyWith(t, evaluation, ratio, false, n)
  {
    if n > 0 {
      IndexMissesNothingWith(t, evaluation, ratio, n - 1);
      OverlapRange(t.shingles, evaluation[n - 1].shingles);
    }
  }

  lemma {:induction false} IndexMissesNothing(training: seq<Fingerprint>, evaluation: seq<Fingerprint>, ratio: real)
    requires ratio > 0.0
    ensures AllFuzzy(training, evaluation, ratio, true) == AllFuzzy(training, evaluation, ratio, false)
  {
    if training != [] {
      IndexMissesNothing(training[..|training| - 1], evaluation, ratio);
      IndexMissesNothingWith(training[|training| - 1], evaluation, ratio, |evaluation|);
    }
  }

  // ----- What is in a report -----

  lemma {:induction false} ExactWithMeaning(t: Fingerprint, evaluation: seq<Fingerprint>, o: Overlap)
    ensures o in ExactWith(t, evaluation) <==>
            exists e :: e in evaluation && e.exact == t.exact && o == Overlap(t.id, e.id, 1.0)
  {
    if evaluation != [] {
      var front, last := evaluation[..|evaluation| - 1], evaluation[|evaluation| - 1];
      ExactWithMeaning(t, front, o);
      assert forall e :: e in evaluation <==> e in front || e == last;
    }
  }

  /** The exact overlaps: one for each pair with equal digests, under the names of the two records. */
  lemma {:induction false} AllExactMeaning(training: seq<Fingerprint>, evaluation: seq<Fingerprint>, o: Overlap)
    ensures o in AllExact(training, evaluation) <==>
            exists t, e :: t in training && e in evaluation && e.exact == t.exact && o == Overlap(t.id, e.id, 1.0)
  {
    hide ExactWith;
    if training != [] {
      var front, last := training[..|training| - 1], training[|training| - 1];
      AllExactMeaning(front, evaluation, o);
      ExactWithMeaning(last, evaluation, o);
      assert forall t :: t in training <==> t in front || t == last;
    }
  }

  /** A fuzzy overlap: different digests, and a Jaccard index that reaches the ratio. */
  ghost predicate Close(t: Fingerprint, e: Fingerprint, ratio: real, o: Overlap) {
    && t.exact != e.exact && o == Overlap(t.id, e.id, Jaccard.Overlap(t.shingles, e.shingles)) && o.ratio >= ratio
  }

  lemma PairMeaning(t: Fingerprint, e: Fingerprint, ratio: real, o: Overlap)
    ensures o in FuzzyPair(t, e, ratio, false) <==> Close(t, e, ratio, o)
  {
  }

  lemma {:induction false} FuzzyWithMeaning(t: Fingerprint, evaluation: seq<Fingerprint>, ratio: real, n: nat, o: Overlap)
    requires n <= |evaluation|
    ensures o in FuzzyWith(t, evaluation, ratio, false, n) <==> exists e :: e in evaluation[..n] && Close(t, e, ratio, o)
  {
    hide FuzzyPair, Close;
    if n > 0 {
      var last := evaluation[n - 1];
      FuzzyWithMeaning(t, evaluation, ratio, n - 1, o);
      assert evaluation[..n] == evaluation[..n - 1] + [last];
      assert forall e :: e in evaluation[..n] <==> e in evaluation[..n - 1] || e == last;
      PairMeaning(t, last, ratio, o);
    }
  }

  /** The fuzzy overlaps of the comparison of all pairs. */
  lemma {:induction false} AllFuzzyMeaning(training: seq<Fingerprint>, evaluation: seq<Fingerprint>, ratio: real, o: Overlap)
    ensures o in AllFuzzy(training, evaluation, ratio, false) <==>
            exists t, e :: t in training && e in evaluation && Close(t, e, ratio, o)
  {
    hide FuzzyWith, Close;
    if training != [] {
      var front, last := training[..|training| - 1], training[|training| - 1];
      AllFuzzyMeaning(front, evaluation, ratio, o);
      FuzzyWithMeaning(last, evaluation, ratio, |evaluation|, o);
      assert evaluation[..|evaluation|] == evaluation;
      assert forall t :: t in training <==> t in front || t == last;
    }
  }

  /** The pairs with equal digests, counted evaluation record by evaluation record. */
  function SameAs(training: seq<Fingerprint>, e: Fingerprint): nat {
    if training == [] then 0
    else SameAs(training[..|training| - 1], e) + if training[|training| - 1].exact == e.exact then 1 else 0
  }

  function EqualPairs(training: seq<Fingerprint>, evaluation: seq<Fingerprint>): nat {
    if evaluation == [] then 0
    else EqualPairs(training, evaluation[..|evaluation| - 1]) + SameAs(training, evaluation[|evaluation| - 1])
  }

  lemma {:induction false} EqualPairsMore(training: seq<Fingerprint>, t: Fingerprint, evaluation: seq<Fingerprint>)
    ensures EqualPairs(training + [t], evaluation) == EqualPairs(training, evaluation) + |ExactWith(t, evaluation)|
  {
    if evaluation != [] {
      EqualPairsMore(training, t, evaluation[..|evaluation| - 1]);
      assert (training + [t])[..|training|] == training;
    }
  }

  lemma {:induction false} NoEqualPairs(evaluation: seq<Fingerprint>)
    ensures EqualPairs([], evaluation) == 0
  {
    if evaluation != [] { NoEqualPairs(evaluation[..|evaluation| - 1]); }
  }

  /** The policy counts pairs: a record that is met twice counts twice. */
  lemma {:induction false} ExactCount(training: seq<Fingerprint>, evaluation: seq<Fingerprint>)
    ensures |AllExact(training, evaluation)| == EqualPairs(training, evaluation)
  {
    if training == [] {
      NoEqualPairs(evaluation);
    } else {
      var front, last := training[..|training| - 1], training[|training| - 1];
      assert training == front + [last];
      ExactCount(front, evaluation);
      EqualPairsMore(front, last, evaluation);
    }
  }

  /** The close pairs, counted evaluation record by evaluation record. */
  function CloseTo(training: seq<Fingerprint>, e: Fingerprint, ratio: real): nat {
    if training == [] then 0
    else
      var t := training[|training| - 1];
      CloseTo(training[..|training| - 1], e, ratio)
      + if t.exact != e.exact && Jaccard.Overlap(t.shingles, e.shingles) >= ratio then 1 else 0
  }

  function ClosePairs(training: seq<Fingerprint>, evaluation: seq<Fingerprint>, ratio: real): nat {
    if evaluation == [] then 0
    else ClosePairs(training, evaluation[..|evaluation| - 1], ratio) + CloseTo(training, evaluation[|evaluation| - 1], ratio)
  }

  lemma OneMoreClose(training: seq<Fingerprint>, t: Fingerprint, e: Fingerprint, ratio: real)
    ensures CloseTo(training + [t], e, ratio) == CloseTo(training, e, ratio) + |FuzzyPair(t, e, ratio, false)|
  {
    assert (training + [t])[..|training|] == training;
  }

  lemma ClosePairsStep(training: seq<Fingerprint>, evaluation: seq<Fingerprint>, ratio: real, n: nat)
    requires n < |evaluation|
    ensures ClosePairs(training, evaluation[..n + 1], ratio) ==
            ClosePairs(training, evaluation[..n], ratio) + CloseTo(training, evaluation[n], ratio)
  {
    hide CloseTo;
    assert evaluation[..n + 1][..n] == evaluation[..n];
  }

  lemma {:induction false} ClosePairsMore(training: seq<Fingerprint>, t: Fingerprint, evaluation: seq<Fingerprint>, ratio: real,
                                          n: nat)
    requires n <= |evaluation|
    ensures ClosePairs(training + [t], evaluation[..n], ratio) ==
            ClosePairs(training, evaluation[..n], ratio) + |FuzzyWith(t, evaluation, ratio, false, n)|
  {
    hide CloseTo, FuzzyPair;
    if n > 0 {
      ClosePairsMore(training, t, evaluation, ratio, n - 1);
      hide ClosePairs;
      ClosePairsStep(training + [t], evaluation, ratio, n - 1);
      ClosePairsStep(training, evaluation, ratio, n - 1);
      OneMoreClose(training, t, evaluation[n - 1], ratio);
    }
  }

  lemma {:induction false} NoClosePairs(evaluation: seq<Fingerprint>, ratio: real)
    ensures ClosePairs([], evaluation, ratio) == 0
  {
    if evaluation != [] { NoClosePairs(evaluation[..|evaluation| - 1], ratio); }
  }

  /** So does the limit on fuzzy overlaps: each close pair counts once. */
  lemma {:induction false} FuzzyCount(training: seq<Fingerprint>, evaluation: seq<Fingerprint>, ratio: real)
    ensures |AllFuzzy(training, evaluation, ratio, false)| == ClosePairs(training, evaluation, ratio)
  {
    if training == [] {
      NoClosePairs(evaluation, ratio);
    } else {
      var front, last := training[..|training| - 1], training[|training| - 1];
      assert training == front + [last] && evaluation[..|evaluation|] == evaluation;
      FuzzyCount(front, evaluation, ratio);
      ClosePairsMore(front, last, evaluation, ratio, |evaluation|);
    }
  }

  /** The exact overlaps of a report name the pairs of records that have the same words. */
  lemma ExactIffSameWords(text: Text, training: seq<Record>, evaluation: seq<Record>, width: nat, o: Overlap)
    requires forall r :: r in training || r in evaluation ==> Words(text.words(r.body))
    requires forall x, y :: text.hash(x) == text.hash(y) ==> x == y
    ensures o in AllExact(FingerprintsOf(text, training, width), FingerprintsOf(text, evaluation, width)) <==>
            exists t, e :: t in training && e in evaluation && text.words(t.body) == text.words(e.body)
                           && o == Overlap(t.id, e.id, 1.0)
  {
    hide FingerprintOf, FingerprintsOf, Words;
    var x, y := FingerprintsOf(text, training, width), FingerprintsOf(text, evaluation, width);
    AllExactMeaning(x, y, o);
    FingerprintsAt(text, training, width);
    FingerprintsAt(text, evaluation, width);
    forall t, e | t in training && e in evaluation
      ensures FingerprintOf(text, t, width) in x && FingerprintOf(text, e, width) in y
      ensures FingerprintOf(text, t, width).id == t.id && FingerprintOf(text, e, width).id == e.id
      ensures FingerprintOf(text, t, width).exact == FingerprintOf(text, e, width).exact <==>
              text.words(t.body) == text.words(e.body)
    {
      var i :| 0 <= i < |training| && training[i] == t;
      var j :| 0 <= j < |evaluation| && evaluation[j] == e;
      assert x[i] in x && y[j] in y;
      SameDigestIffSameWords(text, t, e, width);
      SameDigestIffSameWords(text, e, t, width);
    }
    if o in AllExact(x, y) {
      var t, e :| t in x && e in y && e.exact == t.exact && o == Overlap(t.id, e.id, 1.0);
      var i :| 0 <= i < |x| && x[i] == t;
      var j :| 0 <= j < |y| && y[j] == e;
      assert training[i] in training && evaluation[j] in evaluation;
    }
    if t, e :| t in training && e in evaluation && text.words(t.body) == text.words(e.body) && o == Overlap(t.id, e.id, 1.0) {
      assert FingerprintOf(text, t, width) in x && FingerprintOf(text, e, width) in y;
    }
  }
}
