/**
 What a license policy does to detector findings: the bill repeats the findings
 of the whole manifest, and the validator compares them with the shards that
 the policy admits.
 */
module PolicyFindings {
  import opened Prelude
  import opened Measures
  import opened IndexTypes
  import opened Pins
  import opened Rollups
  import opened Selections
  import opened BomTotals
  import opened BomBuilders
  import Manifests

  function AssessmentOf(s: Shard): Assessment { if s.assessment.Some? then s.assessment.value else NoAssessment }

  /** The findings of all listed shards. */
  function FindingsListed(listed: seq<Listed>): Assessment {
    if listed == [] then NoAssessment
    else AddAssessment(FindingsListed(listed[..|listed| - 1]), AssessmentOf(listed[|listed| - 1].shard))
  }

  /** What the index verifier has established for assessed text whose shards are listed in the manifest itself. */
  ghost predicate VerifiedFindings(c: Corpus, listed: seq<Listed>) {
    && c.format.schema >= TEXT_RECORD_SCHEMA
    && AllValid(listed)
    && c.assessment == Some(FindingsListed(listed))
  }

  predicate NoFinding(l: Listed) { AssessmentOf(l.shard) == NoAssessment }

  ghost predicate NothingExcluded(allows: string -> bool, c: Corpus, listed: seq<Listed>) {
    forall l :: l in listed && !Allowed(allows, c, l) ==> NoFinding(l)
  }

  predicate AtMost(a: Assessment, b: Assessment) {
    a.email <= b.email && a.repetitive <= b.repetitive && a.boilerplate <= b.boilerplate
  }

  /** What was found in some shards with `docs` documents, against what was found in all of them. */
  predicate Share(found: Assessment, all: Assessment, docs: int, whole: bool) {
    AtMost(found, all) && ValidFindings(Some(found), docs) && (found == all <==> whole)
  }

  lemma ShareStep(found: Assessment, all: Assessment, docs: int, whole: bool, a: Assessment, more: int)
    requires Share(found, all, docs, whole) && more >= 0 && ValidFindings(Some(a), more)
    ensures Share(AddAssessment(found, a), AddAssessment(all, a), docs + more, whole)
    ensures Share(found, AddAssessment(all, a), docs, whole && a == NoAssessment)
  {
  }

  ghost predicate AllValid(listed: seq<Listed>) {
    forall l :: l in listed ==> l.shard.docs >= 0 && ValidFindings(l.shard.assessment, l.shard.docs)
  }

  lemma LastListed(allows: string -> bool, c: Corpus, front: seq<Listed>, last: Listed)
    requires AllValid(front + [last])
    ensures AllValid(front) && last.shard.docs >= 0 && ValidFindings(Some(AssessmentOf(last.shard)), last.shard.docs)
    ensures NothingExcluded(allows, c, front + [last]) <==>
            NothingExcluded(allows, c, front) && (Allowed(allows, c, last) || NoFinding(last))
    ensures FindingsListed(front + [last]) == AddAssessment(FindingsListed(front), AssessmentOf(last.shard))
  {
    hide Allowed, NoFinding;
    var listed := front + [last];
    assert last in listed && listed[..|front|] == front;
    assert forall l :: l in listed <==> l in front || l == last;
  }

  lemma AdmittedFindings(c: Corpus, l: Listed)
    requires c.format.schema >= TEXT_RECORD_SCHEMA
    ensures FindingsAt(ShardPinOf(c, l)) == AssessmentOf(l.shard) && ShardPinOf(c, l).docs == l.shard.docs
  {
  }

  lemma FindingsAppend(pins: seq<ShardPin>, p: ShardPin)
    ensures FindingsIn(pins + [p]) == AddAssessment(FindingsIn(pins), FindingsAt(p))
    ensures RunningOf(pins + [p]).total.docs == RunningOf(pins).total.docs + p.docs
  {
    hide MergeModalities, Charges;
    assert (pins + [p])[..|pins|] == pins;
  }

  lemma AdmittedAppend(allows: string -> bool, c: Corpus, front: seq<Listed>, last: Listed)
    ensures Admitted(allows, c, front + [last]) ==
            if Allowed(allows, c, last) then Admitted(allows, c, front) + [ShardPinOf(c, last)] else Admitted(allows, c, front)
  {
    assert (front + [last])[..|front|] == front;
  }

  lemma ShareOfNone(allows: string -> bool, c: Corpus)
    ensures Share(FindingsIn(Admitted(allows, c, [])), FindingsListed([]), RunningOf(Admitted(allows, c, [])).total.docs,
                  NothingExcluded(allows, c, []))
  {
  }

  /** The admitted shards have at most the findings of all of them, at most one of each kind for a document, and all of
      them only when nothing was found in the others. */
  lemma {:induction false} AdmittedShare(allows: string -> bool, c: Corpus, listed: seq<Listed>)
    requires c.format.schema >= TEXT_RECORD_SCHEMA && AllValid(listed)
    ensures var pins := Admitted(allows, c, listed);
            Share(FindingsIn(pins), FindingsListed(listed), RunningOf(pins).total.docs, NothingExcluded(allows, c, listed))
  {
    hide *;
    if listed == [] {
      ShareOfNone(allows, c);
    } else {
      var front, last := listed[..|listed| - 1], listed[|listed| - 1];
      assert listed == front + [last];
      LastListed(allows, c, front, last);
      AdmittedShare(allows, c, front);
      AdmittedAppend(allows, c, front, last);
      var pins, p := Admitted(allows, c, front), ShardPinOf(c, last);
      AdmittedFindings(c, last);
      FindingsAppend(pins, p);
      ShareStep(FindingsIn(pins), FindingsListed(front), RunningOf(pins).total.docs, NothingExcluded(allows, c, front),
                AssessmentOf(last.shard), last.shard.docs);
      NoFindingMeans(last);
    }
  }

  lemma NoFindingMeans(l: Listed)
    ensures NoFinding(l) <==> AssessmentOf(l.shard) == NoAssessment
  {
  }

  /** The findings of a verified manifest pass exactly when the policy excludes no shard with a finding. */
  lemma SelectedIffNothingExcluded(allows: string -> bool, store: Store, c: Corpus)
    requires VerifiedFindings(c, ListedBy(store, c))
    ensures FindingsSelected(allows, store, c) <==> NothingExcluded(allows, c, ListedBy(store, c))
  {
    AdmittedShare(allows, c, ListedBy(store, c));
  }

  // ----- After the index verifier -----

  /** The selected manifest whose index entry is `m`. */
  predicate EntryOf(c: Corpus, m: Manifests.Manifest) {
    c.content == Inline(m.shards) && c.assessment == m.assessment && c.license == m.license && c.licenses == m.licenses
  }

  lemma {:induction false} SameFindings(shards: seq<Shard>)
    ensures FindingsListed(InlineListed(shards)) == Manifests.AssessmentSum(shards)
  {
    if shards != [] {
      var n := |shards| - 1;
      assert InlineListed(shards)[..n] == InlineListed(shards[..n]);
      SameFindings(shards[..n]);
    }
  }

  lemma ShardFindings(m: Manifests.Manifest, s: Shard)
    requires Manifests.ShardReconciles(m, s, true)
    ensures s.docs >= 0 && ValidFindings(s.assessment, s.docs)
  {
    hide Manifests.Redacting, ValidSha, Manifests.UsageReconciles;
  }

  /** From the index to the bill: assessed text that the index verifier accepts is accepted under a license policy,
      as far as its findings go, exactly when the policy excludes no shard with a finding. */
  lemma PolicyAfterIndexing(allows: string -> bool, store: Store, c: Corpus, m: Manifests.Manifest)
    requires EntryOf(c, m) && m.rollup == None && c.format.schema >= TEXT_RECORD_SCHEMA && Manifests.Reconciles(m, true)
    ensures FindingsSelected(allows, store, c) <==> NothingExcluded(allows, c, InlineListed(m.shards))
  {
    hide Manifests.ShardReconciles, Manifests.Redacting, FindingsSelected, Manifests.ValidRollup;
    var listed := InlineListed(m.shards);
    SameFindings(m.shards);
    forall l | l in listed ensures l.shard.docs >= 0 && ValidFindings(l.shard.assessment, l.shard.docs) {
      assert l.shard in m.shards;
      ShardFindings(m, l.shard);
    }
    SelectedIffNothingExcluded(allows, store, c);
  }

  // ----- A selection that is refused -----

  function SmallShard(sha: string, license: string, email: int): Shard {
    Shard("u", sha, license, [], map[], [], 1, 1, 1, map[], Some(Assessment(email, 0, 0)), None, None)
  }

  /** Two sound shards, the second with one finding and under a license that the policy excludes. */
  function TwoShards(sha: string): Corpus {
    Corpus("m", "", [], {}, Inline([SmallShard(sha, "A", 0), SmallShard(sha, "B", 1)]), Format(false, 2), Some(Assessment(1, 0, 0)))
  }

  predicate OnlyA(license: string) { license == "A" }

  lemma TwoShardsAdmitted(sha: string)
    ensures Admitted(OnlyA, TwoShards(sha), ListedBy(map[], TwoShards(sha))) ==
            [ShardPinOf(TwoShards(sha), Listed(SmallShard(sha, "A", 0), ""))]
  {
    var c, a, b := TwoShards(sha), Listed(SmallShard(sha, "A", 0), ""), Listed(SmallShard(sha, "B", 1), "");
    assert ListedBy(map[], c) == [a] + [b];
    assert Allowed(OnlyA, c, a);
    assert "B" in EffectiveLicenses(c.license, c.licenses, b.shard);
    assert [] + [a] == [a];
    AdmittedAppend(OnlyA, c, [], a);
    AdmittedAppend(OnlyA, c, [a], b);
  }

  lemma SmallPin(sha: string)
    requires ValidSha(sha)
    ensures var p := ShardPinOf(TwoShards(sha), Listed(SmallShard(sha, "A", 0), ""));
            PinOk(OnlyA, p) && FindingsAt(p) == NoAssessment
  {
  }

  lemma OnceOne(c: Corpus)
    ensures Once([c]) == [c]
  {
    assert [] + [c] == [c];
    OnceAppend([], c);
  }

  lemma BuildsOne(store: Store, c: Corpus)
    requires c.content.Inline?
    ensures BuildAll(store, [c]).Ok?
  {
    hide Expand;
    assert [] + [c] == [c];
    BuildAppend(store, [], c);
  }

  lemma AdmitsOne(allows: string -> bool, store: Store, c: Corpus)
    ensures AllAdmitted(allows, store, [c]) == Admitted(allows, c, ListedBy(store, c))
  {
    hide Admitted, ListedBy;
    assert [] + [c] == [c];
    AllAdmittedAppend(allows, store, [], c);
  }

  lemma AddsUpOne(store: Store, c: Corpus)
    requires c.content.Inline?
    ensures SelectionAddsUp(store, [c])
  {
    hide Once, TreeAddsUp;
    OnceOne(c);
  }

  lemma FindingsDiffer(sha: string)
    ensures !FindingsSelected(OnlyA, map[], TwoShards(sha))
  {
    hide Admitted, ListedBy, RunningOf, ValidFindings;
    var c := TwoShards(sha);
    var p := ShardPinOf(c, Listed(SmallShard(sha, "A", 0), ""));
    TwoShardsAdmitted(sha);
    assert [p][..0] == [];
    assert FindingsIn([p]) == NoAssessment;
  }

  lemma OneRefused(allows: string -> bool, store: Store, selection: seq<Corpus>, c: Corpus)
    requires c in Once(selection) && !FindingsSelected(allows, store, c)
    ensures !Acceptable(allows, store, selection)
  {
    hide FindingsSelected, PinOk, Once, AllAdmitted, SelectionAddsUp;
  }

  /** Every admitted shard is sound and no expansion is involved, yet the bill is refused. */
  lemma ExcludedFindingRefused(sha: string)
    requires ValidSha(sha)
    ensures var c := TwoShards(sha);
            && BuildAll(map[], [c]).Ok? && SelectionAddsUp(map[], [c])
            && (forall p :: p in AllAdmitted(OnlyA, map[], Once([c])) ==> PinOk(OnlyA, p))
            && !Acceptable(OnlyA, map[], [c])
  {
    hide BuildAll, Once, AllAdmitted, Admitted, ListedBy, PinOk, SelectionAddsUp, Acceptable, ShardPinOf;
    OnceOne(TwoShards(sha));
    BuildsOne(map[], TwoShards(sha));
    AddsUpOne(map[], TwoShards(sha));
    AdmitsOne(OnlyA, map[], TwoShards(sha));
    TwoShardsAdmitted(sha);
    SmallPin(sha);
    FindingsDiffer(sha);
    OneRefused(OnlyA, map[], [TwoShards(sha)], TwoShards(sha));
  }
}
