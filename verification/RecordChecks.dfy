/** What the checks on one index record and on one pinned record guarantee, field by field. */
module RecordChecks {
  import opened Prelude
  import opened Measures
  import opened IndexTypes
  import opened Pins
  import opened SortedStrings
  import opened ShardCounters
  import opened Rows
  import opened AssemblyTotals
  import opened BomContents
  import Manifests
  import BomTotals

  /** Each detector has a count, and none counts more records than there are. */
  ghost predicate CountsWithin(a: Option<Assessment>, documents: int) {
    a.Some? && forall d :: 0 <= FoundBy(a.value, d) <= documents
  }

  lemma FindingsWithin(a: Option<Assessment>, documents: int)
    ensures BomTotals.ValidFindings(a, documents) <==> CountsWithin(a, documents)
    ensures documents >= 0 ==> (Manifests.ValidAssessment(a, documents) <==> CountsWithin(a, documents))
    ensures documents < 0 ==> (Manifests.ValidAssessment(a, documents) <==> a.Some? && forall d :: 0 <= FoundBy(a.value, d))
  {
    if CountsWithin(a, documents) {
      assert FoundBy(a.value, EmailAddresses) == a.value.email && FoundBy(a.value, RepetitiveContent) == a.value.repetitive
          && FoundBy(a.value, BoilerplateContent) == a.value.boilerplate;
    }
    if a.Some? && forall d :: 0 <= FoundBy(a.value, d) {
      assert 0 <= FoundBy(a.value, EmailAddresses) && 0 <= FoundBy(a.value, RepetitiveContent)
          && 0 <= FoundBy(a.value, BoilerplateContent);
    }
  }

  /** Redactions are under the one policy, keep names, and no kind of private data was removed a negative number of times. */
  lemma RedactionsCount(r: Option<Redaction>)
    ensures Manifests.ValidRedaction(r) <==>
            r.Some? && r.value.policy == "waldo/privacy-redaction-v1" && r.value.namesRetained
            && forall k :: RedactedBy(r.value, k) >= 0
  {
    if r.Some? && forall k :: RedactedBy(r.value, k) >= 0 {
      assert RedactedBy(r.value, EmailAddress) >= 0 && RedactedBy(r.value, IPAddress) >= 0 && RedactedBy(r.value, PhoneNumber) >= 0
          && RedactedBy(r.value, MailRoutingHeader) >= 0 && RedactedBy(r.value, Credential) >= 0;
    }
  }

  /** No modality has a negative number, and each has one that is positive. */
  ghost predicate Measured(m: Modality) { (forall f :: FieldOf(m, f) >= 0) && exists f :: FieldOf(m, f) > 0 }

  lemma ModalitiesMeasure(m: Modalities)
    ensures ValidModalities(m) <==> forall k :: k in m ==> ModalityName(k) && Measured(m[k])
  {
    forall k | k in m
      ensures Measured(m[k]) <==> m[k].samples >= 0 && m[k].items >= 0 && m[k].tokens >= 0 && m[k].durationMS >= 0
                                  && m[k].contentBytes >= 0 && m[k] != NoModality
    {
      OneMeasured(m[k]);
    }
  }

  lemma OneMeasured(m: Modality)
    ensures Measured(m) <==> m.samples >= 0 && m.items >= 0 && m.tokens >= 0 && m.durationMS >= 0 && m.contentBytes >= 0
                             && m != NoModality
  {
    assert FieldOf(m, Samples) == m.samples && FieldOf(m, Items) == m.items && FieldOf(m, Tokens) == m.tokens
        && FieldOf(m, Duration) == m.durationMS && FieldOf(m, ContentBytes) == m.contentBytes;
  }

  /** A modality's name begins with a letter, and has no blank, no capital and no separator. */
  lemma NameIsPlain(s: string)
    requires ModalityName(s)
    ensures s != "" && 'a' <= s[0] <= 'z' && ' ' !in s && '/' !in s && '_' !in s && '.' !in s
    ensures forall c :: 'A' <= c <= 'Z' ==> c !in s
  {
  }

  lemma PlainIsName(s: string)
    requires s != "" && 'a' <= s[0] <= 'z' && forall c :: c in s ==> c == '-' || '0' <= c <= '9' || 'a' <= c <= 'z'
    ensures ModalityName(s)
  {
  }

  /** The usage of a shard under several licenses has those licenses and no other, and its entries add up to the
      shard's documents and tokens. */
  ghost predicate Accounts(usage: map<string, Measures>, licenses: seq<string>, docs: int, tokens: int) {
    && usage.Keys == ToSet(licenses) && MeasureSum(usage).docs == docs && MeasureSum(usage).tokens == tokens
    && forall l :: l in usage ==> usage[l].docs > 0 && usage[l].tokens >= 0 && usage[l].shards == usage[l].bytes == 0
  }

  lemma CoversAll(usage: map<string, Measures>, licenses: seq<string>)
    requires Sorted(licenses) && |usage| == |licenses| && forall l :: l in licenses ==> l in usage
    ensures usage.Keys == ToSet(licenses) && SumOver(usage, licenses) == MeasureSum(usage)
  {
    SortedHasNoDuplicates(licenses);
    SetSize(licenses);
    SameSize(ToSet(licenses), usage.Keys);
    SumOverAll(usage, licenses);
  }

  lemma SameSize(a: set<string>, b: set<string>)
    requires a <= b && |a| == |b|
    ensures a == b
  {
    assert b == a + (b - a) && |b - a| == 0;
  }

  lemma AccountsSize(usage: map<string, Measures>, licenses: seq<string>)
    requires Sorted(licenses) && usage.Keys == ToSet(licenses)
    ensures |usage| == |licenses| && SumOver(usage, licenses) == MeasureSum(usage)
    ensures forall l :: l in licenses <==> l in usage
  {
    SortedHasNoDuplicates(licenses);
    SetSize(licenses);
    SumOverAll(usage, licenses);
    assert |usage| == |usage.Keys|;
    assert forall l :: l in licenses <==> l in ToSet(licenses);
  }

  /** The index verifier accepts the usage of a shard exactly when it accounts for the shard. */
  lemma UsageAccounts(s: Shard, licenses: seq<string>)
    requires |licenses| > 1 && Sorted(licenses)
    ensures Manifests.UsageReconciles(s, licenses) <==> Accounts(s.usage, licenses, s.docs, s.tokens)
  {
    hide Sorted, MeasureSum, SumOver;
    if Manifests.UsageReconciles(s, licenses) {
      CoversAll(s.usage, licenses);
      AccountsSize(s.usage, licenses);
    }
    if Accounts(s.usage, licenses, s.docs, s.tokens) { AccountsSize(s.usage, licenses); }
  }

  /** So does the validator of a bill. */
  lemma PinUsageAccounts(p: BomTotals.ShardPin)
    requires |p.licenses| > 1 && Sorted(p.licenses)
    ensures BomTotals.ValidUsage(p) <==> Accounts(p.usage, p.licenses, p.docs, p.tokens)
  {
    hide Sorted, MeasureSum, SumOver;
    if BomTotals.ValidUsage(p) {
      CoversAll(p.usage, p.licenses);
      AccountsSize(p.usage, p.licenses);
    }
    if Accounts(p.usage, p.licenses, p.docs, p.tokens) { AccountsSize(p.usage, p.licenses); }
  }

  /** A shard of a manifest that removes private data is held to it whatever recipe the shard names itself, and a shard
      that names a redacting recipe is held to it whatever its manifest does. */
  lemma OverrideNeverUndoes(m: Manifests.Manifest, s: Shard, assessed: bool)
    requires Manifests.ShardReconciles(m, s, assessed)
    requires Manifests.Redacting(m.recipe) || (s.recipe.Some? && Manifests.Redacting(s.recipe.value))
    ensures s.redaction.Some? && s.redaction.value.policy == "waldo/privacy-redaction-v1"
    ensures forall k :: RedactedBy(s.redaction.value, k) >= 0
  {
    hide Manifests.Redacting, Manifests.ValidRedaction;
    RedactionsCount(s.redaction);
  }

  /** The two recipes that remove private data. */
  lemma RedactingRecipes()
    ensures Manifests.Redacting("parquet-go/0.30.1/zstd-6/page-1m/rg-64m/v9-privacy-redaction")
    ensures Manifests.Redacting("parquet-go/0.30.1/zstd-6/page-1m/rg-64m/conversation-v1")
    ensures !Manifests.Redacting("")
  {
  }

  /** A manifest of conversations, or of a schema with detectors, has counts within its selected documents. */
  lemma ManifestFindings(m: BomTotals.ManifestPin)
    ensures BomTotals.ManifestOk(m) <==>
            ValidModalities(m.tally.modalities)
            && (m.format.conversation || m.format.schema >= 2 ==> CountsWithin(m.assessment, m.tally.total.docs))
  {
    hide ValidModalities, CountsWithin;
    FindingsWithin(m.assessment, m.tally.total.docs);
  }

  /** What the pinned shards that carry verdicts report for a detector. */
  function ReportedBy(pins: seq<BomTotals.ShardPin>, d: Detector): int {
    if pins == [] then 0
    else
      var p := pins[|pins| - 1];
      ReportedBy(pins[..|pins| - 1], d)
      + if (p.format.conversation || p.format.schema >= 2) && p.assessment.Some? then FoundBy(p.assessment.value, d) else 0
  }

  /** The findings of a bill or of a manifest: the counts of its conversations and of its shards of a schema with
      detectors; older text counts for nothing. */
  lemma {:induction false} FindingsReported(pins: seq<BomTotals.ShardPin>, d: Detector)
    ensures FoundBy(BomTotals.FindingsIn(pins), d) == ReportedBy(pins, d)
  {
    if pins != [] { FindingsReported(pins[..|pins| - 1], d); }
  }

  /** What the shards of a manifest report for a detector. */
  function ListedBy(shards: seq<Shard>, d: Detector): int {
    if shards == [] then 0
    else
      var a := shards[|shards| - 1].assessment;
      ListedBy(shards[..|shards| - 1], d) + if a.Some? then FoundBy(a.value, d) else 0
  }

  /** What was removed from the shards that are held to a redacting recipe, their manifest's or their own. */
  function RemovedFrom(manifestRedacts: bool, shards: seq<Shard>, k: Removal): int {
    if shards == [] then 0
    else
      var s := shards[|shards| - 1];
      RemovedFrom(manifestRedacts, shards[..|shards| - 1], k)
      + if (manifestRedacts || (s.recipe.Some? && Manifests.Redacting(s.recipe.value))) && s.redaction.Some?
        then RedactedBy(s.redaction.value, k) else 0
  }

  lemma NothingReported(d: Detector, k: Removal)
    ensures FoundBy(NoAssessment, d) == 0 && RedactedBy(Manifests.NoRedaction, k) == 0
  {
  }

  lemma {:induction false} FindingsListed(shards: seq<Shard>, d: Detector)
    ensures FoundBy(Manifests.AssessmentSum(shards), d) == ListedBy(shards, d)
  {
    hide FoundBy, AddAssessment;
    NothingReported(d, EmailAddress);
    if shards != [] {
      var front, s := shards[..|shards| - 1], shards[|shards| - 1];
      FindingsListed(front, d);
      AssessmentAdds(Manifests.AssessmentSum(front), Manifests.AssessmentAt(s), d);
    }
  }

  lemma {:induction false} RedactionsListed(manifestRedacts: bool, shards: seq<Shard>, k: Removal)
    ensures RedactedBy(Manifests.RedactionSum(manifestRedacts, shards), k) == RemovedFrom(manifestRedacts, shards, k)
  {
    hide Manifests.Redacting, RedactedBy, Manifests.AddRedaction;
    NothingReported(EmailAddresses, k);
    if shards != [] {
      var front, s := shards[..|shards| - 1], shards[|shards| - 1];
      RedactionsListed(manifestRedacts, front, k);
      RedactionAdds(Manifests.RedactionSum(manifestRedacts, front), Manifests.RedactionAt(s), k);
    }
  }

  /** The totals of an accepted manifest with inline shards are those of its shards, detector by detector and kind by
      kind. */
  lemma AcceptedTotals(m: Manifests.Manifest, assessed: bool, d: Detector, k: Removal)
    requires Manifests.Reconciles(m, assessed) && m.rollup == None
    ensures assessed ==> m.assessment.Some? && FoundBy(m.assessment.value, d) == ListedBy(m.shards, d)
    ensures Manifests.Redacting(m.recipe) ==>
              m.redaction.Some? && RedactedBy(m.redaction.value, k) == RemovedFrom(true, m.shards, k)
  {
    hide Manifests.Redacting, Manifests.ShardReconciles, Manifests.AssessmentSum, Manifests.RedactionSum;
    FindingsListed(m.shards, d);
    RedactionsListed(Manifests.Redacting(m.recipe), m.shards, k);
  }

  /** The tokens of modalities are those of each of them together. */
  lemma TokensOfEach(m: Modalities, k: string)
    ensures TokenSum(map[]) == 0
    ensures k in m ==> TokenSum(m) == FieldOf(m[k], Tokens) + TokenSum(m - {k})
  {
    if k in m { TokenSumStep(m, k); }
  }
}
