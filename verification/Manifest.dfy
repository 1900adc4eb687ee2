/**
 The manifest of an assembly, and the index verifier that counts it again:
 license usage of each shard, detector counts and redaction counts overall.
 */
module Manifests {
  import opened Prelude
  import opened Measures
  import opened IndexTypes
  import opened Pins
  import opened Rows
  import opened ShardCounters
  import opened SortedStrings
  import opened Packing

  const PRIVACY_POLICY := "waldo/privacy-redaction-v1"

  /** `recipe` is the writer recipe of its conversion.  The shards are listed here or in the tree of the rollup. */
  datatype Manifest = Manifest(recipe: string, license: string, licenses: seq<string>, shards: seq<Shard>,
                               rollup: Option<Rollup>, assessment: Option<Assessment>, redaction: Option<Redaction>)

  function RedactionOf(r: Redactions): Redaction {
    Redaction(PRIVACY_POLICY, true, r.emailAddresses, r.ipAddresses, r.phoneNumbers, r.mailRoutingHeaders, r.credentials)
  }

  function AddRedaction(total: Redaction, r: Redaction): Redaction {
    total.(emailAddresses := total.emailAddresses + r.emailAddresses, ipAddresses := total.ipAddresses + r.ipAddresses,
           phoneNumbers := total.phoneNumbers + r.phoneNumbers,
           mailRoutingHeaders := total.mailRoutingHeaders + r.mailRoutingHeaders, credentials := total.credentials + r.credentials)
  }

  const NoRedaction := RedactionOf(NoRedactions)

  // ----- The verifier -----

  predicate ValidAssessment(a: Option<Assessment>, documents: int) {
    && a.Some? && ValidCount(a.value.email, documents)
    && ValidCount(a.value.repetitive, documents) && ValidCount(a.value.boilerplate, documents)
  }

  predicate ValidCount(n: int, documents: int) { n >= 0 && (documents >= 0 ==> n <= documents) }

  predicate ValidRedaction(r: Option<Redaction>) {
    && r.Some? && r.value.policy == PRIVACY_POLICY && r.value.namesRetained
    && r.value.emailAddresses >= 0 && r.value.ipAddresses >= 0 && r.value.phoneNumbers >= 0
    && r.value.mailRoutingHeaders >= 0 && r.value.credentials >= 0
  }

  predicate UsageEntry(usage: map<string, Measures>, license: string) {
    && license in usage && usage[license].docs > 0 && usage[license].tokens >= 0
    && usage[license].shards == 0 && usage[license].bytes == 0
  }

  /** A shard under several licenses accounts for every document and token under exactly one of them. */
  ghost predicate UsageReconciles(s: Shard, licenses: seq<string>) {
    |licenses| > 1 ==>
      && |s.usage| == |licenses| && (forall l :: l in licenses ==> UsageEntry(s.usage, l))
      && SumOver(s.usage, licenses).docs == s.docs && SumOver(s.usage, licenses).tokens == s.tokens
  }

  /** The recipes that remove private data. */
  predicate Redacting(recipe: string) {
    || recipe == "parquet-go/0.30.1/zstd-6/page-1m/rg-64m/v9-privacy-redaction"
    || recipe == "parquet-go/0.30.1/zstd-6/page-1m/rg-64m/conversation-v1"
  }

  /** A shard overrides the recipe of its manifest, but does not undo it. */
  predicate Redacted(all: bool, s: Shard) { all || (s.recipe.Some? && Redacting(s.recipe.value)) }

  ghost predicate AnyRedacted(all: bool, shards: seq<Shard>) { all || exists s :: s in shards && Redacted(all, s) }

  ghost predicate ShardReconciles(m: Manifest, s: Shard, assessed: bool) {
    && s.url != "" && ValidSha(s.sha) && s.docs >= 0 && s.tokens >= 0 && s.bytes >= 0
    && (s.license == "" || s.licenses == [])
    && (s.licenses != [] ==> Sorted(s.licenses) && "" !in s.licenses)
    && EffectiveLicenses(m.license, m.licenses, s) != []
    && UsageReconciles(s, EffectiveLicenses(m.license, m.licenses, s))
    && (assessed ==> ValidAssessment(s.assessment, s.docs))
    && (Redacted(Redacting(m.recipe), s) ==> ValidRedaction(s.redaction))
  }

  function AssessmentAt(s: Shard): Assessment { if s.assessment.Some? then s.assessment.value else NoAssessment }

  function RedactionAt(s: Shard): Redaction { if s.redaction.Some? then s.redaction.value else NoRedaction }

  function AssessmentSum(shards: seq<Shard>): Assessment {
    if shards == [] then NoAssessment
    else AddAssessment(AssessmentSum(shards[..|shards| - 1]), AssessmentAt(shards[|shards| - 1]))
  }

  /** The redactions of the shards that are held to a redacting recipe. */
  function RedactionSum(all: bool, shards: seq<Shard>): Redaction {
    if shards == [] then NoRedaction
    else
      var front, last := RedactionSum(all, shards[..|shards| - 1]), shards[|shards| - 1];
      if Redacted(all, last) then AddRedaction(front, RedactionAt(last)) else front
  }

  predicate ValidRollup(r: Rollup) {
    r.url != "" && ValidSha(r.sha) && r.count > 0 && r.docs > 0 && r.tokens >= 0 && r.bytes > 0
  }

  /** Inline shards account for the totals of their manifest; a rollup is checked as a reference only. */
  ghost predicate Reconciles(m: Manifest, assessed: bool) {
    var all := Redacting(m.recipe);
    && (m.shards == [] <==> m.rollup.Some?) && (m.rollup.Some? ==> ValidRollup(m.rollup.value))
    && (assessed ==> ValidAssessment(m.assessment, -1))
    && (AnyRedacted(all, m.shards) ==> ValidRedaction(m.redaction))
    && (forall s :: s in m.shards ==> ShardReconciles(m, s, assessed))
    && (m.rollup == None ==>
          && (assessed ==> m.assessment.value == AssessmentSum(m.shards))
          && (AnyRedacted(all, m.shards) ==> m.redaction.value == RedactionSum(all, m.shards)))
  }

  method CheckUsage(s: Shard, licenses: seq<string>) returns (ok: bool)
    ensures ok <==> UsageReconciles(s, licenses)
  {
    if |licenses| <= 1 {
      return true;
    }
    if |s.usage| != |licenses| {
      return false;
    }
    var docs, tokens := 0, 0;
    for i := 0 to |licenses|
      invariant forall l :: l in licenses[..i] ==> UsageEntry(s.usage, l)
      invariant docs == SumOver(s.usage, licenses[..i]).docs && tokens == SumOver(s.usage, licenses[..i]).tokens
    {
      var l := licenses[i];
      assert l in licenses && licenses[..i + 1] == licenses[..i] + [l];
      if !UsageEntry(s.usage, l) {
        return false;
      }
      SumOverStep(s.usage, licenses, i);
      docs, tokens := docs + s.usage[l].docs, tokens + s.usage[l].tokens;
    }
    assert licenses[..|licenses|] == licenses;
    ok := docs == s.docs && tokens == s.tokens;
  }

  method CheckShard(m: Manifest, s: Shard, assessed: bool) returns (ok: bool)
    ensures ok <==> ShardReconciles(m, s, assessed)
  {
    hide Redacting;
    var licenses := EffectiveLicenses(m.license, m.licenses, s);
    if s.url == "" || !ValidSha(s.sha) || s.docs < 0 || s.tokens < 0 || s.bytes < 0 || (s.license != "" && s.licenses != []) {
      return false;
    }
    if (s.licenses != [] && !(Sorted(s.licenses) && "" !in s.licenses)) || licenses == [] {
      return false;
    }
    ok := CheckUsage(s, licenses);
    ok := ok && (!assessed || ValidAssessment(s.assessment, s.docs))
          && (!Redacted(Redacting(m.recipe), s) || ValidRedaction(s.redaction));
  }

  /** The reconciliation in verifyManifest: per shard, then the totals gathered on the way. */
  method VerifyManifest(m: Manifest, assessed: bool) returns (ok: bool)
    ensures ok <==> Reconciles(m, assessed)
  {
    hide Redacting, ShardReconciles, ValidRollup, AssessmentSum, RedactionSum;
    var all := Redacting(m.recipe);
    if (m.shards == []) != m.rollup.Some? || (assessed && !ValidAssessment(m.assessment, -1)) || (all && !ValidRedaction(m.redaction)) {
      return false;
    }
    var sound, any, assessment, redaction := CheckShards(m, assessed);
    if !sound || (assessed && m.rollup == None && m.assessment.value != assessment) {
      return false;
    }
    if any && m.rollup == None && (!ValidRedaction(m.redaction) || m.redaction.value != redaction) {
      return false;
    }
    ok := m.rollup == None || ValidRollup(m.rollup.value);
  }

  /** The loop over the shards. */
  method CheckShards(m: Manifest, assessed: bool)
    returns (ok: bool, any: bool, assessment: Assessment, redaction: Redaction)
    ensures ok <==> forall s :: s in m.shards ==> ShardReconciles(m, s, assessed)
    ensures ok ==> (any <==> AnyRedacted(Redacting(m.recipe), m.shards))
    ensures ok && assessed ==> assessment == AssessmentSum(m.shards)
    ensures ok ==> redaction == RedactionSum(Redacting(m.recipe), m.shards)
  {
    hide Redacting, AddAssessment, AddRedaction;
    var all := Redacting(m.recipe);
    any, assessment, redaction := all, NoAssessment, NoRedaction;
    for i := 0 to |m.shards|
      invariant forall s :: s in m.shards[..i] ==> ShardReconciles(m, s, assessed)
      invariant any <==> AnyRedacted(all, m.shards[..i])
      invariant assessed ==> assessment == AssessmentSum(m.shards[..i])
      invariant redaction == RedactionSum(all, m.shards[..i])
    {
      var s := m.shards[i];
      assert s in m.shards && m.shards[..i + 1] == m.shards[..i] + [s] && m.shards[..i + 1][..i] == m.shards[..i];
      ok := CheckShard(m, s, assessed);
      if !ok {
        return;
      }
      if assessed { assessment := AddAssessment(assessment, s.assessment.value); }
      if Redacted(all, s) {
        assert s in m.shards[..i + 1];
        any, redaction := true, AddRedaction(redaction, s.redaction.value);
      }
    }
    assert m.shards[..|m.shards|] == m.shards;
    ok := true;
  }

  // ----- The builder -----

  /** The content address of a finished shard, which the encoder and the object base determine. */
  datatype Address = Address(url: string, sha: string)

  function ShardOf(o: ObjectResult, at: Address): Shard {
    Shard(at.url, at.sha, if |o.licenses| == 1 then o.licenses[0] else "", if |o.licenses| == 1 then [] else o.licenses,
          if |o.licenses| == 1 then map[] else o.counters.usage, o.sources,
          o.counters.docs, o.counters.tokens, o.bytes, map[], Some(o.counters.findings),
          Some(RedactionOf(o.counters.redactions)), None)
  }

  function ShardsOf(objects: seq<ObjectResult>, address: ObjectResult -> Address): seq<Shard> {
    if objects == [] then []
    else ShardsOf(objects[..|objects| - 1], address) + [ShardOf(objects[|objects| - 1], address(objects[|objects| - 1]))]
  }

  /** What the loop of BuildManifest has gathered from the shards so far. */
  ghost predicate Gathered(objects: seq<ObjectResult>, address: ObjectResult -> Address, shards: seq<Shard>,
                           assessment: Assessment, redaction: Redaction) {
    shards == ShardsOf(objects, address) && assessment == AssessmentSum(shards) && redaction == RedactionSum(true, shards)
  }

  lemma GatherOne(objects: seq<ObjectResult>, o: ObjectResult, address: ObjectResult -> Address, shards: seq<Shard>,
                  assessment: Assessment, redaction: Redaction)
    requires Gathered(objects, address, shards, assessment, redaction)
    ensures Gathered(objects + [o], address, shards + [ShardOf(o, address(o))], AddAssessment(assessment, o.counters.findings),
                     AddRedaction(redaction, RedactionOf(o.counters.redactions)))
  {
    assert (objects + [o])[..|objects|] == objects;
    var s := ShardOf(o, address(o));
    assert (shards + [s])[..|shards|] == shards;
  }

  function LicensesIn(objects: seq<ObjectResult>): set<string> {
    if objects == [] then {} else LicensesIn(objects[..|objects| - 1]) + ToSet(objects[|objects| - 1].licenses)
  }

  /** A single license stands alone, several form a list. */
  function DeclaredLicenses(m: Manifest): seq<string> { if m.licenses == [] then [m.license] else m.licenses }

  /** BuildManifest: one entry for each shard, totals added along the way.  An empty assembly and a shard without a
      license are refused. */
  method BuildManifest(recipe: string, objects: seq<ObjectResult>, address: ObjectResult -> Address) returns (m: Option<Manifest>)
    ensures m.Some? <==> objects != [] && forall o :: o in objects ==> o.licenses != []
    ensures m.Some? ==> Sorted(DeclaredLicenses(m.value)) && ToSet(DeclaredLicenses(m.value)) == LicensesIn(objects)
    ensures m.Some? ==> m.value.recipe == recipe && m.value.rollup == None
    ensures m.Some? ==> m.value.assessment.Some? && m.value.redaction.Some?
    ensures m.Some? ==> Gathered(objects, address, m.value.shards, m.value.assessment.value, m.value.redaction.value)
  {
    hide Gathered, LicensesIn, ShardOf, RedactionOf, AddAssessment, AddRedaction, Sorted;
    if objects == [] {
      return None;
    }
    var shards: seq<Shard> := [];
    var assessment, redaction := NoAssessment, NoRedaction;
    var all: set<string> := {};
    GatheredNone(address);
    assert objects[..0] == [];
    for i := 0 to |objects|
      invariant forall o :: o in objects[..i] ==> o.licenses != []
      invariant all == LicensesIn(objects[..i]) && (i > 0 ==> all != {})
      invariant Gathered(objects[..i], address, shards, assessment, redaction)
    {
      var o := objects[i];
      assert o in objects && objects[..i + 1] == objects[..i] + [o];
      if o.licenses == [] {
        return None;
      }
      assert o.licenses[0] in ToSet(o.licenses);
      LicensesOneMore(objects[..i], o);
      all := all + ToSet(o.licenses);
      GatherOne(objects[..i], o, address, shards, assessment, redaction);
      shards := shards + [ShardOf(o, address(o))];
      assessment := AddAssessment(assessment, o.counters.findings);
      redaction := AddRedaction(redaction, RedactionOf(o.counters.redactions));
    }
    assert objects[..|objects|] == objects;
    var licenses := SortedKeys(all);
    assert licenses == [] ==> ToSet(licenses) == {};
    m := Some(Manifest(recipe, if |licenses| == 1 then licenses[0] else "", if |licenses| == 1 then [] else licenses,
                       shards, None, Some(assessment), Some(redaction)));
    assert |licenses| == 1 ==> licenses == [licenses[0]];
  }

  lemma GatheredNone(address: ObjectResult -> Address)
    ensures Gathered([], address, [], NoAssessment, NoRedaction) && LicensesIn([]) == {}
  {
  }

  lemma LicensesOneMore(objects: seq<ObjectResult>, o: ObjectResult)
    ensures LicensesIn(objects + [o]) == LicensesIn(objects) + ToSet(o.licenses)
  {
    assert (objects + [o])[..|objects|] == objects;
  }

  // ----- Why it always reconciles -----

  /** The shard of rows that were each acceptable when they were counted. */
  ghost predicate Counted(env: Env, o: ObjectResult) {
    exists rows: seq<Row> :: rows != [] && AllAcceptable(env, rows) && o.counters == CountersOf(env, rows)
  }

  ghost predicate Named(o: ObjectResult) { Sorted(o.licenses) && ToSet(o.licenses) == o.counters.licenses }

  lemma {:induction false} UsageSum(env: Env, rows: seq<Row>)
    ensures MeasureSum(CountersOf(env, rows).usage).docs == CountersOf(env, rows).docs
    ensures MeasureSum(CountersOf(env, rows).usage).tokens == CountersOf(env, rows).tokens
  {
    if rows != [] {
      var front, last := rows[..|rows| - 1], rows[|rows| - 1];
      UsageSum(env, front);
      AddAtSum(CountersOf(env, front).usage, last.license, Measures(0, 1, env.count(last.text), 0));
    }
  }

  /** Each license of a counted shard has an entry, the entries are all there is, and they add up. */
  lemma UsageOfCounted(env: Env, rows: seq<Row>, licenses: seq<string>)
    requires Sorted(licenses) && ToSet(licenses) == CountersOf(env, rows).licenses
    ensures var c := CountersOf(env, rows);
            && |c.usage| == |licenses| && (forall l :: l in licenses ==> UsageEntry(c.usage, l))
            && SumOver(c.usage, licenses).docs == c.docs && SumOver(c.usage, licenses).tokens == c.tokens
  {
    var c := CountersOf(env, rows);
    UsageMeaning(env, rows, "");
    SortedHasNoDuplicates(licenses);
    SetSize(licenses);
    assert |c.usage| == |c.usage.Keys|;
    SumOverAll(c.usage, licenses);
    UsageSum(env, rows);
    forall l | l in licenses ensures UsageEntry(c.usage, l) {
      assert l in ToSet(licenses);
      UsageMeaning(env, rows, l);
    }
  }

  lemma CountedShardReconciles(env: Env, o: ObjectResult, at: Address, m: Manifest, assessed: bool)
    requires Counted(env, o) && Named(o) && ValidAddress(at)
    ensures ShardReconciles(m, ShardOf(o, at), assessed) && o.licenses != []
  {
    hide Redacting, ValidSha;
    var rows: seq<Row> :| rows != [] && AllAcceptable(env, rows) && o.counters == CountersOf(env, rows);
    CountedBounds(env, o);
    UsageOfCounted(env, rows, o.licenses);
    assert forall l :: l in o.licenses <==> l in o.counters.licenses by {
      assert forall l :: l in o.licenses <==> l in ToSet(o.licenses);
    }
  }

  lemma CountedBounds(env: Env, o: ObjectResult)
    requires Counted(env, o)
    ensures ValidAssessment(Some(o.counters.findings), o.counters.docs) && ValidRedaction(Some(RedactionOf(o.counters.redactions)))
    ensures o.counters.docs > 0 && o.counters.tokens >= 0 && "" !in o.counters.licenses && o.counters.licenses != {}
  {
    var rows: seq<Row> :| rows != [] && AllAcceptable(env, rows) && o.counters == CountersOf(env, rows);
    FindingsBounded(env, rows);
    UsageMeaning(env, rows, rows[0].license);
    assert rows[0] in rows;
  }

  lemma SumValid(a: Assessment, b: Assessment, documents: int, r: Redaction, t: Redaction)
    requires ValidAssessment(Some(a), -1) && ValidAssessment(Some(b), documents)
    requires ValidRedaction(Some(r)) && ValidRedaction(Some(t))
    ensures ValidAssessment(Some(AddAssessment(a, b)), -1) && ValidRedaction(Some(AddRedaction(r, t)))
  {
  }

  lemma SumsOfNone(address: ObjectResult -> Address)
    ensures ValidAssessment(Some(AssessmentSum(ShardsOf([], address))), -1)
    ensures ValidRedaction(Some(RedactionSum(true, ShardsOf([], address))))
  {
  }

  lemma SumsOneMore(objects: seq<ObjectResult>, o: ObjectResult, address: ObjectResult -> Address)
    ensures AssessmentSum(ShardsOf(objects + [o], address)) ==
            AddAssessment(AssessmentSum(ShardsOf(objects, address)), o.counters.findings)
    ensures RedactionSum(true, ShardsOf(objects + [o], address)) ==
            AddRedaction(RedactionSum(true, ShardsOf(objects, address)), RedactionOf(o.counters.redactions))
  {
    hide AddAssessment, AddRedaction, ShardOf, RedactionOf;
    var shards := ShardsOf(objects, address);
    GatherOne(objects, o, address, shards, AssessmentSum(shards), RedactionSum(true, shards));
  }

  lemma {:induction false} SumsValid(env: Env, objects: seq<ObjectResult>, address: ObjectResult -> Address)
    requires forall o :: o in objects ==> Counted(env, o)
    ensures ValidAssessment(Some(AssessmentSum(ShardsOf(objects, address))), -1)
    ensures ValidRedaction(Some(RedactionSum(true, ShardsOf(objects, address))))
  {
    hide *;
    if objects == [] {
      SumsOfNone(address);
    } else {
      var front, last := objects[..|objects| - 1], objects[|objects| - 1];
      assert forall o :: o in front ==> o in objects;
      assert last in objects && front + [last] == objects;
      SumsValid(env, front, address);
      SumsOneMore(front, last, address);
      CountedBounds(env, last);
      SumValid(AssessmentSum(ShardsOf(front, address)), last.counters.findings, last.counters.docs,
               RedactionSum(true, ShardsOf(front, address)), RedactionOf(last.counters.redactions));
    }
  }

  lemma {:induction false} NoneRedacted(objects: seq<ObjectResult>, address: ObjectResult -> Address)
    ensures !AnyRedacted(false, ShardsOf(objects, address))
  {
    if objects != [] {
      var front, last := objects[..|objects| - 1], objects[|objects| - 1];
      NoneRedacted(front, address);
      var shards := ShardsOf(front, address);
      assert forall s :: s in ShardsOf(objects, address) ==> s in shards || s == ShardOf(last, address(last));
    }
  }

  lemma {:induction false} ShardOfEach(objects: seq<ObjectResult>, address: ObjectResult -> Address)
    ensures |ShardsOf(objects, address)| == |objects|
    ensures forall i :: 0 <= i < |objects| ==> ShardsOf(objects, address)[i] == ShardOf(objects[i], address(objects[i]))
  {
    if objects != [] { ShardOfEach(objects[..|objects| - 1], address); }
  }

  /** What composing an address from the object base and a SHA-256 digest always gives. */
  ghost predicate Addressed(objects: seq<ObjectResult>, address: ObjectResult -> Address) {
    forall o :: o in objects ==> ValidAddress(address(o))
  }

  predicate ValidAddress(at: Address) { at.url != "" && ValidSha(at.sha) }

  /** Whatever rows were packed and wherever the shards were cut, the manifest built from the shard counters
      passes the verifier's reconciliation. */
  lemma BuiltManifestReconciles(env: Env, objects: seq<ObjectResult>, address: ObjectResult -> Address, m: Manifest,
                                assessed: bool)
    requires objects != [] && (forall o :: o in objects ==> Counted(env, o) && Named(o)) && Addressed(objects, address)
    requires m.assessment.Some? && m.redaction.Some? && m.rollup == None
    requires Gathered(objects, address, m.shards, m.assessment.value, m.redaction.value)
    ensures Reconciles(m, assessed)
  {
    hide Redacting, ShardReconciles, Counted, Named, ValidAddress, ValidAssessment, ValidRedaction, ShardOf;
    SumsValid(env, objects, address);
    ShardOfEach(objects, address);
    forall s | s in m.shards ensures ShardReconciles(m, s, assessed) {
      var i :| 0 <= i < |m.shards| && m.shards[i] == s;
      assert objects[i] in objects;
      CountedShardReconciles(env, objects[i], address(objects[i]), m, assessed);
    }
    if !Redacting(m.recipe) {
      NoneRedacted(objects, address);
    }
  }

  /** Building and verifying in sequence: a manifest comes out of every finished assembly, and it is accepted. */
  method BuildAndVerify(env: Env, recipe: string, objects: seq<ObjectResult>, address: ObjectResult -> Address, assessed: bool)
    returns (m: Manifest, ok: bool)
    requires objects != [] && (forall o :: o in objects ==> Counted(env, o) && Named(o)) && Addressed(objects, address)
    ensures ok && m.recipe == recipe && m.assessment.Some? && m.redaction.Some?
    ensures Gathered(objects, address, m.shards, m.assessment.value, m.redaction.value)
    ensures Sorted(DeclaredLicenses(m)) && ToSet(DeclaredLicenses(m)) == LicensesIn(objects)
    ensures forall o :: o in objects ==> o.licenses != []
  {
    hide Reconciles, ShardReconciles, Counted, Named, Gathered, ValidAddress;
    forall o | o in objects ensures o.licenses != [] {
      CountedShardReconciles(env, o, address(o), Manifest("", "", [], [], None, None, None), assessed);
    }
    var built := BuildManifest(recipe, objects, address);
    m := built.value;
    BuiltManifestReconciles(env, objects, address, m, assessed);
    ok := VerifyManifest(m, assessed);
  }
}
