/**
 The running totals of a bill of materials, and the validator's recount.  The
 builder charges each selected shard to its totals, its manifest and its
 licenses as it goes; the validator starts again from the pinned shards.
 */
module BomTotals {
  import opened Prelude
  import opened Measures
  import opened IndexTypes
  import opened Pins
  import opened SortedStrings

  datatype ShardPin = ShardPin(manifest: string, owner: string, url: string, sha: string,
                               license: string, licenses: seq<string>, usage: map<string, Measures>,
                               docs: int, tokens: int, bytes: int, modalities: Modalities,
                               format: Format, assessment: Option<Assessment>)

  /** The three running totals kept for the whole bill and for each manifest. */
  datatype Tally = Tally(total: Measures, modalities: Modalities, licenses: map<string, Measures>)

  /** `assessment` is copied from the manifest; `tally` counts the shards that were selected. */
  datatype ManifestPin = ManifestPin(path: string, format: Format, assessment: Option<Assessment>, tally: Tally)

  datatype Bom = Bom(shards: seq<ShardPin>, tally: Tally, manifests: seq<ManifestPin>, subManifests: seq<Pin>)

  const Empty := Tally(Zero, map[], map[])

  type Charge = (string, Measures)

  function PinMeasures(p: ShardPin): Measures { Measures(1, p.docs, p.tokens, p.bytes) }

  // ----- Who is charged -----

  /** The share of one license in a shard under several. */
  function Share(p: ShardPin, license: string): Charge {
    var u := MeasuresAt(p.usage, license);
    (license, u.(shards := 1))
  }

  function Shares(p: ShardPin, licenses: seq<string>): seq<Charge> {
    seq(|licenses|, i requires 0 <= i < |licenses| => Share(p, licenses[i]))
  }

  /** The validator's reading of a pin. */
  function LicensesOf(p: ShardPin): seq<string> { if p.licenses == [] then [p.license] else p.licenses }

  function RecountCharges(p: ShardPin): seq<Charge> {
    if |LicensesOf(p)| == 1 || p.usage == map[] then [(LicensesOf(p)[0], PinMeasures(p))] else Shares(p, LicensesOf(p))
  }

  function Add(m: map<string, Measures>, charges: seq<Charge>): map<string, Measures> {
    if charges == [] then m
    else
      var last := charges[|charges| - 1];
      AddAt(Add(m, charges[..|charges| - 1]), last.0, last.1)
  }

  function AddPin(t: Tally, p: ShardPin): Tally {
    Tally(Plus(t.total, PinMeasures(p)), MergeModalities(t.modalities, p.modalities), Add(t.licenses, RecountCharges(p)))
  }

  function TallyOf(pins: seq<ShardPin>): Tally {
    if pins == [] then Empty else AddPin(TallyOf(pins[..|pins| - 1]), pins[|pins| - 1])
  }

  function OfManifest(pins: seq<ShardPin>, path: string): seq<ShardPin> {
    if pins == [] then []
    else
      var front, last := OfManifest(pins[..|pins| - 1], path), pins[|pins| - 1];
      if last.manifest == path then front + [last] else front
  }

  // ----- Detector findings -----

  function FindingsAt(p: ShardPin): Assessment {
    if Assessed(p.format) && p.assessment.Some? then p.assessment.value else NoAssessment
  }

  function FindingsIn(pins: seq<ShardPin>): Assessment {
    if pins == [] then NoAssessment
    else AddAssessment(FindingsIn(pins[..|pins| - 1]), FindingsAt(pins[|pins| - 1]))
  }

  predicate ValidFindings(a: Option<Assessment>, documents: int) {
    && a.Some? && 0 <= a.value.email <= documents && 0 <= a.value.repetitive <= documents
    && 0 <= a.value.boilerplate <= documents
  }

  // ----- The validator -----

  ghost predicate ValidShare(p: ShardPin, license: string) {
    license in p.usage && p.usage[license].docs > 0 && p.usage[license].tokens >= 0
    && p.usage[license].shards == 0 && p.usage[license].bytes == 0
  }

  ghost predicate ValidUsage(p: ShardPin) {
    var licenses := LicensesOf(p);
    if |licenses| > 1 then
      |p.usage| == |licenses| && (forall l :: l in licenses ==> ValidShare(p, l))
      && SumOver(p.usage, licenses).docs == p.docs && SumOver(p.usage, licenses).tokens == p.tokens
    else
      |p.usage| > 0 ==> |p.usage| == 1 && licenses[0] in p.usage && p.usage[licenses[0]] == Measures(0, p.docs, p.tokens, 0)
  }

  /** The checks on one pinned shard that bear on totals. */
  ghost predicate PinOk(allows: string -> bool, p: ShardPin) {
    && p.url != "" && ValidSha(p.sha) && (p.license == "") != (p.licenses == []) && Sorted(p.licenses)
    && p.docs > 0 && p.tokens >= 0 && p.bytes > 0
    && ValidModalities(p.modalities) && (p.modalities == map[] || TokenSum(p.modalities) == p.tokens)
    && (Assessed(p.format) ==> ValidFindings(p.assessment, p.docs))
    && (forall l :: l in LicensesOf(p) ==> allows(l))
    && ValidUsage(p)
  }

  ghost predicate Paths(manifests: seq<ManifestPin>) {
    (forall m :: m in manifests ==> m.path != "") &&
    forall i, j :: 0 <= i < j < |manifests| ==> manifests[i].path != manifests[j].path
  }

  ghost predicate KnownManifest(manifests: seq<ManifestPin>, path: string) { exists m :: m in manifests && m.path == path }

  /** Recorded totals equal to the recount, overall and for each manifest. */
  ghost predicate Recounts(bom: Bom) {
    bom.tally == TallyOf(bom.shards) && forall m :: m in bom.manifests ==> m.tally == TallyOf(OfManifest(bom.shards, m.path))
  }

  /** What each manifest of assessed text says is what its selected shards say together. */
  ghost predicate FindingsMatch(bom: Bom) {
    forall m :: m in bom.manifests && m.format.schema >= TEXT_RECORD_SCHEMA ==>
      m.assessment == Some(FindingsIn(OfManifest(bom.shards, m.path)))
  }

  /** What the validator counts again for one manifest. */
  datatype Recounted = Recounted(tally: Tally, findings: Assessment)

  function RecountOf(pins: seq<ShardPin>): Recounted { Recounted(TallyOf(pins), FindingsIn(pins)) }

  function RecountOne(r: Recounted, p: ShardPin): Recounted {
    Recounted(AddPin(r.tally, p), AddAssessment(r.findings, FindingsAt(p)))
  }

  const NoneCounted := Recounted(Empty, NoAssessment)

  method ChargeShares(m: map<string, Measures>, p: ShardPin) returns (r: map<string, Measures>)
    ensures r == Add(m, Shares(p, LicensesOf(p)))
  {
    r := m;
    var licenses := LicensesOf(p);
    for i := 0 to |licenses|
      invariant r == Add(m, Shares(p, licenses[..i]))
    {
      SharesStep(m, p, licenses, i);
      r := AddAt(r, licenses[i], MeasuresAt(p.usage, licenses[i]).(shards := 1));
    }
    assert licenses[..|licenses|] == licenses;
  }

  lemma SharesAppend(p: ShardPin, licenses: seq<string>, i: nat)
    requires i < |licenses|
    ensures Shares(p, licenses[..i + 1]) == Shares(p, licenses[..i]) + [Share(p, licenses[i])]
  {
  }

  lemma SharesStep(m: map<string, Measures>, p: ShardPin, licenses: seq<string>, i: nat)
    requires i < |licenses|
    ensures Add(m, Shares(p, licenses[..i + 1])) ==
            AddAt(Add(m, Shares(p, licenses[..i])), licenses[i], MeasuresAt(p.usage, licenses[i]).(shards := 1))
  {
    var before, after := Shares(p, licenses[..i]), Shares(p, licenses[..i + 1]);
    SharesAppend(p, licenses, i);
    assert after[..|after| - 1] == before;
  }

  method Recount(t: Tally, p: ShardPin) returns (r: Tally)
    ensures r == AddPin(t, p)
  {
    var modalities := AddModalities(t.modalities, p.modalities);
    var licenses := LicensesOf(p);
    var charged;
    if |licenses| == 1 || p.usage == map[] {
      charged := AddAt(t.licenses, licenses[0], PinMeasures(p));
      OneCharge(t.licenses, licenses[0], PinMeasures(p));
    } else {
      charged := ChargeShares(t.licenses, p);
    }
    r := Tally(Plus(t.total, PinMeasures(p)), modalities, charged);
  }

  lemma OneCharge(m: map<string, Measures>, license: string, value: Measures)
    ensures Add(m, [(license, value)]) == AddAt(m, license, value)
  {
    assert [(license, value)][..0] == [];
  }

  method CheckUsage(p: ShardPin) returns (ok: bool)
    ensures ok <==> ValidUsage(p)
  {
    var licenses := LicensesOf(p);
    if |licenses| > 1 {
      if |p.usage| != |licenses| {
        return false;
      }
      var docs, tokens := 0, 0;
      for i := 0 to |licenses|
        invariant forall l :: l in licenses[..i] ==> ValidShare(p, l)
        invariant docs == SumOver(p.usage, licenses[..i]).docs && tokens == SumOver(p.usage, licenses[..i]).tokens
      {
        var l := licenses[i];
        assert l in licenses && licenses[..i + 1] == licenses[..i] + [l];
        if l !in p.usage || p.usage[l].docs <= 0 || p.usage[l].tokens < 0 || p.usage[l].shards != 0 || p.usage[l].bytes != 0 {
          return false;
        }
        SumOverStep(p.usage, licenses, i);
        docs, tokens := docs + p.usage[l].docs, tokens + p.usage[l].tokens;
      }
      assert licenses[..|licenses|] == licenses;
      ok := docs == p.docs && tokens == p.tokens;
    } else {
      ok := |p.usage| == 0 ||
            (|p.usage| == 1 && licenses[0] in p.usage && p.usage[licenses[0]] == Measures(0, p.docs, p.tokens, 0));
    }
  }

  method CheckPin(allows: string -> bool, p: ShardPin) returns (ok: bool)
    ensures ok <==> PinOk(allows, p)
  {
    if p.url == "" || !ValidSha(p.sha) || (p.license == "") == (p.licenses == []) || !Sorted(p.licenses) {
      return false;
    }
    if p.docs <= 0 || p.tokens < 0 || p.bytes <= 0 || !ValidModalities(p.modalities) {
      return false;
    }
    if Assessed(p.format) && !ValidFindings(p.assessment, p.docs) {
      return false;
    }
    var tokens := ModalityTokens(p.modalities);
    if p.modalities != map[] && tokens != p.tokens {
      return false;
    }
    if exists i :: 0 <= i < |LicensesOf(p)| && !allows(LicensesOf(p)[i]) {
      var i :| 0 <= i < |LicensesOf(p)| && !allows(LicensesOf(p)[i]);
      assert LicensesOf(p)[i] in LicensesOf(p);
      return false;
    }
    assert forall l :: l in LicensesOf(p) ==> allows(l);
    ok := CheckUsage(p);
  }

  ghost predicate Counted(manifests: seq<ManifestPin>, pins: seq<ShardPin>, each: map<string, Recounted>) {
    forall m :: m in manifests ==> m.path in each && each[m.path] == RecountOf(OfManifest(pins, m.path))
  }

  lemma RecountAppend(pins: seq<ShardPin>, p: ShardPin)
    ensures RecountOf(pins + [p]) == RecountOne(RecountOf(pins), p)
  {
    assert (pins + [p])[..|pins|] == pins;
  }

  lemma OfManifestAppend(pins: seq<ShardPin>, p: ShardPin, path: string)
    ensures OfManifest(pins + [p], path) == OfManifest(pins, path) + if p.manifest == path then [p] else []
  {
    assert (pins + [p])[..|pins|] == pins;
  }

  lemma CountOne(manifests: seq<ManifestPin>, pins: seq<ShardPin>, each: map<string, Recounted>, p: ShardPin)
    requires Counted(manifests, pins, each) && p.manifest in each && KnownManifest(manifests, p.manifest)
    ensures Counted(manifests, pins + [p], each[p.manifest := RecountOne(each[p.manifest], p)])
    ensures TallyOf(pins + [p]) == AddPin(TallyOf(pins), p)
  {
    hide RecountOne, RecountOf, OfManifest;
    RecountIsTally(pins, p);
    forall m | m in manifests
      ensures RecountOf(OfManifest(pins + [p], m.path)) ==
              if m.path == p.manifest then RecountOne(RecountOf(OfManifest(pins, m.path)), p) else RecountOf(OfManifest(pins, m.path))
    {
      OfManifestAppend(pins, p, m.path);
      assert OfManifest(pins, m.path) + [] == OfManifest(pins, m.path);
      RecountAppend(OfManifest(pins, m.path), p);
    }
  }

  lemma RecountIsTally(pins: seq<ShardPin>, p: ShardPin)
    ensures TallyOf(pins + [p]) == AddPin(TallyOf(pins), p)
  {
    RecountAppend(pins, p);
  }

  function PathSet(manifests: seq<ManifestPin>): set<string> { set m | m in manifests :: m.path }

  /** A shard from a sub-manifest names one that is pinned; the source compares the textual keys. */
  ghost predicate OwnerPinned(pins: seq<Pin>, p: ShardPin) {
    p.owner == "" || exists q :: q in pins && KeyText(KeyOf(q)) == KeyText(Key(p.manifest, p.owner))
  }

  ghost predicate ShardOk(manifests: seq<ManifestPin>, pins: seq<Pin>, allows: string -> bool, p: ShardPin) {
    KnownManifest(manifests, p.manifest) && OwnerPinned(pins, p) && PinOk(allows, p)
  }

  /** The checks on one manifest that bear on totals. */
  predicate ManifestOk(m: ManifestPin) {
    ValidModalities(m.tally.modalities) && (Assessed(m.format) ==> ValidFindings(m.assessment, m.tally.total.docs))
  }

  ghost predicate ManifestsOk(manifests: seq<ManifestPin>) { forall m :: m in manifests ==> ManifestOk(m) }

  /** BOM.Validate: the manifests, the sub-manifest pins, the shards with a recount over maps of its own, and the
      comparison of that recount with what the bill records. */
  method Validate(bom: Bom, allows: string -> bool) returns (ok: bool)
    ensures ok <==> Paths(bom.manifests) && ManifestsOk(bom.manifests)
                    && PinsValid(PathSet(bom.manifests), bom.subManifests)
                    && (forall p :: p in bom.shards ==> ShardOk(bom.manifests, bom.subManifests, allows, p))
                    && Recounts(bom) && FindingsMatch(bom)
  {
    hide PinsValid, Recounts, FindingsMatch, ShardOk, ManifestOk;
    var each;
    ok, each := CheckManifests(bom.manifests);
    if !ok {
      return;
    }
    var seen := ValidateSubManifestPins(bom.subManifests, each.Keys);
    if seen == None {
      return false;
    }
    ok := CheckAgainst(bom, allows, each, seen.value);
  }

  /** The loop over the manifests, which also begins their recounts. */
  method CheckManifests(manifests: seq<ManifestPin>) returns (ok: bool, each: map<string, Recounted>)
    ensures ok <==> Paths(manifests) && ManifestsOk(manifests)
    ensures ok ==> each.Keys == PathSet(manifests) && forall path :: path in each ==> each[path] == NoneCounted
  {
    hide ManifestOk;
    each := map[];
    for i := 0 to |manifests|
      invariant Paths(manifests[..i]) && ManifestsOk(manifests[..i])
      invariant each.Keys == PathSet(manifests[..i])
      invariant forall path :: path in each ==> each[path] == NoneCounted
    {
      var m := manifests[i];
      assert m in manifests && manifests[..i + 1] == manifests[..i] + [m];
      if m.path == "" || m.path in each {
        assert m.path in each ==> exists j :: 0 <= j < i && manifests[j].path == m.path;
        return false, each;
      }
      if !ManifestOk(m) {
        return false, each;
      }
      forall j | 0 <= j < i ensures manifests[j].path != m.path { assert manifests[j] in manifests[..i]; }
      each := each[m.path := NoneCounted];
    }
    assert manifests[..|manifests|] == manifests;
    ok := true;
  }

  /** The loop over the shards and the comparisons. */
  method CheckAgainst(bom: Bom, allows: string -> bool, empty: map<string, Recounted>, seen: set<Key>) returns (ok: bool)
    requires empty.Keys == PathSet(bom.manifests) && forall path :: path in empty ==> empty[path] == NoneCounted
    requires seen == Keys(bom.subManifests)
    ensures ok <==> (forall p :: p in bom.shards ==> ShardOk(bom.manifests, bom.subManifests, allows, p))
                    && Recounts(bom) && FindingsMatch(bom)
  {
    hide ShardOk;
    assert SoFar(bom.manifests, [], Empty, empty);
    var whole, each;
    ok, whole, each := RecountShards(bom.shards, bom.manifests, bom.subManifests, allows, empty, seen);
    if !ok || whole != bom.tally {
      return false;
    }
    ok := CompareManifests(bom, each);
  }

  predicate SameAs(m: ManifestPin, r: Recounted) {
    m.tally == r.tally && (m.format.schema >= TEXT_RECORD_SCHEMA ==> m.assessment == Some(r.findings))
  }

  method CompareManifests(bom: Bom, each: map<string, Recounted>) returns (ok: bool)
    requires Counted(bom.manifests, bom.shards, each)
    ensures ok <==> forall m :: m in bom.manifests ==> SameAs(m, RecountOf(OfManifest(bom.shards, m.path)))
  {
    hide SameAs, RecountOf;
    for i := 0 to |bom.manifests|
      invariant forall m :: m in bom.manifests[..i] ==> SameAs(m, RecountOf(OfManifest(bom.shards, m.path)))
    {
      var m := bom.manifests[i];
      assert m in bom.manifests && bom.manifests[..i + 1] == bom.manifests[..i] + [m];
      if !SameAs(m, each[m.path]) {
        return false;
      }
    }
    assert bom.manifests[..|bom.manifests|] == bom.manifests;
    ok := true;
  }

  ghost predicate AllKnown(manifests: seq<ManifestPin>, each: map<string, Recounted>) {
    forall path :: path in each ==> KnownManifest(manifests, path)
  }

  ghost predicate SoFar(manifests: seq<ManifestPin>, pins: seq<ShardPin>, whole: Tally, each: map<string, Recounted>) {
    whole == TallyOf(pins) && Counted(manifests, pins, each) && AllKnown(manifests, each)
  }

  method CheckOwner(p: ShardPin, ghost pins: seq<Pin>, seen: set<Key>) returns (ok: bool)
    requires seen == Keys(pins)
    ensures ok <==> OwnerPinned(pins, p)
  {
    var key := KeyText(Key(p.manifest, p.owner));
    ok := p.owner == "" || exists k :: k in seen && KeyText(k) == key;
    if OwnerPinned(pins, p) && p.owner != "" {
      var q :| q in pins && KeyText(KeyOf(q)) == key;
      assert KeyOf(q) in seen;
    }
  }

  /** One turn of the loop over the shards. */
  method CountShard(p: ShardPin, manifests: seq<ManifestPin>, ghost subManifests: seq<Pin>, allows: string -> bool,
                    whole: Tally, each: map<string, Recounted>, seen: set<Key>, ghost pins: seq<ShardPin>)
    returns (ok: bool, newWhole: Tally, newEach: map<string, Recounted>)
    requires SoFar(manifests, pins, whole, each) && seen == Keys(subManifests)
    ensures ok <==> ShardOk(manifests, subManifests, allows, p)
    ensures ok ==> SoFar(manifests, pins + [p], newWhole, newEach)
  {
    hide OwnerPinned, PinOk, Keys;
    newWhole, newEach := whole, each;
    if p.manifest !in each {
      return false, whole, each;
    }
    ok := CheckOwner(p, subManifests, seen);
    if !ok {
      return;
    }
    ok := CheckPin(allows, p);
    if !ok {
      return;
    }
    CountOne(manifests, pins, each, p);
    newWhole := Recount(whole, p);
    var mine := Recount(each[p.manifest].tally, p);
    newEach := each[p.manifest := Recounted(mine, AddAssessment(each[p.manifest].findings, FindingsAt(p)))];
  }

  method RecountShards(shards: seq<ShardPin>, manifests: seq<ManifestPin>, ghost subManifests: seq<Pin>,
                       allows: string -> bool, empty: map<string, Recounted>, seen: set<Key>)
    returns (ok: bool, whole: Tally, each: map<string, Recounted>)
    requires SoFar(manifests, [], Empty, empty) && seen == Keys(subManifests)
    ensures ok <==> forall p :: p in shards ==> ShardOk(manifests, subManifests, allows, p)
    ensures ok ==> SoFar(manifests, shards, whole, each)
  {
    hide ShardOk, SoFar, Keys;
    whole, each := Empty, empty;
    for i := 0 to |shards|
      invariant forall p :: p in shards[..i] ==> ShardOk(manifests, subManifests, allows, p)
      invariant SoFar(manifests, shards[..i], whole, each)
    {
      assert shards[i] in shards && shards[..i + 1] == shards[..i] + [shards[i]];
      ok, whole, each := CountShard(shards[i], manifests, subManifests, allows, whole, each, seen, shards[..i]);
      if !ok {
        return;
      }
    }
    assert shards[..|shards|] == shards;
    ok := true;
  }
}
