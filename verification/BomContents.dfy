/**
 What a built bill of materials contains: which shards a license policy leaves
 in it, and what its totals add up.
 */
module BomContents {
  import opened Prelude
  import opened Measures
  import opened IndexTypes
  import opened Pins
  import opened Rollups
  import opened RollupTotals
  import opened Selections
  import opened BomTotals
  import opened BomBuilders
  import SortedStrings

  // ----- Selection -----

  ghost predicate FirstAt(selection: seq<Corpus>, i: nat, c: Corpus) {
    i < |selection| && selection[i] == c && forall j :: 0 <= j < i ==> selection[j].path != c.path
  }

  ghost predicate First(selection: seq<Corpus>, c: Corpus) { exists i :: FirstAt(selection, i, c) }

  lemma FirstStays(front: seq<Corpus>, last: Corpus, c: Corpus)
    requires First(front, c)
    ensures First(front + [last], c)
  {
    var i :| FirstAt(front, i, c);
    assert FirstAt(front + [last], i, c);
  }

  lemma LastIsFirst(front: seq<Corpus>, last: Corpus)
    requires last.path !in PathsIn(front)
    ensures First(front + [last], last)
  {
    forall j | 0 <= j < |front| ensures front[j].path != last.path { PathOf(front, j); }
    assert FirstAt(front + [last], |front|, last);
  }

  /** Each path is kept once, at its first occurrence. */
  lemma {:induction false} OnceIsFirst(selection: seq<Corpus>)
    ensures forall i, j :: 0 <= i < j < |Once(selection)| ==> Once(selection)[i].path != Once(selection)[j].path
    ensures forall c :: c in Once(selection) ==> First(selection, c)
  {
    hide PathsIn, First;
    if selection != [] {
      var front, last := selection[..|selection| - 1], selection[|selection| - 1];
      assert selection == front + [last];
      OnceIsFirst(front);
      OncePaths(front, last.path);
      OnceAppend(front, last);
      forall c | c in Once(front) ensures First(selection, c) { FirstStays(front, last, c); }
      if last.path !in PathsIn(front) {
        LastIsFirst(front, last);
        DistinctMore(Once(front), last);
      }
    }
  }

  lemma DistinctMore(front: seq<Corpus>, last: Corpus)
    requires forall i, j :: 0 <= i < j < |front| ==> front[i].path != front[j].path
    requires forall c :: c in front ==> c.path != last.path
    ensures forall i, j :: 0 <= i < j < |front + [last]| ==> (front + [last])[i].path != (front + [last])[j].path
  {
  }

  lemma {:induction false} PathOf(selection: seq<Corpus>, i: nat)
    requires i < |selection|
    ensures selection[i].path in PathsIn(selection)
  {
    if i < |selection| - 1 { PathOf(selection[..|selection| - 1], i); }
  }

  // ----- One shard -----

  function LicensesFor(c: Corpus, l: Listed): seq<string> { EffectiveLicenses(c.license, c.licenses, l.shard) }

  /** A shard that names licenses has those, the list before the single one; only one that names none inherits. */
  lemma LicensesAreOwnFirst(c: Corpus, d: Corpus, l: Listed)
    ensures l.shard.licenses != [] || l.shard.license != "" ==> LicensesFor(c, l) == LicensesFor(d, l)
    ensures l.shard.licenses != [] ==> LicensesFor(c, l) == l.shard.licenses
    ensures l.shard.licenses == [] && l.shard.license != "" ==> LicensesFor(c, l) == [l.shard.license]
    ensures l.shard.licenses == [] && l.shard.license == "" && c.licenses != [] ==> LicensesFor(c, l) == c.licenses
    ensures l.shard.licenses == [] && l.shard.license == "" && c.licenses == [] && c.license != "" ==> LicensesFor(c, l) == [c.license]
  {
  }

  /** The pin repeats the shard, and is read back as being under the licenses of the shard. */
  lemma PinKeepsShard(c: Corpus, l: Listed)
    ensures var p, s := ShardPinOf(c, l), l.shard;
            && p.manifest == c.path && p.owner == l.owner && p.url == s.url && p.sha == s.sha
            && PinMeasures(p) == ShardMeasures(s) && p.usage == s.usage && p.modalities == s.modalities
            && p.format == c.format && p.assessment == s.assessment
            && (LicensesFor(c, l) != [] ==> LicensesOf(p) == LicensesFor(c, l))
  {
    if |LicensesFor(c, l)| == 1 { assert LicensesFor(c, l) == [LicensesFor(c, l)[0]]; }
  }

  /** An inline shard belongs to no sub-manifest; a shard found by expansion to the one of its manifest that lists it. */
  lemma ListedOwner(store: Store, c: Corpus, i: nat)
    requires i < |ListedBy(store, c)|
    ensures c.content.Inline? ==> ListedBy(store, c)[i] == Listed(c.content.shards[i], "")
    ensures c.content.Rolled? ==> Tree(store, c).Ok? && i < |Tree(store, c).value.leaves|
    ensures c.content.Rolled? ==> Tree(store, c).value.leaves[i] ==
                                  Leaf(ListedBy(store, c)[i].shard, Key(c.path, ListedBy(store, c)[i].owner))
  {
    if c.content.Rolled? { TreeOwners(store, c); }
  }

  // ----- The policy -----

  ghost predicate Licensed(p: ShardPin) { p.license != "" || p.licenses != [] }

  lemma {:induction false} AdmittedByPolicy(allows: string -> bool, c: Corpus, listed: seq<Listed>)
    ensures forall p, k :: p in Admitted(allows, c, listed) && Licensed(p) && k in LicensesOf(p) ==> allows(k)
    ensures forall l :: l in listed && (forall k :: k in LicensesFor(c, l) ==> allows(k)) ==> ShardPinOf(c, l) in Admitted(allows, c, listed)
    ensures forall p :: p in Admitted(allows, c, listed) ==> p.manifest == c.path
  {
    if listed != [] {
      var front, last := listed[..|listed| - 1], listed[|listed| - 1];
      AdmittedByPolicy(allows, c, front);
      PinKeepsShard(c, last);
      assert forall l :: l in listed <==> l in front || l == last;
    }
  }

  lemma {:induction false} AllByPolicy(allows: string -> bool, store: Store, manifests: seq<Corpus>)
    ensures forall p, k :: p in AllAdmitted(allows, store, manifests) && Licensed(p) && k in LicensesOf(p) ==> allows(k)
    ensures forall c, l :: c in manifests && l in ListedBy(store, c) && (forall k :: k in LicensesFor(c, l) ==> allows(k)) ==>
              ShardPinOf(c, l) in AllAdmitted(allows, store, manifests)
  {
    hide ListedBy, Admitted, LicensesFor, ShardPinOf, LicensesOf, Licensed;
    if manifests != [] {
      var front, last := manifests[..|manifests| - 1], manifests[|manifests| - 1];
      AllByPolicy(allows, store, front);
      AdmittedByPolicy(allows, last, ListedBy(store, last));
      assert forall c :: c in manifests <==> c in front || c == last;
    }
  }

  /** Every license of every shard in a bill is one that the policy allows, so the policy check of the validation is
      never what refuses a bill that was built. */
  lemma PolicyHolds(allows: string -> bool, store: Store, bom: Bom, selection: seq<Corpus>)
    requires Lists(allows, store, bom, selection)
    ensures forall p, k :: p in bom.shards && Licensed(p) && k in LicensesOf(p) ==> allows(k)
  {
    AllByPolicy(allows, store, Once(selection));
  }

  /** A listed shard is missing exactly when one of its licenses is not allowed.  (A list with one empty license is read
      back like no license at all.) */
  lemma MissingIffNotAllowed(allows: string -> bool, store: Store, bom: Bom, selection: seq<Corpus>, c: Corpus, l: Listed)
    requires Lists(allows, store, bom, selection) && c in Once(selection) && l in ListedBy(store, c)
    requires LicensesFor(c, l) != [""]
    ensures ShardPinOf(c, l) !in bom.shards <==> exists k :: k in LicensesFor(c, l) && !allows(k)
  {
    hide Lists, ListedBy, AllAdmitted, Once, BuildAll, SameManifests;
    ShardsOfBill(allows, store, bom, selection);
    AllByPolicy(allows, store, Once(selection));
    PinKeepsShard(c, l);
    var p := ShardPinOf(c, l);
    if p in bom.shards {
      forall k | k in LicensesFor(c, l) ensures allows(k) { assert Licensed(p) && k in LicensesOf(p); }
    }
  }

  lemma ShardsOfBill(allows: string -> bool, store: Store, bom: Bom, selection: seq<Corpus>)
    requires Lists(allows, store, bom, selection)
    ensures bom.shards == AllAdmitted(allows, store, Once(selection))
  {
  }

  // ----- Totals -----

  function DocsOf(pins: seq<ShardPin>): int { if pins == [] then 0 else DocsOf(pins[..|pins| - 1]) + pins[|pins| - 1].docs }

  function TokensOf(pins: seq<ShardPin>): int { if pins == [] then 0 else TokensOf(pins[..|pins| - 1]) + pins[|pins| - 1].tokens }

  function BytesOf(pins: seq<ShardPin>): int { if pins == [] then 0 else BytesOf(pins[..|pins| - 1]) + pins[|pins| - 1].bytes }

  /** The total of a bill or of a manifest: its shards, and what they hold together. */
  lemma {:induction false} TotalMeaning(pins: seq<ShardPin>)
    ensures RunningOf(pins).total == Measures(|pins|, DocsOf(pins), TokensOf(pins), BytesOf(pins))
  {
    hide MergeModalities, Charges, Add;
    if pins != [] { TotalMeaning(pins[..|pins| - 1]); }
  }

  /** One of the numbers that a modality has. */
  datatype Field = Samples | Items | Tokens | Duration | ContentBytes

  function FieldOf(m: Modality, f: Field): int {
    match f
    case Samples => m.samples
    case Items => m.items
    case Tokens => m.tokens
    case Duration => m.durationMS
    case ContentBytes => m.contentBytes
  }

  function FieldSum(pins: seq<ShardPin>, name: string, f: Field): int {
    if pins == [] then 0
    else
      var m := pins[|pins| - 1].modalities;
      FieldSum(pins[..|pins| - 1], name, f) + if name in m then FieldOf(m[name], f) else 0
  }

  ghost predicate Mentioned(pins: seq<ShardPin>, name: string) { exists p :: p in pins && name in p.modalities }

  /** The modalities of a bill: those of its shards, each number added up. */
  lemma {:induction false} ModalityMeaning(pins: seq<ShardPin>, name: string, f: Field)
    ensures name in RunningOf(pins).modalities <==> Mentioned(pins, name)
    ensures FieldOf(ModalityAt(RunningOf(pins).modalities, name), f) == FieldSum(pins, name, f)
  {
    hide Charges, Add;
    if pins != [] {
      var front, last := pins[..|pins| - 1], pins[|pins| - 1];
      ModalityMeaning(front, name, f);
      assert forall p :: p in pins <==> p in front || p == last;
      assert Mentioned(pins, name) <==> Mentioned(front, name) || name in last.modalities;
    }
  }

  /** What a sound shard holds under one license: all of it under its only one, its usage under one of several. */
  function Held(p: ShardPin, license: string): Measures {
    if p.licenses == [] then (if p.license == license then PinMeasures(p) else Zero)
    else if |p.licenses| == 1 then (if p.licenses[0] == license then PinMeasures(p) else Zero)
    else if license in p.licenses && license in p.usage then Measures(1, p.usage[license].docs, p.usage[license].tokens, 0)
    else Zero
  }

  function HeldBy(pins: seq<ShardPin>, license: string): Measures {
    if pins == [] then Zero
    else
      var front, h := HeldBy(pins[..|pins| - 1], license), Held(pins[|pins| - 1], license);
      Measures(front.shards + h.shards, front.docs + h.docs, front.tokens + h.tokens, front.bytes + h.bytes)
  }

  /** The license table of a bill of sound shards: under each license, what its shards hold under it. */
  lemma {:induction false} LicenseMeaning(allows: string -> bool, pins: seq<ShardPin>, license: string)
    requires forall p :: p in pins ==> PinOk(allows, p)
    ensures MeasuresAt(RunningOf(pins).licenses, license) == HeldBy(pins, license)
  {
    hide PinOk, MergeModalities, Charges, Add, Held;
    if pins != [] {
      var front, last := pins[..|pins| - 1], pins[|pins| - 1];
      assert forall p :: p in front ==> p in pins;
      assert last in pins;
      LicenseMeaning(allows, front, license);
      ChargesHeld(allows, RunningOf(front).licenses, last, license);
    }
  }

  lemma ChargedAt(m: map<string, Measures>, k: string, v: Measures, license: string)
    ensures MeasuresAt(AddAt(m, k, v), license) == if k == license then Plus(MeasuresAt(m, license), v) else MeasuresAt(m, license)
  {
  }

  lemma PlusZero(a: Measures)
    ensures Plus(a, Zero) == a
  {
  }

  lemma HeldShare(p: ShardPin, l: string)
    requires |p.licenses| > 1 && l in p.licenses && ValidShare(p, l)
    ensures Held(p, l) == MeasuresAt(p.usage, l).(shards := 1)
  {
  }

  lemma OneLicenseHeld(m: map<string, Measures>, p: ShardPin, license: string)
    requires |p.licenses| <= 1 && (p.licenses != [] ==> p.license == "")
    ensures MeasuresAt(Add(m, Charges(p)), license) == Plus(MeasuresAt(m, license), Held(p, license))
  {
    PlusZero(MeasuresAt(m, license));
    hide Plus, AddAt, MeasuresAt, Add, PinMeasures;
    var own := if p.licenses == [] then p.license else p.licenses[0];
    assert Charges(p) == [(own, PinMeasures(p))];
    OneCharge(m, own, PinMeasures(p));
    ChargedAt(m, own, PinMeasures(p), license);
  }

  lemma ChargesHeld(allows: string -> bool, m: map<string, Measures>, p: ShardPin, license: string)
    requires PinOk(allows, p)
    ensures MeasuresAt(Add(m, Charges(p)), license) == Plus(MeasuresAt(m, license), Held(p, license))
  {
    SharesSound(allows, p);
    hide PinOk, Plus, AddAt, MeasuresAt, ValidShare, Add, Shares, PinMeasures;
    if |p.licenses| <= 1 {
      OneLicenseHeld(m, p, license);
    } else {
      assert Charges(p) == Shares(p, p.licenses);
      assert p.licenses[..|p.licenses|] == p.licenses;
      SharesHeld(m, p, |p.licenses|, license);
      assert license !in p.licenses ==> Held(p, license) == Zero;
    }
  }

  /** A sound shard under several licenses has usage for each, and lists each once. */
  lemma SharesSound(allows: string -> bool, p: ShardPin)
    requires PinOk(allows, p)
    ensures |p.licenses| > 1 ==> p.usage != map[] && forall l :: l in p.licenses ==> ValidShare(p, l)
    ensures NoDuplicates(p.licenses) && (p.licenses != [] ==> p.license == "")
  {
    SortedStrings.SortedHasNoDuplicates(p.licenses);
    if |p.licenses| > 1 { assert |p.usage| == |p.licenses|; }
  }

  /** Licenses are listed once each, so each share is charged once. */
  lemma {:induction false} SharesHeld(m: map<string, Measures>, p: ShardPin, n: nat, license: string)
    requires 1 < |p.licenses| && n <= |p.licenses| && NoDuplicates(p.licenses)
    requires forall l :: l in p.licenses ==> ValidShare(p, l)
    ensures MeasuresAt(Add(m, Shares(p, p.licenses[..n])), license) ==
            Plus(MeasuresAt(m, license), if license in p.licenses[..n] then Held(p, license) else Zero)
  {
    PlusZero(MeasuresAt(m, license));
    hide Add, Shares, Plus, AddAt, MeasuresAt, ValidShare, Held;
    if n == 0 {
      NoShares(m, p);
    } else {
      var l := p.licenses[n - 1];
      SharesHeld(m, p, n - 1, license);
      SharesStep(m, p, p.licenses, n - 1);
      assert l in p.licenses && ValidShare(p, l);
      HeldShare(p, l);
      ChargedAt(Add(m, Shares(p, p.licenses[..n - 1])), l, MeasuresAt(p.usage, l).(shards := 1), license);
      assert p.licenses[..n] == p.licenses[..n - 1] + [l];
      assert l !in p.licenses[..n - 1];
    }
  }

  lemma NoShares(m: map<string, Measures>, p: ShardPin)
    ensures Add(m, Shares(p, p.licenses[..0])) == m
  {
  }

  // ----- Rollups -----

  function SumsOf(pins: seq<ShardPin>): Measures { Measures(|pins|, DocsOf(pins), TokensOf(pins), BytesOf(pins)) }

  lemma SumsAppend(pins: seq<ShardPin>, p: ShardPin)
    ensures SumsOf(pins + [p]) == Plus(SumsOf(pins), PinMeasures(p))
  {
    assert (pins + [p])[..|pins|] == pins;
  }

  lemma {:induction false} AdmitsAll(allows: string -> bool, c: Corpus, leaves: seq<Leaf>)
    requires forall l :: l in LeavesListed(leaves) ==> forall k :: k in LicensesFor(c, l) ==> allows(k)
    ensures SumsOf(Admitted(allows, c, LeavesListed(leaves))) == Total(leaves)
  {
    if leaves == [] {
      assert LeavesListed(leaves) == [];
    } else {
      hide LicensesFor, Admitted, ShardPinOf, SumsOf, Allowed;
      var n := |leaves| - 1;
      var listed := LeavesListed(leaves);
      assert listed[..n] == LeavesListed(leaves[..n]) && listed[..n + 1] == listed;
      assert listed[n] in listed && forall l :: l in listed[..n] ==> l in listed;
      AdmitsAll(allows, c, leaves[..n]);
      AdmittedStep(allows, c, listed, n);
      AllowedWhen(allows, c, listed[n]);
      PinKeepsShard(c, listed[n]);
      SumsAppend(Admitted(allows, c, listed[..n]), ShardPinOf(c, listed[n]));
    }
  }

  lemma AllowedWhen(allows: string -> bool, c: Corpus, l: Listed)
    requires forall k :: k in LicensesFor(c, l) ==> allows(k)
    ensures Allowed(allows, c, l)
  {
  }

  /** A rollup-backed manifest from which the policy excludes nothing has in the bill the totals that its rollup
      declares. */
  lemma RolledTotalIsDeclared(allows: string -> bool, store: Store, c: Corpus)
    requires c.content.Rolled? && Tree(store, c).Ok?
    requires forall l :: l in ListedBy(store, c) ==> forall k :: k in LicensesFor(c, l) ==> allows(k)
    ensures RunningOf(Admitted(allows, c, ListedBy(store, c))).total == Declared(c.content.rollup)
  {
    hide Expand, Admitted, LicensesFor;
    var leaves := Tree(store, c).value.leaves;
    ExpandGrows(EnvOf(store, c), Nothing, "", c.content.rollup);
    assert leaves[0..] == leaves;
    AdmitsAll(allows, c, leaves);
    TotalMeaning(Admitted(allows, c, ListedBy(store, c)));
  }

  /** A shard from a sub-manifest has passed most of its own checks during the expansion: what can still be wrong with
      it are its licenses, its usage and its assessment. */
  lemma ExpandedShardIsSound(allows: string -> bool, c: Corpus, l: Listed, sources: set<string>)
    requires ValidSubShard(l.shard, sources)
    ensures var p := ShardPinOf(c, l);
            PinOk(allows, p) <==>
              && (p.license == "") != (p.licenses == []) && SortedStrings.Sorted(p.licenses)
              && (Assessed(p.format) ==> ValidFindings(p.assessment, p.docs))
              && (forall k :: k in LicensesOf(p) ==> allows(k)) && ValidUsage(p)
  {
  }
}
