/**
 Building a bill of materials from selected manifests, whose shards are listed
 inline or found by expanding a rollup, and why its running totals and its
 sub-manifest pins survive the validator.
 */
module BomBuilders {
  import opened Prelude
  import opened Measures
  import opened IndexTypes
  import opened Pins
  import opened Rollups
  import opened SubManifestTrees
  import opened Selections
  import opened BomTotals

  /** `owner` is the digest of the sub-manifest that lists the shard, empty for an inline one. */
  datatype Listed = Listed(shard: Shard, owner: string)

  function InlineListed(shards: seq<Shard>): seq<Listed> {
    seq(|shards|, i requires 0 <= i < |shards| => Listed(shards[i], ""))
  }

  function LeavesListed(leaves: seq<Leaf>): seq<Listed> {
    seq(|leaves|, i requires 0 <= i < |leaves| => Listed(leaves[i].shard, leaves[i].owner.sha))
  }

  /** The shards of one manifest, in the order in which they are handed to addShard. */
  ghost function ListedBy(store: Store, c: Corpus): seq<Listed> {
    match c.content
    case Inline(shards) => InlineListed(shards)
    case Rolled(_) => if Tree(store, c).Ok? then LeavesListed(Tree(store, c).value.leaves) else []
  }

  /** addLicenseMeasures' reading of a pin. */
  function Charges(p: ShardPin): seq<Charge> {
    if |p.licenses| <= 1 || p.usage == map[] then
      [(if p.license == "" && |p.licenses| == 1 then p.licenses[0] else p.license, PinMeasures(p))]
    else Shares(p, p.licenses)
  }

  function ShardPinOf(c: Corpus, l: Listed): ShardPin {
    var s, licenses := l.shard, EffectiveLicenses(c.license, c.licenses, l.shard);
    ShardPin(c.path, l.owner, s.url, s.sha, if |licenses| == 1 then licenses[0] else "", if |licenses| == 1 then [] else licenses,
             s.usage, s.docs, s.tokens, s.bytes, s.modalities, c.format, s.assessment)
  }

  predicate Allowed(allows: string -> bool, c: Corpus, l: Listed) {
    forall k :: k in EffectiveLicenses(c.license, c.licenses, l.shard) ==> allows(k)
  }

  /** The pins of the listed shards that the policy admits, in their order. */
  function Admitted(allows: string -> bool, c: Corpus, listed: seq<Listed>): seq<ShardPin> {
    if listed == [] then []
    else
      var front, last := Admitted(allows, c, listed[..|listed| - 1]), listed[|listed| - 1];
      if Allowed(allows, c, last) then front + [ShardPinOf(c, last)] else front
  }

  function Running(t: Tally, p: ShardPin): Tally {
    Tally(Plus(t.total, PinMeasures(p)), MergeModalities(t.modalities, p.modalities), Add(t.licenses, Charges(p)))
  }

  function RunningOf(pins: seq<ShardPin>): Tally {
    if pins == [] then Empty else Running(RunningOf(pins[..|pins| - 1]), pins[|pins| - 1])
  }

  /** What the builder has recorded after any number of manifests. */
  ghost predicate Kept(bom: Bom) {
    && bom.tally == RunningOf(bom.shards)
    && Paths(bom.manifests)
    && Tallies(bom.shards, bom.manifests)
    && Owned(bom.shards, bom.manifests)
  }

  ghost predicate Tallies(shards: seq<ShardPin>, manifests: seq<ManifestPin>) {
    forall m :: m in manifests ==> m.tally == RunningOf(OfManifest(shards, m.path))
  }

  ghost predicate Owned(shards: seq<ShardPin>, manifests: seq<ManifestPin>) {
    forall p :: p in shards ==> KnownManifest(manifests, p.manifest)
  }

  ghost function AllAdmitted(allows: string -> bool, store: Store, manifests: seq<Corpus>): seq<ShardPin> {
    if manifests == [] then []
    else
      var last := manifests[|manifests| - 1];
      AllAdmitted(allows, store, manifests[..|manifests| - 1]) + Admitted(allows, last, ListedBy(store, last))
  }

  function ManifestPinOf(c: Corpus, tally: Tally): ManifestPin { ManifestPin(c.path, c.format, c.assessment, tally) }

  /** The pin of a manifest repeats what the manifest says of itself. */
  predicate Describes(m: ManifestPin, c: Corpus) {
    m.path == c.path && m.format == c.format && m.assessment == c.assessment
  }

  ghost predicate SameManifests(manifests: seq<ManifestPin>, selected: seq<Corpus>) {
    |manifests| == |selected| && forall i :: 0 <= i < |manifests| ==> Describes(manifests[i], selected[i])
  }

  /** The bill lists exactly the admitted shards of the selected manifests, in their order, and pins exactly the
      sub-manifests that their expansion entered. */
  ghost predicate Lists(allows: string -> bool, store: Store, bom: Bom, selection: seq<Corpus>) {
    && BuildAll(store, selection).Ok?
    && bom.subManifests == BuildAll(store, selection).value.pins
    && bom.shards == AllAdmitted(allows, store, Once(selection))
    && SameManifests(bom.manifests, Once(selection))
  }

  lemma ListedOnce(manifests: seq<ManifestPin>, selected: seq<Corpus>)
    requires SameManifests(manifests, selected)
    ensures forall m :: m in manifests ==> exists c :: c in selected && Describes(m, c)
    ensures forall c :: c in selected ==> exists m :: m in manifests && Describes(m, c)
  {
    forall m | m in manifests ensures exists c :: c in selected && Describes(m, c) {
      var i :| 0 <= i < |manifests| && manifests[i] == m;
      assert selected[i] in selected && Describes(m, selected[i]);
    }
    forall c | c in selected ensures exists m :: m in manifests && Describes(m, c) {
      var i :| 0 <= i < |selected| && selected[i] == c;
      assert manifests[i] in manifests && Describes(manifests[i], c);
    }
  }

  lemma ListedPath(manifests: seq<ManifestPin>, selected: seq<Corpus>, path: string)
    requires SameManifests(manifests, selected)
    ensures KnownManifest(manifests, path) <==> exists c :: c in selected && c.path == path
  {
    hide SameManifests;
    ListedOnce(manifests, selected);
  }

  lemma ListedPaths(allows: string -> bool, store: Store, bom: Bom, selection: seq<Corpus>, path: string)
    requires Lists(allows, store, bom, selection)
    ensures KnownManifest(bom.manifests, path) <==> path in PathsIn(selection)
  {
    hide Once, PathsIn, AllAdmitted, BuildAll, SameManifests, KnownManifest;
    OncePaths(selection, path);
    ListedPath(bom.manifests, Once(selection), path);
  }

  lemma AllAdmittedAppend(allows: string -> bool, store: Store, manifests: seq<Corpus>, c: Corpus)
    ensures AllAdmitted(allows, store, manifests + [c]) ==
            AllAdmitted(allows, store, manifests) + Admitted(allows, c, ListedBy(store, c))
  {
    assert (manifests + [c])[..|manifests|] == manifests;
  }

  lemma ListsAgain(allows: string -> bool, store: Store, bom: Bom, selection: seq<Corpus>, c: Corpus)
    requires Lists(allows, store, bom, selection) && c.path in PathsIn(selection)
    ensures Lists(allows, store, bom, selection + [c])
  {
    hide Once, PathsIn, AllAdmitted, SameManifests;
    OnceAppend(selection, c);
    BuildAppend(store, selection, c);
    BuildPaths(store, selection);
  }

  lemma ListsOneMore(allows: string -> bool, store: Store, bom: Bom, selection: seq<Corpus>, c: Corpus, tally: Tally,
                     mine: Tally)
    requires Lists(allows, store, bom, selection) && c.path !in PathsIn(selection) && Tree(store, c).Ok?
    ensures Lists(allows, store, Bom(bom.shards + Admitted(allows, c, ListedBy(store, c)), tally,
                                     bom.manifests + [ManifestPinOf(c, mine)],
                                     bom.subManifests + Tree(store, c).value.pins),
                  selection + [c])
  {
    hide Once, PathsIn, AllAdmitted, Admitted, ListedBy, Tree;
    OnceAppend(selection, c);
    BuildAppend(store, selection, c);
    BuildPaths(store, selection);
    AllAdmittedAppend(allows, store, Once(selection), c);
  }

  // ----- The builder -----

  class Builder {
    const allows: string -> bool
    const store: Store
    var shards: seq<ShardPin>
    var tally: Tally
    var manifests: seq<ManifestPin>
    var subManifests: seq<Pin>

    ghost function Now(): Bom reads this { Bom(shards, tally, manifests, subManifests) }

    constructor (allows: string -> bool, store: Store)
      ensures this.allows == allows && this.store == store && Now() == Bom([], Empty, [], [])
    {
      this.allows, this.store, shards, tally, manifests, subManifests := allows, store, [], Empty, [], [];
    }

    /** addLicenseMeasures */
    method AddLicenses(m: map<string, Measures>, p: ShardPin) returns (r: map<string, Measures>)
      ensures r == Add(m, Charges(p))
    {
      if |p.licenses| <= 1 || p.usage == map[] {
        var license := if p.license == "" && |p.licenses| == 1 then p.licenses[0] else p.license;
        OneCharge(m, license, PinMeasures(p));
        return AddAt(m, license, PinMeasures(p));
      }
      r := ChargeShares(m, p);
    }

    method AddTo(t: Tally, p: ShardPin) returns (r: Tally)
      ensures r == Running(t, p)
    {
      var modalities := AddModalities(t.modalities, p.modalities);
      var licenses := AddLicenses(t.licenses, p);
      r := Tally(Plus(t.total, PinMeasures(p)), modalities, licenses);
    }

    /** The closure addShard; `mine` is the tally of the manifest being added, whose pins so far are `admitted`. */
    method AddShard(c: Corpus, l: Listed, mine: Tally, ghost admitted: seq<ShardPin>) returns (r: Tally, ghost more: seq<ShardPin>)
      requires tally == RunningOf(shards) && mine == RunningOf(admitted)
      modifies this`shards, this`tally
      ensures more == if Allowed(allows, c, l) then [ShardPinOf(c, l)] else []
      ensures shards == old(shards) + more && tally == RunningOf(shards) && r == RunningOf(admitted + more)
    {
      more := if Allowed(allows, c, l) then [ShardPinOf(c, l)] else [];
      if !Allowed(allows, c, l) {
        assert shards + more == shards && admitted + more == admitted;
        return mine, more;
      }
      var p := ShardPinOf(c, l);
      RunningStep(shards, p);
      RunningStep(admitted, p);
      shards := shards + [p];
      tally := AddTo(tally, p);
      r := AddTo(mine, p);
    }

    /** The loop over the shards of one manifest. */
    method AddListed(c: Corpus, listed: seq<Listed>) returns (mine: Tally)
      requires tally == RunningOf(shards)
      modifies this`shards, this`tally
      ensures shards == old(shards) + Admitted(allows, c, listed) && tally == RunningOf(shards)
      ensures mine == RunningOf(Admitted(allows, c, listed))
    {
      hide *;
      RunningOfNone();
      AdmittedNone(allows, c);
      mine := Empty;
      ghost var admitted, more: seq<ShardPin> := [], [];
      ghost var before := shards;
      assert before + [] == before && listed[..0] == [];
      for i := 0 to |listed|
        invariant admitted == Admitted(allows, c, listed[..i])
        invariant shards == before + admitted && tally == RunningOf(shards) && mine == RunningOf(admitted)
      {
        AdmittedStep(allows, c, listed, i);
        assert before + admitted + more == before + (admitted + more);
        mine, more := AddShard(c, listed[i], mine, admitted);
        assert before + (admitted + more) == before + admitted + more;
        admitted := admitted + more;
      }
      assert listed[..|listed|] == listed;
    }

    /** The shards of a manifest, and the pins of its sub-manifests when it has a rollup. */
    method ListShards(c: Corpus) returns (listed: Result<seq<Listed>, Failure>)
      modifies this`subManifests
      ensures Tree(store, c).Err? ==> listed == Err(Tree(store, c).error)
      ensures Tree(store, c).Ok? ==> listed == Ok(ListedBy(store, c))
                                     && subManifests == old(subManifests) + Tree(store, c).value.pins
    {
      match c.content {
        case Inline(shards) =>
          assert subManifests + [] == subManifests;
          return Ok(InlineListed(shards));
        case Rolled(r) =>
          var expander := new Expander(EnvOf(store, c), subManifests, []);
          ExpandBehind(EnvOf(store, c), subManifests, [], Nothing, "", r);
          assert Behind(subManifests, [], Nothing) == expander.Now();
          var total := expander.ExpandRollup(r, "");
          if total.Err? {
            return Err(total.error);
          }
          assert [] + Tree(store, c).value.leaves == Tree(store, c).value.leaves;
          subManifests := expander.pins;
          return Ok(LeavesListed(expander.leaves));
      }
    }

    /** addManifest: a manifest stays listed even when the policy admits none of its shards. */
    method AddManifest(c: Corpus) returns (failed: Option<Failure>)
      requires Kept(Now()) && c.path != "" && !KnownManifest(manifests, c.path)
      modifies this
      ensures failed == if Tree(store, c).Err? then Some(Tree(store, c).error) else None
      ensures failed == None ==>
                && Kept(Now())
                && shards == old(shards) + Admitted(allows, c, ListedBy(store, c))
                && manifests == old(manifests) + [ManifestPinOf(c, RunningOf(Admitted(allows, c, ListedBy(store, c))))]
                && subManifests == old(subManifests) + Tree(store, c).value.pins
    {
      hide Tree, ListedBy, Admitted, RunningOf, KnownManifest;
      var listed := ListShards(c);
      if listed.Err? {
        return Some(listed.error);
      }
      KeptOneMore(old(Now()), allows, c, listed.value, subManifests);
      var mine := AddListed(c, listed.value);
      manifests := manifests + [ManifestPinOf(c, mine)];
      failed := None;
    }

    /** BuildBOM: each manifest path once; the first failed expansion ends the build. */
    method Build(selection: seq<Corpus>) returns (failed: Option<Failure>)
      requires Now() == Bom([], Empty, [], []) && forall c :: c in selection ==> c.path != ""
      modifies this
      ensures failed == if BuildAll(store, selection).Err? then Some(BuildAll(store, selection).error) else None
      ensures failed == None ==> Kept(Now()) && Lists(allows, store, Now(), selection)
    {
      hide *;
      NothingSelected(allows, store);
      var seen: set<string> := {};
      assert selection[..0] == [];
      for i := 0 to |selection|
        invariant Kept(Now()) && Lists(allows, store, Now(), selection[..i])
        invariant seen == PathsIn(selection[..i])
      {
        assert selection[..i + 1] == selection[..i] + [selection[i]];
        failed := AddOnce(selection[i], selection[..i], seen);
        if failed.Some? {
          FailureStays(store, selection, i + 1);
          return;
        }
        OnceAppend(selection[..i], selection[i]);
        seen := seen + {selection[i].path};
      }
      assert selection[..|selection|] == selection;
      ListsOk(allows, store, Now(), selection);
      failed := None;
    }

    /** One turn of that loop. */
    method AddOnce(c: Corpus, ghost before: seq<Corpus>, seen: set<string>) returns (failed: Option<Failure>)
      requires Kept(Now()) && Lists(allows, store, Now(), before) && seen == PathsIn(before) && c.path != ""
      modifies this
      ensures failed == None ==> Kept(Now()) && Lists(allows, store, Now(), before + [c])
      ensures failed.Some? ==> BuildAll(store, before + [c]) == Err(failed.value)
    {
      hide Kept, KnownManifest, Once, PathsIn, AllAdmitted, Admitted, ListedBy, SameManifests, Tree, RunningOf;
      ghost var bom := Now();
      if c.path in seen {
        ListsAgain(allows, store, bom, before, c);
        return None;
      }
      ListedPaths(allows, store, bom, before, c.path);
      failed := AddManifest(c);
      if failed == None {
        ListsOneMore(allows, store, bom, before, c, tally, RunningOf(Admitted(allows, c, ListedBy(store, c))));
      } else {
        BuildAppend(store, before, c);
        BuildPaths(store, before);
      }
    }
  }

  lemma NothingSelected(allows: string -> bool, store: Store)
    ensures Kept(Bom([], Empty, [], [])) && Lists(allows, store, Bom([], Empty, [], []), []) && PathsIn([]) == {}
  {
  }

  lemma ListsOk(allows: string -> bool, store: Store, bom: Bom, selection: seq<Corpus>)
    requires Lists(allows, store, bom, selection)
    ensures BuildAll(store, selection).Ok?
  {
  }

  lemma AdmittedNone(allows: string -> bool, c: Corpus)
    ensures Admitted(allows, c, []) == []
  {
  }

  lemma KnownLonger(a: seq<ManifestPin>, b: seq<ManifestPin>)
    requires a <= b
    ensures forall path :: KnownManifest(a, path) ==> KnownManifest(b, path)
  {
    assert forall m :: m in a ==> m in b;
  }

  lemma RunningOfNone()
    ensures RunningOf([]) == Empty
  {
  }

  lemma RunningStep(pins: seq<ShardPin>, p: ShardPin)
    ensures RunningOf(pins + [p]) == Running(RunningOf(pins), p)
  {
    assert (pins + [p])[..|pins|] == pins;
  }

  lemma AdmittedStep(allows: string -> bool, c: Corpus, listed: seq<Listed>, i: nat)
    requires i < |listed|
    ensures Admitted(allows, c, listed[..i + 1]) ==
            Admitted(allows, c, listed[..i]) + if Allowed(allows, c, listed[i]) then [ShardPinOf(c, listed[i])] else []
  {
    assert listed[..i + 1][..i] == listed[..i];
  }

  /** An admitted pin is that of a listed shard of this manifest. */
  lemma {:induction false} AdmittedOwn(allows: string -> bool, c: Corpus, listed: seq<Listed>)
    ensures forall p :: p in Admitted(allows, c, listed) ==>
              p.manifest == c.path && exists l :: l in listed && p == ShardPinOf(c, l)
  {
    if listed != [] {
      var front, last := listed[..|listed| - 1], listed[|listed| - 1];
      AdmittedOwn(allows, c, front);
      assert forall l :: l in front ==> l in listed;
      assert last in listed;
    }
  }

  lemma {:induction false} OfManifestConcat(a: seq<ShardPin>, b: seq<ShardPin>, path: string)
    ensures OfManifest(a + b, path) == OfManifest(a, path) + OfManifest(b, path)
  {
    if b == [] {
      assert a + b == a;
    } else {
      var all, front := a + b, b[..|b| - 1];
      assert all[..|all| - 1] == a + front;
      OfManifestConcat(a, front, path);
    }
  }

  lemma {:induction false} OfManifestAllOrNone(pins: seq<ShardPin>, path: string)
    ensures (forall p :: p in pins ==> p.manifest == path) ==> OfManifest(pins, path) == pins
    ensures (forall p :: p in pins ==> p.manifest != path) ==> OfManifest(pins, path) == []
  {
    if pins != [] { OfManifestAllOrNone(pins[..|pins| - 1], path); }
  }

  /** The new manifest's shards change no other manifest's recount, and the old shards not the new one's. */
  lemma RecountsApart(bom: Bom, more: seq<ShardPin>, path: string)
    requires (forall p :: p in more ==> p.manifest == path) && (forall p :: p in bom.shards ==> p.manifest != path)
    ensures OfManifest(bom.shards + more, path) == more
    ensures forall m :: m in bom.manifests && m.path != path ==> OfManifest(bom.shards + more, m.path) == OfManifest(bom.shards, m.path)
  {
    OfManifestConcat(bom.shards, more, path);
    OfManifestAllOrNone(bom.shards, path);
    OfManifestAllOrNone(more, path);
    forall m | m in bom.manifests && m.path != path
      ensures OfManifest(bom.shards + more, m.path) == OfManifest(bom.shards, m.path)
    {
      OfManifestConcat(bom.shards, more, m.path);
      OfManifestAllOrNone(more, m.path);
    }
  }

  lemma TalliesOneMore(bom: Bom, more: seq<ShardPin>, c: Corpus)
    requires Tallies(bom.shards, bom.manifests) && Owned(bom.shards, bom.manifests) && !KnownManifest(bom.manifests, c.path)
    requires forall p :: p in more ==> p.manifest == c.path
    ensures Tallies(bom.shards + more, bom.manifests + [ManifestPinOf(c, RunningOf(more))])
  {
    assert forall p :: p in bom.shards ==> KnownManifest(bom.manifests, p.manifest) && p.manifest != c.path;
    RecountsApart(bom, more, c.path);
  }

  lemma OwnedOneMore(bom: Bom, more: seq<ShardPin>, last: ManifestPin)
    requires Owned(bom.shards, bom.manifests) && forall p :: p in more ==> p.manifest == last.path
    ensures Owned(bom.shards + more, bom.manifests + [last])
  {
    KnownLonger(bom.manifests, bom.manifests + [last]);
    assert last in bom.manifests + [last];
  }

  lemma PathsOneMore(manifests: seq<ManifestPin>, last: ManifestPin)
    requires Paths(manifests) && last.path != "" && !KnownManifest(manifests, last.path)
    ensures Paths(manifests + [last])
  {
    forall i | 0 <= i < |manifests| ensures manifests[i].path != last.path {
      assert manifests[i] in manifests;
    }
  }

  lemma KeptOneMore(bom: Bom, allows: string -> bool, c: Corpus, listed: seq<Listed>, subManifests: seq<Pin>)
    requires Kept(bom) && c.path != "" && !KnownManifest(bom.manifests, c.path)
    ensures var more := Admitted(allows, c, listed);
            Kept(Bom(bom.shards + more, RunningOf(bom.shards + more), bom.manifests + [ManifestPinOf(c, RunningOf(more))],
                     subManifests))
  {
    hide Admitted, RunningOf, Tallies, Owned, Paths, ShardPinOf;
    var more := Admitted(allows, c, listed);
    AdmittedOwn(allows, c, listed);
    TalliesOneMore(bom, more, c);
    OwnedOneMore(bom, more, ManifestPinOf(c, RunningOf(more)));
    PathsOneMore(bom.manifests, ManifestPinOf(c, RunningOf(more)));
  }

  // ----- Why the recount agrees -----

  /** On a pin that passes its own checks both sides charge the same licenses with the same measures. */
  lemma SameCharges(allows: string -> bool, p: ShardPin)
    requires PinOk(allows, p)
    ensures Charges(p) == RecountCharges(p)
  {
  }

  /** In general they do exactly in these cases; a pin in none of them names both one license and several, or several
      without usage, and is refused. */
  lemma SameChargesIff(p: ShardPin)
    ensures Charges(p) == RecountCharges(p) <==>
            p.licenses == [] || p.license == p.licenses[0] || (|p.licenses| == 1 && p.license == "")
            || (|p.licenses| > 1 && p.usage != map[])
  {
    if p.licenses != [] && (|p.licenses| == 1 || p.usage == map[]) {
      assert RecountCharges(p)[0].0 == p.licenses[0];
      assert Charges(p)[0].0 == if |p.licenses| == 1 && p.license == "" then p.licenses[0] else p.license;
    }
  }

  lemma {:induction false} SameTallies(allows: string -> bool, pins: seq<ShardPin>)
    requires forall p :: p in pins ==> PinOk(allows, p)
    ensures RunningOf(pins) == TallyOf(pins)
  {
    hide PinOk, MergeModalities, Charges, RecountCharges, Add;
    if pins != [] {
      var front, last := pins[..|pins| - 1], pins[|pins| - 1];
      assert forall p :: p in front ==> p in pins;
      assert last in pins;
      SameTallies(allows, front);
      SameCharges(allows, last);
    }
  }

  lemma {:induction false} OfManifestWithin(pins: seq<ShardPin>, path: string)
    ensures forall p :: p in OfManifest(pins, path) ==> p in pins
  {
    if pins != [] { OfManifestWithin(pins[..|pins| - 1], path); }
  }

  /** What the builder kept passes the recount as soon as every shard passes its own checks. */
  lemma KeptRecounts(allows: string -> bool, bom: Bom)
    requires Kept(bom) && forall p :: p in bom.shards ==> PinOk(allows, p)
    ensures Recounts(bom)
  {
    SameTallies(allows, bom.shards);
    forall m | m in bom.manifests ensures m.tally == TallyOf(OfManifest(bom.shards, m.path)) {
      OfManifestWithin(bom.shards, m.path);
      SameTallies(allows, OfManifest(bom.shards, m.path));
    }
  }

  // ----- Why the rest of the validation does -----

  lemma PlusValid(a: Modality, b: Modality)
    requires a.samples >= 0 && a.items >= 0 && a.tokens >= 0 && a.durationMS >= 0 && a.contentBytes >= 0
    requires b.samples >= 0 && b.items >= 0 && b.tokens >= 0 && b.durationMS >= 0 && b.contentBytes >= 0
    ensures var s := PlusModality(a, b);
            && s.samples >= 0 && s.items >= 0 && s.tokens >= 0 && s.durationMS >= 0 && s.contentBytes >= 0
            && (s == NoModality ==> a == NoModality && b == NoModality)
  {
    if PlusModality(a, b) == NoModality {
      assert a.samples + b.samples == 0 && a.items + b.items == 0 && a.tokens + b.tokens == 0;
      assert a.durationMS + b.durationMS == 0 && a.contentBytes + b.contentBytes == 0;
      assert a == Modality(0, 0, 0, 0, 0) && b == Modality(0, 0, 0, 0, 0);
    }
  }

  /** Sums of valid modalities are valid. */
  lemma MergedValid(a: Modalities, b: Modalities)
    requires ValidModalities(a) && ValidModalities(b)
    ensures ValidModalities(MergeModalities(a, b))
  {
    hide PlusModality, ModalityName;
    forall k | k in MergeModalities(a, b)
      ensures k in a || k in b
      ensures MergeModalities(a, b)[k] == PlusModality(ModalityAt(a, k), ModalityAt(b, k))
    {
    }
    forall k | k in a || k in b {
      PlusValid(ModalityAt(a, k), ModalityAt(b, k));
    }
  }

  lemma PinModalities(allows: string -> bool, p: ShardPin)
    requires PinOk(allows, p)
    ensures ValidModalities(p.modalities)
  {
  }

  lemma {:induction false} RunningModalities(allows: string -> bool, pins: seq<ShardPin>)
    requires forall p :: p in pins ==> PinOk(allows, p)
    ensures ValidModalities(RunningOf(pins).modalities)
  {
    hide PinOk, MergeModalities, Charges, Add;
    if pins != [] {
      var front, last := pins[..|pins| - 1], pins[|pins| - 1];
      assert forall p :: p in front ==> p in pins;
      assert last in pins;
      RunningModalities(allows, front);
      PinModalities(allows, last);
      MergedValid(RunningOf(front).modalities, last.modalities);
    }
  }

  /** The pins of one selected manifest are those that it added. */
  lemma {:induction false} AdmittedOfManifest(allows: string -> bool, store: Store, selection: seq<Corpus>, c: Corpus)
    requires c in Once(selection)
    ensures OfManifest(AllAdmitted(allows, store, Once(selection)), c.path) == Admitted(allows, c, ListedBy(store, c))
  {
    hide ListedBy, Admitted, OfManifest, AllAdmitted;
    var front, last := selection[..|selection| - 1], selection[|selection| - 1];
    assert selection == front + [last];
    OnceAppend(front, last);
    if last.path in PathsIn(front) {
      AdmittedOfManifest(allows, store, front, c);
    } else {
      var older, newer := AllAdmitted(allows, store, Once(front)), Admitted(allows, last, ListedBy(store, last));
      AllAdmittedAppend(allows, store, Once(front), last);
      OfManifestConcat(older, newer, c.path);
      OfManifestAllOrNone(newer, c.path);
      AdmittedOwn(allows, last, ListedBy(store, last));
      if c in Once(front) {
        OncePaths(front, c.path);
        AdmittedOfManifest(allows, store, front, c);
        assert OfManifest(older, c.path) + [] == OfManifest(older, c.path);
      } else {
        AdmittedPaths(allows, store, front);
        OfManifestAllOrNone(older, c.path);
      }
    }
  }

  lemma {:induction false} AdmittedPaths(allows: string -> bool, store: Store, selection: seq<Corpus>)
    ensures forall p :: p in AllAdmitted(allows, store, Once(selection)) ==> p.manifest in PathsIn(selection)
  {
    hide ListedBy, Admitted;
    if selection != [] {
      var front, last := selection[..|selection| - 1], selection[|selection| - 1];
      assert selection == front + [last];
      OnceAppend(front, last);
      AdmittedPaths(allows, store, front);
      AllAdmittedAppend(allows, store, Once(front), last);
      AdmittedOwn(allows, last, ListedBy(store, last));
    }
  }

  /** What the validator demands of the findings of one selected manifest: that they are possible for the selected
      documents and, for assessed text, that they are those of the selected shards. */
  ghost predicate FindingsSelected(allows: string -> bool, store: Store, c: Corpus) {
    var selected := Admitted(allows, c, ListedBy(store, c));
    && (Assessed(c.format) ==> ValidFindings(c.assessment, RunningOf(selected).total.docs))
    && (c.format.schema >= TEXT_RECORD_SCHEMA ==> c.assessment == Some(FindingsIn(selected)))
  }

  ghost predicate AllFindingsSelected(allows: string -> bool, store: Store, selected: seq<Corpus>) {
    forall c :: c in selected ==> FindingsSelected(allows, store, c)
  }

  ghost predicate FindingsOk(bom: Bom, m: ManifestPin) {
    && (Assessed(m.format) ==> ValidFindings(m.assessment, m.tally.total.docs))
    && (m.format.schema >= TEXT_RECORD_SCHEMA ==> m.assessment == Some(FindingsIn(OfManifest(bom.shards, m.path))))
  }

  lemma ManifestFindings(allows: string -> bool, store: Store, bom: Bom, selection: seq<Corpus>, m: ManifestPin, c: Corpus)
    requires Kept(bom) && Lists(allows, store, bom, selection) && m in bom.manifests && c in Once(selection) && Describes(m, c)
    ensures FindingsOk(bom, m) <==> FindingsSelected(allows, store, c)
  {
    hide Paths, Owned, SameManifests, BuildAll, Once, ValidFindings, RunningOf, FindingsIn;
    AdmittedOfManifest(allows, store, selection, c);
  }

  lemma BuiltFindings(allows: string -> bool, store: Store, bom: Bom, selection: seq<Corpus>)
    requires Kept(bom) && Lists(allows, store, bom, selection)
    ensures (forall m :: m in bom.manifests ==> FindingsOk(bom, m)) <==> AllFindingsSelected(allows, store, Once(selection))
  {
    ListedOnce(bom.manifests, Once(selection));
    forall m, c | m in bom.manifests && c in Once(selection) && Describes(m, c)
      ensures FindingsOk(bom, m) <==> FindingsSelected(allows, store, c)
    {
      ManifestFindings(allows, store, bom, selection, m, c);
    }
    hide Kept, Lists, FindingsOk, FindingsSelected, Describes;
  }

  lemma KeptModalities(allows: string -> bool, bom: Bom)
    requires Kept(bom) && forall p :: p in bom.shards ==> PinOk(allows, p)
    ensures forall m :: m in bom.manifests ==> ValidModalities(m.tally.modalities)
  {
    hide PinOk;
    forall m | m in bom.manifests ensures ValidModalities(m.tally.modalities) {
      OfManifestWithin(bom.shards, m.path);
      RunningModalities(allows, OfManifest(bom.shards, m.path));
    }
  }

  /** The shards of one manifest belong to pins of its own tree. */
  lemma ListedOwners(allows: string -> bool, store: Store, c: Corpus, pins: seq<Pin>, p: ShardPin)
    requires Tree(store, c).Ok? && (forall q :: q in Tree(store, c).value.pins ==> q in pins)
    requires p in Admitted(allows, c, ListedBy(store, c))
    ensures OwnerPinned(pins, p)
  {
    hide Expand, Admitted;
    AdmittedOwn(allows, c, ListedBy(store, c));
    TreeOwners(store, c);
    var l :| l in ListedBy(store, c) && p == ShardPinOf(c, l);
    if c.content.Rolled? {
      var leaves := Tree(store, c).value.leaves;
      var i :| 0 <= i < |leaves| && l == Listed(leaves[i].shard, leaves[i].owner.sha);
      assert leaves[i] in leaves;
      var q :| q in Tree(store, c).value.pins && KeyOf(q) == leaves[i].owner;
      assert q in pins && KeyOf(q) == Key(p.manifest, p.owner);
    }
  }

  /** No admitted shard refers to an unpinned sub-manifest, whatever was selected. */
  lemma {:induction false} OwnersPinned(allows: string -> bool, store: Store, selection: seq<Corpus>)
    requires BuildAll(store, selection).Ok?
    ensures forall p :: p in AllAdmitted(allows, store, Once(selection)) ==> OwnerPinned(BuildAll(store, selection).value.pins, p)
  {
    hide Tree, ListedBy, Admitted;
    if selection != [] {
      var front, c := selection[..|selection| - 1], selection[|selection| - 1];
      assert selection == front + [c];
      OwnersPinned(allows, store, front);
      BuildPaths(store, front);
      OnceAppend(front, c);
      if c.path !in PathsIn(front) {
        var pins := BuildAll(store, selection).value.pins;
        assert forall q :: q in BuildAll(store, front).value.pins || q in Tree(store, c).value.pins ==> q in pins;
        AllAdmittedAppend(allows, store, Once(front), c);
        forall p | p in AllAdmitted(allows, store, Once(selection)) ensures OwnerPinned(pins, p) {
          if p in Admitted(allows, c, ListedBy(store, c)) {
            ListedOwners(allows, store, c, pins, p);
          } else {
            assert OwnerPinned(BuildAll(store, front).value.pins, p);
          }
        }
      }
    }
  }

  /** Whatever the builder made passes every check but those on its own inputs. */
  lemma BuiltIsValidIff(allows: string -> bool, store: Store, bom: Bom, selection: seq<Corpus>)
    requires Kept(bom) && Lists(allows, store, bom, selection)
    ensures PinsValid(PathSet(bom.manifests), bom.subManifests) <==> SelectionAddsUp(store, selection)
    ensures forall p :: p in bom.shards ==> (ShardOk(bom.manifests, bom.subManifests, allows, p) <==> PinOk(allows, p))
  {
    hide PinsValid, PinOk, Once, AllAdmitted, BuildAll;
    OwnersPinned(allows, store, selection);
    BuiltPinsValidIff(store, selection);
    forall path ensures path in PathSet(bom.manifests) <==> path in PathsIn(selection) {
      ListedPaths(allows, store, bom, selection, path);
    }
    assert PathSet(bom.manifests) == PathsIn(selection);
  }

  /** With sound shards, the checks on manifests come down to their findings. */
  lemma BuiltManifestsIff(allows: string -> bool, store: Store, bom: Bom, selection: seq<Corpus>)
    requires Kept(bom) && Lists(allows, store, bom, selection) && forall p :: p in bom.shards ==> PinOk(allows, p)
    ensures ManifestsOk(bom.manifests) && FindingsMatch(bom) <==> AllFindingsSelected(allows, store, Once(selection))
    ensures Recounts(bom)
  {
    hide PinOk, Once, AllFindingsSelected, ValidModalities, ValidFindings, Recounts;
    KeptRecounts(allows, bom);
    KeptModalities(allows, bom);
    BuiltFindings(allows, store, bom, selection);
    hide Lists, Kept;
    assert ManifestsOk(bom.manifests) && FindingsMatch(bom) <==> forall m :: m in bom.manifests ==> FindingsOk(bom, m);
  }

  /** What BuildBOM reports instead of a bill. */
  datatype Problem = NotExpanded(why: Failure) | Invalid

  /** The condition on the inputs, once every expansion has succeeded. */
  ghost predicate Acceptable(allows: string -> bool, store: Store, selection: seq<Corpus>) {
    && (forall p :: p in AllAdmitted(allows, store, Once(selection)) ==> PinOk(allows, p))
    && SelectionAddsUp(store, selection)
    && AllFindingsSelected(allows, store, Once(selection))
  }

  /** BuildBOM with the validation at its end.  After successful expansions it is accepted exactly when each admitted
      shard passes its own checks, the references of the selection add up, and the findings of each manifest are those
      of its admitted shards; neither the comparison of totals nor the search for a shard's sub-manifest nor the parent
      graph is ever what fails. */
  method BuildAndValidate(selection: seq<Corpus>, store: Store, allows: string -> bool) returns (r: Result<Bom, Problem>)
    requires forall c :: c in selection ==> c.path != ""
    ensures BuildAll(store, selection).Err? ==> r == Err(NotExpanded(BuildAll(store, selection).error))
    ensures BuildAll(store, selection).Ok? ==> (r.Ok? <==> Acceptable(allows, store, selection))
    ensures r.Ok? ==> Kept(r.value) && Lists(allows, store, r.value, selection) && Recounts(r.value)
                      && PinsValid(PathsIn(selection), r.value.subManifests)
  {
    hide PinsValid, PinOk, BuildAll, Once, AllAdmitted, Recounts, SelectionAddsUp, AllFindingsSelected, ShardOk;
    hide ManifestsOk, FindingsMatch;
    var builder := new Builder(allows, store);
    var failed := builder.Build(selection);
    if failed.Some? {
      return Err(NotExpanded(failed.value));
    }
    var bom := Bom(builder.shards, builder.tally, builder.manifests, builder.subManifests);
    var ok := Validate(bom, allows);
    BuiltIsValidIff(allows, store, bom, selection);
    BuiltPinsValidIff(store, selection);
    if forall p :: p in bom.shards ==> PinOk(allows, p) {
      BuiltManifestsIff(allows, store, bom, selection);
    }
    r := if ok then Ok(bom) else Err(Invalid);
  }
}
