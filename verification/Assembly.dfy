/**
 A whole assembly run: seed the deduplicator, filter each batch, pack what is
 new, finish the last shard, and report totals that the journal checks again.
 */
module Assembly {
  import opened Prelude
  import opened Measures
  import opened Rows
  import opened RowGroups
  import opened ShardCounters
  import opened Dedup
  import opened Packing
  import opened Manifests
  import opened AssemblyTotals

  /** A batch from the adapters, after privacy redaction. */
  datatype Batch = Batch(rows: seq<Row>, rejectedDocs: nat)

  datatype AssemblyResult = AssemblyResult(objects: seq<ObjectResult>, inputDocs: int, retainedDocs: int,
                                           duplicateDocs: int, rejectedDocs: int)

  datatype Plan = Plan(env: Env, limit: int, target: int, maximum: int, workers: nat)

  function RowsIn(batches: seq<Batch>): seq<Row> {
    if batches == [] then [] else RowsIn(batches[..|batches| - 1]) + batches[|batches| - 1].rows
  }

  function RejectedIn(batches: seq<Batch>): nat {
    if batches == [] then 0 else RejectedIn(batches[..|batches| - 1]) + batches[|batches| - 1].rejectedDocs
  }

  ghost function SeededIn(seeds: seq<seq<SeedValue>>): set<Identity> {
    if seeds == [] then {} else SeededIn(seeds[..|seeds| - 1]) + SeededAll(seeds[|seeds| - 1])
  }

  function DocsIn(objects: seq<ObjectResult>): int {
    if objects == [] then 0 else DocsIn(objects[..|objects| - 1]) + objects[|objects| - 1].counters.docs
  }

  /** The totals that verifyJournalAssembly checks on a replay. */
  predicate JournalTotalsOk(r: AssemblyResult) {
    && r.inputDocs > 0 && r.retainedDocs > 0 && r.rejectedDocs >= 0
    && r.duplicateDocs == r.inputDocs - r.rejectedDocs - r.retainedDocs
    && r.objects != [] && DocsIn(r.objects) == r.retainedDocs
  }

  /** Hashes are 32-byte arrays in the source. */
  ghost predicate FixedHashes(rows: seq<Row>) { forall r :: r in rows ==> |r.hash| == HASH_BYTES }

  ghost predicate ValidSeeds(seeds: seq<seq<SeedValue>>) {
    forall values, v :: values in seeds && v in values ==> Seeded(v).Some?
  }

  /** A run over any batches, seeds and encoder: None stands for an error, after which nothing is published.  Apart
      from a refusal by the encoder's size limit or the sink, a run fails only for an invalid seed, an unacceptable
      retained row, or when it produces nothing and is not an update. */
  method Assemble(plan: Plan, seeded: bool, seeds: seq<seq<SeedValue>>, batches: seq<Batch>)
    returns (result: Option<AssemblyResult>, ghost refused: bool)
    requires plan.workers > 0 && FixedHashes(RowsIn(batches)) && (!seeded ==> seeds == [])
    ensures result.Some? ==>
              var r, rows := result.value, Retained(SeededIn(seeds), RowsIn(batches));
              && Finished(plan.env, plan.limit, plan.target, plan.maximum, r.objects, rows)
              && (forall o, g :: o in r.objects && g in o.groups ==> Within(plan.limit, g))
              && r.inputDocs == |RowsIn(batches)| + RejectedIn(batches) && r.rejectedDocs == RejectedIn(batches)
              && r.retainedDocs == |rows| && r.inputDocs == r.retainedDocs + r.duplicateDocs + r.rejectedDocs
    ensures result.Some? && result.value.objects == [] ==> seeded && |RowsIn(batches)| > 0
    ensures result.Some? && result.value.objects != [] ==> JournalTotalsOk(result.value)
    ensures !refused ==>
              var rows := Retained(SeededIn(seeds), RowsIn(batches));
              (result.Some? <==> ValidSeeds(seeds) && AllAcceptable(plan.env, rows)
                                 && (rows != [] || (seeded && RowsIn(batches) != [])))
  {
    refused := false;
    var dedup := new Deduplicator();
    var ok := SeedAll(dedup, seeds);
    if !ok {
      return None, refused;
    }
    var assembler := new Assembler(plan.env, plan.limit, plan.target, plan.maximum);
    ghost var rows := Retained(dedup.seen, RowsIn(batches));
    ok := Stream(dedup, assembler, plan, batches);
    refused := assembler.refused;
    if !ok {
      return None, refused;
    }
    ok := assembler.FinishAll(rows);
    refused := assembler.refused;
    if !ok {
      return None, refused;
    }
    var objects := assembler.objects;
    FinishedDocs(plan, objects, rows);
    if objects == [] {
      if !seeded || dedup.input <= 0 {
        return None, refused;
      }
      return Some(AssemblyResult([], dedup.input + dedup.rejected, 0, dedup.input, dedup.rejected)), refused;
    }
    result := Some(AssemblyResult(objects, dedup.input + dedup.rejected, dedup.kept, dedup.input - dedup.kept, dedup.rejected));
  }

  method SeedAll(dedup: Deduplicator, seeds: seq<seq<SeedValue>>) returns (ok: bool)
    requires dedup.Valid() && dedup.seen == {}
    modifies dedup`bucket, dedup`seen
    ensures dedup.Valid()
    ensures ok <==> ValidSeeds(seeds)
    ensures ok ==> dedup.seen == SeededIn(seeds)
  {
    for i := 0 to |seeds|
      invariant dedup.Valid() && dedup.seen == SeededIn(seeds[..i]) && ValidSeeds(seeds[..i])
    {
      assert seeds[i] in seeds && seeds[..i + 1] == seeds[..i] + [seeds[i]] && seeds[..i + 1][..i] == seeds[..i];
      ok := dedup.SeedIDs(seeds[i]);
      if !ok {
        return;
      }
    }
    assert seeds[..|seeds|] == seeds;
    ok := true;
  }

  /** What holds between batches: the packed rows are what is retained of the rows so far. */
  ghost predicate InStep(dedup: Deduplicator, assembler: Assembler, ids: set<Identity>, batches: seq<Batch>)
    reads dedup, assembler
  {
    && dedup.Valid() && dedup.seen == ids + Identities(RowsIn(batches))
    && assembler.Holds(Retained(ids, RowsIn(batches)))
    && dedup.input == |RowsIn(batches)| && dedup.kept == |Retained(ids, RowsIn(batches))|
    && dedup.rejected == RejectedIn(batches)
  }

  /** One batch, as the source's callback treats it: an empty remainder is not packed. */
  method OneBatch(dedup: Deduplicator, assembler: Assembler, plan: Plan, ghost ids: set<Identity>,
                  ghost before: seq<Batch>, batch: Batch) returns (ok: bool)
    requires plan.workers > 0 && assembler.env == plan.env && FixedHashes(batch.rows)
    requires InStep(dedup, assembler, ids, before)
    modifies dedup, assembler
    ensures ok ==> InStep(dedup, assembler, ids, before + [batch])
    ensures !ok ==> assembler.refused || !AllAcceptable(plan.env, Retained(ids, RowsIn(before + [batch])))
  {
    ghost var packed := Retained(ids, RowsIn(before));
    assert (before + [batch])[..|before|] == before;
    RetainedConcat(ids, RowsIn(before), batch.rows);
    IdentitiesConcat(RowsIn(before), batch.rows);
    var unique := dedup.Filter(batch.rows, batch.rejectedDocs);
    assert packed + unique == Retained(ids, RowsIn(before + [batch]));
    ok := true;
    if unique != [] {
      ok := assembler.AddBatch(unique, plan.workers, packed);
    } else {
      assert packed + unique == packed;
    }
  }

  method Stream(dedup: Deduplicator, assembler: Assembler, plan: Plan, batches: seq<Batch>) returns (ok: bool)
    requires plan.workers > 0 && assembler.env == plan.env && FixedHashes(RowsIn(batches))
    requires InStep(dedup, assembler, dedup.seen, [])
    modifies dedup, assembler
    ensures ok ==> InStep(dedup, assembler, old(dedup.seen), batches)
    ensures !ok ==> assembler.refused || !AllAcceptable(plan.env, Retained(old(dedup.seen), RowsIn(batches)))
  {
    ghost var ids := dedup.seen;
    for i := 0 to |batches|
      invariant InStep(dedup, assembler, ids, batches[..i])
    {
      assert batches[..i + 1] == batches[..i] + [batches[i]];
      RowsInEach(batches, i);
      ok := OneBatch(dedup, assembler, plan, ids, batches[..i], batches[i]);
      if !ok {
        RetainedGrows(ids, batches, i + 1);
        return;
      }
    }
    assert batches[..|batches|] == batches;
    ok := true;
  }

  lemma {:induction false} RowsInEach(batches: seq<Batch>, i: nat)
    requires i < |batches|
    ensures forall r :: r in batches[i].rows ==> r in RowsIn(batches)
  {
    if i < |batches| - 1 {
      RowsInEach(batches[..|batches| - 1], i);
    }
  }

  lemma {:induction false} RowsInPrefix(batches: seq<Batch>, n: nat)
    requires n <= |batches|
    ensures RowsIn(batches[..n]) <= RowsIn(batches)
  {
    if n == |batches| {
      assert batches[..n] == batches;
    } else {
      assert batches[..|batches| - 1][..n] == batches[..n];
      RowsInPrefix(batches[..|batches| - 1], n);
    }
  }

  /** What the first batches retain is retained in the end. */
  lemma RetainedGrows(ids: set<Identity>, batches: seq<Batch>, n: nat)
    requires n <= |batches|
    ensures Retained(ids, RowsIn(batches[..n])) <= Retained(ids, RowsIn(batches))
  {
    RowsInPrefix(batches, n);
    var rest := RowsIn(batches)[|RowsIn(batches[..n])|..];
    assert RowsIn(batches) == RowsIn(batches[..n]) + rest;
    RetainedConcat(ids, RowsIn(batches[..n]), rest);
  }

  // ----- Counting documents again -----

  lemma {:induction false} DocsOfObjects(env: Env, maximum: int, objects: seq<ObjectResult>)
    requires forall o :: o in objects ==> Complete(env, maximum, o)
    ensures DocsIn(objects) == |Flatten(GroupsIn(objects))|
  {
    if objects != [] {
      var front, last := objects[..|objects| - 1], objects[|objects| - 1];
      assert forall o :: o in front ==> o in objects;
      assert last in objects;
      DocsOfObjects(env, maximum, front);
      FlattenConcat(GroupsIn(front), last.groups);
      UsageMeaning(env, Flatten(last.groups), "");
    }
  }

  /** The shards hold all retained rows and nothing else, so their documents add up. */
  lemma FinishedDocs(plan: Plan, objects: seq<ObjectResult>, rows: seq<Row>)
    requires Finished(plan.env, plan.limit, plan.target, plan.maximum, objects, rows)
    ensures Flatten(GroupsIn(objects)) == rows && DocsIn(objects) == |rows|
    ensures objects == [] <==> rows == []
  {
    GroupsKeepRows(plan.limit, rows);
    DocsOfObjects(plan.env, plan.maximum, objects);
    if objects != [] {
      assert objects[0] in objects;
      GroupsAreTight(plan.limit, rows);
      GroupsInNonEmpty(objects, plan.env, plan.maximum);
    }
  }

  lemma GroupsInNonEmpty(objects: seq<ObjectResult>, env: Env, maximum: int)
    requires objects != [] && forall o :: o in objects ==> Complete(env, maximum, o)
    ensures GroupsIn(objects) != []
  {
    assert objects[|objects| - 1] in objects;
  }

  // ----- The manifest of a finished assembly -----

  lemma {:induction false} RowsOfObject(objects: seq<ObjectResult>, o: ObjectResult)
    requires o in objects
    ensures forall r :: r in Flatten(o.groups) ==> r in Flatten(GroupsIn(objects))
  {
    var front, last := objects[..|objects| - 1], objects[|objects| - 1];
    FlattenConcat(GroupsIn(front), last.groups);
    if o != last {
      assert objects == front + [last];
      RowsOfObject(front, o);
    }
  }

  /** Every finished shard was counted from acceptable rows, so its manifest reconciles. */
  lemma FinishedIsCounted(plan: Plan, objects: seq<ObjectResult>, rows: seq<Row>)
    requires Finished(plan.env, plan.limit, plan.target, plan.maximum, objects, rows)
    ensures forall o :: o in objects ==> Counted(plan.env, o) && Named(o)
  {
    FinishedDocs(plan, objects, rows);
    forall o | o in objects ensures Counted(plan.env, o) && Named(o) {
      RowsOfObject(objects, o);
      var own := Flatten(o.groups);
      FlattenNonEmpty(o.groups);
      assert AllAcceptable(plan.env, own);
    }
  }

  lemma FlattenNonEmpty(groups: seq<seq<Row>>)
    requires groups != [] && forall g :: g in groups ==> g != []
    ensures Flatten(groups) != []
  {
    assert groups[|groups| - 1] in groups;
  }

  /** From rows to an accepted manifest: whatever comes out of an assembly, the manifest built from it reconciles, and
      its entries and totals are those of the retained rows. */
  method AssembleAndIndex(plan: Plan, recipe: string, batches: seq<Batch>, address: ObjectResult -> Address, assessed: bool)
    returns (result: Option<AssemblyResult>, manifest: Option<Manifest>, accepted: bool, ghost refused: bool)
    requires plan.workers > 0 && FixedHashes(RowsIn(batches))
    requires forall o :: ValidAddress(address(o))
    ensures result.Some? ==> accepted && JournalTotalsOk(result.value)
    ensures result.Some? ==> Flatten(GroupsIn(result.value.objects)) == Retained({}, RowsIn(batches))
    ensures result.Some? ==> forall o, g :: o in result.value.objects && g in o.groups ==> Within(plan.limit, g)
    ensures result.Some? <==> manifest.Some?
    ensures result.Some? ==> manifest.value.recipe == recipe && ManifestDescribes(plan.env, manifest.value, result.value.objects,
                                                                                  address, Retained({}, RowsIn(batches)))
    ensures !refused ==> (result.Some? <==> RowsIn(batches) != [] && AllAcceptable(plan.env, Retained({}, RowsIn(batches))))
  {
    hide Finished, Complete, GroupRows, Retained, AllAcceptable, Counted, Named, ValidAddress, Flatten, GroupsIn;
    hide Gathered, ManifestDescribes, DeclaredLicenses, LicensesIn;
    accepted, manifest := false, None;
    result, refused := Assemble(plan, false, [], batches);
    RetainedIdentities({}, RowsIn(batches));
    if result.Some? {
      ghost var rows := Retained({}, RowsIn(batches));
      FinishedDocs(plan, result.value.objects, rows);
      FinishedIsCounted(plan, result.value.objects, rows);
      FinishedComplete(plan, result.value.objects, rows);
      var m;
      m, accepted := BuildAndVerify(plan.env, recipe, result.value.objects, address, assessed);
      BuiltDescribes(plan.env, plan.maximum, m, result.value.objects, address);
      manifest := Some(m);
    }
  }

  lemma FinishedComplete(plan: Plan, objects: seq<ObjectResult>, rows: seq<Row>)
    requires Finished(plan.env, plan.limit, plan.target, plan.maximum, objects, rows)
    ensures forall o :: o in objects ==> Complete(plan.env, plan.maximum, o)
  {
  }
}
