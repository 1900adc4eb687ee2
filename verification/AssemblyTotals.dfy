/**
 What the manifest of an assembly says of the rows that were retained: each
 entry describes the rows of its shard, and the totals describe all of them.
 */
module AssemblyTotals {
  import opened Prelude
  import opened Measures
  import opened IndexTypes
  import opened Rows
  import opened ShardCounters
  import opened Packing
  import opened Manifests

  function ShardDocs(shards: seq<Shard>): int {
    if shards == [] then 0 else ShardDocs(shards[..|shards| - 1]) + shards[|shards| - 1].docs
  }

  function ShardTokens(shards: seq<Shard>): int {
    if shards == [] then 0 else ShardTokens(shards[..|shards| - 1]) + shards[|shards| - 1].tokens
  }

  function ShardBytes(shards: seq<Shard>): int {
    if shards == [] then 0 else ShardBytes(shards[..|shards| - 1]) + shards[|shards| - 1].bytes
  }

  function EncodedBytes(objects: seq<ObjectResult>): int {
    if objects == [] then 0 else EncodedBytes(objects[..|objects| - 1]) + objects[|objects| - 1].bytes
  }

  function RedactedBy(r: Redaction, k: Removal): int {
    match k
    case EmailAddress => r.emailAddresses
    case IPAddress => r.ipAddresses
    case PhoneNumber => r.phoneNumbers
    case MailRoutingHeader => r.mailRoutingHeaders
    case Credential => r.credentials
  }

  function LicensesAt(s: Shard): seq<string> { if s.licenses == [] then [s.license] else s.licenses }

  /** The entry of one shard: where it is, and what its own rows say. */
  ghost predicate Describes(env: Env, s: Shard, o: ObjectResult, at: Address) {
    var rows := Flatten(o.groups);
    && s.url == at.url && s.sha == at.sha && s.bytes == o.bytes && s.docs == |rows| && s.tokens == TokensIn(env, rows)
    && (forall source :: source in s.sources <==> Names(rows, source))
    && (forall license :: license in LicensesAt(s) <==> Under(rows, license))
    && (|s.licenses| > 1 ==> forall license :: MeasuresAt(s.usage, license) ==
                               Measures(0, DocsUnder(rows, license), TokensUnder(env, rows, license), 0))
    && s.assessment.Some? && (forall d :: FoundBy(s.assessment.value, d) == FlaggedRows(env, rows, d))
    && s.redaction.Some? && (forall k :: RedactedBy(s.redaction.value, k) == RemovedIn(rows, k))
  }

  lemma RedactionKeeps(r: Redactions, k: Removal)
    ensures RedactedBy(RedactionOf(r), k) == Removed(r, k)
  {
  }

  lemma EntryLicenses(o: ObjectResult, at: Address)
    requires o.licenses != []
    ensures LicensesAt(ShardOf(o, at)) == o.licenses
    ensures forall l :: l in LicensesAt(ShardOf(o, at)) <==> l in ToSet(o.licenses)
  {
    if |o.licenses| == 1 { assert o.licenses == [o.licenses[0]]; }
  }

  lemma EntryOf(o: ObjectResult, at: Address)
    ensures var s, c := ShardOf(o, at), o.counters;
            && s.url == at.url && s.sha == at.sha && s.bytes == o.bytes && s.docs == c.docs && s.tokens == c.tokens
            && s.sources == o.sources && (|s.licenses| > 1 ==> s.usage == c.usage)
            && s.assessment == Some(c.findings) && s.redaction == Some(RedactionOf(c.redactions))
  {
  }

  lemma ShardDescribes(env: Env, maximum: int, o: ObjectResult, at: Address)
    requires Complete(env, maximum, o) && o.licenses != []
    ensures Describes(env, ShardOf(o, at), o, at)
  {
    var rows, s := Flatten(o.groups), ShardOf(o, at);
    CompleteNames(env, maximum, o);
    CountersMeaning(env, rows);
    EntryOf(o, at);
    EntryLicenses(o, at);
    hide Complete, ShardOf, CountersOf, FlaggedRows, DocsUnder, TokensUnder, RemovedIn, Names, Under, Flatten, LicensesAt, RedactionOf,
         TokensIn, FoundBy, Removed;
    forall license { UsageAt(env, rows, license); }
    forall k { RedactionKeeps(o.counters.redactions, k); }
  }

  lemma UsageAt(env: Env, rows: seq<Row>, license: string)
    ensures MeasuresAt(CountersOf(env, rows).usage, license) ==
            Measures(0, DocsUnder(rows, license), TokensUnder(env, rows, license), 0)
  {
    UsageMeaning(env, rows, license);
  }

  lemma CompleteNames(env: Env, maximum: int, o: ObjectResult)
    requires Complete(env, maximum, o)
    ensures o.counters == CountersOf(env, Flatten(o.groups))
    ensures forall source :: source in o.sources <==> source in o.counters.sources
    ensures forall l :: l in ToSet(o.licenses) <==> l in o.counters.licenses
  {
    forall source ensures source in o.sources <==> source in o.counters.sources {
      assert source in o.sources <==> source in ToSet(o.sources);
    }
  }

  /** The totals of a manifest over the rows of all its shards. */
  ghost predicate TotalsDescribe(env: Env, rows: seq<Row>, shards: seq<Shard>, a: Assessment, r: Redaction) {
    && ShardDocs(shards) == |rows| && ShardTokens(shards) == TokensIn(env, rows)
    && (forall d :: FoundBy(a, d) == FlaggedRows(env, rows, d))
    && (forall k :: RedactedBy(r, k) == RemovedIn(rows, k))
  }

  lemma TotalsOfNone(env: Env)
    ensures TotalsDescribe(env, [], [], NoAssessment, NoRedaction)
  {
  }

  lemma AssessmentAdds(a: Assessment, b: Assessment, d: Detector)
    ensures FoundBy(AddAssessment(a, b), d) == FoundBy(a, d) + FoundBy(b, d)
  {
  }

  lemma RedactionAdds(a: Redaction, b: Redaction, k: Removal)
    ensures RedactedBy(AddRedaction(a, b), k) == RedactedBy(a, k) + RedactedBy(b, k)
  {
  }

  lemma TotalsOneMore(env: Env, rows: seq<Row>, shards: seq<Shard>, a: Assessment, r: Redaction, o: ObjectResult, s: Shard,
                      at: Address)
    requires TotalsDescribe(env, rows, shards, a, r) && Describes(env, s, o, at)
    ensures TotalsDescribe(env, rows + Flatten(o.groups), shards + [s], AddAssessment(a, s.assessment.value),
                           AddRedaction(r, s.redaction.value))
  {
    hide Names;
    assert (shards + [s])[..|shards|] == shards;
    ReadingsConcat(env, rows, Flatten(o.groups));
    forall d { AssessmentAdds(a, s.assessment.value, d); }
    forall k { RedactionAdds(r, s.redaction.value, k); }
  }

  /** The manifest's totals are those of the rows in the shards: documents, tokens, each detector, each kind of removal. */
  lemma {:induction false} TotalsOfRows(env: Env, maximum: int, objects: seq<ObjectResult>, address: ObjectResult -> Address)
    requires forall o :: o in objects ==> Complete(env, maximum, o) && o.licenses != []
    ensures var shards := ShardsOf(objects, address);
            TotalsDescribe(env, Flatten(GroupsIn(objects)), shards, AssessmentSum(shards), RedactionSum(true, shards))
  {
    hide TotalsDescribe, Complete, Describes, AddAssessment, AddRedaction;
    if objects == [] {
      TotalsOfNone(env);
    } else {
      var front, last := objects[..|objects| - 1], objects[|objects| - 1];
      assert forall o :: o in front ==> o in objects;
      assert last in objects && objects == front + [last];
      TotalsOfRows(env, maximum, front, address);
      var shards := ShardsOf(front, address);
      var s := ShardOf(last, address(last));
      ShardDescribes(env, maximum, last, address(last));
      FlattenConcat(GroupsIn(front), last.groups);
      GatherOne(front, last, address, shards, AssessmentSum(shards), RedactionSum(true, shards));
      TotalsOneMore(env, Flatten(GroupsIn(front)), shards, AssessmentSum(shards), RedactionSum(true, shards), last, s, address(last));
    }
  }

  ghost predicate EachDescribes(env: Env, shards: seq<Shard>, objects: seq<ObjectResult>, address: ObjectResult -> Address) {
    && |shards| == |objects| && ShardBytes(shards) == EncodedBytes(objects)
    && forall i :: 0 <= i < |objects| ==> Describes(env, shards[i], objects[i], address(objects[i]))
  }

  lemma BytesOneMore(shards: seq<Shard>, objects: seq<ObjectResult>, s: Shard, o: ObjectResult)
    requires ShardBytes(shards) == EncodedBytes(objects) && s.bytes == o.bytes
    ensures ShardBytes(shards + [s]) == EncodedBytes(objects + [o])
  {
    assert (shards + [s])[..|shards|] == shards && (objects + [o])[..|objects|] == objects;
  }

  lemma EachOneMore(env: Env, shards: seq<Shard>, objects: seq<ObjectResult>, address: ObjectResult -> Address, s: Shard,
                    o: ObjectResult)
    requires EachDescribes(env, shards, objects, address) && Describes(env, s, o, address(o)) && s.bytes == o.bytes
    ensures EachDescribes(env, shards + [s], objects + [o], address)
  {
    hide Describes;
    BytesOneMore(shards, objects, s, o);
    hide ShardBytes, EncodedBytes;
    var more, all := shards + [s], objects + [o];
    forall i | 0 <= i < |all| ensures Describes(env, more[i], all[i], address(all[i])) {
      if i < |objects| { assert more[i] == shards[i] && all[i] == objects[i]; }
    }
  }

  /** Every entry describes its shard, in order, and the encoded sizes add up. */
  lemma {:induction false} EntriesDescribe(env: Env, maximum: int, objects: seq<ObjectResult>, address: ObjectResult -> Address)
    requires forall o :: o in objects ==> Complete(env, maximum, o) && o.licenses != []
    ensures EachDescribes(env, ShardsOf(objects, address), objects, address)
  {
    if objects != [] {
      hide Complete, Describes, EachDescribes;
      var front, last := objects[..|objects| - 1], objects[|objects| - 1];
      assert forall o :: o in front ==> o in objects;
      assert last in objects && objects == front + [last];
      EntriesDescribe(env, maximum, front, address);
      ShardDescribes(env, maximum, last, address(last));
      EachOneMore(env, ShardsOf(front, address), front, address, ShardOf(last, address(last)), last);
    }
  }

  lemma UnderConcat(a: seq<Row>, b: seq<Row>, license: string)
    ensures Under(a + b, license) <==> Under(a, license) || Under(b, license)
  {
    assert forall r :: r in a + b <==> r in a || r in b;
  }

  lemma LicensesOfShard(env: Env, maximum: int, o: ObjectResult, license: string)
    requires Complete(env, maximum, o)
    ensures license in ToSet(o.licenses) <==> Under(Flatten(o.groups), license)
  {
    CountersMeaning(env, Flatten(o.groups));
  }

  /** The manifest names exactly the licenses of the rows. */
  lemma {:induction false} LicensesOfRows(env: Env, maximum: int, objects: seq<ObjectResult>, license: string)
    requires forall o :: o in objects ==> Complete(env, maximum, o)
    ensures license in LicensesIn(objects) <==> Under(Flatten(GroupsIn(objects)), license)
  {
    hide Complete, ToSet, Under;
    if objects == [] {
      assert !Under([], license) by { NoneUnder(license); }
    } else {
      var front, last := objects[..|objects| - 1], objects[|objects| - 1];
      assert forall o :: o in front ==> o in objects;
      assert last in objects;
      LicensesOfRows(env, maximum, front, license);
      FlattenConcat(GroupsIn(front), last.groups);
      LicensesOfShard(env, maximum, last, license);
      UnderConcat(Flatten(GroupsIn(front)), Flatten(last.groups), license);
    }
  }

  lemma NoneUnder(license: string)
    ensures !Under([], license)
  {
  }

  /** What a manifest of an assembly says of the rows that were retained. */
  ghost predicate ManifestDescribes(env: Env, m: Manifest, objects: seq<ObjectResult>, address: ObjectResult -> Address,
                                    rows: seq<Row>) {
    && EachDescribes(env, m.shards, objects, address)
    && m.assessment.Some? && m.redaction.Some?
    && TotalsDescribe(env, rows, m.shards, m.assessment.value, m.redaction.value)
    && (forall license :: license in DeclaredLicenses(m) <==> Under(rows, license))
  }

  lemma BuiltDescribes(env: Env, maximum: int, m: Manifest, objects: seq<ObjectResult>, address: ObjectResult -> Address)
    requires forall o :: o in objects ==> Complete(env, maximum, o) && o.licenses != []
    requires m.assessment.Some? && m.redaction.Some? && ToSet(DeclaredLicenses(m)) == LicensesIn(objects)
    requires Gathered(objects, address, m.shards, m.assessment.value, m.redaction.value)
    ensures ManifestDescribes(env, m, objects, address, Flatten(GroupsIn(objects)))
  {
    hide Complete, EachDescribes, TotalsDescribe, DeclaredLicenses, LicensesIn, AssessmentSum, RedactionSum, Under;
    EntriesDescribe(env, maximum, objects, address);
    TotalsOfRows(env, maximum, objects, address);
    forall license ensures license in DeclaredLicenses(m) <==> Under(Flatten(GroupsIn(objects)), license) {
      assert license in DeclaredLicenses(m) <==> license in ToSet(DeclaredLicenses(m));
      LicensesOfRows(env, maximum, objects, license);
    }
  }
}
