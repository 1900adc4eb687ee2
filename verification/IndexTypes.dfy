/** The index records that ingestion writes and corpus selection reads. */
module IndexTypes {
  import opened Prelude
  import opened Measures

  datatype Redaction = Redaction(policy: string, namesRetained: bool, emailAddresses: int, ipAddresses: int,
                                 phoneNumbers: int, mailRoutingHeaders: int, credentials: int)

  /** The record counts of the three content detectors. */
  datatype Assessment = Assessment(email: int, repetitive: int, boilerplate: int)

  const NoAssessment := Assessment(0, 0, 0)

  function AddAssessment(total: Assessment, a: Assessment): Assessment {
    Assessment(total.email + a.email, total.repetitive + a.repetitive, total.boilerplate + a.boilerplate)
  }

  /** The kind and the schema of a manifest's records. */
  datatype Format = Format(conversation: bool, schema: int)

  /** From this schema on, text records carry the verdicts of the content detectors. */
  const TEXT_RECORD_SCHEMA := 2

  predicate Assessed(f: Format) { f.conversation || f.schema >= TEXT_RECORD_SCHEMA }

  /** `recipe` is the writer recipe of a shard that overrides the conversion of its manifest. */
  datatype Shard = Shard(url: string, sha: string, license: string, licenses: seq<string>,
                         usage: map<string, Measures>, sources: seq<string>,
                         docs: int, tokens: int, bytes: int, modalities: Modalities,
                         assessment: Option<Assessment>, redaction: Option<Redaction>, recipe: Option<string>)

  /** A reference to a sub-manifest object with its declared totals. */
  datatype Rollup = Rollup(url: string, sha: string, count: int, docs: int, tokens: int, bytes: int,
                           modalities: Modalities)

  /** A decoded sub-manifest; `encodedBytes` is the length of the object it was decoded from. */
  datatype SubManifest = SubManifest(kind: string, schema: int, shards: seq<Shard>, children: seq<Rollup>,
                                     encodedBytes: int)

  function ShardMeasures(s: Shard): Measures { Measures(1, s.docs, s.tokens, s.bytes) }

  /** EffectiveLicenses: the shard's own licenses, else those of its manifest. */
  function EffectiveLicenses(license: string, licenses: seq<string>, s: Shard): seq<string> {
    if s.licenses != [] then s.licenses
    else if s.license != "" then [s.license]
    else if licenses != [] then licenses
    else if license != "" then [license]
    else []
  }
}
