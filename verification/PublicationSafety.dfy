/** What every step of publication keeps, and what therefore holds in every run. */
module PublicationSafety {
  import opened Prelude
  import opened Journal
  import opened Publication

  // ----- The invariant -----

  ghost predicate GoodEntries(assembly: seq<Object>, entries: seq<Entry>, remote: set<Digest>) {
    && (forall e :: e in entries ==> EntryMatches(assembly, e) && e.sha in remote)
    && DistinctDigests(entries)
  }

  /** Nothing is lost: each assembled digest is staged, or recorded and present remotely. */
  ghost predicate NothingLost(assembly: seq<Object>, entries: seq<Entry>, staged: set<Digest>, remote: set<Digest>) {
    forall o :: o in assembly ==> o.sha in staged || (o.sha in Recorded(entries) && o.sha in remote)
  }

  ghost predicate JournalInv(base: string, s: State) {
    s.journal.Some? ==>
      var j := s.journal.value;
      match j.status
      case Assembling => j.assembly.None? && j.publication.None?
      case Assembled => j.assembly.Some? && j.publication.None? && j.assembly.value != []
                        && Honest(j.assembly.value) && AllStaged(j.assembly.value, s.staged)
      case Publishing => j.assembly.Some? ==>
                           && Honest(j.assembly.value) && j.publication.Some? && j.publication.value.baseURL == base
                           && GoodEntries(j.assembly.value, j.publication.value.entries, s.remote)
                           && NothingLost(j.assembly.value, j.publication.value.entries, s.staged, s.remote)
      case Published => && j.assembly.Some? && j.publication.Some? && j.publication.value.baseURL == base
                        && Honest(j.assembly.value) && DistinctObjects(j.assembly.value)
                        && j.publication.value.entries == Canonical(j.assembly.value)
                        && Wanted(j.assembly.value) <= s.remote
  }

  ghost predicate JobOf(assembly: seq<Object>, job: Job) {
    1 <= job.sequence <= |assembly| && assembly[job.sequence - 1] == job.target
  }

  ghost predicate PipelineInv(r: Upload, remote: set<Digest>) {
    && r.next <= |r.assembly|
    && (forall job :: job in r.jobs ==> JobOf(r.assembly, job))
    && (forall job :: job in r.active ==> JobOf(r.assembly, job))
    && (forall o :: o in r.outcomes ==> JobOf(r.assembly, o.job) && (o.ok ==> o.job.target.sha in remote))
  }

  ghost predicate UploadInv(base: string, s: State, r: Upload) {
    && s.journal.Some?
    && var j := s.journal.value;
    && j.status == Publishing && j.assembly == Some(r.assembly) && j.publication.Some?
    && r.base == base
    && GoodEntries(r.assembly, r.entries, s.remote)
    && Recorded(j.publication.value.entries) <= Recorded(r.entries)
    && PipelineInv(r, s.remote)
    && (r.purging.Some? ==> r.purging.value.target.sha in Recorded(j.publication.value.entries))
  }

  ghost predicate ProcInv(base: string, s: State) {
    match s.proc
    case Stopped(result) =>
      result.Some? ==> s.journal.Some? && s.journal.value.status == Published
                       && s.journal.value.assembly == Some(result.value.0)
                       && s.journal.value.publication == Some(result.value.1)
    case Auditing(b, assembly, publication) =>
      && s.journal.Some? && s.journal.value.status == Published && b == base
      && s.journal.value.assembly == Some(assembly) && s.journal.value.publication == Some(publication)
    case Opening(plan, b, workers) =>
      b == base && 1 <= workers <= 32 &&
      (s.journal.Some? ==> s.journal.value.plan == plan && s.journal.value.status in {Assembling, Assembled})
    case Building(plan, b, workers, output, done) =>
      && b == base && 1 <= workers <= 32
      && s.journal.Some? && s.journal.value.status == Assembling && s.journal.value.plan == plan
      && Honest(output) && done <= |output|
      && forall i :: 0 <= i < done ==> output[i].sha in s.staged
    case Resuming(b, workers, assembly) =>
      && b == base && 1 <= workers <= 32
      && s.journal.Some? && s.journal.value.status in {Assembled, Publishing}
      && s.journal.value.assembly == Some(assembly)
    case Uploading(r) => 1 <= r.workers <= 32 && UploadInv(base, s, r)
  }

  ghost predicate Inv(base: string, s: State) {
    JournalInv(base, s) && ProcInv(base, s)
  }

  // ----- Preservation, step by step -----

  lemma RestrictOfGood(assembly: seq<Object>, entries: seq<Entry>, remote: set<Digest>)
    requires GoodEntries(assembly, entries, remote)
    ensures Restrict(entries, Wanted(assembly)) == entries
  {
    forall e | e in entries ensures e.sha in Wanted(assembly) {
      assert EntryMatches(assembly, e);
      assert assembly[e.sequence - 1] in assembly;
    }
    RestrictOfWanted(entries, Wanted(assembly));
  }

  lemma EnterKeeps(base: string, s: State)
    requires Inv(base, s) && s.proc.Resuming?
    ensures Inv(base, Next(s, EnterPublishing))
    ensures var j := s.journal.value; var t := Next(s, EnterPublishing);
            t.proc.Uploading? && t.proc.run.entries == t.journal.value.publication.value.entries
            && t.proc.run.entries == if j.status == Publishing then j.publication.value.entries else []
  {
    var j, assembly := s.journal.value, s.proc.assembly;
    if j.status == Publishing {
      RestrictOfGood(assembly, j.publication.value.entries, s.remote);
      forall e | e in j.publication.value.entries ensures e.sha in s.remote && e.bytes == e.sha.size {
        assert EntryMatches(assembly, e);
      }
    }
  }

  /** Recording one verified upload keeps the record truthful and loses nothing. */
  lemma RecordKeeps(assembly: seq<Object>, entries: seq<Entry>, job: Job, remote: set<Digest>)
    requires GoodEntries(assembly, entries, remote)
    requires JobOf(assembly, job) && job.target.sha in remote
    ensures GoodEntries(assembly, Upsert(entries, EntryOf(job)), remote)
    ensures Recorded(Upsert(entries, EntryOf(job))) == Recorded(entries) + {job.target.sha}
  {
    UpsertEffect(entries, EntryOf(job));
    assert EntryMatches(assembly, EntryOf(job));
  }

  lemma CollectKeeps(base: string, s: State, e: Event)
    requires Inv(base, s) && Enabled(s, e) && (e.Collect? || e.CollectWriteFails?)
    ensures Inv(base, Next(s, e))
  {
    var r := s.proc.run;
    if e.outcome.ok {
      RecordKeeps(r.assembly, r.entries, e.outcome.job, s.remote);
      var entries := Upsert(r.entries, EntryOf(e.outcome.job));
      forall o | o in r.assembly && o.sha !in s.staged
        ensures o.sha in Recorded(entries) && o.sha in s.remote
      {
        assert o.sha in Recorded(s.journal.value.publication.value.entries);
      }
    }
  }

  lemma FinishKeeps(base: string, s: State)
    requires Inv(base, s) && Enabled(s, Finish)
    ensures Inv(base, Next(s, Finish))
    ensures var r := s.proc.run;
            |r.entries| == |r.assembly| ==>
              SortBySequence(Restrict(r.entries, Wanted(r.assembly))) == Canonical(r.assembly)
  {
    var r := s.proc.run;
    RestrictOfGood(r.assembly, r.entries, s.remote);
    if |r.entries| == |r.assembly| {
      CompleteRecordIsCanonical(r.assembly, r.entries);
      CanonicalMeansDistinct(r.assembly, r.entries, s.remote);
    } else {
      SortLength(r.assembly, r.entries, s.remote);
    }
  }

  lemma SortLength(assembly: seq<Object>, entries: seq<Entry>, remote: set<Digest>)
    requires GoodEntries(assembly, entries, remote)
    ensures |SortBySequence(entries)| == |entries|
  {
    forall i, j | 0 <= i < j < |entries| ensures entries[i].sequence != entries[j].sequence {
      assert EntryMatches(assembly, entries[i]) && EntryMatches(assembly, entries[j]);
    }
    SortSorts(entries);
  }

  /** A record as long as the assembly can only exist when the assembly repeats no digest. */
  lemma CanonicalMeansDistinct(assembly: seq<Object>, entries: seq<Entry>, remote: set<Digest>)
    requires GoodEntries(assembly, entries, remote) && Honest(assembly)
    requires |entries| == |assembly|
    ensures DistinctObjects(assembly)
    ensures Wanted(assembly) <= remote
  {
    var t := SortBySequence(entries);
    CompleteRecordIsCanonical(assembly, entries);
    forall i, j | 0 <= i < j < |entries| ensures entries[i].sequence != entries[j].sequence {
      assert EntryMatches(assembly, entries[i]) && EntryMatches(assembly, entries[j]);
    }
    SortSorts(entries);
    forall i, j | 0 <= i < j < |assembly| ensures assembly[i].sha != assembly[j].sha {
      assert t[i].sha == assembly[i].sha && t[j].sha == assembly[j].sha;
      assert t[i] in entries && t[j] in entries && t[i] != t[j];
    }
    forall o | o in assembly ensures o.sha in remote {
      var i :| 0 <= i < |assembly| && assembly[i] == o;
      assert t[i] in entries;
    }
  }

  lemma OpenKeeps(base: string, s: State, e: Event)
    requires Inv(base, s) && Enabled(s, e)
    requires e.Begin? || e.Audit? || e.OpenAssembly? || e.StageObject? || e.Complete?
    requires e.Begin? ==> e.base == base
    ensures Inv(base, Next(s, e))
  {
    if e.Complete? && s.proc.output != [] {
      assert AllStaged(s.proc.output, s.staged);
    }
  }

  lemma UploadStepKeeps(base: string, s: State, e: Event)
    requires Inv(base, s) && Enabled(s, e)
    requires e.QueueNext? || e.StopQueue? || e.Take? || e.Cancel?
    ensures Inv(base, Next(s, e))
  {
  }

  lemma WorkerStepKeeps(base: string, s: State, e: Event)
    requires Inv(base, s) && Enabled(s, e)
    requires e.Publish? || e.PublishFails?
    ensures Inv(base, Next(s, e))
  {
  }

  lemma PurgeStepKeeps(base: string, s: State, e: Event)
    requires Inv(base, s) && Enabled(s, e)
    requires e.Purge? || e.PurgeFails?
    ensures Inv(base, Next(s, e))
  {
  }

  lemma OutsideStepKeeps(base: string, s: State, e: Event)
    requires Inv(base, s) && Enabled(s, e) && (e.OthersUpload? || e.Crash?)
    ensures Inv(base, Next(s, e))
  {
  }

  predicate Preparation(e: Event) {
    e.Begin? || e.Audit? || e.OpenAssembly? || e.StageObject? || e.Complete? || e.EnterPublishing?
  }

  lemma StepKeepsInv(base: string, s: State, e: Event)
    requires Inv(base, s) && Enabled(s, e)
    requires e.Begin? ==> e.base == base
    ensures Inv(base, Next(s, e))
  {
    if e.OthersUpload? || e.Crash? {
      OutsideStepKeeps(base, s, e);
    } else if Preparation(e) {
      if e.EnterPublishing? { EnterKeeps(base, s); } else { OpenKeeps(base, s, e); }
    } else {
      UploadPhaseKeeps(base, s, e);
    }
  }

  lemma UploadPhaseKeeps(base: string, s: State, e: Event)
    requires Inv(base, s) && Enabled(s, e) && !Preparation(e) && !e.OthersUpload? && !e.Crash?
    ensures Inv(base, Next(s, e))
  {
    if e.Collect? || e.CollectWriteFails? {
      CollectKeeps(base, s, e);
    } else if e.Finish? {
      FinishKeeps(base, s);
    } else if e.Publish? || e.PublishFails? {
      WorkerStepKeeps(base, s, e);
    } else if e.Purge? || e.PurgeFails? {
      PurgeStepKeeps(base, s, e);
    } else {
      UploadStepKeeps(base, s, e);
    }
  }

  lemma {:induction false} RunKeepsInv(base: string, s: State, es: seq<Event>)
    requires Inv(base, s) && Runs(s, es) && FixedBase(es, base)
    ensures Inv(base, Exec(s, es))
    decreases |es|
  {
    if es != [] {
      assert es[0] in es;
      StepKeepsInv(base, s, es[0]);
      RunKeepsInv(base, Next(s, es[0]), es[1..]);
    }
  }

  // ----- The safety results -----

  /** In every run, whatever crashes, write errors, cancellations and completion orders it
      contains, a publishing or published journal accounts for every assembled digest. */
  lemma NothingIsEverLost(base: string, s: State, es: seq<Event>)
    requires Initial(s) && Runs(s, es) && FixedBase(es, base)
    ensures var t := Exec(s, es);
            t.journal.Some? && t.journal.value.status in {Publishing, Published} && t.journal.value.assembly.Some? ==>
              t.journal.value.publication.Some?
              && NothingLost(t.journal.value.assembly.value, t.journal.value.publication.value.entries, t.staged, t.remote)
  {
    RunKeepsInv(base, s, es);
    var t := Exec(s, es);
    if t.journal.Some? && t.journal.value.status == Published {
      CanonicalRecordsAll(t.journal.value.assembly.value);
    }
  }

  lemma CanonicalRecordsAll(assembly: seq<Object>)
    ensures Recorded(Canonical(assembly)) == Wanted(assembly)
  {
    var c := Canonical(assembly);
    forall o | o in assembly ensures o.sha in Recorded(c) {
      var i :| 0 <= i < |assembly| && assembly[i] == o;
      assert c[i] in c;
    }
    forall e | e in c ensures e.sha in Wanted(assembly) {
      var i :| 0 <= i < |c| && c[i] == e;
      assert assembly[i] in assembly;
    }
  }

  /** No step removes a staging file whose entry is not durable, or whose object is not remote. */
  lemma RemovedOnlyWhenDurable(base: string, s: State, es: seq<Event>, e: Event, d: Digest)
    requires Initial(s) && Runs(s, es) && FixedBase(es, base)
    requires Enabled(Exec(s, es), e) && (e.Begin? ==> e.base == base)
    requires d in Exec(s, es).staged && d !in Next(Exec(s, es), e).staged
    ensures var t := Exec(s, es);
            && t.journal.Some? && t.journal.value.publication.Some?
            && d in Recorded(t.journal.value.publication.value.entries) && d in t.remote
            && Next(t, e).journal == t.journal
  {
    RunKeepsInv(base, s, es);
  }

  /** A journal only ever says `published` for an assembly without repeated digests, and then
      it lists the assembly position by position and a replayed audit accepts it. */
  lemma PublishedIsExact(base: string, s: State, es: seq<Event>)
    requires Initial(s) && Runs(s, es) && FixedBase(es, base)
    ensures var t := Exec(s, es);
            t.journal.Some? && t.journal.value.status == Published ==>
              && t.journal.value.assembly.Some? && t.journal.value.publication.Some?
              && DistinctObjects(t.journal.value.assembly.value)
              && t.journal.value.publication.value == Record(base, Canonical(t.journal.value.assembly.value))
              && PublicationVerifies(base, t.remote, t.journal.value.assembly.value, t.journal.value.publication.value)
  {
    RunKeepsInv(base, s, es);
    var t := Exec(s, es);
    if t.journal.Some? && t.journal.value.status == Published {
      CanonicalVerifies(base, t.remote, t.journal.value.assembly.value);
    }
  }

  /** The fixed base URL is needed: resuming under another one forgets exactly the objects that
      were recorded and purged.  They are then neither staged nor recorded. */
  lemma ChangedBaseForgets(base: string, s: State, other: string, workers: nat)
    requires Inv(base, s) && s.proc.Stopped? && 1 <= workers <= 32 && other != base
    requires s.journal.Some? && s.journal.value.status == Publishing && s.journal.value.assembly.Some?
    ensures var es := [Begin(s.journal.value.plan, other, workers), EnterPublishing];
            var j := s.journal.value;
            && Runs(s, es)
            && Exec(s, es).journal == Some(j.(publication := Some(Record(other, []))))
            && (NothingLost(j.assembly.value, [], Exec(s, es).staged, Exec(s, es).remote)
                <==> AllStaged(j.assembly.value, s.staged))
  {
    var es := [Begin(s.journal.value.plan, other, workers), EnterPublishing];
    var s1 := Next(s, es[0]);
    assert s1 == s.(proc := Resuming(other, workers, s.journal.value.assembly.value));
    assert es[1..] == [EnterPublishing];
    assert es[1..][1..] == [];
    var s2 := Next(s1, EnterPublishing);
    assert Runs(s2, []);
    assert Runs(s1, [EnterPublishing]);
    assert Exec(s1, es[1..]) == Exec(s2, []) == s2;
  }
}
