/**
 Recovery: from every reachable stopped state, one uninterrupted call finishes.

 A clean run contains no fault: no crash, no cancellation, no failed upload,
 write or removal.  For clean runs the module proves that every step makes
 progress, that some step is enabled until the call returns, and what it returns.
 All schedules of producer, workers and collector are covered.
 */
module PublicationRecovery {
  import opened Prelude
  import opened Journal
  import opened Publication
  import opened PublicationSafety
  import PublicationCalls

  ghost predicate Clean(e: Event) {
    match e
    case OpenAssembly(output) => output != [] && DistinctObjects(output)
    case Audit => true
    case StageObject => true
    case Complete => true
    case EnterPublishing => true
    case QueueNext => true
    case Take => true
    case Publish(_) => true
    case Collect(_) => true
    case Purge => true
    case Finish => true
    case _ => false
  }

  // ----- The invariant of a clean upload phase -----

  function InFlight(r: Upload): set<Job> {
    ToSet(r.jobs) + r.active + (set o | o in r.outcomes :: o.job)
  }

  /** Every queued or travelling job is at one place only. */
  ghost predicate OnePlace(r: Upload) {
    && NoDuplicates(r.jobs)
    && (forall job :: job in r.jobs ==> job !in r.active)
    && (forall o :: o in r.outcomes ==> o.ok && o.job !in r.active && o.job !in r.jobs)
  }

  /** Positions before `next` are recorded or in flight; in-flight digests are not recorded. */
  ghost predicate Accounted(r: Upload) {
    && r.next <= |r.assembly|
    && (forall i :: 0 <= i < r.next ==>
          r.assembly[i].sha in Recorded(r.entries) || Job(i + 1, r.assembly[i]) in InFlight(r))
    && (forall job :: job in InFlight(r) ==>
          job.sequence <= r.next && job.target.sha !in Recorded(r.entries))
    && (forall i :: r.next <= i < |r.assembly| ==>
          (r.assembly[i].sha in Recorded(r.entries) <==> r.assembly[i].sha in r.published))
  }

  ghost predicate CleanUpload(s: State, r: Upload) {
    && !r.closed && !r.failed && !r.cancelled && !r.interrupted
    && DistinctObjects(r.assembly)
    && OnePlace(r)
    && Accounted(r)
    && r.published <= Recorded(r.entries)
    && s.journal.Some? && s.journal.value.publication.Some?
    && s.journal.value.publication.value.entries == r.entries
    && (r.purging.Some? ==> r.purging.value.target.sha !in r.published)
  }

  ghost predicate CleanInv(base: string, s: State) {
    && Inv(base, s)
    && (s.journal.Some? && s.journal.value.assembly.Some? ==> DistinctObjects(s.journal.value.assembly.value))
    && match s.proc
       case Stopped(result) => result.Some?
       case Building(_, _, _, output, _) => output != [] && DistinctObjects(output)
       case Uploading(r) => CleanUpload(s, r)
       case _ => true
  }

  // ----- Clean steps keep it -----

  lemma JobsDiffer(assembly: seq<Object>, a: Job, b: Job)
    requires DistinctObjects(assembly) && JobOf(assembly, a) && JobOf(assembly, b)
    requires a.target.sha == b.target.sha
    ensures a == b
  {
  }

  lemma InFlightJobs(base: string, s: State, job: Job)
    requires Inv(base, s) && s.proc.Uploading? && job in InFlight(s.proc.run)
    ensures JobOf(s.proc.run.assembly, job)
  {
  }

  lemma EnterClean(base: string, s: State)
    requires CleanInv(base, s) && s.proc.Resuming?
    ensures CleanInv(base, Next(s, EnterPublishing)) && Next(s, EnterPublishing).proc.Uploading?
  {
    EnterKeeps(base, s);
    var r := Next(s, EnterPublishing).proc.run;
    assert InFlight(r) == {};
  }

  /** Passing over a recorded object keeps the account. */
  lemma SkipMoves(r: Upload)
    requires OnePlace(r) && Accounted(r) && r.next < |r.assembly| && r.assembly[r.next].sha in r.published
    ensures var r' := r.(next := r.next + 1); OnePlace(r') && Accounted(r')
  {
    assert InFlight(r.(next := r.next + 1)) == InFlight(r);
  }

  /** Queueing an object puts it in flight, where it was not before. */
  lemma QueueMoves(r: Upload)
    requires OnePlace(r) && Accounted(r) && r.next < |r.assembly| && r.assembly[r.next].sha !in r.published
    ensures var r' := r.(next := r.next + 1, jobs := r.jobs + [Job(r.next + 1, r.assembly[r.next])]);
            OnePlace(r') && Accounted(r')
  {
    var job := Job(r.next + 1, r.assembly[r.next]);
    var r' := r.(next := r.next + 1, jobs := r.jobs + [job]);
    assert InFlight(r') == InFlight(r) + {job};
    assert job !in InFlight(r);
  }

  /** Moving jobs about changes nothing else that a clean state needs. */
  lemma MovedClean(base: string, s: State, t: State)
    requires CleanInv(base, s) && Inv(base, t) && s.proc.Uploading? && t.proc.Uploading? && t.journal == s.journal
    requires var r, r' := s.proc.run, t.proc.run;
             r' == r.(next := r'.next, jobs := r'.jobs, active := r'.active) && OnePlace(r') && Accounted(r')
    ensures CleanInv(base, t)
  {
    hide Inv, OnePlace, Accounted, DistinctObjects;
  }

  lemma QueueNextIs(s: State)
    requires Enabled(s, QueueNext)
    ensures s.proc.Uploading? && s.proc.run.next < |s.proc.run.assembly|
    ensures var r := s.proc.run;
            Next(s, QueueNext) ==
            s.(proc := Uploading(if r.assembly[r.next].sha in r.published then r.(next := r.next + 1)
                                 else r.(next := r.next + 1, jobs := r.jobs + [Job(r.next + 1, r.assembly[r.next])])))
  {
  }

  lemma QueueClean(base: string, s: State)
    requires CleanInv(base, s) && Enabled(s, QueueNext)
    ensures CleanInv(base, Next(s, QueueNext))
  {
    StepKeepsInv(base, s, QueueNext);
    QueueNextIs(s);
    UploadIsClean(base, s);
    hide Inv, OnePlace, Accounted, CleanInv, Enabled, Next;
    var r := s.proc.run;
    if r.assembly[r.next].sha in r.published {
      SkipMoves(r);
    } else {
      QueueMoves(r);
    }
    MovedClean(base, s, Next(s, QueueNext));
  }

  lemma UploadIsClean(base: string, s: State)
    requires CleanInv(base, s) && s.proc.Uploading?
    ensures OnePlace(s.proc.run) && Accounted(s.proc.run)
  {
  }

  lemma TakeMoves(r: Upload)
    requires OnePlace(r) && Accounted(r) && r.jobs != []
    ensures var r' := r.(jobs := r.jobs[1..], active := r.active + {r.jobs[0]});
            OnePlace(r') && Accounted(r')
  {
    assert r.jobs == [r.jobs[0]] + r.jobs[1..];
    assert InFlight(r.(jobs := r.jobs[1..], active := r.active + {r.jobs[0]})) == InFlight(r);
  }

  lemma TakeClean(base: string, s: State)
    requires CleanInv(base, s) && Enabled(s, Take)
    ensures CleanInv(base, Next(s, Take))
  {
    StepKeepsInv(base, s, Take);
    UploadIsClean(base, s);
    hide Inv, OnePlace, Accounted, CleanInv;
    TakeMoves(s.proc.run);
    MovedClean(base, s, Next(s, Take));
  }

  lemma PrepareClean(base: string, s: State, e: Event)
    requires CleanInv(base, s) && Enabled(s, e) && Clean(e)
    requires e.Audit? || e.OpenAssembly? || e.StageObject? || e.Complete?
    ensures CleanInv(base, Next(s, e))
  {
    StepKeepsInv(base, s, e);
    if e.Audit? {
      CanonicalVerifies(base, s.remote, s.proc.assembly);
    }
  }

  lemma PurgeClean(base: string, s: State)
    requires CleanInv(base, s) && Enabled(s, Purge)
    ensures CleanInv(base, Next(s, Purge))
  {
    StepKeepsInv(base, s, Purge);
    assert InFlight(Next(s, Purge).proc.run) == InFlight(s.proc.run);
  }

  lemma PublishClean(base: string, s: State, job: Job)
    requires CleanInv(base, s) && Enabled(s, Publish(job))
    ensures CleanInv(base, Next(s, Publish(job)))
  {
    StepKeepsInv(base, s, Publish(job));
    var r := s.proc.run;
    var r' := Next(s, Publish(job)).proc.run;
    assert Outcome(job, true) in r'.outcomes;
    assert InFlight(r') == InFlight(r);
  }

  /** A recorded object leaves flight, and no other one in flight or still to come has its digest. */
  lemma CollectMoves(r: Upload, outcome: Outcome, entries: seq<Entry>)
    requires OnePlace(r) && Accounted(r) && outcome in r.outcomes && DistinctObjects(r.assembly)
    requires forall job :: job in InFlight(r) ==> JobOf(r.assembly, job)
    requires Recorded(entries) == Recorded(r.entries) + {outcome.job.target.sha}
    ensures var r' := r.(outcomes := r.outcomes - {outcome}, entries := entries, purging := Some(outcome.job));
            OnePlace(r') && Accounted(r')
  {
    hide Recorded;
    var r' := r.(outcomes := r.outcomes - {outcome}, entries := entries, purging := Some(outcome.job));
    assert InFlight(r') == InFlight(r) - {outcome.job} by {
      forall o | o in r'.outcomes ensures o.job != outcome.job {
        assert o != outcome && o.ok == outcome.ok;
      }
    }
    assert outcome.job in InFlight(r);
    forall job | job in InFlight(r') ensures job.target.sha !in Recorded(r'.entries) {
      if job.target.sha == outcome.job.target.sha {
        JobsDiffer(r.assembly, job, outcome.job);
      }
    }
    forall i | r.next <= i < |r.assembly| ensures r.assembly[i].sha != outcome.job.target.sha {
    }
  }

  lemma CollectClean(base: string, s: State, outcome: Outcome)
    requires CleanInv(base, s) && Enabled(s, Collect(outcome))
    ensures CleanInv(base, Next(s, Collect(outcome)))
  {
    StepKeepsInv(base, s, Collect(outcome));
    var r := s.proc.run;
    assert outcome.job in InFlight(r) && outcome.ok;
    forall job | job in InFlight(r) ensures JobOf(r.assembly, job) { InFlightJobs(base, s, job); }
    RecordKeeps(r.assembly, r.entries, outcome.job, s.remote);
    CollectMoves(r, outcome, Upsert(r.entries, EntryOf(outcome.job)));
    assert outcome.job.target.sha !in r.published;
    hide OnePlace, Accounted, InFlight, DistinctObjects, Inv;
  }

  lemma FinishClean(base: string, s: State)
    requires CleanInv(base, s) && Enabled(s, Finish)
    ensures var t := Next(s, Finish);
            && CleanInv(base, t)
            && t.proc == Stopped(Some((s.proc.run.assembly, Record(base, Canonical(s.proc.run.assembly)))))
  {
    var r := s.proc.run;
    assert InFlight(r) == {};
    assert forall i :: 0 <= i < |r.assembly| ==> r.assembly[i].sha in Recorded(r.entries);
    AllRecordedMeansComplete(r.assembly, r.entries, s.remote);
    FinishKeeps(base, s);
  }

  /** Distinct digests, all recorded, no digest recorded twice: as many entries as objects. */
  lemma AllRecordedMeansComplete(assembly: seq<Object>, entries: seq<Entry>, remote: set<Digest>)
    requires DistinctObjects(assembly) && GoodEntries(assembly, entries, remote)
    requires forall i :: 0 <= i < |assembly| ==> assembly[i].sha in Recorded(entries)
    ensures |entries| == |assembly|
  {
    DistinctCount(assembly);
    DistinctEntryCount(entries);
    forall o | o in assembly ensures o.sha in Recorded(entries) {
      var i :| 0 <= i < |assembly| && assembly[i] == o;
    }
    forall e | e in entries ensures e.sha in Wanted(assembly) {
      assert EntryMatches(assembly, e) && assembly[e.sequence - 1] in assembly;
    }
    assert Wanted(assembly) == Recorded(entries);
  }

  lemma {:induction false} DistinctCount(assembly: seq<Object>)
    requires DistinctObjects(assembly)
    ensures |Wanted(assembly)| == |assembly|
  {
    if assembly != [] {
      var front, last := assembly[..|assembly| - 1], assembly[|assembly| - 1];
      DistinctCount(front);
      assert assembly == front + [last];
      assert Wanted(assembly) == Wanted(front) + {last.sha};
      assert last.sha !in Wanted(front);
    }
  }

  lemma {:induction false} DistinctEntryCount(entries: seq<Entry>)
    requires DistinctDigests(entries)
    ensures |Recorded(entries)| == |entries|
  {
    if entries != [] {
      var front, last := entries[..|entries| - 1], entries[|entries| - 1];
      DistinctEntryCount(front);
      assert entries == front + [last];
      assert Recorded(entries) == Recorded(front) + {last.sha};
      assert last.sha !in Recorded(front);
    }
  }

  lemma CleanStep(base: string, s: State, e: Event)
    requires CleanInv(base, s) && Enabled(s, e) && Clean(e)
    ensures CleanInv(base, Next(s, e))
  {
    if e.EnterPublishing? {
      EnterClean(base, s);
    } else if Preparation(e) {
      PrepareClean(base, s, e);
    } else {
      CleanUploadStep(base, s, e);
    }
  }

  lemma CleanUploadStep(base: string, s: State, e: Event)
    requires CleanInv(base, s) && Enabled(s, e) && Clean(e) && !Preparation(e)
    ensures CleanInv(base, Next(s, e))
  {
    match e
    case QueueNext => QueueClean(base, s);
    case Take => TakeClean(base, s);
    case Publish(job) => PublishClean(base, s, job);
    case Collect(outcome) => CollectClean(base, s, outcome);
    case Finish => FinishClean(base, s);
    case Purge => PurgeClean(base, s);
  }

  // ----- Progress -----

  /** Steps left, once the output of an assembly is known; `n` bounds the assemblies. */
  function Rank(s: State, n: nat): int {
    match s.proc
    case Stopped(_) => 0
    case Auditing(_, _, _) => 1
    case Opening(_, _, _) => 6 * n + 5
    case Building(_, _, _, output, done) => |output| - done + 5 * |output| + 4
    case Resuming(_, _, assembly) => 5 * |assembly| + 3
    case Uploading(r) => UploadRank(r)
  }

  function UploadRank(r: Upload): int {
    5 * (|r.assembly| - r.next) + 4 * |r.jobs| + 3 * |r.active| + 2 * |r.outcomes|
    + (if r.purging.Some? then 1 else 0) + 1
  }

  ghost predicate Bounded(s: State, e: Event, n: nat) {
    && (e.OpenAssembly? ==> |e.output| <= n)
    && (s.journal.Some? && s.journal.value.assembly.Some? ==> |s.journal.value.assembly.value| <= n)
  }

  lemma TakeProgress(r: Upload)
    requires OnePlace(r) && r.jobs != []
    ensures UploadRank(r.(jobs := r.jobs[1..], active := r.active + {r.jobs[0]})) < UploadRank(r)
  {
    assert r.jobs[0] !in r.active;
  }

  lemma PublishProgress(r: Upload, job: Job)
    requires OnePlace(r) && job in r.active
    ensures UploadRank(r.(active := r.active - {job}, outcomes := r.outcomes + {Outcome(job, true)})) < UploadRank(r)
  {
    assert Outcome(job, true) !in r.outcomes;
  }

  lemma UploadProgress(s: State, e: Event, n: nat)
    requires s.proc.Uploading? && EnabledUpload(s.proc.run, s.staged, e) && OnePlace(s.proc.run)
    requires e.QueueNext? || e.Take? || e.Publish? || e.Purge?
    requires s.proc.run.next <= |s.proc.run.assembly|
    ensures Rank(NextUpload(s, s.proc.run, e), n) < Rank(s, n)
  {
    var r := s.proc.run;
    match e
    case Take => TakeProgress(r);
    case Publish(job) => PublishProgress(r, job);
    case _ =>
  }

  lemma CollectorProgress(s: State, e: Event, n: nat)
    requires s.proc.Uploading? && EnabledUpload(s.proc.run, s.staged, e) && OnePlace(s.proc.run)
    requires s.proc.run.next <= |s.proc.run.assembly|
    requires e.Collect? || e.Finish?
    ensures Rank(NextUpload(s, s.proc.run, e), n) < Rank(s, n)
  {
    var r := s.proc.run;
    if e.Collect? {
      assert |r.outcomes - {e.outcome}| == |r.outcomes| - 1;
    }
  }

  lemma CleanStepProgress(base: string, s: State, e: Event, n: nat)
    requires CleanInv(base, s) && Enabled(s, e) && Clean(e) && Bounded(s, e, n)
    ensures Rank(Next(s, e), n) < Rank(s, n)
  {
    if e.EnterPublishing? {
      EnterKeeps(base, s);
    } else if s.proc.Uploading? {
      if e.Collect? || e.Finish? { CollectorProgress(s, e, n); } else { UploadProgress(s, e, n); }
    }
  }

  /** The same while uploads are under way. */
  lemma UploadEnabled(base: string, s: State) returns (e: Event)
    requires CleanInv(base, s) && s.proc.Uploading?
    ensures EnabledUpload(s.proc.run, s.staged, e) && Clean(e) && !Preparation(e) && !e.OthersUpload? && !e.Crash?
  {
    var r := s.proc.run;
    e := Finish;
    if r.purging.Some? {
      e := Purge;
    } else if r.outcomes != {} {
      var o :| o in r.outcomes;
      e := Collect(o);
    } else if r.active != {} {
      var job :| job in r.active;
      assert job in InFlight(r);
      InFlightJobs(base, s, job);
      assert r.assembly[job.sequence - 1] in r.assembly;
      e := Publish(job);
    } else if r.jobs != [] {
      e := Take;
    } else if r.next < |r.assembly| {
      e := QueueNext;
    }
  }

  /** Until the call has returned, some clean step is enabled: no schedule deadlocks. */
  lemma SomethingEnabled(base: string, s: State)
    requires CleanInv(base, s) && !s.proc.Stopped?
    ensures exists e :: Enabled(s, e) && Clean(e)
  {
    if s.proc.Uploading? {
      var e := UploadEnabled(base, s);
      assert Enabled(s, e) by { hide EnabledUpload, CleanInv; }
    } else {
      BuildingBound(base, s);
      hide CleanInv, EnabledUpload;
      var e := match s.proc
               case Auditing(_, _, _) => Audit
               case Opening(_, _, _) => OpenAssembly([Object(Digest("", 0), 0)])
               case Building(_, _, _, output, done) => if done < |output| then StageObject else Complete
               case _ => EnterPublishing;
      assert Enabled(s, e) && Clean(e);
    }
  }

  lemma BuildingBound(base: string, s: State)
    requires CleanInv(base, s)
    ensures s.proc.Building? ==> s.proc.done <= |s.proc.output|
  {
  }

  // ----- Whole clean runs -----

  /** What the durable record held when the call began. */
  function RecordedAtStart(j: Option<Journal>): set<Digest> {
    if j.Some? && j.value.status in {Publishing, Published} && j.value.assembly.Some? && j.value.publication.Some?
    then Recorded(j.value.publication.value.entries) else {}
  }

  /** Digests recorded at the start are never uploaded again nor removed from staging. */
  ghost predicate Untouched(s: State, kept: set<Digest>) {
    match s.proc
    case Stopped(_) => true
    case Auditing(_, _, _) => true
    case Resuming(_, _, _) => kept == RecordedAtStart(s.journal)
    case Uploading(r) => kept == r.published
    case _ => kept == {}
  }

  lemma UntouchedStep(base: string, s: State, e: Event, kept: set<Digest>)
    requires CleanInv(base, s) && Enabled(s, e) && Clean(e) && Untouched(s, kept)
    ensures Untouched(Next(s, e), kept)
    ensures e.Publish? ==> e.job.target.sha !in kept
    ensures s.staged * kept <= Next(s, e).staged
  {
    if e.EnterPublishing? {
      EnterKeeps(base, s);
    } else if e.Publish? {
      assert e.job in InFlight(s.proc.run);
    }
  }

  /** Everything a clean run carries along: the invariant, what must stay untouched, the bound. */
  ghost predicate OnTrack(base: string, s: State, kept: set<Digest>, n: nat) {
    && CleanInv(base, s) && Untouched(s, kept)
    && (s.journal.Some? && s.journal.value.assembly.Some? ==> |s.journal.value.assembly.value| <= n)
    && (s.proc.Building? ==> |s.proc.output| <= n)
  }

  lemma OnTrackStep(base: string, s: State, e: Event, kept: set<Digest>, n: nat)
    requires OnTrack(base, s, kept, n) && Enabled(s, e) && Clean(e) && (e.OpenAssembly? ==> |e.output| <= n)
    ensures OnTrack(base, Next(s, e), kept, n)
    ensures Rank(Next(s, e), n) < Rank(s, n)
    ensures e.Publish? ==> e.job.target.sha !in kept
    ensures s.staged * kept <= Next(s, e).staged
  {
    CleanStep(base, s, e);
    CleanStepProgress(base, s, e, n);
    UntouchedStep(base, s, e, kept);
  }

  lemma {:induction false} CleanRun(base: string, s: State, es: seq<Event>, kept: set<Digest>, n: nat)
    requires OnTrack(base, s, kept, n) && Runs(s, es)
    requires forall e :: e in es ==> Clean(e) && (e.OpenAssembly? ==> |e.output| <= n)
    ensures OnTrack(base, Exec(s, es), kept, n)
    ensures |es| <= Rank(s, n)
    ensures forall e :: e in es && e.Publish? ==> e.job.target.sha !in kept
    ensures s.staged * kept <= Exec(s, es).staged
    decreases |es|
  {
    if es == [] {
      RankNonNegative(base, s, n);
    } else {
      assert es == [es[0]] + es[1..];
      OnTrackStep(base, s, es[0], kept, n);
      CleanRun(base, Next(s, es[0]), es[1..], kept, n);
    }
  }

  lemma RankNonNegative(base: string, s: State, n: nat)
    requires CleanInv(base, s)
    ensures Rank(s, n) >= 0
  {
  }

  lemma BeginClean(base: string, s: State, plan: string, workers: nat)
    requires Inv(base, s) && s.proc.Stopped? && 1 <= workers <= 32
    requires s.journal.Some? ==> s.journal.value.plan == plan
    requires s.journal.Some? && s.journal.value.assembly.Some? ==> DistinctObjects(s.journal.value.assembly.value)
    ensures CleanInv(base, Next(s, Begin(plan, base, workers)))
    ensures Untouched(Next(s, Begin(plan, base, workers)), RecordedAtStart(s.journal))
    ensures !Next(s, Begin(plan, base, workers)).proc.Stopped?
    ensures Next(s, Begin(plan, base, workers)).staged == s.staged
  {
    StepKeepsInv(base, s, Begin(plan, base, workers));
  }

  lemma OfThePlan(base: string, s: State, plan: string, workers: nat, es: seq<Event>)
    requires Inv(base, s) && s.proc.Stopped? && (s.journal.Some? ==> s.journal.value.plan == plan)
    requires Runs(Next(s, Begin(plan, base, workers)), es) && forall e :: e in es ==> Clean(e)
    ensures var t := Exec(Next(s, Begin(plan, base, workers)), es);
            PublicationCalls.Succeeded(t) ==> t.journal.Some? && t.journal.value.plan == plan
  {
    PublicationCalls.StepKeepsPlanInv(s, Begin(plan, base, workers), Some(plan));
    assert forall k :: 0 <= k < |es| ==> es[k] in es;
    PublicationCalls.RunKeepsPlanInv(Next(s, Begin(plan, base, workers)), es, Some(plan), |es|);
  }

  /** The recovery theorem.  Take any run with crashes and errors, ending in a stopped state, and
      call ExecutePublication again with the same plan and publisher.  However its goroutines are
      scheduled, a fault-free call takes boundedly many steps, can always take another one until it
      returns, and returns successfully: the journal is published, the result lists the assembly
      position by position and passes a replayed audit.  Nothing recorded before is uploaded again
      (nor is a leftover staging file of it ever removed). */
  lemma RecoveryCompletes(base: string, s0: State, before: seq<Event>, plan: string, workers: nat,
                          es: seq<Event>, n: nat)
    requires Initial(s0) && Runs(s0, before) && FixedBase(before, base)
    requires var s := Exec(s0, before);
             && s.proc.Stopped? && 1 <= workers <= 32
             && (s.journal.Some? ==> s.journal.value.plan == plan)
             && (s.journal.Some? && s.journal.value.assembly.Some? ==>
                   DistinctObjects(s.journal.value.assembly.value) && |s.journal.value.assembly.value| <= n)
             && Runs(Next(s, Begin(plan, base, workers)), es)
    requires forall e :: e in es ==> Clean(e)
    requires forall e :: e in es && e.OpenAssembly? ==> |e.output| <= n
    ensures var s := Exec(s0, before);
            var t := Exec(Next(s, Begin(plan, base, workers)), es);
            && |es| <= 6 * n + 5
            && (!t.proc.Stopped? ==> exists e :: Clean(e) && Enabled(t, e))
            && (t.proc.Stopped? ==>
                  && t.proc.result.Some? && t.journal.Some? && t.journal.value.status == Published
                  && t.journal.value.plan == plan
                  && t.journal.value.assembly == Some(t.proc.result.value.0)
                  && t.journal.value.publication == Some(t.proc.result.value.1)
                  && t.proc.result.value.1 == Record(base, Canonical(t.proc.result.value.0))
                  && PublicationVerifies(base, t.remote, t.proc.result.value.0, t.proc.result.value.1))
            && (forall e :: e in es && e.Publish? ==> e.job.target.sha !in RecordedAtStart(s.journal))
            && s.staged * RecordedAtStart(s.journal) <= t.staged
  {
    RunKeepsInv(base, s0, before);
    var s := Exec(s0, before);
    BeginClean(base, s, plan, workers);
    var b := Next(s, Begin(plan, base, workers));
    CleanRun(base, b, es, RecordedAtStart(s.journal), n);
    var t := Exec(b, es);
    OfThePlan(base, s, plan, workers, es);
    if t.proc.Stopped? {
      CanonicalVerifies(base, t.remote, t.proc.result.value.0);
    } else {
      SomethingEnabled(base, t);
    }
  }
}
