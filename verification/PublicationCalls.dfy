/**
 What a call of ExecutePublication answers to: the plan it was given, the faults
 it met, the limit on its workers, and the objects that were staged.
 */
module PublicationCalls {
  import opened Prelude
  import opened Journal
  import opened Publication
  import opened PublicationSafety

  /** The call that a run is in or was in last. */
  ghost predicate LastCall(es: seq<Event>, i: nat) {
    i < |es| && es[i].Begin? && forall k :: i < k < |es| ==> !es[k].Begin?
  }

  predicate Succeeded(s: State) { s.proc.Stopped? && s.proc.result.Some? }

  // ----- Plans -----

  /** Whatever was loaded, opened, built or resumed belongs to the plan of the call. */
  predicate PlanInv(s: State, plan: Option<string>) {
    match s.proc
    case Stopped(result) => result.Some? ==> s.journal.Some? && plan == Some(s.journal.value.plan)
    case Opening(p, _, _) => plan == Some(p) && (s.journal.Some? ==> s.journal.value.plan == p)
    case Building(p, _, _, _, _) => plan == Some(p) && s.journal.Some? && s.journal.value.plan == p
    case _ => s.journal.Some? && plan == Some(s.journal.value.plan)
  }

  function PlanAfter(plan: Option<string>, e: Event): Option<string> { if e.Begin? then Some(e.plan) else plan }

  lemma UploadKeepsPlan(s: State, e: Event)
    requires Enabled(s, e) && s.proc.Uploading? && !Preparation(e)
    ensures var t := Next(s, e);
            (s.journal.Some? ==> t.journal.Some? && t.journal.value.plan == s.journal.value.plan)
            && (s.journal.Some? && e != Crash && Succeeded(t) ==> t.journal.Some?)
            && (t.proc.Uploading? || t.proc.Stopped?)
  {
  }

  lemma StepKeepsPlan(s: State, e: Event)
    requires Enabled(s, e)
    ensures s.journal.Some? ==> Next(s, e).journal.Some? && Next(s, e).journal.value.plan == s.journal.value.plan
  {
    if s.proc.Uploading? && !Preparation(e) { UploadKeepsPlan(s, e); }
  }

  lemma StepKeepsPlanInv(s: State, e: Event, plan: Option<string>)
    requires Enabled(s, e) && PlanInv(s, plan)
    ensures PlanInv(Next(s, e), PlanAfter(plan, e))
  {
    StepKeepsPlan(s, e);
    if s.proc.Uploading? && !Preparation(e) { UploadKeepsPlan(s, e); }
  }

  /** A journal, once written, belongs to one plan for good. */
  lemma {:induction false} JournalKeepsPlan(s: State, es: seq<Event>)
    requires Runs(s, es) && s.journal.Some?
    ensures Exec(s, es).journal.Some? && Exec(s, es).journal.value.plan == s.journal.value.plan
    decreases |es|
  {
    if es != [] {
      StepKeepsPlan(s, es[0]);
      JournalKeepsPlan(Next(s, es[0]), es[1..]);
    }
  }

  lemma {:induction false} RunKeepsPlanInv(s: State, es: seq<Event>, plan: Option<string>, i: nat)
    requires Runs(s, es) && PlanInv(s, plan)
    requires LastCall(es, i) || ((forall k :: 0 <= k < |es| ==> !es[k].Begin?) && i == |es|)
    ensures PlanInv(Exec(s, es), if i < |es| then Some(es[i].plan) else plan)
    decreases |es|
  {
    if es != [] {
      StepKeepsPlanInv(s, es[0], plan);
      if i == 0 {
        RunKeepsPlanInv(Next(s, es[0]), es[1..], Some(es[0].plan), |es| - 1);
      } else {
        RunKeepsPlanInv(Next(s, es[0]), es[1..], PlanAfter(plan, es[0]), i - 1);
      }
    }
  }

  /** A call succeeds only with the journal of its own plan. */
  lemma SuccessIsOfThePlan(s: State, es: seq<Event>, i: nat)
    requires s.proc == Stopped(None) && Runs(s, es) && LastCall(es, i) && Succeeded(Exec(s, es))
    ensures Exec(s, es).journal.Some? && Exec(s, es).journal.value.plan == es[i].plan
  {
    RunKeepsPlanInv(s, es, None, i);
  }

  /** A staging directory of another plan is refused whatever its journal says, and nothing durable changes. */
  lemma OtherPlanRefused(s: State, plan: string, base: string, workers: nat)
    requires s.proc.Stopped? && s.journal.Some? && s.journal.value.plan != plan
    ensures Runs(s, [Begin(plan, base, workers)])
    ensures Exec(s, [Begin(plan, base, workers)]) == s.(proc := Stopped(None))
  {
    OneEvent(s, Begin(plan, base, workers));
  }

  lemma OneEvent(s: State, e: Event)
    requires Enabled(s, e)
    ensures Runs(s, [e]) && Exec(s, [e]) == Next(s, e)
  {
    assert [e][1..] == [];
    assert Runs(Next(s, e), []);
  }

  lemma TwoEvents(s: State, e: Event, f: Event)
    requires Enabled(s, e) && Enabled(Next(s, e), f)
    ensures Runs(s, [e, f]) && Exec(s, [e, f]) == Next(Next(s, e), f)
  {
    assert [e, f][1..] == [f];
    OneEvent(Next(s, e), f);
  }

  /** So is a number of workers outside 1..32. */
  lemma WorkersRefused(s: State, plan: string, base: string, workers: nat)
    requires s.proc.Stopped? && !(1 <= workers <= 32)
    ensures Runs(s, [Begin(plan, base, workers)])
    ensures Exec(s, [Begin(plan, base, workers)]) == s.(proc := Stopped(None))
  {
    OneEvent(s, Begin(plan, base, workers));
  }

  // ----- What the journal decides -----

  /** A published journal is answered by an audit and by nothing else: the call succeeds exactly when the base URL and
      the number of entries agree and every assembled object is remote, has its size, and is recorded with it. */
  lemma AuditDecides(s: State, base: string, workers: nat)
    requires s.proc.Stopped? && s.journal.Some? && 1 <= workers <= 32 && s.journal.value.status == Published
    requires s.journal.value.assembly.Some? && s.journal.value.publication.Some?
    ensures var j := s.journal.value; var es := [Begin(j.plan, base, workers), Audit];
            var a, p := j.assembly.value, j.publication.value;
            && Runs(s, es)
            && Exec(s, es).(proc := s.proc) == s
            && Exec(s, es).proc == Stopped(if p.baseURL == base && |p.entries| == |a| && (forall o :: o in a ==>
                                                o.sha in s.remote && o.bytes == o.sha.size
                                                && exists i :: LastEntryFor(p.entries, o.sha, i) && p.entries[i].bytes == o.bytes)
                                           then Some((a, p)) else None)
  {
    var j := s.journal.value;
    TwoEvents(s, Begin(j.plan, base, workers), Audit);
    assert PublicationVerifies(base, s.remote, j.assembly.value, j.publication.value) <==>
           (j.publication.value.baseURL == base && |j.publication.value.entries| == |j.assembly.value|
            && forall o :: o in j.assembly.value ==> ObjectVerifies(s.remote, j.publication.value.entries, o));
  }

  /** A published journal without its parts is refused. */
  lemma IncompletePublishedRefused(s: State, base: string, workers: nat)
    requires s.proc.Stopped? && s.journal.Some? && s.journal.value.status == Published
    requires s.journal.value.assembly.None? || s.journal.value.publication.None?
    ensures var es := [Begin(s.journal.value.plan, base, workers)];
            Runs(s, es) && Exec(s, es) == s.(proc := Stopped(None))
  {
    OneEvent(s, Begin(s.journal.value.plan, base, workers));
  }

  /** An assembled journal is used as it is exactly when all its objects are still staged; otherwise the call ends and
      changes nothing.  Nothing is assembled again. */
  lemma AssembledIsReused(s: State, base: string, workers: nat, output: seq<Object>)
    requires s.proc.Stopped? && s.journal.Some? && 1 <= workers <= 32 && s.journal.value.status == Assembled
    requires s.journal.value.assembly.Some? && s.journal.value.assembly.value != [] && Honest(output)
    ensures var j := s.journal.value; var es := [Begin(j.plan, base, workers), OpenAssembly(output)];
            && Runs(s, es)
            && Exec(s, es) == s.(proc := if forall o :: o in j.assembly.value ==> o.sha in s.staged
                                         then Resuming(base, workers, j.assembly.value) else Stopped(None))
  {
    TwoEvents(s, Begin(s.journal.value.plan, base, workers), OpenAssembly(output));
  }

  /** A journal that the former streaming publisher left is assembled anew, with nothing taken over from it. */
  lemma FormerIsRestarted(s: State, base: string, workers: nat, output: seq<Object>)
    requires s.proc.Stopped? && s.journal.Some? && 1 <= workers <= 32 && s.journal.value.status == Publishing
    requires s.journal.value.assembly.None? && Honest(output)
    ensures var plan := s.journal.value.plan; var es := [Begin(plan, base, workers), OpenAssembly(output)];
            && Runs(s, es)
            && Exec(s, es) == s.(journal := Some(Journal(plan, Assembling, None, None)),
                                 proc := Building(plan, base, workers, output, 0))
  {
    TwoEvents(s, Begin(s.journal.value.plan, base, workers), OpenAssembly(output));
  }

  /** A journal of an unfinished assembly is assembled anew, whatever it recorded. */
  lemma UnfinishedIsRestarted(s: State, base: string, workers: nat, output: seq<Object>)
    requires s.proc.Stopped? && s.journal.Some? && 1 <= workers <= 32 && s.journal.value.status == Assembling && Honest(output)
    ensures var j := s.journal.value; var es := [Begin(j.plan, base, workers), OpenAssembly(output)];
            && Runs(s, es)
            && Exec(s, es) == s.(journal := Some(Journal(j.plan, Assembling, None, j.publication)),
                                 proc := Building(j.plan, base, workers, output, 0))
  {
    TwoEvents(s, Begin(s.journal.value.plan, base, workers), OpenAssembly(output));
  }

  /** An interrupted publication goes on only if everything it has recorded is still remote with its size. */
  lemma MissingRecordRefused(s: State, base: string, workers: nat, e: Entry)
    requires s.proc.Stopped? && s.journal.Some? && 1 <= workers <= 32 && s.journal.value.status == Publishing
    requires s.journal.value.assembly.Some? && s.journal.value.publication.Some?
    requires var j := s.journal.value;
             j.publication.value.baseURL == base && e in j.publication.value.entries
             && e.sha in Wanted(j.assembly.value) && (e.sha !in s.remote || e.bytes != e.sha.size)
    ensures var es := [Begin(s.journal.value.plan, base, workers), EnterPublishing];
            Runs(s, es) && Exec(s, es) == s.(proc := Stopped(None))
  {
    var j := s.journal.value;
    TwoEvents(s, Begin(j.plan, base, workers), EnterPublishing);
    RestrictKeepsWanted(j.publication.value.entries, Wanted(j.assembly.value));
  }

  /** A published journal is final. */
  lemma {:induction false} PublishedStays(base: string, s: State, es: seq<Event>)
    requires Inv(base, s) && Runs(s, es) && FixedBase(es, base)
    requires s.journal.Some? && s.journal.value.status == Published
    ensures Exec(s, es).journal == s.journal
    decreases |es|
  {
    if es != [] {
      assert es[0] in es;
      StepKeepsInv(base, s, es[0]);
      PublishedStaysOnce(base, s, es[0]);
      PublishedStays(base, Next(s, es[0]), es[1..]);
    }
  }

  lemma PublishedStaysOnce(base: string, s: State, e: Event)
    requires Inv(base, s) && Enabled(s, e) && s.journal.Some? && s.journal.value.status == Published
    ensures Next(s, e).journal == s.journal
  {
  }

  // ----- Faults -----

  /** A failed upload, journal write or removal, and a cancelled caller. */
  predicate Faulty(e: Event) { e.PublishFails? || e.CollectWriteFails? || e.PurgeFails? || e.Cancel? }

  /** A fault of the current call is noted, or still on its way to the collector. */
  ghost predicate FaultInv(s: State, faulty: bool) {
    faulty ==>
      match s.proc
      case Stopped(result) => result.None?
      case Uploading(r) => r.failed || r.interrupted || exists o :: o in r.outcomes && !o.ok
      case _ => false
  }

  lemma StepKeepsFaultInv(s: State, e: Event, faulty: bool)
    requires Enabled(s, e) && FaultInv(s, faulty)
    ensures FaultInv(Next(s, e), if e.Begin? then false else faulty || Faulty(e))
  {
    if s.proc.Uploading? && !Preparation(e) && !e.OthersUpload? && !e.Crash? {
      UploadKeepsFaultInv(s, e, faulty);
    }
  }

  lemma UploadKeepsFaultInv(s: State, e: Event, faulty: bool)
    requires Enabled(s, e) && FaultInv(s, faulty) && s.proc.Uploading? && !Preparation(e) && !e.OthersUpload? && !e.Crash?
    ensures FaultInv(Next(s, e), faulty || Faulty(e))
  {
    var r := s.proc.run;
    if e.PublishFails? {
      assert Outcome(e.job, false) in Next(s, e).proc.run.outcomes;
    } else if faulty && !r.failed && !r.interrupted && !e.Finish? {
      var o :| o in r.outcomes && !o.ok;
      var t := Next(s, e);
      assert t.proc.run.failed || t.proc.run.interrupted || o in t.proc.run.outcomes;
    }
  }

  lemma {:induction false} RunKeepsFaultInv(s: State, es: seq<Event>, faulty: bool)
    requires Runs(s, es) && FaultInv(s, faulty) && forall k :: 0 <= k < |es| ==> !es[k].Begin?
    ensures FaultInv(Exec(s, es), faulty || exists k :: 0 <= k < |es| && Faulty(es[k]))
    decreases |es|
  {
    if es != [] {
      StepKeepsFaultInv(s, es[0], faulty);
      RunKeepsFaultInv(Next(s, es[0]), es[1..], faulty || Faulty(es[0]));
      if exists k :: 0 <= k < |es| && Faulty(es[k]) {
        var k :| 0 <= k < |es| && Faulty(es[k]);
        if k > 0 { assert Faulty(es[1..][k - 1]); }
      }
    }
  }

  lemma {:induction false} RunSplits(s: State, es: seq<Event>, n: nat)
    requires Runs(s, es) && n <= |es|
    ensures Runs(s, es[..n]) && Runs(Exec(s, es[..n]), es[n..]) && Exec(Exec(s, es[..n]), es[n..]) == Exec(s, es)
    decreases n
  {
    if n == 0 {
      assert es[..0] == [] && es[0..] == es;
    } else {
      RunSplits(Next(s, es[0]), es[1..], n - 1);
      assert es[..n][1..] == es[1..][..n - 1] && es[1..][n - 1..] == es[n..];
    }
  }

  /** No call succeeds after a fault, whatever the goroutines still finish. */
  lemma NoSuccessAfterFault(s: State, es: seq<Event>, i: nat, k: nat)
    requires Runs(s, es) && LastCall(es, i) && i < k < |es| && Faulty(es[k])
    ensures !Succeeded(Exec(s, es))
  {
    RunSplits(s, es, i + 1);
    var rest := es[i + 1..];
    assert rest[k - i - 1] == es[k];
    RunKeepsFaultInv(Exec(s, es[..i + 1]), rest, false);
  }

  /** The uploads are cancelled by a noted fault or by the caller, and by nothing else; the producer gives up only then. */
  ghost predicate CancelledByFaults(s: State) {
    s.proc.Uploading? ==>
      var r := s.proc.run;
      (r.cancelled <==> r.failed || r.interrupted) && (r.closed ==> r.cancelled)
  }

  lemma StepKeepsCancelled(s: State, e: Event)
    requires Enabled(s, e) && CancelledByFaults(s)
    ensures CancelledByFaults(Next(s, e))
  {
  }

  /** So every fault cancels, after which a producer that waits for room may leave; and without a fault everything is
      queued. */
  lemma {:induction false} FaultsCancel(s: State, es: seq<Event>)
    requires CancelledByFaults(s) && Runs(s, es)
    ensures CancelledByFaults(Exec(s, es))
    ensures var t := Exec(s, es); t.proc.Uploading? && !t.proc.run.closed ==>
              (Enabled(t, StopQueue) <==> t.proc.run.failed || t.proc.run.interrupted)
    decreases |es|
  {
    hide CancelledByFaults;
    if es == [] {
      FaultsEnable(s);
    } else {
      StepKeepsCancelled(s, es[0]);
      FaultsCancel(Next(s, es[0]), es[1..]);
    }
  }

  lemma FaultsEnable(s: State)
    requires CancelledByFaults(s)
    ensures s.proc.Uploading? && !s.proc.run.closed ==>
              (Enabled(s, StopQueue) <==> s.proc.run.failed || s.proc.run.interrupted)
  {
  }

  // ----- Limits -----

  ghost predicate WithinWorkers(s: State) {
    s.proc.Uploading? ==> |s.proc.run.jobs| <= s.proc.run.workers && |s.proc.run.active| <= s.proc.run.workers
  }

  lemma OneLess(active: set<Job>, job: Job)
    requires job in active
    ensures |active - {job}| < |active|
  {
    assert active == (active - {job}) + {job};
  }

  lemma OneMore(active: set<Job>, job: Job)
    ensures |active + {job}| <= |active| + 1
  {
    if job in active { assert active + {job} == active; }
  }

  /** The jobs that workers hold after a step. */
  function ActiveAfter(r: Upload, e: Event): set<Job> {
    match e
    case Take => if r.jobs == [] then r.active else r.active + {r.jobs[0]}
    case Publish(job) => r.active - {job}
    case PublishFails(job, _) => r.active - {job}
    case _ => r.active
  }

  lemma UploadQueues(s: State, e: Event)
    requires s.proc.Uploading? && EnabledUpload(s.proc.run, s.staged, e)
    ensures var r, t := s.proc.run, NextUpload(s, s.proc.run, e);
            t.proc.Uploading? ==>
              && t.proc.run.workers == r.workers && t.proc.run.active == ActiveAfter(r, e)
              && (|t.proc.run.jobs| <= |r.jobs| || (e == QueueNext && |t.proc.run.jobs| <= r.workers))
    ensures e == Take ==> |s.proc.run.active| < s.proc.run.workers
    ensures e.Publish? || e.PublishFails? ==> e.job in s.proc.run.active
  {
    hide Upsert, SortBySequence, Restrict, Recording, Wanted, EntryOf, Drained;
  }

  lemma UploadWithinWorkers(s: State, e: Event)
    requires s.proc.Uploading? && WithinWorkers(s) && EnabledUpload(s.proc.run, s.staged, e)
    ensures WithinWorkers(NextUpload(s, s.proc.run, e))
  {
    UploadQueues(s, e);
    hide NextUpload, EnabledUpload;
    var r := s.proc.run;
    if e.Publish? || e.PublishFails? { OneLess(r.active, e.job); }
    if e.Take? && r.jobs != [] { OneMore(r.active, r.jobs[0]); }
  }

  lemma StepWithinWorkers(s: State, e: Event)
    requires Enabled(s, e) && WithinWorkers(s)
    ensures WithinWorkers(Next(s, e))
  {
    hide EnabledUpload, NextUpload;
    if s.proc.Uploading? && !Preparation(e) && !e.OthersUpload? && !e.Crash? {
      UploadWithinWorkers(s, e);
    }
  }

  /** At no moment are more objects queued or being uploaded than the call has workers. */
  lemma {:induction false} NeverMoreThanWorkers(s: State, es: seq<Event>)
    requires Runs(s, es) && WithinWorkers(s)
    ensures WithinWorkers(Exec(s, es))
    decreases |es|
  {
    if es != [] {
      StepWithinWorkers(s, es[0]);
      NeverMoreThanWorkers(Next(s, es[0]), es[1..]);
    }
  }

  /** The call uploads nothing that is not staged at that moment, and nothing whose size is not that of its digest. */
  lemma OnlyStagedIsUploaded(s: State, e: Event, d: Digest)
    requires Enabled(s, e) && d !in s.remote && d in Next(s, e).remote && !e.OthersUpload?
    ensures d in s.staged && s.proc.Uploading? && (e.Publish? ==> e.job.target.bytes == d.size)
  {
  }
}
