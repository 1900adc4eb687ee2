/**
 Crash-recoverable publication as a transition system.

 One step is one durable write, one channel operation or one call to the
 publisher, so a crash may fall between any two of them.  The journal, the
 staging directory and the remote store survive a crash; `proc` does not.

 Returning an error before uploads start leaves the durable state alone, so it
 is the same step as a crash; only the collector carries on after an error.
 */
module Publication {
  import opened Prelude
  import opened Journal

  /** A queued upload: the 1-based position in the assembly and the object. */
  datatype Job = Job(sequence: int, target: Object)

  datatype Outcome = Outcome(job: Job, ok: bool)

  /** The variables of the upload phase. `published` is fixed when the phase starts. */
  datatype Upload = Upload(
    base: string, workers: nat, assembly: seq<Object>,
    published: set<Digest>,      // digests the producer skips
    entries: seq<Entry>,         // publication.Objects, in memory
    next: nat, closed: bool,     // producer position, and whether it gave up
    jobs: seq<Job>,              // buffered channel, capacity `workers`
    active: set<Job>,            // inside publisher.Publish
    outcomes: set<Outcome>,      // sent or waiting to be sent to the collector
    purging: Option<Job>,        // recorded durably, staging file not yet removed
    failed: bool,                // firstErr != nil
    cancelled: bool,             // runCtx is done
    interrupted: bool)           // the caller's context is done

  datatype Proc =
    | Stopped(result: Option<(seq<Object>, Record)>)
    | Auditing(base: string, assembly: seq<Object>, publication: Record)
    | Opening(plan: string, base: string, workers: nat)
    | Building(plan: string, base: string, workers: nat, output: seq<Object>, done: nat)
    | Resuming(base: string, workers: nat, assembly: seq<Object>)
    | Uploading(run: Upload)

  datatype State = State(journal: Option<Journal>, staged: set<Digest>, remote: set<Digest>, proc: Proc)

  datatype Event =
    | Begin(plan: string, base: string, workers: nat)  // ExecutePublication is called
    | Audit                                            // verifyPublished
    | OpenAssembly(output: seq<Object>)                // ExecuteAssembly loads the journal; the oracle picks the output
    | StageObject                                      // one object is closed, verified and renamed into place
    | Complete                                         // the assembled journal is written
    | EnterPublishing                                  // recorded objects are verified, the publishing journal is written
    | QueueNext | StopQueue                            // the producer
    | Take | Publish(job: Job) | PublishFails(job: Job, landed: bool)  // a worker
    | Collect(outcome: Outcome)                        // the collector records (or notes the error)
    | CollectWriteFails(outcome: Outcome, durable: bool)
    | Purge | PurgeFails(removed: bool)                // the collector removes the staging file
    | Cancel                                           // the caller's context ends
    | Finish                                           // all channels drained
    | OthersUpload(d: Digest)                          // the remote store only grows, from anywhere
    | Crash

  function EntryOf(job: Job): Entry {
    Entry(job.sequence, job.target.sha, job.target.sha.size)
  }

  ghost predicate AllStaged(assembly: seq<Object>, staged: set<Digest>) {
    forall o :: o in assembly ==> o.sha in staged
  }

  predicate Drained(r: Upload) {
    && (r.closed || r.next == |r.assembly|)
    && r.jobs == [] && r.active == {} && r.outcomes == {} && r.purging == None
  }

  ghost predicate Enabled(s: State, e: Event) {
    match e
    case Begin(_, _, _) => s.proc.Stopped?
    case Audit => s.proc.Auditing?
    case OpenAssembly(output) => s.proc.Opening? && Honest(output)
    case StageObject => s.proc.Building? && s.proc.done < |s.proc.output|
    case Complete => s.proc.Building? && s.proc.done == |s.proc.output|
    case EnterPublishing => s.proc.Resuming?
    case OthersUpload(_) => true
    case Crash => true
    case _ => s.proc.Uploading? && EnabledUpload(s.proc.run, s.staged, e)
  }

  ghost predicate EnabledUpload(r: Upload, staged: set<Digest>, e: Event) {
    match e
    case QueueNext => !r.closed && r.next < |r.assembly| &&
                      (r.assembly[r.next].sha in r.published || |r.jobs| < r.workers)
    case StopQueue => r.cancelled && !r.closed
    case Take => r.jobs != [] && |r.active| < r.workers
    case Publish(job) => job in r.active && job.target.sha in staged && job.target.bytes == job.target.sha.size
    case PublishFails(job, _) => job in r.active
    case Collect(outcome) => outcome in r.outcomes && r.purging == None
    case CollectWriteFails(outcome, _) => outcome in r.outcomes && outcome.ok && r.purging == None
    case Purge => r.purging.Some?
    case PurgeFails(_) => r.purging.Some?
    case Cancel => true
    case Finish => Drained(r)
    case _ => false
  }

  function Stop(s: State): State { s.(proc := Stopped(None)) }

  ghost function Next(s: State, e: Event): State
    requires Enabled(s, e)
  {
    match e
    case Begin(plan, base, workers) => NextBegin(s, plan, base, workers)
    case Audit =>
      if PublicationVerifies(s.proc.base, s.remote, s.proc.assembly, s.proc.publication)
      then s.(proc := Stopped(Some((s.proc.assembly, s.proc.publication))))
      else Stop(s)
    case OpenAssembly(output) => NextOpen(s, output)
    case StageObject =>
      s.(staged := s.staged + {s.proc.output[s.proc.done].sha}, proc := s.proc.(done := s.proc.done + 1))
    case Complete =>
      if s.proc.output == [] || s.journal.None? then Stop(s)  // "ingestion produced no canonical records"
      else s.(journal := Some(s.journal.value.(status := Assembled, assembly := Some(s.proc.output))),
              proc := Resuming(s.proc.base, s.proc.workers, s.proc.output))
    case EnterPublishing => NextEnter(s, s.proc.base, s.proc.workers, s.proc.assembly)
    case OthersUpload(d) => s.(remote := s.remote + {d})
    case Crash => Stop(s)
    case _ => NextUpload(s, s.proc.run, e)
  }

  /** Loading the journal and choosing where to resume. */
  function NextBegin(s: State, plan: string, base: string, workers: nat): State {
    if workers < 1 || workers > 32 then Stop(s)
    else if s.journal.None? then s.(proc := Opening(plan, base, workers))
    else
      var j := s.journal.value;
      if j.plan != plan then Stop(s)
      else match j.status
        case Published =>
          if j.assembly.None? || j.publication.None? then Stop(s)
          else s.(proc := Auditing(base, j.assembly.value, j.publication.value))
        case Publishing =>
          if j.assembly.Some? then s.(proc := Resuming(base, workers, j.assembly.value))
          else  // written by the former streaming publisher: restart the assembly
            s.(journal := Some(j.(status := Assembling, publication := None)), proc := Opening(plan, base, workers))
        case _ => s.(proc := Opening(plan, base, workers))
  }

  /** ExecuteAssembly: reuse a verified assembled journal, or start over. */
  ghost function NextOpen(s: State, output: seq<Object>): State
    requires s.proc.Opening?
  {
    var p := s.proc;
    if s.journal.None? then
      s.(journal := Some(Journal(p.plan, Assembling, None, None)), proc := Building(p.plan, p.base, p.workers, output, 0))
    else
      var j := s.journal.value;
      match j.status
      case Assembled =>
        if j.assembly.Some? && j.assembly.value != [] && AllStaged(j.assembly.value, s.staged)
        then s.(proc := Resuming(p.base, p.workers, j.assembly.value))
        else Stop(s)
      case Assembling =>
        s.(journal := Some(j.(assembly := None)), proc := Building(p.plan, p.base, p.workers, output, 0))
      case _ => Stop(s)
  }

  /** The entries carried over from an interrupted run against the same base URL. */
  function CarriedOver(j: Journal, base: string, assembly: seq<Object>): seq<Entry> {
    Restrict(if j.publication.Some? && j.publication.value.baseURL == base then j.publication.value.entries else [],
             Wanted(assembly))
  }

  ghost function NextEnter(s: State, base: string, workers: nat, assembly: seq<Object>): State {
    if s.journal.None? then Stop(s)
    else
      var entries := CarriedOver(s.journal.value, base, assembly);
      if exists e :: e in entries && (e.sha !in s.remote || e.bytes != e.sha.size) then Stop(s)
      else
        s.(journal := Some(s.journal.value.(status := Publishing, assembly := Some(assembly),
                                            publication := Some(Record(base, entries)))),
           proc := Uploading(Upload(base, workers, assembly, Recorded(entries), entries, 0, false, [], {}, {},
                                    None, false, false, false)))
  }

  function NextUpload(s: State, r: Upload, e: Event): State
    requires EnabledUpload(r, s.staged, e)
  {
    match e
    case QueueNext =>
      var o := r.assembly[r.next];
      s.(proc := Uploading(if o.sha in r.published then r.(next := r.next + 1)
                           else r.(next := r.next + 1, jobs := r.jobs + [Job(r.next + 1, o)])))
    case StopQueue => s.(proc := Uploading(r.(closed := true)))
    case Take => s.(proc := Uploading(r.(jobs := r.jobs[1..], active := r.active + {r.jobs[0]})))
    case Publish(job) =>
      s.(remote := s.remote + {job.target.sha},
         proc := Uploading(r.(active := r.active - {job}, outcomes := r.outcomes + {Outcome(job, true)})))
    case PublishFails(job, landed) =>
      s.(remote := if landed && job.target.sha in s.staged then s.remote + {job.target.sha} else s.remote,
         proc := Uploading(r.(active := r.active - {job}, outcomes := r.outcomes + {Outcome(job, false)})))
    case Collect(outcome) =>
      var r' := r.(outcomes := r.outcomes - {outcome});
      if !outcome.ok then s.(proc := Uploading(r'.(failed := true, cancelled := true)))
      else
        var entries := Upsert(r.entries, EntryOf(outcome.job));
        s.(journal := Recording(s.journal, r, entries),
           proc := Uploading(r'.(entries := entries, purging := Some(outcome.job))))
    case CollectWriteFails(outcome, durable) =>
      var entries := Upsert(r.entries, EntryOf(outcome.job));
      s.(journal := if durable then Recording(s.journal, r, entries) else s.journal,
         proc := Uploading(r.(outcomes := r.outcomes - {outcome}, entries := entries, failed := true, cancelled := true)))
    case Purge =>
      s.(staged := s.staged - {r.purging.value.target.sha}, proc := Uploading(r.(purging := None)))
    case PurgeFails(removed) =>
      s.(staged := if removed then s.staged - {r.purging.value.target.sha} else s.staged,
         proc := Uploading(r.(purging := None, failed := true, cancelled := true)))
    case Cancel => s.(proc := Uploading(r.(cancelled := true, interrupted := true)))
    case Finish =>
      var entries := SortBySequence(Restrict(r.entries, Wanted(r.assembly)));
      if r.failed || r.interrupted || |entries| != |r.assembly| || s.journal.None? then Stop(s)
      else
        var publication := Record(r.base, entries);
        s.(journal := Some(s.journal.value.(status := Published, assembly := Some(r.assembly),
                                            publication := Some(publication))),
           proc := Stopped(Some((r.assembly, publication))))
    case _ => s
  }

  function Recording(j: Option<Journal>, r: Upload, entries: seq<Entry>): Option<Journal> {
    if j.None? then None
    else Some(j.value.(status := Publishing, assembly := Some(r.assembly),
                       publication := Some(Record(r.base, entries))))
  }

  // ----- Runs -----

  ghost predicate Runs(s: State, es: seq<Event>)
    decreases |es|
  {
    es == [] || (Enabled(s, es[0]) && Runs(Next(s, es[0]), es[1..]))
  }

  ghost function Exec(s: State, es: seq<Event>): State
    requires Runs(s, es)
    decreases |es|
  {
    if es == [] then s else Exec(Next(s, es[0]), es[1..])
  }

  /** No journal yet, or one of the former streaming publisher with no assembly in it. */
  ghost predicate Initial(s: State) {
    && s.proc == Stopped(None)
    && (s.journal.None? || (s.journal.value.status == Publishing && s.journal.value.assembly.None?))
  }

  /** Every call of the run uses the same publisher base URL. */
  ghost predicate FixedBase(es: seq<Event>, base: string) {
    forall e :: e in es && e.Begin? ==> e.base == base
  }
}
