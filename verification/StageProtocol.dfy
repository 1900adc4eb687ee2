/**
 The multi-host stage handshake: rank 0 sends stage plans to N workers over FIFO
 streams, each worker validates and prepares the plan, acknowledges it and runs
 the stage.  N and the plans are arbitrary; every interleaving is a run.
 */
module StageProtocol {
  import opened Prelude

  const PLAN_KIND := "openwaldo-multinode-plan"
  const PLAN_SCHEMA := 3

  datatype Plan = Plan(kind: string, schema: int, runID: string, stage: string,
                       ordinal: int, count: int, nodes: int)

  datatype Ready = Ready(schema: int, runID: string, stage: string, ordinal: int, count: int)

  /** What a worker writes once it has prepared the plan. */
  function ReadyOf(p: Plan): Ready { Ready(1, p.runID, p.stage, p.ordinal, p.count) }

  /** What rank 0 compares when it waits for the plan to be acknowledged. */
  predicate Acknowledges(r: Ready, p: Plan) {
    r.schema == 1 && r.runID == p.runID && r.stage == p.stage && r.ordinal == p.ordinal && r.count == p.count
  }

  predicate Alphanumeric(c: char) { 'A' <= c <= 'Z' || 'a' <= c <= 'z' || '0' <= c <= '9' }

  /** The pattern ^[A-Za-z0-9][A-Za-z0-9._-]*$ */
  predicate ValidRunLabel(s: string) {
    s != "" && Alphanumeric(s[0]) && forall c :: c in s ==> Alphanumeric(c) || c == '.' || c == '_' || c == '-'
  }

  predicate ValidPlan(p: Plan, nodes: int, previousRunID: string) {
    && p.kind == PLAN_KIND && p.schema == PLAN_SCHEMA
    && p.nodes == nodes
    && 1 <= p.ordinal <= p.count
    && ValidRunLabel(p.runID) && p.runID != previousRunID
  }

  datatype Exit = Completed | NothingToDo | Refused | Truncated | Faulted

  datatype Phase = Waiting | Preparing(plan: Plan) | Running(plan: Plan) | Exited(exit: Exit)

  /** One secondary host together with its two pipes and its channel at rank 0.
      `prepared` and `ran` are the stages it acknowledged and finished; `sent` and
      `acked` count what rank 0 wrote to and accepted from it. */
  datatype Worker = Worker(inbox: seq<Plan>, closed: bool, phase: Phase, lastRunID: string,
                           stdout: seq<Ready>, ready: Option<Ready>,
                           prepared: seq<Plan>, ran: seq<Plan>, sent: nat, acked: nat)

  datatype Failure = Mismatch | Other

  datatype Primary =
    | Idle(k: nat)                 // k stages published and trained
    | Sending(k: nat, i: nat)      // publish(k): plan written to workers 0..i
    | Awaiting(k: nat, i: nat)     // publish(k): workers 0..i acknowledged
    | Training(k: nat)             // publish(k) returned nil
    | Failed(failure: Failure)     // an error was returned; finish(err) follows
    | Closed(k: nat)               // finish(nil) after k stages

  datatype State = State(workers: seq<Worker>, primary: Primary)

  datatype Event =
    | StartPublish | SendNext | AllSent | ReceiveNext | PublishSucceeds | TrainDone | CloseAll
    | PrimaryFails                                    // send error, timeout, dead worker, training error
    | Forward(i: nat)                                 // copyWorkerStdout
    | Decode(i: nat) | EndOfStream(i: nat) | Acknowledge(i: nat) | RunDone(i: nat)
    | Fault(i: nat)                                   // any worker error, or a kill

  predicate WorkerEvent(e: Event) {
    e.Forward? || e.Decode? || e.EndOfStream? || e.Acknowledge? || e.RunDone? || e.Fault?
  }

  /** What rank 0 publishes: valid plans with distinct run IDs, of which exactly the last one
      says it is the final stage.  A resumed compose publishes a suffix of its stages. */
  ghost predicate HonestPlans(plans: seq<Plan>, nodes: int) {
    && (forall p :: p in plans ==> ValidPlan(p, nodes, ""))
    && (forall i, j :: 0 <= i < j < |plans| ==> plans[i].runID != plans[j].runID)
    && (forall i :: 0 <= i < |plans| ==> (plans[i].ordinal == plans[i].count <==> i == |plans| - 1))
  }

  predicate EnabledWorker(w: Worker, e: Event) {
    match e
    case Forward(_) => w.stdout != [] && w.ready.None?   // the channel holds one acknowledgement
    case Decode(_) => w.phase.Waiting? && w.inbox != []
    case EndOfStream(_) => w.phase.Waiting? && w.inbox == [] && w.closed
    case Acknowledge(_) => w.phase.Preparing?
    case RunDone(_) => w.phase.Running?
    case Fault(_) => !w.phase.Exited?
    case _ => false
  }

  predicate Enabled(plans: seq<Plan>, s: State, e: Event) {
    if WorkerEvent(e) then e.i < |s.workers| && EnabledWorker(s.workers[e.i], e)
    else
      match e
      case StartPublish => s.primary.Idle? && s.primary.k < |plans|
      case SendNext => s.primary.Sending? && s.primary.i < |s.workers| && s.primary.k < |plans|
      case AllSent => s.primary.Sending? && s.primary.i == |s.workers|
      case ReceiveNext => s.primary.Awaiting? && s.primary.k < |plans|
                          && s.primary.i < |s.workers| && s.workers[s.primary.i].ready.Some?
      case PublishSucceeds => s.primary.Awaiting? && s.primary.i == |s.workers|
      case TrainDone => s.primary.Training?
      case CloseAll => s.primary.Idle?
      case _ => !s.primary.Failed? && !s.primary.Closed?
  }

  function NextWorker(nodes: int, w: Worker, e: Event): Worker
    requires EnabledWorker(w, e)
  {
    match e
    case Forward(_) => w.(ready := Some(w.stdout[0]), stdout := w.stdout[1..])
    case Decode(_) =>
      var p := w.inbox[0];
      w.(inbox := w.inbox[1..], phase := if ValidPlan(p, nodes, w.lastRunID) then Preparing(p) else Exited(Refused))
    case EndOfStream(_) => w.(phase := Exited(if w.lastRunID == "" then NothingToDo else Truncated))
    case Acknowledge(_) =>
      w.(phase := Running(w.phase.plan), stdout := w.stdout + [ReadyOf(w.phase.plan)], prepared := w.prepared + [w.phase.plan])
    case RunDone(_) =>
      var p := w.phase.plan;
      w.(ran := w.ran + [p], lastRunID := p.runID, phase := if p.ordinal == p.count then Exited(Completed) else Waiting)
    case Fault(_) => w.(phase := Exited(Faulted))
    case _ => w
  }

  function CloseStdin(ws: seq<Worker>): seq<Worker> {
    seq(|ws|, i requires 0 <= i < |ws| => ws[i].(closed := true))
  }

  function Next(plans: seq<Plan>, nodes: int, s: State, e: Event): State
    requires Enabled(plans, s, e)
  {
    if WorkerEvent(e) then s.(workers := s.workers[e.i := NextWorker(nodes, s.workers[e.i], e)])
    else
      match e
      case StartPublish => s.(primary := Sending(s.primary.k, 0))
      case SendNext =>
        var i := s.primary.i;
        var w := s.workers[i];
        State(s.workers[i := w.(inbox := w.inbox + [plans[s.primary.k]], sent := w.sent + 1)],
              Sending(s.primary.k, i + 1))
      case AllSent => s.(primary := Awaiting(s.primary.k, 0))
      case ReceiveNext =>
        var i := s.primary.i;
        var w := s.workers[i];
        if !Acknowledges(w.ready.value, plans[s.primary.k])
        then State(CloseStdin(s.workers[i := w.(ready := None)]), Failed(Mismatch))
        else State(s.workers[i := w.(ready := None, acked := w.acked + 1)], Awaiting(s.primary.k, i + 1))
      case PublishSucceeds => s.(primary := Training(s.primary.k))
      case TrainDone => s.(primary := Idle(s.primary.k + 1))
      case CloseAll => State(CloseStdin(s.workers), Closed(s.primary.k))
      case _ => State(CloseStdin(s.workers), Failed(Other))
  }

  ghost predicate Runs(plans: seq<Plan>, nodes: int, s: State, es: seq<Event>)
    decreases |es|
  {
    es == [] || (Enabled(plans, s, es[0]) && Runs(plans, nodes, Next(plans, nodes, s, es[0]), es[1..]))
  }

  ghost function Exec(plans: seq<Plan>, nodes: int, s: State, es: seq<Event>): State
    requires Runs(plans, nodes, s, es)
    decreases |es|
  {
    if es == [] then s else Exec(plans, nodes, Next(plans, nodes, s, es[0]), es[1..])
  }

  const FreshWorker := Worker([], false, Waiting, "", [], None, [], [], 0, 0)

  function Initial(workers: nat): State {
    State(seq(workers, _ => FreshWorker), Idle(0))
  }

  // ----- Invariant -----

  function Channel(w: Worker): seq<Ready> {
    (if w.ready.Some? then [w.ready.value] else []) + w.stdout
  }

  /** The acknowledgements of plans a..b. */
  function Acks(plans: seq<Plan>, a: nat, b: nat): seq<Ready>
    requires a <= b <= |plans|
  {
    seq(b - a, i requires 0 <= i < b - a => ReadyOf(plans[a + i]))
  }

  function Current(w: Worker): seq<Plan> {
    if w.phase.Preparing? || w.phase.Running? then [w.phase.plan] else []
  }

  /** The stages a worker has seen are a prefix of the plans, in order. */
  ghost predicate WorkerInv(plans: seq<Plan>, w: Worker) {
    && w.acked <= |w.prepared| <= w.sent <= |plans|
    && w.prepared == plans[..|w.prepared|]
    && |w.ran| <= |plans| && w.ran == plans[..|w.ran|]
    && w.lastRunID == (if w.ran == [] then "" else w.ran[|w.ran| - 1].runID)
    && Channel(w) == Acks(plans, w.acked, |w.prepared|)
    && match w.phase
       case Waiting => w.ran + w.inbox == plans[..w.sent] && w.prepared == w.ran
                       && (|w.ran| < |plans| || plans == [])
       case Preparing(p) => w.ran + [p] + w.inbox == plans[..w.sent] && w.prepared == w.ran
       case Running(p) => w.ran + [p] + w.inbox == plans[..w.sent] && w.prepared == w.ran + [p]
       case Exited(exit) =>
         && exit != Refused && |w.ran| <= |w.prepared| <= |w.ran| + 1
         && (exit == Completed ==> w.ran == plans && plans != [])
         && (exit == Truncated ==> w.closed)
         && (exit == NothingToDo ==> w.ran == [] && w.sent == 0 && w.closed)
  }

  ghost predicate PrimaryInv(plans: seq<Plan>, s: State) {
    && (forall i :: 0 <= i < |s.workers| && s.workers[i].closed ==> s.primary.Failed? || s.primary.Closed?)
    && match s.primary
       case Idle(k) => k <= |plans| && forall i :: 0 <= i < |s.workers| ==> s.workers[i].sent == s.workers[i].acked == k
       case Sending(k, n) => k < |plans| && n <= |s.workers| &&
         forall i :: 0 <= i < |s.workers| ==>
           s.workers[i].acked == k && s.workers[i].sent == if i < n then k + 1 else k
       case Awaiting(k, n) => k < |plans| && n <= |s.workers| &&
         forall i :: 0 <= i < |s.workers| ==>
           s.workers[i].sent == k + 1 && s.workers[i].acked == if i < n then k + 1 else k
       case Training(k) => k < |plans| && forall i :: 0 <= i < |s.workers| ==> s.workers[i].sent == s.workers[i].acked == k + 1
       case Failed(failure) => failure != Mismatch
       case Closed(k) => k <= |plans| && forall i :: 0 <= i < |s.workers| ==>
         s.workers[i].sent == s.workers[i].acked == k && s.workers[i].closed
  }

  ghost predicate WorkersInv(plans: seq<Plan>, ws: seq<Worker>) {
    forall i :: 0 <= i < |ws| ==> WorkerInv(plans, ws[i])
  }

  ghost predicate Inv(plans: seq<Plan>, s: State) {
    WorkersInv(plans, s.workers) && PrimaryInv(plans, s)
  }

  // ----- Preservation -----

  lemma DecodeKeeps(plans: seq<Plan>, nodes: int, w: Worker, e: Event)
    requires HonestPlans(plans, nodes) && WorkerInv(plans, w) && EnabledWorker(w, e) && e.Decode?
    ensures WorkerInv(plans, NextWorker(nodes, w, e))
    ensures NextWorker(nodes, w, e).phase.Preparing?
  {
    var p, k := w.inbox[0], |w.ran|;
    assert (w.ran + w.inbox)[k] == p;
    assert plans[..w.sent][k] == plans[k] == p;
    assert p in plans;
    if w.ran != [] {
      assert w.lastRunID == plans[k - 1].runID;
    }
    assert w.inbox == [p] + w.inbox[1..];
  }

  lemma AcknowledgeKeeps(plans: seq<Plan>, nodes: int, w: Worker, e: Event)
    requires WorkerInv(plans, w) && EnabledWorker(w, e) && e.Acknowledge?
    ensures WorkerInv(plans, NextWorker(nodes, w, e))
  {
    var p, k := w.phase.plan, |w.ran|;
    var w' := NextWorker(nodes, w, e);
    assert (w.ran + [p] + w.inbox)[k] == p;
    assert plans[..w.sent][k] == plans[k] == p;
    assert w'.prepared == plans[..k + 1];
    assert Channel(w') == Channel(w) + [ReadyOf(p)];
    assert Acks(plans, w.acked, k + 1) == Acks(plans, w.acked, k) + [ReadyOf(p)];
  }

  lemma RunDoneKeeps(plans: seq<Plan>, nodes: int, w: Worker, e: Event)
    requires HonestPlans(plans, nodes) && WorkerInv(plans, w) && EnabledWorker(w, e) && e.RunDone?
    ensures WorkerInv(plans, NextWorker(nodes, w, e))
  {
    var p, k := w.phase.plan, |w.ran|;
    assert (w.ran + [p] + w.inbox)[k] == p;
    assert plans[..w.sent][k] == plans[k] == p;
    assert p in plans;
    assert w.ran + [p] == plans[..k + 1];
    if p.ordinal == p.count {
      assert plans[..k + 1] == plans;
    }
  }

  lemma ForwardKeeps(plans: seq<Plan>, nodes: int, w: Worker, e: Event)
    requires WorkerInv(plans, w) && EnabledWorker(w, e) && e.Forward?
    ensures WorkerInv(plans, NextWorker(nodes, w, e))
  {
    assert Channel(NextWorker(nodes, w, e)) == Channel(w);
  }

  lemma EndKeeps(plans: seq<Plan>, nodes: int, w: Worker, e: Event)
    requires HonestPlans(plans, nodes) && WorkerInv(plans, w) && EnabledWorker(w, e) && (e.EndOfStream? || e.Fault?)
    ensures WorkerInv(plans, NextWorker(nodes, w, e))
  {
    assert Channel(NextWorker(nodes, w, e)) == Channel(w);
    if e.EndOfStream? && w.ran != [] {
      assert plans[|w.ran| - 1] in plans;
      assert w.ran[|w.ran| - 1] == plans[|w.ran| - 1];
    }
  }

  lemma WorkerStepKeeps(plans: seq<Plan>, nodes: int, w: Worker, e: Event)
    requires HonestPlans(plans, nodes) && WorkerInv(plans, w) && EnabledWorker(w, e)
    ensures var w' := NextWorker(nodes, w, e);
            WorkerInv(plans, w') && w'.sent == w.sent && w'.acked == w.acked && w'.closed == w.closed
  {
    match e
    case Decode(_) => DecodeKeeps(plans, nodes, w, e);
    case Acknowledge(_) => AcknowledgeKeeps(plans, nodes, w, e);
    case RunDone(_) => RunDoneKeeps(plans, nodes, w, e);
    case Forward(_) => ForwardKeeps(plans, nodes, w, e);
    case _ => EndKeeps(plans, nodes, w, e);
  }

  lemma SendKeeps(plans: seq<Plan>, w: Worker, k: nat)
    requires WorkerInv(plans, w) && k < |plans| && w.sent == k
    requires !w.closed
    ensures WorkerInv(plans, w.(inbox := w.inbox + [plans[k]], sent := w.sent + 1))
  {
    var w' := w.(inbox := w.inbox + [plans[k]], sent := w.sent + 1);
    assert plans[..k + 1] == plans[..k] + [plans[k]];
    assert Channel(w') == Channel(w);
    match w.phase
    case Waiting => assert w.ran + w'.inbox == plans[..k + 1];
    case Preparing(p) => assert w.ran + [p] + w'.inbox == (w.ran + [p] + w.inbox) + [plans[k]];
    case Running(p) => assert w.ran + [p] + w'.inbox == (w.ran + [p] + w.inbox) + [plans[k]];
    case _ =>
  }

  /** The acknowledgement rank 0 reads while stage k is outstanding is the one of stage k. */
  lemma ReceiveMatches(plans: seq<Plan>, w: Worker, k: nat)
    requires WorkerInv(plans, w) && k < |plans| && w.acked == k && w.ready.Some?
    ensures w.ready.value == ReadyOf(plans[k]) && Acknowledges(w.ready.value, plans[k])
    ensures WorkerInv(plans, w.(ready := None, acked := k + 1))
  {
    AckIsCurrent(plans, w, k);
    ChannelTail(w);
    AcksTail(plans, k, |w.prepared|);
  }

  lemma AckIsCurrent(plans: seq<Plan>, w: Worker, k: nat)
    requires WorkerInv(plans, w) && k < |plans| && w.acked == k && w.ready.Some?
    ensures w.ready.value == ReadyOf(plans[k]) && k < |w.prepared|
  {
    assert Channel(w)[0] == w.ready.value;
    assert Acks(plans, k, |w.prepared|)[0] == ReadyOf(plans[k]);
  }

  lemma ChannelTail(w: Worker)
    requires w.ready.Some?
    ensures forall a: nat :: Channel(w.(ready := None, acked := a)) == Channel(w)[1..]
  {
    assert Channel(w)[1..] == w.stdout == [] + w.stdout;
  }

  lemma AcksTail(plans: seq<Plan>, a: nat, b: nat)
    requires a < b <= |plans|
    ensures Acks(plans, a + 1, b) == Acks(plans, a, b)[1..]
  {
  }

  lemma CloseKeeps(plans: seq<Plan>, ws: seq<Worker>)
    requires WorkersInv(plans, ws)
    ensures WorkersInv(plans, CloseStdin(ws))
  {
    forall i | 0 <= i < |ws| ensures WorkerInv(plans, CloseStdin(ws)[i]) {
      assert Channel(CloseStdin(ws)[i]) == Channel(ws[i]);
    }
  }

  lemma WorkerEventKeeps(plans: seq<Plan>, nodes: int, s: State, e: Event)
    requires HonestPlans(plans, nodes) && Inv(plans, s) && Enabled(plans, s, e) && WorkerEvent(e)
    ensures Inv(plans, Next(plans, nodes, s, e))
  {
    WorkerStepKeeps(plans, nodes, s.workers[e.i], e);
    var w' := NextWorker(nodes, s.workers[e.i], e);
    OthersKept(plans, s.workers, e.i, w');
    SameCounters(plans, s, e.i, w');
  }

  /** The primary's part of the invariant only looks at the counters and the closed flags. */
  lemma SameCounters(plans: seq<Plan>, s: State, i: nat, w: Worker)
    requires i < |s.workers| && PrimaryInv(plans, s)
    requires w.sent == s.workers[i].sent && w.acked == s.workers[i].acked && w.closed == s.workers[i].closed
    ensures PrimaryInv(plans, s.(workers := s.workers[i := w]))
  {
  }

  lemma OthersKept(plans: seq<Plan>, ws: seq<Worker>, i: nat, w: Worker)
    requires i < |ws| && WorkerInv(plans, w)
    requires WorkersInv(plans, ws)
    ensures WorkersInv(plans, ws[i := w])
  {
  }

  lemma SendEventKeeps(plans: seq<Plan>, nodes: int, s: State)
    requires Inv(plans, s) && Enabled(plans, s, SendNext)
    ensures Inv(plans, Next(plans, nodes, s, SendNext))
  {
    var w := s.workers[s.primary.i];
    SendKeeps(plans, w, s.primary.k);
    OthersKept(plans, s.workers, s.primary.i, w.(inbox := w.inbox + [plans[s.primary.k]], sent := w.sent + 1));
    ExchangeCounters(plans, nodes, s, SendNext);
  }

  lemma ReceiveEventKeeps(plans: seq<Plan>, nodes: int, s: State)
    requires Inv(plans, s) && Enabled(plans, s, ReceiveNext)
    ensures Inv(plans, Next(plans, nodes, s, ReceiveNext))
  {
    var w := s.workers[s.primary.i];
    ReceiveMatches(plans, w, s.primary.k);
    OthersKept(plans, s.workers, s.primary.i, w.(ready := None, acked := s.primary.k + 1));
    ExchangeCounters(plans, nodes, s, ReceiveNext);
  }

  lemma ExchangeCounters(plans: seq<Plan>, nodes: int, s: State, e: Event)
    requires PrimaryInv(plans, s) && Enabled(plans, s, e) && (e.SendNext? || e.ReceiveNext?)
    requires e.ReceiveNext? ==> Acknowledges(s.workers[s.primary.i].ready.value, plans[s.primary.k])
    ensures PrimaryInv(plans, Next(plans, nodes, s, e))
  {
  }

  lemma CloseEventKeeps(plans: seq<Plan>, nodes: int, s: State, e: Event)
    requires Inv(plans, s) && Enabled(plans, s, e) && (e.CloseAll? || e.PrimaryFails?)
    ensures Inv(plans, Next(plans, nodes, s, e))
  {
    CloseKeeps(plans, s.workers);
  }

  lemma StepKeepsInv(plans: seq<Plan>, nodes: int, s: State, e: Event)
    requires HonestPlans(plans, nodes) && Inv(plans, s) && Enabled(plans, s, e)
    ensures Inv(plans, Next(plans, nodes, s, e))
    ensures |Next(plans, nodes, s, e).workers| == |s.workers|
  {
    if WorkerEvent(e) {
      WorkerEventKeeps(plans, nodes, s, e);
    } else if e.SendNext? {
      SendEventKeeps(plans, nodes, s);
    } else if e.ReceiveNext? {
      ReceiveEventKeeps(plans, nodes, s);
    } else if e.CloseAll? || e.PrimaryFails? {
      CloseEventKeeps(plans, nodes, s, e);
    }
  }

  lemma {:induction false} RunKeepsInv(plans: seq<Plan>, nodes: int, s: State, es: seq<Event>)
    requires HonestPlans(plans, nodes) && Inv(plans, s) && Runs(plans, nodes, s, es)
    ensures Inv(plans, Exec(plans, nodes, s, es))
    ensures |Exec(plans, nodes, s, es).workers| == |s.workers|
    decreases |es|
  {
    if es != [] {
      StepKeepsInv(plans, nodes, s, es[0]);
      RunKeepsInv(plans, nodes, Next(plans, nodes, s, es[0]), es[1..]);
    }
  }

  lemma InitialInv(plans: seq<Plan>, n: nat)
    ensures Inv(plans, Initial(n))
  {
    assert Channel(FreshWorker) == [] == Acks(plans, 0, 0);
    assert WorkerInv(plans, FreshWorker);
  }

  // ----- What an acknowledgement says -----

  /** Among the plans of one session an acknowledgement stands for the plan it answers and for no other. */
  lemma AcknowledgesOnlyItsPlan(plans: seq<Plan>, nodes: int, i: nat, j: nat)
    requires HonestPlans(plans, nodes) && i < |plans| && j < |plans|
    ensures Acknowledges(ReadyOf(plans[i]), plans[j]) <==> i == j
  {
    if i < j { assert plans[i].runID != plans[j].runID; }
    if j < i { assert plans[j].runID != plans[i].runID; }
  }

  /** Rank 0 goes on only if every field is that of the outstanding plan; anything else ends the session. */
  lemma ReceiveDecides(plans: seq<Plan>, nodes: int, s: State)
    requires Enabled(plans, s, ReceiveNext)
    ensures var p, r := plans[s.primary.k], s.workers[s.primary.i].ready.value;
            var t := Next(plans, nodes, s, ReceiveNext);
            if r == Ready(1, p.runID, p.stage, p.ordinal, p.count) then t.primary == Awaiting(s.primary.k, s.primary.i + 1)
            else t.primary == Failed(Mismatch) && forall w :: w in t.workers ==> w.closed
  {
  }

  /** So an acknowledgement of another stage, left over or early, is noticed. */
  lemma StaleIsMismatch(plans: seq<Plan>, nodes: int, s: State, j: nat)
    requires HonestPlans(plans, nodes) && Enabled(plans, s, ReceiveNext) && j < |plans| && j != s.primary.k
    requires s.workers[s.primary.i].ready == Some(ReadyOf(plans[j]))
    ensures Next(plans, nodes, s, ReceiveNext).primary == Failed(Mismatch)
  {
    AcknowledgesOnlyItsPlan(plans, nodes, j, s.primary.k);
  }

  // ----- What a plan must be -----

  /** A run ID names a directory of its own below the scratch directory: it cannot leave it and is not hidden. */
  lemma RunLabelStaysInside(s: string)
    requires ValidRunLabel(s)
    ensures '/' !in s && '\\' !in s && (0 as char) !in s && s != "" && s[0] != '.' && s != ".." && s[0] != '-'
  {
  }

  /** A worker refuses a plan of another kind, schema or cluster size, one with an impossible position, and one that
      repeats the run before it. */
  lemma RefusedPlans(p: Plan, nodes: int, previousRunID: string)
    requires p.kind != "openwaldo-multinode-plan" || p.schema != 3 || p.nodes != nodes || p.ordinal < 1
             || p.count < p.ordinal || p.runID == previousRunID || p.runID == "" || '/' in p.runID
    ensures !ValidPlan(p, nodes, previousRunID)
  {
  }

  /** And no other plan, as long as its run ID has only letters, digits, dots, underscores and dashes, a letter or a
      digit first. */
  lemma AcceptedPlans(p: Plan, previousRunID: string)
    requires p.kind == "openwaldo-multinode-plan" && p.schema == 3 && 1 <= p.ordinal <= p.count && p.runID != previousRunID
    requires p.runID != "" && p.runID[0] !in "._-"
    requires forall c :: c in p.runID ==> 'a' <= c <= 'z' || 'A' <= c <= 'Z' || '0' <= c <= '9' || c in "._-"
    ensures ValidPlan(p, p.nodes, previousRunID)
  {
    assert p.runID[0] in p.runID;
  }

  // ----- Safety results -----

  /** publish(k) can only succeed when every worker has validated and prepared exactly plans
      0..k and finished the stages before k. */
  lemma PublishMeansLockstep(plans: seq<Plan>, nodes: int, n: nat, es: seq<Event>)
    requires HonestPlans(plans, nodes) && Runs(plans, nodes, Initial(n), es)
    requires Enabled(plans, Exec(plans, nodes, Initial(n), es), PublishSucceeds)
    ensures var s := Exec(plans, nodes, Initial(n), es); var k := s.primary.k;
            k < |plans| && |s.workers| == n
            && forall i :: 0 <= i < n ==>
                 s.workers[i].prepared == plans[..k + 1] && plans[..k] <= s.workers[i].ran
  {
    InitialInv(plans, n);
    RunKeepsInv(plans, nodes, Initial(n), es);
    var s := Exec(plans, nodes, Initial(n), es);
    var k := s.primary.k;
    forall i | 0 <= i < n
      ensures s.workers[i].prepared == plans[..k + 1] && plans[..k] <= s.workers[i].ran
    {
      assert WorkerInv(plans, s.workers[i]);
    }
  }

  /** In no run does an acknowledgement differ from the outstanding plan, is a plan refused,
      or does a worker run a stage before rank 0 sent it or out of order. */
  lemma NoMismatchEver(plans: seq<Plan>, nodes: int, n: nat, es: seq<Event>)
    requires HonestPlans(plans, nodes) && Runs(plans, nodes, Initial(n), es)
    ensures var s := Exec(plans, nodes, Initial(n), es);
            && s.primary != Failed(Mismatch)
            && forall w :: w in s.workers ==>
                 w.phase != Exited(Refused) && w.ran <= w.prepared <= plans && |w.prepared| <= |w.ran| + 1
  {
    InitialInv(plans, n);
    RunKeepsInv(plans, nodes, Initial(n), es);
    var s := Exec(plans, nodes, Initial(n), es);
    forall w | w in s.workers
      ensures w.phase != Exited(Refused) && w.ran <= w.prepared <= plans && |w.prepared| <= |w.ran| + 1
    {
      assert WorkerInv(plans, w);
    }
  }

  /** A worker that runs stage k, has finished it, or has failed. */
  ghost predicate InStage(plans: seq<Plan>, w: Worker, k: nat)
    requires k < |plans|
  {
    (w.phase == Running(plans[k]) && w.ran == plans[..k]) || w.ran == plans[..k + 1] || w.phase == Exited(Faulted)
  }

  lemma PreparedIsInStage(plans: seq<Plan>, w: Worker, k: nat)
    requires WorkerInv(plans, w) && k < |plans| && w.sent == w.acked == k + 1 && !w.closed
    ensures InStage(plans, w, k)
  {
    hide Channel, Acks, ReadyOf;
    assert w.prepared == plans[..k + 1];
    if w.phase.Running? { assert w.prepared[|w.ran|] == w.phase.plan; }
  }

  lemma TrainingCounters(plans: seq<Plan>, s: State, w: Worker)
    requires PrimaryInv(plans, s) && s.primary.Training? && w in s.workers
    ensures s.primary.k < |plans| && w.sent == w.acked == s.primary.k + 1 && !w.closed
  {
  }

  /** While rank 0 trains stage k, no worker is before stage k or beyond it. */
  lemma TrainingTogether(plans: seq<Plan>, nodes: int, n: nat, es: seq<Event>)
    requires HonestPlans(plans, nodes) && Runs(plans, nodes, Initial(n), es)
    requires Exec(plans, nodes, Initial(n), es).primary.Training?
    ensures var s := Exec(plans, nodes, Initial(n), es); var k := s.primary.k;
            k < |plans| && forall w :: w in s.workers ==> InStage(plans, w, k)
  {
    InitialInv(plans, n);
    RunKeepsInv(plans, nodes, Initial(n), es);
    var s := Exec(plans, nodes, Initial(n), es);
    hide WorkerInv, InStage, Exec, Runs, HonestPlans, Initial;
    forall w | w in s.workers ensures InStage(plans, w, s.primary.k) {
      TrainingCounters(plans, s, w);
      PreparedIsInStage(plans, w, s.primary.k);
    }
  }

  /** A worker process succeeds only after running every stage, or when none was ever sent. */
  lemma AllStagesOrNone(plans: seq<Plan>, nodes: int, n: nat, es: seq<Event>)
    requires HonestPlans(plans, nodes) && Runs(plans, nodes, Initial(n), es)
    ensures forall w :: w in Exec(plans, nodes, Initial(n), es).workers ==>
              (w.phase == Exited(Completed) ==> w.ran == plans && w.sent == |plans|)
              && (w.phase == Exited(NothingToDo) ==> w.ran == [] && w.sent == 0)
  {
    InitialInv(plans, n);
    RunKeepsInv(plans, nodes, Initial(n), es);
    forall w | w in Exec(plans, nodes, Initial(n), es).workers
      ensures (w.phase == Exited(Completed) ==> w.ran == plans && w.sent == |plans|)
              && (w.phase == Exited(NothingToDo) ==> w.ran == [] && w.sent == 0)
    {
      assert WorkerInv(plans, w);
    }
  }

  /** The streams of the workers are open as long as rank 0 goes on, and all closed once it has ended, whichever way. */
  ghost predicate ClosedAtEnd(s: State) {
    forall i :: 0 <= i < |s.workers| ==> (s.workers[i].closed <==> s.primary.Failed? || s.primary.Closed?)
  }

  lemma {:induction false} StreamsCloseAtEnd(plans: seq<Plan>, nodes: int, s: State, es: seq<Event>)
    requires Runs(plans, nodes, s, es) && ClosedAtEnd(s)
    ensures ClosedAtEnd(Exec(plans, nodes, s, es))
    decreases |es|
  {
    hide ValidPlan, ReadyOf, Acknowledges;
    if es != [] { StreamsCloseAtEnd(plans, nodes, Next(plans, nodes, s, es[0]), es[1..]); }
  }

  predicate Succeeded(w: Worker) { w.phase == Exited(Completed) || w.phase == Exited(NothingToDo) }

  lemma SameCountSameEnd(plans: seq<Plan>, s: State)
    requires PrimaryInv(plans, s) && s.primary.Closed?
    requires forall w :: w in s.workers ==>
               (w.phase == Exited(Completed) && w.ran == plans && w.sent == |plans|)
               || (w.phase == Exited(NothingToDo) && w.ran == [] && w.sent == 0)
    ensures (forall w :: w in s.workers ==> w.ran == plans) || (forall w :: w in s.workers ==> w.ran == [])
  {
    assert forall w :: w in s.workers ==> w.sent == s.primary.k;
  }

  /** finish(nil) reports success only if all workers ran all stages, or none was asked to. */
  lemma FinishAgrees(plans: seq<Plan>, nodes: int, n: nat, es: seq<Event>)
    requires HonestPlans(plans, nodes) && Runs(plans, nodes, Initial(n), es)
    requires var s := Exec(plans, nodes, Initial(n), es);
             s.primary.Closed? && forall w :: w in s.workers ==> Succeeded(w)
    ensures var s := Exec(plans, nodes, Initial(n), es);
            (forall w :: w in s.workers ==> w.ran == plans) || (forall w :: w in s.workers ==> w.ran == [])
  {
    InitialInv(plans, n);
    RunKeepsInv(plans, nodes, Initial(n), es);
    AllStagesOrNone(plans, nodes, n, es);
    SameCountSameEnd(plans, Exec(plans, nodes, Initial(n), es));
  }
}
