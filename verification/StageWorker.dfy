/**
 The worker's loop over streamed plans, as written: decode, validate, prepare,
 acknowledge, run, remember the run ID.  Every run of the loop is a run of the
 worker's transitions in StageProtocol.
 */
module StageWorker {
  import opened Prelude
  import opened StageProtocol

  /** A worker whose stream will deliver these plans and then end. */
  function Streamed(plans: seq<Plan>): Worker { FreshWorker.(inbox := plans, closed := true) }

  ghost predicate Steps(nodes: int, w: Worker, es: seq<Event>)
    decreases |es|, 0
  {
    es == [] ||
    (Steps(nodes, w, es[..|es| - 1]) && EnabledWorker(After(nodes, w, es[..|es| - 1]), es[|es| - 1]))
  }

  ghost function After(nodes: int, w: Worker, es: seq<Event>): Worker
    requires Steps(nodes, w, es)
    decreases |es|, 1
  {
    if es == [] then w else NextWorker(nodes, After(nodes, w, es[..|es| - 1]), es[|es| - 1])
  }

  lemma OneMore(nodes: int, w: Worker, es: seq<Event>, e: Event)
    requires Steps(nodes, w, es) && EnabledWorker(After(nodes, w, es), e)
    ensures Steps(nodes, w, es + [e]) && After(nodes, w, es + [e]) == NextWorker(nodes, After(nodes, w, es), e)
  {
    assert (es + [e])[..|es|] == es;
  }

  /** A step, recorded; any failing call of the loop is the worker's Fault. */
  lemma Take(nodes: int, w: Worker, es: seq<Event>, now: Worker, e: Event) returns (more: seq<Event>, next: Worker)
    requires Steps(nodes, w, es) && now == After(nodes, w, es) && EnabledWorker(now, e)
    ensures next == NextWorker(nodes, now, e) && Steps(nodes, w, more) && next == After(nodes, w, more)
  {
    OneMore(nodes, w, es, e);
    more, next := es + [e], NextWorker(nodes, now, e);
  }

  /** The loop knows its stream position and its last run ID, and nothing else of the worker's state. */
  ghost predicate AtTop(now: Worker, plans: seq<Plan>, position: nat, lastRunID: string, ran: seq<Plan>, acks: seq<Ready>) {
    && position <= |plans| && now.phase.Waiting? && now.closed && now.inbox == plans[position..]
    && now.lastRunID == lastRunID && now.ran == ran == plans[..position] && now.stdout == acks
  }

  /** Which calls succeed, by the number of stages run before them. */
  datatype Calls = Calls(decodes: nat -> bool, prepares: nat -> bool, acknowledges: nat -> bool, runs: nat -> bool)

  predicate StageWorks(calls: Calls, k: nat) { calls.prepares(k) && calls.acknowledges(k) && calls.runs(k) }

  /** One validated plan: prepare, acknowledge, run; any of the three may fail. */
  method RunStage(plan: Plan, nodes: int, calls: Calls, k: nat, ghost start: Worker, ghost before: seq<Event>, ghost was: Worker)
    returns (ok: bool, acks: seq<Ready>, ghost es: seq<Event>, ghost now: Worker)
    requires Steps(nodes, start, before) && was == After(nodes, start, before) && was.phase == Preparing(plan)
    ensures Steps(nodes, start, es) && now == After(nodes, start, es)
    ensures now.stdout == was.stdout + acks && now.inbox == was.inbox && now.closed == was.closed
    ensures ok ==> |acks| == 1 && now.ran == was.ran + [plan] && now.lastRunID == plan.runID
    ensures ok ==> now.phase == if plan.ordinal == plan.count then Exited(Completed) else Waiting
    ensures !ok ==> now.phase == Exited(Faulted) && now.ran == was.ran
    ensures ok <==> StageWorks(calls, k)
    ensures acks == if calls.prepares(k) && calls.acknowledges(k)
                    then [Ready(1, plan.runID, plan.stage, plan.ordinal, plan.count)] else []
  {
    es, now, acks := before, was, [];
    if !calls.prepares(k) || !calls.acknowledges(k) {
      es, now := Take(nodes, start, es, now, Fault(0));
      return false, acks, es, now;
    }
    es, now := Take(nodes, start, es, now, Acknowledge(0));
    acks := [ReadyOf(plan)];
    if !calls.runs(k) {
      es, now := Take(nodes, start, es, now, Fault(0));
      return false, acks, es, now;
    }
    es, now := Take(nodes, start, es, now, RunDone(0));
    ok := true;
  }

  /** The i-th acknowledgement is that of the i-th plan. */
  ghost predicate Answers(acks: seq<Ready>, plans: seq<Plan>) {
    |acks| <= |plans| && forall i :: 0 <= i < |acks| ==>
      acks[i] == Ready(1, plans[i].runID, plans[i].stage, plans[i].ordinal, plans[i].count)
  }

  lemma AnswersMore(acks: seq<Ready>, plans: seq<Plan>, more: seq<Ready>)
    requires Answers(acks, plans) && |acks| < |plans|
    requires var p := plans[|acks|]; more == [] || more == [Ready(1, p.runID, p.stage, p.ordinal, p.count)]
    ensures Answers(acks + more, plans)
  {
  }

  lemma Begins(nodes: int, plans: seq<Plan>)
    ensures Steps(nodes, Streamed(plans), []) && After(nodes, Streamed(plans), []) == Streamed(plans)
    ensures Answers([], plans) && LastRunID([]) == ""
  {
  }

  function LastRunID(ran: seq<Plan>): string { if ran == [] then "" else ran[|ran| - 1].runID }

  lemma LastOf(ran: seq<Plan>, p: Plan)
    ensures LastRunID(ran + [p]) == p.runID
  {
  }

  /** Why the loop ends where it does, with the first stages of the stream run. */
  ghost predicate EndsWith(plans: seq<Plan>, nodes: int, calls: Calls, ran: seq<Plan>, exit: Exit) {
    && ran <= plans
    && (exit == Completed <==> ran != [] && ran[|ran| - 1].ordinal == ran[|ran| - 1].count)
    && match exit
       case Completed => true
       case NothingToDo => plans == [] && calls.decodes(0)
       case Truncated => ran == plans != [] && calls.decodes(|ran|)
       case Refused => |ran| < |plans| && calls.decodes(|ran|) && !ValidPlan(plans[|ran|], nodes, LastRunID(ran))
       case Faulted => !calls.decodes(|ran|) || (|ran| < |plans| && !StageWorks(calls, |ran|))
  }

  lemma StopsWith(plans: seq<Plan>, nodes: int, calls: Calls, n: nat, ran: seq<Plan>, exit: Exit)
    requires n <= |plans| && ran == plans[..n] && forall k :: 0 <= k < |ran| ==> ran[k].ordinal != ran[k].count
    requires match exit
             case Completed => false
             case NothingToDo => |plans| == n == 0 && calls.decodes(n)
             case Truncated => |plans| == n > 0 && calls.decodes(n)
             case Refused => n < |plans| && calls.decodes(n) && !ValidPlan(plans[n], nodes, LastRunID(ran))
             case Faulted => !calls.decodes(n) || (n < |plans| && !StageWorks(calls, n))
    ensures EndsWith(plans, nodes, calls, ran, exit)
  {
    hide ValidPlan, StageWorks, LastRunID;
  }

  lemma CompletesWith(plans: seq<Plan>, nodes: int, calls: Calls, n: nat, ran: seq<Plan>)
    requires 0 < n <= |plans| && ran == plans[..n] && plans[n - 1].ordinal == plans[n - 1].count
    ensures EndsWith(plans, nodes, calls, ran, Completed)
  {
  }

  lemma ValidHasRunID(p: Plan, nodes: int, previousRunID: string)
    requires ValidPlan(p, nodes, previousRunID)
    ensures p.runID != ""
  {
  }

  /** One turn of the loop with a decoded plan; None means that the loop goes on. */
  method TakePlan(plan: Plan, nodes: int, calls: Calls, k: nat, lastRunID: string, ghost start: Worker, ghost before: seq<Event>,
                  ghost was: Worker)
    returns (exit: Option<Exit>, acks: seq<Ready>, ghost es: seq<Event>, ghost now: Worker)
    requires Steps(nodes, start, before) && was == After(nodes, start, before)
    requires was.phase.Waiting? && was.inbox != [] && was.inbox[0] == plan && was.lastRunID == lastRunID
    ensures Steps(nodes, start, es) && now == After(nodes, start, es)
    ensures now.stdout == was.stdout + acks && now.inbox == was.inbox[1..] && now.closed == was.closed
    ensures exit == if !ValidPlan(plan, nodes, lastRunID) then Some(Refused) else if !StageWorks(calls, k) then Some(Faulted)
                    else if plan.ordinal == plan.count then Some(Completed) else None
    ensures exit.Some? ==> now.phase == Exited(exit.value)
    ensures exit in {None, Some(Completed)} ==> now.ran == was.ran + [plan] && now.lastRunID == plan.runID != "" && |acks| == 1
    ensures exit in {Some(Refused), Some(Faulted)} ==> now.ran == was.ran
    ensures exit == None ==> now.phase == Waiting
    ensures acks == if ValidPlan(plan, nodes, lastRunID) && calls.prepares(k) && calls.acknowledges(k)
                    then [Ready(1, plan.runID, plan.stage, plan.ordinal, plan.count)] else []
  {
    es, now := Take(nodes, start, before, was, Decode(0));
    if !ValidPlan(plan, nodes, lastRunID) {
      assert was.stdout + [] == was.stdout;
      return Some(Refused), [], es, now;
    }
    ValidHasRunID(plan, nodes, lastRunID);
    hide ValidPlan, After, Steps, NextWorker, EnabledWorker;
    var ok;
    ok, acks, es, now := RunStage(plan, nodes, calls, k, start, es, now);
    exit := if !ok then Some(Faulted) else if plan.ordinal == plan.count then Some(Completed) else None;
  }

  /** The two ways in which the loop ends before a plan is decoded. */
  lemma EndsAtTop(nodes: int, start: Worker, es: seq<Event>, now: Worker, e: Event) returns (more: seq<Event>, last: Worker)
    requires Steps(nodes, start, es) && now == After(nodes, start, es) && now.phase.Waiting?
    requires e == Fault(0) || (e == EndOfStream(0) && now.inbox == [] && now.closed)
    ensures Steps(nodes, start, more) && last == After(nodes, start, more) && last.ran == now.ran && last.stdout == now.stdout
    ensures last.phase == Exited(if e == Fault(0) then Faulted else if now.lastRunID == "" then NothingToDo else Truncated)
  {
    more, last := Take(nodes, start, es, now, e);
  }

  /** runSecondaryStreamPlansWithRunner; decoding, preparing, acknowledging and running may each fail. */
  method RunStreamPlans(plans: seq<Plan>, nodes: int, calls: Calls)
    returns (exit: Exit, ran: seq<Plan>, acks: seq<Ready>, ghost es: seq<Event>)
    ensures Steps(nodes, Streamed(plans), es)
    ensures After(nodes, Streamed(plans), es).phase == Exited(exit)
    ensures After(nodes, Streamed(plans), es).ran == ran && After(nodes, Streamed(plans), es).stdout == acks
    ensures EndsWith(plans, nodes, calls, ran, exit)
    ensures |ran| <= |acks| <= |ran| + 1
    ensures Answers(acks, plans)
    ensures forall k :: 0 <= k < |ran| - 1 ==> ran[k].ordinal != ran[k].count
  {
    hide ValidPlan, Answers, After, Steps, NextWorker, EnabledWorker, LastRunID, StageWorks, EndsWith;
    ghost var start, now := Streamed(plans), Streamed(plans);
    var lastRunID, position := "", 0;
    ran, acks, es := [], [], [];
    Begins(nodes, plans);
    while true
      invariant Steps(nodes, start, es) && now == After(nodes, start, es)
      invariant AtTop(now, plans, position, lastRunID, ran, acks)
      invariant |acks| == position && Answers(acks, plans)
      invariant lastRunID == LastRunID(ran) && (position > 0 ==> lastRunID != "")
      invariant forall k :: 0 <= k < |ran| ==> ran[k].ordinal != ran[k].count
      decreases |plans| - position
    {
      if !calls.decodes(position) {
        es, now := EndsAtTop(nodes, start, es, now, Fault(0));
        StopsWith(plans, nodes, calls, position, ran, Faulted);
        return Faulted, ran, acks, es;
      }
      if position == |plans| {
        es, now := EndsAtTop(nodes, start, es, now, EndOfStream(0));
        exit := if lastRunID == "" then NothingToDo else Truncated;
        StopsWith(plans, nodes, calls, position, ran, exit);
        return;
      }
      var plan := plans[position];
      var ends, acknowledged;
      ends, acknowledged, es, now := TakePlan(plan, nodes, calls, position, lastRunID, start, es, now);
      AnswersMore(acks, plans, acknowledged);
      acks := acks + acknowledged;
      if ends == Some(Refused) || ends == Some(Faulted) {
        StopsWith(plans, nodes, calls, position, ran, ends.value);
        return ends.value, ran, acks, es;
      }
      assert plans[..position + 1] == plans[..position] + [plan];
      LastOf(ran, plan);
      ran := ran + [plan];
      lastRunID := plan.runID;
      position := position + 1;
      if ends == Some(Completed) {
        CompletesWith(plans, nodes, calls, position, ran);
        return Completed, ran, acks, es;
      }
    }
  }

  // ----- Which plans are run -----

  /** The k-th stage that was run was valid for this cluster, and no repetition of the one before it. */
  ghost predicate AllValid(nodes: int, ran: seq<Plan>) {
    forall k :: 0 <= k < |ran| ==> ValidPlan(ran[k], nodes, LastRunID(ran[..k]))
  }

  ghost predicate RanValid(nodes: int, w: Worker) {
    && AllValid(nodes, w.ran) && w.lastRunID == LastRunID(w.ran)
    && (w.phase.Preparing? || w.phase.Running? ==> ValidPlan(w.phase.plan, nodes, w.lastRunID))
  }

  lemma ValidMore(nodes: int, ran: seq<Plan>, p: Plan)
    requires AllValid(nodes, ran) && ValidPlan(p, nodes, LastRunID(ran))
    ensures AllValid(nodes, ran + [p]) && LastRunID(ran + [p]) == p.runID
  {
    hide ValidPlan, LastRunID;
    var more := ran + [p];
    forall k | 0 <= k < |more| ensures ValidPlan(more[k], nodes, LastRunID(more[..k])) {
      assert more[..k] == ran[..k];
      assert ran[..|ran|] == ran;
    }
    assert LastRunID(more) == p.runID by { LastOf(ran, p); }
  }

  lemma StepRanValid(nodes: int, w: Worker, e: Event)
    requires RanValid(nodes, w) && EnabledWorker(w, e)
    ensures RanValid(nodes, NextWorker(nodes, w, e))
  {
    hide ValidPlan, AllValid, LastRunID;
    if e.RunDone? { ValidMore(nodes, w.ran, w.phase.plan); }
  }

  /** A worker never prepares or runs a plan that is not valid where it stands in the stream, whatever it is sent. */
  lemma {:induction false} OnlyValidPlansRun(nodes: int, plans: seq<Plan>, es: seq<Event>)
    requires Steps(nodes, Streamed(plans), es)
    ensures RanValid(nodes, After(nodes, Streamed(plans), es))
    decreases |es|
  {
    hide RanValid, EnabledWorker, NextWorker;
    if es == [] {
      FreshRanValid(nodes, plans);
    } else {
      OnlyValidPlansRun(nodes, plans, es[..|es| - 1]);
      StepRanValid(nodes, After(nodes, Streamed(plans), es[..|es| - 1]), es[|es| - 1]);
    }
  }

  lemma FreshRanValid(nodes: int, plans: seq<Plan>)
    ensures RanValid(nodes, Streamed(plans))
  {
  }
}
