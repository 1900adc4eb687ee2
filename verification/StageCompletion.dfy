/**
 Completion of the stage handshake.  A clean run has no fault, no timeout, and
 closes the streams only after the last stage; a stage ends on a worker only
 after rank 0 has joined it, because training is a collective of all nodes.
 Every clean run is bounded, never gets stuck, and ends with every worker having
 run every stage.
 */
module StageCompletion {
  import opened Prelude
  import opened StageProtocol

  /** The number of stages whose rendezvous rank 0 has joined. */
  function Joined(p: Primary): int {
    match p
    case Training(k) => k + 1
    case Idle(k) => k
    case Sending(k, _) => k
    case Awaiting(k, _) => k
    case Closed(k) => k
    case Failed(_) => 0
  }

  predicate Clean(plans: seq<Plan>, s: State, e: Event)
    requires Enabled(plans, s, e)
  {
    match e
    case PrimaryFails => false
    case Fault(_) => false
    case CloseAll => s.primary.k == |plans|
    case RunDone(i) => |s.workers[i].ran| < Joined(s.primary)
    case _ => true
  }

  ghost predicate CleanRuns(plans: seq<Plan>, nodes: int, s: State, es: seq<Event>)
    decreases |es|
  {
    es == [] || (Enabled(plans, s, es[0]) && Clean(plans, s, es[0])
                 && CleanRuns(plans, nodes, Next(plans, nodes, s, es[0]), es[1..]))
  }

  lemma {:induction false} CleanRunsRun(plans: seq<Plan>, nodes: int, s: State, es: seq<Event>)
    requires CleanRuns(plans, nodes, s, es)
    ensures Runs(plans, nodes, s, es)
    decreases |es|
  {
    if es != [] {
      CleanRunsRun(plans, nodes, Next(plans, nodes, s, es[0]), es[1..]);
    }
  }

  ghost predicate CleanInv(plans: seq<Plan>, s: State) {
    && Inv(plans, s)
    && !s.primary.Failed?
    && (s.primary.Closed? ==> s.primary.k == |plans|)
    && forall i :: 0 <= i < |s.workers| ==> (s.workers[i].phase.Exited? ==> Succeeded(s.workers[i]))
  }

  lemma CleanStepKeeps(plans: seq<Plan>, nodes: int, s: State, e: Event)
    requires HonestPlans(plans, nodes) && CleanInv(plans, s) && Enabled(plans, s, e) && Clean(plans, s, e)
    ensures CleanInv(plans, Next(plans, nodes, s, e))
  {
    StepKeepsInv(plans, nodes, s, e);
    if WorkerEvent(e) {
      CleanExit(plans, nodes, s, e);
    } else if e.ReceiveNext? {
      ReceiveMatches(plans, s.workers[s.primary.i], s.primary.k);
    }
  }

  lemma CleanExit(plans: seq<Plan>, nodes: int, s: State, e: Event)
    requires HonestPlans(plans, nodes) && CleanInv(plans, s) && WorkerEvent(e)
    requires Enabled(plans, s, e) && Clean(plans, s, e)
    ensures var w := NextWorker(nodes, s.workers[e.i], e); w.phase.Exited? ==> Succeeded(w)
  {
    if e.Decode? { DecodeKeeps(plans, nodes, s.workers[e.i], e); }
    if e.EndOfStream? { ClosedMeansNothing(plans, s, e.i); }
  }

  // ----- The measure -----

  /** Steps a worker and its pipes have taken, each counted once. */
  function Work(w: Worker): int {
    w.sent + (w.sent - |w.inbox|) + |w.prepared| + w.acked + (if w.ready.Some? then 1 else 0) + w.acked + |w.ran|
    + (if w.phase == Exited(NothingToDo) then 1 else 0)
  }

  function TotalWork(ws: seq<Worker>): int {
    if ws == [] then 0 else Work(ws[0]) + TotalWork(ws[1..])
  }

  function PrimaryWork(p: Primary): int {
    match p
    case Idle(k) => 4 * k
    case Sending(k, _) => 4 * k + 1
    case Awaiting(k, _) => 4 * k + 2
    case Training(k) => 4 * k + 3
    case Closed(k) => 4 * k + 1
    case Failed(_) => 0
  }

  lemma {:induction false} TotalAfterUpdate(ws: seq<Worker>, i: nat, w: Worker)
    requires i < |ws|
    ensures TotalWork(ws[i := w]) == TotalWork(ws) - Work(ws[i]) + Work(w)
  {
    if i == 0 {
      assert ws[i := w][1..] == ws[1..];
    } else {
      assert ws[i := w][1..] == ws[1..][i - 1 := w];
      TotalAfterUpdate(ws[1..], i - 1, w);
    }
  }

  lemma {:induction false} TotalAfterClose(ws: seq<Worker>)
    ensures TotalWork(CloseStdin(ws)) == TotalWork(ws)
  {
    if ws != [] {
      assert CloseStdin(ws)[1..] == CloseStdin(ws[1..]);
      TotalAfterClose(ws[1..]);
    }
  }

  lemma WorkBound(plans: seq<Plan>, w: Worker)
    requires WorkerInv(plans, w)
    ensures Work(w) <= 6 * |plans| + 1
  {
    assert |Channel(w)| == |w.prepared| - w.acked;
  }

  lemma OneMore(c: nat, n: nat)
    requires n > 0
    ensures c + c * (n - 1) == c * n
  {
  }

  lemma {:induction false} TotalBound(plans: seq<Plan>, ws: seq<Worker>)
    requires forall i :: 0 <= i < |ws| ==> WorkerInv(plans, ws[i])
    ensures TotalWork(ws) <= (6 * |plans| + 1) * |ws|
  {
    hide WorkerInv, Work;
    if ws != [] {
      WorkBound(plans, ws[0]);
      TotalBound(plans, ws[1..]);
      OneMore(6 * |plans| + 1, |ws|);
    }
  }

  lemma WorkerStepCounts(nodes: int, w: Worker, e: Event)
    requires EnabledWorker(w, e) && !e.Fault?
    requires e.EndOfStream? ==> w.lastRunID == ""
    ensures Work(NextWorker(nodes, w, e)) == Work(w) + 1
  {
  }

  /** A clean end of stream only reaches a worker that was never sent a plan. */
  lemma ClosedMeansNothing(plans: seq<Plan>, s: State, i: nat)
    requires CleanInv(plans, s) && i < |s.workers|
    requires s.workers[i].closed && s.workers[i].phase.Waiting? && s.workers[i].inbox == []
    ensures s.workers[i].lastRunID == "" && plans == []
  {
    var w := s.workers[i];
    assert WorkerInv(plans, w);
    assert s.primary.Closed? && w.sent == |plans|;
  }

  lemma SendCounts(plans: seq<Plan>, nodes: int, s: State)
    requires Enabled(plans, s, SendNext)
    ensures var t := Next(plans, nodes, s, SendNext);
            TotalWork(t.workers) + PrimaryWork(t.primary) == TotalWork(s.workers) + PrimaryWork(s.primary) + 1
  {
    var w := s.workers[s.primary.i];
    TotalAfterUpdate(s.workers, s.primary.i, w.(inbox := w.inbox + [plans[s.primary.k]], sent := w.sent + 1));
  }

  lemma ReceiveCounts(plans: seq<Plan>, nodes: int, s: State)
    requires Enabled(plans, s, ReceiveNext) && s.workers[s.primary.i].ready.value == ReadyOf(plans[s.primary.k])
    ensures var t := Next(plans, nodes, s, ReceiveNext);
            TotalWork(t.workers) + PrimaryWork(t.primary) == TotalWork(s.workers) + PrimaryWork(s.primary) + 1
  {
    var w := s.workers[s.primary.i];
    TotalAfterUpdate(s.workers, s.primary.i, w.(ready := None, acked := w.acked + 1));
  }

  lemma StepCounts(plans: seq<Plan>, nodes: int, s: State, e: Event)
    requires HonestPlans(plans, nodes) && CleanInv(plans, s) && Enabled(plans, s, e) && Clean(plans, s, e)
    ensures var t := Next(plans, nodes, s, e);
            TotalWork(t.workers) + PrimaryWork(t.primary) == TotalWork(s.workers) + PrimaryWork(s.primary) + 1
  {
    if WorkerEvent(e) {
      if e.EndOfStream? { ClosedMeansNothing(plans, s, e.i); }
      WorkerStepCounts(nodes, s.workers[e.i], e);
      TotalAfterUpdate(s.workers, e.i, NextWorker(nodes, s.workers[e.i], e));
    } else if e.SendNext? {
      SendCounts(plans, nodes, s);
    } else if e.ReceiveNext? {
      AckIsCurrent(plans, s.workers[s.primary.i], s.primary.k);
      ReceiveCounts(plans, nodes, s);
    } else if e.CloseAll? {
      TotalAfterClose(s.workers);
    }
  }

  // ----- No deadlock -----

  ghost predicate AllDone(plans: seq<Plan>, s: State) {
    && s.primary == Closed(|plans|)
    && forall w :: w in s.workers ==> Succeeded(w) && w.ran == plans
  }

  ghost predicate Moves(plans: seq<Plan>, s: State) { exists e :: Enabled(plans, s, e) && Clean(plans, s, e) }

  /** The outstanding worker of publish(k) can move: its acknowledgement is on the way. */
  lemma OutstandingMoves(plans: seq<Plan>, s: State)
    requires CleanInv(plans, s) && s.primary.Awaiting? && s.primary.i < |s.workers|
    ensures Moves(plans, s)
  {
    var e := ReceiveNext;
    var i, k := s.primary.i, s.primary.k;
    var w := s.workers[i];
    assert WorkerInv(plans, w);
    if w.ready.None? && w.stdout != [] {
      e := Forward(i);
    } else if w.ready.None? {
      assert |Channel(w)| == 0;
      assert |w.prepared| == k;
      e := match w.phase case Waiting => Decode(i) case Preparing(_) => Acknowledge(i) case _ => RunDone(i);
    }
    assert Enabled(plans, s, e) && Clean(plans, s, e);
  }

  lemma PreparingIsBehind(plans: seq<Plan>, w: Worker)
    requires WorkerInv(plans, w) && w.phase.Preparing?
    ensures |w.prepared| < w.sent
  {
    assert |w.ran + [w.phase.plan] + w.inbox| == w.sent;
  }

  lemma ClosedMoves(plans: seq<Plan>, s: State, i: nat)
    requires CleanInv(plans, s) && s.primary.Closed? && i < |s.workers| && !s.workers[i].phase.Exited?
    ensures Moves(plans, s)
  {
    var w := s.workers[i];
    assert WorkerInv(plans, w);
    assert |w.prepared| == |plans|;
    if w.phase.Preparing? { PreparingIsBehind(plans, w); }
    if w.phase.Waiting? { assert |w.ran| + |w.inbox| == |plans|; }
    var e := if w.phase.Waiting? then EndOfStream(i) else RunDone(i);
    assert Enabled(plans, s, e) && Clean(plans, s, e);
  }

  lemma AllExitedMeansDone(plans: seq<Plan>, s: State)
    requires CleanInv(plans, s) && s.primary.Closed?
    requires forall i :: 0 <= i < |s.workers| ==> s.workers[i].phase.Exited?
    ensures AllDone(plans, s)
  {
    forall w | w in s.workers ensures Succeeded(w) && w.ran == plans {
      assert WorkerInv(plans, w);
    }
  }

  lemma SomethingEnabled(plans: seq<Plan>, s: State)
    requires CleanInv(plans, s) && !AllDone(plans, s)
    ensures Moves(plans, s)
  {
    match s.primary
    case Idle(k) => OneMove(plans, s, if k < |plans| then StartPublish else CloseAll);
    case Sending(_, i) => OneMove(plans, s, if i < |s.workers| then SendNext else AllSent);
    case Awaiting(_, i) =>
      if i < |s.workers| { OutstandingMoves(plans, s); } else { OneMove(plans, s, PublishSucceeds); }
    case Training(_) => OneMove(plans, s, TrainDone);
    case Closed(_) =>
      if i :| 0 <= i < |s.workers| && !s.workers[i].phase.Exited? {
        ClosedMoves(plans, s, i);
      } else {
        AllExitedMeansDone(plans, s);
        assert false;
      }
  }

  lemma OneMove(plans: seq<Plan>, s: State, e: Event)
    requires Enabled(plans, s, e) && Clean(plans, s, e)
    ensures Moves(plans, s)
  {
  }

  lemma {:induction false} CleanRunCounts(plans: seq<Plan>, nodes: int, s: State, es: seq<Event>)
    requires HonestPlans(plans, nodes) && CleanInv(plans, s) && CleanRuns(plans, nodes, s, es)
    ensures Runs(plans, nodes, s, es)
    ensures var t := Exec(plans, nodes, s, es);
            && CleanInv(plans, t) && |t.workers| == |s.workers|
            && TotalWork(t.workers) + PrimaryWork(t.primary) == TotalWork(s.workers) + PrimaryWork(s.primary) + |es|
    decreases |es|
  {
    if es != [] {
      CleanRunsRun(plans, nodes, s, es);
      CleanStepKeeps(plans, nodes, s, es[0]);
      StepCounts(plans, nodes, s, es[0]);
      CleanRunCounts(plans, nodes, Next(plans, nodes, s, es[0]), es[1..]);
    }
  }

  lemma {:induction false} FreshTotal(n: nat)
    ensures TotalWork(Initial(n).workers) == 0
  {
    if n > 0 {
      assert Initial(n).workers[1..] == Initial(n - 1).workers;
      FreshTotal(n - 1);
    }
  }

  /** Every clean run is bounded by the number of plans and workers; it can go on until every
      worker has exited successfully having run every stage. */
  lemma CleanRunsComplete(plans: seq<Plan>, nodes: int, n: nat, es: seq<Event>)
    requires HonestPlans(plans, nodes) && CleanRuns(plans, nodes, Initial(n), es)
    ensures Runs(plans, nodes, Initial(n), es)
    ensures |es| <= (6 * |plans| + 1) * n + 4 * |plans| + 3
    ensures var t := Exec(plans, nodes, Initial(n), es);
            AllDone(plans, t) || Moves(plans, t)
  {
    InitialInv(plans, n);
    FreshTotal(n);
    CleanRunCounts(plans, nodes, Initial(n), es);
    hide CleanInv, AllDone, Moves, CleanRuns, TotalWork;
    var t := Exec(plans, nodes, Initial(n), es);
    WorkDone(plans, t);
    if !AllDone(plans, t) {
      SomethingEnabled(plans, t);
    }
  }

  lemma WorkDone(plans: seq<Plan>, s: State)
    requires CleanInv(plans, s)
    ensures TotalWork(s.workers) <= (6 * |plans| + 1) * |s.workers| && PrimaryWork(s.primary) <= 4 * |plans| + 3
  {
    hide WorkerInv;
    TotalBound(plans, s.workers);
  }
}
