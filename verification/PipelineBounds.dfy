/** What the verification pipeline never exceeds, and when it is cancelled. */
module PipelineBounds {
  import opened Prelude
  import opened VerificationPipeline

  /** The jobs among the first that are in some place, counted one by one. */
  ghost function Holding(at: seq<Where>, place: Where -> bool): set<nat> {
    set i: nat | i < |at| && place(at[i])
  }

  function Holds(): Where -> bool { (w: Where) => w.Active? || w.Verified? }

  function InTransit(): Where -> bool { (w: Where) => w.Sent? }

  lemma HoldingPush(at: seq<Where>, place: Where -> bool)
    requires at != []
    ensures var n := |at| - 1;
            |Holding(at, place)| == |Holding(at[..n], place)| + if place(at[n]) then 1 else 0
  {
    var n := |at| - 1;
    var front := Holding(at[..n], place);
    assert n !in front;
    assert Holding(at, place) == front + if place(at[n]) then {n} else {};
  }

  lemma {:induction false} CountsAreSizes(at: seq<Where>)
    ensures Busy(at) == |Holding(at, Holds())| && InChannel(at) == |Holding(at, InTransit())|
  {
    if at == [] {
      assert Holding(at, Holds()) == {} && Holding(at, InTransit()) == {};
    } else {
      CountsAreSizes(at[..|at| - 1]);
      HoldingPush(at, Holds());
      HoldingPush(at, InTransit());
    }
  }

  /** The queue, the workers and the channel hold at most one job for each worker; only a cancelled pipeline refuses,
      and it is cancelled as soon as one verdict has failed. */
  ghost predicate Bounded(s: State) {
    && |s.at| <= |s.accepted| <= |s.at| + s.workers
    && Busy(s.at) <= s.workers && InChannel(s.at) <= s.workers
    && (s.refused ==> s.cancelled)
    && (forall i :: 0 <= i < |s.at| && (s.at[i].Verified? || s.at[i].Sent?) && s.at[i].verdict.Err? ==> s.cancelled)
    && (forall i :: 0 <= i < |s.arrivals| && s.arrivals[i].verdict.Err? ==> s.cancelled)
  }

  lemma {:induction false} CountsUpdate(at: seq<Where>, i: nat, w: Where)
    requires i < |at|
    ensures Busy(at[i := w]) == Busy(at) + One(Holds()(w)) - One(Holds()(at[i]))
    ensures InChannel(at[i := w]) == InChannel(at) + One(InTransit()(w)) - One(InTransit()(at[i]))
  {
    var n := |at| - 1;
    if i < n {
      assert at[i := w][..n] == at[..n][i := w];
      CountsUpdate(at[..n], i, w);
    } else {
      assert at[i := w][..n] == at[..n];
    }
  }

  lemma TakeStep(at: seq<Where>)
    ensures Busy(at + [Active]) == Busy(at) + 1 && InChannel(at + [Active]) == InChannel(at)
  {
    assert (at + [Active])[..|at|] == at;
  }

  lemma StepKeepsBounds(run: Oracle, s: State, e: Event)
    requires Bounded(s) && Enabled(s, e)
    ensures Bounded(Next(run, s, e))
  {
    hide Busy, InChannel;
    match e {
      case Take => TakeStep(s.at);
      case Verify(i) => CountsUpdate(s.at, i, Verified(run.audit(i + 1, s.accepted[i])));
      case Send(i) => CountsUpdate(s.at, i, Sent(s.at[i].verdict));
      case Receive(i) => CountsUpdate(s.at, i, Received);
      case _ =>
    }
  }

  lemma {:induction false} StaysBounded(run: Oracle, s: State, es: seq<Event>)
    requires Bounded(s) && Runs(run, s, es)
    ensures Bounded(Exec(run, s, es)) && Exec(run, s, es).workers == s.workers
    decreases |es|
  {
    hide Bounded;
    if es != [] {
      StepKeepsBounds(run, s, es[0]);
      StaysBounded(run, Next(run, s, es[0]), es[1..]);
    }
  }

  /** In every interleaving at most `workers` jobs wait in the queue, at most `workers` are being verified and at most
      `workers` outcomes are on their way, so at most three for each worker have not reached the collector; an enqueue
      is only refused after a cancellation, and a failed audit always cancels. */
  lemma NeverMoreThanWorkers(run: Oracle, workers: nat, es: seq<Event>)
    requires Runs(run, Start(workers), es)
    ensures var s := Exec(run, Start(workers), es);
      && |s.accepted| - |s.at| <= workers
      && |Holding(s.at, Holds())| <= workers && |Holding(s.at, InTransit())| <= workers
      && (s.refused ==> s.cancelled)
      && (forall i :: 0 <= i < |s.arrivals| && s.arrivals[i].verdict.Err? ==> s.cancelled)
  {
    StaysBounded(run, Start(workers), es);
    CountsAreSizes(Exec(run, Start(workers), es).at);
  }

  lemma {:induction false} Uncancelled(run: Oracle, s: State, es: seq<Event>)
    requires Runs(run, s, es) && Cancel !in es && !s.cancelled && !s.refused
    requires forall i: nat, o: Object :: run.audit(i, o).Ok?
    ensures var t := Exec(run, s, es); !t.cancelled && !t.refused
    decreases |es|
  {
    hide Busy, InChannel;
    if es != [] {
      assert es[0] in es && forall e :: e in es[1..] ==> e in es;
      Uncancelled(run, Next(run, s, es[0]), es[1..]);
    }
  }

  /** Conversely nothing but a failed audit, the caller or the sink cancels: without them no enqueue is ever refused. */
  lemma NoneRefused(run: Oracle, workers: nat, es: seq<Event>)
    requires Runs(run, Start(workers), es) && Cancel !in es
    requires forall i: nat, o: Object :: run.audit(i, o).Ok?
    ensures !Exec(run, Start(workers), es).refused && !Exec(run, Start(workers), es).cancelled
  {
    Uncancelled(run, Start(workers), es);
  }
}
