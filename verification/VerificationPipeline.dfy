/**
 The parallel verifier with its reorder buffer: jobs are verified by any number
 of workers in any order, and the collector hands the results to the sink in
 enqueue order.  Verification and the sink are oracles indexed by sequence
 number, which is no restriction: each is consulted at most once per sequence.
 */
module VerificationPipeline {
  import opened Prelude

  /** One assembled object: its staging path and the digest of its content. */
  datatype Object = Object(path: string, sha: string)

  /** What verifying and staging an object returns. */
  type Verdict = Result<Object, string>

  datatype Outcome = Outcome(sequence: nat, verdict: Verdict)

  datatype Error = AuditFailed(sequence: nat, message: string) | SinkFailed(sequence: nat)

  /** The variables of `collect`; `delivered` logs the sink calls. */
  datatype Collector = Collector(pending: map<nat, Outcome>, next: nat,
                                    objects: seq<Object>, delivered: seq<(nat, Object)>, firstErr: Option<Error>)

  function Fresh(): Collector { Collector(map[], 1, [], [], None) }

  /** One turn of the inner loop: what happens to the outcome whose turn it is. */
  function Settle(c: Collector, verdict: Verdict, sinkOk: bool): Collector {
    var c' := c.(pending := c.pending - {c.next}, next := c.next + 1);
    if c.firstErr.Some? then c'
    else match verdict
      case Err(message) => c'.(firstErr := Some(AuditFailed(c.next, message)))
      case Ok(o) =>
        var called := c'.(delivered := c.delivered + [(c.next, o)]);
        if sinkOk then called.(objects := c.objects + [o]) else called.(firstErr := Some(SinkFailed(c.next)))
  }

  function Drain(c: Collector, sink: nat -> bool): Collector
    decreases |c.pending|
  {
    if c.next !in c.pending then c
    else
      assert |c.pending.Keys - {c.next}| < |c.pending.Keys|;
      Drain(Settle(c, c.pending[c.next].verdict, sink(c.next)), sink)
  }

  function Absorb(c: Collector, outcome: Outcome, sink: nat -> bool): Collector {
    Drain(c.(pending := c.pending[outcome.sequence := outcome]), sink)
  }

  function AbsorbAll(arrivals: seq<Outcome>, sink: nat -> bool): Collector {
    if arrivals == [] then Fresh()
    else Absorb(AbsorbAll(arrivals[..|arrivals| - 1], sink), arrivals[|arrivals| - 1], sink)
  }

  /** The source's loops. */
  method Collect(arrivals: seq<Outcome>, sink: nat -> bool) returns (objects: seq<Object>, firstErr: Option<Error>,
                                                                          ghost c: Collector)
    ensures c == AbsorbAll(arrivals, sink)
    ensures objects == AbsorbAll(arrivals, sink).objects && firstErr == AbsorbAll(arrivals, sink).firstErr
  {
    var pending: map<nat, Outcome> := map[];
    objects := [];
    var next := 1;
    firstErr := None;
    ghost var delivered: seq<(nat, Object)> := [];
    for i := 0 to |arrivals|
      invariant Collector(pending, next, objects, delivered, firstErr) == AbsorbAll(arrivals[..i], sink)
    {
      assert arrivals[..i + 1][..i] == arrivals[..i];
      pending := pending[arrivals[i].sequence := arrivals[i]];
      while next in pending
        invariant Drain(Collector(pending, next, objects, delivered, firstErr), sink) == AbsorbAll(arrivals[..i + 1], sink)
        decreases |pending|
      {
        var current := pending[next];
        assert |pending.Keys - {next}| < |pending.Keys|;
        pending := pending - {next};
        match current.verdict {
          case Err(message) =>
            if firstErr.None? { firstErr := Some(AuditFailed(next, message)); }
          case Ok(o) =>
            if firstErr.None? {
              delivered := delivered + [(next, o)];
              if !sink(next) { firstErr := Some(SinkFailed(next)); } else { objects := objects + [o]; }
            }
        }
        next := next + 1;
      }
    }
    assert arrivals[..|arrivals|] == arrivals;
    c := Collector(pending, next, objects, delivered, firstErr);
  }

  // ----- The sequential meaning -----

  /** What the first m sequences give when they are handled one by one, in order. */
  function InOrder(verdict: nat -> Verdict, sink: nat -> bool, m: nat): Collector {
    if m == 0 then Fresh() else Settle(InOrder(verdict, sink, m - 1), verdict(m), sink(m))
  }

  lemma {:induction false} InOrderNext(verdict: nat -> Verdict, sink: nat -> bool, m: nat)
    ensures InOrder(verdict, sink, m).next == m + 1 && InOrder(verdict, sink, m).pending == map[]
  {
    if m > 0 { InOrderNext(verdict, sink, m - 1); }
  }

  predicate Passes(verdict: nat -> Verdict, sink: nat -> bool, i: nat) {
    verdict(i).Ok? && sink(i)
  }

  /** The i-th sink call is for sequence i + 1 and carries what verification returned. */
  predicate InTurn(delivered: seq<(nat, Object)>, verdict: nat -> Verdict, i: nat)
    requires i < |delivered|
  {
    delivered[i].0 == i + 1 && verdict(i + 1) == Ok(delivered[i].1)
  }

  /** Sink calls are 1, 2, 3, ... in enqueue order, none twice, none past the first failure; the
      error is that of the lowest failing sequence; without error everything was delivered. */
  ghost predicate InOrderUpTo(c: Collector, verdict: nat -> Verdict, sink: nat -> bool, m: nat) {
    && |c.objects| <= |c.delivered| <= m
    && (forall i :: 0 <= i < |c.delivered| ==> InTurn(c.delivered, verdict, i))
    && (forall i :: 0 <= i < |c.objects| ==> c.objects[i] == c.delivered[i].1)
    && (forall i :: 0 < i < |c.delivered| ==> Passes(verdict, sink, i))
    && match c.firstErr
       case None => |c.objects| == |c.delivered| == m && forall i :: 1 <= i <= m ==> Passes(verdict, sink, i)
       case Some(err) =>
         var k := err.sequence;
         && 1 <= k <= m && !Passes(verdict, sink, k) && (forall i :: 1 <= i < k ==> Passes(verdict, sink, i))
         && |c.objects| == k - 1
         && (if verdict(k).Err? then err == AuditFailed(k, verdict(k).error) else err == SinkFailed(k))
         && |c.delivered| == if verdict(k).Err? then k - 1 else k
  }

  lemma SettleKeepsOrder(c: Collector, verdict: nat -> Verdict, sink: nat -> bool, m: nat)
    requires InOrderUpTo(c, verdict, sink, m) && c.next == m + 1
    ensures InOrderUpTo(Settle(c, verdict(m + 1), sink(m + 1)), verdict, sink, m + 1)
  {
    var c' := Settle(c, verdict(m + 1), sink(m + 1));
    forall i | 0 <= i < |c'.delivered| ensures InTurn(c'.delivered, verdict, i) {
      assert i < |c.delivered| ==> InTurn(c.delivered, verdict, i);
    }
  }

  lemma {:induction false} InOrderMeaning(verdict: nat -> Verdict, sink: nat -> bool, m: nat)
    ensures InOrderUpTo(InOrder(verdict, sink, m), verdict, sink, m)
  {
    if m > 0 {
      InOrderNext(verdict, sink, m - 1);
      InOrderMeaning(verdict, sink, m - 1);
      SettleKeepsOrder(InOrder(verdict, sink, m - 1), verdict, sink, m - 1);
    }
  }

  // ----- Any arrival order -----

  function Sequences(arrivals: seq<Outcome>): set<nat> {
    if arrivals == [] then {} else Sequences(arrivals[..|arrivals| - 1]) + {arrivals[|arrivals| - 1].sequence}
  }

  /** Arrivals of one run: every outcome is the oracle's verdict, numbered from 1, none twice. */
  ghost predicate Arrivals(arrivals: seq<Outcome>, verdict: nat -> Verdict) {
    arrivals == [] ||
    var front, last := arrivals[..|arrivals| - 1], arrivals[|arrivals| - 1];
    && Arrivals(front, verdict)
    && last.sequence >= 1 && last.verdict == verdict(last.sequence) && last.sequence !in Sequences(front)
  }

  /** The collector has handled exactly 1..m in order and still holds the rest. */
  ghost predicate HandledUpTo(c: Collector, verdict: nat -> Verdict, sink: nat -> bool,
                                 m: nat, arrived: set<nat>) {
    && c == InOrder(verdict, sink, m).(pending := c.pending)
    && (forall i :: 1 <= i <= m ==> i in arrived)
    && (forall i :: i in c.pending <==> i in arrived && i > m)
    && (forall i :: i in c.pending ==> c.pending[i] == Outcome(i, verdict(i)))
  }

  lemma SettleHandles(c: Collector, verdict: nat -> Verdict, sink: nat -> bool, m: nat, arrived: set<nat>)
    requires HandledUpTo(c, verdict, sink, m, arrived) && c.next in c.pending
    ensures HandledUpTo(Settle(c, c.pending[c.next].verdict, sink(c.next)), verdict, sink, m + 1, arrived)
  {
    InOrderNext(verdict, sink, m);
    var c' := Settle(c, c.pending[c.next].verdict, sink(c.next));
    assert c' == InOrder(verdict, sink, m + 1).(pending := c'.pending);
  }

  /** An outcome that has not arrived before is stored; nothing handled changes. */
  lemma ArriveHandles(c: Collector, verdict: nat -> Verdict, sink: nat -> bool, m: nat, arrived: set<nat>, o: Outcome)
    requires HandledUpTo(c, verdict, sink, m, arrived)
    requires o.sequence !in arrived && o.sequence > m && o.verdict == verdict(o.sequence)
    ensures HandledUpTo(c.(pending := c.pending[o.sequence := o]), verdict, sink, m, arrived + {o.sequence})
  {
  }

  lemma SettleOnce(c: Collector, sink: nat -> bool)
    requires c.next in c.pending
    ensures var settled := Settle(c, c.pending[c.next].verdict, sink(c.next));
            |settled.pending| < |c.pending| && Drain(c, sink) == Drain(settled, sink)
  {
    assert |c.pending.Keys - {c.next}| < |c.pending.Keys|;
  }

  /** The unbroken run of arrivals has been handled, and the next number has not arrived. */
  ghost predicate HandledAll(c: Collector, verdict: nat -> Verdict, sink: nat -> bool, arrived: set<nat>) {
    exists k: nat :: HandledUpTo(c, verdict, sink, k, arrived) && k + 1 !in arrived
  }

  lemma NothingWaiting(c: Collector, verdict: nat -> Verdict, sink: nat -> bool, m: nat, arrived: set<nat>)
    requires HandledUpTo(c, verdict, sink, m, arrived) && c.next !in c.pending
    ensures m + 1 !in arrived
  {
    InOrderNext(verdict, sink, m);
  }

  lemma {:induction false} DrainHandles(c: Collector, verdict: nat -> Verdict, sink: nat -> bool,
                                           m: nat, arrived: set<nat>)
    requires HandledUpTo(c, verdict, sink, m, arrived)
    ensures HandledAll(Drain(c, sink), verdict, sink, arrived)
    decreases |c.pending|
  {
    if c.next !in c.pending {
      NothingWaiting(c, verdict, sink, m, arrived);
    } else {
      SettleOnce(c, sink);
      SettleHandles(c, verdict, sink, m, arrived);
      DrainHandles(Settle(c, c.pending[c.next].verdict, sink(c.next)), verdict, sink, m + 1, arrived);
    }
  }

  lemma AbsorbHandles(c: Collector, verdict: nat -> Verdict, sink: nat -> bool, m: nat, arrived: set<nat>, o: Outcome)
    requires HandledUpTo(c, verdict, sink, m, arrived)
    requires o.sequence !in arrived && o.sequence > m && o.verdict == verdict(o.sequence)
    ensures HandledAll(Absorb(c, o, sink), verdict, sink, arrived + {o.sequence})
  {
    ArriveHandles(c, verdict, sink, m, arrived, o);
    DrainHandles(c.(pending := c.pending[o.sequence := o]), verdict, sink, m, arrived + {o.sequence});
  }

  lemma NotArrivedIsLater(c: Collector, verdict: nat -> Verdict, sink: nat -> bool, m: nat, arrived: set<nat>, i: nat)
    requires HandledUpTo(c, verdict, sink, m, arrived) && i >= 1 && i !in arrived
    ensures i > m
  {
  }

  /** For any arrival order the collector ends as if sequences 1..k had been handled one by one,
      where k is the length of the unbroken run of arrivals; a gap stops it there. */
  lemma {:induction false} AnyOrder(arrivals: seq<Outcome>, verdict: nat -> Verdict, sink: nat -> bool)
    requires Arrivals(arrivals, verdict)
    ensures HandledAll(AbsorbAll(arrivals, sink), verdict, sink, Sequences(arrivals))
  {
    if arrivals == [] {
      assert Sequences(arrivals) == {};
      assert HandledUpTo(AbsorbAll(arrivals, sink), verdict, sink, 0, Sequences(arrivals));
    } else {
      var front, last := arrivals[..|arrivals| - 1], arrivals[|arrivals| - 1];
      AnyOrder(front, verdict, sink);
      var c := AbsorbAll(front, sink);
      var m: nat :| HandledUpTo(c, verdict, sink, m, Sequences(front)) && m + 1 !in Sequences(front);
      NotArrivedIsLater(c, verdict, sink, m, Sequences(front), last.sequence);
      AbsorbHandles(c, verdict, sink, m, Sequences(front), last);
    }
  }

  // ----- The concurrent pipeline -----

  /** What the environment decides: the object of each enqueue, and what auditing it returns. */
  datatype Oracle = Oracle(items: nat -> Object, audit: (nat, Object) -> Verdict) {
    function Verdicts(): nat -> Verdict { (i: nat) => audit(i, items(i)) }
  }

  /** Where a job that left the queue is: with a worker, before or after verifying it, in the outcome channel, or
      with the collector. */
  datatype Where = Active | Verified(verdict: Verdict) | Sent(verdict: Verdict) | Received

  datatype State = State(
    workers: nat,
    sequence: nat,                       // pipeline.sequence
    accepted: seq<Object>,               // objects whose enqueue returned nil; job i + 1 carries accepted[i]
    refused: bool,                       // an enqueue returned an error; the assembler stops there
    closed: bool,                        // close(jobs)
    at: seq<Where>,                      // jobs taken off the FIFO queue; accepted[|at|..] is still queued
    arrivals: seq<Outcome>,              // outcomes the collector has received, in order
    cancelled: bool)

  /** Workers that hold a job. */
  function Busy(at: seq<Where>): nat {
    if at == [] then 0
    else
      var last := at[|at| - 1];
      Busy(at[..|at| - 1]) + if last.Active? || last.Verified? then 1 else 0
  }

  /** Outcomes in the channel, which has room for one from each worker. */
  function InChannel(at: seq<Where>): nat {
    if at == [] then 0 else InChannel(at[..|at| - 1]) + if at[|at| - 1].Sent? then 1 else 0
  }

  datatype Event =
    | Enqueue | Refuse | Close
    | Take | Verify(i: nat) | Send(i: nat) | Receive(i: nat)
    | Cancel                             // the parent context, or a failing sink

  predicate Enabled(s: State, e: Event) {
    match e
    case Enqueue => !s.refused && !s.closed && |s.accepted| - |s.at| < s.workers
    case Refuse => !s.refused && !s.closed && s.cancelled
    case Close => !s.closed
    case Take => |s.at| < |s.accepted| && Busy(s.at) < s.workers
    case Verify(i) => i < |s.at| && s.at[i].Active? && i < |s.accepted|
    case Send(i) => i < |s.at| && s.at[i].Verified? && InChannel(s.at) < s.workers
    case Receive(i) => i < |s.at| && s.at[i].Sent?
    case Cancel => true
  }

  function Next(run: Oracle, s: State, e: Event): State
    requires Enabled(s, e)
  {
    match e
    case Enqueue => s.(sequence := s.sequence + 1, accepted := s.accepted + [run.items(s.sequence + 1)])
    case Refuse => s.(sequence := s.sequence + 1, refused := true)
    case Close => s.(closed := true)
    case Take => s.(at := s.at + [Active])
    case Verify(i) =>
      var verdict := run.audit(i + 1, s.accepted[i]);
      s.(at := s.at[i := Verified(verdict)], cancelled := s.cancelled || verdict.Err?)
    case Send(i) => s.(at := s.at[i := Sent(s.at[i].verdict)])
    case Receive(i) => s.(at := s.at[i := Received], arrivals := s.arrivals + [Outcome(i + 1, s.at[i].verdict)])
    case Cancel => s.(cancelled := true)
  }

  ghost predicate Runs(run: Oracle, s: State, es: seq<Event>)
    decreases |es|
  {
    es == [] || (Enabled(s, es[0]) && Runs(run, Next(run, s, es[0]), es[1..]))
  }

  ghost function Exec(run: Oracle, s: State, es: seq<Event>): State
    requires Runs(run, s, es)
    decreases |es|
  {
    if es == [] then s else Exec(run, Next(run, s, es[0]), es[1..])
  }

  function Start(workers: nat): State {
    State(workers, 0, [], false, false, [], [], false)
  }

  /** Numbering is dense, jobs keep their object, and a number has arrived at the collector
      exactly when its job is marked received. */
  ghost predicate Inv(run: Oracle, s: State) {
    && s.sequence == |s.accepted| + (if s.refused then 1 else 0)
    && |s.at| <= |s.accepted|
    && (forall i :: 0 <= i < |s.accepted| ==> s.accepted[i] == run.items(i + 1))
    && (forall i :: 0 <= i < |s.at| && (s.at[i].Verified? || s.at[i].Sent?) ==> s.at[i].verdict == run.Verdicts()(i + 1))
    && Arrivals(s.arrivals, run.Verdicts())
    && (forall i :: 0 <= i < |s.at| ==> (s.at[i].Received? <==> i + 1 in Sequences(s.arrivals)))
    && (forall k :: k in Sequences(s.arrivals) ==> 1 <= k <= |s.at|)
  }

  lemma ReceiveKeeps(run: Oracle, s: State, i: nat)
    requires Inv(run, s) && Enabled(s, Receive(i))
    ensures Inv(run, Next(run, s, Receive(i)))
  {
    var t := Next(run, s, Receive(i));
    assert t.arrivals[..|t.arrivals| - 1] == s.arrivals;
  }

  /** A job that moves on, short of the collector, with the verdict that is its own. */
  lemma MoveKeeps(run: Oracle, s: State, i: nat, w: Where, cancelled: bool)
    requires Inv(run, s) && i < |s.at| && !s.at[i].Received? && !w.Received?
    requires w.Verified? || w.Sent? ==> w.verdict == run.Verdicts()(i + 1)
    ensures Inv(run, s.(at := s.at[i := w], cancelled := cancelled))
  {
    hide Arrivals, Sequences;
  }

  lemma StepKeepsInv(run: Oracle, s: State, e: Event)
    requires Inv(run, s) && Enabled(s, e)
    ensures Inv(run, Next(run, s, e))
  {
    hide Arrivals, Sequences, Busy, InChannel;
    match e {
      case Verify(i) =>
        var verdict := run.audit(i + 1, s.accepted[i]);
        MoveKeeps(run, s, i, Verified(verdict), s.cancelled || verdict.Err?);
      case Send(i) => MoveKeeps(run, s, i, Sent(s.at[i].verdict), s.cancelled);
      case Receive(i) => ReceiveKeeps(run, s, i);
      case _ =>
    }
  }

  lemma {:induction false} RunKeepsInv(run: Oracle, s: State, es: seq<Event>)
    requires Inv(run, s) && Runs(run, s, es)
    ensures Inv(run, Exec(run, s, es))
    decreases |es|
  {
    if es != [] {
      StepKeepsInv(run, s, es[0]);
      RunKeepsInv(run, Next(run, s, es[0]), es[1..]);
    }
  }

  predicate Drained(s: State) {
    s.closed && |s.at| == |s.accepted| && forall i :: 0 <= i < |s.at| ==> s.at[i].Received?
  }

  lemma NoneMissing(run: Oracle, s: State, i: nat)
    requires Inv(run, s) && Drained(s) && i < |s.accepted|
    ensures i + 1 in Sequences(s.arrivals)
  {
    assert s.at[i].Received?;
  }

  /** closeAndWait, in every interleaving of producer, workers, cancellations and collector: it
      returns exactly what handling the accepted objects one by one in enqueue order returns. */
  lemma CloseAndWaitIsSequential(run: Oracle, sink: nat -> bool, workers: nat, es: seq<Event>)
    requires Runs(run, Start(workers), es)
    requires Drained(Exec(run, Start(workers), es))
    ensures var s := Exec(run, Start(workers), es);
            && AbsorbAll(s.arrivals, sink) == InOrder(run.Verdicts(), sink, |s.accepted|)
            && InOrderUpTo(AbsorbAll(s.arrivals, sink), run.Verdicts(), sink, |s.accepted|)
            && (forall i :: 0 <= i < |s.accepted| ==> s.accepted[i] == run.items(i + 1))
  {
    assert Inv(run, Start(workers));
    RunKeepsInv(run, Start(workers), es);
    var s := Exec(run, Start(workers), es);
    AnyOrder(s.arrivals, run.Verdicts(), sink);
    var k: nat :| HandledUpTo(AbsorbAll(s.arrivals, sink), run.Verdicts(), sink, k, Sequences(s.arrivals))
                  && k + 1 !in Sequences(s.arrivals);
    var n := |s.accepted|;
    if k < n { NoneMissing(run, s, k); }
    assert k > n ==> k in Sequences(s.arrivals);
    assert k == n;
    assert AbsorbAll(s.arrivals, sink).pending == map[];
    InOrderNext(run.Verdicts(), sink, n);
    InOrderMeaning(run.Verdicts(), sink, n);
  }

  /** Whenever it is looked at, the collector has only ever called the sink in enqueue order, once
      per object, for objects whose enqueue succeeded, and not past the first failing sequence. */
  lemma SinkCallsAtAnyTime(run: Oracle, sink: nat -> bool, workers: nat, es: seq<Event>)
    requires Runs(run, Start(workers), es)
    ensures var s := Exec(run, Start(workers), es); var c := AbsorbAll(s.arrivals, sink);
      && |c.delivered| <= |s.accepted|
      && (forall i :: 0 <= i < |c.delivered| ==> InTurn(c.delivered, run.Verdicts(), i))
      && (forall i :: 0 < i < |c.delivered| ==> Passes(run.Verdicts(), sink, i))
      && (c.firstErr.Some? ==>
            !Passes(run.Verdicts(), sink, c.firstErr.value.sequence)
            && forall i :: 1 <= i < c.firstErr.value.sequence ==> Passes(run.Verdicts(), sink, i))
  {
    assert Inv(run, Start(workers));
    RunKeepsInv(run, Start(workers), es);
    var s := Exec(run, Start(workers), es);
    AnyOrder(s.arrivals, run.Verdicts(), sink);
    var k: nat :| HandledUpTo(AbsorbAll(s.arrivals, sink), run.Verdicts(), sink, k, Sequences(s.arrivals))
                  && k + 1 !in Sequences(s.arrivals);
    assert k > 0 ==> k in Sequences(s.arrivals);
    InOrderMeaning(run.Verdicts(), sink, k);
    assert AbsorbAll(s.arrivals, sink).delivered == InOrder(run.Verdicts(), sink, k).delivered;
  }

  /** A producer that kept enqueueing after a refusal would leave a gap in the numbering: from the
      gap on nothing is delivered, and no error says so. */
  lemma GapSilencesCollector(arrivals: seq<Outcome>, verdict: nat -> Verdict, sink: nat -> bool, gap: nat)
    requires Arrivals(arrivals, verdict) && gap >= 1 && gap !in Sequences(arrivals)
    requires forall i :: 1 <= i < gap ==> i in Sequences(arrivals) && Passes(verdict, sink, i)
    ensures var c := AbsorbAll(arrivals, sink);
            c.firstErr == None && |c.objects| == |c.delivered| == gap - 1
  {
    AnyOrder(arrivals, verdict, sink);
    var k: nat :| HandledUpTo(AbsorbAll(arrivals, sink), verdict, sink, k, Sequences(arrivals)) && k + 1 !in Sequences(arrivals);
    assert k == gap - 1;
    InOrderMeaning(verdict, sink, k);
  }

  // ----- Progress -----

  /** The steps of the workers and of the collector's loop. */
  predicate Internal(e: Event) { e.Take? || e.Verify? || e.Send? || e.Receive? }

  function Left(w: Where): nat {
    match w
    case Active => 3
    case Verified(_) => 2
    case Sent(_) => 1
    case Received => 0
  }

  function LeftIn(at: seq<Where>): nat { if at == [] then 0 else LeftIn(at[..|at| - 1]) + Left(at[|at| - 1]) }

  /** Internal steps left for the objects accepted so far. */
  function Work(s: State): int { 4 * (|s.accepted| - |s.at|) + LeftIn(s.at) }

  lemma {:induction false} LeftUpdate(at: seq<Where>, i: nat, w: Where)
    requires i < |at|
    ensures LeftIn(at[i := w]) == LeftIn(at) - Left(at[i]) + Left(w)
  {
    var n := |at| - 1;
    if i < n {
      assert at[i := w][..n] == at[..n][i := w];
      LeftUpdate(at[..n], i, w);
    } else {
      assert at[i := w][..n] == at[..n];
    }
  }

  lemma LeftAppend(at: seq<Where>, w: Where)
    ensures LeftIn(at + [w]) == LeftIn(at) + Left(w)
  {
    assert (at + [w])[..|at|] == at;
  }

  lemma InternalStep(run: Oracle, s: State, e: Event)
    requires Inv(run, s) && Enabled(s, e) && Internal(e)
    ensures Work(Next(run, s, e)) == Work(s) - 1 && Next(run, s, e).accepted == s.accepted
    ensures Next(run, s, e).closed == s.closed && Next(run, s, e).workers == s.workers
  {
    hide Inv, LeftIn, Busy, InChannel;
    match e {
      case Take => LeftAppend(s.at, Active);
      case Verify(i) => LeftUpdate(s.at, i, Verified(run.audit(i + 1, s.accepted[i])));
      case Send(i) => LeftUpdate(s.at, i, Sent(s.at[i].verdict));
      case Receive(i) => LeftUpdate(s.at, i, Received);
    }
  }

  lemma {:induction false} NoneCounted(at: seq<Where>)
    ensures (forall i :: 0 <= i < |at| ==> !at[i].Sent?) ==> InChannel(at) == 0
    ensures (forall i :: 0 <= i < |at| ==> at[i].Received?) ==> Busy(at) == 0
  {
    if at != [] { NoneCounted(at[..|at| - 1]); }
  }

  ghost predicate AllReceived(s: State) { |s.at| == |s.accepted| && forall i :: 0 <= i < |s.at| ==> s.at[i].Received? }

  /** While an accepted object has not reached the collector, a worker or the collector can move, cancelled or not:
      a producer that waits for room in the queue, and closeAndWait, never wait for ever. */
  lemma SomethingEnabled(run: Oracle, s: State)
    requires Inv(run, s) && s.workers > 0 && !AllReceived(s)
    ensures exists e :: Internal(e) && Enabled(s, e)
  {
    NoneCounted(s.at);
    if i: nat :| i < |s.at| && s.at[i].Sent? {
      assert Enabled(s, Receive(i));
    } else if i: nat :| i < |s.at| && s.at[i].Verified? {
      assert Enabled(s, Send(i));
    } else if i: nat :| i < |s.at| && s.at[i].Active? {
      assert Enabled(s, Verify(i));
    } else {
      assert Enabled(s, Take);
    }
  }

  /** Once the queue is closed, every schedule of workers and collector is bounded, and one that cannot go on has
      drained everything, so that CloseAndWaitIsSequential says what it returns. */
  lemma {:induction false} ClosedRunsDrain(run: Oracle, s: State, es: seq<Event>)
    requires Inv(run, s) && s.workers > 0 && s.closed && Runs(run, s, es) && forall e :: e in es ==> Internal(e)
    ensures |es| <= Work(s)
    ensures (forall e :: Internal(e) ==> !Enabled(Exec(run, s, es), e)) ==> Drained(Exec(run, s, es))
    decreases |es|
  {
    if es == [] {
      if !AllReceived(s) { SomethingEnabled(run, s); }
    } else {
      assert es == [es[0]] + es[1..];
      StepKeepsInv(run, s, es[0]);
      InternalStep(run, s, es[0]);
      ClosedRunsDrain(run, Next(run, s, es[0]), es[1..]);
    }
  }
}
