/** What the assembler counts for each shard, and how it divides the token counting among workers. */
module ShardCounters {
  import opened Prelude
  import opened Measures
  import opened IndexTypes
  import opened Rows

  /** The content detectors' verdicts on one row. */
  datatype Flags = Flags(email: bool, repetitive: bool, boilerplate: bool)

  /** The reference tokenizer, the detectors and the row check, none of which is modelled. */
  datatype Env = Env(count: string -> nat, assess: string -> Flags, valid: Row -> bool)

  datatype Counters = Counters(docs: int, tokens: int, logicalBytes: int, licenses: set<string>,
                               usage: map<string, Measures>, sources: set<string>, findings: Assessment,
                               redactions: Redactions)

  const NoCounters := Counters(0, 0, 0, {}, map[], {}, Assessment(0, 0, 0), NoRedactions)

  function SourceOf(r: Row): set<string> { if r.source.Some? && r.source.value != "" then {r.source.value} else {} }

  function CountRow(env: Env, c: Counters, r: Row): Counters {
    var flags, tokens := env.assess(r.text), env.count(r.text);
    Counters(c.docs + 1, c.tokens + tokens, c.logicalBytes + |r.text|, c.licenses + {r.license},
             AddAt(c.usage, r.license, Measures(0, 1, tokens, 0)), c.sources + SourceOf(r),
             Assessment(c.findings.email + One(flags.email), c.findings.repetitive + One(flags.repetitive),
                        c.findings.boilerplate + One(flags.boilerplate)),
             PlusRedactions(c.redactions, r.redactions))
  }

  function CountersOf(env: Env, rows: seq<Row>): Counters {
    if rows == [] then NoCounters else CountRow(env, CountersOf(env, rows[..|rows| - 1]), rows[|rows| - 1])
  }

  /** The row's effective license is known, it has text, its redaction counts make sense, and the other canonical checks
      pass. */
  predicate Acceptable(env: Env, r: Row) {
    r.license != "" && r.text != "" && NonNegative(r.redactions) && env.valid(r)
  }

  ghost predicate AllAcceptable(env: Env, rows: seq<Row>) { forall r :: r in rows ==> Acceptable(env, r) }

  // ----- Independent readings of the counters -----

  function DocsUnder(rows: seq<Row>, license: string): nat {
    if rows == [] then 0
    else DocsUnder(rows[..|rows| - 1], license) + if rows[|rows| - 1].license == license then 1 else 0
  }

  function TokensUnder(env: Env, rows: seq<Row>, license: string): nat {
    if rows == [] then 0
    else
      TokensUnder(env, rows[..|rows| - 1], license)
      + if rows[|rows| - 1].license == license then env.count(rows[|rows| - 1].text) else 0
  }

  /** The usage map holds, for each license met and for no other, the rows and tokens under it. */
  lemma {:induction false} UsageMeaning(env: Env, rows: seq<Row>, license: string)
    ensures var c := CountersOf(env, rows);
            c.docs == |rows| && c.usage.Keys == c.licenses
            && (license in c.licenses <==> exists r :: r in rows && r.license == license)
            && MeasuresAt(c.usage, license) == Measures(0, DocsUnder(rows, license), TokensUnder(env, rows, license), 0)
            && (license in c.licenses ==> DocsUnder(rows, license) > 0)
  {
    if rows != [] {
      var front, last := rows[..|rows| - 1], rows[|rows| - 1];
      UsageMeaning(env, front, license);
      assert forall r :: r in rows <==> r in front || r == last;
    }
  }

  /** The content detectors, and what a row or a count says for each of them. */
  datatype Detector = EmailAddresses | RepetitiveContent | BoilerplateContent

  predicate Flagged(f: Flags, d: Detector) {
    match d
    case EmailAddresses => f.email
    case RepetitiveContent => f.repetitive
    case BoilerplateContent => f.boilerplate
  }

  function FoundBy(a: Assessment, d: Detector): int {
    match d
    case EmailAddresses => a.email
    case RepetitiveContent => a.repetitive
    case BoilerplateContent => a.boilerplate
  }

  function FlaggedRows(env: Env, rows: seq<Row>, d: Detector): nat {
    if rows == [] then 0
    else FlaggedRows(env, rows[..|rows| - 1], d) + if Flagged(env.assess(rows[|rows| - 1].text), d) then 1 else 0
  }

  function RemovedIn(rows: seq<Row>, k: Removal): int {
    if rows == [] then 0 else RemovedIn(rows[..|rows| - 1], k) + Removed(rows[|rows| - 1].redactions, k)
  }

  function TokensIn(env: Env, rows: seq<Row>): nat {
    if rows == [] then 0 else TokensIn(env, rows[..|rows| - 1]) + env.count(rows[|rows| - 1].text)
  }

  /** Some row is under the license. */
  ghost predicate Under(rows: seq<Row>, license: string) { exists r :: r in rows && r.license == license }

  ghost predicate Names(rows: seq<Row>, source: string) { source != "" && exists r :: r in rows && r.source == Some(source) }

  /** What each counter counts: the rows a detector flags, what was removed from the rows, their tokens and their text;
      the sources are those that some row names. */
  lemma {:induction false} CountersMeaning(env: Env, rows: seq<Row>)
    ensures var c := CountersOf(env, rows);
            && c.docs == |rows| && c.tokens == TokensIn(env, rows) && c.logicalBytes == |Texts(rows)|
            && (forall d :: FoundBy(c.findings, d) == FlaggedRows(env, rows, d))
            && (forall k :: Removed(c.redactions, k) == RemovedIn(rows, k))
            && (forall source :: source in c.sources <==> Names(rows, source))
            && (forall license :: license in c.licenses <==> Under(rows, license))
  {
    if rows != [] {
      var front, last := rows[..|rows| - 1], rows[|rows| - 1];
      CountersMeaning(env, front);
      assert rows == front + [last];
      assert forall r :: r in rows <==> r in front || r == last;
      forall source ensures Names(rows, source) <==> Names(front, source) || (source != "" && last.source == Some(source)) {
        assert last in rows;
      }
      CountedRow(env, CountersOf(env, front), last);
    }
  }

  /** One row more. */
  lemma CountedRow(env: Env, c: Counters, r: Row)
    ensures var n := CountRow(env, c, r);
            && n.docs == c.docs + 1 && n.tokens == c.tokens + env.count(r.text) && n.logicalBytes == c.logicalBytes + |r.text|
            && (forall d :: FoundBy(n.findings, d) == FoundBy(c.findings, d) + if Flagged(env.assess(r.text), d) then 1 else 0)
            && (forall k :: Removed(n.redactions, k) == Removed(c.redactions, k) + Removed(r.redactions, k))
            && (forall source :: source in n.sources <==> source in c.sources || (source != "" && r.source == Some(source)))
  {
  }

  lemma {:induction false} ReadingsConcat(env: Env, a: seq<Row>, b: seq<Row>)
    ensures TokensIn(env, a + b) == TokensIn(env, a) + TokensIn(env, b)
    ensures forall d :: FlaggedRows(env, a + b, d) == FlaggedRows(env, a, d) + FlaggedRows(env, b, d)
    ensures forall k :: RemovedIn(a + b, k) == RemovedIn(a, k) + RemovedIn(b, k)
  {
    if b == [] {
      assert a + b == a;
    } else {
      var all, front := a + b, b[..|b| - 1];
      assert all[..|all| - 1] == a + front && all[|all| - 1] == b[|b| - 1];
      ReadingsConcat(env, a, front);
    }
  }

  /** The detectors' counts never exceed the documents, and no redaction count is negative. */
  lemma {:induction false} FindingsBounded(env: Env, rows: seq<Row>)
    requires AllAcceptable(env, rows)
    ensures var c := CountersOf(env, rows);
            0 <= c.findings.email <= c.docs && 0 <= c.findings.repetitive <= c.docs && 0 <= c.findings.boilerplate <= c.docs
            && 0 <= c.tokens && 0 <= c.logicalBytes && NonNegative(c.redactions) && c.docs == |rows| && "" !in c.licenses
  {
    if rows != [] {
      var front, last := rows[..|rows| - 1], rows[|rows| - 1];
      assert forall r :: r in front ==> r in rows;
      assert last in rows;
      FindingsBounded(env, front);
    }
  }

  lemma {:induction false} DocsConcat(env: Env, a: seq<Row>, b: seq<Row>)
    ensures CountersOf(env, a + b).docs == CountersOf(env, a).docs + CountersOf(env, b).docs
    ensures CountersOf(env, a + b).tokens == CountersOf(env, a).tokens + CountersOf(env, b).tokens
  {
    if b == [] {
      assert a + b == a;
    } else {
      var all, front := a + b, b[..|b| - 1];
      assert all[..|all| - 1] == a + front;
      DocsConcat(env, a, front);
    }
  }

  // ----- Token counting -----

  /** Where the positions of worker `w` begin: start and end both come from this. */
  function Boundary(w: nat, rows: nat, workers: nat): nat
    requires workers > 0
  {
    w * rows / workers
  }

  lemma BoundariesGrow(w: nat, rows: nat, workers: nat)
    requires workers > 0
    ensures Boundary(w, rows, workers) <= Boundary(w + 1, rows, workers)
  {
    var a, b := w * rows, (w + 1) * rows;
    assert a <= b by { assert b == a + rows; }
    DivMonotone(a, b, workers);
  }

  lemma QuotientsOrdered(d: nat, q: int, r: int, p: int, s: int)
    requires d > 0 && 0 <= r && s < d && d * q + r <= d * p + s
    ensures q <= p
  {
    MulBound(d, q - p);
    assert d * (q - p) == d * q - d * p;
  }

  lemma DivMonotone(a: nat, b: nat, d: nat)
    requires a <= b && d > 0
    ensures a / d <= b / d
  {
    QuotientsOrdered(d, a / d, a % d, b / d, b % d);
  }

  lemma {:induction false} BoundariesOrdered(v: nat, w: nat, rows: nat, workers: nat)
    requires workers > 0 && v <= w
    ensures Boundary(v, rows, workers) <= Boundary(w, rows, workers)
  {
    if v < w {
      BoundariesOrdered(v, w - 1, rows, workers);
      BoundariesGrow(w - 1, rows, workers);
    }
  }

  lemma BoundaryEnds(rows: nat, workers: nat)
    requires workers > 0
    ensures Boundary(0, rows, workers) == 0 && Boundary(workers, rows, workers) == rows
  {
    var q, m := workers * rows / workers, workers * rows % workers;
    MulBound(workers, rows - q);
    assert workers * (rows - q) == workers * rows - workers * q == m;
  }

  predicate Mine(p: nat, w: nat, rows: nat, workers: nat)
    requires workers > 0
  {
    Boundary(w, rows, workers) <= p < Boundary(w + 1, rows, workers)
  }

  /** Every position belongs to a worker. */
  lemma {:induction false} EveryPositionCounted(p: nat, upTo: nat, rows: nat, workers: nat)
    requires workers > 0 && p < Boundary(upTo, rows, workers)
    ensures exists w: nat :: w < upTo && Mine(p, w, rows, workers)
  {
    BoundaryEnds(rows, workers);
    if p < Boundary(upTo - 1, rows, workers) {
      EveryPositionCounted(p, upTo - 1, rows, workers);
    } else {
      assert Mine(p, upTo - 1, rows, workers);
    }
  }

  /** And to one only: no two workers write the same count. */
  lemma OneWorkerEach(p: nat, v: nat, w: nat, rows: nat, workers: nat)
    requires workers > 0 && Mine(p, v, rows, workers) && Mine(p, w, rows, workers)
    ensures v == w
  {
    if v < w { BoundariesOrdered(v + 1, w, rows, workers); }
    if w < v { BoundariesOrdered(w + 1, v, rows, workers); }
  }

  /** The positions of one worker. */
  method CountRange(env: Env, rows: seq<Row>, counts: array<int>, start: nat, end: nat)
    requires start <= end <= |rows| == counts.Length
    modifies counts
    ensures forall p :: 0 <= p < |rows| ==>
              counts[p] == if start <= p < end then env.count(rows[p].text) else old(counts[p])
  {
    for position := start to end
      invariant forall p :: 0 <= p < |rows| ==>
                  counts[p] == if start <= p < position then env.count(rows[p].text) else old(counts[p])
    {
      counts[position] := env.count(rows[position].text);
    }
  }

  ghost predicate Filled(env: Env, rows: seq<Row>, counts: seq<int>, w: nat, workers: nat)
    requires workers > 0 && |counts| == |rows|
  {
    forall p: nat :: p < |rows| && Mine(p, w, |rows|, workers) ==> counts[p] == env.count(rows[p].text)
  }

  lemma AllFilled(env: Env, rows: seq<Row>, counts: seq<int>, workers: nat)
    requires workers > 0 && |counts| == |rows|
    requires forall w: nat :: w < workers ==> Filled(env, rows, counts, w, workers)
    ensures forall p :: 0 <= p < |rows| ==> counts[p] == env.count(rows[p].text)
  {
    BoundaryEnds(|rows|, workers);
    forall p: nat | p < |rows| ensures counts[p] == env.count(rows[p].text) {
      EveryPositionCounted(p, workers, |rows|, workers);
      var w: nat :| w < workers && Mine(p, w, |rows|, workers);
      assert Filled(env, rows, counts, w, workers);
    }
  }

  /** countTokens: the workers run in any order; every row is counted once. */
  method CountTokens(env: Env, rows: seq<Row>, maxWorkers: nat) returns (counts: array<int>)
    requires maxWorkers > 0
    ensures fresh(counts) && counts.Length == |rows|
    ensures forall p :: 0 <= p < |rows| ==> counts[p] == env.count(rows[p].text)
  {
    counts := new int[|rows|](_ => 0);
    if |rows| == 0 {
      return;
    }
    var workers := if |rows| < maxWorkers then |rows| else maxWorkers;
    var rest := Below(workers);
    forall w: nat ensures w in rest <==> w < workers { BelowMeaning(workers, w); }
    while rest != {}
      invariant forall w: nat :: w in rest ==> w < workers
      invariant forall w: nat :: w < workers && w !in rest ==> Filled(env, rows, counts[..], w, workers)
      decreases |rest|
    {
      var w :| w in rest;
      BoundariesGrow(w, |rows|, workers);
      BoundariesOrdered(w + 1, workers, |rows|, workers);
      BoundaryEnds(|rows|, workers);
      ghost var before := counts[..];
      CountRange(env, rows, counts, Boundary(w, |rows|, workers), Boundary(w + 1, |rows|, workers));
      assert forall p :: 0 <= p < |rows| ==> counts[p] == env.count(rows[p].text) || counts[p] == before[p];
      rest := rest - {w};
    }
    AllFilled(env, rows, counts[..], workers);
  }
}
