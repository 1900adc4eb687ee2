/**
 The writer that cuts generated output at the first stop string.  It holds back
 as many bytes as a stop could still need, so a stop may span several writes.
 */
module StoppingTokenWriters {
  import opened Prelude
  import opened Utf8

  type Text = seq<byte>

  predicate OccursAt(x: Text, s: Text, i: int) {
    0 <= i && i + |s| <= |x| && x[i..i + |s|] == s
  }

  predicate StopAt(x: Text, stops: seq<Text>, i: int) {
    exists k :: 0 <= k < |stops| && OccursAt(x, stops[k], i)
  }

  function FirstFrom(x: Text, stops: seq<Text>, i: nat): (r: int)
    ensures r == -1 || i <= r <= |x|
    decreases |x| - i
  {
    if StopAt(x, stops, i) then i
    else if i >= |x| then -1
    else FirstFrom(x, stops, i + 1)
  }

  /** The position of the earliest stop, or -1. */
  function FirstStop(x: Text, stops: seq<Text>): (r: int)
    ensures -1 <= r <= |x|
  {
    FirstFrom(x, stops, 0)
  }

  lemma {:induction false} FirstFromMeaning(x: Text, stops: seq<Text>, i: nat)
    ensures var r := FirstFrom(x, stops, i);
            if r == -1 then forall j :: j >= i ==> !StopAt(x, stops, j)
            else r <= |x| && StopAt(x, stops, r) && forall j :: i <= j < r ==> !StopAt(x, stops, j)
    decreases |x| - i
  {
    if !StopAt(x, stops, i) && i < |x| {
      FirstFromMeaning(x, stops, i + 1);
    }
  }

  lemma FirstStopMeaning(x: Text, stops: seq<Text>)
    ensures var r := FirstStop(x, stops);
            if r == -1 then forall j :: !StopAt(x, stops, j)
            else StopAt(x, stops, r) && forall j :: j < r ==> !StopAt(x, stops, j)
  {
    FirstFromMeaning(x, stops, 0);
  }

  /** What should be shown of x: all of it, or the part before the earliest stop. */
  function Cut(x: Text, stops: seq<Text>): Text {
    if FirstStop(x, stops) == -1 then x else x[..FirstStop(x, stops)]
  }

  function MaxLength(stops: seq<Text>): nat {
    if stops == [] then 0 else Max(MaxLength(stops[..|stops| - 1]), |stops[|stops| - 1]|)
  }

  function Keep(stops: seq<Text>): nat { Max(MaxLength(stops) - 1, 0) }

  ghost predicate NonEmpty(stops: seq<Text>) {
    forall k :: 0 <= k < |stops| ==> stops[k] != []
  }

  lemma {:induction false} MaxLengthBounds(stops: seq<Text>, k: nat)
    requires k < |stops|
    ensures |stops[k]| <= MaxLength(stops)
  {
    if k < |stops| - 1 { MaxLengthBounds(stops[..|stops| - 1], k); }
  }

  lemma FirstStopUnique(x: Text, stops: seq<Text>, i: int)
    requires StopAt(x, stops, i) && forall j :: 0 <= j < i ==> !StopAt(x, stops, j)
    ensures FirstStop(x, stops) == i
  {
    FirstStopMeaning(x, stops);
  }

  // ----- Windows -----

  lemma OccursInPrefix(x: Text, y: Text, s: Text, i: int)
    ensures OccursAt(x, s, i) ==> OccursAt(x + y, s, i)
    ensures OccursAt(x + y, s, i) && i + |s| <= |x| ==> OccursAt(x, s, i)
  {
    if 0 <= i && i + |s| <= |x| {
      assert (x + y)[i..i + |s|] == x[i..i + |s|];
    }
  }

  lemma OccursInSuffix(x: Text, y: Text, s: Text, i: int)
    requires i >= |x|
    ensures OccursAt(x + y, s, i) <==> OccursAt(y, s, i - |x|)
  {
    if i + |s| <= |x| + |y| {
      assert (x + y)[i..i + |s|] == y[i - |x|..i - |x| + |s|];
    }
  }

  /** No stop of the whole stream starts in the part already passed on. */
  lemma NoneBeforeWindow(shown: Text, pending: Text, value: Text, stops: seq<Text>, i: int)
    requires FirstStop(shown + pending, stops) == -1
    requires |pending| >= Keep(stops) && i < |shown|
    ensures !StopAt(shown + pending + value, stops, i)
  {
    FirstStopMeaning(shown + pending, stops);
    assert !StopAt(shown + pending, stops, i);
    forall k | 0 <= k < |stops| ensures !OccursAt(shown + pending + value, stops[k], i) {
      MaxLengthBounds(stops, k);
      OccursInPrefix(shown + pending, value, stops[k], i);
      assert !OccursAt(shown + pending, stops[k], i);
    }
  }

  lemma StopsInWindow(shown: Text, window: Text, stops: seq<Text>, i: int)
    requires i >= |shown|
    ensures StopAt(shown + window, stops, i) <==> StopAt(window, stops, i - |shown|)
  {
    forall k | 0 <= k < |stops| ensures OccursAt(shown + window, stops[k], i) <==> OccursAt(window, stops[k], i - |shown|) {
      OccursInSuffix(shown, window, stops[k], i);
    }
  }

  /** The held-back window is enough: with no stop in shown + pending so far, the earliest stop
      of the whole stream is the earliest stop of the window. */
  lemma WindowFindsFirst(shown: Text, pending: Text, value: Text, stops: seq<Text>)
    requires FirstStop(shown + pending, stops) == -1
    requires |pending| >= Keep(stops) || shown == []
    ensures var r := FirstStop(pending + value, stops);
            FirstStop(shown + pending + value, stops) == if r == -1 then -1 else |shown| + r
  {
    hide FirstFrom, FirstStop, StopAt;
    var x, window := shown + pending + value, pending + value;
    assert x == shown + window;
    var q, r := FirstStop(x, stops), FirstStop(window, stops);
    FirstStopMeaning(x, stops);
    FirstStopMeaning(window, stops);
    if 0 <= q < |shown| {
      NoneBeforeWindow(shown, pending, value, stops, q);
    } else if q != -1 {
      StopsInWindow(shown, window, stops, q);
    }
    if r != -1 {
      StopsInWindow(shown, window, stops, |shown| + r);
    }
  }

  // ----- The writer -----

  /** The loop of Write over the stops. */
  method Search(x: Text, stops: seq<Text>) returns (stopAt: int, maxStop: int)
    ensures stopAt == FirstStop(x, stops) && maxStop == MaxLength(stops)
  {
    stopAt, maxStop := -1, 0;
    FirstStopMeaning(x, stops[..0]);
    for k := 0 to |stops|
      invariant stopAt == FirstStop(x, stops[..k])
      invariant maxStop == MaxLength(stops[..k])
    {
      maxStop := Max(maxStop, |stops[k]|);
      var index := FirstStop(x, [stops[k]]);   // bytes.Index
      FirstOfOneMore(x, stops[..k], stops[k]);
      assert stops[..k + 1] == stops[..k] + [stops[k]];
      if index >= 0 && (stopAt < 0 || index < stopAt) {
        stopAt := index;
      }
    }
    assert stops[..|stops|] == stops;
  }

  /** After `consumed` bytes without a stop the last Keep bytes are held back; at the first stop
      everything before it has been passed on. */
  ghost predicate Holds(output: Text, pending: Text, stopped: bool, consumed: Text, stops: seq<Text>) {
    var r := FirstStop(consumed, stops);
    if stopped then r != -1 && pending == [] && output == consumed[..r]
    else r == -1 && output + pending == consumed
         && (|pending| == Keep(stops) || (output == [] && |pending| <= Keep(stops)))
  }

  /** What is held back is shorter than some stop, and once anything is shown it is all that a stop could still need:
      one byte less than the longest. */
  lemma HeldBack(output: Text, pending: Text, consumed: Text, stops: seq<Text>)
    requires Holds(output, pending, false, consumed, stops)
    ensures pending != [] ==> exists k :: 0 <= k < |stops| && |pending| < |stops[k]|
    ensures output != [] ==> forall k :: 0 <= k < |stops| ==> |pending| >= |stops[k]| - 1
  {
    hide FirstStop;
    forall k | 0 <= k < |stops| ensures |stops[k]| <= MaxLength(stops) { MaxLengthBounds(stops, k); }
    if pending != [] { var k := Longest(stops); }
  }

  lemma {:induction false} Longest(stops: seq<Text>) returns (k: nat)
    requires MaxLength(stops) > 0
    ensures k < |stops| && |stops[k]| == MaxLength(stops)
  {
    var n := |stops| - 1;
    if |stops[n]| == MaxLength(stops) { k := n; } else { k := Longest(stops[..n]); }
  }

  lemma StopBranch(output: Text, pending: Text, consumed: Text, value: Text, stops: seq<Text>)
    requires Holds(output, pending, false, consumed, stops) && FirstStop(pending + value, stops) != -1
    ensures var r := FirstStop(pending + value, stops);
            Holds(if r > 0 then output + (pending + value)[..r] else output, [], true, consumed + value, stops)
  {
    hide FirstFrom, FirstStop;
    WindowFindsFirst(output, pending, value, stops);
    assert consumed + value == output + pending + value == output + (pending + value);
  }

  lemma EmitBranch(output: Text, pending: Text, consumed: Text, value: Text, stops: seq<Text>)
    requires Holds(output, pending, false, consumed, stops) && FirstStop(pending + value, stops) == -1
    ensures var window := pending + value;
            var emit := |window| - Keep(stops);
            if emit > 0 then Holds(output + window[..emit], window[emit..], false, consumed + value, stops)
            else Holds(output, window, false, consumed + value, stops)
  {
    hide FirstFrom, FirstStop;
    WindowFindsFirst(output, pending, value, stops);
    assert consumed + value == output + pending + value == output + (pending + value);
    var emit := Max(|pending + value| - Keep(stops), 0);
    assert output + (pending + value)[..emit] + (pending + value)[emit..] == consumed + value;
  }

  /** `output` is everything passed to `write`, which does not fail here. */
  class StoppingTokenWriter {
    const stops: seq<Text>
    var output: Text
    var pending: Text
    var stopped: bool
    ghost var consumed: Text      // bytes accepted until the writer stopped

    ghost predicate Valid()
      reads this
    {
      NonEmpty(stops) && Holds(output, pending, stopped, consumed, stops)
    }

    constructor (stops: seq<Text>)
      requires NonEmpty(stops)
      ensures Valid() && consumed == [] && output == [] && this.stops == stops
    {
      this.stops := stops;
      output, pending, stopped, consumed := [], [], false, [];
      new;
      NoStopInNothing(stops);
    }

    method Write(value: Text)
      requires Valid()
      modifies this
      ensures Valid()
      ensures consumed == if old(stopped) then old(consumed) else old(consumed) + value
      ensures old(output) <= output
    {
      hide FirstFrom, FirstStop, MaxLength, NonEmpty, Holds;
      if stopped || |value| == 0 {
        assert |value| == 0 ==> consumed + value == consumed;
        return;
      }
      ghost var shown, held, before := output, pending, consumed;
      consumed := consumed + value;
      pending := pending + value;
      var stopAt, maxStop := Search(pending, stops);
      if stopAt >= 0 {
        StopBranch(shown, held, before, value, stops);
        if stopAt > 0 {
          output := output + pending[..stopAt];
        }
        pending := [];
        stopped := true;
        return;
      }
      EmitBranch(shown, held, before, value, stops);
      var keep := maxStop - 1;
      if keep < 0 {
        keep := 0;
      }
      var emit := |pending| - keep;
      if emit > 0 {
        output := output + pending[..emit];
        pending := pending[emit..];
      }
    }

    /** The flushed output is what precedes the earliest stop of the consumed bytes. */
    method Flush()
      requires Valid()
      modifies this
      ensures output == Cut(consumed, stops) && consumed == old(consumed)
      ensures pending == [] && stopped == old(stopped) && old(output) <= output
    {
      if !stopped && |pending| > 0 {
        output := output + pending;
      }
      pending := [];
    }
  }

  lemma NoStopInNothing(stops: seq<Text>)
    requires NonEmpty(stops)
    ensures FirstStop([], stops) == -1
  {
    FirstStopMeaning([], stops);
    assert forall i, k :: 0 <= k < |stops| ==> !OccursAt([], stops[k], i);
  }

  lemma FirstOfOneMore(x: Text, stops: seq<Text>, s: Text)
    ensures var a, b := FirstStop(x, stops), FirstStop(x, [s]);
            FirstStop(x, stops + [s]) == if b >= 0 && (a < 0 || b < a) then b else a
  {
    var more := stops + [s];
    FirstStopMeaning(x, stops);
    FirstStopMeaning(x, [s]);
    FirstStopMeaning(x, more);
    forall i ensures StopAt(x, more, i) <==> StopAt(x, stops, i) || StopAt(x, [s], i) {
      if StopAt(x, stops, i) {
        var k :| 0 <= k < |stops| && OccursAt(x, stops[k], i);
        assert OccursAt(x, more[k], i);
      }
      if StopAt(x, [s], i) {
        assert OccursAt(x, [s][0], i) && more[|stops|] == s;
      }
      if StopAt(x, more, i) {
        var k :| 0 <= k < |more| && OccursAt(x, more[k], i);
        assert k == |stops| ==> OccursAt(x, [s][0], i);
      }
    }
  }

  // ----- Whole runs -----

  function Joined(chunks: seq<Text>): Text {
    if chunks == [] then [] else Joined(chunks[..|chunks| - 1]) + chunks[|chunks| - 1]
  }

  /** The bytes a writer accepts from a run: everything up to and including the write in which a
      stop first became complete. */
  function Accepted(chunks: seq<Text>, stops: seq<Text>): Text {
    if chunks == [] then []
    else
      var before := Accepted(chunks[..|chunks| - 1], stops);
      if FirstStop(before, stops) != -1 then before else before + chunks[|chunks| - 1]
  }

  /** The source's use of the writer: one write for each generated token, then a flush. */
  method WriteAll(chunks: seq<Text>, stops: seq<Text>) returns (shown: Text)
    requires NonEmpty(stops)
    ensures shown == Cut(Accepted(chunks, stops), stops)
  {
    var w := new StoppingTokenWriter(stops);
    for i := 0 to |chunks|
      invariant w.Valid() && fresh(w) && w.stops == stops
      invariant w.consumed == Accepted(chunks[..i], stops)
    {
      assert chunks[..i + 1][..i] == chunks[..i];
      w.Write(chunks[i]);
    }
    assert chunks[..|chunks|] == chunks;
    w.Flush();
    shown := w.output;
  }

  lemma {:induction false} AcceptedIsPrefix(chunks: seq<Text>, stops: seq<Text>)
    ensures Accepted(chunks, stops) <= Joined(chunks)
    ensures FirstStop(Accepted(chunks, stops), stops) == -1 ==> Accepted(chunks, stops) == Joined(chunks)
  {
    if chunks != [] { AcceptedIsPrefix(chunks[..|chunks| - 1], stops); }
  }

  lemma FirstStopOfLonger(x: Text, y: Text, stops: seq<Text>)
    requires x <= y && FirstStop(x, stops) != -1
    ensures 0 <= FirstStop(y, stops) <= FirstStop(x, stops)
  {
    FirstStopMeaning(x, stops);
    FirstStopMeaning(y, stops);
    StopStays(x, y, stops, FirstStop(x, stops));
  }

  lemma CutHasNoStop(x: Text, stops: seq<Text>)
    requires NonEmpty(stops)
    ensures FirstStop(Cut(x, stops), stops) == -1
  {
    var c := Cut(x, stops);
    var r := FirstStop(c, stops);
    FirstStopMeaning(c, stops);
    FirstStopMeaning(x, stops);
    if r != -1 {
      StopFits(c, stops, r);
      StopStays(c, x, stops, r);
    }
  }

  lemma StopFits(x: Text, stops: seq<Text>, i: int)
    requires NonEmpty(stops) && StopAt(x, stops, i)
    ensures i < |x|
  {
  }

  lemma StopStays(x: Text, y: Text, stops: seq<Text>, i: int)
    requires x <= y && StopAt(x, stops, i)
    ensures StopAt(y, stops, i)
  {
    var k :| 0 <= k < |stops| && OccursAt(x, stops[k], i);
    assert y == x + y[|x|..];
    OccursInPrefix(x, y[|x|..], stops[k], i);
  }

  lemma StopShifts(x: Text, y: Text, stops: seq<Text>, i: int)
    requires 0 <= i && StopAt(y, stops, i)
    ensures StopAt(x + y, stops, |x| + i)
  {
    var k :| 0 <= k < |stops| && OccursAt(y, stops[k], i);
    OccursInSuffix(x, y, stops[k], |x| + i);
  }

  /** For every chunking and every set of non-empty stops the flushed output is a prefix of the
      input without a stop in it, and the whole input when no stop occurs. */
  lemma OutputIsStopFreePrefix(chunks: seq<Text>, stops: seq<Text>)
    requires NonEmpty(stops)
    ensures var shown := Cut(Accepted(chunks, stops), stops);
            && shown <= Joined(chunks)
            && FirstStop(shown, stops) == -1
            && (FirstStop(Joined(chunks), stops) == -1 ==> shown == Joined(chunks))
  {
    AcceptedIsPrefix(chunks, stops);
    CutHasNoStop(Accepted(chunks, stops), stops);
    if FirstStop(Accepted(chunks, stops), stops) != -1 {
      FirstStopOfLonger(Accepted(chunks, stops), Joined(chunks), stops);
    }
  }

  // ----- When the cut is exact -----

  /** No unfinished stop hides the beginning of an earlier cut: whenever a proper prefix of a stop
      contains a stop, one stands at the very beginning of it. */
  ghost predicate ChunkSafe(stops: seq<Text>) {
    forall k, t :: 0 <= k < |stops| && 0 <= t < |stops[k]| ==> FirstStop(stops[k][..t], stops) <= 0
  }

  /** What is shown of these writes is what one write of everything would show. */
  ghost predicate Exact(chunks: seq<Text>, stops: seq<Text>) {
    Cut(Accepted(chunks, stops), stops) == Cut(Joined(chunks), stops)
  }

  lemma ChunkSafeIsExact(chunks: seq<Text>, stops: seq<Text>)
    requires ChunkSafe(stops)
    ensures Exact(chunks, stops)
  {
    AcceptedIsPrefix(chunks, stops);
    var y, x := Accepted(chunks, stops), Joined(chunks);
    var j := FirstStop(y, stops);
    if j != -1 {
      FirstStopOfLonger(y, x, stops);
      var e := FirstStop(x, stops);
      if e < j {
        FirstStopMeaning(x, stops);
        var k :| 0 <= k < |stops| && OccursAt(x, stops[k], e);
        CutEarlierImpossible(x, y, stops, k, e, j);
        assert false;
      }
    }
  }

  /** A stop that starts earlier but is not finished in y would make its prefix unsafe. */
  lemma CutEarlierImpossible(x: Text, y: Text, stops: seq<Text>, k: nat, e: int, j: int)
    requires y <= x && k < |stops| && OccursAt(x, stops[k], e)
    requires FirstStop(y, stops) == j && 0 <= e < j
    ensures !ChunkSafe(stops)
  {
    var s := stops[k];
    FirstStopMeaning(y, stops);
    assert x == y + x[|y|..];
    OccursInPrefix(y, x[|y|..], s, e);
    assert !StopAt(y, stops, e);
    assert e + |s| > |y|;
    var t := |y| - e;
    var p := s[..t];
    assert y[e..] == p by {
      assert x[e..e + |s|][..t] == y[e..];
    }
    assert y == y[..e] + p;
    var m :| 0 <= m < |stops| && OccursAt(y, stops[m], j);
    OccursInSuffix(y[..e], p, stops[m], j);
    assert StopAt(p, stops, j - e);
    FirstStopMeaning(p, stops);
    if FirstStop(p, stops) == 0 { StopShifts(y[..e], p, stops, 0); }
  }

  /** Cutting an unsafe stop at its unsafe prefix shows bytes that one write would not. */
  lemma UnsafeDiffers(stops: seq<Text>, k: nat, t: nat)
    requires NonEmpty(stops) && k < |stops| && t < |stops[k]| && FirstStop(stops[k][..t], stops) > 0
    ensures var chunks := [stops[k][..t], stops[k][t..]];
            Joined(chunks) == stops[k] && Cut(Joined(chunks), stops) == []
            && |Cut(Accepted(chunks, stops), stops)| > 0
  {
    var s := stops[k];
    var chunks := [s[..t], s[t..]];
    var none: seq<Text> := [];
    assert chunks[..1] == [s[..t]] && chunks[..1][..0] == none;
    assert Accepted(chunks[..1][..0], stops) == [];
    NoStopInNothing(stops);
    assert Accepted(chunks[..1], stops) == [] + s[..t] == s[..t];
    assert Accepted(chunks, stops) == s[..t];
    assert Joined(chunks[..1]) == Joined([]) + s[..t] == s[..t];
    assert Joined(chunks) == s[..t] + s[t..] == s;
    assert OccursAt(s, stops[k], 0);
    assert StopAt(s, stops, 0);
    FirstStopUnique(s, stops, 0);
  }

  /** The output is the input up to its earliest stop, for every input and every chunking, exactly
      when the stops are chunk-safe. */
  lemma ExactIffChunkSafe(stops: seq<Text>)
    requires NonEmpty(stops)
    ensures (forall chunks :: Exact(chunks, stops)) <==> ChunkSafe(stops)
  {
    if ChunkSafe(stops) {
      forall chunks ensures Exact(chunks, stops) {
        ChunkSafeIsExact(chunks, stops);
      }
    } else {
      var k, t :| 0 <= k < |stops| && 0 <= t < |stops[k]| && FirstStop(stops[k][..t], stops) > 0;
      UnsafeNotExact(stops, k, t);
    }
  }

  lemma UnsafeNotExact(stops: seq<Text>, k: nat, t: nat)
    requires NonEmpty(stops) && k < |stops| && t < |stops[k]| && FirstStop(stops[k][..t], stops) > 0
    ensures !Exact([stops[k][..t], stops[k][t..]], stops)
  {
    UnsafeDiffers(stops, k, t);
  }

  /** In particular it is enough that no stop is a substring of a different stop. */
  lemma NoNestingIsChunkSafe(stops: seq<Text>)
    requires forall k, m, i :: 0 <= k < |stops| && 0 <= m < |stops| && OccursAt(stops[k], stops[m], i) ==> stops[k] == stops[m]
    ensures ChunkSafe(stops)
  {
    forall k, t | 0 <= k < |stops| && 0 <= t < |stops[k]| ensures FirstStop(stops[k][..t], stops) <= 0 {
      var p := stops[k][..t];
      var r := FirstStop(p, stops);
      FirstStopMeaning(p, stops);
      if r != -1 {
        var m :| 0 <= m < |stops| && OccursAt(p, stops[m], r);
        assert stops[k] == p + stops[k][t..];
        OccursInPrefix(p, stops[k][t..], stops[m], r);
      }
    }
  }

  /** Two nested stops for which the chunking shows: "abcd" and "bc". */
  lemma NestedStopsExample()
    ensures var stops := [[97, 98, 99, 100], [98, 99]];
            Cut(Accepted([[97, 98, 99, 100]], stops), stops) != Cut(Accepted([[97, 98, 99], [100]], stops), stops)
  {
    var a, b := [97, 98, 99, 100], [98, 99];
    var stops := [a, b];
    assert FirstStop(a[..3], stops) > 0 by {
      assert a[..3] == [97, 98, 99] && a[..3][1..3] == b;
      assert OccursAt(a[..3], stops[1], 1) && StopAt(a[..3], stops, 1);
      assert !OccursAt(a[..3], stops[0], 0);
      assert a[..3][0] != b[0];
      assert !OccursAt(a[..3], stops[1], 0) by { assert a[..3][0..2][0] == 97; }
      assert !StopAt(a[..3], stops, 0);
      FirstStopMeaning(a[..3], stops);
    }
    UnsafeDiffers(stops, 0, 3);
    assert a[..3] == [97, 98, 99] && a[3..] == [100];
    AcceptedIsPrefix([a], stops);
    assert [a][..0] == [];
    NoStopInNothing(stops);
    assert Accepted([a], stops) == [] + a == a;
  }
}
