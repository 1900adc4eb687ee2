/**
 What a successful expansion promises: the pins grow into one rooted tree for
 each manifest, and every pin declares exactly the shards beneath it.
 */
module RollupTotals {
  import opened Prelude
  import opened Measures
  import opened IndexTypes
  import opened Pins
  import opened Rollups

  // ----- Trees that grow one pin at a time -----

  /** Each new pin has a new key and a parent pinned before it, or is its manifest's first pin. */
  ghost predicate Grown(pins: seq<Pin>) {
    pins == [] ||
    (var front, last := pins[..|pins| - 1], pins[|pins| - 1];
     Grown(front) && KeyOf(last) !in Keys(front) && Attached(front, last.manifest, last.parent))
  }

  ghost predicate Attached(pins: seq<Pin>, manifest: string, parent: string) {
    if parent == "" then forall p :: p in pins ==> p.manifest != manifest else Key(manifest, parent) in Keys(pins)
  }

  /** `x` is `top` or has it among its ancestors. */
  predicate Under(pins: seq<Pin>, x: Key, top: Key) {
    x == top ||
    (pins != [] &&
     var front, last := pins[..|pins| - 1], pins[|pins| - 1];
     if KeyOf(last) == x then last.parent != "" && Under(front, ParentKey(last), top) else Under(front, x, top))
  }

  /** The totals of the shards listed by `top` and by everything below it. */
  function SumUnder(leaves: seq<Leaf>, pins: seq<Pin>, top: Key): Measures {
    if leaves == [] then Zero
    else
      var front, last := SumUnder(leaves[..|leaves| - 1], pins, top), leaves[|leaves| - 1];
      if Under(pins, last.owner, top) then Plus(front, ShardMeasures(last.shard)) else front
  }

  lemma GrownAppend(pins: seq<Pin>, p: Pin)
    requires Grown(pins) && KeyOf(p) !in Keys(pins) && Attached(pins, p.manifest, p.parent)
    ensures Grown(pins + [p])
  {
    assert (pins + [p])[..|pins|] == pins;
  }

  lemma {:induction false} GrownPrefix(pins: seq<Pin>, n: nat)
    requires Grown(pins) && n <= |pins|
    ensures Grown(pins[..n])
  {
    if n < |pins| {
      GrownPrefix(pins[..|pins| - 1], n);
      assert pins[..|pins| - 1][..n] == pins[..n];
    } else {
      assert pins[..n] == pins;
    }
  }

  lemma KeysPrefix(a: seq<Pin>, b: seq<Pin>)
    requires a <= b
    ensures Keys(a) <= Keys(b)
  {
    assert forall p :: p in a ==> p in b;
  }

  lemma {:induction false} LaterIsNew(a: seq<Pin>, b: seq<Pin>, k: nat)
    requires Grown(b) && a <= b && |a| <= k < |b|
    ensures KeyOf(b[k]) !in Keys(a)
  {
    GrownPrefix(b, k + 1);
    assert b[..k + 1][..k] == b[..k];
    KeysPrefix(a, b[..k]);
  }

  /** Growing does not change what lies above a key that is already pinned. */
  lemma {:induction false} UnderStable(a: seq<Pin>, b: seq<Pin>, x: Key, top: Key)
    requires Grown(b) && a <= b && x in Keys(a)
    ensures Under(b, x, top) <==> Under(a, x, top)
  {
    if |a| < |b| {
      var front := b[..|b| - 1];
      UnderStable(a, front, x, top);
      KeysPrefix(a, front);
    } else {
      assert a == b;
    }
  }

  /** Nothing pinned lies under a key that is not. */
  lemma {:induction false} NotUnderUnpinned(pins: seq<Pin>, x: Key, top: Key)
    requires Grown(pins) && x in Keys(pins) && top !in Keys(pins)
    ensures !Under(pins, x, top)
  {
    var front, last := pins[..|pins| - 1], pins[|pins| - 1];
    assert pins == front + [last];
    KeysAppend(front, last);
    if KeyOf(last) == x {
      if last.parent != "" { NotUnderUnpinned(front, ParentKey(last), top); }
    } else {
      NotUnderUnpinned(front, x, top);
    }
  }

  // ----- Sums -----

  lemma {:induction false} TotalConcat(a: seq<Leaf>, b: seq<Leaf>)
    ensures Total(a + b) == Plus(Total(a), Total(b))
  {
    if b == [] {
      assert a + b == a;
    } else {
      var all, front := a + b, b[..|b| - 1];
      assert all[..|all| - 1] == a + front && all[|all| - 1] == b[|b| - 1];
      TotalConcat(a, front);
    }
  }

  lemma {:induction false} SumConcat(a: seq<Leaf>, b: seq<Leaf>, pins: seq<Pin>, top: Key)
    ensures SumUnder(a + b, pins, top) == Plus(SumUnder(a, pins, top), SumUnder(b, pins, top))
  {
    if b == [] {
      assert a + b == a;
    } else {
      assert (a + b)[..|a + b| - 1] == a + b[..|b| - 1];
      SumConcat(a, b[..|b| - 1], pins, top);
    }
  }

  lemma {:induction false} SumOfNone(leaves: seq<Leaf>, pins: seq<Pin>, top: Key)
    requires forall i :: 0 <= i < |leaves| ==> !Under(pins, leaves[i].owner, top)
    ensures SumUnder(leaves, pins, top) == Zero
  {
    if leaves != [] { SumOfNone(leaves[..|leaves| - 1], pins, top); }
  }

  lemma {:induction false} SumOfAll(leaves: seq<Leaf>, pins: seq<Pin>, top: Key)
    requires forall i :: 0 <= i < |leaves| ==> Under(pins, leaves[i].owner, top)
    ensures SumUnder(leaves, pins, top) == Total(leaves)
  {
    if leaves != [] { SumOfAll(leaves[..|leaves| - 1], pins, top); }
  }

  lemma {:induction false} SumStable(leaves: seq<Leaf>, a: seq<Pin>, b: seq<Pin>, top: Key)
    requires Grown(b) && a <= b && forall i :: 0 <= i < |leaves| ==> leaves[i].owner in Keys(a)
    ensures SumUnder(leaves, b, top) == SumUnder(leaves, a, top)
  {
    if leaves != [] {
      SumStable(leaves[..|leaves| - 1], a, b, top);
      UnderStable(a, b, leaves[|leaves| - 1].owner, top);
    }
  }

  // ----- What one expansion keeps and adds -----

  ghost predicate Shape(env: Env, st: State) {
    && Grown(st.pins)
    && (forall p :: p in st.pins && p.manifest == env.manifest ==> p.sha in st.seen)
    && (forall i :: 0 <= i < |st.leaves| ==> st.leaves[i].owner in Keys(st.pins))
  }

  /** Everything new hangs below `parent` and below what lies above it, and below nothing else that is old. */
  ghost predicate Grafted(a: seq<Pin>, b: seq<Pin>, manifest: string, parent: string) {
    forall x, top :: x in Keys(b) && x !in Keys(a) && top in Keys(a) ==>
      (Under(b, x, top) <==> parent != "" && Under(a, Key(manifest, parent), top))
  }

  ghost predicate NewLeaves(a: State, b: State) {
    && a.leaves <= b.leaves
    && forall i :: |a.leaves| <= i < |b.leaves| ==> b.leaves[i].owner in Keys(b.pins) && b.leaves[i].owner !in Keys(a.pins)
  }

  /** From pin `from` on, every pin declares the totals beneath it. */
  ghost predicate NodesOk(st: State, from: nat) {
    forall k :: from <= k < |st.pins| ==> DeclaredByPin(st.pins[k]) == SumUnder(st.leaves, st.pins, KeyOf(st.pins[k]))
  }

  ghost predicate Grew(env: Env, a: State, b: State, parent: string) {
    && Shape(env, b)
    && a.pins <= b.pins
    && NewLeaves(a, b)
    && Grafted(a.pins, b.pins, env.manifest, parent)
    && NodesOk(b, |a.pins|)
  }

  function Added(a: State, b: State): Measures
    requires a.leaves <= b.leaves
  {
    Total(b.leaves[|a.leaves|..])
  }

  lemma AddedTwice(a: State, b: State, c: State)
    requires a.leaves <= b.leaves <= c.leaves
    ensures Added(a, c) == Plus(Added(a, b), Added(b, c))
  {
    assert c.leaves[|a.leaves|..] == b.leaves[|a.leaves|..] + c.leaves[|b.leaves|..];
    TotalConcat(b.leaves[|a.leaves|..], c.leaves[|b.leaves|..]);
  }

  lemma GraftedTwice(a: seq<Pin>, b: seq<Pin>, c: seq<Pin>, manifest: string, parent: string)
    requires Grown(c) && Grown(b) && a <= b <= c && Key(manifest, parent) in Keys(a) && parent != ""
    requires Grafted(a, b, manifest, parent) && Grafted(b, c, manifest, parent)
    ensures Grafted(a, c, manifest, parent)
  {
    KeysPrefix(a, b);
    forall x, top | x in Keys(c) && x !in Keys(a) && top in Keys(a)
      ensures Under(c, x, top) <==> Under(a, Key(manifest, parent), top)
    {
      UnderStable(a, b, Key(manifest, parent), top);
      if x in Keys(b) { UnderStable(b, c, x, top); }
    }
  }

  /** Leaves added after `b` count for no pin between `a` and `b`. */
  lemma EarlierNodeKept(env: Env, a: State, b: State, c: State, parent: string, k: nat)
    requires Shape(env, a) && Grew(env, a, b, parent) && Grew(env, b, c, parent)
    requires parent != "" && Key(env.manifest, parent) in Keys(a.pins) && |a.pins| <= k < |b.pins|
    ensures SumUnder(c.leaves, c.pins, KeyOf(c.pins[k])) == SumUnder(b.leaves, b.pins, KeyOf(b.pins[k]))
  {
    var top, newer := KeyOf(b.pins[k]), c.leaves[|b.leaves|..];
    assert !Under(b.pins, Key(env.manifest, parent), top) by {
      LaterIsNew(a.pins, b.pins, k);
      NotUnderUnpinned(a.pins, Key(env.manifest, parent), top);
      UnderStable(a.pins, b.pins, Key(env.manifest, parent), top);
    }
    assert b.pins[k] in b.pins && c.leaves == b.leaves + newer;
    forall i | 0 <= i < |newer| ensures !Under(c.pins, newer[i].owner, top) {
      assert newer[i] == c.leaves[|b.leaves| + i];
    }
    SumOfNone(newer, c.pins, top);
    SumConcat(b.leaves, newer, c.pins, top);
    SumStable(b.leaves, b.pins, c.pins, top);
  }

  lemma GrewTwice(env: Env, a: State, b: State, c: State, parent: string)
    requires Shape(env, a) && Grew(env, a, b, parent) && Grew(env, b, c, parent)
    requires parent != "" && Key(env.manifest, parent) in Keys(a.pins)
    ensures Grew(env, a, c, parent)
  {
    GraftedTwice(a.pins, b.pins, c.pins, env.manifest, parent);
    KeysPrefix(a.pins, b.pins);
    KeysPrefix(b.pins, c.pins);
    forall i | |a.leaves| <= i < |c.leaves|
      ensures c.leaves[i].owner in Keys(c.pins) && c.leaves[i].owner !in Keys(a.pins)
    {
      if i < |b.leaves| { assert c.leaves[i] == b.leaves[i]; }
    }
    forall k | |a.pins| <= k < |c.pins|
      ensures DeclaredByPin(c.pins[k]) == SumUnder(c.leaves, c.pins, KeyOf(c.pins[k]))
    {
      if k < |b.pins| {
        EarlierNodeKept(env, a, b, c, parent, k);
        assert c.pins[k] == b.pins[k];
      }
    }
  }

  lemma OwnLeavesMeaning(env: Env, st: State, parent: string, r: Rollup, i: nat)
    requires r.sha in env.store && |st.leaves| <= i < |Entered(env, st, parent, r).leaves|
    ensures Entered(env, st, parent, r).leaves[i].owner == Key(env.manifest, r.sha)
  {
  }

  /** Entering an object pins it, and keeps the shape. */
  lemma EnteredShape(env: Env, st: State, parent: string, r: Rollup)
    requires Shape(env, st) && Check(env, st.seen, r) == None && Attached(st.pins, env.manifest, parent)
    ensures Shape(env, Entered(env, st, parent, r))
    ensures Key(env.manifest, r.sha) !in Keys(st.pins) && Key(env.manifest, r.sha) in Keys(Entered(env, st, parent, r).pins)
    ensures r.sha != ""
  {
    var next, pin := Entered(env, st, parent, r), PinOf(env.manifest, parent, r, env.store[r.sha].encodedBytes);
    KeysAppend(st.pins, pin);
    GrownAppend(st.pins, pin);
    assert |r.sha| == 64;
  }

  /** The new root of a subtree hangs where its parent says. */
  lemma EnteredUnder(env: Env, st: State, parent: string, r: Rollup, top: Key)
    requires r.sha in env.store && top in Keys(st.pins) && Key(env.manifest, r.sha) !in Keys(st.pins)
    ensures Under(Entered(env, st, parent, r).pins, Key(env.manifest, r.sha), top) <==>
            parent != "" && Under(st.pins, Key(env.manifest, parent), top)
  {
    var next := Entered(env, st, parent, r).pins;
    assert next[..|next| - 1] == st.pins;
  }

  lemma GraftedRoot(env: Env, st: State, parent: string, r: Rollup, last: State)
    requires Shape(env, st) && Check(env, st.seen, r) == None && Attached(st.pins, env.manifest, parent)
    requires Grew(env, Entered(env, st, parent, r), last, r.sha)
    ensures Grafted(st.pins, last.pins, env.manifest, parent)
  {
    EnteredShape(env, st, parent, r);
    var next, root := Entered(env, st, parent, r), Key(env.manifest, r.sha);
    KeysAppend(st.pins, PinOf(env.manifest, parent, r, env.store[r.sha].encodedBytes));
    forall x, top | x in Keys(last.pins) && x !in Keys(st.pins) && top in Keys(st.pins)
      ensures Under(last.pins, x, top) <==> parent != "" && Under(st.pins, Key(env.manifest, parent), top)
    {
      EnteredUnder(env, st, parent, r, top);
      if x == root { UnderStable(next.pins, last.pins, root, top); }
    }
  }

  /** All that was added since the object was entered, and nothing older, lies under its key. */
  lemma RootTotal(env: Env, st: State, parent: string, r: Rollup, last: State)
    requires Shape(env, st) && Check(env, st.seen, r) == None && Attached(st.pins, env.manifest, parent)
    requires Grew(env, Entered(env, st, parent, r), last, r.sha)
    ensures st.leaves <= last.leaves
    ensures SumUnder(last.leaves, last.pins, Key(env.manifest, r.sha)) == Added(st, last)
  {
    hide Under, SumUnder;
    var root, newer := Key(env.manifest, r.sha), last.leaves[|st.leaves|..];
    assert last.leaves == st.leaves + newer;
    OldLeavesElsewhere(env, st, parent, r, last);
    forall i | 0 <= i < |newer| ensures Under(last.pins, newer[i].owner, root) {
      NewLeafUnder(env, st, parent, r, last, |st.leaves| + i);
    }
    SumOfAll(newer, last.pins, root);
    SumConcat(st.leaves, newer, last.pins, root);
  }

  lemma OldLeavesElsewhere(env: Env, st: State, parent: string, r: Rollup, last: State)
    requires Shape(env, st) && Check(env, st.seen, r) == None && Attached(st.pins, env.manifest, parent)
    requires Grew(env, Entered(env, st, parent, r), last, r.sha)
    ensures SumUnder(st.leaves, last.pins, Key(env.manifest, r.sha)) == Zero
  {
    var root := Key(env.manifest, r.sha);
    EnteredShape(env, st, parent, r);
    SumStable(st.leaves, st.pins, last.pins, root);
    forall i | 0 <= i < |st.leaves| ensures !Under(st.pins, st.leaves[i].owner, root) {
      NotUnderUnpinned(st.pins, st.leaves[i].owner, root);
    }
    SumOfNone(st.leaves, st.pins, root);
  }

  lemma NewLeafUnder(env: Env, st: State, parent: string, r: Rollup, last: State, i: nat)
    requires Shape(env, st) && Check(env, st.seen, r) == None && Attached(st.pins, env.manifest, parent)
    requires Grew(env, Entered(env, st, parent, r), last, r.sha)
    requires |st.leaves| <= i < |last.leaves|
    ensures Under(last.pins, last.leaves[i].owner, Key(env.manifest, r.sha))
  {
    EnteredShape(env, st, parent, r);
    var next, root := Entered(env, st, parent, r), Key(env.manifest, r.sha);
    if i < |next.leaves| {
      OwnLeavesMeaning(env, st, parent, r, i);
      assert last.leaves[i] == next.leaves[i];
    } else {
      assert Under(next.pins, root, root);
    }
  }

  /** A whole object: its own shards, then its children, then the comparison with the reference. */
  lemma GrewObject(env: Env, st: State, parent: string, r: Rollup, last: State)
    requires Shape(env, st) && Check(env, st.seen, r) == None && Attached(st.pins, env.manifest, parent)
    requires Grew(env, Entered(env, st, parent, r), last, r.sha)
    requires Declared(r) == Plus(OwnTotal(env, r), Added(Entered(env, st, parent, r), last))
    ensures Grew(env, st, last, parent) && Declared(r) == Added(st, last)
  {
    var next, root := Entered(env, st, parent, r), Key(env.manifest, r.sha);
    assert next.leaves[|st.leaves|..] == OwnLeaves(env.store[r.sha].shards, root);
    AddedTwice(st, next, last);
    EnteredShape(env, st, parent, r);
    GraftedRoot(env, st, parent, r, last);
    RootTotal(env, st, parent, r, last);
    KeysPrefix(st.pins, next.pins);
    KeysPrefix(next.pins, last.pins);
    forall i | |st.leaves| <= i < |last.leaves|
      ensures last.leaves[i].owner in Keys(last.pins) && last.leaves[i].owner !in Keys(st.pins)
    {
      if i < |next.leaves| {
        OwnLeavesMeaning(env, st, parent, r, i);
        assert last.leaves[i] == next.leaves[i];
      }
    }
    assert last.pins[|st.pins|] == next.pins[|st.pins|];
  }

  lemma {:induction false} ExpandGrows(env: Env, st: State, parent: string, r: Rollup)
    requires Shape(env, st) && Attached(st.pins, env.manifest, parent) && Expand(env, st, parent, r).Ok?
    ensures var x := Expand(env, st, parent, r).value;
            Grew(env, st, x.state, parent) && x.actual == Added(st, x.state) == Declared(r)
    decreases |env.store.Keys - st.seen|, 0
  {
    EnteredShape(env, st, parent, r);
    Shrinks(env.store.Keys, st.seen, r.sha);
    ExpandAllGrows(env, Entered(env, st, parent, r), OwnTotal(env, r), r.sha, env.store[r.sha].children);
    GrewObject(env, st, parent, r, Expand(env, st, parent, r).value.state);
  }

  lemma {:induction false} ExpandAllGrows(env: Env, st: State, actual: Measures, parent: string, children: seq<Rollup>)
    requires Shape(env, st) && parent != "" && Key(env.manifest, parent) in Keys(st.pins)
    requires ExpandAll(env, st, actual, parent, children).Ok?
    ensures var x := ExpandAll(env, st, actual, parent, children).value;
            Grew(env, st, x.state, parent) && x.actual == Plus(actual, Added(st, x.state))
    decreases |env.store.Keys - st.seen|, |children|
  {
    if children != [] {
      var first := Expand(env, st, parent, children[0]).value;
      ExpandGrows(env, st, parent, children[0]);
      CardinalityMonotone(env.store.Keys - first.state.seen, env.store.Keys - st.seen);
      KeysPrefix(st.pins, first.state.pins);
      ExpandAllGrows(env, first.state, Plus(actual, first.actual), parent, children[1..]);
      var last := ExpandAll(env, st, actual, parent, children).value;
      GrewTwice(env, st, first.state, last.state, parent);
      AddedStep(st, first.state, last.state, actual, first.actual, last.actual);
    }
  }

  lemma AddedStep(a: State, b: State, c: State, actual: Measures, first: Measures, last: Measures)
    requires a.leaves <= b.leaves <= c.leaves
    requires first == Added(a, b) && last == Plus(Plus(actual, first), Added(b, c))
    ensures last == Plus(actual, Added(a, c))
  {
    AddedTwice(a, b, c);
  }
}
