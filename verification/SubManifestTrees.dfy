/**
 The pins of a whole bill of materials: every manifest's expansion hangs its
 own tree beside the others, and the validator's parent graph is the one that
 the expansion built.
 */
module SubManifestTrees {
  import opened Prelude
  import opened Measures
  import opened IndexTypes
  import opened Pins
  import opened Rollups
  import opened RollupTotals

  // ----- The validator's chains on grown pins -----

  lemma DistinctAppend(front: seq<Pin>, last: Pin)
    requires DistinctKeys(front) && KeyOf(last) !in Keys(front)
    ensures DistinctKeys(front + [last])
  {
    forall j | 0 <= j < |front| ensures KeyOf(front[j]) != KeyOf(last) {
      assert front[j] in front;
    }
  }

  ghost predicate ParentsPinned(pins: seq<Pin>, within: set<Key>) {
    forall p :: p in pins && p.parent != "" ==> ParentKey(p) in within
  }

  lemma ParentsAttached(front: seq<Pin>, last: Pin)
    requires ParentsPinned(front, Keys(front)) && Attached(front, last.manifest, last.parent)
    ensures ParentsPinned(front + [last], Keys(front + [last]))
  {
    hide Keys;
    KeysAppend(front, last);
    assert forall p :: p in front + [last] ==> p in front || p == last;
  }

  lemma {:induction false} GrownPinned(pins: seq<Pin>)
    requires Grown(pins)
    ensures DistinctKeys(pins)
    ensures forall p :: p in pins && p.parent != "" ==> ParentKey(p) in Keys(pins)
  {
    if pins != [] {
      hide Attached, Keys, DistinctKeys;
      var front, last := pins[..|pins| - 1], pins[|pins| - 1];
      assert pins == front + [last];
      GrownPinned(front);
      assert ParentsPinned(front, Keys(front));
      DistinctAppend(front, last);
      ParentsAttached(front, last);
    }
  }

  lemma {:induction false} UpShift(parents: map<Key, Key>, k: Key, n: nat)
    requires k in parents
    ensures Up(parents, k, n + 1) == Up(parents, parents[k], n)
  {
    if n == 0 {
      assert Up(parents, k, 0) == Some(k);
    } else {
      UpShift(parents, k, n - 1);
    }
  }

  ghost predicate Agree(a: map<Key, Key>, b: map<Key, Key>, k: Key, within: set<Key>) {
    (k in a <==> k in b) && (k in a ==> a[k] == b[k] && a[k] in within)
  }

  lemma {:induction false} UpAgrees(a: map<Key, Key>, b: map<Key, Key>, within: set<Key>, k: Key, n: nat)
    requires k in within && forall y :: y in within ==> Agree(a, b, y, within)
    ensures Up(a, k, n) == Up(b, k, n) && (Up(a, k, n).Some? ==> Up(a, k, n).value in within)
  {
    if n > 0 {
      UpAgrees(a, b, within, k, n - 1);
      if Up(a, k, n - 1).Some? { assert Agree(a, b, Up(a, k, n - 1).value, within); }
    }
  }

  /** A later pin does not lengthen an older chain. */
  lemma UpUnchanged(front: seq<Pin>, last: Pin, x: Pin, n: nat)
    requires Grown(front + [last]) && Grown(front) && x in front
    ensures Up(Parents(front + [last]), KeyOf(x), n) == Up(Parents(front), KeyOf(x), n)
  {
    forall k | k in Keys(front) ensures Agree(Parents(front), Parents(front + [last]), k, Keys(front)) {
      ParentUnchanged(front, last, k);
    }
    UpAgrees(Parents(front), Parents(front + [last]), Keys(front), KeyOf(x), n);
  }

  lemma ParentUnchanged(front: seq<Pin>, last: Pin, k: Key)
    requires Grown(front + [last]) && Grown(front) && k in Keys(front)
    ensures Agree(Parents(front), Parents(front + [last]), k, Keys(front))
  {
    GrownPinned(front);
    ParentsMeaning(front);
    GrownPinned(front + [last]);
    LastKeyIsNew(front, last);
    ParentsAppend(front, last);
  }

  /** With one pin more than steps, every chain has ended. */
  lemma {:induction false} GrownEnds(pins: seq<Pin>, x: Pin)
    requires Grown(pins) && x in pins
    ensures Up(Parents(pins), KeyOf(x), |pins|) == None
  {
    var front, last := pins[..|pins| - 1], pins[|pins| - 1];
    assert pins == front + [last];
    if x in front {
      GrownEnds(front, x);
      UpUnchanged(front, last, x, |front|);
      UpStopped(Parents(pins), KeyOf(x), |front|, |pins|);
    } else {
      GrownPinned(pins);
      ParentsMeaning(pins);
      if last.parent == "" {
        assert Up(Parents(pins), KeyOf(x), 1) == None;
        UpStopped(Parents(pins), KeyOf(x), 1, |pins|);
      } else {
        var q :| q in front && KeyOf(q) == ParentKey(last);
        GrownEnds(front, q);
        UpUnchanged(front, last, q, |front|);
        UpShift(Parents(pins), KeyOf(x), |front|);
      }
    }
  }

  lemma {:induction false} GrownSingleRoots(pins: seq<Pin>)
    requires Grown(pins)
    ensures SingleRoots(pins)
  {
    if pins != [] {
      var front, last := pins[..|pins| - 1], pins[|pins| - 1];
      GrownSingleRoots(front);
      forall i | 0 <= i < |front| && pins[i].manifest == last.manifest ensures last.parent != "" {
        assert pins[i] in front;
      }
      forall i, j | IsRoot(pins, i) && IsRoot(pins, j) && pins[i].manifest == pins[j].manifest ensures i == j {
        if i < |front| && j < |front| {
          assert IsRoot(front, i) && IsRoot(front, j);
        }
      }
    }
  }

  /** Whatever grew one pin at a time passes the validator's uniqueness, pinned-parent, cycle and root checks. */
  lemma GrownIsRootedTrees(pins: seq<Pin>)
    requires Grown(pins)
    ensures DistinctKeys(pins) && RootedTrees(pins)
  {
    GrownPinned(pins);
    GrownSingleRoots(pins);
    forall p | p in pins ensures HasRoot(pins, p) {
      GrownEnds(pins, p);
      ChainEndsAtRoot(pins, p, |pins|);
    }
  }

  /** "Beneath" is what following the recorded parents says. */
  lemma {:induction false} UnderIsReaches(pins: seq<Pin>, x: Pin, top: Key)
    requires Grown(pins) && x in pins
    ensures Under(pins, KeyOf(x), top) <==> Reaches(Parents(pins), KeyOf(x), top)
  {
    var front, last := pins[..|pins| - 1], pins[|pins| - 1];
    var parents := Parents(pins);
    assert pins == front + [last];
    GrownPinned(pins);
    ParentsMeaning(pins);
    if x in front {
      assert KeyOf(x) in Keys(front);
      UnderIsReaches(front, x, top);
      ReachesUnchanged(front, last, x, top);
    } else {
      assert Up(parents, KeyOf(x), 0) == Some(KeyOf(x));
      if last.parent == "" {
        RootReachesItself(parents, KeyOf(x), top);
      } else {
        var q :| q in front && KeyOf(q) == ParentKey(last);
        UnderIsReaches(front, q, top);
        ReachesUnchanged(front, last, q, top);
        ReachesShift(parents, KeyOf(x), top);
      }
    }
  }

  lemma ReachesUnchanged(front: seq<Pin>, last: Pin, x: Pin, top: Key)
    requires Grown(front + [last]) && Grown(front) && x in front
    ensures Reaches(Parents(front + [last]), KeyOf(x), top) <==> Reaches(Parents(front), KeyOf(x), top)
  {
    forall n: nat ensures Up(Parents(front + [last]), KeyOf(x), n) == Up(Parents(front), KeyOf(x), n) {
      UpUnchanged(front, last, x, n);
    }
  }

  lemma RootReachesItself(parents: map<Key, Key>, x: Key, top: Key)
    requires x !in parents
    ensures Reaches(parents, x, top) <==> x == top
  {
    assert Up(parents, x, 0) == Some(x);
    assert Up(parents, x, 1) == None;
    forall n: nat | n >= 1 ensures Up(parents, x, n) == None {
      UpStopped(parents, x, 1, n);
    }
  }

  lemma ReachesShift(parents: map<Key, Key>, x: Key, top: Key)
    requires x in parents
    ensures Reaches(parents, x, top) <==> x == top || Reaches(parents, parents[x], top)
  {
    assert Up(parents, x, 0) == Some(x);
    if Reaches(parents, x, top) && x != top {
      var n: nat :| Up(parents, x, n) == Some(top);
      UpShift(parents, x, n - 1);
    }
    if Reaches(parents, parents[x], top) {
      var n: nat :| Up(parents, parents[x], n) == Some(top);
      UpShift(parents, x, n);
    }
  }

  // ----- Fields -----

  /** What expansion guarantees of each pin; `validateRollup` does not compare modality tokens with the total. */
  ghost predicate Emitted(manifests: set<string>, p: Pin) {
    && p.manifest in manifests && p.url != "" && ValidSha(p.sha)
    && (p.parent == "" || ValidSha(p.parent))
    && p.count > 0 && p.docs > 0 && p.tokens >= 0 && p.bytes > 0 && p.encodedBytes > 0
    && ValidModalities(p.modalities)
  }

  ghost predicate ModalitiesAddUp(p: Pin) { p.modalities == map[] || TokenSum(p.modalities) == p.tokens }

  ghost predicate AllAddUp(pins: seq<Pin>) { forall p :: p in pins ==> ModalitiesAddUp(p) }

  ghost predicate AllEmitted(manifests: set<string>, pins: seq<Pin>) { forall p :: p in pins ==> Emitted(manifests, p) }

  lemma {:induction false} ExpandEmits(env: Env, st: State, parent: string, r: Rollup, manifests: set<string>)
    requires env.manifest in manifests && (parent == "" || ValidSha(parent))
    requires AllEmitted(manifests, st.pins) && Expand(env, st, parent, r).Ok?
    ensures AllEmitted(manifests, Expand(env, st, parent, r).value.state.pins)
    decreases |env.store.Keys - st.seen|, 0
  {
    Shrinks(env.store.Keys, st.seen, r.sha);
    ExpandAllEmits(env, Entered(env, st, parent, r), OwnTotal(env, r), r.sha, env.store[r.sha].children, manifests);
  }

  lemma {:induction false} ExpandAllEmits(env: Env, st: State, actual: Measures, parent: string, children: seq<Rollup>,
                                          manifests: set<string>)
    requires env.manifest in manifests && ValidSha(parent)
    requires AllEmitted(manifests, st.pins) && ExpandAll(env, st, actual, parent, children).Ok?
    ensures AllEmitted(manifests, ExpandAll(env, st, actual, parent, children).value.state.pins)
    decreases |env.store.Keys - st.seen|, |children|
  {
    if children != [] {
      var first := Expand(env, st, parent, children[0]).value;
      ExpandEmits(env, st, parent, children[0], manifests);
      CardinalityMonotone(env.store.Keys - first.state.seen, env.store.Keys - st.seen);
      ExpandAllEmits(env, first.state, Plus(actual, first.actual), parent, children[1..], manifests);
    }
  }

  /** Of the validator's checks, only the comparison of modality tokens can still fail. */
  lemma GrownPinsValid(manifests: set<string>, pins: seq<Pin>)
    requires Grown(pins) && AllEmitted(manifests, pins)
    ensures PinsValid(manifests, pins) <==> AllAddUp(pins)
  {
    GrownIsRootedTrees(pins);
    assert forall p :: p in pins ==> (ValidFields(manifests, p) <==> Emitted(manifests, p) && ModalitiesAddUp(p));
  }

  // ----- Repeated and cyclic references -----

  /** A reference to an object that is already being expanded, or has been, fails the whole list. */
  lemma {:induction false} SeenReferenceFails(env: Env, st: State, actual: Measures, parent: string,
                                              children: seq<Rollup>, i: nat)
    requires i < |children| && children[i].sha in st.seen
    ensures ExpandAll(env, st, actual, parent, children).Err?
    decreases |children|
  {
    var first := Expand(env, st, parent, children[0]);
    if first.Ok? && i > 0 {
      SeenReferenceFails(env, first.value.state, Plus(actual, first.value.actual), parent, children[1..], i - 1);
    }
  }

  /** So no object that refers to itself, to one of its ancestors or twice to the same child is ever accepted. */
  lemma CycleFails(env: Env, st: State, parent: string, r: Rollup, i: nat)
    requires r.sha in env.store && i < |env.store[r.sha].children|
    requires var again := env.store[r.sha].children[i].sha;
             again == r.sha || again in st.seen || exists j :: 0 <= j < i && env.store[r.sha].children[j].sha == again
    ensures Expand(env, st, parent, r).Err?
  {
    var children := env.store[r.sha].children;
    if Check(env, st.seen, r) == None {
      if children[i].sha in Entered(env, st, parent, r).seen {
        SeenReferenceFails(env, Entered(env, st, parent, r), OwnTotal(env, r), r.sha, children, i);
      } else {
        var j :| 0 <= j < i && children[j].sha == children[i].sha;
        TwiceFails(env, Entered(env, st, parent, r), OwnTotal(env, r), r.sha, children, j, i);
      }
    }
  }

  lemma {:induction false} TwiceFails(env: Env, st: State, actual: Measures, parent: string, children: seq<Rollup>,
                                      j: nat, i: nat)
    requires j < i < |children| && children[j].sha == children[i].sha
    ensures ExpandAll(env, st, actual, parent, children).Err?
    decreases |children|
  {
    var first := Expand(env, st, parent, children[0]);
    if first.Ok? {
      if j == 0 {
        ExpandSees(env, st, parent, children[0]);
        SeenReferenceFails(env, first.value.state, Plus(actual, first.value.actual), parent, children[1..], i - 1);
      } else {
        TwiceFails(env, first.value.state, Plus(actual, first.value.actual), parent, children[1..], j - 1, i - 1);
      }
    }
  }

  lemma ExpandSees(env: Env, st: State, parent: string, r: Rollup)
    requires Expand(env, st, parent, r).Ok?
    ensures r.sha in Expand(env, st, parent, r).value.state.seen
  {
    assert r.sha in Entered(env, st, parent, r).seen;
    assert Entered(env, st, parent, r).seen <= Expand(env, st, parent, r).value.state.seen;
  }
}
