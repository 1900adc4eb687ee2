/**
 The selected manifests of a bill of materials: each path once, its shards
 inline or in a tree of sub-manifests, and the condition on the references
 under which the pins of all trees pass the validator.
 */
module Selections {
  import opened Prelude
  import opened Measures
  import opened IndexTypes
  import opened Pins
  import opened Rollups
  import opened RollupTotals
  import opened SubManifestTrees

  /** Where the shards of a manifest are listed. */
  datatype Content = Inline(shards: seq<Shard>) | Rolled(rollup: Rollup)

  /** A selected manifest: its path, its own licenses, the names of its sources, and what it says of its records. */
  datatype Corpus = Corpus(path: string, license: string, licenses: seq<string>, sources: set<string>, content: Content,
                           format: Format, assessment: Option<Assessment>)

  function PathsIn(selection: seq<Corpus>): set<string> {
    if selection == [] then {} else PathsIn(selection[..|selection| - 1]) + {selection[|selection| - 1].path}
  }

  /** Each path once, at its first selection. */
  function Once(selection: seq<Corpus>): seq<Corpus> {
    if selection == [] then []
    else
      var front, last := selection[..|selection| - 1], selection[|selection| - 1];
      if last.path in PathsIn(front) then Once(front) else Once(front) + [last]
  }

  lemma OnceAppend(front: seq<Corpus>, last: Corpus)
    ensures Once(front + [last]) == if last.path in PathsIn(front) then Once(front) else Once(front) + [last]
    ensures PathsIn(front + [last]) == PathsIn(front) + {last.path}
  {
    assert (front + [last])[..|front|] == front;
  }

  /** The paths met are those of the manifests that are kept. */
  lemma {:induction false} OncePaths(selection: seq<Corpus>, path: string)
    ensures path in PathsIn(selection) <==> exists c :: c in Once(selection) && c.path == path
  {
    if selection != [] {
      var front, last := selection[..|selection| - 1], selection[|selection| - 1];
      OncePaths(front, path);
      assert selection == front + [last];
      OnceAppend(front, last);
      assert forall c :: c in Once(front) + [last] <==> c in Once(front) || c == last;
    }
  }

  // ----- One manifest on its own -----

  const Nothing := State({}, [], [])

  function EnvOf(store: Store, c: Corpus): Env { Env(store, c.sources, c.path) }

  /** The pins and shards that a manifest's sub-manifests add, whatever was there before. */
  ghost function Tree(store: Store, c: Corpus): Result<State, Failure> {
    match c.content
    case Inline(_) => Ok(Nothing)
    case Rolled(r) =>
      var x := Expand(EnvOf(store, c), Nothing, "", r);
      if x.Ok? then Ok(x.value.state) else Err(x.error)
  }

  function Behind(pins: seq<Pin>, leaves: seq<Leaf>, st: State): State {
    State(st.seen, pins + st.pins, leaves + st.leaves)
  }

  function StepBehind(pins: seq<Pin>, leaves: seq<Leaf>, x: Result<Step, Failure>): Result<Step, Failure> {
    if x.Ok? then Ok(Step(Behind(pins, leaves, x.value.state), x.value.actual)) else x
  }

  /** Expansion only appends: what it finds and whether it fails do not depend on older pins and shards. */
  lemma {:induction false} ExpandBehind(env: Env, pins: seq<Pin>, leaves: seq<Leaf>, st: State, parent: string, r: Rollup)
    ensures Expand(env, Behind(pins, leaves, st), parent, r) == StepBehind(pins, leaves, Expand(env, st, parent, r))
    decreases |env.store.Keys - st.seen|, 0
  {
    if Check(env, st.seen, r) == None {
      Shrinks(env.store.Keys, st.seen, r.sha);
      EnteredBehind(env, pins, leaves, st, parent, r);
      ExpandAllBehind(env, pins, leaves, Entered(env, st, parent, r), OwnTotal(env, r), r.sha, env.store[r.sha].children);
    }
  }

  lemma EnteredBehind(env: Env, pins: seq<Pin>, leaves: seq<Leaf>, st: State, parent: string, r: Rollup)
    requires r.sha in env.store
    ensures Entered(env, Behind(pins, leaves, st), parent, r) == Behind(pins, leaves, Entered(env, st, parent, r))
  {
    var pin := PinOf(env.manifest, parent, r, env.store[r.sha].encodedBytes);
    var own := OwnLeaves(env.store[r.sha].shards, Key(env.manifest, r.sha));
    assert (pins + st.pins) + [pin] == pins + (st.pins + [pin]);
    assert (leaves + st.leaves) + own == leaves + (st.leaves + own);
  }

  lemma {:induction false} ExpandAllBehind(env: Env, pins: seq<Pin>, leaves: seq<Leaf>, st: State, actual: Measures,
                                           parent: string, children: seq<Rollup>)
    ensures ExpandAll(env, Behind(pins, leaves, st), actual, parent, children) ==
            StepBehind(pins, leaves, ExpandAll(env, st, actual, parent, children))
    decreases |env.store.Keys - st.seen|, |children|
  {
    if children != [] {
      var first := Expand(env, st, parent, children[0]);
      ExpandBehind(env, pins, leaves, st, parent, children[0]);
      if first.Ok? {
        CardinalityMonotone(env.store.Keys - first.value.state.seen, env.store.Keys - st.seen);
        ExpandAllBehind(env, pins, leaves, first.value.state, Plus(actual, first.value.actual), parent, children[1..]);
      }
    }
  }

  /** Every shard of a tree is listed by a pin of that tree, and all its pins are the manifest's. */
  lemma TreeOwners(store: Store, c: Corpus)
    requires Tree(store, c).Ok?
    ensures forall l :: l in Tree(store, c).value.leaves ==> l.owner in Keys(Tree(store, c).value.pins) && l.owner.manifest == c.path
  {
    if c.content.Rolled? {
      ExpandGrows(EnvOf(store, c), Nothing, "", c.content.rollup);
      ExpandEmits(EnvOf(store, c), Nothing, "", c.content.rollup, {c.path});
    }
  }

  // ----- All selected manifests -----

  /** What is carried from one selected manifest to the next. */
  datatype Build = Build(manifests: set<string>, pins: seq<Pin>, leaves: seq<Leaf>)

  /** The whole selection, each path once; the first failed expansion fails the build. */
  ghost function BuildAll(store: Store, selection: seq<Corpus>): Result<Build, Failure> {
    if selection == [] then Ok(Build({}, [], []))
    else BuildOne(store, BuildAll(store, selection[..|selection| - 1]), selection[|selection| - 1])
  }

  ghost function BuildOne(store: Store, before: Result<Build, Failure>, c: Corpus): Result<Build, Failure> {
    if before.Err? || c.path in before.value.manifests then before
    else
      var t := Tree(store, c);
      if t.Err? then Err(t.error)
      else Ok(Build(before.value.manifests + {c.path}, before.value.pins + t.value.pins, before.value.leaves + t.value.leaves))
  }

  lemma BuildAppend(store: Store, front: seq<Corpus>, last: Corpus)
    ensures BuildAll(store, front + [last]) == BuildOne(store, BuildAll(store, front), last)
  {
    assert (front + [last])[..|front|] == front;
  }

  lemma {:induction false} FailureStays(store: Store, selection: seq<Corpus>, n: nat)
    requires n <= |selection| && BuildAll(store, selection[..n]).Err?
    ensures BuildAll(store, selection) == BuildAll(store, selection[..n])
  {
    if n < |selection| {
      assert selection[..|selection| - 1][..n] == selection[..n];
      FailureStays(store, selection[..|selection| - 1], n);
    } else {
      assert selection[..n] == selection;
    }
  }

  lemma {:induction false} BuildPaths(store: Store, selection: seq<Corpus>)
    requires BuildAll(store, selection).Ok?
    ensures BuildAll(store, selection).value.manifests == PathsIn(selection)
  {
    if selection != [] { BuildPaths(store, selection[..|selection| - 1]); }
  }

  /** The pins of all trees side by side: they grow, declare what is beneath them, and own every shard. */
  ghost predicate Built(manifests: set<string>, pins: seq<Pin>, leaves: seq<Leaf>) {
    && Grown(pins)
    && AllEmitted(manifests, pins)
    && (forall i :: 0 <= i < |leaves| ==> leaves[i].owner in Keys(pins))
    && NodesOk(State({}, pins, leaves), 0)
  }

  /** A new tree leaves the totals beneath the older pins as they were. */
  lemma OlderTreesKept(env: Env, a: State, b: State)
    requires Shape(env, a) && Grew(env, a, b, "") && NodesOk(a, 0)
    ensures NodesOk(b, 0)
  {
    hide Under, SumUnder, Grown;
    var newer := b.leaves[|a.leaves|..];
    assert b.leaves == a.leaves + newer;
    forall k | 0 <= k < |b.pins| ensures DeclaredByPin(b.pins[k]) == SumUnder(b.leaves, b.pins, KeyOf(b.pins[k])) {
      if k < |a.pins| {
        var top := KeyOf(b.pins[k]);
        assert b.pins[k] == a.pins[k] && a.pins[k] in a.pins;
        forall i | 0 <= i < |newer| ensures !Under(b.pins, newer[i].owner, top) {
          assert newer[i] == b.leaves[|a.leaves| + i];
        }
        SumOfNone(newer, b.pins, top);
        SumConcat(a.leaves, newer, b.pins, top);
        SumStable(a.leaves, a.pins, b.pins, top);
      }
    }
  }

  /** One more manifest keeps everything that holds of the pins. */
  lemma BuiltOneMore(store: Store, before: Build, c: Corpus)
    requires Built(before.manifests, before.pins, before.leaves) && c.path !in before.manifests && Tree(store, c).Ok?
    ensures var t := Tree(store, c).value;
            Built(before.manifests + {c.path}, before.pins + t.pins, before.leaves + t.leaves)
  {
    hide Expand, Grown, Under, SumUnder;
    var st, t, env := State({}, before.pins, before.leaves), Tree(store, c).value, EnvOf(store, c);
    match c.content {
      case Inline(_) =>
        assert before.pins + t.pins == before.pins && before.leaves + t.leaves == before.leaves;
      case Rolled(r) =>
        ExpandBehind(env, before.pins, before.leaves, Nothing, "", r);
        assert Behind(before.pins, before.leaves, Nothing) == st;
        ExpandGrows(env, st, "", r);
        OlderTreesKept(env, st, Expand(env, st, "", r).value.state);
        ExpandEmits(env, st, "", r, before.manifests + {c.path});
    }
  }

  /** Every pin of every tree declares its subtree, whatever was selected, in whatever order. */
  lemma {:induction false} BuildAllIsBuilt(store: Store, selection: seq<Corpus>)
    requires BuildAll(store, selection).Ok?
    ensures var b := BuildAll(store, selection).value; Built(b.manifests, b.pins, b.leaves)
  {
    if selection != [] {
      var front, c := selection[..|selection| - 1], selection[|selection| - 1];
      BuildAllIsBuilt(store, front);
      var before := BuildAll(store, front).value;
      if c.path !in before.manifests { BuiltOneMore(store, before, c); }
    }
  }

  // ----- When the pins are valid -----

  /** `x` is a reference `n` levels below `root` in the store. */
  ghost predicate ReferencedAt(store: Store, root: Rollup, x: Rollup, n: nat)
    decreases n
  {
    if n == 0 then x == root
    else root.sha in store && exists child :: child in store[root.sha].children && ReferencedAt(store, child, x, n - 1)
  }

  ghost predicate Referenced(store: Store, root: Rollup, x: Rollup) { exists n: nat :: ReferencedAt(store, root, x, n) }

  /** Modalities, where a reference gives them, cover exactly its tokens. */
  ghost predicate ReferenceAddsUp(r: Rollup) { r.modalities == map[] || TokenSum(r.modalities) == r.tokens }

  ghost predicate TreeAddsUp(store: Store, root: Rollup) { forall x :: Referenced(store, root, x) ==> ReferenceAddsUp(x) }

  lemma TreeAddsUpStep(store: Store, r: Rollup)
    requires r.sha in store
    ensures TreeAddsUp(store, r) <==>
            ReferenceAddsUp(r) && forall child :: child in store[r.sha].children ==> TreeAddsUp(store, child)
  {
    var children := store[r.sha].children;
    assert ReferencedAt(store, r, r, 0);
    forall x, child | child in children && Referenced(store, child, x) ensures Referenced(store, r, x) {
      var n: nat :| ReferencedAt(store, child, x, n);
      assert ReferencedAt(store, r, x, n + 1);
    }
    forall x | Referenced(store, r, x) && x != r ensures exists child :: child in children && Referenced(store, child, x) {
      var n: nat :| ReferencedAt(store, r, x, n);
      var child :| child in children && ReferencedAt(store, child, x, n - 1);
      assert Referenced(store, child, x);
    }
  }

  ghost predicate AllTreesAddUp(store: Store, roots: seq<Rollup>) { forall r :: r in roots ==> TreeAddsUp(store, r) }

  /** Expansion pins exactly the references that it reaches. */
  lemma {:induction false} ExpandAddsUp(env: Env, st: State, parent: string, r: Rollup)
    requires Expand(env, st, parent, r).Ok?
    ensures AllAddUp(Expand(env, st, parent, r).value.state.pins) <==> AllAddUp(st.pins) && TreeAddsUp(env.store, r)
    decreases |env.store.Keys - st.seen|, 0
  {
    hide TreeAddsUp;
    Shrinks(env.store.Keys, st.seen, r.sha);
    TreeAddsUpStep(env.store, r);
    EnteredAddsUp(env, st, parent, r);
    ExpandAllAddsUp(env, Entered(env, st, parent, r), OwnTotal(env, r), r.sha, env.store[r.sha].children);
  }

  lemma EnteredAddsUp(env: Env, st: State, parent: string, r: Rollup)
    requires r.sha in env.store
    ensures AllAddUp(Entered(env, st, parent, r).pins) <==> AllAddUp(st.pins) && ReferenceAddsUp(r)
  {
    var pin := PinOf(env.manifest, parent, r, env.store[r.sha].encodedBytes);
    assert ModalitiesAddUp(pin) <==> ReferenceAddsUp(r);
    assert forall p :: p in st.pins + [pin] <==> p in st.pins || p == pin;
  }

  lemma {:induction false} ExpandAllAddsUp(env: Env, st: State, actual: Measures, parent: string, children: seq<Rollup>)
    requires ExpandAll(env, st, actual, parent, children).Ok?
    ensures AllAddUp(ExpandAll(env, st, actual, parent, children).value.state.pins) <==>
            AllAddUp(st.pins) && AllTreesAddUp(env.store, children)
    decreases |env.store.Keys - st.seen|, |children|
  {
    hide TreeAddsUp, AllAddUp;
    if children != [] {
      var first := Expand(env, st, parent, children[0]).value;
      ExpandAddsUp(env, st, parent, children[0]);
      CardinalityMonotone(env.store.Keys - first.state.seen, env.store.Keys - st.seen);
      ExpandAllAddsUp(env, first.state, Plus(actual, first.actual), parent, children[1..]);
      assert forall r :: r in children <==> r == children[0] || r in children[1..];
    }
  }

  /** The condition on the selection: wherever a reachable reference gives modalities, they cover its tokens. */
  ghost predicate SelectionAddsUp(store: Store, selection: seq<Corpus>) {
    forall c :: c in Once(selection) && c.content.Rolled? ==> TreeAddsUp(store, c.content.rollup)
  }

  lemma TreePinsAddUp(store: Store, c: Corpus)
    requires Tree(store, c).Ok?
    ensures AllAddUp(Tree(store, c).value.pins) <==> (c.content.Rolled? ==> TreeAddsUp(store, c.content.rollup))
  {
    if c.content.Rolled? { ExpandAddsUp(EnvOf(store, c), Nothing, "", c.content.rollup); }
  }

  lemma {:induction false} BuildAddsUp(store: Store, selection: seq<Corpus>)
    requires BuildAll(store, selection).Ok?
    ensures AllAddUp(BuildAll(store, selection).value.pins) <==> SelectionAddsUp(store, selection)
  {
    if selection != [] {
      var front, c := selection[..|selection| - 1], selection[|selection| - 1];
      assert selection == front + [c];
      BuildAddsUp(store, front);
      BuildPaths(store, front);
      OnceAppend(front, c);
      if c.path !in PathsIn(front) {
        TreePinsAddUp(store, c);
        var older, newer := BuildAll(store, front).value.pins, Tree(store, c).value.pins;
        assert forall p :: p in older + newer <==> p in older || p in newer;
        assert forall d :: d in Once(front) + [c] <==> d in Once(front) || d == c;
      }
    }
  }

  /** The pins of a successful build are valid exactly when the references of the selection add up. */
  lemma BuiltPinsValidIff(store: Store, selection: seq<Corpus>)
    requires BuildAll(store, selection).Ok?
    ensures PinsValid(PathsIn(selection), BuildAll(store, selection).value.pins) <==> SelectionAddsUp(store, selection)
  {
    var b := BuildAll(store, selection).value;
    BuildAllIsBuilt(store, selection);
    BuildPaths(store, selection);
    BuildAddsUp(store, selection);
    GrownPinsValid(b.manifests, b.pins);
  }

  // ----- A selection whose pins are rejected -----

  /** A reference that declares 5 tokens and gives 7 of them as text. */
  function ChildReference(sha: string): Rollup { Rollup("u", sha, 1, 1, 5, 1, map["text" := Modality(1, 1, 7, 0, 0)]) }

  function RootReference(sha: string): Rollup { Rollup("u", sha, 1, 1, 5, 1, map[]) }

  function OneShard(sha: string): Shard { Shard("u", sha, "", [], map[], [], 1, 5, 1, map[], None, None, None) }

  function TwoObjects(root: string, child: string): Store {
    map[root := SubManifest("sub-manifest", 1, [], [ChildReference(child)], 1),
        child := SubManifest("sub-manifest", 1, [OneShard(child)], [], 1)]
  }

  lemma ChildDiffers(sha: string)
    ensures !ReferenceAddsUp(ChildReference(sha))
  {
    var modalities := ChildReference(sha).modalities;
    TokenSumStep(modalities, "text");
    assert modalities - {"text"} == map[];
  }

  lemma OneShardValid(sha: string, sources: set<string>)
    requires ValidSha(sha)
    ensures ValidSubShard(OneShard(sha), sources)
  {
  }

  lemma ChildChecks(env: Env, seen: set<string>, root: string, child: string)
    requires ValidSha(child) && root != child && env.store == TwoObjects(root, child) && child !in seen
    ensures Check(env, seen, ChildReference(child)) == None
  {
    hide ValidSha, ValidSubShard;
    OneShardValid(child, env.sources);
    assert ModalityName("text");
  }

  lemma ChildExpands(env: Env, st: State, root: string, child: string)
    requires ValidSha(child) && root != child && env.store == TwoObjects(root, child) && child !in st.seen
    ensures var x := Expand(env, st, root, ChildReference(child));
            x.Ok? && x.value.actual == Measures(1, 1, 5, 1)
  {
    hide Check, ValidSha;
    var r, own := ChildReference(child), OwnLeaves([OneShard(child)], Key(env.manifest, child));
    ChildChecks(env, st.seen, root, child);
    assert own[..0] == [] && Total(own) == Measures(1, 1, 5, 1);
    assert ExpandAll(env, Entered(env, st, root, r), OwnTotal(env, r), child, []).Ok?;
  }

  lemma RootExpands(env: Env, root: string, child: string)
    requires ValidSha(root) && ValidSha(child) && root != child && env.store == TwoObjects(root, child)
    ensures Expand(env, Nothing, "", RootReference(root)).Ok?
  {
    var r := RootReference(root);
    assert Check(env, {}, r) == None;
    var next, children := Entered(env, Nothing, "", r), env.store[root].children;
    assert children == [ChildReference(child)] && children[1..] == [];
    assert OwnTotal(env, r) == Zero;
    ChildExpands(env, next, root, child);
    var first := Expand(env, next, root, children[0]).value;
    assert ExpandAll(env, next, Zero, root, children) == ExpandAll(env, first.state, first.actual, root, []);
  }

  /** The gap is real: the expansion of this store succeeds, and the pins it records are refused. */
  lemma UncheckedModalityTokens(root: string, child: string, path: string)
    requires ValidSha(root) && ValidSha(child) && root != child
    ensures var store, c := TwoObjects(root, child), Corpus(path, "", [], {}, Rolled(RootReference(root)), Format(false, 1), None);
            BuildAll(store, [c]).Ok? && !PinsValid({path}, BuildAll(store, [c]).value.pins)
  {
    var store, r, x := TwoObjects(root, child), RootReference(root), ChildReference(child);
    var c := Corpus(path, "", [], {}, Rolled(r), Format(false, 1), None);
    RootExpands(EnvOf(store, c), root, child);
    assert [] + [c] == [c];
    BuildAppend(store, [], c);
    OnceAppend([], c);
    assert PathsIn([c]) == {path} && c in Once([c]);
    ChildDiffers(child);
    assert x in store[root].children && ReferencedAt(store, x, x, 0);
    assert ReferencedAt(store, r, x, 1);
    assert Referenced(store, r, x);
    BuiltPinsValidIff(store, [c]);
  }
}
