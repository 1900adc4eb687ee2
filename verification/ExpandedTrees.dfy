/**
 When the expansion of a rollup succeeds and what it finds, without following
 the recursion: exactly when the references unfold into a tree in which no
 digest repeats and every node is sound and declares its subtree; the pins and
 the shards are then those of the tree, each node before its children.
 */
module ExpandedTrees {
  import opened Prelude
  import opened Measures
  import opened IndexTypes
  import opened Pins
  import opened Rollups
  import opened RollupTotals
  import opened Selections

  /** A reference with the trees of the references in its object. */
  datatype RefTree = RefTree(ref: Rollup, subs: seq<RefTree>)

  ghost predicate Unfolds(store: Store, t: RefTree)
    decreases t
  {
    t.ref.sha in store && UnfoldsAll(store, store[t.ref.sha].children, t.subs)
  }

  ghost predicate UnfoldsAll(store: Store, children: seq<Rollup>, ts: seq<RefTree>)
    decreases ts
  {
    if ts == [] then children == []
    else children != [] && ts[0].ref == children[0] && Unfolds(store, ts[0]) && UnfoldsAll(store, children[1..], ts[1..])
  }

  /** The digests of a tree, each node before its children. */
  function Digests(t: RefTree): seq<string>
    decreases t
  {
    [t.ref.sha] + DigestsAll(t.subs)
  }

  function DigestsAll(ts: seq<RefTree>): seq<string>
    decreases ts
  {
    if ts == [] then [] else Digests(ts[0]) + DigestsAll(ts[1..])
  }

  function ObjectAt(store: Store, sha: string): SubManifest {
    if sha in store then store[sha] else SubManifest("", 0, [], [], 0)
  }

  /** One pin for each node, which names the node above it. */
  function PinsOf(env: Env, parent: string, t: RefTree): seq<Pin>
    decreases t
  {
    var r := t.ref;
    [Pin(env.manifest, parent, r.url, r.sha, r.count, r.docs, r.tokens, r.bytes, ObjectAt(env.store, r.sha).encodedBytes,
         r.modalities)]
    + PinsOfAll(env, r.sha, t.subs)
  }

  function PinsOfAll(env: Env, parent: string, ts: seq<RefTree>): seq<Pin>
    decreases ts
  {
    if ts == [] then [] else PinsOf(env, parent, ts[0]) + PinsOfAll(env, parent, ts[1..])
  }

  function Owned(shards: seq<Shard>, owner: Key): seq<Leaf> {
    if shards == [] then [] else [Leaf(shards[0], owner)] + Owned(shards[1..], owner)
  }

  /** All shards of a tree, those of a node before those of its children. */
  function ShardsOf(env: Env, t: RefTree): seq<Leaf>
    decreases t
  {
    Owned(ObjectAt(env.store, t.ref.sha).shards, Key(env.manifest, t.ref.sha)) + ShardsOfAll(env, t.subs)
  }

  function ShardsOfAll(env: Env, ts: seq<RefTree>): seq<Leaf>
    decreases ts
  {
    if ts == [] then [] else ShardsOf(env, ts[0]) + ShardsOfAll(env, ts[1..])
  }

  /** The reference and its object pass every check of their own. */
  ghost predicate SoundNode(env: Env, r: Rollup) {
    && r.url != "" && ValidSha(r.sha) && r.count > 0 && r.docs > 0 && r.tokens >= 0 && r.bytes > 0 && ValidModalities(r.modalities)
    && var o := ObjectAt(env.store, r.sha);
       o.kind == "sub-manifest" && o.schema == 1 && o.encodedBytes > 0 && forall s :: s in o.shards ==> SoundShard(env, s)
  }

  ghost predicate SoundShard(env: Env, s: Shard) {
    && s.url != "" && ValidSha(s.sha) && s.docs > 0 && s.tokens >= 0 && s.bytes > 0
    && ValidModalities(s.modalities) && (s.modalities == map[] || TokenSum(s.modalities) == s.tokens)
    && NoDuplicates(s.sources) && forall n :: n in s.sources ==> n in env.sources
  }

  /** Every node is sound and declares the shards of its whole subtree. */
  ghost predicate Sound(env: Env, t: RefTree)
    decreases t
  {
    && SoundNode(env, t.ref) && SoundAll(env, t.subs)
    && Total(ShardsOf(env, t)) == Measures(t.ref.count, t.ref.docs, t.ref.tokens, t.ref.bytes)
  }

  ghost predicate SoundAll(env: Env, ts: seq<RefTree>)
    decreases ts
  {
    ts == [] || (Sound(env, ts[0]) && SoundAll(env, ts[1..]))
  }

  /** No digest occurs twice, and none has been seen before. */
  ghost predicate Fresh(digests: seq<string>, seen: set<string>) {
    NoDuplicates(digests) && forall d :: d in digests ==> d !in seen
  }

  // ----- The checks of one node -----

  lemma {:induction false} OwnedIs(shards: seq<Shard>, owner: Key)
    ensures Owned(shards, owner) == OwnLeaves(shards, owner)
  {
    if shards != [] {
      OwnedIs(shards[1..], owner);
      assert OwnLeaves(shards, owner) == [Leaf(shards[0], owner)] + OwnLeaves(shards[1..], owner);
    }
  }

  lemma ShardIsSound(env: Env, s: Shard)
    ensures ValidSubShard(s, env.sources) <==> SoundShard(env, s)
  {
  }

  lemma CheckIsSound(env: Env, seen: set<string>, r: Rollup)
    ensures Check(env, seen, r) == None <==> r.sha !in seen && r.sha in env.store && SoundNode(env, r)
  {
    hide ValidSha, ValidModalities, ValidSubShard, SoundShard;
    forall s { ShardIsSound(env, s); }
  }

  lemma SplitFresh(a: seq<string>, b: seq<string>, seen: set<string>)
    ensures Fresh(a + b, seen) <==> Fresh(a, seen) && Fresh(b, seen + ToSet(a))
  {
    var all := a + b;
    if Fresh(all, seen) {
      forall i, j | 0 <= i < j < |a| ensures a[i] != a[j] { assert all[i] != all[j]; }
      forall i, j | 0 <= i < j < |b| ensures b[i] != b[j] { assert all[|a| + i] != all[|a| + j]; }
      forall i, j | 0 <= i < |a| && 0 <= j < |b| ensures a[i] != b[j] { assert all[i] != all[|a| + j]; }
      assert forall d :: d in b ==> d in all;
    }
    if Fresh(a, seen) && Fresh(b, seen + ToSet(a)) {
      forall i, j | 0 <= i < j < |all| ensures all[i] != all[j] {
        if i < |a| <= j { assert all[i] in ToSet(a) && all[j] in b; }
      }
    }
  }

  lemma FreshOne(d: string, seen: set<string>)
    ensures Fresh([d], seen) <==> d !in seen
    ensures ToSet([d]) == {d}
  {
    assert d in [d];
  }

  // ----- From a tree to the expansion -----

  function Extended(st: State, digests: seq<string>, pins: seq<Pin>, leaves: seq<Leaf>): State {
    State(st.seen + ToSet(digests), st.pins + pins, st.leaves + leaves)
  }

  lemma ExtendedTwice(st: State, d: seq<string>, p: seq<Pin>, l: seq<Leaf>, d': seq<string>, p': seq<Pin>, l': seq<Leaf>)
    ensures Extended(Extended(st, d, p, l), d', p', l') == Extended(st, d + d', p + p', l + l')
  {
    assert ToSet(d + d') == ToSet(d) + ToSet(d');
    assert (st.pins + p) + p' == st.pins + (p + p') && (st.leaves + l) + l' == st.leaves + (l + l');
  }

  lemma EnteredExtends(env: Env, st: State, parent: string, t: RefTree)
    requires t.ref.sha in env.store
    ensures Entered(env, st, parent, t.ref) ==
            Extended(st, [t.ref.sha], PinsOf(env, parent, t)[..1], Owned(env.store[t.ref.sha].shards, Key(env.manifest, t.ref.sha)))
    ensures OwnTotal(env, t.ref) == Total(Owned(env.store[t.ref.sha].shards, Key(env.manifest, t.ref.sha)))
  {
    OwnedIs(env.store[t.ref.sha].shards, Key(env.manifest, t.ref.sha));
    FreshOne(t.ref.sha, st.seen);
  }

  lemma {:induction false} TreeExpands(env: Env, st: State, parent: string, t: RefTree)
    requires Unfolds(env.store, t) && Sound(env, t) && Fresh(Digests(t), st.seen)
    ensures Expand(env, st, parent, t.ref) ==
            Ok(Step(Extended(st, Digests(t), PinsOf(env, parent, t), ShardsOf(env, t)), Declared(t.ref)))
    decreases t
  {
    hide Check, Entered, OwnTotal, SoundNode, Fresh, Extended, Total;
    var r, own := t.ref, Owned(env.store[t.ref.sha].shards, Key(env.manifest, t.ref.sha));
    SplitFresh([r.sha], DigestsAll(t.subs), st.seen);
    FreshOne(r.sha, st.seen);
    CheckIsSound(env, st.seen, r);
    Shrinks(env.store.Keys, st.seen, r.sha);
    EnteredExtends(env, st, parent, t);
    var first := PinsOf(env, parent, t)[..1];
    EnteredSees(env, st, parent, r);
    AllExpand(env, Entered(env, st, parent, r), OwnTotal(env, r), r.sha, env.store[r.sha].children, t.subs);
    ExtendedTwice(st, [r.sha], first, own, DigestsAll(t.subs), PinsOfAll(env, r.sha, t.subs), ShardsOfAll(env, t.subs));
    TotalConcat(own, ShardsOfAll(env, t.subs));
    assert PinsOf(env, parent, t) == first + PinsOfAll(env, r.sha, t.subs);
  }

  lemma EnteredSees(env: Env, st: State, parent: string, r: Rollup)
    requires r.sha in env.store
    ensures Entered(env, st, parent, r).seen == st.seen + {r.sha}
  {
  }

  lemma {:induction false} AllExpand(env: Env, st: State, actual: Measures, parent: string, children: seq<Rollup>,
                                     ts: seq<RefTree>)
    requires UnfoldsAll(env.store, children, ts) && SoundAll(env, ts) && Fresh(DigestsAll(ts), st.seen)
    ensures ExpandAll(env, st, actual, parent, children) ==
            Ok(Step(Extended(st, DigestsAll(ts), PinsOfAll(env, parent, ts), ShardsOfAll(env, ts)),
                    Plus(actual, Total(ShardsOfAll(env, ts)))))
    decreases ts
  {
    hide Expand, Fresh, Sound, Unfolds, Extended, Plus, Total;
    if ts == [] {
      ExtendedByNothing(st, actual);
    } else {
      var t, rest := ts[0], ts[1..];
      SplitFresh(Digests(t), DigestsAll(rest), st.seen);
      TreeExpands(env, st, parent, t);
      SoundDeclares(env, t);
      var next := Extended(st, Digests(t), PinsOf(env, parent, t), ShardsOf(env, t));
      ExtendedSees(st, Digests(t), PinsOf(env, parent, t), ShardsOf(env, t));
      AllExpand(env, next, Plus(actual, Declared(t.ref)), parent, children[1..], rest);
      ExtendedTwice(st, Digests(t), PinsOf(env, parent, t), ShardsOf(env, t),
                 DigestsAll(rest), PinsOfAll(env, parent, rest), ShardsOfAll(env, rest));
      TotalConcat(ShardsOf(env, t), ShardsOfAll(env, rest));
      PlusThree(actual, Total(ShardsOf(env, t)), Total(ShardsOfAll(env, rest)));
    }
  }

  lemma ExtendedByNothing(st: State, actual: Measures)
    ensures Extended(st, [], [], []) == st && Plus(actual, Total([])) == actual
  {
  }

  lemma ExtendedSees(st: State, digests: seq<string>, pins: seq<Pin>, leaves: seq<Leaf>)
    ensures Extended(st, digests, pins, leaves).seen == st.seen + ToSet(digests)
  {
  }

  lemma SoundDeclares(env: Env, t: RefTree)
    requires Sound(env, t)
    ensures Total(ShardsOf(env, t)) == Declared(t.ref)
  {
  }

  lemma PlusThree(a: Measures, b: Measures, c: Measures)
    ensures Plus(Plus(a, b), c) == Plus(a, Plus(b, c))
  {
  }

  // ----- From the expansion to a tree -----

  lemma {:induction false} ExpansionUnfolds(env: Env, st: State, parent: string, r: Rollup) returns (t: RefTree)
    requires Expand(env, st, parent, r).Ok?
    ensures t.ref == r && Unfolds(env.store, t) && Sound(env, t) && Fresh(Digests(t), st.seen)
    decreases |env.store.Keys - st.seen|, 0
  {
    hide Check, Entered, OwnTotal, SoundNode, Fresh, Extended, Total;
    CheckIsSound(env, st.seen, r);
    Shrinks(env.store.Keys, st.seen, r.sha);
    var next, own := Entered(env, st, parent, r), OwnTotal(env, r);
    EnteredSees(env, st, parent, r);
    var subs := AllUnfold(env, next, own, r.sha, env.store[r.sha].children);
    t := RefTree(r, subs);
    AllExpand(env, next, own, r.sha, env.store[r.sha].children, subs);
    EnteredExtends(env, st, parent, t);
    TotalConcat(Owned(env.store[r.sha].shards, Key(env.manifest, r.sha)), ShardsOfAll(env, subs));
    FreshOne(r.sha, st.seen);
    SplitFresh([r.sha], DigestsAll(subs), st.seen);
  }

  lemma {:induction false} AllUnfold(env: Env, st: State, actual: Measures, parent: string, children: seq<Rollup>)
    returns (ts: seq<RefTree>)
    requires ExpandAll(env, st, actual, parent, children).Ok?
    ensures UnfoldsAll(env.store, children, ts) && SoundAll(env, ts) && Fresh(DigestsAll(ts), st.seen)
    decreases |env.store.Keys - st.seen|, |children|
  {
    hide Expand, Fresh, Sound, Unfolds, Extended, Plus, Total;
    if children == [] {
      ts := [];
      NothingIsFresh(st.seen);
    } else {
      var t := ExpansionUnfolds(env, st, parent, children[0]);
      TreeExpands(env, st, parent, t);
      ExtendedSees(st, Digests(t), PinsOf(env, parent, t), ShardsOf(env, t));
      var first := Expand(env, st, parent, children[0]).value;
      CardinalityMonotone(env.store.Keys - first.state.seen, env.store.Keys - st.seen);
      var rest := AllUnfold(env, first.state, Plus(actual, first.actual), parent, children[1..]);
      ts := [t] + rest;
      assert ts[1..] == rest;
      SplitFresh(Digests(t), DigestsAll(rest), st.seen);
    }
  }

  lemma NothingIsFresh(seen: set<string>)
    ensures Fresh([], seen)
  {
  }

  // ----- The result -----

  ghost predicate IsTreeOf(env: Env, r: Rollup, t: RefTree) {
    t.ref == r && Unfolds(env.store, t) && Sound(env, t) && NoDuplicates(Digests(t))
  }

  /** The rollup of a manifest expands exactly when its references form such a tree. */
  lemma ExpandsIffTree(store: Store, c: Corpus)
    requires c.content.Rolled?
    ensures Tree(store, c).Ok? <==> exists t :: IsTreeOf(EnvOf(store, c), c.content.rollup, t)
  {
    hide Expand, Unfolds, Sound, Digests;
    var env, r := EnvOf(store, c), c.content.rollup;
    if Tree(store, c).Ok? {
      var t := ExpansionUnfolds(env, Nothing, "", r);
      assert IsTreeOf(env, r, t);
    }
    if t :| IsTreeOf(env, r, t) { TreeExpands(env, Nothing, "", t); }
  }

  /** And it then gives the pins and the shards of the tree, each node before its children. */
  lemma ExpansionListsTree(store: Store, c: Corpus, t: RefTree)
    requires c.content.Rolled? && IsTreeOf(Env(store, c.sources, c.path), c.content.rollup, t)
    ensures Tree(store, c).Ok?
    ensures var env := Env(store, c.sources, c.path);
            Tree(store, c).value.pins == PinsOf(env, "", t) && Tree(store, c).value.leaves == ShardsOf(env, t)
  {
    hide Expand, Unfolds, Sound, Digests, PinsOf, ShardsOf;
    TreeExpands(EnvOf(store, c), Nothing, "", t);
  }
}
