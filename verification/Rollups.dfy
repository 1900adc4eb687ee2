/**
 Expansion of a content-addressed sub-manifest tree.  The object store is any
 finite map, cyclic or sharing references included; the digests already seen
 are what makes the recursion stop.
 */
module Rollups {
  import opened Prelude
  import opened Measures
  import opened IndexTypes
  import opened Pins

  datatype Failure = BadReference | ReferencedTwice | NotFetched | BadIdentity | BadShard | TotalsDiffer

  /** A shard handed to `addShard`, with the key of the sub-manifest that lists it. */
  datatype Leaf = Leaf(shard: Shard, owner: Key)

  /** What the recursion updates. */
  datatype State = State(seen: set<string>, pins: seq<Pin>, leaves: seq<Leaf>)

  datatype Step = Step(state: State, actual: Measures)

  type Store = map<string, SubManifest>

  /** What it only reads: the object store, and the manifest with the names of its sources. */
  datatype Env = Env(store: Store, sources: set<string>, manifest: string)

  predicate ValidReference(r: Rollup) {
    r.url != "" && ValidSha(r.sha) && r.count > 0 && r.docs > 0 && r.tokens >= 0 && r.bytes > 0 && ValidModalities(r.modalities)
  }

  ghost predicate ValidSubShard(s: Shard, sources: set<string>) {
    && s.url != "" && ValidSha(s.sha)
    && s.docs > 0 && s.tokens >= 0 && s.bytes > 0
    && ValidModalities(s.modalities)
    && (s.modalities == map[] || TokenSum(s.modalities) == s.tokens)
    && (forall n :: n in s.sources ==> n in sources)
    && NoDuplicates(s.sources)
  }

  function Declared(r: Rollup): Measures { Measures(r.count, r.docs, r.tokens, r.bytes) }

  function DeclaredByPin(p: Pin): Measures { Measures(p.count, p.docs, p.tokens, p.bytes) }

  function PinOf(manifest: string, parent: string, r: Rollup, encodedBytes: int): Pin {
    Pin(manifest, parent, r.url, r.sha, r.count, r.docs, r.tokens, r.bytes, encodedBytes, r.modalities)
  }

  function OwnLeaves(shards: seq<Shard>, owner: Key): seq<Leaf> {
    seq(|shards|, i requires 0 <= i < |shards| => Leaf(shards[i], owner))
  }

  function Total(leaves: seq<Leaf>): Measures {
    if leaves == [] then Zero else Plus(Total(leaves[..|leaves| - 1]), ShardMeasures(leaves[|leaves| - 1].shard))
  }

  // ----- The recursion -----

  /** Every check of one reference and of its object that precedes the children. */
  ghost function Check(env: Env, seen: set<string>, r: Rollup): Option<Failure> {
    if !ValidReference(r) then Some(BadReference)
    else if r.sha in seen then Some(ReferencedTwice)
    else if r.sha !in env.store || env.store[r.sha].encodedBytes <= 0 then Some(NotFetched)
    else if env.store[r.sha].kind != "sub-manifest" || env.store[r.sha].schema != 1 then Some(BadIdentity)
    else if exists s :: s in env.store[r.sha].shards && !ValidSubShard(s, env.sources) then Some(BadShard)
    else None
  }

  /** The state when the loop over the children begins. */
  ghost function Entered(env: Env, st: State, parent: string, r: Rollup): State
    requires r.sha in env.store
  {
    var sub := env.store[r.sha];
    State(st.seen + {r.sha}, st.pins + [PinOf(env.manifest, parent, r, sub.encodedBytes)],
          st.leaves + OwnLeaves(sub.shards, Key(env.manifest, r.sha)))
  }

  ghost function OwnTotal(env: Env, r: Rollup): Measures
    requires r.sha in env.store
  {
    Total(OwnLeaves(env.store[r.sha].shards, Key(env.manifest, r.sha)))
  }

  ghost function Expand(env: Env, st: State, parent: string, r: Rollup): (result: Result<Step, Failure>)
    ensures result.Ok? ==> st.seen <= result.value.state.seen
    decreases |env.store.Keys - st.seen|, 0
  {
    var failed := Check(env, st.seen, r);
    if failed.Some? then Err(failed.value)
    else
      Shrinks(env.store.Keys, st.seen, r.sha);
      var all := ExpandAll(env, Entered(env, st, parent, r), OwnTotal(env, r), r.sha, env.store[r.sha].children);
      if all.Ok? && all.value.actual != Declared(r) then Err(TotalsDiffer) else all
  }

  ghost function ExpandAll(env: Env, st: State, actual: Measures, parent: string, children: seq<Rollup>)
    : (result: Result<Step, Failure>)
    ensures result.Ok? ==> st.seen <= result.value.state.seen
    decreases |env.store.Keys - st.seen|, |children|
  {
    if children == [] then Ok(Step(st, actual))
    else
      var first := Expand(env, st, parent, children[0]);
      if first.Err? then first
      else
        CardinalityMonotone(env.store.Keys - first.value.state.seen, env.store.Keys - st.seen);
        ExpandAll(env, first.value.state, Plus(actual, first.value.actual), parent, children[1..])
  }

  /** What makes the recursion stop: each entered object leaves one fewer stored digest unseen. */
  lemma Shrinks(stored: set<string>, seen: set<string>, sha: string)
    requires sha in stored && sha !in seen
    ensures |stored - (seen + {sha})| < |stored - seen|
  {
    assert stored - seen == (stored - (seen + {sha})) + {sha};
  }

  lemma CardinalityMonotone(a: set<string>, b: set<string>)
    requires a <= b
    ensures |a| <= |b|
  {
    assert b == a + (b - a);
  }

  // ----- The source's method -----

  /** The parts of the bill of materials that the expansion of one manifest fills. */
  class Expander {
    const env: Env
    var seen: set<string>
    var pins: seq<Pin>
    var leaves: seq<Leaf>

    ghost function Now(): State reads this { State(seen, pins, leaves) }

    constructor (env: Env, pins: seq<Pin>, leaves: seq<Leaf>)
      ensures this.env == env && Now() == State({}, pins, leaves)
    {
      this.env, this.seen, this.pins, this.leaves := env, {}, pins, leaves;
    }

    /** validateSubManifestShard */
    method CheckShard(s: Shard) returns (ok: bool)
      ensures ok <==> ValidSubShard(s, env.sources)
    {
      if s.url == "" || !ValidSha(s.sha) || s.docs <= 0 || s.tokens < 0 || s.bytes <= 0 || !ValidModalities(s.modalities) {
        return false;
      }
      var tokens := ModalityTokens(s.modalities);
      if s.modalities != map[] && tokens != s.tokens {
        return false;
      }
      var listed: set<string> := {};
      for i := 0 to |s.sources|
        invariant listed == ToSet(s.sources[..i])
        invariant forall j :: 0 <= j < i ==> s.sources[j] in env.sources
        invariant NoDuplicates(s.sources[..i])
      {
        if s.sources[i] !in env.sources {
          return false;
        }
        if s.sources[i] in listed {
          assert s.sources[i] in s.sources[..i];
          var j :| 0 <= j < i && s.sources[..i][j] == s.sources[i];
          return false;
        }
        assert s.sources[..i + 1] == s.sources[..i] + [s.sources[i]];
        listed := listed + {s.sources[i]};
      }
      assert s.sources[..|s.sources|] == s.sources;
      ok := true;
    }

    /** The loop over the shards of one sub-manifest: check, count, hand on. */
    method AddShards(shards: seq<Shard>, owner: Key) returns (result: Result<Measures, Failure>)
      modifies this`leaves
      ensures result.Ok? <==> forall s :: s in shards ==> ValidSubShard(s, env.sources)
      ensures result.Err? ==> result.error == BadShard
      ensures result.Ok? ==> result.value == Total(OwnLeaves(shards, owner))
                             && leaves == old(leaves) + OwnLeaves(shards, owner)
    {
      var actual := Zero;
      ghost var own := OwnLeaves(shards, owner);
      for i := 0 to |shards|
        invariant forall s :: s in shards[..i] ==> ValidSubShard(s, env.sources)
        invariant leaves == old(leaves) + own[..i] && actual == Total(own[..i])
      {
        var ok := CheckShard(shards[i]);
        if !ok {
          assert shards[i] in shards;
          return Err(BadShard);
        }
        assert shards[..i + 1] == shards[..i] + [shards[i]];
        assert own[..i + 1] == own[..i] + [Leaf(shards[i], owner)] && own[..i + 1][..i] == own[..i];
        actual := Plus(actual, ShardMeasures(shards[i]));
        leaves := leaves + [Leaf(shards[i], owner)];
      }
      assert shards[..|shards|] == shards && own[..|own|] == own;
      result := Ok(actual);
    }

    /** expandRollup: its effect is that of the recursion above, failures included. */
    method ExpandRollup(r: Rollup, parent: string) returns (result: Result<Measures, Failure>)
      modifies this
      ensures result == ActualOf(Expand(env, old(Now()), parent, r))
      ensures result.Ok? ==> Now() == Expand(env, old(Now()), parent, r).value.state
      decreases |env.store.Keys - seen|, 0
    {
      if !ValidReference(r) {
        return Err(BadReference);
      }
      if r.sha in seen {
        return Err(ReferencedTwice);
      }
      seen := seen + {r.sha};
      if r.sha !in env.store || env.store[r.sha].encodedBytes <= 0 {
        return Err(NotFetched);
      }
      var sub := env.store[r.sha];
      if sub.kind != "sub-manifest" || sub.schema != 1 {
        return Err(BadIdentity);
      }
      pins := pins + [PinOf(env.manifest, parent, r, sub.encodedBytes)];
      var own := AddShards(sub.shards, Key(env.manifest, r.sha));
      if own.Err? {
        return own;
      }
      Shrinks(env.store.Keys, old(seen), r.sha);
      result := ExpandChildren(sub.children, r.sha, own.value);
      if result.Ok? && result.value != Declared(r) {
        return Err(TotalsDiffer);
      }
    }

    /** The loop over the children of one sub-manifest, which goes on from the totals of its shards. */
    method ExpandChildren(children: seq<Rollup>, parent: string, own: Measures) returns (result: Result<Measures, Failure>)
      modifies this
      ensures result == ActualOf(ExpandAll(env, old(Now()), own, parent, children))
      ensures result.Ok? ==> Now() == ExpandAll(env, old(Now()), own, parent, children).value.state
      decreases |env.store.Keys - seen|, 1
    {
      var actual := own;
      assert children[0..] == children;
      for i := 0 to |children|
        invariant old(seen) <= seen
        invariant ExpandAll(env, Now(), actual, parent, children[i..]) == ExpandAll(env, old(Now()), own, parent, children)
      {
        CardinalityMonotone(env.store.Keys - seen, env.store.Keys - old(seen));
        assert children[i..][0] == children[i] && children[i..][1..] == children[i + 1..];
        var child := ExpandRollup(children[i], parent);
        if child.Err? {
          return child;
        }
        actual := Plus(actual, child.value);
      }
      result := Ok(actual);
    }
  }

  function ActualOf(x: Result<Step, Failure>): Result<Measures, Failure> {
    if x.Ok? then Ok(x.value.actual) else Err(x.error)
  }
}
