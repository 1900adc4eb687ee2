/**
 Sub-manifest pins and their validation: identities, positive totals, and a
 parent graph that must be one rooted tree for each manifest.
 */
module Pins {
  import opened Prelude
  import opened Measures

  datatype Pin = Pin(manifest: string, parent: string, url: string, sha: string,
                     count: int, docs: int, tokens: int, bytes: int, encodedBytes: int, modalities: Modalities)

  /** The pair behind the source's key "manifest NUL digest"; see KeyTextInjective. */
  datatype Key = Key(manifest: string, sha: string)

  predicate LowerHex(c: char) { '0' <= c <= '9' || 'a' <= c <= 'f' }

  predicate ValidSha(s: string) { |s| == 64 && forall c :: c in s ==> LowerHex(c) }

  /** The pattern ^[a-z][a-z0-9-]*$ */
  predicate ModalityName(s: string) {
    s != "" && 'a' <= s[0] <= 'z' && forall c :: c in s ==> 'a' <= c <= 'z' || '0' <= c <= '9' || c == '-'
  }

  predicate ValidModalities(m: Modalities) {
    forall k :: k in m ==>
      && ModalityName(k)
      && m[k].samples >= 0 && m[k].items >= 0 && m[k].tokens >= 0 && m[k].durationMS >= 0 && m[k].contentBytes >= 0
      && m[k] != NoModality
  }

  function KeyText(k: Key): string { k.manifest + [0 as char] + k.sha }

  /** Valid digests have a fixed length, so the textual key determines both parts. */
  lemma KeyTextInjective(a: Key, b: Key)
    requires |a.sha| == |b.sha| && KeyText(a) == KeyText(b)
    ensures a == b
  {
    var x, y := KeyText(a), KeyText(b);
    assert |a.manifest| == |b.manifest|;
    assert x[..|a.manifest|] == a.manifest && y[..|b.manifest|] == b.manifest;
    assert x[|a.manifest| + 1..] == a.sha && y[|b.manifest| + 1..] == b.sha;
  }

  function KeyOf(p: Pin): Key { Key(p.manifest, p.sha) }

  function ParentKey(p: Pin): Key { Key(p.manifest, p.parent) }

  ghost predicate ValidFields(manifests: set<string>, p: Pin) {
    && p.manifest in manifests && p.url != "" && ValidSha(p.sha)
    && (p.parent == "" || ValidSha(p.parent))
    && p.count > 0 && p.docs > 0 && p.tokens >= 0 && p.bytes > 0 && p.encodedBytes > 0
    && ValidModalities(p.modalities)
    && (p.modalities == map[] || TokenSum(p.modalities) == p.tokens)
  }

  // ----- The parent graph -----

  function Keys(pins: seq<Pin>): set<Key> { set p | p in pins :: KeyOf(p) }

  ghost predicate DistinctKeys(pins: seq<Pin>) {
    forall i, j :: 0 <= i < j < |pins| ==> KeyOf(pins[i]) != KeyOf(pins[j])
  }

  function Parents(pins: seq<Pin>): map<Key, Key> {
    if pins == [] then map[]
    else
      var front, last := Parents(pins[..|pins| - 1]), pins[|pins| - 1];
      if last.parent == "" then front else front[KeyOf(last) := ParentKey(last)]
  }

  /** n steps up; None once the chain has ended. */
  function Up(parents: map<Key, Key>, k: Key, n: nat): Option<Key> {
    if n == 0 then Some(k)
    else
      var below := Up(parents, k, n - 1);
      if below.Some? && below.value in parents then Some(parents[below.value]) else None
  }

  ghost predicate Reaches(parents: map<Key, Key>, k: Key, top: Key) {
    exists n: nat :: Up(parents, k, n) == Some(top)
  }

  ghost predicate Ends(parents: map<Key, Key>, k: Key) {
    exists n: nat :: Up(parents, k, n) == None
  }

  ghost predicate IsRoot(pins: seq<Pin>, i: int) {
    0 <= i < |pins| && pins[i].parent == ""
  }

  /** All parents are pinned, and every pin reaches the one root of its manifest. */
  ghost predicate RootedTrees(pins: seq<Pin>) {
    && (forall p :: p in pins && p.parent != "" ==> ParentKey(p) in Keys(pins))
    && SingleRoots(pins)
    && (forall p :: p in pins ==> HasRoot(pins, p))
  }

  ghost predicate SingleRoots(pins: seq<Pin>) {
    forall i, j :: IsRoot(pins, i) && IsRoot(pins, j) && pins[i].manifest == pins[j].manifest ==> i == j
  }

  ghost predicate HasRoot(pins: seq<Pin>, p: Pin) {
    exists r :: IsRoot(pins, r) && pins[r].manifest == p.manifest && Reaches(Parents(pins), KeyOf(p), KeyOf(pins[r]))
  }

  ghost predicate PinsValid(manifests: set<string>, pins: seq<Pin>) {
    && (forall p :: p in pins ==> ValidFields(manifests, p))
    && DistinctKeys(pins)
    && RootedTrees(pins)
  }

  // ----- Facts about chains -----

  lemma ParentsAppend(pins: seq<Pin>, p: Pin)
    ensures Parents(pins + [p]) == if p.parent == "" then Parents(pins) else Parents(pins)[KeyOf(p) := ParentKey(p)]
  {
    assert (pins + [p])[..|pins|] == pins;
  }

  lemma KeysAppend(pins: seq<Pin>, p: Pin)
    ensures Keys(pins + [p]) == Keys(pins) + {KeyOf(p)}
  {
    assert forall q :: q in pins + [p] <==> q in pins || q == p;
  }

  lemma LastKeyIsNew(front: seq<Pin>, last: Pin)
    requires DistinctKeys(front + [last])
    ensures KeyOf(last) !in Keys(front)
  {
    var pins := front + [last];
    forall p | p in front ensures KeyOf(p) != KeyOf(last) {
      var i :| 0 <= i < |front| && front[i] == p;
      assert pins[i] == p && pins[|front|] == last;
    }
  }

  lemma {:induction false} ParentsMeaning(pins: seq<Pin>)
    requires DistinctKeys(pins)
    ensures forall p :: p in pins ==> (KeyOf(p) in Parents(pins) <==> p.parent != "")
    ensures forall p :: p in pins && p.parent != "" ==> Parents(pins)[KeyOf(p)] == ParentKey(p)
    ensures Parents(pins).Keys <= Keys(pins)
  {
    if pins != [] {
      var front, last := pins[..|pins| - 1], pins[|pins| - 1];
      assert pins == front + [last];
      ParentsMeaning(front);
      KeysAppend(front, last);
      LastKeyIsNew(front, last);
      ParentsAppend(front, last);
      assert forall p :: p in pins <==> p in front || p == last;
    }
  }

  lemma {:induction false} UpStopped(parents: map<Key, Key>, k: Key, m: nat, n: nat)
    requires m <= n && Up(parents, k, m) == None
    ensures Up(parents, k, n) == None
  {
    if m < n { UpStopped(parents, k, m, n - 1); }
  }

  /** A chain that comes back to a key never ends. */
  lemma {:induction false} CycleNeverEnds(parents: map<Key, Key>, k: Key, i: nat, j: nat, n: nat)
    requires i < j && Up(parents, k, i).Some? && Up(parents, k, j) == Up(parents, k, i)
    ensures Up(parents, k, n).Some?
    decreases n
  {
    if n <= j {
      if Up(parents, k, n) == None { UpStopped(parents, k, n, j); }
    } else {
      CycleNeverEnds(parents, k, i, j, n - (j - i));
      SamePathUp(parents, k, i, j, n - j);
    }
  }

  lemma {:induction false} SamePathUp(parents: map<Key, Key>, k: Key, i: nat, j: nat, d: nat)
    requires Up(parents, k, j) == Up(parents, k, i)
    ensures Up(parents, k, j + d) == Up(parents, k, i + d)
  {
    if d > 0 { SamePathUp(parents, k, i, j, d - 1); }
  }

  /** With all parents pinned, a chain that ends does so at a root of the same manifest. */
  lemma {:induction false} ChainEndsAtRoot(pins: seq<Pin>, p: Pin, n: nat)
    requires DistinctKeys(pins) && p in pins
    requires forall q :: q in pins && q.parent != "" ==> ParentKey(q) in Keys(pins)
    requires Up(Parents(pins), KeyOf(p), n) == None
    ensures HasRoot(pins, p)
  {
    ParentsMeaning(pins);
    if n > 1 && Up(Parents(pins), KeyOf(p), n - 1) == None {
      ChainEndsAtRoot(pins, p, n - 1);
    } else {
      ChainStaysPinned(pins, p, n - 1);
      var top := Up(Parents(pins), KeyOf(p), n - 1).value;
      var q :| q in pins && KeyOf(q) == top;
      var r :| 0 <= r < |pins| && pins[r] == q;
      assert IsRoot(pins, r);
      assert Reaches(Parents(pins), KeyOf(p), KeyOf(pins[r]));
    }
  }

  lemma {:induction false} ChainStaysPinned(pins: seq<Pin>, p: Pin, n: nat)
    requires DistinctKeys(pins) && p in pins
    requires forall q :: q in pins && q.parent != "" ==> ParentKey(q) in Keys(pins)
    ensures Up(Parents(pins), KeyOf(p), n).Some? ==>
              Up(Parents(pins), KeyOf(p), n).value in Keys(pins) && Up(Parents(pins), KeyOf(p), n).value.manifest == p.manifest
  {
    ParentsMeaning(pins);
    if n > 0 {
      ChainStaysPinned(pins, p, n - 1);
      var below := Up(Parents(pins), KeyOf(p), n - 1);
      if below.Some? && below.value in Parents(pins) {
        var q :| q in pins && KeyOf(q) == below.value;
        assert q.parent != "";
      }
    }
  }

  /** Reaching a root means that the chain ends. */
  lemma RootEndsChain(pins: seq<Pin>, p: Pin)
    requires DistinctKeys(pins) && HasRoot(pins, p)
    ensures Ends(Parents(pins), KeyOf(p))
  {
    ParentsMeaning(pins);
    var r :| IsRoot(pins, r) && pins[r].manifest == p.manifest && Reaches(Parents(pins), KeyOf(p), KeyOf(pins[r]));
    var n: nat :| Up(Parents(pins), KeyOf(p), n) == Some(KeyOf(pins[r]));
    var parents, root := Parents(pins), pins[r];
    assert root in pins && KeyOf(root) !in parents;
    assert Up(parents, KeyOf(p), n + 1) == None;
  }

  // ----- The validator -----

  /** The inner loop of the second pass: follow the parents until none is left or one repeats. */
  method WalkParents(parents: map<Key, Key>, key: Key) returns (ok: bool)
    ensures ok <==> Ends(parents, key)
  {
    var chain: set<Key> := {};
    var current := Some(key);
    ghost var path: seq<Key> := [];
    ghost var universe := parents.Keys + parents.Values + {key};
    while current.Some?
      invariant current == Up(parents, key, |path|)
      invariant current.Some? ==> current.value in universe
      invariant chain == ToSet(path) <= universe
      invariant forall i :: 0 <= i < |path| ==> Up(parents, key, i) == Some(path[i])
      decreases universe - chain, current.Some?
    {
      if current.value in chain {
        RepeatNeverEnds(parents, key, path, current.value);
        return false;
      }
      assert ToSet(path + [current.value]) == chain + {current.value};
      chain, path := chain + {current.value}, path + [current.value];
      current := if current.value in parents then Some(parents[current.value]) else None;
    }
    assert Up(parents, key, |path|) == None;
    ok := true;
  }

  lemma RepeatNeverEnds(parents: map<Key, Key>, key: Key, path: seq<Key>, again: Key)
    requires forall i :: 0 <= i < |path| ==> Up(parents, key, i) == Some(path[i])
    requires again in path && Up(parents, key, |path|) == Some(again)
    ensures !Ends(parents, key)
  {
    var i :| 0 <= i < |path| && path[i] == again;
    forall m: nat ensures Up(parents, key, m).Some? {
      CycleNeverEnds(parents, key, i, |path|, m);
    }
  }

  /** The number of pins of the manifest without a parent. */
  function RootCount(pins: seq<Pin>, manifest: string): nat {
    if pins == [] then 0
    else
      var last := pins[|pins| - 1];
      RootCount(pins[..|pins| - 1], manifest) + if last.parent == "" && last.manifest == manifest then 1 else 0
  }

  lemma {:induction false} RootCountMeaning(pins: seq<Pin>, manifest: string)
    ensures RootCount(pins, manifest) == 0 ==> forall i :: IsRoot(pins, i) ==> pins[i].manifest != manifest
    ensures RootCount(pins, manifest) == 1 ==>
              forall i, j :: IsRoot(pins, i) && IsRoot(pins, j) && pins[i].manifest == manifest && pins[j].manifest == manifest ==> i == j
    ensures RootCount(pins, manifest) >= 2 ==>
              exists i, j :: i != j && IsRoot(pins, i) && IsRoot(pins, j) && pins[i].manifest == manifest && pins[j].manifest == manifest
    ensures RootCount(pins, manifest) >= 1 ==> exists i :: IsRoot(pins, i) && pins[i].manifest == manifest
  {
    if pins != [] {
      var front := pins[..|pins| - 1];
      RootCountMeaning(front, manifest);
      forall i | IsRoot(front, i) ensures IsRoot(pins, i) && pins[i] == front[i] {}
      forall i | IsRoot(pins, i) && i < |front| ensures IsRoot(front, i) && pins[i] == front[i] {}
      if RootCount(front, manifest) >= 1 {
        var i :| IsRoot(front, i) && front[i].manifest == manifest;
        assert IsRoot(pins, i);
      }
    }
  }

  /** What the first pass has checked and recorded. */
  ghost predicate Collected(manifests: set<string>, pins: seq<Pin>, seen: set<Key>, parents: map<Key, Key>,
                            roots: map<string, nat>) {
    && (forall p :: p in pins ==> ValidFields(manifests, p))
    && DistinctKeys(pins)
    && seen == Keys(pins) && parents == Parents(pins)
    && (forall m :: m in roots ==> roots[m] > 0)
    && forall m :: MeasuredRoots(roots, m) == RootCount(pins, m)
  }

  function MeasuredRoots(roots: map<string, nat>, m: string): nat { if m in roots then roots[m] else 0 }

  method CheckPin(pin: Pin, manifests: set<string>, seen: set<Key>) returns (ok: bool)
    ensures ok <==> ValidFields(manifests, pin) && KeyOf(pin) !in seen
  {
    if pin.manifest !in manifests || KeyOf(pin) in seen || pin.url == "" || !ValidSha(pin.sha) {
      return false;
    }
    if pin.parent != "" && !ValidSha(pin.parent) {
      return false;
    }
    if pin.count <= 0 || pin.docs <= 0 || pin.tokens < 0 || pin.bytes <= 0 || pin.encodedBytes <= 0 {
      return false;
    }
    if !ValidModalities(pin.modalities) {
      return false;
    }
    var tokens := ModalityTokens(pin.modalities);
    ok := pin.modalities == map[] || tokens == pin.tokens;
  }

  lemma RootCountAppend(pins: seq<Pin>, p: Pin, m: string)
    ensures RootCount(pins + [p], m) == RootCount(pins, m) + if p.parent == "" && p.manifest == m then 1 else 0
  {
    assert (pins + [p])[..|pins|] == pins;
  }

  lemma CollectOne(manifests: set<string>, pins: seq<Pin>, pin: Pin, seen: set<Key>, parents: map<Key, Key>,
                   roots: map<string, nat>)
    requires Collected(manifests, pins, seen, parents, roots)
    requires ValidFields(manifests, pin) && KeyOf(pin) !in seen
    ensures Collected(manifests, pins + [pin], seen + {KeyOf(pin)},
                      if pin.parent == "" then parents else parents[KeyOf(pin) := ParentKey(pin)],
                      if pin.parent == "" then roots[pin.manifest := MeasuredRoots(roots, pin.manifest) + 1] else roots)
  {
    ParentsAppend(pins, pin);
    KeysAppend(pins, pin);
    forall m { RootCountAppend(pins, pin, m); }
    forall j | 0 <= j < |pins| ensures KeyOf(pins[j]) != KeyOf(pin) {
      assert pins[j] in pins;
    }
  }

  /** First pass: fields, duplicates, parents and roots. */
  method CollectPins(pins: seq<Pin>, manifests: set<string>)
    returns (ok: bool, seen: set<Key>, parents: map<Key, Key>, roots: map<string, nat>)
    ensures ok <==> (forall p :: p in pins ==> ValidFields(manifests, p)) && DistinctKeys(pins)
    ensures ok ==> Collected(manifests, pins, seen, parents, roots)
  {
    seen, parents, roots := {}, map[], map[];
    for i := 0 to |pins|
      invariant Collected(manifests, pins[..i], seen, parents, roots)
    {
      var pin := pins[i];
      assert pins[..i + 1] == pins[..i] + [pin];
      ok := CheckPin(pin, manifests, seen);
      if !ok {
        if KeyOf(pin) in seen {
          var q :| q in pins[..i] && KeyOf(q) == KeyOf(pin);
          assert exists j :: 0 <= j < i && pins[j] == q;
        }
        assert pin in pins;
        return;
      }
      CollectOne(manifests, pins[..i], pin, seen, parents, roots);
      seen := seen + {KeyOf(pin)};
      if pin.parent == "" {
        roots := roots[pin.manifest := MeasuredRoots(roots, pin.manifest) + 1];
      } else {
        parents := parents[KeyOf(pin) := ParentKey(pin)];
      }
    }
    assert pins[..|pins|] == pins;
    ok := true;
  }

  ghost predicate ChainOk(pins: seq<Pin>, p: Pin) {
    (p.parent != "" ==> ParentKey(p) in Keys(pins)) && Ends(Parents(pins), KeyOf(p))
  }

  /** Second pass: pinned parents, no cycle. */
  method CheckChains(pins: seq<Pin>, seen: set<Key>, parents: map<Key, Key>) returns (ok: bool)
    requires DistinctKeys(pins) && seen == Keys(pins) && parents == Parents(pins)
    ensures ok <==> forall p :: p in pins ==> ChainOk(pins, p)
  {
    ParentsMeaning(pins);
    for i := 0 to |pins|
      invariant forall p :: p in pins[..i] ==> ChainOk(pins, p)
    {
      assert pins[i] in pins && pins[..i + 1] == pins[..i] + [pins[i]];
      if KeyOf(pins[i]) in parents && parents[KeyOf(pins[i])] !in seen {
        return false;
      }
      ok := WalkParents(parents, KeyOf(pins[i]));
      if !ok {
        return;
      }
      assert ChainOk(pins, pins[i]);
    }
    assert pins[..|pins|] == pins;
    ok := true;
  }

  ghost predicate AtMostOneRoot(pins: seq<Pin>, m: string) { RootCount(pins, m) <= 1 }

  /** Third pass: at most one root for each manifest; it never sees a manifest without one. */
  method CheckRoots(pins: seq<Pin>, roots: map<string, nat>) returns (ok: bool)
    requires forall m :: MeasuredRoots(roots, m) == RootCount(pins, m)
    requires forall m :: m in roots ==> roots[m] > 0
    ensures ok <==> forall m :: AtMostOneRoot(pins, m)
  {
    var rest := roots.Keys;
    while rest != {}
      invariant rest <= roots.Keys
      invariant forall m :: m in roots && m !in rest ==> roots[m] == 1
    {
      var m :| m in rest;
      if roots[m] != 1 {
        assert roots[m] == MeasuredRoots(roots, m) == RootCount(pins, m) && !AtMostOneRoot(pins, m);
        return false;
      }
      rest := rest - {m};
    }
    forall m ensures AtMostOneRoot(pins, m) {
      assert MeasuredRoots(roots, m) == RootCount(pins, m);
    }
    ok := true;
  }

  /** The source's three passes.  The result is the set of pinned keys, or None for an error. */
  method ValidateSubManifestPins(pins: seq<Pin>, manifests: set<string>) returns (r: Option<set<Key>>)
    ensures r.Some? <==> PinsValid(manifests, pins)
    ensures r.Some? ==> r.value == Keys(pins)
  {
    var ok, seen, parents, roots := CollectPins(pins, manifests);
    if !ok {
      return None;
    }
    ok := CheckChains(pins, seen, parents);
    if !ok {
      if RootedTrees(pins) { RootedMeansChains(pins); }
      return None;
    }
    AllChainsRooted(pins);
    ok := CheckRoots(pins, roots);
    if ok {
      CountsSingleRoots(pins);
    } else if SingleRoots(pins) {
      SingleRootsCount(pins);
    }
    r := if ok then Some(seen) else None;
  }

  lemma RootedMeansChains(pins: seq<Pin>)
    requires DistinctKeys(pins) && RootedTrees(pins)
    ensures forall p :: p in pins ==> ChainOk(pins, p)
  {
    forall p | p in pins ensures ChainOk(pins, p) {
      RootEndsChain(pins, p);
    }
  }

  ghost predicate OneRoot(pins: seq<Pin>, m: string) {
    forall i, j :: IsRoot(pins, i) && IsRoot(pins, j) && pins[i].manifest == m && pins[j].manifest == m ==> i == j
  }

  lemma SingleRootsCount(pins: seq<Pin>)
    requires SingleRoots(pins)
    ensures forall m :: AtMostOneRoot(pins, m)
  {
    forall m ensures AtMostOneRoot(pins, m) {
      RootCountMeaning(pins, m);
      assert OneRoot(pins, m);
    }
  }

  lemma CountsSingleRoots(pins: seq<Pin>)
    requires forall m :: AtMostOneRoot(pins, m)
    ensures SingleRoots(pins)
  {
    forall i, j | IsRoot(pins, i) && IsRoot(pins, j) && pins[i].manifest == pins[j].manifest ensures i == j {
      assert AtMostOneRoot(pins, pins[i].manifest);
      RootCountMeaning(pins, pins[i].manifest);
    }
  }

  lemma AllChainsRooted(pins: seq<Pin>)
    requires DistinctKeys(pins)
    requires forall p :: p in pins ==> ChainOk(pins, p)
    ensures forall p :: p in pins ==> HasRoot(pins, p)
  {
    forall p | p in pins ensures HasRoot(pins, p) {
      assert ChainOk(pins, p);
      var n: nat :| Up(Parents(pins), KeyOf(p), n) == None;
      ChainEndsAtRoot(pins, p, n);
    }
  }

  /** A manifest with pins but without a root is never accepted, although the last pass does not
      look at it. */
  lemma RootlessIsRejected(manifests: set<string>, pins: seq<Pin>, p: Pin)
    requires p in pins && forall i :: IsRoot(pins, i) ==> pins[i].manifest != p.manifest
    ensures !PinsValid(manifests, pins)
  {
    assert !HasRoot(pins, p);
  }
}
