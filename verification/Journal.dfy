/**
 The durable ingestion journal: its records, and the slice operations that
 publication applies to the recorded objects.
 */
module Journal {
  import opened Prelude

  /** A content digest.  Content fixes its own size, so the size is part of the identity. */
  datatype Digest = Digest(name: string, size: nat)

  /** One assembled object: the digest and byte count stored in the assembly result. */
  datatype Object = Object(sha: Digest, bytes: int)

  /** One published object, with its 1-based position in the assembly. */
  datatype Entry = Entry(sequence: int, sha: Digest, bytes: int)

  datatype Status = Assembling | Assembled | Publishing | Published

  datatype Record = Record(baseURL: string, entries: seq<Entry>)

  datatype Journal = Journal(plan: string, status: Status,
                             assembly: Option<seq<Object>>, publication: Option<Record>)

  function Wanted(assembled: seq<Object>): set<Digest> {
    set o | o in assembled :: o.sha
  }

  function Recorded(entries: seq<Entry>): set<Digest> {
    set e | e in entries :: e.sha
  }

  /** The entries whose digest the assembly still contains, in order. */
  function Restrict(entries: seq<Entry>, wanted: set<Digest>): seq<Entry> {
    if entries == [] then []
    else if entries[0].sha in wanted then [entries[0]] + Restrict(entries[1..], wanted)
    else Restrict(entries[1..], wanted)
  }

  /** Replaces the first entry with the same digest, or appends. */
  function Upsert(entries: seq<Entry>, entry: Entry): seq<Entry> {
    if entries == [] then [entry]
    else if entries[0].sha == entry.sha then [entry] + entries[1..]
    else [entries[0]] + Upsert(entries[1..], entry)
  }

  ghost predicate DistinctDigests(entries: seq<Entry>) {
    forall i, j :: 0 <= i < j < |entries| ==> entries[i].sha != entries[j].sha
  }

  /** The entry states truthfully which assembled object it stands for. */
  predicate EntryMatches(assembly: seq<Object>, e: Entry) {
    && 1 <= e.sequence <= |assembly|
    && e.sha == assembly[e.sequence - 1].sha
    && e.bytes == e.sha.size
  }

  /** The publication objects in assembly order, one for each assembled object. */
  function Canonical(assembly: seq<Object>): seq<Entry> {
    seq(|assembly|, i requires 0 <= i < |assembly| => Entry(i + 1, assembly[i].sha, assembly[i].bytes))
  }

  ghost predicate Honest(assembly: seq<Object>) {
    forall o :: o in assembly ==> o.bytes == o.sha.size
  }

  ghost predicate DistinctObjects(assembly: seq<Object>) {
    forall i, j :: 0 <= i < j < |assembly| ==> assembly[i].sha != assembly[j].sha
  }

  // ----- Restrict and Upsert -----

  lemma {:induction false} RestrictKeepsWanted(entries: seq<Entry>, wanted: set<Digest>)
    ensures Recorded(Restrict(entries, wanted)) == Recorded(entries) * wanted
    ensures forall e :: e in Restrict(entries, wanted) <==> e in entries && e.sha in wanted
  {
    if entries != [] {
      RestrictKeepsWanted(entries[1..], wanted);
      assert entries == [entries[0]] + entries[1..];
    }
  }

  lemma {:induction false} RestrictOfWanted(entries: seq<Entry>, wanted: set<Digest>)
    requires forall e :: e in entries ==> e.sha in wanted
    ensures Restrict(entries, wanted) == entries
  {
    if entries != [] {
      RestrictOfWanted(entries[1..], wanted);
    }
  }

  lemma {:induction false} UpsertEntries(entries: seq<Entry>, entry: Entry)
    requires DistinctDigests(entries)
    ensures forall e :: e in Upsert(entries, entry) <==> e == entry || (e in entries && e.sha != entry.sha)
  {
    if entries != [] {
      var rest := entries[1..];
      assert entries == [entries[0]] + rest;
      assert forall e :: e in rest ==> e.sha != entries[0].sha;
      if entries[0].sha != entry.sha {
        UpsertEntries(rest, entry);
      }
    }
  }

  lemma DistinctCons(first: Entry, rest: seq<Entry>)
    requires DistinctDigests(rest) && forall e :: e in rest ==> e.sha != first.sha
    ensures DistinctDigests([first] + rest)
  {
  }

  /** After an upsert the digest is bound to the new entry, everything else is as before,
      and a list without repeated digests stays one. */
  lemma {:induction false} UpsertEffect(entries: seq<Entry>, entry: Entry)
    requires DistinctDigests(entries)
    ensures DistinctDigests(Upsert(entries, entry))
    ensures Recorded(Upsert(entries, entry)) == Recorded(entries) + {entry.sha}
    ensures forall e :: e in Upsert(entries, entry) <==> e == entry || (e in entries && e.sha != entry.sha)
  {
    UpsertEntries(entries, entry);
    if entries != [] {
      var rest := entries[1..];
      assert entries == [entries[0]] + rest;
      assert forall e :: e in rest ==> e.sha != entries[0].sha;
      if entries[0].sha != entry.sha {
        UpsertEffect(rest, entry);
        DistinctCons(entries[0], Upsert(rest, entry));
      } else {
        DistinctCons(entry, rest);
      }
    }
  }

  // ----- Sorting by sequence number -----

  ghost predicate Ascending(s: seq<Entry>) {
    forall i, j :: 0 <= i < j < |s| ==> s[i].sequence < s[j].sequence
  }

  ghost predicate DistinctSequences(s: seq<Entry>) {
    forall i, j :: 0 <= i < j < |s| ==> s[i].sequence != s[j].sequence
  }

  function InsertBySequence(e: Entry, s: seq<Entry>): seq<Entry> {
    if s == [] || e.sequence <= s[0].sequence then [e] + s
    else [s[0]] + InsertBySequence(e, s[1..])
  }

  function SortBySequence(s: seq<Entry>): seq<Entry> {
    if s == [] then [] else InsertBySequence(s[0], SortBySequence(s[1..]))
  }

  lemma {:induction false} InsertSorts(e: Entry, s: seq<Entry>)
    requires Ascending(s)
    requires forall x :: x in s ==> x.sequence != e.sequence
    ensures Ascending(InsertBySequence(e, s))
    ensures |InsertBySequence(e, s)| == |s| + 1
    ensures forall x :: x in InsertBySequence(e, s) <==> x == e || x in s
  {
    if s != [] && e.sequence > s[0].sequence {
      assert s == [s[0]] + s[1..];
      InsertSorts(e, s[1..]);
      var t := InsertBySequence(e, s[1..]);
      assert forall x :: x in t ==> s[0].sequence < x.sequence;
    }
  }

  lemma {:induction false} SortSorts(s: seq<Entry>)
    requires DistinctSequences(s)
    ensures Ascending(SortBySequence(s))
    ensures |SortBySequence(s)| == |s|
    ensures forall x :: x in SortBySequence(s) <==> x in s
  {
    if s != [] {
      assert s == [s[0]] + s[1..];
      SortSorts(s[1..]);
      InsertSorts(s[0], SortBySequence(s[1..]));
    }
  }

  /** A complete, duplicate-free, truthful record sorts into exactly the assembly order. */
  lemma CompleteRecordIsCanonical(assembly: seq<Object>, entries: seq<Entry>)
    requires Honest(assembly)
    requires forall e :: e in entries ==> EntryMatches(assembly, e)
    requires DistinctDigests(entries)
    requires |entries| == |assembly|
    ensures SortBySequence(entries) == Canonical(assembly)
  {
    var t := SortBySequence(entries);
    forall i, j | 0 <= i < j < |entries| ensures entries[i].sequence != entries[j].sequence {
      assert EntryMatches(assembly, entries[i]) && EntryMatches(assembly, entries[j]);
    }
    SortSorts(entries);
    forall i | 0 <= i < |t| ensures EntryMatches(assembly, t[i]) {
      assert t[i] in entries;
    }
    AscendingFillsRange(t);
    forall i | 0 <= i < |t| ensures t[i] == Canonical(assembly)[i] {
      assert EntryMatches(assembly, t[i]) && assembly[i] in assembly;
    }
  }

  lemma {:induction false} AscendingFillsRange(t: seq<Entry>)
    requires Ascending(t)
    requires forall i :: 0 <= i < |t| ==> 1 <= t[i].sequence <= |t|
    ensures forall i :: 0 <= i < |t| ==> t[i].sequence == i + 1
  {
    forall i | 0 <= i < |t| ensures t[i].sequence == i + 1 {
      AtLeast(t, i);
      AtMost(t, i);
    }
  }

  lemma {:induction false} AtLeast(t: seq<Entry>, i: nat)
    requires i < |t|
    requires Ascending(t)
    requires forall i :: 0 <= i < |t| ==> 1 <= t[i].sequence
    ensures t[i].sequence >= i + 1
  {
    if i > 0 { AtLeast(t, i - 1); }
  }

  lemma {:induction false} AtMost(t: seq<Entry>, i: nat)
    requires i < |t|
    requires Ascending(t)
    requires forall i :: 0 <= i < |t| ==> t[i].sequence <= |t|
    ensures t[i].sequence <= i + 1
    decreases |t| - i
  {
    if i < |t| - 1 { AtMost(t, i + 1); }
  }

  // ----- The source's loops over the recorded objects -----

  /** Compacts the wanted entries to the front of the slice, as `published[:0]` reuse does. */
  method PublicationObjectsForAssembly(published: array<Entry>, assembled: seq<Object>) returns (kept: nat)
    modifies published
    ensures kept <= published.Length
    ensures published[..kept] == Restrict(old(published[..]), Wanted(assembled))
  {
    var wanted: set<Digest> := {};
    for i := 0 to |assembled|
      invariant wanted == Wanted(assembled[..i])
    {
      wanted := wanted + {assembled[i].sha};
      assert assembled[..i + 1] == assembled[..i] + [assembled[i]];
    }
    assert assembled[..|assembled|] == assembled;
    kept := 0;
    ghost var was := published[..];
    for i := 0 to published.Length
      invariant kept <= i
      invariant published[..kept] == Restrict(was[..i], wanted)
      invariant published[i..] == was[i..]
    {
      var item := published[i];
      assert item == was[i];
      RestrictAppend(was[..i], item, wanted);
      assert was[..i + 1] == was[..i] + [item];
      if item.sha in wanted {
        published[kept] := item;
        kept := kept + 1;
      }
    }
    assert was[..published.Length] == was;
  }

  lemma {:induction false} RestrictAppend(entries: seq<Entry>, e: Entry, wanted: set<Digest>)
    ensures Restrict(entries + [e], wanted) ==
            Restrict(entries, wanted) + (if e.sha in wanted then [e] else [])
  {
    if entries != [] {
      RestrictAppend(entries[1..], e, wanted);
      assert (entries + [e])[1..] == entries[1..] + [e];
    }
  }

  /** The in-place search of `upsertPublicationObject`. */
  method UpsertPublicationObject(objects: seq<Entry>, entry: Entry) returns (r: seq<Entry>)
    ensures r == Upsert(objects, entry)
  {
    for index := 0 to |objects|
      invariant forall k :: 0 <= k < index ==> objects[k].sha != entry.sha
      invariant Upsert(objects, entry) == objects[..index] + Upsert(objects[index..], entry)
    {
      if objects[index].sha == entry.sha {
        return objects[index := entry];
      }
      assert objects[index..][1..] == objects[index + 1..];
    }
    r := objects + [entry];
  }

  // ----- verifyPublished -----

  /** The publication accounts for every assembled object, and the publisher still holds it. */
  ghost predicate PublicationVerifies(base: string, remote: set<Digest>, assembly: seq<Object>, publication: Record) {
    && publication.baseURL == base
    && |publication.entries| == |assembly|
    && forall o :: o in assembly ==> ObjectVerifies(remote, publication.entries, o)
  }

  /** The entry that a map filled in list order ends up holding for the digest. */
  ghost predicate LastEntryFor(entries: seq<Entry>, sha: Digest, i: int) {
    && 0 <= i < |entries| && entries[i].sha == sha
    && forall j :: i < j < |entries| ==> entries[j].sha != sha
  }

  /** The map holds, for each recorded digest, the last entry for it. */
  ghost predicate LastEntries(entries: seq<Entry>, byDigest: map<Digest, Entry>) {
    forall d :: if d in byDigest then exists k :: LastEntryFor(entries, d, k) && byDigest[d] == entries[k]
                else forall k :: !LastEntryFor(entries, d, k)
  }

  lemma LastEntriesAppend(entries: seq<Entry>, byDigest: map<Digest, Entry>, e: Entry)
    requires LastEntries(entries, byDigest)
    ensures LastEntries(entries + [e], byDigest[e.sha := e])
  {
    var more := entries + [e];
    assert LastEntryFor(more, e.sha, |entries|);
    forall d, k | d != e.sha ensures LastEntryFor(more, d, k) <==> LastEntryFor(entries, d, k) {
      if LastEntryFor(more, d, k) {
        assert forall j :: k < j < |entries| ==> entries[j] == more[j];
      }
      if LastEntryFor(entries, d, k) {
        assert forall j :: k < j < |more| ==> more[j] == if j < |entries| then entries[j] else e;
      }
    }
  }

  lemma LastEntryUnique(entries: seq<Entry>, d: Digest, i: int, k: int)
    requires LastEntryFor(entries, d, i) && LastEntryFor(entries, d, k)
    ensures i == k
  {
  }

  method IndexByDigest(entries: seq<Entry>) returns (byDigest: map<Digest, Entry>)
    ensures LastEntries(entries, byDigest)
  {
    byDigest := map[];
    for i := 0 to |entries|
      invariant LastEntries(entries[..i], byDigest)
    {
      assert entries[..i + 1] == entries[..i] + [entries[i]];
      LastEntriesAppend(entries[..i], byDigest, entries[i]);
      byDigest := byDigest[entries[i].sha := entries[i]];
    }
    assert entries[..|entries|] == entries;
  }

  /** What one assembled object must find. */
  ghost predicate ObjectVerifies(remote: set<Digest>, entries: seq<Entry>, o: Object) {
    && o.sha in remote && o.bytes == o.sha.size
    && exists i :: LastEntryFor(entries, o.sha, i) && entries[i].bytes == o.bytes
  }

  lemma ObjectLookup(remote: set<Digest>, entries: seq<Entry>, byDigest: map<Digest, Entry>, o: Object)
    requires LastEntries(entries, byDigest)
    ensures ObjectVerifies(remote, entries, o) <==>
            o.sha in byDigest && byDigest[o.sha].bytes == o.bytes && o.sha in remote && o.bytes == o.sha.size
  {
    if o.sha in byDigest {
      var k :| LastEntryFor(entries, o.sha, k) && byDigest[o.sha] == entries[k];
      forall i | LastEntryFor(entries, o.sha, i) ensures i == k { LastEntryUnique(entries, o.sha, i, k); }
    }
  }

  method VerifyPublished(base: string, remote: set<Digest>, assembly: seq<Object>, publication: Record)
    returns (ok: bool)
    ensures ok <==> PublicationVerifies(base, remote, assembly, publication)
  {
    if publication.baseURL != base || |publication.entries| != |assembly| {
      return false;
    }
    var byDigest := IndexByDigest(publication.entries);
    for i := 0 to |assembly|
      invariant forall o :: o in assembly[..i] ==> ObjectVerifies(remote, publication.entries, o)
    {
      var item := assembly[i];
      assert item in assembly && assembly[..i + 1] == assembly[..i] + [item];
      ObjectLookup(remote, publication.entries, byDigest, item);
      if item.sha !in byDigest || byDigest[item.sha].bytes != item.bytes {
        return false;
      }
      if item.sha !in remote || item.bytes != item.sha.size {
        return false;
      }
    }
    assert assembly[..|assembly|] == assembly;
    ok := true;
  }

  lemma CanonicalVerifies(base: string, remote: set<Digest>, assembly: seq<Object>)
    requires Honest(assembly) && DistinctObjects(assembly)
    requires Wanted(assembly) <= remote
    ensures PublicationVerifies(base, remote, assembly, Record(base, Canonical(assembly)))
  {
    var entries := Canonical(assembly);
    forall o | o in assembly
      ensures o.sha in remote && exists i :: LastEntryFor(entries, o.sha, i) && entries[i].bytes == o.bytes
    {
      assert o.sha in Wanted(assembly);
      var i :| 0 <= i < |assembly| && assembly[i] == o;
      assert LastEntryFor(entries, o.sha, i);
    }
  }
}
