/**
 Exact deduplication: a durable bucket of content identities that lets the
 first occurrence of every (content hash, license) through, whatever batches
 the rows arrive in.
 */
module Dedup {
  import opened Prelude
  import opened Rows
  import opened Hex

  /** What makes two rows the same record. */
  datatype Identity = Identity(hash: string, license: string)

  /** A seeded identity, its hash written in hexadecimal. */
  datatype SeedValue = SeedValue(digest: string, license: string)

  const HASH_BYTES := 32

  function IdentityOf(r: Row): Identity { Identity(r.hash, r.license) }

  function KeyBytes(id: Identity): string { id.hash + [0 as char] + id.license }

  /** Hashes have a fixed length, so no two identities share a key. */
  lemma KeyBytesInjective(a: Identity, b: Identity)
    requires |a.hash| == |b.hash| && KeyBytes(a) == KeyBytes(b)
    ensures a == b
  {
    var x, y := KeyBytes(a), KeyBytes(b);
    assert x[..|a.hash|] == a.hash && y[..|b.hash|] == b.hash;
    assert x[|a.hash| + 1..] == a.license && y[|b.hash| + 1..] == b.license;
  }

  // ----- Which rows are retained -----

  function Identities(rows: seq<Row>): set<Identity> {
    if rows == [] then {} else Identities(rows[..|rows| - 1]) + {IdentityOf(rows[|rows| - 1])}
  }

  /** Reference definition: the first occurrence of an identity that was not seeded. */
  predicate FirstUnseeded(seeds: set<Identity>, rows: seq<Row>, i: nat)
    requires i < |rows|
  {
    && Identity(rows[i].hash, rows[i].license) !in seeds
    && forall j :: 0 <= j < i ==> rows[j].hash != rows[i].hash || rows[j].license != rows[i].license
  }

  function Retained(seeds: set<Identity>, rows: seq<Row>): seq<Row> {
    if rows == [] then []
    else
      var front, last := rows[..|rows| - 1], rows[|rows| - 1];
      if IdentityOf(last) in seeds + Identities(front) then Retained(seeds, front) else Retained(seeds, front) + [last]
  }

  lemma {:induction false} IdentitiesConcat(a: seq<Row>, b: seq<Row>)
    ensures Identities(a + b) == Identities(a) + Identities(b)
  {
    if b == [] {
      assert a + b == a;
    } else {
      var all, front := a + b, b[..|b| - 1];
      assert all[..|all| - 1] == a + front && all[|all| - 1] == b[|b| - 1];
      IdentitiesConcat(a, front);
    }
  }

  lemma {:induction false} IdentitiesMeaning(rows: seq<Row>, id: Identity)
    ensures id in Identities(rows) <==> exists j :: 0 <= j < |rows| && IdentityOf(rows[j]) == id
  {
    if rows != [] {
      var front := rows[..|rows| - 1];
      IdentitiesMeaning(front, id);
      assert forall j :: 0 <= j < |front| ==> front[j] == rows[j];
    }
  }

  /** The test against what was seen finds exactly the first unseeded occurrences. */
  lemma FirstMeansNew(seeds: set<Identity>, rows: seq<Row>, i: nat)
    requires i < |rows|
    ensures FirstUnseeded(seeds, rows, i) <==> IdentityOf(rows[i]) !in seeds + Identities(rows[..i])
    ensures Retained(seeds, rows[..i + 1]) ==
            if FirstUnseeded(seeds, rows, i) then Retained(seeds, rows[..i]) + [rows[i]] else Retained(seeds, rows[..i])
  {
    IdentitiesMeaning(rows[..i], IdentityOf(rows[i]));
    assert forall j :: 0 <= j < i ==> rows[..i][j] == rows[j];
    assert rows[..i + 1][..i] == rows[..i];
  }

  /** Cutting the stream changes nothing: the second part meets the first part's identities as seeds. */
  lemma {:induction false} RetainedConcat(seeds: set<Identity>, a: seq<Row>, b: seq<Row>)
    ensures Retained(seeds, a + b) == Retained(seeds, a) + Retained(seeds + Identities(a), b)
  {
    if b == [] {
      assert a + b == a;
    } else {
      var all, front := a + b, b[..|b| - 1];
      assert all[..|all| - 1] == a + front && all[|all| - 1] == b[|b| - 1];
      RetainedConcat(seeds, a, front);
      IdentitiesConcat(a, front);
    }
  }

  /** Every unseeded identity of the stream is retained once, and nothing else. */
  lemma {:induction false} RetainedIdentities(seeds: set<Identity>, rows: seq<Row>)
    ensures Identities(Retained(seeds, rows)) == Identities(rows) - seeds
    ensures forall i, j :: 0 <= i < j < |Retained(seeds, rows)| ==>
              IdentityOf(Retained(seeds, rows)[i]) != IdentityOf(Retained(seeds, rows)[j])
  {
    if rows != [] {
      var front, last := rows[..|rows| - 1], rows[|rows| - 1];
      var kept := Retained(seeds, front);
      assert rows == front + [last];
      RetainedIdentities(seeds, front);
      assert (kept + [last])[..|kept|] == kept;
      forall i | 0 <= i < |kept| ensures IdentityOf(kept[i]) in Identities(front) {
        IdentitiesMeaning(kept, IdentityOf(kept[i]));
      }
    }
  }

  /** What is retained batch by batch, each batch seeded with all that came before it. */
  function RetainedInBatches(seeds: set<Identity>, batches: seq<seq<Row>>): seq<Row> {
    if batches == [] then []
    else
      var front, last := batches[..|batches| - 1], batches[|batches| - 1];
      RetainedInBatches(seeds, front) + Retained(seeds + Identities(Flatten(front)), last)
  }

  lemma {:induction false} BatchingIrrelevant(seeds: set<Identity>, batches: seq<seq<Row>>)
    ensures RetainedInBatches(seeds, batches) == Retained(seeds, Flatten(batches))
  {
    if batches != [] {
      var front, last := batches[..|batches| - 1], batches[|batches| - 1];
      BatchingIrrelevant(seeds, front);
      RetainedConcat(seeds, Flatten(front), last);
    }
  }

  // ----- The deduplicator -----

  function HexDigit(c: char): Option<int> {
    if '0' <= c <= '9' then Some(c as int - '0' as int)
    else if 'a' <= c <= 'f' then Some(c as int - 'a' as int + 10)
    else if 'A' <= c <= 'F' then Some(c as int - 'A' as int + 10)
    else None
  }

  function HexDecode(s: string): Option<string> {
    if s == [] then Some([])
    else if |s| < 2 || HexDigit(s[0]).None? || HexDigit(s[1]).None? then None
    else
      var rest := HexDecode(s[2..]);
      if rest.None? then None else Some([(HexDigit(s[0]).value * 16 + HexDigit(s[1]).value) as char] + rest.value)
  }

  /** dedupKey's checks, and the identity behind the key. */
  function Seeded(v: SeedValue): Option<Identity> {
    var hash := HexDecode(v.digest);
    if hash.None? || |hash.value| != HASH_BYTES || v.license == "" then None else Some(Identity(hash.value, v.license))
  }

  ghost predicate KeysFor(bucket: set<string>, ids: set<Identity>) {
    && (forall id :: id in ids ==> |id.hash| == HASH_BYTES)
    && bucket == set id | id in ids :: KeyBytes(id)
  }

  lemma KeysForAdd(bucket: set<string>, ids: set<Identity>, id: Identity)
    requires KeysFor(bucket, ids) && |id.hash| == HASH_BYTES
    ensures KeysFor(bucket + {KeyBytes(id)}, ids + {id})
    ensures KeyBytes(id) in bucket <==> id in ids
  {
    if KeyBytes(id) in bucket {
      var other :| other in ids && KeyBytes(other) == KeyBytes(id);
      KeyBytesInjective(id, other);
    }
  }

  lemma FilterStep(seeds: set<Identity>, rows: seq<Row>, i: nat)
    requires i < |rows|
    ensures Retained(seeds, rows[..i + 1]) ==
            Retained(seeds, rows[..i]) + if IdentityOf(rows[i]) in seeds + Identities(rows[..i]) then [] else [rows[i]]
    ensures Identities(rows[..i + 1]) == Identities(rows[..i]) + {IdentityOf(rows[i])}
  {
    assert rows[..i + 1][..i] == rows[..i];
  }

  class Deduplicator {
    var bucket: set<string>
    var input: int
    var kept: int
    var rejected: int
    ghost var seen: set<Identity>

    ghost predicate Valid() reads this { KeysFor(bucket, seen) }

    constructor ()
      ensures Valid() && seen == {} && input == kept == rejected == 0
    {
      bucket, seen, input, kept, rejected := {}, {}, 0, 0, 0;
    }

    /** seedIDs: one transaction, so a bad value leaves the bucket as it was. */
    method SeedIDs(values: seq<SeedValue>) returns (ok: bool)
      requires Valid()
      modifies this`bucket, this`seen
      ensures Valid()
      ensures ok <==> forall v :: v in values ==> Seeded(v).Some?
      ensures if ok then seen == old(seen) + SeededAll(values) else seen == old(seen)
    {
      var staged := bucket;
      ghost var ids := seen;
      for i := 0 to |values|
        invariant KeysFor(staged, ids) && ids == old(seen) + SeededAll(values[..i])
        invariant forall v :: v in values[..i] ==> Seeded(v).Some?
        invariant Valid() && seen == old(seen)
      {
        assert values[i] in values && values[..i + 1] == values[..i] + [values[i]] && values[..i + 1][..i] == values[..i];
        var id := Seeded(values[i]);
        if id.None? {
          return false;
        }
        KeysForAdd(staged, ids, id.value);
        staged, ids := staged + {KeyBytes(id.value)}, ids + {id.value};
      }
      assert values[..|values|] == values;
      bucket, seen := staged, ids;
      ok := true;
    }

    /** The lookup and the insertion for one row. */
    method Admit(id: Identity) returns (first: bool)
      requires Valid() && |id.hash| == HASH_BYTES
      modifies this`bucket, this`seen, this`input, this`kept
      ensures Valid() && seen == old(seen) + {id} && (first <==> id !in old(seen))
      ensures input == old(input) + 1 && kept == old(kept) + if first then 1 else 0
    {
      KeysForAdd(bucket, seen, id);
      input := input + 1;
      var key := KeyBytes(id);
      first := key !in bucket;
      if first {
        bucket := bucket + {key};
        kept := kept + 1;
      }
      seen := seen + {id};
    }

    /** filter: the rows of one batch that nothing before them shares an identity with. */
    method Filter(rows: seq<Row>, rejectedDocs: int) returns (unique: seq<Row>)
      requires Valid() && forall r :: r in rows ==> |r.hash| == HASH_BYTES
      modifies this
      ensures Valid() && seen == old(seen) + Identities(rows)
      ensures unique == Retained(old(seen), rows)
      ensures input == old(input) + |rows| && kept == old(kept) + |unique| && rejected == old(rejected) + rejectedDocs
    {
      rejected := rejected + rejectedDocs;
      unique := [];
      for i := 0 to |rows|
        invariant Valid() && seen == old(seen) + Identities(rows[..i])
        invariant unique == Retained(old(seen), rows[..i])
        invariant input == old(input) + i && kept == old(kept) + |unique| && rejected == old(rejected) + rejectedDocs
      {
        FilterStep(old(seen), rows, i);
        var first := Admit(IdentityOf(rows[i]));
        if first {
          unique := unique + [rows[i]];
        }
      }
      assert rows[..|rows|] == rows;
    }
  }

  ghost function SeededAll(values: seq<SeedValue>): set<Identity> {
    if values == [] then {}
    else
      var last := Seeded(values[|values| - 1]);
      SeededAll(values[..|values| - 1]) + if last.Some? then {last.value} else {}
  }

  // ----- What a seed bars -----

  function Lower(c: char): char { if 'A' <= c <= 'F' then (c as int + 32) as char else c }

  function LowerCase(s: string): string { seq(|s|, i requires 0 <= i < |s| => Lower(s[i])) }

  lemma TwoRead(x: char, y: char, text: string, h: int, l: int, rest: string)
    requires HexDigit(x) == Some(h) && HexDigit(y) == Some(l) && 0 <= h < 16 && 0 <= l < 16 && HexDecode(text) == Some(rest)
    ensures HexDecode([x, y] + text) == Some([(h * 16 + l) as char] + rest)
  {
    hide HexDigit;
    var s := [x, y] + text;
    assert s[2..] == text && s[0] == x && s[1] == y;
  }

  lemma {:induction false} WrittenDecodes(b: string)
    requires Bytes(b)
    ensures HexDecode(Write(b)) == Some(b)
  {
    if b != "" {
      hide HexDigit, Digit, Bytes, Write, HexDecode;
      WriteOne(b);
      WrittenDecodes(b[1..]);
      var n := b[0] as int;
      DigitRead(n / 16);
      DigitRead(n % 16);
      TwoRead(Digit(n / 16), Digit(n % 16), Write(b[1..]), n / 16, n % 16, b[1..]);
      assert n / 16 * 16 + n % 16 == n;
      assert b == [b[0]] + b[1..];
    } else {
      NothingWritten();
    }
  }

  lemma DigitRead(n: int)
    requires 0 <= n < 16
    ensures HexDigit(Digit(n)) == Some(n)
  {
  }

  /** Only the digits of the bytes, in lower or upper case, decode to them. */
  lemma {:induction false} DecodesOnlyWritten(s: string)
    requires HexDecode(s).Some?
    ensures Bytes(HexDecode(s).value) && Write(HexDecode(s).value) == LowerCase(s)
  {
    if s != "" {
      hide HexDigit, LowerCase, Write, Bytes;
      DecodesOnlyWritten(s[2..]);
      var h, l := HexDigit(s[0]).value, HexDigit(s[1]).value;
      DigitWritten(s[0]);
      DigitWritten(s[1]);
      OneByteWritten(s, HexDecode(s[2..]).value, h, l);
      assert HexDecode(s) == Some([(h * 16 + l) as char] + HexDecode(s[2..]).value);
    } else {
      NothingWritten();
    }
  }

  lemma NothingWritten()
    ensures Bytes("") && Write("") == LowerCase("")
  {
  }

  lemma OneByteWritten(s: string, rest: string, h: int, l: int)
    requires |s| >= 2 && Bytes(rest) && Write(rest) == LowerCase(s[2..])
    requires HexDigit(s[0]) == Some(h) && HexDigit(s[1]) == Some(l) && 0 <= h < 16 && 0 <= l < 16
    requires Digit(h) == Lower(s[0]) && Digit(l) == Lower(s[1])
    ensures Bytes([(h * 16 + l) as char] + rest) && Write([(h * 16 + l) as char] + rest) == LowerCase(s)
  {
    hide HexDigit, Digit, Lower, LowerCase, Write;
    var b := [(h * 16 + l) as char] + rest;
    assert b[1..] == rest && (h * 16 + l) / 16 == h && (h * 16 + l) % 16 == l;
    LowerTwo(s);
    WriteOne(b);
  }

  lemma LowerTwo(s: string)
    requires |s| >= 2
    ensures LowerCase(s) == [Lower(s[0]), Lower(s[1])] + LowerCase(s[2..])
  {
    hide Lower;
  }

  lemma WriteOne(b: string)
    requires Bytes(b) && b != ""
    ensures b[0] < 256 as char && Bytes(b[1..])
    ensures Write(b) == [Digit(b[0] as int / 16), Digit(b[0] as int % 16)] + Write(b[1..])
  {
    BytesTail(b);
  }

  lemma DigitWritten(c: char)
    requires HexDigit(c).Some?
    ensures 0 <= HexDigit(c).value < 16
    ensures Digit(HexDigit(c).value) == Lower(c)
  {
  }

  /** A seed is valid exactly when it names a license and its digest is the hexadecimal writing, in either case, of 32
      bytes; it then stands for the rows with that license and those bytes as their digest. */
  lemma SeedMeaning(v: SeedValue, hash: string, license: string)
    requires Bytes(hash)
    ensures Seeded(v) == Some(Identity(hash, license)) <==>
            v.license == license && license != "" && |hash| == 32 && LowerCase(v.digest) == Write(hash)
  {
    if HexDecode(v.digest).Some? { DecodesOnlyWritten(v.digest); }
    if LowerCase(v.digest) == Write(hash) {
      LowerDecodes(v.digest);
      WrittenDecodes(hash);
    }
    if HexDecode(v.digest).Some? && LowerCase(v.digest) == Write(hash) {
      WrittenDecodes(HexDecode(v.digest).value);
    }
  }

  lemma {:induction false} LowerDecodes(s: string)
    ensures HexDecode(s) == HexDecode(LowerCase(s))
  {
    if |s| >= 2 {
      hide HexDigit, Lower, LowerCase;
      LowerTwo(s);
      LowerRead(s[0]);
      LowerRead(s[1]);
      assert LowerCase(s)[2..] == LowerCase(s[2..]);
      LowerDecodes(s[2..]);
    }
  }

  lemma LowerRead(c: char)
    ensures HexDigit(Lower(c)) == HexDigit(c)
  {
  }
}
