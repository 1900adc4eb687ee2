/**
 Packing retained rows into shards: one active shard at a time, row groups cut
 at a logical limit, shards ended at a row-group boundary once their
 compressed size, which the encoder alone knows, has reached the target.
 */
module Packing {
  import opened Prelude
  import opened Measures
  import opened IndexTypes
  import opened Rows
  import opened RowGroups
  import opened ShardCounters
  import opened SortedStrings

  /** A shard being written.  `written` holds the size the encoder reported after each row group. */
  datatype Active = Active(groups: seq<seq<Row>>, open: seq<Row>, written: seq<int>, rowGroupLogical: int, counters: Counters)

  /** A finished shard: its row groups, its encoded size, and what was counted while it was written. */
  datatype ObjectResult = ObjectResult(groups: seq<seq<Row>>, written: seq<int>, bytes: nat, counters: Counters,
                                       licenses: seq<string>, license: string, sources: seq<string>)

  function RowsOf(a: Active): seq<Row> { Flatten(a.groups) + a.open }

  ghost predicate Consistent(env: Env, target: int, a: Active) {
    && a.rowGroupLogical == Bytes(a.open)
    && a.counters == CountersOf(env, RowsOf(a))
    && |a.written| == |a.groups| && forall i :: 0 <= i < |a.written| ==> a.written[i] < target
  }

  /** The counters of a finished shard are those of its rows, and its names are listed in order. */
  ghost predicate Complete(env: Env, maximum: int, o: ObjectResult) {
    && o.groups != [] && o.bytes <= maximum
    && o.counters == CountersOf(env, Flatten(o.groups))
    && Sorted(o.licenses) && ToSet(o.licenses) == o.counters.licenses
    && Sorted(o.sources) && ToSet(o.sources) == o.counters.sources
    && (o.license != "" ==> o.licenses == [o.license]) && (|o.licenses| == 1 ==> o.license == o.licenses[0])
  }

  /** Ended by its size: at its last row group, and at none before it, the target was reached. */
  ghost predicate EndedBySize(target: int, o: ObjectResult) {
    && |o.written| == |o.groups| > 0
    && o.written[|o.written| - 1] >= target
    && forall i :: 0 <= i < |o.written| - 1 ==> o.written[i] < target
  }

  ghost predicate AllEnded(env: Env, target: int, maximum: int, objects: seq<ObjectResult>) {
    forall o :: o in objects ==> Complete(env, maximum, o) && EndedBySize(target, o)
  }

  lemma AllEndedAppend(env: Env, target: int, maximum: int, objects: seq<ObjectResult>, o: ObjectResult)
    requires AllEnded(env, target, maximum, objects) && Complete(env, maximum, o) && EndedBySize(target, o)
    ensures AllEnded(env, target, maximum, objects + [o])
  {
  }

  function GroupsIn(objects: seq<ObjectResult>): seq<seq<Row>> {
    if objects == [] then [] else GroupsIn(objects[..|objects| - 1]) + objects[|objects| - 1].groups
  }

  lemma GroupsInAppend(objects: seq<ObjectResult>, o: ObjectResult)
    ensures GroupsIn(objects + [o]) == GroupsIn(objects) + o.groups
  {
    assert (objects + [o])[..|objects|] == objects;
  }

  const NewActive := Active([], [], [], 0, NoCounters)

  class Assembler {
    const env: Env
    const limit: int
    const target: int
    const maximum: int
    var active: Option<Active>
    var objects: seq<ObjectResult>
    /** Whether an encoded size or the sink has ended the run. */
    ghost var refused: bool

    constructor (env: Env, limit: int, target: int, maximum: int)
      ensures this.env == env && this.limit == limit && this.target == target && this.maximum == maximum
      ensures active == None && objects == [] && !refused
    {
      this.env, this.limit, this.target, this.maximum := env, limit, target, maximum;
      active, objects, refused := None, [], false;
    }

    /** All row groups so far, whichever shard they are in, and the open one. */
    ghost function Now(): Grouping
      reads this
    {
      if active == None then Grouping(GroupsIn(objects), [])
      else Grouping(GroupsIn(objects) + active.value.groups, active.value.open)
    }

    ghost predicate Valid()
      reads this
    {
      && (active.Some? ==> Consistent(env, target, active.value))
      && AllEnded(env, target, maximum, objects)
    }

    /** An active shard has rows, except while its first one is being added. */
    ghost predicate NotEmpty()
      reads this
    {
      active.Some? ==> active.value.groups != [] || active.value.open != []
    }

    /** Everything so far is the cut of `rows`, and the check has passed them all. */
    ghost predicate Holds(rows: seq<Row>)
      reads this
    {
      Valid() && NotEmpty() && !refused && Now() == GroupRows(limit, rows) && AllAcceptable(env, rows)
    }

    /** writerFor: the active shard, created when there is none. */
    method WriterFor()
      requires Valid()
      modifies this`active
      ensures Valid() && active.Some? && Now() == old(Now())
      ensures old(active.Some?) ==> active == old(active)
      ensures old(active == None) ==> active == Some(NewActive)
    {
      if active == None {
        assert RowsOf(NewActive) == [];
        assert GroupsIn(objects) + [] == GroupsIn(objects);
        active := Some(NewActive);
      }
    }

    /** finishActive: close the shard, name its licenses and sources, and hand it to the sink, which may refuse it. */
    method FinishActive() returns (ok: bool, ghost o: ObjectResult, ghost sinkRefused: bool)
      requires active.Some? && AllGroups(Grouping(active.value.groups, active.value.open)) != []
      requires active.value.counters == CountersOf(env, RowsOf(active.value))
      modifies this`active, this`objects, this`refused
      ensures active == None && (ok <==> !refused)
      ensures refused <==> o.bytes > maximum || sinkRefused
      ensures ok ==> objects == old(objects) + [o] && Complete(env, maximum, o)
      ensures ok ==> o.groups == AllGroups(Grouping(old(active).value.groups, old(active).value.open))
      ensures ok ==> o.written == old(active).value.written
    {
      var a := active.value;
      active := None;
      var licenses := SortedKeys(a.counters.licenses);
      var sources := SortedKeys(a.counters.sources);
      var groups := AllGroups(Grouping(a.groups, a.open));
      FlattenAll(Grouping(a.groups, a.open));
      var bytes: nat := *;
      var sinkRefuses: bool := *;
      var result := ObjectResult(groups, a.written, bytes, a.counters, licenses,
                                 if |licenses| == 1 then licenses[0] else "", sources);
      o := result;
      sinkRefused, refused := sinkRefuses, bytes > maximum || sinkRefuses;
      if bytes > maximum || sinkRefuses {
        return false, o, sinkRefused;
      }
      objects := objects + [result];
      ok := true;
    }

    /** End a shard whose size has reached the target; its last row group has just been flushed. */
    method FinishLarge() returns (ok: bool)
      requires active.Some? && active.value.open == [] && active.value.counters == CountersOf(env, RowsOf(active.value))
      requires Large(target, active.value)
      requires AllEnded(env, target, maximum, objects)
      modifies this`active, this`objects, this`refused
      ensures ok ==> Valid() && active == None && Now() == old(Now())
      ensures ok <==> !refused
    {
      ghost var o, sinkRefused;
      ok, o, sinkRefused := FinishActive();
      if ok {
        GroupsInAppend(old(objects), o);
        AllEndedAppend(env, target, maximum, old(objects), o);
      }
    }

    /** flushRowGroup */
    method FlushRowGroup() returns (ok: bool)
      requires Valid() && active.Some? && !refused
      modifies this`active, this`objects, this`refused
      ensures ok ==> Valid()
      ensures ok <==> !refused
      ensures ok && Bytes(old(active).value.open) == 0 ==> Now() == old(Now()) && active == old(active)
      ensures ok && Bytes(old(active).value.open) > 0 ==> Now() == Grouping(old(Now()).closed + [old(Now()).open], [])
      ensures ok && Bytes(old(active).value.open) > 0 && active.Some? ==> active.value.open == [] && active.value.groups != []
    {
      if active.value.rowGroupLogical == 0 {
        return true;
      }
      var size: int := *;
      FlushedRows(env, active.value, size);
      assert GroupsIn(objects) + Flushed(active.value, size).groups == GroupsIn(objects) + active.value.groups + [active.value.open];
      active := Some(Flushed(active.value, size));
      ok := true;
      if size >= target {
        ok := FinishLarge();
      }
    }

    /** The part of addBatch's loop before the row is written: an active shard with room in its row group. */
    method MakeRoomFor(r: Row) returns (ok: bool)
      requires Valid() && !refused
      modifies this`active, this`objects, this`refused
      ensures ok <==> !refused
      ensures ok ==> Valid() && active.Some? && Now() == MakeRoom(limit, old(Now()), r)
    {
      WriterFor();
      ok := true;
      if active.value.rowGroupLogical > 0 && active.value.rowGroupLogical + |r.text| > limit {
        ok := FlushRowGroup();
        if ok {
          WriterFor();
        }
      }
    }

    /** The rest: count the row, write it, and flush a full group. */
    method WriteRow(r: Row, count: int) returns (ok: bool)
      requires Valid() && active.Some? && !refused && count == env.count(r.text)
      modifies this`active, this`objects, this`refused
      ensures ok ==> Valid() && NotEmpty() && Now() == Put(limit, old(Now()), r)
      ensures ok <==> Acceptable(env, r) && !refused
    {
      hide CountersOf, CountRow, Flatten, GroupsIn, AllEnded, Bytes;
      var a := active.value;
      if r.text == "" || !NonNegative(r.redactions) || !env.valid(r) || r.license == "" {
        return false;
      }
      var counters := Count(a.counters, r, count);
      WrittenRows(env, target, a, r);
      active := Some(Active(a.groups, a.open + [r], a.written, a.rowGroupLogical + |r.text|, counters));
      ok := true;
      if active.value.rowGroupLogical >= limit {
        ok := FlushRowGroup();
      }
    }

    /** The counters of the active shard, one field after the other. */
    method Count(c: Counters, r: Row, count: int) returns (next: Counters)
      requires count == env.count(r.text)
      ensures next == CountRow(env, c, r)
    {
      var flags := env.assess(r.text);
      next := c;
      if flags.email { next := next.(findings := next.findings.(email := next.findings.email + 1)); }
      if flags.repetitive { next := next.(findings := next.findings.(repetitive := next.findings.repetitive + 1)); }
      if flags.boilerplate { next := next.(findings := next.findings.(boilerplate := next.findings.boilerplate + 1)); }
      next := next.(redactions := PlusRedactions(next.redactions, r.redactions));
      next := next.(licenses := next.licenses + {r.license});
      next := next.(usage := AddAt(next.usage, r.license, Measures(0, 1, count, 0)));
      if r.source.Some? && r.source.value != "" { next := next.(sources := next.sources + {r.source.value}); }
      next := next.(tokens := next.tokens + count, docs := next.docs + 1, logicalBytes := next.logicalBytes + |r.text|);
    }

    /** addBatch: whatever the encoder's sizes, the row groups so far are the cut of all rows so far. */
    method AddBatch(rows: seq<Row>, workers: nat, ghost before: seq<Row>) returns (ok: bool)
      requires Holds(before) && workers > 0
      modifies this
      ensures ok ==> Holds(before + rows)
      ensures ok <==> AllAcceptable(env, rows) && !refused
    {
      hide *;
      var counted := CountTokens(env, rows, workers);
      var counts := counted[..];
      assert before + [] == before && rows[..0] == [];
      for i := 0 to |rows|
        invariant Holds(before + rows[..i])
      {
        assert before + rows[..i + 1] == before + rows[..i] + [rows[i]];
        ok := AddOne(rows[i], counts[i], before + rows[..i]);
        if !ok {
          NotAll(env, rows, i);
          return;
        }
      }
      assert rows[..|rows|] == rows;
      HeldRows(before + rows);
      AcceptableRest(env, before, rows);
      ok := true;
    }

    lemma HeldRows(rows: seq<Row>)
      requires Holds(rows)
      ensures AllAcceptable(env, rows) && !refused
    {
    }

    /** One turn of that loop. */
    method AddOne(r: Row, count: int, ghost before: seq<Row>) returns (ok: bool)
      requires Holds(before) && count == env.count(r.text)
      modifies this
      ensures ok ==> Holds(before + [r])
      ensures !ok ==> refused || !Acceptable(env, r)
    {
      hide GroupRows, MakeRoom, Put, Acceptable;
      if r.license == "" {
        NoLicense(env, r);
        return false;
      }
      ok := MakeRoomFor(r);
      if !ok {
        return;
      }
      ok := WriteRow(r, count);
      GroupRowsAppend(limit, before, r);
    }

    /** finishAll: end the last shard, if one is active, whatever its size. */
    method FinishAll(ghost rows: seq<Row>) returns (ok: bool)
      requires Holds(rows)
      modifies this`active, this`objects, this`refused
      ensures ok <==> !refused
      ensures ok ==> active == None && Finished(env, limit, target, maximum, objects, rows)
    {
      hide AllEnded, EndedBySize, Complete, Finished, GroupRows, AllGroups, GroupsIn, Consistent;
      hide AllAcceptable;
      if active == None {
        NothingOpen(Grouping(GroupsIn(objects), []));
        AllFinished(env, limit, target, maximum, objects, rows);
        return true;
      }
      ActiveGroups(env, target, objects, active.value);
      ghost var o, sinkRefused;
      ok, o, sinkRefused := FinishActive();
      if ok {
        LastFinished(env, limit, target, maximum, old(objects), o, rows);
      }
    }
  }

  /** The shards of a finished assembly: together they hold the cut of the rows, only the last may be small, and each
      row group is within the limit or a single row. */
  ghost predicate Finished(env: Env, limit: int, target: int, maximum: int, objects: seq<ObjectResult>, rows: seq<Row>) {
    && GroupsIn(objects) == AllGroups(GroupRows(limit, rows))
    && AllAcceptable(env, rows)
    && (forall o :: o in objects ==> Complete(env, maximum, o) && AllWithin(limit, o.groups))
    && forall o :: o in objects[..Max(0, |objects| - 1)] ==> EndedBySize(target, o)
  }

  lemma FinishedOf(env: Env, limit: int, target: int, maximum: int, objects: seq<ObjectResult>, rows: seq<Row>)
    requires GroupsIn(objects) == AllGroups(GroupRows(limit, rows)) && AllAcceptable(env, rows)
    requires forall o :: o in objects ==> Complete(env, maximum, o)
    requires forall o :: o in objects[..Max(0, |objects| - 1)] ==> EndedBySize(target, o)
    ensures Finished(env, limit, target, maximum, objects, rows)
  {
    hide Complete, EndedBySize, Within, GroupRows, AllGroups, GroupsIn;
    assert HaveText(rows);
    GroupsAreTight(limit, rows);
    ShardGroups(objects);
  }

  /** No shard was active: all of them ended by their size. */
  lemma AllFinished(env: Env, limit: int, target: int, maximum: int, objects: seq<ObjectResult>, rows: seq<Row>)
    requires AllEnded(env, target, maximum, objects) && AllAcceptable(env, rows)
    requires GroupsIn(objects) == AllGroups(GroupRows(limit, rows))
    ensures Finished(env, limit, target, maximum, objects, rows)
  {
    hide Complete, EndedBySize, Finished, GroupRows, AllGroups, GroupsIn;
    FinishedOf(env, limit, target, maximum, objects, rows);
  }

  /** The shard that was active is the last one, and the only one of any size. */
  lemma LastFinished(env: Env, limit: int, target: int, maximum: int, objects: seq<ObjectResult>, o: ObjectResult,
                     rows: seq<Row>)
    requires AllEnded(env, target, maximum, objects) && Complete(env, maximum, o) && AllAcceptable(env, rows)
    requires GroupsIn(objects) + o.groups == AllGroups(GroupRows(limit, rows))
    ensures Finished(env, limit, target, maximum, objects + [o], rows)
  {
    hide Complete, EndedBySize, Finished, GroupRows, AllGroups, GroupsIn;
    GroupsInAppend(objects, o);
    assert (objects + [o])[..Max(0, |objects + [o]| - 1)] == objects;
    FinishedOf(env, limit, target, maximum, objects + [o], rows);
  }

  lemma NothingOpen(g: Grouping)
    requires g.open == []
    ensures AllGroups(g) == g.closed
  {
  }

  lemma NoLicense(env: Env, r: Row)
    requires r.license == ""
    ensures !Acceptable(env, r)
  {
  }

  lemma NotAll(env: Env, rows: seq<Row>, i: nat)
    requires i < |rows|
    ensures !Acceptable(env, rows[i]) ==> !AllAcceptable(env, rows)
  {
  }

  lemma AcceptableRest(env: Env, a: seq<Row>, b: seq<Row>)
    requires AllAcceptable(env, a + b)
    ensures AllAcceptable(env, b)
  {
    assert forall r :: r in b ==> r in a + b;
  }

  /** The row groups of a shard are row groups of the assembly. */
  lemma {:induction false} ShardGroups(objects: seq<ObjectResult>)
    ensures forall o, g :: o in objects && g in o.groups ==> g in GroupsIn(objects)
  {
    if objects != [] {
      var front, last := objects[..|objects| - 1], objects[|objects| - 1];
      ShardGroups(front);
      assert forall o :: o in objects <==> o in front || o == last;
    }
  }

  function Flushed(a: Active, size: int): Active {
    Active(a.groups + [a.open], [], a.written + [size], 0, a.counters)
  }

  ghost predicate Large(target: int, a: Active) {
    && |a.written| == |a.groups| > 0 && a.written[|a.written| - 1] >= target
    && forall i :: 0 <= i < |a.written| - 1 ==> a.written[i] < target
  }

  lemma FlushedRows(env: Env, a: Active, size: int)
    ensures RowsOf(Flushed(a, size)) == RowsOf(a)
  {
    FlattenAppend(a.groups, a.open);
  }

  lemma WrittenRows(env: Env, target: int, a: Active, r: Row)
    requires Consistent(env, target, a)
    ensures CountersOf(env, Flatten(a.groups) + (a.open + [r])) == CountRow(env, a.counters, r)
    ensures Bytes(a.open + [r]) == a.rowGroupLogical + |r.text|
  {
    BytesAppend(a.open, r);
    assert Flatten(a.groups) + (a.open + [r]) == RowsOf(a) + [r];
    assert (RowsOf(a) + [r])[..|RowsOf(a)|] == RowsOf(a);
  }

  lemma ActiveGroups(env: Env, target: int, objects: seq<ObjectResult>, a: Active)
    requires (a.groups != [] || a.open != []) && Consistent(env, target, a)
    ensures AllGroups(Grouping(a.groups, a.open)) != [] && a.counters == CountersOf(env, RowsOf(a))
    ensures GroupsIn(objects) + AllGroups(Grouping(a.groups, a.open)) == AllGroups(Grouping(GroupsIn(objects) + a.groups, a.open))
  {
    assert GroupsIn(objects) + (a.groups + [a.open]) == GroupsIn(objects) + a.groups + [a.open];
  }
}
