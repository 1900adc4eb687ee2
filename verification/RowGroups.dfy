/**
 How a row stream is cut into row groups.  The cut depends on the rows and on
 the logical limit alone: neither the batches nor the compressed sizes that
 decide where a shard ends move it.
 */
module RowGroups {
  import opened Prelude
  import opened Rows

  /** Closed row groups, and the rows of the one being filled. */
  datatype Grouping = Grouping(closed: seq<seq<Row>>, open: seq<Row>)

  const NoGroups := Grouping([], [])

  function Bytes(rows: seq<Row>): nat {
    if rows == [] then 0 else Bytes(rows[..|rows| - 1]) + |rows[|rows| - 1].text|
  }

  /** The flush before a row that would not fit. */
  function MakeRoom(limit: int, g: Grouping, r: Row): Grouping {
    if Bytes(g.open) > 0 && Bytes(g.open) + |r.text| > limit then Grouping(g.closed + [g.open], []) else g
  }

  /** The row, and the flush of a full group; rows without text do not fill one. */
  function Put(limit: int, g: Grouping, r: Row): Grouping {
    var open := g.open + [r];
    if Bytes(open) >= limit && Bytes(open) > 0 then Grouping(g.closed + [open], []) else Grouping(g.closed, open)
  }

  function AddRow(limit: int, g: Grouping, r: Row): Grouping { Put(limit, MakeRoom(limit, g, r), r) }

  function GroupRows(limit: int, rows: seq<Row>): Grouping {
    if rows == [] then NoGroups else AddRow(limit, GroupRows(limit, rows[..|rows| - 1]), rows[|rows| - 1])
  }

  lemma GroupRowsAppend(limit: int, front: seq<Row>, last: Row)
    ensures GroupRows(limit, front + [last]) == AddRow(limit, GroupRows(limit, front), last)
  {
    assert (front + [last])[..|front|] == front;
  }

  /** Closing the last shard writes out the open rows too. */
  function AllGroups(g: Grouping): seq<seq<Row>> { if g.open == [] then g.closed else g.closed + [g.open] }

  // ----- What the cut promises -----

  /** What the row check demands of every row that is written. */
  ghost predicate HaveText(rows: seq<Row>) { forall r :: r in rows ==> r.text != "" }

  /** The bound on a row group: the limit, unless a single row is above it. */
  predicate Within(limit: int, g: seq<Row>) { g != [] && (Bytes(g) <= limit || |g| == 1) }

  ghost predicate AllWithin(limit: int, groups: seq<seq<Row>>) { forall g :: g in groups ==> Within(limit, g) }

  /** What holds of a group before it is known that its rows have text. */
  predicate GroupOk(limit: int, g: seq<Row>) {
    g != [] && (Bytes(g) <= limit || Bytes(g[..|g| - 1]) == 0)
  }

  /** A group is never closed early: it was full, or the row after it did not fit. */
  predicate Filled(limit: int, g: seq<Row>, following: seq<Row>) {
    g != [] && (Bytes(g) >= limit || (following != [] && Bytes(g) + |following[0].text| > limit))
  }

  ghost predicate AllOk(limit: int, groups: seq<seq<Row>>) {
    forall i :: 0 <= i < |groups| ==> GroupOk(limit, groups[i])
  }

  ghost predicate AllFilled(limit: int, groups: seq<seq<Row>>) {
    forall i, j :: 0 <= i && j == i + 1 < |groups| ==> Filled(limit, groups[i], groups[j])
  }

  /** The open rows fit, and while there are none the last closed group is a full one. */
  ghost predicate OpenOk(limit: int, g: Grouping) {
    if g.open == [] then g.closed != [] ==> Bytes(g.closed[|g.closed| - 1]) >= limit
    else GroupOk(limit, g.open) && (Bytes(g.open) < limit || Bytes(g.open) == 0)
  }

  ghost predicate Sound(limit: int, g: Grouping) {
    AllOk(limit, g.closed) && OpenOk(limit, g) && AllFilled(limit, AllGroups(g))
  }

  lemma BytesAppend(rows: seq<Row>, r: Row)
    ensures Bytes(rows + [r]) == Bytes(rows) + |r.text|
  {
    assert (rows + [r])[..|rows|] == rows;
  }

  /** The size of a group is that of its texts together. */
  lemma {:induction false} BytesMeaning(rows: seq<Row>)
    ensures Bytes(rows) == |Texts(rows)|
  {
    if rows != [] { BytesMeaning(rows[..|rows| - 1]); }
  }

  lemma FilledAppend(limit: int, groups: seq<seq<Row>>, last: seq<Row>)
    requires AllFilled(limit, groups) && (groups != [] ==> Filled(limit, groups[|groups| - 1], last))
    ensures AllFilled(limit, groups + [last])
  {
    hide Filled;
    var all := groups + [last];
    forall i, j | 0 <= i && j == i + 1 < |all| ensures Filled(limit, all[i], all[j]) {
      assert all[i] == groups[i];
    }
  }

  lemma FilledFront(limit: int, groups: seq<seq<Row>>, last: seq<Row>)
    requires AllFilled(limit, groups + [last])
    ensures AllFilled(limit, groups)
    ensures groups != [] ==> Filled(limit, groups[|groups| - 1], last)
  {
    hide Filled;
    var all := groups + [last];
    if groups != [] {
      assert all[|groups| - 1] == groups[|groups| - 1] && all[|groups|] == last;
    }
    forall i, j | 0 <= i && j == i + 1 < |groups| ensures Filled(limit, groups[i], groups[j]) {
      assert all[i] == groups[i] && all[j] == groups[j];
    }
  }

  lemma OkAppend(limit: int, groups: seq<seq<Row>>, last: seq<Row>)
    requires AllOk(limit, groups) && GroupOk(limit, last)
    ensures AllOk(limit, groups + [last])
  {
    hide GroupOk;
  }

  /** Making room closes a group that could not take the row. */
  lemma RoomMade(limit: int, before: Grouping, r: Row)
    requires Sound(limit, before)
    ensures var g := MakeRoom(limit, before, r);
            && AllOk(limit, g.closed) && AllFilled(limit, g.closed) && GroupOk(limit, g.open + [r])
            && (g.closed != [] ==> Filled(limit, g.closed[|g.closed| - 1], g.open + [r]))
  {
    hide AllFilled, AllOk;
    var g := MakeRoom(limit, before, r);
    BytesAppend(g.open, r);
    assert (g.open + [r])[..|g.open|] == g.open;
    if before.open != [] {
      FilledFront(limit, before.closed, before.open);
      if g != before {
        OkAppend(limit, before.closed, before.open);
      }
    }
    if g.closed != [] {
      LastOk(limit, g.closed);
    }
  }

  lemma LastOk(limit: int, groups: seq<seq<Row>>)
    requires AllOk(limit, groups) && groups != []
    ensures groups[|groups| - 1] != []
  {
  }

  lemma PutSound(limit: int, before: Grouping, r: Row)
    requires Sound(limit, before)
    ensures Sound(limit, AddRow(limit, before, r))
  {
    hide AllFilled, AllOk, GroupOk, Filled, Bytes;
    var g := MakeRoom(limit, before, r);
    RoomMade(limit, before, r);
    OkAppend(limit, g.closed, g.open + [r]);
    FilledAppend(limit, g.closed, g.open + [r]);
    assert AllGroups(Put(limit, g, r)) == g.closed + [g.open + [r]];
  }

  lemma {:induction false} GroupingIsSound(limit: int, rows: seq<Row>)
    ensures Sound(limit, GroupRows(limit, rows))
  {
    if rows != [] {
      GroupingIsSound(limit, rows[..|rows| - 1]);
      PutSound(limit, GroupRows(limit, rows[..|rows| - 1]), rows[|rows| - 1]);
    }
  }

  lemma FlattenAll(g: Grouping)
    ensures Flatten(AllGroups(g)) == Flatten(g.closed) + g.open
  {
    if g.open != [] { FlattenAppend(g.closed, g.open); }
  }

  lemma PutKeepsRows(limit: int, before: Grouping, r: Row)
    ensures Flatten(AllGroups(AddRow(limit, before, r))) == Flatten(AllGroups(before)) + [r]
  {
    var g := MakeRoom(limit, before, r);
    assert AllGroups(g) == AllGroups(before);
    FlattenAll(g);
    assert AllGroups(Put(limit, g, r)) == g.closed + [g.open + [r]];
    FlattenAppend(g.closed, g.open + [r]);
  }

  /** No row is lost, repeated or moved. */
  lemma {:induction false} GroupsKeepRows(limit: int, rows: seq<Row>)
    ensures Flatten(AllGroups(GroupRows(limit, rows))) == rows
  {
    if rows != [] {
      var front, last := rows[..|rows| - 1], rows[|rows| - 1];
      assert rows == front + [last];
      GroupsKeepRows(limit, front);
      PutKeepsRows(limit, GroupRows(limit, front), last);
    }
  }

  lemma TextHasBytes(rows: seq<Row>, n: nat)
    requires 0 < n <= |rows| && HaveText(rows)
    ensures Bytes(rows[..n]) > 0
  {
    assert rows[..n][n - 1] == rows[n - 1];
  }

  /** An oversized group is a single row. */
  lemma OversizedIsSingleRow(limit: int, g: seq<Row>)
    requires GroupOk(limit, g) && Bytes(g) > limit && HaveText(g)
    ensures |g| == 1
  {
    if |g| > 1 { TextHasBytes(g, |g| - 1); }
  }

  /** No group is closed early, and each group of rows with text is within the limit or a single row. */
  lemma GroupsAreTight(limit: int, rows: seq<Row>)
    ensures AllFilled(limit, AllGroups(GroupRows(limit, rows)))
    ensures forall g :: g in AllGroups(GroupRows(limit, rows)) ==> g != []
    ensures HaveText(rows) ==> AllWithin(limit, AllGroups(GroupRows(limit, rows)))
  {
    hide AllFilled, Filled, Bytes, GroupRows;
    var groups := AllGroups(GroupRows(limit, rows));
    GroupingIsSound(limit, rows);
    GroupsKeepRows(limit, rows);
    forall g | g in groups ensures g != [] && (HaveText(rows) ==> Within(limit, g)) {
      FlattenHas(groups, g);
      assert GroupOk(limit, g);
      if HaveText(rows) && Bytes(g) > limit {
        OversizedIsSingleRow(limit, g);
      }
    }
  }
}
