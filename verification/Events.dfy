/**
 * The event table: one row per bus message, with its time, its source ID and
 * its signal columns Signal_1_of_ID .. Signal_K_of_ID (field k holds column
 * Signal_{k+1}_of_ID; a missing value is None). This module holds the
 * expression-style selections: the time and ID filters, the latest row of a
 * window, and the fields of a row that survive the drops.
 */
module Events {
  import opened Wrappers

  type Id = nat

  datatype Row = Row(time: real, id: Id, fields: seq<Option<real>>)

  type Table = seq<Row>

  /** The window (t - dt, t]. */
  predicate InWindow(r: Row, t: real, dt: real)
  {
    t - dt < r.time <= t
  }

  /** The rows whose time lies in the window (t - dt, t], in table order. */
  function TimeSlice(table: Table, t: real, dt: real): (w: Table)
    ensures |w| <= |table|
  {
    if table == [] then []
    else
      var init, last := table[..|table| - 1], table[|table| - 1];
      if InWindow(last, t, dt) then TimeSlice(init, t, dt) + [last] else TimeSlice(init, t, dt)
  }

  /** The time slice keeps exactly the rows in the window. */
  lemma {:induction false} TimeSliceMembers(table: Table, t: real, dt: real)
    ensures forall r :: r in TimeSlice(table, t, dt) <==> r in table && InWindow(r, t, dt)
  {
    if table != [] {
      var init, last := table[..|table| - 1], table[|table| - 1];
      TimeSliceMembers(init, t, dt);
      assert table == init + [last];
    }
  }

  /** The rows of source `id`, in table order. */
  function RowsOf(table: Table, id: Id): (w: Table)
    ensures |w| <= |table|
  {
    if table == [] then []
    else
      var init, last := table[..|table| - 1], table[|table| - 1];
      if last.id == id then RowsOf(init, id) + [last] else RowsOf(init, id)
  }

  /** The ID filter keeps exactly the rows of that source. */
  lemma {:induction false} RowsOfMembers(table: Table, id: Id)
    ensures forall r :: r in RowsOf(table, id) <==> r in table && r.id == id
  {
    if table != [] {
      var init, last := table[..|table| - 1], table[|table| - 1];
      RowsOfMembers(init, id);
      assert table == init + [last];
    }
  }

  /**
   * The position idxmax picks on the Time column: the first row whose time is
   * maximal.
   */
  function LatestIndex(rows: Table): (k: nat)
    requires |rows| > 0
    ensures k < |rows|
    ensures forall j :: 0 <= j < |rows| ==> rows[j].time <= rows[k].time
    ensures forall j :: 0 <= j < k ==> rows[j].time < rows[k].time
  {
    if |rows| == 1 then 0
    else
      var k := LatestIndex(rows[..|rows| - 1]);
      if rows[|rows| - 1].time > rows[k].time then |rows| - 1 else k
  }

  /**
   * The columns of one row that survive the drops, in declared order: present
   * fields only, and, when exclusion is on, none of the listed 1-based columns.
   */
  function KeptColumns(fields: seq<Option<real>>, excluded: seq<nat>, exclude: bool): (kept: seq<nat>)
    ensures forall a, b :: 0 <= a < b < |kept| ==> kept[a] < kept[b]
    ensures forall j :: 0 <= j < |kept| ==> kept[j] < |fields|
    ensures forall k :: 0 <= k < |fields| ==> (k in kept <==> fields[k].Some? && !(exclude && k + 1 in excluded))
  {
    if fields == [] then []
    else
      var k := |fields| - 1;
      var prev := KeptColumns(fields[..k], excluded, exclude);
      if fields[k].Some? && !(exclude && k + 1 in excluded) then prev + [k] else prev
  }

  /** The retained signal values of a row: the flattened result of line-by-line column drops. */
  function Packed(fields: seq<Option<real>>, excluded: seq<nat>, exclude: bool): (v: seq<real>)
  {
    var kept := KeptColumns(fields, excluded, exclude);
    seq(|kept|, j requires 0 <= j < |kept| => fields[kept[j]].value)
  }

  /** Without exclusion and with every field present, a row packs to all of its values. */
  lemma PackedAllPresent(fields: seq<Option<real>>, excluded: seq<nat>)
    requires forall k :: 0 <= k < |fields| ==> fields[k].Some?
    ensures |Packed(fields, excluded, false)| == |fields|
    ensures forall k :: 0 <= k < |fields| ==> Packed(fields, excluded, false)[k] == fields[k].value
  {
    KeptAllColumns(fields, excluded);
  }

  lemma {:induction false} KeptAllColumns(fields: seq<Option<real>>, excluded: seq<nat>)
    requires forall k :: 0 <= k < |fields| ==> fields[k].Some?
    ensures KeptColumns(fields, excluded, false) == seq(|fields|, k => k)
  {
    if fields != [] {
      KeptAllColumns(fields[..|fields| - 1], excluded);
    }
  }

  /** The earliest time in a non-empty table. */
  function MinTime(table: Table): (m: real)
    requires |table| > 0
    ensures exists i :: 0 <= i < |table| && table[i].time == m
    ensures forall i :: 0 <= i < |table| ==> m <= table[i].time
  {
    if |table| == 1 then table[0].time
    else
      var init := table[..|table| - 1];
      assert table == init + [table[|table| - 1]];
      var m := MinTime(init);
      if table[|table| - 1].time < m then table[|table| - 1].time else m
  }

  /** The latest time in a non-empty table. */
  function MaxTime(table: Table): (m: real)
    requires |table| > 0
    ensures exists i :: 0 <= i < |table| && table[i].time == m
    ensures forall i :: 0 <= i < |table| ==> table[i].time <= m
  {
    if |table| == 1 then table[0].time
    else
      var init := table[..|table| - 1];
      assert table == init + [table[|table| - 1]];
      var m := MaxTime(init);
      if table[|table| - 1].time > m then table[|table| - 1].time else m
  }

  /** The earliest timestamp is no later than the latest. */
  lemma TimeSpan(table: Table)
    requires |table| > 0
    ensures MinTime(table) <= MaxTime(table)
  {
  }
}
