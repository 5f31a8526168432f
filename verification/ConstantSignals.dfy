/**
 * Constant-signal detection: among the signal columns that are present in
 * every row of one source, the 1-based positions of those whose maximum
 * equals their minimum over the whole table.
 */
module ConstantSignals {
  import opened Wrappers
  import opened Events

  /** Column c has a value in every one of the rows (dropna keeps it). */
  predicate ColumnPresent(rows: Table, c: nat)
  {
    forall i :: 0 <= i < |rows| ==> c < |rows[i].fields| && rows[i].fields[c].Some?
  }

  /** The columns 0..n-1 that dropna keeps, in declared order. */
  function PresentColumns(rows: Table, n: nat): (cols: seq<nat>)
    ensures forall a, b :: 0 <= a < b < |cols| ==> cols[a] < cols[b]
    ensures forall j :: 0 <= j < |cols| ==> cols[j] < n && ColumnPresent(rows, cols[j])
  {
    if n == 0 then []
    else PresentColumns(rows, n - 1) + (if ColumnPresent(rows, n - 1) then [n - 1] else [])
  }

  /** No column that has a value in every row is dropped. */
  lemma {:induction false} PresentColumnsComplete(rows: Table, n: nat, c: nat)
    requires c < n && ColumnPresent(rows, c)
    ensures c in PresentColumns(rows, n)
  {
    if c < n - 1 {
      PresentColumnsComplete(rows, n - 1, c);
    }
  }

  /** The largest value of a present column. */
  function ColumnMax(rows: Table, c: nat): (m: real)
    requires |rows| > 0 && ColumnPresent(rows, c)
    ensures forall i :: 0 <= i < |rows| ==> rows[i].fields[c].value <= m
  {
    var v := rows[|rows| - 1].fields[c].value;
    if |rows| == 1 then v
    else
      var m := ColumnMax(rows[..|rows| - 1], c);
      if v > m then v else m
  }

  /** The smallest value of a present column. */
  function ColumnMin(rows: Table, c: nat): (m: real)
    requires |rows| > 0 && ColumnPresent(rows, c)
    ensures forall i :: 0 <= i < |rows| ==> m <= rows[i].fields[c].value
  {
    var v := rows[|rows| - 1].fields[c].value;
    if |rows| == 1 then v
    else
      var m := ColumnMin(rows[..|rows| - 1], c);
      if v < m then v else m
  }

  /** The maximum and the minimum of a column are values that occur in it. */
  lemma {:induction false} ExtremesAttained(rows: Table, c: nat)
    requires |rows| > 0 && ColumnPresent(rows, c)
    ensures exists i :: 0 <= i < |rows| && rows[i].fields[c].value == ColumnMax(rows, c)
    ensures exists i :: 0 <= i < |rows| && rows[i].fields[c].value == ColumnMin(rows, c)
  {
    if |rows| > 1 {
      var init := rows[..|rows| - 1];
      ExtremesAttained(init, c);
      var a :| 0 <= a < |init| && init[a].fields[c].value == ColumnMax(init, c);
      var b :| 0 <= b < |init| && init[b].fields[c].value == ColumnMin(init, c);
      var last := |rows| - 1;
      var hi := if rows[last].fields[c].value > ColumnMax(init, c) then last else a;
      var lo := if rows[last].fields[c].value < ColumnMin(init, c) then last else b;
      assert rows[hi].fields[c].value == ColumnMax(rows, c);
      assert rows[lo].fields[c].value == ColumnMin(rows, c);
    } else {
      assert rows[0].fields[c].value == ColumnMax(rows, c) == ColumnMin(rows, c);
    }
  }

  /** max == min over the column; the max of no rows is NaN, which equals nothing. */
  predicate IsConstant(rows: Table, c: nat)
    requires ColumnPresent(rows, c)
  {
    |rows| > 0 && ColumnMax(rows, c) == ColumnMin(rows, c)
  }

  /** A column is constant exactly when it takes one value in every row. */
  lemma ConstantIffSingleValue(rows: Table, c: nat)
    requires |rows| > 0 && ColumnPresent(rows, c)
    ensures IsConstant(rows, c) <==>
            forall i :: 0 <= i < |rows| ==> rows[i].fields[c].value == rows[0].fields[c].value
  {
    ExtremesAttained(rows, c);
    if forall i :: 0 <= i < |rows| ==> rows[i].fields[c].value == rows[0].fields[c].value {
      var hi, lo := ColumnMax(rows, c), ColumnMin(rows, c);
      var a :| 0 <= a < |rows| && rows[a].fields[c].value == hi;
      var b :| 0 <= b < |rows| && rows[b].fields[c].value == lo;
    }
  }

  /** The 1-based positions of the set flags: how the running `signal` counter numbers columns. */
  function Positions(flags: seq<bool>): (ps: seq<nat>)
    ensures forall a :: 0 <= a < |ps| ==> 1 <= ps[a] <= |flags|
  {
    if flags == [] then []
    else Positions(flags[..|flags| - 1]) + (if flags[|flags| - 1] then [|flags|] else [])
  }

  /** The positions are strictly increasing and name exactly the set flags. */
  lemma {:induction false} PositionsSpec(flags: seq<bool>)
    ensures forall a, b :: 0 <= a < b < |Positions(flags)| ==> Positions(flags)[a] < Positions(flags)[b]
    ensures forall p :: 1 <= p <= |flags| ==> (p in Positions(flags) <==> flags[p - 1])
  {
    if flags != [] {
      var init := flags[..|flags| - 1];
      PositionsSpec(init);
    }
  }

  /** One more flag adds its own position when set. */
  lemma PositionsStep(flags: seq<bool>, j: nat)
    requires j < |flags|
    ensures Positions(flags[..j + 1]) == Positions(flags[..j]) + (if flags[j] then [j + 1] else [])
  {
    assert flags[..j + 1][..j] == flags[..j];
  }

  /** For each present column, in order, whether it is constant. */
  function ConstantFlags(rows: Table, cols: seq<nat>): (flags: seq<bool>)
    requires forall j :: 0 <= j < |cols| ==> ColumnPresent(rows, cols[j])
    ensures |flags| == |cols|
    ensures forall j :: 0 <= j < |cols| ==> (flags[j] <==> IsConstant(rows, cols[j]))
  {
    seq(|cols|, j requires 0 <= j < |cols| => IsConstant(rows, cols[j]))
  }

  /**
   * The list get_constant_signals returns for one source. `k` is the number of
   * `Signal_<j>_of_ID` columns in the table's schema (4 for SynCAN, 22 for
   * ROAD); every row of the table carries that many fields.
   */
  function ConstantList(table: Table, id: Id, k: nat): (ps: seq<nat>)
  {
    var rows := RowsOf(table, id);
    Positions(ConstantFlags(rows, PresentColumns(rows, k)))
  }

  /**
   * The list is strictly increasing, and position p is listed exactly when the
   * p-th present column of the source is constant.
   */
  lemma ConstantListSpec(table: Table, id: Id, k: nat)
    ensures var ps := ConstantList(table, id, k);
            var cols := PresentColumns(RowsOf(table, id), k);
            (forall a, b :: 0 <= a < b < |ps| ==> ps[a] < ps[b]) &&
            (forall a :: 0 <= a < |ps| ==> 1 <= ps[a] <= |cols|) &&
            (forall p :: 1 <= p <= |cols| ==> (p in ps <==> IsConstant(RowsOf(table, id), cols[p - 1])))
  {
    var rows := RowsOf(table, id);
    PositionsSpec(ConstantFlags(rows, PresentColumns(rows, k)));
  }

  /**
   * get_constant_signals: scans the present columns of `id` in order, counting
   * the constant ones and collecting their 1-based positions.
   */
  method GetConstantSignals(table: Table, id: Id, k: nat) returns (count: nat, positions: seq<nat>)
    ensures count == |positions|
    ensures positions == ConstantList(table, id, k)
  {
    var rows := RowsOf(table, id);
    var cols := PresentColumns(rows, k);
    ghost var flags := ConstantFlags(rows, cols);
    positions := [];
    count := 0;
    var signal := 1;
    for j := 0 to |cols|
      invariant signal == j + 1
      invariant count == |positions|
      invariant positions == Positions(flags[..j])
    {
      PositionsStep(flags, j);
      var col := cols[j];
      if |rows| > 0 && ColumnMax(rows, col) == ColumnMin(rows, col) {
        assert flags[j];
        count := count + 1;
        positions := positions + [signal];
        signal := signal + 1;
        continue;
      }
      signal := signal + 1;
    }
    assert flags[..|cols|] == flags;
  }

  /** info_constant_signals: only counts the constant present columns of `id`. */
  method InfoConstantSignals(table: Table, id: Id, k: nat) returns (count: nat)
    ensures count == |ConstantList(table, id, k)|
  {
    var rows := RowsOf(table, id);
    var cols := PresentColumns(rows, k);
    ghost var flags := ConstantFlags(rows, cols);
    count := 0;
    for j := 0 to |cols|
      invariant count == |Positions(flags[..j])|
    {
      PositionsStep(flags, j);
      var col := cols[j];
      if |rows| > 0 && ColumnMax(rows, col) == ColumnMin(rows, col) {
        count := count + 1;
      }
    }
    assert flags[..|cols|] == flags;
  }
}
