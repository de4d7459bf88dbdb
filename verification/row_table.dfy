/** The store a sharded table's rows live in, reduced to what the write path
    asks of it: fetch the first row a filter matches, and `update_all`, which
    sets columns on every matching row and reports how many it touched. */
module RowTable {
  import opened Outcomes
  import opened ShardScope

  type Row = Attributes

  /** A row satisfies a filter when every `column = value` predicate holds. */
  predicate Matches(row: Row, filter: seq<Bind>) {
    forall b :: b in filter ==> Read(row, b.column) == b.value
  }

  /** A row satisfies a list of bound `column = ?` predicates: a nil bind
      value becomes `column = NULL`, which holds for no row. */
  predicate BoundMatches(row: Row, binds: seq<Bind>) {
    forall b :: b in binds ==> b.value != Nil && Read(row, b.column) == b.value
  }

  /** No two rows share a value of `column` (a primary key). */
  predicate UniqueKey(rows: seq<Row>, column: string) {
    forall i, j :: 0 <= i < j < |rows| ==> Read(rows[i], column) != Read(rows[j], column)
  }

  /** The index of the first row the filter matches, as `find` returns it. */
  function FirstMatch(rows: seq<Row>, filter: seq<Bind>): (r: Option<nat>)
    ensures r.Some? ==> r.value < |rows| && Matches(rows[r.value], filter)
    ensures r.Some? ==> forall j :: 0 <= j < r.value ==> !Matches(rows[j], filter)
    ensures r.None? <==> forall j :: 0 <= j < |rows| ==> !Matches(rows[j], filter)
  {
    if |rows| == 0 then None
    else if Matches(rows[0], filter) then Some(0)
    else
      match FirstMatch(rows[1..], filter)
      case None => None
      case Some(k) => Some(k + 1)
  }

  /** The affected-row count of an update under `filter`. */
  function CountMatching(rows: seq<Row>, filter: seq<Bind>): (n: nat)
    ensures n <= |rows|
    ensures n == 0 <==> forall j :: 0 <= j < |rows| ==> !Matches(rows[j], filter)
  {
    if |rows| == 0 then 0
    else (if Matches(rows[0], filter) then 1 else 0) + CountMatching(rows[1..], filter)
  }

  /** The rows after `update_all(changes)` under `filter`: matching rows take the
      new column values, every other row stays as it was. */
  function UpdatedRows(rows: seq<Row>, filter: seq<Bind>, changes: Attributes): (r: seq<Row>)
    ensures |r| == |rows|
    ensures forall i :: 0 <= i < |rows| && Matches(rows[i], filter) ==> r[i] == rows[i] + changes
    ensures forall i :: 0 <= i < |rows| && !Matches(rows[i], filter) ==> r[i] == rows[i]
  {
    if |rows| == 0 then []
    else
      [if Matches(rows[0], filter) then rows[0] + changes else rows[0]]
      + UpdatedRows(rows[1..], filter, changes)
  }

  /** Exactly one matching row gives an affected count of one. */
  lemma {:induction false} CountSingleMatch(rows: seq<Row>, filter: seq<Bind>, k: nat)
    requires k < |rows| && Matches(rows[k], filter)
    requires forall j :: 0 <= j < |rows| && j != k ==> !Matches(rows[j], filter)
    ensures CountMatching(rows, filter) == 1
  {
    if k == 0 {
      assert forall j :: 0 <= j < |rows[1..]| ==> !Matches(rows[1..][j], filter) by {
        forall j | 0 <= j < |rows[1..]| ensures !Matches(rows[1..][j], filter) {
          assert rows[1..][j] == rows[j + 1];
        }
      }
    } else {
      forall j | 0 <= j < |rows[1..]| && j != k - 1 ensures !Matches(rows[1..][j], filter) {
        assert rows[1..][j] == rows[j + 1];
      }
      CountSingleMatch(rows[1..], filter, k - 1);
    }
  }

  /** When the filter pins a unique key, at most one row is affected. */
  lemma {:induction false} CountAtMostOneOnUniqueKey(rows: seq<Row>, filter: seq<Bind>, column: string, key: Value)
    requires Bind(column, key) in filter
    requires UniqueKey(rows, column)
    ensures CountMatching(rows, filter) <= 1
  {
    if |rows| > 0 {
      assert UniqueKey(rows[1..], column) by {
        forall i, j | 0 <= i < j < |rows[1..]|
          ensures Read(rows[1..][i], column) != Read(rows[1..][j], column)
        {
          assert rows[1..][i] == rows[i + 1] && rows[1..][j] == rows[j + 1];
        }
      }
      if Matches(rows[0], filter) {
        forall j | 0 <= j < |rows[1..]| ensures !Matches(rows[1..][j], filter) {
          assert rows[1..][j] == rows[j + 1];
          assert Read(rows[0], column) == key;
        }
      } else {
        CountAtMostOneOnUniqueKey(rows[1..], filter, column, key);
      }
    }
  }

  /** The kinds of statement the write path sends to the store. */
  datatype Statement =
    | Select(filter: seq<Bind>, lock: bool)
    | UpdateAll(filter: seq<Bind>, changes: Attributes)

  /** The store of one table: its rows, and the statements issued against it
      in order. */
  class Table {
    var rows: seq<Row>
    var log: seq<Statement>

    constructor (rows: seq<Row>)
      ensures this.rows == rows && log == []
    {
      this.rows := rows;
      log := [];
    }

    /** Fetch one row under `filter`, optionally as a locking read. */
    method Find(filter: seq<Bind>, lock: bool) returns (r: Option<Row>)
      modifies this`log
      ensures log == old(log) + [Select(filter, lock)]
      ensures FirstMatch(rows, filter).None? ==> r == None
      ensures FirstMatch(rows, filter).Some? ==> r == Some(rows[FirstMatch(rows, filter).value])
    {
      log := log + [Select(filter, lock)];
      var i := FirstMatch(rows, filter);
      r := if i.Some? then Some(rows[i.value]) else None;
    }

    /** `update_all(changes)` under `filter`; refuses an empty change set
        before any statement is issued. */
    method UpdateAll(filter: seq<Bind>, changes: Attributes) returns (r: Result<nat>)
      modifies this
      ensures changes == map[] ==> r == Err(EmptyUpdateList) && rows == old(rows) && log == old(log)
      ensures changes != map[] ==>
        && r == Ok(CountMatching(old(rows), filter))
        && rows == UpdatedRows(old(rows), filter, changes)
        && log == old(log) + [Statement.UpdateAll(filter, changes)]
    {
      if changes == map[] {
        r := Err(EmptyUpdateList);
      } else {
        r := Ok(CountMatching(rows, filter));
        rows := UpdatedRows(rows, filter, changes);
        log := log + [Statement.UpdateAll(filter, changes)];
      }
    }
  }
}
