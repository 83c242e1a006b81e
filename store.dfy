/**
 * The database behind the repositories, reduced to one table: rows by
 * primary-key value, a find, and the insert, update and delete an active
 * model turns into.
 */
module Store {
  import opened Wrappers
  import opened Audit

  /** A stored row: column name to value. */
  type Row = map<string, DbValue>

  /** The ORM's error classes the repositories raise. */
  datatype DbErr = RecordNotFound(detail: string) | RecordNotUpdated | Custom(detail: string)

  /** The primary-key column. */
  const KeyColumn := "id"

  /** The value an insert stores for a field: a not-set field takes the column default, null. */
  function Materialized(f: Fields): (row: Row)
    ensures row.Keys == f.Keys
    ensures forall c :: c in f && !f[c].NotSet? ==> row[c] == f[c].value
    ensures forall c :: c in f && f[c].NotSet? ==> row[c] == Null
  {
    map c | c in f :: if f[c].NotSet? then Null else f[c].value
  }

  /** `into_active_model`: every stored value loaded and unchanged. */
  function IntoActive(row: Row): (f: Fields)
    ensures f.Keys == row.Keys
    ensures forall c :: c in row ==> f[c] == Unchanged(row[c])
  {
    map c | c in row :: Unchanged(row[c])
  }

  /** An update writes the set fields over the stored row and leaves the rest as stored. */
  function Written(stored: Row, f: Fields): (row: Row)
    ensures row.Keys == stored.Keys + (set c | c in f && f[c].Set?)
    ensures forall c :: c in f && f[c].Set? ==> row[c] == f[c].value
    ensures forall c :: c in stored && !(c in f && f[c].Set?) ==> row[c] == stored[c]
  {
    map c | c in stored.Keys + (set c | c in f && f[c].Set?) ::
      if c in f && f[c].Set? then f[c].value else stored[c]
  }

  /** Writing back a model loaded from a row, with nothing set, leaves the row as it was. */
  lemma WrittenUnchanged(row: Row)
    ensures Written(row, IntoActive(row)) == row
  {
  }

  /** Every row is stored under the value of its key column. */
  ghost predicate Keyed(rows: map<DbValue, Row>)
  {
    forall k :: k in rows ==> KeyColumn in rows[k] && rows[k][KeyColumn] == k
  }

  /** The rows after inserting the models in order, each under its key value. */
  function InsertedAll(rows: map<DbValue, Row>, fs: seq<Fields>): (r: map<DbValue, Row>)
    requires forall i :: 0 <= i < |fs| ==> KeyColumn in fs[i] && fs[i][KeyColumn].Set?
    ensures forall i :: 0 <= i < |fs| ==> fs[i][KeyColumn].value in r
    ensures forall k :: k in rows ==> k in r
    ensures forall k :: k in r ==> k in rows || exists i :: 0 <= i < |fs| && fs[i][KeyColumn].value == k
    decreases |fs|
  {
    if fs == [] then rows
    else
      var last := fs[|fs| - 1];
      var before := InsertedAll(rows, fs[..|fs| - 1]);
      assert forall i :: 0 <= i < |fs| - 1 ==> fs[..|fs| - 1][i] == fs[i];
      before[last[KeyColumn].value := Materialized(last)]
  }

  /** A row no inserted model is keyed by keeps its stored value. */
  lemma {:induction false} InsertedAllKeepsOthers(rows: map<DbValue, Row>, fs: seq<Fields>)
    requires forall i :: 0 <= i < |fs| ==> KeyColumn in fs[i] && fs[i][KeyColumn].Set?
    ensures forall k :: k in rows && (forall i :: 0 <= i < |fs| ==> fs[i][KeyColumn].value != k) ==>
      InsertedAll(rows, fs)[k] == rows[k]
    decreases |fs|
  {
    if fs != [] {
      var init := fs[..|fs| - 1];
      assert forall i :: 0 <= i < |init| ==> init[i] == fs[i];
      InsertedAllKeepsOthers(rows, init);
    }
  }

  /** Inserting one more model: the rows before it, then its row under its key. */
  lemma InsertedAllSnoc(rows: map<DbValue, Row>, fs: seq<Fields>)
    requires fs != []
    requires forall i :: 0 <= i < |fs| ==> KeyColumn in fs[i] && fs[i][KeyColumn].Set?
    ensures InsertedAll(rows, fs) ==
      InsertedAll(rows, fs[..|fs| - 1])[fs[|fs| - 1][KeyColumn].value := Materialized(fs[|fs| - 1])]
  {
  }

  /** Model `i` is the last one keyed by its key value. */
  ghost predicate LastWithKey(fs: seq<Fields>, i: int)
  {
    && 0 <= i < |fs| && KeyColumn in fs[i]
    && forall j :: i < j < |fs| ==> KeyColumn !in fs[j] || fs[j][KeyColumn] != fs[i][KeyColumn]
  }

  /** Under the key of the last model with that key sits that model's row. */
  lemma {:induction false} InsertedAllStores(rows: map<DbValue, Row>, fs: seq<Fields>, i: nat)
    requires forall i :: 0 <= i < |fs| ==> KeyColumn in fs[i] && fs[i][KeyColumn].Set?
    requires LastWithKey(fs, i)
    ensures InsertedAll(rows, fs)[fs[i][KeyColumn].value] == Materialized(fs[i])
    decreases |fs|
  {
    var init, last := fs[..|fs| - 1], fs[|fs| - 1];
    InsertedAllSnoc(rows, fs);
    if i < |init| {
      assert init[i] == fs[i];
      assert LastWithKey(init, i) by {
        forall j | i < j < |init| ensures KeyColumn !in init[j] || init[j][KeyColumn] != init[i][KeyColumn] {
          assert init[j] == fs[j];
        }
      }
      InsertedAllStores(rows, init, i);
      assert last[KeyColumn] != fs[i][KeyColumn];
    }
  }

  class Table {
    /** The entity's columns, in declaration order. */
    const columns: seq<string>
    var rows: map<DbValue, Row>

    /** Rows are keyed by their key value and hold exactly the table's columns. */
    ghost predicate Valid()
      reads this
    {
      && Keyed(rows)
      && forall k :: k in rows ==> rows[k].Keys == set c | c in columns
    }

    constructor (columns: seq<string>)
      ensures this.columns == columns && rows == map[] && Valid()
    {
      this.columns := columns;
      rows := map[];
    }

    /** `find_by_id(..).one(..)`. */
    method Find(key: DbValue) returns (r: Option<Row>)
      ensures key in rows ==> r == Some(rows[key])
      ensures key !in rows ==> r == None
    {
      r := if key in rows then Some(rows[key]) else None;
    }

    /** `insert`: store the materialized model under its key value and return the stored row. */
    method Insert(f: Fields) returns (row: Row)
      requires Valid() && f.Keys == (set c | c in columns) && KeyColumn in f && f[KeyColumn].Set?
      modifies this
      ensures Valid()
      ensures row == Materialized(f)
      ensures rows == old(rows)[f[KeyColumn].value := row]
    {
      row := Materialized(f);
      rows := rows[f[KeyColumn].value := row];
    }

    /** `update`: write the set fields over the row stored under the model's key value. */
    method Update(f: Fields) returns (r: Result<Row, DbErr>)
      requires Valid() && f.Keys == (set c | c in columns) && KeyColumn in f && !f[KeyColumn].NotSet?
      modifies this
      ensures Valid()
      ensures f[KeyColumn].value !in old(rows) ==> r == Err(RecordNotUpdated) && rows == old(rows)
      ensures f[KeyColumn].value in old(rows) ==>
        && r == Ok(Written(old(rows)[f[KeyColumn].value], f))
        && rows == old(rows)[f[KeyColumn].value := r.value]
    {
      var key := f[KeyColumn].value;
      if key !in rows {
        return Err(RecordNotUpdated);
      }
      var row := Written(rows[key], f);
      rows := rows[key := row];
      r := Ok(row);
    }

    /** `delete`: remove the row under the key value, reporting how many rows went. */
    method Delete(key: DbValue) returns (rowsAffected: nat)
      requires Valid()
      modifies this
      ensures Valid()
      ensures rows == old(rows) - {key}
      ensures rowsAffected == if key in old(rows) then 1 else 0
    {
      rowsAffected := if key in rows then 1 else 0;
      rows := rows - {key};
    }

    /** `insert_many`: the models stored one after another. */
    method InsertMany(fs: seq<Fields>)
      requires Valid()
      requires forall i :: 0 <= i < |fs| ==> fs[i].Keys == (set c | c in columns) && KeyColumn in fs[i] && fs[i][KeyColumn].Set?
      modifies this
      ensures Valid()
      ensures rows == InsertedAll(old(rows), fs)
    {
      for i := 0 to |fs|
        invariant Valid()
        invariant rows == InsertedAll(old(rows), fs[..i])
      {
        assert fs[..i + 1][..i] == fs[..i];
        var _ := Insert(fs[i]);
      }
      assert fs[..|fs|] == fs;
    }
  }
}
