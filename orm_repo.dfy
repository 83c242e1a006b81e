/**
 * The generic ORM repository (libs/db/src/orm/repo.rs): audited create,
 * update and delete over one table, and pagination.
 */
module OrmRepo {
  import opened Wrappers
  import opened Audit
  import opened Store

  /** Who is acting: the id written into the audit columns. */
  datatype DbContext = DbContext(id: string)

  /** `DbContext::system()`. */
  function SystemContext(): (c: DbContext)
    ensures c.id == "system"
  {
    DbContext("system")
  }

  const NotFoundDetail := "Record not found"

  /** The echo of the normalised request and the totals. */
  datatype Pagination = Pagination(currentPage: nat, itemsPerPage: nat, totalItems: nat, totalPages: nat)

  datatype PageResult<T> = PageResult(pagination: Pagination, items: Option<seq<T>>)

  /** `page.unwrap_or(1).max(1)`: never zero, so the fetched index `page - 1` never wraps. */
  function NormalizedPage(page: Option<nat>): (p: nat)
    ensures p >= 1
    ensures page.Some? && page.value >= 1 ==> p == page.value
    ensures page.None? || page.value == 0 ==> p == 1
  {
    if page.Some? && page.value >= 1 then page.value else 1
  }

  const DefaultPageSize: nat := 10
  const MaxPageSize: nat := 100

  /** `items_per_page.unwrap_or(10).clamp(1, 100)`. */
  function NormalizedPageSize(size: Option<nat>): (s: nat)
    ensures 1 <= s <= MaxPageSize
    ensures size.None? ==> s == DefaultPageSize
    ensures size.Some? && 1 <= size.value <= MaxPageSize ==> s == size.value
    ensures size.Some? && size.value == 0 ==> s == 1
    ensures size.Some? && size.value > MaxPageSize ==> s == MaxPageSize
  {
    var s := size.GetOr(DefaultPageSize);
    if s < 1 then 1 else if s > MaxPageSize then MaxPageSize else s
  }

  /** The paginator's page count: whole pages plus one for a remainder. */
  function PageCount(total: nat, size: nat): (n: nat)
    requires size >= 1
    ensures n * size >= total
    ensures n > 0 ==> (n - 1) * size < total
  {
    total / size + (if total % size > 0 then 1 else 0)
  }

  /** The paginator's page `index` (from zero): up to `size` rows, empty past the end. */
  function FetchPage<M>(all: seq<M>, index: nat, size: nat): (r: seq<M>)
    requires size >= 1
    ensures |r| <= size
    ensures index * size >= |all| ==> r == []
    ensures index * size < |all| ==> r == all[index * size .. if (index + 1) * size < |all| then (index + 1) * size else |all|]
  {
    if index * size >= |all| then []
    else all[index * size .. if (index + 1) * size < |all| then (index + 1) * size else |all|]
  }

  /**
   * `paginate_query` over the rows the selector yields: the normalised page
   * and size, the totals, and the mapped rows of page `page - 1`.
   */
  function PaginateQuery<M, T>(all: seq<M>, page: Option<nat>, size: Option<nat>, mapFn: M -> T): (r: PageResult<T>)
    ensures r.pagination.currentPage == NormalizedPage(page)
    ensures r.pagination.itemsPerPage == NormalizedPageSize(size)
    ensures r.pagination.totalItems == |all|
    ensures r.pagination.totalPages == PageCount(|all|, NormalizedPageSize(size))
    ensures r.items.Some?
    ensures var rows := FetchPage(all, NormalizedPage(page) - 1, NormalizedPageSize(size));
      |r.items.value| == |rows| && forall i :: 0 <= i < |rows| ==> r.items.value[i] == mapFn(rows[i])
  {
    var current := NormalizedPage(page);
    var perPage := NormalizedPageSize(size);
    var rows := FetchPage(all, current - 1, perPage);
    PageResult(Pagination(current, perPage, |all|, PageCount(|all|, perPage)),
               Some(seq(|rows|, i requires 0 <= i < |rows| => mapFn(rows[i]))))
  }

  /** Every row is on exactly one page: row `i` is item `i % size` of page `i / size + 1`, which exists. */
  lemma EveryRowOnItsPage<M>(all: seq<M>, size: nat, i: nat)
    requires size >= 1 && i < |all|
    ensures i / size + 1 <= PageCount(|all|, size)
    ensures var rows := FetchPage(all, i / size, size); i % size < |rows| && rows[i % size] == all[i]
  {
    RowPageExists(|all|, size, i);
    var q, m := i / size, i % size;
    DivBounds(i, size);
    var lo := q * size;
    var hi := if (q + 1) * size < |all| then (q + 1) * size else |all|;
    assert lo + m == i && i < hi;
    var rows := FetchPage(all, q, size);
    assert rows == all[lo .. hi];
    assert rows[m] == all[lo + m];
  }

  /** The page of row `i` is within the page count. */
  lemma RowPageExists(total: nat, size: nat, i: nat)
    requires size >= 1 && i < total
    ensures i / size + 1 <= PageCount(total, size)
  {
    var q := i / size;
    DivBounds(i, size);
    var n := PageCount(total, size);
    if n <= q {
      MulMonotone(n, q, size);
      assert false;
    }
  }

  lemma DivBounds(i: nat, size: nat)
    requires size >= 1
    ensures (i / size) * size <= i < (i / size + 1) * size
    ensures i == (i / size) * size + i % size
  {
  }

  lemma MulMonotone(a: nat, b: nat, size: nat)
    requires a <= b
    ensures a * size <= b * size
  {
  }

  /** The offset of the first row of page `p`, counting pages from one. */
  function PageOffset(p: nat, size: nat): nat
    requires p >= 1
  {
    (p - 1) * size
  }

  /**
   * The requested page `p` (from one) holds the mapped rows from its offset
   * on, at most `size` of them; a page within the page count is never empty,
   * and one past it is.
   */
  lemma RequestedPage<M, T>(all: seq<M>, p: nat, size: nat, mapFn: M -> T)
    requires p >= 1 && 1 <= size <= MaxPageSize
    ensures PaginateQuery(all, Some(p), Some(size), mapFn).items.Some?
    ensures var items := PaginateQuery(all, Some(p), Some(size), mapFn).items.value;
      && |items| <= size
      && (p <= PageCount(|all|, size) <==> items != [])
      && forall k :: 0 <= k < |items| ==> PageOffset(p, size) + k < |all| && items[k] == mapFn(all[PageOffset(p, size) + k])
  {
    assert NormalizedPage(Some(p)) == p && NormalizedPageSize(Some(size)) == size;
    var rows := FetchPage(all, p - 1, size);
    FetchedRows(all, p - 1, size);
    PageWithinCount(|all|, size, p);
    assert PageOffset(p, size) == (p - 1) * size;
  }

  /** Page `index` from zero holds the rows from offset `index * size` on, and is empty only past the end. */
  lemma FetchedRows<M>(all: seq<M>, index: nat, size: nat)
    requires size >= 1
    ensures var rows := FetchPage(all, index, size);
      && (rows == [] <==> index * size >= |all|)
      && forall k :: 0 <= k < |rows| ==> index * size + k < |all| && rows[k] == all[index * size + k]
  {
    var lo := index * size;
    if lo < |all| {
      var hi := if (index + 1) * size < |all| then (index + 1) * size else |all|;
      assert lo < hi by {
        MulMonotone(index, index + 1, size);
        assert (index + 1) * size == lo + size;
      }
    }
  }

  /** Page `p` (from one) is within the page count exactly when its first row exists. */
  lemma PageWithinCount(total: nat, size: nat, p: nat)
    requires p >= 1 && size >= 1
    ensures p <= PageCount(total, size) <==> (p - 1) * size < total
  {
    var n := PageCount(total, size);
    if p <= n {
      MulMonotone(p - 1, n - 1, size);
    } else {
      MulMonotone(n, p - 1, size);
    }
  }

  /**
   * The row an update writes: the caller's edits, then the audit pair, over
   * what was stored; the audit pair wins over an edit of the same column.
   */
  lemma UpdateOutcome(row: Row, edits: map<string, DbValue>, user: string, now: int)
    requires UpdatedAt in row && UpdatedBy in row
    ensures var w := Written(row, UpdateAudited(Edited(IntoActive(row), edits), user, now));
      && w.Keys == row.Keys
      && w[UpdatedAt] == Time(now) && w[UpdatedBy] == Text(user)
      && (forall c :: c in row && c in edits && c != UpdatedAt && c != UpdatedBy ==> w[c] == edits[c])
      && (forall c :: c in row && c !in edits ==> c == UpdatedAt || c == UpdatedBy || w[c] == row[c])
  {
  }

  /** An entity that can take the create audit and be inserted into a table with these columns. */
  ghost predicate Ready(e: ActiveModel, columns: seq<string>)
    reads e
  {
    e.columns == columns && Insertable(e.fields, columns)
  }

  /** Fields that fill every column of the table and set its key. */
  ghost predicate Insertable(f: Fields, columns: seq<string>)
  {
    f.Keys == (set c | c in columns) && KeyColumn in f && f[KeyColumn].Set?
  }

  /** The create audit keeps an entity ready for insertion: its key column is untouched. */
  method FillCreated(e: ActiveModel, columns: seq<string>, user: string, now: int)
    requires Ready(e, columns) && CreatedAt in columns && CreatedBy in columns
    modifies e
    ensures Ready(e, columns)
    ensures e.fields == CreateAudited(old(e.fields), columns, user, now)
  {
    e.FillCreateAudit(user, now);
    assert KeyColumn !in {CreatedAt, CreatedBy, UpdatedAt, UpdatedBy};
  }

  class Repository {
    const db: Table

    constructor (db: Table)
      ensures this.db == db
    {
      this.db := db;
    }

    /** `create`: fill the create audit with the context's id, then insert. */
    method Create(ctx: DbContext, entity: ActiveModel, now: int) returns (row: Row)
      requires db.Valid() && entity.Valid() && entity.columns == db.columns
      requires CreatedAt in entity.columns && CreatedBy in entity.columns
      requires KeyColumn in entity.fields && entity.fields[KeyColumn].Set?
      modifies entity, db
      ensures entity.Valid() && db.Valid()
      ensures entity.fields == CreateAudited(old(entity.fields), entity.columns, ctx.id, now)
      ensures row == Materialized(entity.fields)
      ensures db.rows == old(db.rows)[old(entity.fields)[KeyColumn].value := row]
    {
      entity.FillCreateAudit(ctx.id, now);
      row := db.Insert(entity.fields);
    }

    /** `create_many`: fill the create audit on every entity, then insert them all; `stored` is what was inserted. */
    method CreateMany(ctx: DbContext, entities: seq<ActiveModel>, now: int) returns (stored: seq<Fields>)
      requires db.Valid() && CreatedAt in db.columns && CreatedBy in db.columns
      requires forall i, j :: 0 <= i < j < |entities| ==> entities[i] != entities[j]
      requires forall i :: 0 <= i < |entities| ==> Ready(entities[i], db.columns)
      modifies entities, db
      ensures db.Valid()
      ensures |stored| == |entities|
      ensures forall i :: 0 <= i < |entities| ==>
        && Ready(entities[i], db.columns)
        && stored[i] == entities[i].fields
        && entities[i].fields == CreateAudited(old(entities[i].fields), db.columns, ctx.id, now)
      ensures forall i :: 0 <= i < |stored| ==> KeyColumn in stored[i] && stored[i][KeyColumn].Set?
      ensures db.rows == InsertedAll(old(db.rows), stored)
    {
      stored := [];
      for i := 0 to |entities|
        invariant |stored| == i
        invariant forall j :: 0 <= j < i ==>
          && Ready(entities[j], db.columns)
          && stored[j] == entities[j].fields
          && entities[j].fields == CreateAudited(old(entities[j].fields), db.columns, ctx.id, now)
        invariant forall j :: i <= j < |entities| ==> entities[j].fields == old(entities[j].fields)
        invariant db.rows == old(db.rows)
      {
        var e := entities[i];
        assert forall j :: 0 <= j < |entities| && j != i ==> entities[j] != e;
        FillCreated(e, db.columns, ctx.id, now);
        stored := stored + [e.fields];
      }
      db.InsertMany(stored);
    }

    /**
     * `update`: load the row, apply the caller's edits, fill the update
     * audit, then write back. A missing row is `RecordNotFound` and nothing
     * is written.
     */
    method Update(ctx: DbContext, key: DbValue, edits: map<string, DbValue>, now: int) returns (r: Result<Row, DbErr>)
      requires db.Valid() && UpdatedAt in db.columns && UpdatedBy in db.columns
      modifies db
      ensures db.Valid()
      ensures key !in old(db.rows) ==> r == Err(RecordNotFound(NotFoundDetail)) && db.rows == old(db.rows)
      ensures key in old(db.rows) ==>
        var f := UpdateAudited(Edited(IntoActive(old(db.rows)[key]), edits), ctx.id, now);
        var target := f[KeyColumn].value;
        && (KeyColumn !in edits ==> target == key)
        && (target in old(db.rows) ==> r == Ok(Written(old(db.rows)[target], f)) && db.rows == old(db.rows)[target := r.value])
        && (target !in old(db.rows) ==> r == Err(RecordNotUpdated) && db.rows == old(db.rows))
    {
      var found := db.Find(key);
      if found.None? {
        return Err(RecordNotFound(NotFoundDetail));
      }
      var model := new ActiveModel(db.columns, IntoActive(found.value));
      model.Assign(edits);
      model.FillUpdateAudit(ctx.id, now);
      UpdateKeepsKeyColumn(found.value, edits, ctx.id, now);
      r := db.Update(model.fields);
    }

    /**
     * `delete`: load the row; an entity with a deletion column is
     * soft-deleted (audit filled, written back, one row affected), any other
     * is removed. A missing row is `RecordNotFound` and nothing changes.
     */
    method Delete(ctx: DbContext, key: DbValue, now: int) returns (r: Result<nat, DbErr>)
      requires db.Valid()
      modifies db
      ensures db.Valid()
      ensures key !in old(db.rows) ==> r == Err(RecordNotFound(NotFoundDetail)) && db.rows == old(db.rows)
      ensures key in old(db.rows) && SoftDeletable(db.columns) ==>
        && r == Ok(1)
        && db.rows == old(db.rows)[key := Written(old(db.rows)[key], DeleteAudited(IntoActive(old(db.rows)[key]), db.columns, ctx.id, now))]
      ensures key in old(db.rows) && !SoftDeletable(db.columns) ==> r == Ok(1) && db.rows == old(db.rows) - {key}
    {
      var found := db.Find(key);
      if found.None? {
        return Err(RecordNotFound(NotFoundDetail));
      }
      var model := new ActiveModel(db.columns, IntoActive(found.value));
      var soft := model.ShouldBeSoft();
      if !soft {
        var n := db.Delete(key);
        return Ok(n);
      }
      model.FillDeleteAudit(ctx.id, now);
      DeleteKeepsKeyColumn(found.value, db.columns, ctx.id, now);
      // The row is present, so the write-back cannot report `RecordNotUpdated`.
      var written := db.Update(model.fields);
      assert written.Ok?;
      return Ok(1);
    }
  }

  /** Edits and the update audit keep the key column present and loaded from the row or set. */
  lemma UpdateKeepsKeyColumn(row: Row, edits: map<string, DbValue>, user: string, now: int)
    requires KeyColumn in row
    ensures var f := UpdateAudited(Edited(IntoActive(row), edits), user, now);
      KeyColumn in f && !f[KeyColumn].NotSet?
      && (KeyColumn !in edits ==> f[KeyColumn] == Unchanged(row[KeyColumn]))
  {
  }

  /** The delete audit never touches the key column. */
  lemma DeleteKeepsKeyColumn(row: Row, columns: seq<string>, user: string, now: int)
    requires KeyColumn in row
    ensures var f := DeleteAudited(IntoActive(row), columns, user, now);
      KeyColumn in f && f[KeyColumn] == Unchanged(row[KeyColumn])
  {
  }
}
