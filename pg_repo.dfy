/**
 * The Postgres adapter's repository (crates/adapters/src/persistence/postgres/repo.rs):
 * the same audited operations as the generic repository, guarded by an
 * authenticated user taken from the handler context. Its `paginate_query`
 * is the generic repository's, `OrmRepo.PaginateQuery`.
 */
module PgRepo {
  import opened Wrappers
  import opened Audit
  import opened Store
  import opened OrmRepo

  datatype UserInfo = UserInfo(id: string)

  /** The request's context: the authenticated user, if any. */
  datatype HandlerContext = HandlerContext(user: Option<UserInfo>)

  /** `authenticated_user`. */
  function AuthenticatedUser(ctx: HandlerContext): Option<UserInfo>
  {
    ctx.user
  }

  /** A context built with `new` hands back exactly the user it was built with. */
  lemma AuthenticatedUserOfNew(user: Option<UserInfo>)
    ensures AuthenticatedUser(HandlerContext(user)) == user
  {
  }

  const UserRequired := "user required for this operation"

  /** The guard every write runs first. */
  function RequireUser(ctx: HandlerContext): (r: Result<UserInfo, DbErr>)
    ensures ctx.user.None? ==> r == Err(Custom(UserRequired))
    ensures ctx.user.Some? ==> r == Ok(ctx.user.value)
  {
    match AuthenticatedUser(ctx)
    case None => Err(Custom(UserRequired))
    case Some(u) => Ok(u)
  }

  class PgRepository {
    const db: Table

    constructor (db: Table)
      ensures this.db == db
    {
      this.db := db;
    }

    /** `create`: guard, fill the create audit with the user's id, insert. */
    method Create(ctx: HandlerContext, entity: ActiveModel, now: int) returns (r: Result<Row, DbErr>)
      requires db.Valid() && Ready(entity, db.columns)
      requires CreatedAt in entity.columns && CreatedBy in entity.columns
      modifies entity, db
      ensures entity.Valid() && db.Valid()
      ensures ctx.user.None? ==> r == Err(Custom(UserRequired)) && entity.fields == old(entity.fields) && db.rows == old(db.rows)
      ensures ctx.user.Some? ==>
        && entity.fields == CreateAudited(old(entity.fields), entity.columns, ctx.user.value.id, now)
        && r == Ok(Materialized(entity.fields))
        && db.rows == old(db.rows)[old(entity.fields)[KeyColumn].value := r.value]
    {
      var user :- RequireUser(ctx);
      entity.FillCreateAudit(user.id, now);
      var row := db.Insert(entity.fields);
      return Ok(row);
    }

    /** `update`: guard, load, the caller's edits, the update audit with the user's id, write back. */
    method Update(ctx: HandlerContext, key: DbValue, edits: map<string, DbValue>, now: int) returns (r: Result<Row, DbErr>)
      requires db.Valid() && UpdatedAt in db.columns && UpdatedBy in db.columns
      modifies db
      ensures db.Valid()
      ensures ctx.user.None? ==> r == Err(Custom(UserRequired)) && db.rows == old(db.rows)
      ensures ctx.user.Some? && key !in old(db.rows) ==> r == Err(RecordNotFound(NotFoundDetail)) && db.rows == old(db.rows)
      ensures ctx.user.Some? && key in old(db.rows) ==>
        var f := UpdateAudited(Edited(IntoActive(old(db.rows)[key]), edits), ctx.user.value.id, now);
        var target := f[KeyColumn].value;
        && (KeyColumn !in edits ==> target == key)
        && (target in old(db.rows) ==> r == Ok(Written(old(db.rows)[target], f)) && db.rows == old(db.rows)[target := r.value])
        && (target !in old(db.rows) ==> r == Err(RecordNotUpdated) && db.rows == old(db.rows))
    {
      var user :- RequireUser(ctx);
      var found := db.Find(key);
      if found.None? {
        return Err(RecordNotFound(NotFoundDetail));
      }
      var model := new ActiveModel(db.columns, IntoActive(found.value));
      model.Assign(edits);
      model.FillUpdateAudit(user.id, now);
      UpdateKeepsKeyColumn(found.value, edits, user.id, now);
      r := db.Update(model.fields);
    }

    /**
     * `delete`: guard, load, fill the delete audit with the user's id, and
     * write the model back as an update; the row is never removed, and the
     * written row is returned.
     */
    method Delete(ctx: HandlerContext, key: DbValue, now: int) returns (r: Result<Row, DbErr>)
      requires db.Valid()
      modifies db
      ensures db.Valid()
      ensures ctx.user.None? ==> r == Err(Custom(UserRequired)) && db.rows == old(db.rows)
      ensures ctx.user.Some? && key !in old(db.rows) ==> r == Err(RecordNotFound(NotFoundDetail)) && db.rows == old(db.rows)
      ensures ctx.user.Some? && key in old(db.rows) ==>
        var written := Written(old(db.rows)[key], DeleteAudited(IntoActive(old(db.rows)[key]), db.columns, ctx.user.value.id, now));
        r == Ok(written) && db.rows == old(db.rows)[key := written]
      ensures ctx.user.Some? && key in old(db.rows) && !SoftDeletable(db.columns) ==> db.rows == old(db.rows)
    {
      var user :- RequireUser(ctx);
      var found := db.Find(key);
      if found.None? {
        return Err(RecordNotFound(NotFoundDetail));
      }
      var model := new ActiveModel(db.columns, IntoActive(found.value));
      model.FillDeleteAudit(user.id, now);
      DeleteKeepsKeyColumn(found.value, db.columns, user.id, now);
      DeleteAuditValues(IntoActive(found.value), db.columns, user.id, now);
      WrittenUnchanged(found.value);
      r := db.Update(model.fields);
    }
  }
}
