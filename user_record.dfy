/**
 * The `users` table entity (crates/adapters/src/database/entities/user.rs)
 * and its conversions to and from the core user.
 */
module UserRecord {
  import opened Wrappers
  import opened Audit
  import opened Store
  import opened Domain

  /** A stored `users` row: the user's fields and the audit columns; instants are clock ticks. */
  datatype Model = Model(
    id: string,
    username: string,
    email: string,
    active: bool,
    createdAt: int,
    createdBy: string,
    updatedAt: Option<int>,
    updatedBy: Option<string>)

  /** The table's columns, in declaration order. */
  const UserColumns: seq<string> := ["id", "username", "email", "active", "created_at", "created_by", "updated_at", "updated_by"]

  /** `From<Model> for User`: the user's four fields, the audit columns dropped. */
  function ToUser(m: Model): (u: User)
    ensures u.id == m.id && u.username == m.username && u.email == m.email && u.active == m.active
  {
    User(m.id, m.username, m.email, m.active)
  }

  /** The audit columns have no say in the user a row converts to. */
  lemma ToUserIgnoresAudit(m1: Model, m2: Model)
    requires m1.id == m2.id && m1.username == m2.username && m1.email == m2.email && m1.active == m2.active
    ensures ToUser(m1) == ToUser(m2)
  {
  }

  /** `From<User> for ActiveModel`: the four user fields set, everything else left at its default, not set. */
  function FromUser(u: User): (f: Fields)
    ensures f.Keys == set c | c in UserColumns
    ensures f["id"] == Set(Text(u.id)) && f["username"] == Set(Text(u.username))
    ensures f["email"] == Set(Text(u.email)) && f["active"] == Set(Flag(u.active))
    ensures forall c :: c in f && IsAuditColumn(c) ==> f[c] == NotSet
  {
    map[
      "id" := Set(Text(u.id)), "username" := Set(Text(u.username)),
      "email" := Set(Text(u.email)), "active" := Set(Flag(u.active)),
      CreatedAt := NotSet, CreatedBy := NotSet, UpdatedAt := NotSet, UpdatedBy := NotSet]
  }

  /** The user held by the four user fields of an active model, when they are set with the right kinds. */
  function ReadBack(f: Fields): Option<User>
  {
    if && "id" in f && f["id"].Set? && f["id"].value.Text?
       && "username" in f && f["username"].Set? && f["username"].value.Text?
       && "email" in f && f["email"].Set? && f["email"].value.Text?
       && "active" in f && f["active"].Set? && f["active"].value.Flag?
    then Some(User(f["id"].value.s, f["username"].value.s, f["email"].value.s, f["active"].value.b))
    else None
  }

  /** Converting a user to an active model and reading the set fields back gives the same user. */
  lemma FromUserReadBack(u: User)
    ensures ReadBack(FromUser(u)) == Some(u)
  {
  }

  /** The model a stored row decodes to, when every column holds a value of its kind. */
  function RowModel(row: Row): Option<Model>
  {
    if && "id" in row && row["id"].Text?
       && "username" in row && row["username"].Text?
       && "email" in row && row["email"].Text?
       && "active" in row && row["active"].Flag?
       && CreatedAt in row && row[CreatedAt].Time?
       && CreatedBy in row && row[CreatedBy].Text?
       && UpdatedAt in row && (row[UpdatedAt].Time? || row[UpdatedAt].Null?)
       && UpdatedBy in row && (row[UpdatedBy].Text? || row[UpdatedBy].Null?)
    then Some(Model(row["id"].s, row["username"].s, row["email"].s, row["active"].b,
                    row[CreatedAt].t, row[CreatedBy].s,
                    if row[UpdatedAt].Time? then Some(row[UpdatedAt].t) else None,
                    if row[UpdatedBy].Text? then Some(row[UpdatedBy].s) else None))
    else None
  }

  /** The `users` table has no deletion column, so the generic repository deletes its rows outright. */
  lemma UsersAreHardDeleted()
    ensures !SoftDeletable(UserColumns)
  {
  }

  /**
   * Creating a user through the audited insert stores a row that decodes to
   * the same user, created and last updated by the acting user at the same
   * instant.
   */
  lemma CreatedUserRow(u: User, actor: string, now: int)
    ensures var m := RowModel(Materialized(CreateAudited(FromUser(u), UserColumns, actor, now)));
      && m.Some?
      && ToUser(m.value) == u
      && m.value.createdAt == now && m.value.createdBy == actor
      && m.value.updatedAt == Some(now) && m.value.updatedBy == Some(actor)
  {
    var f := CreateAudited(FromUser(u), UserColumns, actor, now);
    CreateAuditValues(FromUser(u), UserColumns, actor, now);
    assert UpdatedAt in UserColumns && UpdatedBy in UserColumns;
    var row := Materialized(f);
    assert row["id"] == Text(u.id) && row["username"] == Text(u.username);
    assert row["email"] == Text(u.email) && row["active"] == Flag(u.active);
    assert row[CreatedAt] == Time(now) && row[CreatedBy] == Text(actor);
    assert row[UpdatedAt] == Time(now) && row[UpdatedBy] == Text(actor);
  }
}
