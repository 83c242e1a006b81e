/**
 * Audit-field filling on an ORM active model (libs/db/src/orm/audit.rs, and
 * the identical creatable/updatable bodies in
 * crates/adapters/src/persistence/postgres/repo.rs). An active model is a
 * record from column name to an active value; the entity's columns, in
 * declaration order, drive the loops.
 */
module Audit {
  /** A database value; instants are abstract ticks of the clock. */
  datatype DbValue = Null | Text(s: string) | Time(t: int) | Flag(b: bool)

  /** sea_orm's active value: not set, loaded and unchanged, or set to be written. */
  datatype ActiveValue<T> = NotSet | Unchanged(value: T) | Set(value: T)

  type Fields = map<string, ActiveValue<DbValue>>

  const CreatedAt := "created_at"
  const CreatedBy := "created_by"
  const UpdatedAt := "updated_at"
  const UpdatedBy := "updated_by"
  const DeletedAt := "deleted_at"
  const DeletedBy := "deleted_by"

  /**
   * Walk the columns in order and set each one that `wanted` names to its
   * wanted value; every other field is left alone.
   */
  function Stamp(f: Fields, columns: seq<string>, wanted: map<string, DbValue>): (r: Fields)
    ensures forall c :: c in wanted && c in columns ==> c in r && r[c] == Set(wanted[c])
    ensures forall c :: !(c in wanted && c in columns) ==> (c in r <==> c in f) && (c in f ==> r[c] == f[c])
    ensures r.Keys == f.Keys + (set c | c in wanted && c in columns)
    decreases |columns|
  {
    if columns == [] then f
    else
      var before := Stamp(f, columns[..|columns| - 1], wanted);
      var c := columns[|columns| - 1];
      assert forall x :: x in columns ==> x in columns[..|columns| - 1] || x == c;
      if c in wanted then before[c := Set(wanted[c])] else before
  }

  /** Stamping one more column: the columns before it, then that column if it is wanted. */
  lemma StampSnoc(f: Fields, columns: seq<string>, c: string, wanted: map<string, DbValue>)
    ensures Stamp(f, columns + [c], wanted) ==
      if c in wanted then Stamp(f, columns, wanted)[c := Set(wanted[c])] else Stamp(f, columns, wanted)
  {
    assert (columns + [c])[..|columns|] == columns;
  }

  /** `fill_create_audit`: the creation pair, then the update pair wherever the entity has those columns. */
  function CreateAudited(f: Fields, columns: seq<string>, user: string, now: int): Fields
  {
    Stamp(f[CreatedAt := Set(Time(now))][CreatedBy := Set(Text(user))], columns,
          map[UpdatedAt := Time(now), UpdatedBy := Text(user)])
  }

  /** The create audit of a full model is still a full model. */
  lemma CreateAuditedKeys(f: Fields, columns: seq<string>, user: string, now: int)
    requires f.Keys == (set c | c in columns) && CreatedAt in columns && CreatedBy in columns
    ensures CreateAudited(f, columns, user, now).Keys == set c | c in columns
  {
    var g := f[CreatedAt := Set(Time(now))][CreatedBy := Set(Text(user))];
    assert g.Keys == f.Keys;
    var wanted := map[UpdatedAt := Time(now), UpdatedBy := Text(user)];
    assert (set c | c in wanted && c in columns) <= g.Keys;
  }

  /** `fill_update_audit`: the update pair, always. */
  function UpdateAudited(f: Fields, user: string, now: int): Fields
  {
    f[UpdatedAt := Set(Time(now))][UpdatedBy := Set(Text(user))]
  }

  /** `fill_delete_audit`: the deletion pair wherever the entity has those columns. */
  function DeleteAudited(f: Fields, columns: seq<string>, user: string, now: int): Fields
  {
    Stamp(f, columns, map[DeletedAt := Time(now), DeletedBy := Text(user)])
  }

  /** `should_be_soft`: an entity is soft-deleted when it has a deletion column. */
  predicate SoftDeletable(columns: seq<string>)
  {
    DeletedAt in columns || DeletedBy in columns
  }

  predicate IsAuditColumn(c: string)
  {
    c in {CreatedAt, CreatedBy, UpdatedAt, UpdatedBy, DeletedAt, DeletedBy}
  }

  /**
   * The create audit always sets `created_at`/`created_by`, sets
   * `updated_at`/`updated_by` to the same instant and user exactly where
   * those columns exist, and changes no other field.
   */
  lemma CreateAuditValues(f: Fields, columns: seq<string>, user: string, now: int)
    ensures var r := CreateAudited(f, columns, user, now);
      && r[CreatedAt] == Set(Time(now)) && r[CreatedBy] == Set(Text(user))
      && (UpdatedAt in columns ==> r[UpdatedAt] == Set(Time(now)))
      && (UpdatedBy in columns ==> r[UpdatedBy] == Set(Text(user)))
      && (UpdatedAt !in columns ==> (UpdatedAt in r <==> UpdatedAt in f) && (UpdatedAt in f ==> r[UpdatedAt] == f[UpdatedAt]))
      && (UpdatedBy !in columns ==> (UpdatedBy in r <==> UpdatedBy in f) && (UpdatedBy in f ==> r[UpdatedBy] == f[UpdatedBy]))
      && (forall c :: c in f && !IsAuditColumn(c) ==> c in r && r[c] == f[c])
  {
  }

  /** The delete audit sets the deletion pair exactly where those columns exist and changes nothing else. */
  lemma DeleteAuditValues(f: Fields, columns: seq<string>, user: string, now: int)
    ensures var r := DeleteAudited(f, columns, user, now);
      && (DeletedAt in columns ==> r[DeletedAt] == Set(Time(now)))
      && (DeletedBy in columns ==> r[DeletedBy] == Set(Text(user)))
      && (forall c :: c != DeletedAt && c != DeletedBy ==> (c in r <==> c in f) && (c in f ==> r[c] == f[c]))
      && (!SoftDeletable(columns) ==> r == f)
  {
    var r := DeleteAudited(f, columns, user, now);
    if !SoftDeletable(columns) {
      assert r.Keys == f.Keys;
    }
  }

  /** The fields after a caller assigns the edited columns; edits to unknown columns have no effect. */
  function Edited(f: Fields, edits: map<string, DbValue>): (r: Fields)
    ensures r.Keys == f.Keys
    ensures forall c :: c in edits && c in f ==> r[c] == Set(edits[c])
    ensures forall c :: c in f && c !in edits ==> r[c] == f[c]
  {
    map c | c in f :: if c in edits then Set(edits[c]) else f[c]
  }

  /** An entity record being filled in place; its fields always cover exactly its columns. */
  class ActiveModel {
    const columns: seq<string>
    var fields: Fields

    ghost predicate Valid()
      reads this
    {
      fields.Keys == set c | c in columns
    }

    constructor (columns: seq<string>, fields: Fields)
      requires fields.Keys == set c | c in columns
      ensures this.columns == columns && this.fields == fields
      ensures Valid()
    {
      this.columns := columns;
      this.fields := fields;
    }

    /** `fill_create_audit`; the macro only applies to entities with the creation columns. */
    method FillCreateAudit(user: string, now: int)
      requires Valid() && CreatedAt in columns && CreatedBy in columns
      modifies this
      ensures Valid()
      ensures fields == CreateAudited(old(fields), columns, user, now)
    {
      fields := fields[CreatedAt := Set(Time(now))][CreatedBy := Set(Text(user))];
      ghost var start := fields;
      var wanted := map[UpdatedAt := Time(now), UpdatedBy := Text(user)];
      for i := 0 to |columns|
        invariant fields == Stamp(start, columns[..i], wanted)
      {
        assert columns[..i + 1] == columns[..i] + [columns[i]];
        StampSnoc(start, columns[..i], columns[i], wanted);
        if columns[i] == UpdatedAt {
          fields := fields[UpdatedAt := Set(Time(now))];
        } else if columns[i] == UpdatedBy {
          fields := fields[UpdatedBy := Set(Text(user))];
        }
      }
      assert columns[..|columns|] == columns;
      CreateAuditedKeys(old(fields), columns, user, now);
    }

    /** `fill_update_audit`; the macro only applies to entities with the update columns. */
    method FillUpdateAudit(user: string, now: int)
      requires Valid() && UpdatedAt in columns && UpdatedBy in columns
      modifies this
      ensures Valid()
      ensures fields == UpdateAudited(old(fields), user, now)
    {
      fields := fields[UpdatedAt := Set(Time(now))][UpdatedBy := Set(Text(user))];
    }

    /** `fill_delete_audit`, column by column. */
    method FillDeleteAudit(user: string, now: int)
      requires Valid()
      modifies this
      ensures Valid()
      ensures fields == DeleteAudited(old(fields), columns, user, now)
    {
      ghost var start := fields;
      var wanted := map[DeletedAt := Time(now), DeletedBy := Text(user)];
      for i := 0 to |columns|
        invariant fields == Stamp(start, columns[..i], wanted)
      {
        assert columns[..i + 1] == columns[..i] + [columns[i]];
        StampSnoc(start, columns[..i], columns[i], wanted);
        if columns[i] == DeletedAt {
          fields := fields[DeletedAt := Set(Time(now))];
        } else if columns[i] == DeletedBy {
          fields := fields[DeletedBy := Set(Text(user))];
        }
      }
      assert columns[..|columns|] == columns;
    }

    /** `should_be_soft`: scan the columns, stopping at the first deletion column. */
    method ShouldBeSoft() returns (soft: bool)
      ensures soft <==> SoftDeletable(columns)
    {
      soft := false;
      var i := 0;
      while i < |columns|
        invariant 0 <= i <= |columns|
        invariant !soft ==> DeletedAt !in columns[..i] && DeletedBy !in columns[..i]
        invariant soft ==> SoftDeletable(columns)
      {
        if columns[i] == DeletedAt || columns[i] == DeletedBy {
          soft := true;
          break;
        }
        i := i + 1;
      }
      assert !soft ==> columns[..i] == columns;
    }

    /** A caller's `fill_values` edit, as assignments to existing columns. */
    method Assign(edits: map<string, DbValue>)
      requires Valid()
      modifies this
      ensures Valid()
      ensures fields == Edited(old(fields), edits)
    {
      fields := map c | c in fields :: if c in edits then Set(edits[c]) else fields[c];
    }
  }
}
