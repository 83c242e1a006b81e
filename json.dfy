/**
 * The JSON value tree the configuration loader keeps, with the serde_json
 * semantics the loader relies on: reading a key of a non-object gives null,
 * writing a key of null first turns it into an empty object, and writing a
 * key of any other non-object panics.
 */
module Json {
  import opened Wrappers

  /** A number: an integer, or a finite floating-point value. */
  datatype Number = Int(i: int) | Float(x: real)

  datatype Json =
    | Null
    | Bool(b: bool)
    | Num(n: Number)
    | Str(s: string)
    | Arr(items: seq<Json>)
    | Obj(fields: map<string, Json>)

  /** `value[key]` on a shared reference: the field of an object, null otherwise. */
  function Index(v: Json, key: string): (r: Json)
    ensures v.Obj? && key in v.fields ==> r == v.fields[key]
    ensures !(v.Obj? && key in v.fields) ==> r == Null
  {
    if v.Obj? && key in v.fields then v.fields[key] else Null
  }

  /** The value at a path of keys; null as soon as a step finds nothing. */
  function Lookup(v: Json, path: seq<string>): Json
    decreases |path|
  {
    if path == [] then v else Lookup(Index(v, path[0]), path[1..])
  }

  /** Nothing is found below null. */
  lemma {:induction false} LookupNull(path: seq<string>)
    ensures Lookup(Null, path) == Null
    decreases |path|
  {
    if path != [] {
      LookupNull(path[1..]);
    }
  }

  /** Whether a key can be written into a value without panicking. */
  predicate Writable(v: Json)
  {
    v.Null? || v.Obj?
  }

  /** The fields of a writable value; null counts as the empty object. */
  function FieldsOf(v: Json): map<string, Json>
  {
    if v.Obj? then v.fields else map[]
  }

  /**
   * Assign `val` at `path` the way `Loader::set` does: a missing or null
   * intermediate becomes an empty object, and the walk goes on into the
   * existing value otherwise. `None` stands for the panic raised when a key
   * must be written into a value that is neither null nor an object.
   */
  function SetPath(v: Json, path: seq<string>, val: Json): Option<Json>
    decreases |path|
  {
    if path == [] then Some(v)
    else if !Writable(v) then None
    else if |path| == 1 then Some(Obj(FieldsOf(v)[path[0] := val]))
    else
      var child := Index(v, path[0]);
      match SetPath(if child.Null? then Obj(map[]) else child, path[1..], val)
      case None => None
      case Some(sub) => Some(Obj(FieldsOf(v)[path[0] := sub]))
  }

  /** After a successful assignment, reading the same path gives the assigned value. */
  lemma {:induction false} SetThenLookup(v: Json, path: seq<string>, val: Json)
    requires |path| >= 1
    requires SetPath(v, path, val).Some?
    ensures Lookup(SetPath(v, path, val).value, path) == val
    decreases |path|
  {
    if |path| > 1 {
      var child := Index(v, path[0]);
      SetThenLookup(if child.Null? then Obj(map[]) else child, path[1..], val);
    }
  }

  lemma {:induction false} LookupEmptyObj(path: seq<string>)
    ensures path == [] ==> Lookup(Obj(map[]), path) == Obj(map[])
    ensures path != [] ==> Lookup(Obj(map[]), path) == Null
  {
    if path != [] {
      LookupNull(path[1..]);
    }
  }

  /**
   * The assignment succeeds exactly when every value met on the way down,
   * the root included, is null or an object.
   */
  lemma {:induction false} SetPathSucceeds(v: Json, path: seq<string>, val: Json)
    requires |path| >= 1
    ensures SetPath(v, path, val).Some? <==> forall i :: 0 <= i < |path| ==> Writable(Lookup(v, path[..i]))
    decreases |path|
  {
    assert path[..0] == [];
    if |path| > 1 && Writable(v) {
      var child := Index(v, path[0]);
      var next := if child.Null? then Obj(map[]) else child;
      SetPathSucceeds(next, path[1..], val);
      forall i | 1 <= i < |path|
        ensures Writable(Lookup(v, path[..i])) <==> Writable(Lookup(next, path[1..][..i - 1]))
      {
        assert path[..i][1..] == path[1..][..i - 1];
        assert Lookup(v, path[..i]) == Lookup(child, path[1..][..i - 1]);
        if child.Null? {
          LookupNull(path[1..][..i - 1]);
          LookupEmptyObj(path[1..][..i - 1]);
        }
      }
      if forall i :: 0 <= i < |path| ==> Writable(Lookup(v, path[..i])) {
        forall j | 0 <= j < |path[1..]|
          ensures Writable(Lookup(next, path[1..][..j]))
        {
          assert Writable(Lookup(v, path[..j + 1]));
        }
      } else {
        var i :| 0 <= i < |path| && !Writable(Lookup(v, path[..i]));
        assert i >= 1;
        assert !Writable(Lookup(next, path[1..][..i - 1]));
      }
    }
  }

  /**
   * An assignment leaves every path that branches off the assigned one
   * where it was: same prefix, then a different key.
   */
  lemma {:induction false} SetPathKeepsOthers(v: Json, path: seq<string>, val: Json, other: seq<string>, j: nat)
    requires SetPath(v, path, val).Some?
    requires j < |path| && j < |other| && path[..j] == other[..j] && path[j] != other[j]
    ensures Lookup(SetPath(v, path, val).value, other) == Lookup(v, other)
    decreases j
  {
    var w := SetPath(v, path, val).value;
    var child := Index(v, path[0]);
    if j == 0 {
      assert Index(w, other[0]) == Index(v, other[0]);
    } else {
      assert other[0] == path[0] by { assert path[..j][0] == other[..j][0]; }
      var next := if child.Null? then Obj(map[]) else child;
      assert |path| > 1;
      assert path[1..][..j - 1] == other[1..][..j - 1] by {
        assert path[1..][..j - 1] == path[..j][1..];
        assert other[1..][..j - 1] == other[..j][1..];
      }
      SetPathKeepsOthers(next, path[1..], val, other[1..], j - 1);
      if child.Null? {
        LookupNull(other[1..]);
        LookupEmptyObj(other[1..]);
      }
    }
  }

  /**
   * `merge_values`: two objects merge key by key, recursively, the
   * override's keys added to or merged into the base's; in every other case
   * the override replaces the base.
   */
  function Merge(base: Json, over: Json): (r: Json)
    ensures !(base.Obj? && over.Obj?) ==> r == over
    ensures base.Obj? && over.Obj? ==>
      && r.Obj?
      && r.fields.Keys == base.fields.Keys + over.fields.Keys
      && (forall k :: k in base.fields && k !in over.fields ==> r.fields[k] == base.fields[k])
    decreases over
  {
    if base.Obj? && over.Obj? then
      Obj(map k | k in base.fields.Keys + over.fields.Keys ::
        if k in over.fields then
          assert over.fields[k] in over.fields.Values;
          Merge(Index(base, k), over.fields[k])
        else base.fields[k])
    else over
  }

  /** An override key's merged value is its value merged over the base's value at that key (null if absent). */
  lemma MergeAtOverrideKey(base: Json, over: Json, k: string)
    requires base.Obj? && over.Obj? && k in over.fields
    ensures Merge(base, over).fields[k] == Merge(Index(base, k), over.fields[k])
  {
  }

  /** Merging a value over itself gives it back. */
  lemma {:induction false} MergeIdempotent(x: Json)
    ensures Merge(x, x) == x
    decreases x
  {
    if x.Obj? {
      forall k | k in x.fields
        ensures Merge(x, x).fields[k] == x.fields[k]
      {
        assert x.fields[k] in x.fields.Values;
        MergeIdempotent(x.fields[k]);
      }
    }
  }

  /** Whatever is merged over null replaces it. */
  lemma MergeIntoNull(over: Json)
    ensures Merge(Null, over) == over
  {
  }

  /**
   * A scalar or array the override holds at a path survives the merge at
   * that path, whatever the base holds there.
   */
  lemma {:induction false} MergeKeepsOverrideLeaf(base: Json, over: Json, path: seq<string>)
    requires !Lookup(over, path).Null? && !Lookup(over, path).Obj?
    ensures Lookup(Merge(base, over), path) == Lookup(over, path)
    decreases |path|
  {
    if path != [] {
      if !(over.Obj? && path[0] in over.fields) {
        LookupNull(path[1..]);
        assert false;
      }
      if base.Obj? {
        MergeKeepsOverrideLeaf(Index(base, path[0]), over.fields[path[0]], path[1..]);
      }
    }
  }
}
