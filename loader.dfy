/**
 * The dynamic configuration loader (libs/configuration/src/loader.rs): a
 * JSON tree fed by file loads (deep merge) and environment variables
 * (dotted-path assignment of parsed values), read back by dotted path.
 */
module Configuration {
  import opened Wrappers
  import opened Json

  /** The loader's error classes. */
  datatype ConfigError = FileError(detail: string) | ParseError(detail: string)

  /** A parsed floating-point value: finite, or an infinity or NaN. */
  datatype Float = Finite(x: real) | NonFinite

  /** The parsers `parse_value` consults that are not modelled: JSON text, and Rust's `f64` syntax. */
  datatype Parsers = Parsers(json: string -> Option<Json>, float: string -> Option<Float>)

  function LowerChar(c: char): (d: char)
    ensures 'A' <= c <= 'Z' ==> d as int == c as int + 32
    ensures !('A' <= c <= 'Z') ==> d == c
  {
    if 'A' <= c <= 'Z' then (c as int + 32) as char else c
  }

  function UpperChar(c: char): (d: char)
    ensures 'a' <= c <= 'z' ==> d as int == c as int - 32
    ensures !('a' <= c <= 'z') ==> d == c
  {
    if 'a' <= c <= 'z' then (c as int - 32) as char else c
  }

  /** ASCII lower-casing, character by character. */
  function Lower(s: string): (r: string)
    ensures |r| == |s|
    ensures forall i :: 0 <= i < |s| ==> r[i] == LowerChar(s[i])
  {
    seq(|s|, i requires 0 <= i < |s| => LowerChar(s[i]))
  }

  /** ASCII upper-casing, character by character. */
  function Upper(s: string): (r: string)
    ensures |r| == |s|
    ensures forall i :: 0 <= i < |s| ==> r[i] == UpperChar(s[i])
  {
    seq(|s|, i requires 0 <= i < |s| => UpperChar(s[i]))
  }

  /** Index of the first '.' in `s`, or `|s|` when there is none. */
  function DotIndex(s: string): (i: nat)
    ensures i <= |s|
    ensures forall j :: 0 <= j < i ==> s[j] != '.'
    ensures i < |s| ==> s[i] == '.'
  {
    if s == [] || s[0] == '.' then 0 else 1 + DotIndex(s[1..])
  }

  /** `key.split('.')`: always at least one part. */
  function Split(s: string): (parts: seq<string>)
    ensures |parts| >= 1
    decreases |s|
  {
    var i := DotIndex(s);
    if i == |s| then [s] else [s[..i]] + Split(s[i + 1..])
  }

  /** No part of a split holds a '.'. */
  lemma {:induction false} SplitNoDot(s: string)
    ensures forall k :: 0 <= k < |Split(s)| ==> '.' !in Split(s)[k]
    decreases |s|
  {
    var i := DotIndex(s);
    var head := s[..i];
    assert '.' !in head by {
      assert forall j :: 0 <= j < |head| ==> head[j] == s[j];
    }
    if i < |s| {
      var rest := s[i + 1..];
      var tail := Split(rest);
      assert Split(s) == [head] + tail;
      SplitNoDot(rest);
      assert forall k :: 1 <= k < |Split(s)| ==> Split(s)[k] == tail[k - 1];
    }
  }

  /** Joining the parts of a split with '.' restores the key. */
  lemma {:induction false} SplitJoin(s: string)
    ensures Join(Split(s)) == s
    decreases |s|
  {
    var i := DotIndex(s);
    if i < |s| {
      var head, rest := s[..i], s[i + 1..];
      var tail := Split(rest);
      assert Split(s) == [head] + tail;
      SplitJoin(rest);
      JoinCons(head, tail);
      CutAt(s, i);
    }
  }

  /** A string is its part before index `i`, the character there, and its part after. */
  lemma CutAt(s: string, i: nat)
    requires i < |s|
    ensures s[..i] + [s[i]] + s[i + 1..] == s
  {
  }

  /** One unfolding of `Join` on a part followed by the rest. */
  lemma JoinCons(head: string, tail: seq<string>)
    ensures Join([head] + tail) == if tail == [] then head else head + "." + Join(tail)
  {
    assert ([head] + tail)[1..] == tail;
  }

  /** The parts separated by '.'. */
  function Join(parts: seq<string>): string
    requires |parts| >= 1
    decreases |parts|
  {
    if |parts| == 1 then parts[0] else parts[0] + "." + Join(parts[1..])
  }

  const MinI64: int := -0x8000_0000_0000_0000
  const MaxI64: int := 0x7fff_ffff_ffff_ffff

  predicate IsDigit(c: char)
  {
    '0' <= c <= '9'
  }

  function DigitsValue(s: string): (n: nat)
    requires forall i :: 0 <= i < |s| ==> IsDigit(s[i])
    decreases |s|
  {
    if s == [] then 0
    else
      assert IsDigit(s[|s| - 1]);
      DigitsValue(s[..|s| - 1]) * 10 + (s[|s| - 1] as int - '0' as int)
  }

  /** Rust's `str::parse::<i64>`: an optional sign, then one or more decimal digits, in range. */
  function ParseI64(s: string): (r: Option<int>)
    ensures r.Some? ==> MinI64 <= r.value <= MaxI64
    ensures r.Some? ==> forall i :: 0 <= i < |s| ==> IsDigit(s[i]) || (i == 0 && (s[0] == '-' || s[0] == '+'))
  {
    var signed := |s| > 0 && (s[0] == '-' || s[0] == '+');
    var digits := if signed then s[1..] else s;
    if |digits| == 0 || exists i :: 0 <= i < |digits| && !IsDigit(digits[i]) then None
    else
      var n: int := if signed && s[0] == '-' then 0 - DigitsValue(digits) else DigitsValue(digits);
      if MinI64 <= n <= MaxI64 then
        assert forall i :: 1 <= i < |s| ==> s[i] == digits[if signed then i - 1 else i];
        Some(n)
      else None
  }

  /**
   * `parse_value`: the first reading that succeeds, in order JSON, 64-bit
   * integer, 64-bit float (a non-finite float becoming null), the boolean
   * words, and finally the text itself.
   */
  function ParseValue(value: string, parsers: Parsers): (r: Json)
    ensures parsers.json(value).None? && ParseI64(value).Some? ==> r == Num(Int(ParseI64(value).value))
    ensures parsers.json(value).None? && ParseI64(value).None? && parsers.float(value).Some? && parsers.float(value).value.Finite? ==>
      r == Num(Float(parsers.float(value).value.x))
    ensures parsers.json(value).None? && r.Num? && r.n.Int? ==> MinI64 <= r.n.i <= MaxI64
    ensures parsers.json(value).None? && r.Null? ==> parsers.float(value) == Some(NonFinite)
    ensures parsers.json(value).None? && r.Str? ==> r.s == value
    ensures parsers.json(value).None? && r.Bool? ==> Lower(value) in {"true", "yes", "1", "false", "no", "0"}
  {
    if parsers.json(value).Some? then parsers.json(value).value
    else if ParseI64(value).Some? then Num(Int(ParseI64(value).value))
    else if parsers.float(value).Some? then
      match parsers.float(value).value
      case Finite(x) => Num(Float(x))
      case NonFinite => Null
    else if Lower(value) in {"true", "yes", "1"} then Bool(true)
    else if Lower(value) in {"false", "no", "0"} then Bool(false)
    else Str(value)
  }

  /** Text JSON accepts is taken as JSON, whatever any later reading would make of it. */
  lemma JsonFirst(value: string, parsers: Parsers)
    requires parsers.json(value).Some?
    ensures ParseValue(value, parsers) == parsers.json(value).value
  {
  }

  lemma ParseI64RejectsLetter(s: string, i: int)
    requires 0 <= i < |s| && !IsDigit(s[i]) && s[i] != '-' && s[i] != '+'
    ensures ParseI64(s).None?
  {
  }

  /**
   * "yes" and "no", in any ASCII case, are booleans unless the JSON or
   * float reading accepts them.
   */
  lemma YesNoAreBooleans(value: string, parsers: Parsers)
    requires parsers.json(value).None? && parsers.float(value).None?
    ensures Lower(value) == "yes" ==> ParseValue(value, parsers) == Bool(true)
    ensures Lower(value) == "no" ==> ParseValue(value, parsers) == Bool(false)
  {
    if Lower(value) == "yes" || Lower(value) == "no" {
      assert LowerChar(value[0]) == Lower(value)[0];
      ParseI64RejectsLetter(value, 0);
    }
  }

  /** Text no reading accepts and that is no boolean word stays text, exactly as given. */
  lemma UnparsedStaysText(value: string, parsers: Parsers)
    requires parsers.json(value).None? && ParseI64(value).None? && parsers.float(value).None?
    requires Lower(value) !in {"true", "yes", "1", "false", "no", "0"}
    ensures ParseValue(value, parsers) == Str(value)
  {
  }

  /** A float reading that is infinite or NaN is stored as null. */
  lemma NonFiniteIsNull(value: string, parsers: Parsers)
    requires parsers.json(value).None? && ParseI64(value).None? && parsers.float(value) == Some(NonFinite)
    ensures ParseValue(value, parsers) == Null
  {
  }

  function StripPrefix(s: string, prefix: string): (r: string)
    ensures |prefix| <= |s| && s[..|prefix|] == prefix ==> r == s[|prefix|..]
    ensures !(|prefix| <= |s| && s[..|prefix|] == prefix) ==> r == s
  {
    if |prefix| <= |s| && s[..|prefix|] == prefix then s[|prefix|..] else s
  }

  /** Replace each "__" by ".", left to right, without overlap. */
  function DoubleUnderscoreToDot(s: string): (r: string)
    ensures |r| <= |s|
    decreases |s|
  {
    if |s| >= 2 && s[0] == '_' && s[1] == '_' then "." + DoubleUnderscoreToDot(s[2..])
    else if s == [] then []
    else [s[0]] + DoubleUnderscoreToDot(s[1..])
  }

  lemma DoubleUnderscoreToDotFirst(s: string)
    requires s != [] && s[0] != '_'
    ensures DoubleUnderscoreToDot(s) != [] && DoubleUnderscoreToDot(s)[0] == s[0]
  {
  }

  /** After the rewrite no two underscores are adjacent. */
  lemma {:induction false} NoDoubleUnderscoreLeft(s: string)
    ensures forall i :: 0 <= i < |DoubleUnderscoreToDot(s)| - 1 ==>
      !(DoubleUnderscoreToDot(s)[i] == '_' && DoubleUnderscoreToDot(s)[i + 1] == '_')
    decreases |s|
  {
    if |s| >= 2 && s[0] == '_' && s[1] == '_' {
      NoDoubleUnderscoreLeft(s[2..]);
    } else if s != [] {
      NoDoubleUnderscoreLeft(s[1..]);
      if s[0] == '_' && |s| >= 2 {
        DoubleUnderscoreToDotFirst(s[1..]);
      }
    }
  }

  /** The configuration key for an environment variable under a prefix. */
  function EnvKey(key: string, prefix: string): string
  {
    DoubleUnderscoreToDot(Lower(StripPrefix(key, prefix + "_")))
  }

  /** Whether `filter` keeps a variable: its name starts with the prefix (no separator required). */
  predicate ListedFor(key: string, prefix: string)
  {
    |prefix| <= |key| && key[..|prefix|] == prefix
  }

  /** An environment key carries no upper-case ASCII letter and no "__". */
  lemma EnvKeyShape(key: string, prefix: string)
    ensures forall i :: 0 <= i < |EnvKey(key, prefix)| ==> !('A' <= EnvKey(key, prefix)[i] <= 'Z')
    ensures forall i :: 0 <= i < |EnvKey(key, prefix)| - 1 ==>
      !(EnvKey(key, prefix)[i] == '_' && EnvKey(key, prefix)[i + 1] == '_')
  {
    NoDoubleUnderscoreLeft(Lower(StripPrefix(key, prefix + "_")));
    NoUpperSurvives(Lower(StripPrefix(key, prefix + "_")));
  }

  lemma {:induction false} NoUpperSurvives(s: string)
    requires forall i :: 0 <= i < |s| ==> !('A' <= s[i] <= 'Z')
    ensures forall i :: 0 <= i < |DoubleUnderscoreToDot(s)| ==> !('A' <= DoubleUnderscoreToDot(s)[i] <= 'Z')
    decreases |s|
  {
    if |s| >= 2 && s[0] == '_' && s[1] == '_' {
      NoUpperSurvives(s[2..]);
    } else if s != [] {
      NoUpperSurvives(s[1..]);
    }
  }

  /** The documented example: under "APP", `APP_DATABASE__HOST` is the key `database.host`. */
  lemma EnvKeyExample()
    ensures EnvKey("APP_DATABASE__HOST", "APP") == "database.host"
  {
    assert "APP" + "_" == "APP_";
    assert StripPrefix("APP_DATABASE__HOST", "APP_") == "DATABASE__HOST";
    LowerExample();
    RewriteExample();
  }

  lemma LowerExample()
    ensures Lower("DATABASE__HOST") == "database__host"
  {
  }

  lemma RewriteExample()
    ensures DoubleUnderscoreToDot("database__host") == "database.host"
  {
    var head, tail := "database", "__host";
    assert head + tail == "database__host";
    KeepsPlainChars(head, tail);
    RewriteTail();
    assert head + ".host" == "database.host";
  }

  lemma RewriteTail()
    ensures DoubleUnderscoreToDot("__host") == ".host"
  {
    var tail, host := "__host", "host";
    assert tail[2..] == host;
    KeepsPlainChars(host, "");
    assert host + "" == host;
  }

  /** A run without underscores passes through the rewrite unchanged. */
  lemma {:induction false} KeepsPlainChars(plain: string, rest: string)
    requires forall i :: 0 <= i < |plain| ==> plain[i] != '_'
    ensures DoubleUnderscoreToDot(plain + rest) == plain + DoubleUnderscoreToDot(rest)
    decreases |plain|
  {
    if plain != [] {
      assert (plain + rest)[0] == plain[0];
      assert (plain + rest)[1..] == plain[1..] + rest;
      KeepsPlainChars(plain[1..], rest);
      calc {
        DoubleUnderscoreToDot(plain + rest);
        [plain[0]] + DoubleUnderscoreToDot(plain[1..] + rest);
        [plain[0]] + (plain[1..] + DoubleUnderscoreToDot(rest));
        { assert [plain[0]] + plain[1..] == plain; }
        plain + DoubleUnderscoreToDot(rest);
      }
    } else {
      assert plain + rest == rest;
    }
  }

  /** The variables `load_env` keeps, with their configuration keys, assigned one after another. */
  function EnvAssigned(data: Json, env: map<string, string>, order: seq<string>, prefix: string, parsers: Parsers): Option<Json>
    requires forall k :: k in order ==> k in env
    decreases |order|
  {
    if order == [] then Some(data)
    else
      match EnvAssigned(data, env, order[..|order| - 1], prefix, parsers)
      case None => None
      case Some(d) =>
        var last := order[|order| - 1];
        SetPath(d, Split(EnvKey(last, prefix)), ParseValue(env[last], parsers))
  }

  /** Assigning one more variable sets its key in the config the earlier ones built. */
  lemma EnvAssignedSnoc(data: Json, env: map<string, string>, order: seq<string>, k: string, prefix: string, parsers: Parsers)
    requires forall x :: x in order ==> x in env
    requires k in env
    ensures EnvAssigned(data, env, order + [k], prefix, parsers) ==
      match EnvAssigned(data, env, order, prefix, parsers)
      case None => None
      case Some(d) => SetPath(d, Split(EnvKey(k, prefix)), ParseValue(env[k], parsers))
  {
    assert (order + [k])[..|order|] == order;
  }

  /** One step of the zipper `Loader.Set` walks down with: the object left and the key descended into. */
  datatype Frame = Frame(fields: map<string, Json>, key: string)

  /** Rebuild the tree above a subtree from the frames, innermost frame last. */
  function Plug(frames: seq<Frame>, x: Json): Json
    decreases |frames|
  {
    if frames == [] then x
    else
      var f := frames[|frames| - 1];
      Plug(frames[..|frames| - 1], Obj(f.fields[f.key := x]))
  }

  function PlugOpt(frames: seq<Frame>, r: Option<Json>): Option<Json>
  {
    if r.None? then None else Some(Plug(frames, r.value))
  }

  class Loader {
    var data: Json
    const envPrefix: string

    /** `Loader::new`: an empty object, and the prefix upper-cased ("APP" when none is given). */
    constructor (prefix: Option<string>)
      ensures data == Obj(map[])
      ensures envPrefix == Upper(prefix.GetOr("APP"))
    {
      data := Obj(map[]);
      envPrefix := Upper(prefix.GetOr("APP"));
    }

    /** `get`: walk the dotted path from the root, stopping at the first null. */
    method Get(key: string) returns (v: Json)
      ensures v == Lookup(data, Split(key))
    {
      var parts := Split(key);
      var current := data;
      var i := 0;
      while i < |parts|
        invariant 0 <= i <= |parts|
        invariant Lookup(data, parts) == Lookup(current, parts[i..])
      {
        if current.Null? {
          LookupNull(parts[i..]);
          return Null;
        }
        assert parts[i..][1..] == parts[i + 1..];
        current := Index(current, parts[i]);
        i := i + 1;
      }
      return current;
    }

    /**
     * `set`: walk down the dotted path creating empty objects for missing or
     * null intermediates, assign the parsed value at the last part, and put
     * the tree back together. `ok` is false where the Rust panics; the tree is
     * then left as it was, for a panic can only strike before the first write.
     */
    method Set(key: string, value: string, parsers: Parsers) returns (ok: bool)
      modifies this
      ensures var r := SetPath(old(data), Split(key), ParseValue(value, parsers));
        && (ok <==> r.Some?)
        && (ok ==> data == r.value)
        && (!ok ==> data == old(data))
    {
      var parts := Split(key);
      var val := ParseValue(value, parsers);
      var frames: seq<Frame> := [];
      var cursor := data;
      var i := 0;
      while i < |parts| - 1
        invariant 0 <= i <= |parts| - 1
        invariant data == old(data)
        invariant SetPath(data, parts, val) == PlugOpt(frames, SetPath(cursor, parts[i..], val))
      {
        if !Writable(cursor) {
          assert SetPath(cursor, parts[i..], val) == None;
          return false;
        }
        var child := Index(cursor, parts[i]);
        var next := if child.Null? then Obj(map[]) else child;
        PlugStep(frames, Frame(FieldsOf(cursor), parts[i]), SetPath(next, parts[i + 1..], val));
        assert parts[i..][1..] == parts[i + 1..];
        frames := frames + [Frame(FieldsOf(cursor), parts[i])];
        cursor := next;
        i := i + 1;
      }
      if !Writable(cursor) {
        assert SetPath(cursor, parts[i..], val) == None;
        return false;
      }
      assert parts[i..] == [parts[i]];
      var x := Obj(FieldsOf(cursor)[parts[i] := val]);
      assert SetPath(data, parts, val) == Some(Plug(frames, x));
      var j := |frames|;
      assert frames[..j] == frames;
      while j > 0
        invariant 0 <= j <= |frames|
        invariant data == old(data)
        invariant SetPath(data, parts, val) == Some(Plug(frames[..j], x))
      {
        assert frames[..j][..j - 1] == frames[..j - 1];
        x := Obj(frames[j - 1].fields[frames[j - 1].key := x]);
        j := j - 1;
      }
      data := x;
      return true;
    }

    /**
     * `load_env`: every variable whose name starts with the prefix is
     * assigned under its rewritten key, in the map's iteration order
     * (reported as `order`). `ok` is false when an assignment panics.
     */
    method LoadEnv(env: map<string, string>, parsers: Parsers) returns (ok: bool, order: seq<string>)
      modifies this
      ensures forall k :: k in order ==> k in env && ListedFor(k, envPrefix)
      ensures forall i, j :: 0 <= i < j < |order| ==> order[i] != order[j]
      ensures ok ==> (forall k :: k in env && ListedFor(k, envPrefix) ==> k in order)
      ensures ok ==> Some(data) == EnvAssigned(old(data), env, order, envPrefix, parsers)
      ensures !ok ==> EnvAssigned(old(data), env, order, envPrefix, parsers) == None
    {
      var pending := set k | k in env && ListedFor(k, envPrefix);
      ghost var listed := pending;
      order := [];
      while pending != {}
        invariant pending <= listed
        invariant forall k :: k in listed ==> (k in pending <==> k !in order)
        invariant forall k :: k in order ==> k in env && ListedFor(k, envPrefix)
        invariant forall i, j :: 0 <= i < j < |order| ==> order[i] != order[j]
        invariant Some(data) == EnvAssigned(old(data), env, order, envPrefix, parsers)
        decreases pending
      {
        var k :| k in pending;
        ok := Set(EnvKey(k, envPrefix), env[k], parsers);
        EnvAssignedSnoc(old(data), env, order, k, envPrefix, parsers);
        order := order + [k];
        if !ok {
          return;
        }
        pending := pending - {k};
      }
      forall k | k in env && ListedFor(k, envPrefix)
        ensures k in order
      {
        assert k in listed;
      }
      ok := true;
    }

    /**
     * `load_yaml`, `load_toml` and `load_json`: read the file, parse it, and
     * merge the parsed tree over the current one.
     */
    method Load(content: Result<string, string>, parse: string -> Result<Json, string>) returns (r: Result<(), ConfigError>)
      modifies this
      ensures content.Err? ==> r == Err(FileError(content.error)) && data == old(data)
      ensures content.Ok? && parse(content.value).Err? ==> r == Err(ParseError(parse(content.value).error)) && data == old(data)
      ensures content.Ok? && parse(content.value).Ok? ==> r == Ok(()) && data == Merge(old(data), parse(content.value).value)
    {
      if content.Err? {
        return Err(FileError(content.error));
      }
      var parsed := parse(content.value);
      if parsed.Err? {
        return Err(ParseError(parsed.error));
      }
      data := MergeValues(data, parsed.value);
      return Ok(());
    }

    /** `merge_values`, inserting the override's keys into the base object one at a time. */
    static method MergeValues(base: Json, over: Json) returns (r: Json)
      ensures r == Merge(base, over)
      decreases over
    {
      if !(base.Obj? && over.Obj?) {
        return over;
      }
      var acc := base.fields;
      var pending := over.fields.Keys;
      while pending != {}
        invariant pending <= over.fields.Keys
        invariant acc == MergedFields(base, over, over.fields.Keys - pending)
        decreases pending
      {
        var k :| k in pending;
        assert over.fields[k] in over.fields.Values;
        var prior := if k in acc then acc[k] else Null;
        assert prior == Index(base, k);
        var child := MergeValues(prior, over.fields[k]);
        acc := acc[k := child];
        pending := pending - {k};
        assert acc == MergedFields(base, over, over.fields.Keys - pending);
      }
      assert over.fields.Keys - pending == over.fields.Keys;
      r := Obj(acc);
    }
  }

  /** The frame pushed while walking down accounts for one level of `SetPath`. */
  lemma PlugStep(frames: seq<Frame>, f: Frame, r: Option<Json>)
    ensures PlugOpt(frames + [f], r) == PlugOpt(frames, if r.None? then None else Some(Obj(f.fields[f.key := r.value])))
  {
    if r.Some? {
      assert (frames + [f])[..|frames|] == frames;
    }
  }

  /** The base fields after the override's keys in `done` have been merged in. */
  ghost function MergedFields(base: Json, over: Json, done: set<string>): map<string, Json>
    requires base.Obj? && over.Obj? && done <= over.fields.Keys
  {
    map k | k in base.fields.Keys + done :: if k in done then Merge(Index(base, k), over.fields[k]) else base.fields[k]
  }
}
