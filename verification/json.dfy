/**
 * Setting a value inside a decoded JSON document by a dot-separated key
 * path: every segment but the last must name an existing object, the last
 * one is inserted or overwritten.
 */
module JsonPath {
  import opened Wrappers
  import opened Strings

  /** A decoded JSON value. */
  datatype Json =
    | Null
    | Bool(b: bool)
    | Num(n: real)
    | Str(s: string)
    | Arr(items: seq<Json>)
    | Obj(fields: map<string, Json>)

  /** A value to set and the dot-separated path where it goes. */
  datatype Value = Value(value: Json, key: string)

  /** Why a path cannot be followed; `key` is the path up to and including the segment that failed. */
  datatype PathError =
    | TargetKeyNotFoundError(key: string)
    | ExpectedMapError(key: string)

  /** Why a document cannot be updated. */
  datatype UpdateError =
    | UnmarshalError
    | NilMapWrite
    | Path(err: PathError)

  /** The value reached from `j` by following the object keys `p`, if every step exists. */
  function Get(j: Json, p: seq<string>): Option<Json>
    decreases |p|
  {
    if p == [] then Some(j)
    else if j.Obj? && p[0] in j.fields then Get(j.fields[p[0]], p[1..])
    else None
  }

  predicate IsObject(o: Option<Json>)
  {
    o.Some? && o.value.Obj?
  }

  /** Following `p` then `q` is following `p + q`. */
  lemma {:induction false} GetAppend(j: Json, p: seq<string>, q: seq<string>)
    ensures Get(j, p + q) == if Get(j, p).Some? then Get(Get(j, p).value, q) else None
    decreases |p|
  {
    if p == [] {
      assert p + q == q;
    } else {
      assert (p + q)[1..] == p[1..] + q;
      if j.Obj? && p[0] in j.fields {
        GetAppend(j.fields[p[0]], p[1..], q);
      }
    }
  }

  /** One more step: the field `k` of the object reached by `p`. */
  lemma GetStep(j: Json, p: seq<string>, k: string)
    ensures Get(j, p + [k]) ==
      if IsObject(Get(j, p)) && k in Get(j, p).value.fields then Some(Get(j, p).value.fields[k]) else None
  {
    GetAppend(j, p, [k]);
    if Get(j, p).Some? {
      var x := Get(j, p).value;
      assert [k][1..] == [];
    }
  }

  /** A path along which a value can be set: every proper prefix reaches an object. */
  predicate Settable(j: Json, p: seq<string>)
  {
    p == [] || IsObject(Get(j, p[..|p| - 1]))
  }

  lemma SettableTail(j: Json, p: seq<string>)
    requires |p| >= 2 && Settable(j, p)
    ensures j.Obj? && p[0] in j.fields && Settable(j.fields[p[0]], p[1..])
  {
    assert p[..|p| - 1][1..] == p[1..][..|p| - 2];
  }

  /** The document with the value at `p` set to `v`: the last key is inserted or overwritten. */
  function SetAt(j: Json, p: seq<string>, v: Json): (r: Json)
    requires Settable(j, p)
    ensures p != [] ==> r.Obj?
    decreases |p|
  {
    if p == [] then v
    else if |p| == 1 then Obj(j.fields[p[0] := v])
    else
      SettableTail(j, p);
      Obj(j.fields[p[0] := SetAt(j.fields[p[0]], p[1..], v)])
  }

  /** After setting, the path leads to the new value. */
  lemma {:induction false} GetSetSame(j: Json, p: seq<string>, v: Json)
    requires Settable(j, p)
    ensures Get(SetAt(j, p, v), p) == Some(v)
    decreases |p|
  {
    if |p| >= 2 {
      SettableTail(j, p);
      GetSetSame(j.fields[p[0]], p[1..], v);
    }
  }

  /** Two paths part ways: at some position both have a segment and the segments differ. */
  predicate Diverge(p: seq<string>, q: seq<string>)
  {
    exists i :: 0 <= i < |p| && i < |q| && p[i] != q[i]
  }

  /** Setting a value leaves every path that parts ways with it untouched. */
  lemma {:induction false} GetSetOther(j: Json, p: seq<string>, q: seq<string>, v: Json)
    requires Settable(j, p) && Diverge(p, q)
    ensures Get(SetAt(j, p, v), q) == Get(j, q)
    decreases |p|
  {
    var i :| 0 <= i < |p| && i < |q| && p[i] != q[i];
    if p[0] != q[0] {
    } else {
      assert 0 < i < |p|;
      SettableTail(j, p);
      assert p[1..][i - 1] != q[1..][i - 1];
      GetSetOther(j.fields[p[0]], p[1..], q[1..], v);
    }
  }

  /** Setting keeps the path settable. */
  lemma {:induction false} SetAtSettable(j: Json, p: seq<string>, v: Json)
    requires Settable(j, p)
    ensures Settable(SetAt(j, p, v), p)
    decreases |p|
  {
    if |p| >= 2 {
      SettableTail(j, p);
      SetAtSettable(j.fields[p[0]], p[1..], v);
      var r := SetAt(j, p, v);
      assert r.fields[p[0]] == SetAt(j.fields[p[0]], p[1..], v);
      assert p[..|p| - 1] == [p[0]] + p[1..][..|p| - 2];
      GetAppend(r, [p[0]], p[1..][..|p| - 2]);
      assert [p[0]][1..] == [];
    }
  }

  /** Setting the same value at the same path twice is setting it once. */
  lemma {:induction false} SetAtIdempotent(j: Json, p: seq<string>, v: Json)
    requires Settable(j, p)
    ensures Settable(SetAt(j, p, v), p)
    ensures SetAt(SetAt(j, p, v), p, v) == SetAt(j, p, v)
    decreases |p|
  {
    SetAtSettable(j, p, v);
    if |p| >= 2 {
      SettableTail(j, p);
      SetAtIdempotent(j.fields[p[0]], p[1..], v);
    }
  }

  /** Setting at `p` is writing the last key into the object reached by the rest of `p`, and putting that object back. */
  lemma {:induction false} SetAtLast(j: Json, p: seq<string>, v: Json)
    requires |p| >= 1 && Settable(j, p)
    ensures var parent := p[..|p| - 1];
      var m := Get(j, parent).value.fields;
      Settable(j, parent) && SetAt(j, p, v) == SetAt(j, parent, Obj(m[p[|p| - 1] := v]))
    decreases |p|
  {
    var parent := p[..|p| - 1];
    if |p| == 1 {
      assert parent == [];
    } else {
      SettableTail(j, p);
      var tail := p[1..];
      SetAtLast(j.fields[p[0]], tail, v);
      assert tail[..|tail| - 1] == parent[1..];
      assert tail[|tail| - 1] == p[|p| - 1];
      assert Settable(j, parent) by {
        if |parent| >= 2 {
          assert parent[..|parent| - 1] == [p[0]] + tail[..|tail| - 1][..|parent| - 2];
          GetAppend(j, [p[0]], tail[..|tail| - 1][..|parent| - 2]);
          assert [p[0]][1..] == [];
        }
      }
    }
  }

  /** Intermediate segment `i` cannot be stepped into: the path up to and including it does not reach an object. */
  predicate Blocked(root: map<string, Json>, keys: seq<string>, i: nat)
    requires i < |keys|
  {
    !IsObject(Get(Obj(root), keys[..i + 1]))
  }

  /** The first blocked intermediate segment at index `from` or later. */
  function FirstBlocked(root: map<string, Json>, keys: seq<string>, from: nat): (r: Option<nat>)
    requires |keys| >= 1
    ensures r.Some? ==> from <= r.value < |keys| - 1 && Blocked(root, keys, r.value)
    ensures r.Some? ==> forall i :: from <= i < r.value ==> !Blocked(root, keys, i)
    ensures r.None? ==> forall i :: from <= i < |keys| - 1 ==> !Blocked(root, keys, i)
    decreases |keys| - from
  {
    if from >= |keys| - 1 then None
    else if Blocked(root, keys, from) then Some(from)
    else FirstBlocked(root, keys, from + 1)
  }

  /** The error for the first blocked segment `i`: its key is missing, or it holds something other than an object. */
  function BlockError(root: map<string, Json>, keys: seq<string>, i: nat): PathError
    requires i < |keys|
  {
    var parent := Get(Obj(root), keys[..i]);
    var key := Join(keys[..i + 1], '.');
    if IsObject(parent) && keys[i] in parent.value.fields then ExpectedMapError(key)
    else TargetKeyNotFoundError(key)
  }

  /** With no blocked intermediate segment, the whole path can be set. */
  lemma UnblockedSettable(root: map<string, Json>, keys: seq<string>)
    requires |keys| >= 1
    requires forall i :: 0 <= i < |keys| - 1 ==> !Blocked(root, keys, i)
    ensures Settable(Obj(root), keys)
  {
    if |keys| >= 2 {
      assert !Blocked(root, keys, |keys| - 2);
    } else {
      assert keys[..0] == [];
    }
  }

  /** What `setNested` yields: the first blocked segment's error, or the tree with the value set at the path. */
  function SetPath(root: map<string, Json>, keys: seq<string>, value: Json): Result<map<string, Json>, PathError>
    requires |keys| >= 1
  {
    match FirstBlocked(root, keys, 0)
    case Some(i) => Failure(BlockError(root, keys, i))
    case None =>
      UnblockedSettable(root, keys);
      Success(SetAt(Obj(root), keys, value).fields)
  }

  /**
   * `setNested`: walks the intermediate segments, stopping at the first one
   * that is missing or not an object, then writes the last key into the
   * innermost object.
   */
  method SetNested(root: map<string, Json>, keys: seq<string>, value: Json) returns (r: Result<map<string, Json>, PathError>)
    requires |keys| >= 1
    ensures r == SetPath(root, keys, value)
  {
    var current := root;
    for keyIndex := 0 to |keys| - 1
      invariant Get(Obj(root), keys[..keyIndex]) == Some(Obj(current))
      invariant forall i :: 0 <= i < keyIndex ==> !Blocked(root, keys, i)
    {
      var key := keys[keyIndex];
      assert keys[..keyIndex + 1] == keys[..keyIndex] + [key];
      GetStep(Obj(root), keys[..keyIndex], key);
      if key !in current {
        assert FirstBlocked(root, keys, 0) == Some(keyIndex) by {
          FirstBlockedIs(root, keys, keyIndex);
        }
        return Failure(TargetKeyNotFoundError(Join(keys[..keyIndex + 1], '.')));
      }
      var nested := current[key];
      if !nested.Obj? {
        assert FirstBlocked(root, keys, 0) == Some(keyIndex) by {
          FirstBlockedIs(root, keys, keyIndex);
        }
        return Failure(ExpectedMapError(Join(keys[..keyIndex + 1], '.')));
      }
      current := nested.fields;
    }
    var lastKey := keys[|keys| - 1];
    current := current[lastKey := value];
    UnblockedSettable(root, keys);
    SetAtLast(Obj(root), keys, value);
    return Success(SetAt(Obj(root), keys[..|keys| - 1], Obj(current)).fields);
  }

  lemma FirstBlockedIs(root: map<string, Json>, keys: seq<string>, k: nat)
    requires k < |keys| - 1 && Blocked(root, keys, k)
    requires forall i :: 0 <= i < k ==> !Blocked(root, keys, i)
    ensures FirstBlocked(root, keys, 0) == Some(k)
  {
  }

  /**
   * A successful update puts the value at the full path and leaves every
   * path that parts ways with it as it was; it succeeds exactly when no
   * intermediate segment is blocked.
   */
  lemma SetPathSuccess(root: map<string, Json>, keys: seq<string>, value: Json)
    requires |keys| >= 1
    ensures SetPath(root, keys, value).Success? <==> forall i :: 0 <= i < |keys| - 1 ==> !Blocked(root, keys, i)
    ensures SetPath(root, keys, value).Success? ==>
      var out := Obj(SetPath(root, keys, value).value);
      && Get(out, keys) == Some(value)
      && forall q :: Diverge(keys, q) ==> Get(out, q) == Get(Obj(root), q)
  {
    if SetPath(root, keys, value).Success? {
      UnblockedSettable(root, keys);
      GetSetSame(Obj(root), keys, value);
      forall q | Diverge(keys, q) ensures Get(SetAt(Obj(root), keys, value), q) == Get(Obj(root), q) {
        GetSetOther(Obj(root), keys, q, value);
      }
    }
  }

  /**
   * A failed update names the first blocked segment: a missing key is
   * `TargetKeyNotFoundError`, a key holding a non-object is
   * `ExpectedMapError`, and the error's key is the path up to that segment.
   */
  lemma SetPathFailure(root: map<string, Json>, keys: seq<string>, value: Json, i: nat)
    requires i < |keys| - 1 && Blocked(root, keys, i)
    requires forall j :: 0 <= j < i ==> !Blocked(root, keys, j)
    ensures IsObject(Get(Obj(root), keys[..i]))
    ensures var parent := Get(Obj(root), keys[..i]).value.fields;
      SetPath(root, keys, value) == Failure(
           if keys[i] in parent then ExpectedMapError(Join(keys[..i + 1], '.'))
           else TargetKeyNotFoundError(Join(keys[..i + 1], '.')))
  {
    FirstBlockedIs(root, keys, i);
    if i > 0 {
      assert !Blocked(root, keys, i - 1);
    } else {
      assert keys[..0] == [];
    }
  }

  /** A one-segment path never fails: the key is inserted or overwritten. */
  lemma SingleSegmentNeverFails(root: map<string, Json>, key: string, value: Json)
    ensures SetPath(root, [key], value) == Success(root[key := value])
  {
  }

  /** Setting the same value at the same path twice is setting it once. */
  lemma SetPathIdempotent(root: map<string, Json>, keys: seq<string>, value: Json)
    requires |keys| >= 1 && SetPath(root, keys, value).Success?
    ensures SetPath(SetPath(root, keys, value).value, keys, value) == SetPath(root, keys, value)
  {
    UnblockedSettable(root, keys);
    SetAtIdempotent(Obj(root), keys, value);
    var out := SetPath(root, keys, value).value;
    assert Obj(out) == SetAt(Obj(root), keys, value);
    if FirstBlocked(out, keys, 0).Some? {
      var i := FirstBlocked(out, keys, 0).value;
      assert keys[..i + 1][..|keys[..i + 1]| - 1] == keys[..i];
      assert IsObject(Get(Obj(out), keys[..|keys| - 1]));
      assert keys[..|keys| - 1] == keys[..i + 1] + keys[i + 1..|keys| - 1];
      GetAppend(Obj(out), keys[..i + 1], keys[i + 1..|keys| - 1]);
      assert false;
    }
  }

  /** The key of a path error is the start of the configured key, ending just before a dot. */
  lemma ErrorKeyIsPrefix(root: map<string, Json>, key: string, value: Json)
    requires SetPath(root, Split(key, '.'), value).Failure?
    ensures var e := SetPath(root, Split(key, '.'), value).error.key;
      |e| < |key| && key[..|e|] == e && key[|e|] == '.'
  {
    var keys := Split(key, '.');
    var i := FirstBlocked(root, keys, 0).value;
    JoinSplit(key, '.');
    JoinPrefix(keys, i + 1, '.');
  }

  /** `UpdateJSONValue` on a decoded document: only an object can be updated; the path is the key split on dots. */
  method UpdateJsonValue(input: Json, config: Value) returns (r: Result<Json, UpdateError>)
    ensures input.Obj? ==>
      var keys := Split(config.key, '.');
      match SetPath(input.fields, keys, config.value)
      case Success(m) => r == Success(Obj(m))
      case Failure(e) => r == Failure(Path(e))
    ensures input.Null? ==>
      r == if |Split(config.key, '.')| == 1 then Failure(NilMapWrite)
           else Failure(Path(TargetKeyNotFoundError(Split(config.key, '.')[0])))
    ensures !input.Obj? && !input.Null? ==> r == Failure(UnmarshalError)
  {
    var mapRepresentation: map<string, Json>;
    if input.Obj? {
      mapRepresentation := input.fields;
    } else if input.Null? {
      mapRepresentation := map[];
    } else {
      return Failure(UnmarshalError);
    }
    var keys := Split(config.key, '.');
    if input.Null? && |keys| == 1 {
      return Failure(NilMapWrite);
    }
    var updated := SetNested(mapRepresentation, keys, config.value);
    if updated.Failure? {
      if input.Null? {
        NullDocumentFails(keys, config.value);
      }
      return Failure(Path(updated.error));
    }
    if input.Null? {
      NullDocumentFails(keys, config.value);
    }
    return Success(Obj(updated.value));
  }

  /** In an empty object the first segment of a longer path is missing. */
  lemma NullDocumentFails(keys: seq<string>, value: Json)
    requires |keys| >= 2
    ensures SetPath(map[], keys, value) == Failure(TargetKeyNotFoundError(keys[0]))
  {
    assert keys[..1] == [keys[0]];
    assert Blocked(map[], keys, 0);
    FirstBlockedIs(map[], keys, 0);
    assert keys[..0] == [];
  }

  /** A path through an array stops at the array: the error names the path up to it. */
  lemma NestedArrayExample()
    ensures SetPath(map["level1" := Obj(map["level2" := Arr([Str("value1"), Str("value2")])])],
                    ["level1", "level2", "1"], Str("updatedValue2"))
         == Failure(ExpectedMapError("level1.level2"))
  {
    var inner := map["level2" := Arr([Str("value1"), Str("value2")])];
    var root := map["level1" := Obj(inner)];
    var keys := ["level1", "level2", "1"];
    assert keys[..1] == ["level1"];
    assert keys[..2] == ["level1", "level2"];
    assert Get(Obj(root), ["level1"]) == Some(Obj(inner)) by {
      assert ["level1"][1..] == [];
    }
    assert Get(Obj(root), ["level1", "level2"]) == Some(inner["level2"]) by {
      assert ["level1", "level2"][1..] == ["level2"];
      assert ["level2"][1..] == [];
    }
    assert Join(["level1", "level2"], '.') == "level1.level2" by {
      assert ["level1", "level2"][1..] == ["level2"];
    }
    SetPathFailure(root, keys, Str("updatedValue2"), 1);
  }
  /** A two-segment path overwrites the key inside the nested object and nothing else. */
  lemma NestedUpdateExample()
    ensures SetPath(map["nested" := Obj(map["key" := Str("value")])], ["nested", "key"], Str("newValue"))
         == Success(map["nested" := Obj(map["key" := Str("newValue")])])
  {
    var root := map["nested" := Obj(map["key" := Str("value")])];
    var keys := ["nested", "key"];
    assert keys[..1] == ["nested"];
    assert Get(Obj(root), ["nested"]) == Some(root["nested"]) by {
      assert ["nested"][1..] == [];
    }
    assert !Blocked(root, keys, 0);
    assert FirstBlocked(root, keys, 0) == None;
    assert keys[1..] == ["key"];
    var inner := map["key" := Str("value")];
    assert SetAt(Obj(root), keys, Str("newValue")) == Obj(root["nested" := Obj(inner["key" := Str("newValue")])]);
    assert inner["key" := Str("newValue")] == map["key" := Str("newValue")];
    assert root["nested" := Obj(map["key" := Str("newValue")])] == map["nested" := Obj(map["key" := Str("newValue")])];
  }

  /** A string where an object is expected stops the walk at its key. */
  lemma IntermediateNotObjectExample()
    ensures SetPath(map["level1" := Str("notAnObject"), "level2" := Str("value2")],
                    ["level1", "level2"], Str("updatedValue2"))
         == Failure(ExpectedMapError("level1"))
  {
    var root := map["level1" := Str("notAnObject"), "level2" := Str("value2")];
    var keys := ["level1", "level2"];
    assert keys[..0] == [];
    assert keys[..1] == ["level1"];
    assert Get(Obj(root), ["level1"]) == Some(Str("notAnObject")) by {
      assert ["level1"][1..] == [];
    }
    SetPathFailure(root, keys, Str("updatedValue2"), 0);
  }
}
