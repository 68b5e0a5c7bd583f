/** Parsed JSON documents as the price fetch sees them after `.json()`:
    an object is the sequence of its key/value pairs in document order, which
    is the order Python's `dict.values()` iterates in. */
module Json {
  import opened Wrappers

  datatype Json =
    | Null
    | Bool(b: bool)
    | Num(literal: string)
    | Str(s: string)
    | Arr(items: seq<Json>)
    | Obj(fields: seq<(string, Json)>)

  /** The value of the first pair in `fields` whose key is `key`. */
  function Find(fields: seq<(string, Json)>, key: string): Option<Json>
  {
    if fields == [] then None
    else if fields[0].0 == key then Some(fields[0].1)
    else Find(fields[1..], key)
  }

  /** A lookup finds nothing exactly when no pair has the key, and otherwise
      the value of the first pair that has it. */
  lemma {:induction false} FindSpec(fields: seq<(string, Json)>, key: string)
    ensures Find(fields, key).None? <==> forall i :: 0 <= i < |fields| ==> fields[i].0 != key
    ensures Find(fields, key).Some? ==>
      exists i :: 0 <= i < |fields| && fields[i] == (key, Find(fields, key).value)
                  && forall j :: 0 <= j < i ==> fields[j].0 != key
  {
    if fields != [] && fields[0].0 != key {
      var tail := fields[1..];
      FindSpec(tail, key);
      assert forall i :: 1 <= i < |fields| ==> fields[i] == tail[i - 1];
      if Find(tail, key).Some? {
        var i :| 0 <= i < |tail| && tail[i] == (key, Find(tail, key).value)
          && forall j :: 0 <= j < i ==> tail[j].0 != key;
        assert fields[i + 1] == tail[i];
      }
    }
  }

  /** `j[key]`: only an object can be indexed by a string key (a list or a
      string raises TypeError), and a missing key raises KeyError. */
  function Member(j: Json, key: string): (r: Option<Json>)
    ensures r.Some? ==> j.Obj?
  {
    if j.Obj? then Find(j.fields, key) else None
  }

  /** `j.get(key, default)`: only an object has `.get` (anything else raises
      AttributeError); a missing key gives `default`. */
  function Get(j: Json, key: string, default: Json): (r: Option<Json>)
    ensures r.Some? <==> j.Obj?
  {
    if j.Obj? then Some(Find(j.fields, key).GetOr(default)) else None
  }

  /** On an object, `get` gives `default` when no pair has the key, and
      otherwise the value of the first pair that has it. */
  lemma GetSpec(j: Json, key: string, default: Json)
    requires j.Obj?
    ensures (forall i :: 0 <= i < |j.fields| ==> j.fields[i].0 != key) ==> Get(j, key, default) == Some(default)
    ensures forall i :: 0 <= i < |j.fields| && j.fields[i].0 == key && (forall k :: 0 <= k < i ==> j.fields[k].0 != key)
              ==> Get(j, key, default) == Some(j.fields[i].1)
  {
    FindSpec(j.fields, key);
    forall i | 0 <= i < |j.fields| && j.fields[i].0 == key && (forall k :: 0 <= k < i ==> j.fields[k].0 != key)
      ensures Get(j, key, default) == Some(j.fields[i].1)
    {
      var v := Find(j.fields, key).value;
      var m :| 0 <= m < |j.fields| && j.fields[m] == (key, v) && forall k :: 0 <= k < m ==> j.fields[k].0 != key;
      assert m == i;
    }
  }

  /** `j[k0][k1]...`: the value reached by indexing with each key of `path`
      in turn, or None when some step raises. */
  function At(j: Json, path: seq<string>): Option<Json>
    decreases |path|
  {
    if path == [] then Some(j)
    else
      var next :- Member(j, path[0]);
      At(next, path[1..])
  }

  /** Indexing along a path of one, two or three keys is the chain of
      single lookups. */
  lemma AtShortPaths(j: Json, a: string, b: string, c: string)
    ensures At(j, [a]) == Member(j, a)
    ensures At(j, [a, b]) == (if Member(j, a).None? then None else Member(Member(j, a).value, b))
    ensures At(j, [a, b, c]) ==
      (if Member(j, a).None? || Member(Member(j, a).value, b).None? then None
       else Member(Member(Member(j, a).value, b).value, c))
  {
    assert [a, b, c][1..] == [b, c] && [a, b][1..] == [b] && [a][1..] == [];
    assert [b, c][1..] == [c] && [b][1..] == [] && [c][1..] == [];
    if Member(j, a).Some? {
      var x := Member(j, a).value;
      assert At(j, [a, b]) == At(x, [b]);
      assert At(j, [a, b, c]) == At(x, [b, c]);
      if Member(x, b).Some? {
        var y := Member(x, b).value;
        assert At(x, [b]) == At(y, []);
        assert At(x, [b, c]) == At(y, [c]);
        assert At(y, [c]) == Member(y, c) by {
          if Member(y, c).Some? {
            assert At(y, [c]) == At(Member(y, c).value, []);
          }
        }
      }
    }
  }

  /** `list(j.values())`: only an object has `.values()`. */
  function Values(j: Json): Option<seq<Json>>
  {
    if j.Obj? then Some(seq(|j.fields|, i requires 0 <= i < |j.fields| => j.fields[i].1)) else None
  }

  /** `next(iter(j.values()))`: the first value of an object; an empty object
      raises StopIteration and a non-object has no `.values()`. */
  function FirstValue(j: Json): Option<Json>
  {
    if j.Obj? && |j.fields| > 0 then Some(j.fields[0].1) else None
  }

  /** The text of a string value; `base_url + x` with a non-string `x` raises
      TypeError. */
  function AsString(j: Json): Option<string>
  {
    if j.Str? then Some(j.s) else None
  }
}
