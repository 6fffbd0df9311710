/**
 * Dotted-path lookup into a nested configuration dict:
 * `get_by_path(cfg, 'mysql.user', 'root')`. Loading the YAML file is I/O
 * and is not part of this model.
 */
module Config {
  import opened Json
  import Text

  /**
   * Walking `keys` from `d`: each step needs a dict holding the key; the
   * first step that fails yields `default`.
   */
  function Walk(d: Json, keys: seq<string>, default: Json): Json
  {
    if keys == [] then d
    else if d.IsDict() && keys[0] in d.fields then Walk(d.fields[keys[0]], keys[1..], default)
    else default
  }

  /** Every step of the walk finds a dict holding its key. */
  predicate Found(d: Json, keys: seq<string>)
  {
    keys == [] || (d.IsDict() && keys[0] in d.fields && Found(d.fields[keys[0]], keys[1..]))
  }

  /** The value a found path leads to. */
  function Target(d: Json, keys: seq<string>): Json
    requires Found(d, keys)
  {
    if keys == [] then d else Target(d.fields[keys[0]], keys[1..])
  }

  /** The keys `path.split('.')` names. */
  function Keys(path: string): seq<string>
  {
    Text.Split(path, '.')
  }

  /** `get_by_path(d, path, default)`. */
  method GetByPath(d: Json, path: string, default: Json) returns (r: Json)
    ensures r == Walk(d, Keys(path), default)
  {
    var keys := Keys(path);
    var cur := d;
    var i := 0;
    while i < |keys|
      invariant 0 <= i <= |keys|
      invariant Walk(d, keys, default) == Walk(cur, keys[i..], default)
    {
      if cur.IsDict() && keys[i] in cur.fields {
        assert keys[i..][1..] == keys[i + 1..];
        cur := cur.fields[keys[i]];
        i := i + 1;
      } else {
        return default;
      }
    }
    return cur;
  }

  /**
   * The walk yields the target when every key is found and the default as
   * soon as a key is missing or an intermediate value is not a dict.
   */
  lemma {:induction false} WalkFoundOrDefault(d: Json, keys: seq<string>, default: Json)
    ensures Found(d, keys) ==> Walk(d, keys, default) == Target(d, keys)
    ensures !Found(d, keys) ==> Walk(d, keys, default) == default
  {
    if keys != [] && d.IsDict() && keys[0] in d.fields {
      WalkFoundOrDefault(d.fields[keys[0]], keys[1..], default);
    }
  }

  /** When the path is found, the default never affects the result. */
  lemma DefaultIrrelevantWhenFound(d: Json, path: string, default1: Json, default2: Json)
    requires Found(d, Keys(path))
    ensures Walk(d, Keys(path), default1) == Walk(d, Keys(path), default2)
  {
    WalkFoundOrDefault(d, Keys(path), default1);
    WalkFoundOrDefault(d, Keys(path), default2);
  }

  /** A single dot-free key present in a dict reads that entry. */
  lemma SingleKey(d: Json, k: string, default: Json)
    requires '.' !in k
    requires d.IsDict() && k in d.fields
    ensures Walk(d, Keys(k), default) == d.fields[k]
  {
    Text.SplitSingle(k, '.');
  }

  /** A single dot-free key absent from `d`, or a non-dict `d`, yields the default. */
  lemma SingleKeyMissing(d: Json, k: string, default: Json)
    requires '.' !in k
    requires !d.IsDict() || k !in d.fields
    ensures Walk(d, Keys(k), default) == default
  {
    Text.SplitSingle(k, '.');
  }

  /** `get_by_path(d, 'a.rest')` descends into `d['a']` when `a` is present. */
  lemma Descend(d: Json, a: string, rest: string, default: Json)
    requires '.' !in a
    requires d.IsDict() && a in d.fields
    ensures Walk(d, Keys(a + "." + rest), default) == Walk(d.fields[a], Keys(rest), default)
  {
    Text.SplitCons(a, '.', rest);
    assert Keys(a + "." + rest)[1..] == Keys(rest);
  }
}
