/**
 * The `SystemSettings` model (backend/app/models/system_settings.py): a
 * setting keeps its value as text together with a value type; `set_value`
 * renders a value to text after that type, `get_value` converts the text
 * back, `delete` refuses system settings, and `set_value_by_key` is an
 * upsert on the (category, key) pair.
 */
module Settings {
  import opened Wrappers
  import Text

  /** The `value_type` column. */
  datatype ValueType = StringType | IntegerType | FloatType | BooleanType | JsonType

  /** The Python values a setting is given: text, integers and booleans. */
  datatype Value = VStr(s: string) | VInt(i: int) | VBool(b: bool)

  /**
   * What `get_value` gives back: None for a NULL column, a converted value,
   * the ValueError `int()` raises on text that is not an integer, or, for
   * the float and json types, the stored text whose conversion is not
   * modelled.
   */
  datatype Reading = Missing | Got(v: Value) | Raises | Unconverted(text: string)

  /** The lower-cased texts a boolean setting reads as true. */
  const TruthyWords: set<string> := {"true", "1", "yes", "on"}

  /** `str(value)`: the text itself, the decimal integer, or 'True' / 'False'. */
  function PyStr(v: Value): (t: string)
    ensures v.VBool? ==> t == (if v.b then "True" else "False")
    ensures v.VStr? ==> t == v.s
    ensures v.VInt? ==> Text.ParseInt(t) == Some(v.i)
  {
    match v
    case VStr(s) => s
    case VInt(i) => Text.ParseIntToString(i); Text.IntToString(i)
    case VBool(b) => if b then "True" else "False"
  }

  /** A hexadecimal digit in lower case. */
  function HexDigit(d: nat): char
    requires d < 16
  {
    if d < 10 then ('0' as int + d) as char else ('a' as int + d - 10) as char
  }

  /** How `json.dumps` writes one character of a string (`ensure_ascii=False`). */
  function EscapeChar(c: char): (r: string)
    ensures |r| >= 1
    ensures (c >= ' ' && c != '"' && c != '\\') <==> r == [c]
  {
    if c == '"' then "\\\""
    else if c == '\\' then "\\\\"
    else if c == '\n' then "\\n"
    else if c == '\r' then "\\r"
    else if c == '\t' then "\\t"
    else if c == '\U{8}' then "\\b"
    else if c == '\U{C}' then "\\f"
    else if c < ' ' then "\\u00" + [HexDigit(c as int / 16), HexDigit(c as int % 16)]
    else [c]
  }

  /** The characters of a string, each escaped. */
  function Escaped(s: string): (r: string)
    ensures |r| >= |s|
  {
    if s == [] then "" else EscapeChar(s[0]) + Escaped(s[1..])
  }

  /** A string with no quote, backslash or control character is written as it is. */
  lemma {:induction false} PlainEscaped(s: string)
    requires forall i :: 0 <= i < |s| ==> s[i] >= ' ' && s[i] != '"' && s[i] != '\\'
    ensures Escaped(s) == s
  {
    if s != [] {
      PlainEscaped(s[1..]);
    }
  }

  /** `json.dumps(value, ensure_ascii=False)` for the values modelled. */
  function JsonDumps(v: Value): (t: string)
    ensures v.VStr? ==> |t| >= 2 && t[0] == '"' && t[|t| - 1] == '"'
    ensures v.VBool? ==> t == (if v.b then "true" else "false")
    ensures v.VInt? ==> t == PyStr(v)
  {
    match v
    case VStr(s) => "\"" + Escaped(s) + "\""
    case VInt(i) => Text.IntToString(i)
    case VBool(b) => if b then "true" else "false"
  }

  /**
   * The text `set_value` stores: NULL for None, the JSON text for the json
   * type, `str(value)` for every other type.
   */
  function StoredText(vt: ValueType, v: Option<Value>): (t: Option<string>)
    ensures t.None? <==> v.None?
    ensures v.Some? && vt != JsonType ==> t == Some(PyStr(v.value))
    ensures v.Some? && vt == JsonType ==> t == Some(JsonDumps(v.value))
  {
    match v
    case None => None
    case Some(x) => Some(if vt == JsonType then JsonDumps(x) else PyStr(x))
  }

  /**
   * `get_value`: None for a NULL column; `int()` of the text for an integer
   * setting (raising on anything that is not an integer); a boolean setting
   * is true exactly when its lower-cased text is one of the truthy words; a
   * string setting gives its text back.
   */
  function GetValue(vt: ValueType, text: Option<string>): (r: Reading)
    ensures text.None? <==> r == Missing
    ensures text.Some? && vt == IntegerType ==>
              r == (match Text.ParseInt(text.value) case Some(n) => Got(VInt(n)) case None => Raises)
    ensures text.Some? && vt == BooleanType ==> r == Got(VBool(Text.Lower(text.value) in TruthyWords))
    ensures text.Some? && vt == StringType ==> r == Got(VStr(text.value))
    ensures text.Some? && (vt == FloatType || vt == JsonType) ==> r == Unconverted(text.value)
  {
    match text
    case None => Missing
    case Some(t) =>
      match vt
      case IntegerType =>
        (match Text.ParseInt(t) case Some(n) => Got(VInt(n)) case None => Raises)
      case FloatType => Unconverted(t)
      case BooleanType => Got(VBool(Text.Lower(t) in TruthyWords))
      case JsonType => Unconverted(t)
      case StringType => Got(VStr(t))
  }

  /** Setting None and reading back gives None, whatever the type. */
  lemma NullRoundTrip(vt: ValueType)
    ensures GetValue(vt, StoredText(vt, None)) == Missing
  {
  }

  /** An integer stored in an integer setting reads back as the same integer. */
  lemma IntegerRoundTrip(n: int)
    ensures GetValue(IntegerType, StoredText(IntegerType, Some(VInt(n)))) == Got(VInt(n))
  {
  }

  /** A text stored in a string setting reads back unchanged. */
  lemma StringRoundTrip(s: string)
    ensures GetValue(StringType, StoredText(StringType, Some(VStr(s)))) == Got(VStr(s))
  {
  }

  /** True and False stored in a boolean setting read back as themselves. */
  lemma BooleanRoundTrip(b: bool)
    ensures GetValue(BooleanType, StoredText(BooleanType, Some(VBool(b)))) == Got(VBool(b))
  {
    var t := if b then "True" else "False";
    assert Text.Lower(t) == (if b then "true" else "false");
  }

  /** A boolean stored in an integer setting is written 'True' or 'False', which `int()` refuses. */
  lemma BooleanInIntegerSettingRaises(b: bool)
    ensures GetValue(IntegerType, StoredText(IntegerType, Some(VBool(b)))) == Raises
  {
    var t := PyStr(VBool(b));
    assert t[0] == 'T' || t[0] == 'F';
    NotAnInteger(t);
  }

  /** Text that starts with a letter after no whitespace is not an integer for `int()`. */
  lemma NotAnInteger(t: string)
    requires t != [] && Text.IsStripped(t) && !Text.IsDigit(t[0]) && t[0] != '-' && t[0] != '+'
    ensures Text.ParseInt(t).None?
  {
    Text.StripStripped(t);
  }

  /** A `system_settings` row. */
  datatype Setting = Setting(id: nat, category: string, key: string, value: Option<string>,
                             valueType: ValueType, description: Option<string>,
                             isSystem: bool, updatedBy: Option<nat>)

  /** `set_value` on one row: only the stored text changes, after the row's own type. */
  function WithValue(s: Setting, v: Option<Value>): (r: Setting)
    ensures r.value == StoredText(s.valueType, v)
    ensures GetValue(r.valueType, r.value) == GetValue(s.valueType, StoredText(s.valueType, v))
    ensures r == s.(value := r.value)
  {
    s.(value := StoredText(s.valueType, v))
  }

  /** `get_by_key`: the first row with that category and key. */
  function FindByKey(rows: seq<Setting>, category: string, key: string): (r: Option<nat>)
    ensures r.Some? ==> r.value < |rows| && rows[r.value].category == category && rows[r.value].key == key
    ensures r.Some? ==> forall i :: 0 <= i < r.value ==> !(rows[i].category == category && rows[i].key == key)
    ensures r.None? <==> forall i :: 0 <= i < |rows| ==> !(rows[i].category == category && rows[i].key == key)
  {
    if rows == [] then None
    else if rows[0].category == category && rows[0].key == key then Some(0)
    else match FindByKey(rows[1..], category, key)
      case None => None
      case Some(k) => Some(k + 1)
  }

  /** `get_value_by_key`: the row's value, or the default when there is no such row. */
  function ValueByKey(rows: seq<Setting>, category: string, key: string, default: Reading): (r: Reading)
    ensures FindByKey(rows, category, key).None? ==> r == default
    ensures FindByKey(rows, category, key).Some? ==>
              var s := rows[FindByKey(rows, category, key).value];
              r == GetValue(s.valueType, s.value)
  {
    match FindByKey(rows, category, key)
    case None => default
    case Some(i) => GetValue(rows[i].valueType, rows[i].value)
  }

  /**
   * `get_by_category` followed by the dict comprehension of
   * `get_server_settings` and its three siblings: each key of the category
   * mapped to its row's value, a later row winning for a repeated key.
   */
  function CategoryValues(rows: seq<Setting>, category: string): (m: map<string, Reading>)
    ensures forall k :: k in m <==> FindByKey(rows, category, k).Some?
  {
    if rows == [] then map[]
    else
      var first := if rows[0].category == category
                   then map[rows[0].key := GetValue(rows[0].valueType, rows[0].value)] else map[];
      first + CategoryValues(rows[1..], category)
  }

  /** Unique keys stay unique once the first row is dropped. */
  lemma UniqueKeysTail(rows: seq<Setting>)
    requires rows != [] && UniqueKeys(rows)
    ensures UniqueKeys(rows[1..])
  {
    var rest := rows[1..];
    forall i, j | 0 <= i < |rest| && 0 <= j < |rest| && rest[i].category == rest[j].category
                  && rest[i].key == rest[j].key
      ensures i == j
    {
      assert rows[i + 1] == rest[i] && rows[j + 1] == rest[j];
    }
  }

  /**
   * With unique keys the category dictionary agrees with `get_value_by_key`
   * on every key it holds.
   */
  lemma {:induction false} CategoryValuesAgree(rows: seq<Setting>, category: string, k: string, default: Reading)
    requires UniqueKeys(rows) && k in CategoryValues(rows, category)
    ensures CategoryValues(rows, category)[k] == ValueByKey(rows, category, k, default)
  {
    var rest := rows[1..];
    var tail := CategoryValues(rest, category);
    UniqueKeysTail(rows);
    if rows[0].category == category && rows[0].key == k {
      assert k !in tail by {
        forall i | 0 <= i < |rest|
          ensures !(rest[i].category == category && rest[i].key == k)
        {
          assert rows[i + 1] == rest[i];
        }
      }
      assert FindByKey(rows, category, k) == Some(0);
    } else {
      assert k in tail;
      CategoryValuesAgree(rest, category, k, default);
    }
  }

  /** No two rows share a (category, key) pair. */
  predicate UniqueKeys(rows: seq<Setting>)
  {
    forall i, j :: (0 <= i < |rows| && 0 <= j < |rows| && rows[i].category == rows[j].category
                    && rows[i].key == rows[j].key) ==> i == j
  }

  /** The table after `set_value_by_key`, and the position of the row it saved. */
  datatype Upserted = Upserted(rows: seq<Setting>, at: nat)

  /**
   * `set_value_by_key`: an existing row takes the value, rendered after its
   * own type, and the updating user; otherwise a new non-system row is
   * appended with the given type and description.
   */
  function Upsert(rows: seq<Setting>, nextId: nat, category: string, key: string, v: Option<Value>,
                  valueType: ValueType, description: Option<string>, user: Option<nat>): (r: Upserted)
    ensures |r.rows| == |rows| || |r.rows| == |rows| + 1
    ensures r.at < |r.rows|
  {
    match FindByKey(rows, category, key)
    case Some(i) => Upserted(rows[i := WithValue(rows[i], v).(updatedBy := user)], i)
    case None =>
      Upserted(rows + [Setting(nextId, category, key, StoredText(valueType, v), valueType, description, false, user)],
               |rows|)
  }

  /**
   * After the upsert the key is found at the saved row, which holds the
   * value rendered after the row's type and names the updating user; every
   * other row is unchanged.
   */
  lemma UpsertFinds(rows: seq<Setting>, nextId: nat, category: string, key: string, v: Option<Value>,
                    valueType: ValueType, description: Option<string>, user: Option<nat>)
    ensures var u := Upsert(rows, nextId, category, key, v, valueType, description, user);
      FindByKey(u.rows, category, key) == Some(u.at)
      && u.rows[u.at].value == StoredText(u.rows[u.at].valueType, v)
      && u.rows[u.at].updatedBy == user
      && (forall i :: 0 <= i < |rows| && i != u.at ==> u.rows[i] == rows[i])
  {
    var u := Upsert(rows, nextId, category, key, v, valueType, description, user);
    match FindByKey(rows, category, key)
    case Some(i) =>
      FindByKeyFirst(u.rows, category, key, i);
    case None =>
      FindByKeyFirst(u.rows, category, key, |rows|);
  }

  /** A matching row with no match before it is the one `get_by_key` finds. */
  lemma {:induction false} FindByKeyFirst(rows: seq<Setting>, category: string, key: string, i: nat)
    requires i < |rows| && rows[i].category == category && rows[i].key == key
    requires forall j :: 0 <= j < i ==> !(rows[j].category == category && rows[j].key == key)
    ensures FindByKey(rows, category, key) == Some(i)
  {
    if i > 0 {
      FindByKeyFirst(rows[1..], category, key, i - 1);
    }
  }

  /**
   * An existing row keeps its type, id, description and system flag: the
   * type and description given to `set_value_by_key` only shape a new row.
   */
  lemma UpsertKeepsType(rows: seq<Setting>, nextId: nat, category: string, key: string, v: Option<Value>,
                        valueType: ValueType, description: Option<string>, user: Option<nat>)
    requires FindByKey(rows, category, key).Some?
    ensures var i := FindByKey(rows, category, key).value;
      var u := Upsert(rows, nextId, category, key, v, valueType, description, user);
      u.at == i && |u.rows| == |rows|
      && u.rows[i] == rows[i].(value := StoredText(rows[i].valueType, v), updatedBy := user)
  {
  }

  /** Reading the key back after the upsert gives what the value round trips to. */
  lemma UpsertThenRead(rows: seq<Setting>, nextId: nat, category: string, key: string, n: int,
                       description: Option<string>, user: Option<nat>, default: Reading)
    requires FindByKey(rows, category, key).None? || rows[FindByKey(rows, category, key).value].valueType == IntegerType
    ensures ValueByKey(Upsert(rows, nextId, category, key, Some(VInt(n)), IntegerType, description, user).rows,
                       category, key, default) == Got(VInt(n))
  {
    UpsertFinds(rows, nextId, category, key, Some(VInt(n)), IntegerType, description, user);
  }

  /** The upsert never creates a second row for a (category, key) pair. */
  lemma UpsertKeepsKeysUnique(rows: seq<Setting>, nextId: nat, category: string, key: string, v: Option<Value>,
                              valueType: ValueType, description: Option<string>, user: Option<nat>)
    requires UniqueKeys(rows)
    ensures UniqueKeys(Upsert(rows, nextId, category, key, v, valueType, description, user).rows)
  {
    var u := Upsert(rows, nextId, category, key, v, valueType, description, user);
    match FindByKey(rows, category, key)
    case Some(i) =>
      assert forall j :: 0 <= j < |rows| ==> u.rows[j].category == rows[j].category && u.rows[j].key == rows[j].key;
    case None =>
      assert forall j :: 0 <= j < |rows| ==> u.rows[j] == rows[j];
  }

  /** `delete`: a system setting stays and False is returned; any other row is removed. */
  function Delete(rows: seq<Setting>, i: nat): (r: (bool, seq<Setting>))
    requires i < |rows|
    ensures r.0 <==> !rows[i].isSystem
    ensures !r.0 ==> r.1 == rows
    ensures r.0 ==> |r.1| == |rows| - 1 && multiset(r.1) + multiset{rows[i]} == multiset(rows)
  {
    if rows[i].isSystem then (false, rows)
    else
      assert rows == rows[..i] + [rows[i]] + rows[i + 1..];
      (true, rows[..i] + rows[i + 1..])
  }

  /** System settings survive every delete. */
  lemma SystemSettingsStay(rows: seq<Setting>, i: nat, j: nat)
    requires i < |rows| && j < |rows| && rows[j].isSystem
    ensures rows[j] in Delete(rows, i).1
  {
    if !rows[i].isSystem {
      assert i != j;
      var r := Delete(rows, i).1;
      if j < i {
        assert r[j] == rows[j];
      } else {
        assert r[j - 1] == rows[j];
      }
    }
  }

  /** The settings table. */
  class SettingsTable {
    var rows: seq<Setting>
    var nextId: nat

    constructor ()
      ensures rows == [] && nextId == 1
    {
      rows := [];
      nextId := 1;
    }

    /** `setting.set_value(value)` on the row at position `i`. */
    method SetValue(i: nat, v: Option<Value>)
      requires i < |rows|
      modifies this
      ensures rows == old(rows)[i := WithValue(old(rows)[i], v)] && nextId == old(nextId)
    {
      var s := rows[i];
      if v.None? {
        rows := rows[i := s.(value := None)];
      } else if s.valueType == JsonType {
        rows := rows[i := s.(value := Some(JsonDumps(v.value)))];
      } else {
        rows := rows[i := s.(value := Some(PyStr(v.value)))];
      }
    }

    /** `setting.delete()` on the row at position `i`. */
    method DeleteAt(i: nat) returns (deleted: bool)
      requires i < |rows|
      modifies this
      ensures (deleted, rows) == Delete(old(rows), i) && nextId == old(nextId)
    {
      if !rows[i].isSystem {
        rows := rows[..i] + rows[i + 1..];
        return true;
      }
      return false;
    }

    /** `set_value_by_key`, returning the position of the saved row. */
    method SetValueByKey(category: string, key: string, v: Option<Value>, valueType: ValueType,
                         description: Option<string>, user: Option<nat>) returns (at: nat)
      modifies this
      ensures Upserted(rows, at) == Upsert(old(rows), old(nextId), category, key, v, valueType, description, user)
      ensures nextId == if |rows| > |old(rows)| then old(nextId) + 1 else old(nextId)
    {
      var found := FindByKey(rows, category, key);
      if found.Some? {
        at := found.value;
        SetValue(at, v);
        rows := rows[at := rows[at].(updatedBy := user)];
      } else {
        rows := rows + [Setting(nextId, category, key, None, valueType, description, false, user)];
        at := |rows| - 1;
        SetValue(at, v);
        nextId := nextId + 1;
      }
    }
  }
}
