/** The JSON values the backend stores and returns (Python's json module types). */
module Json {
  datatype Json =
    | Null
    | Bool(b: bool)
    | Num(n: int)
    | Str(s: string)
    | Arr(items: seq<Json>)
    | Obj(fields: map<string, Json>)
  {
    /** Python's `isinstance(v, dict)`. */
    predicate IsDict()
    {
      Obj?
    }
  }

  /** The empty dict `{}`. */
  const EmptyObj: Json := Obj(map[])
}
