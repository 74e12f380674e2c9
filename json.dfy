/** The value that is present or absent, as `dict.get(key)` returns it. */
module Optional {
  datatype Option<T> = None | Some(value: T)
}

/** JSON documents as `json.load` hands them to the migration scripts. */
module JsonValues {
  import opened Optional

  /** A JSON value. Numbers are integers (floats are not modelled). An object is a
      Python `dict`, so a key occurs at most once; the order of its keys is not
      modelled. */
  datatype Json =
    | Null
    | Bool(b: bool)
    | Num(n: int)
    | Str(s: string)
    | Arr(items: seq<Json>)
    | Obj(fields: map<string, Json>)

  type Dict = map<string, Json>

  /** `d.get(k)`, with absence made explicit. */
  function Lookup(d: Dict, k: string): Option<Json>
  {
    if k in d then Some(d[k]) else None
  }

  /** Python truthiness: `None`, `False`, `0`, `""`, `[]` and `{}` are false. */
  predicate Truthy(v: Json)
  {
    match v
    case Null => false
    case Bool(b) => b
    case Num(n) => n != 0
    case Str(s) => s != []
    case Arr(xs) => xs != []
    case Obj(m) => m != map[]
  }

  /** Values that may be used as a `dict` key or tested with `in` against one;
      lists and dicts raise `TypeError: unhashable type`. */
  predicate Hashable(v: Json)
  {
    !v.Arr? && !v.Obj?
  }

  /** A value a cleaner accepts: a string, or anything falsy (which the cleaner turns
      into `""` before touching it). A truthy non-string makes `re.sub` raise. */
  predicate TextLike(v: Json)
  {
    v.Str? || !Truthy(v)
  }

  /** The string a cleaner works on once its `if not html_text: return ""` guard has
      run. On a truthy non-string the cleaner raises instead; callers rule that out
      with `TextLike`. */
  function TextOf(v: Json): string
  {
    if v.Str? then v.s else ""
  }
}
