/** JSON documents as Python's `json` module hands them to the program,
    with the parts of Python's object semantics the program depends on. */
module Json {
  import opened Basics

  /** A decoded JSON value; JSON numbers are modelled as integers. */
  datatype Json =
    | JNull
    | JBool(b: bool)
    | JNum(n: int)
    | JStr(s: string)
    | JArr(items: seq<Json>)
    | JObj(members: map<string, Json>)

  /** Python truthiness: `None`, `False`, `0`, `""`, `[]` and `{}` are false. */
  predicate Truthy(j: Json)
  {
    match j
    case JNull => false
    case JBool(b) => b
    case JNum(n) => n != 0
    case JStr(s) => s != ""
    case JArr(xs) => xs != []
    case JObj(m) => m != map[]
  }

  /** Lists and dicts cannot be put in a Python `set`. */
  predicate Hashable(j: Json)
  {
    !j.JArr? && !j.JObj?
  }

  /** Booleans are integers in Python: `True == 1` and `False == 0`. */
  function NumericValue(j: Json): Option<int>
  {
    match j
    case JBool(b) => Some(if b then 1 else 0)
    case JNum(n) => Some(n)
    case _ => None
  }

  /** Python's `==` on hashable values (what `set` uses to merge elements). */
  predicate PyEq(a: Json, b: Json)
  {
    a == b || (NumericValue(a).Some? && NumericValue(a) == NumericValue(b))
  }

  /** The name `type(j).__name__` gives. */
  function TypeName(j: Json): string
  {
    match j
    case JNull => "NoneType"
    case JBool(_) => "bool"
    case JNum(_) => "int"
    case JStr(_) => "str"
    case JArr(_) => "list"
    case JObj(_) => "dict"
  }

  /** `j.get(key, default)`; `None` when `j` is not a dict (AttributeError). */
  function Get(j: Json, key: string, default: Json): (r: Option<Json>)
    ensures r.Some? <==> j.JObj?
    ensures r.Some? && key !in j.members ==> r.value == default
    ensures r.Some? && key in j.members ==> r.value == j.members[key]
  {
    match j
    case JObj(m) => Some(if key in m then m[key] else default)
    case _ => None
  }

  /** `j[key]` with a string key; `None` when it raises (KeyError, TypeError). */
  function Index(j: Json, key: string): (r: Option<Json>)
    ensures r.Some? <==> j.JObj? && key in j.members
    ensures r.Some? ==> r.value == j.members[key]
  {
    match j
    case JObj(m) => if key in m then Some(m[key]) else None
    case _ => None
  }

  /** Equality on strings is plain equality, as in Python. */
  lemma PyEqOnStrings(s: string, j: Json)
    ensures PyEq(JStr(s), j) <==> j == JStr(s)
    ensures PyEq(j, JStr(s)) <==> j == JStr(s)
  {
  }
}
