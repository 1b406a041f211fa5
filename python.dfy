/** The Python values the applications pass around: parsed JSON (a dict keeps
    its members in insertion order), the exceptions that can escape, and the
    few builtins applied to them (dict.get, d[k], truthiness, str()). */
module Py {
  import opened Text

  datatype Option<T> = None | Some(value: T)

  /** The Python exceptions that the modelled code lets escape. */
  datatype PyError =
    | KeyError(key: string)     // d[k] on a dict without k
    | TypeError                 // subscripting or slicing a value that does not allow it, str + non-str
    | AttributeError            // .get on a value that is not a dict
    | IndexError                // [0] on an empty list
    | NameError(name: string)   // a name the module never defines
    | FileNotFound(path: string)
    | RequestFailed             // an exception raised by the HTTP client

  datatype Result<T> = Ok(value: T) | Err(error: PyError)

  /** A value produced by json.loads. Numbers are integers only. */
  datatype Json =
    | Null
    | Bool(b: bool)
    | Num(n: int)
    | Str(s: string)
    | Arr(items: seq<Json>)
    | Obj(members: seq<Member>)

  datatype Member = Member(key: string, value: Json)

  /** The value bound to `key` in a dict's members (the first binding). */
  function Lookup(ms: seq<Member>, key: string): (r: Option<Json>)
    ensures r.None? <==> forall k :: 0 <= k < |ms| ==> ms[k].key != key
    ensures r.Some? ==> Member(key, r.value) in ms
  {
    if |ms| == 0 then None
    else if ms[0].key == key then Some(ms[0].value)
    else Lookup(ms[1..], key)
  }

  /** `key in d` for a dict d. */
  predicate HasKey(j: Json, key: string) {
    j.Obj? && Lookup(j.members, key).Some?
  }

  /** d.get(key, default): AttributeError unless d is a dict. */
  function Get(j: Json, key: string, default: Json): (r: Result<Json>)
    ensures r.Err? <==> !j.Obj?
    ensures r.Err? ==> r.error == AttributeError
    ensures r.Ok? && !HasKey(j, key) ==> r.value == default
    ensures r.Ok? && HasKey(j, key) ==> Member(key, r.value) in j.members
  {
    if !j.Obj? then Err(AttributeError)
    else match Lookup(j.members, key)
      case Some(v) => Ok(v)
      case None => Ok(default)
  }

  /** d[key] with a string key: KeyError on a dict without it, TypeError on
      anything that is not a dict. */
  function Index(j: Json, key: string): (r: Result<Json>)
    ensures r.Ok? <==> HasKey(j, key)
    ensures r.Ok? ==> Member(key, r.value) in j.members
    ensures r.Err? && j.Obj? ==> r.error == KeyError(key)
  {
    if !j.Obj? then Err(TypeError)
    else match Lookup(j.members, key)
      case Some(v) => Ok(v)
      case None => Err(KeyError(key))
  }

  /** The one-character strings a Python string yields when iterated. */
  function Chars(s: string): (r: seq<Json>)
    ensures |r| == |s| && forall k :: 0 <= k < |s| ==> r[k] == Str([s[k]])
  {
    seq(|s|, k requires 0 <= k < |s| => Str([s[k]]))
  }

  /** The values iter(j) yields: a list's items, a string's one-character
      strings, a dict's keys. Iterating None, a bool or a number raises
      TypeError. */
  function Iterate(j: Json): (r: Result<seq<Json>>)
    ensures r.Err? <==> j.Null? || j.Bool? || j.Num?
    ensures r.Err? ==> r.error == TypeError
    ensures j.Arr? ==> r == Ok(j.items)
    ensures j.Str? ==> r == Ok(Chars(j.s))
    ensures j.Obj? ==> r.Ok? && |r.value| == |j.members|
  {
    match j
    case Arr(items) => Ok(items)
    case Str(s) => Ok(Chars(s))
    case Obj(ms) => Ok(seq(|ms|, k requires 0 <= k < |ms| => Str(ms[k].key)))
    case _ => Err(TypeError)
  }

  /** Python truthiness: None, False, 0, "", [] and {} are false. */
  predicate Truthy(j: Json) {
    match j
    case Null => false
    case Bool(b) => b
    case Num(n) => n != 0
    case Str(s) => s != ""
    case Arr(items) => items != []
    case Obj(ms) => ms != []
  }

  /** repr() of a value. Strings are shown between single quotes without
      Python's escaping. */
  function Repr(j: Json): string
    decreases j
  {
    match j
    case Null => "None"
    case Bool(b) => if b then "True" else "False"
    case Num(n) => IntToString(n)
    case Str(s) => "'" + s + "'"
    case Arr(items) =>
      "[" + Join(", ", seq(|items|, i requires 0 <= i < |items| => Repr(items[i]))) + "]"
    case Obj(ms) =>
      "{" + Join(", ", seq(|ms|, i requires 0 <= i < |ms| => "'" + ms[i].key + "': " + Repr(ms[i].value))) + "}"
  }

  /** str() of a value, as an f-string renders it: a string is itself,
      anything else its repr(). */
  function Show(j: Json): (r: string)
    ensures j.Str? ==> r == j.s
    ensures j == Null ==> r == "None"
  {
    if j.Str? then j.s else Repr(j)
  }
}
