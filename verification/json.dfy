/** Python's view of a decoded JSON document (dicts, lists, str, int, bool,
    None) and the handful of operations the plugins apply to it: `d[k]`,
    `d.get(k, default)`, truthiness, iteration and `str()`. The exceptions the
    plugins can raise are values of `Error`. */
module Json {
  import opened Wrappers

  datatype Json =
    | JNull
    | JBool(b: bool)
    | JNum(n: int)
    | JStr(s: string)
    | JArr(items: seq<Json>)
    | JObj(fields: map<string, Json>)

  /** The Python exceptions the modelled code raises or lets escape. */
  datatype Error =
    | KeyError(key: string)
    | TypeError
    | AttributeError
    | NotImplementedError
    | ValueError
    | FileNotFound(path: string)
    | DecodeError(path: string)
    | HttpError(url: string)
    | StopIteration
    | RuntimeError
    | RecursionError
    | NameError
    | UnboundLocalError
    | ZeroDivisionError
    | Failure(what: string)

  type Outcome<T> = Result<T, Error>

  /** Python truthiness of a JSON value. */
  predicate Truthy(j: Json) {
    match j
    case JNull => false
    case JBool(b) => b
    case JNum(n) => n != 0
    case JStr(s) => |s| > 0
    case JArr(xs) => |xs| > 0
    case JObj(m) => |m| > 0
  }

  /** Python's `a or b`: `a` when it is truthy, else `b`. */
  function Or(a: Json, b: Json): (r: Json)
    ensures Truthy(a) ==> r == a
    ensures !Truthy(a) ==> r == b
  {
    if Truthy(a) then a else b
  }

  /** `j[k]` for a string key. */
  function Index(j: Json, k: string): (r: Outcome<Json>)
    ensures r.Ok? <==> j.JObj? && k in j.fields
    ensures r.Ok? ==> r.value == j.fields[k]
    ensures j.JObj? && k !in j.fields ==> r == Err(KeyError(k))
    ensures !j.JObj? ==> r == Err(TypeError)
  {
    match j
    case JObj(m) => if k in m then Ok(m[k]) else Err(KeyError(k))
    case _ => Err(TypeError)
  }

  /** `j.get(k, default)`; Python's `j.get(k)` is `GetOr(j, k, JNull)`. A value
      that is not a dict has no `get` method. */
  function GetOr(j: Json, k: string, default: Json): (r: Outcome<Json>)
    ensures r.Ok? <==> j.JObj?
    ensures j.JObj? && k in j.fields ==> r == Ok(j.fields[k])
    ensures j.JObj? && k !in j.fields ==> r == Ok(default)
    ensures !j.JObj? ==> r == Err(AttributeError)
  {
    match j
    case JObj(m) => Ok(if k in m then m[k] else default)
    case _ => Err(AttributeError)
  }

  function Get(j: Json, k: string): Outcome<Json> {
    GetOr(j, k, JNull)
  }

  /** `j[a][b]`. */
  function Index2(j: Json, a: string, b: string): (r: Outcome<Json>)
    ensures r.Ok? <==> Index(j, a).Ok? && Index(Index(j, a).value, b).Ok?
  {
    var x :- Index(j, a);
    Index(x, b)
  }

  /** The elements a `for` loop visits, where each element is then subscripted
      by a string key: a list gives its items; an empty dict or string gives
      nothing; anything else fails at once (an int or None is not iterable,
      and the keys of a dict or the characters of a string cannot be
      subscripted by a string). */
  function Iterate(j: Json): (r: Outcome<seq<Json>>)
    ensures j.JArr? ==> r == Ok(j.items)
    ensures r.Ok? && !j.JArr? ==> r.value == []
  {
    match j
    case JArr(xs) => Ok(xs)
    case JObj(m) => if |m| == 0 then Ok([]) else Err(TypeError)
    case JStr(s) => if |s| == 0 then Ok([]) else Err(TypeError)
    case _ => Err(TypeError)
  }

  /** A value used where the plugin calls a `str` method on it. */
  function AsStr(j: Json): (r: Outcome<string>)
    ensures r.Ok? <==> j.JStr?
    ensures r.Ok? ==> r.value == j.s
    ensures !j.JStr? ==> r == Err(AttributeError)
  {
    if j.JStr? then Ok(j.s) else Err(AttributeError)
  }

  /** Decimal digits of a natural number, most significant first. */
  function NatDigits(n: nat): (r: string)
    ensures |r| >= 1
    ensures forall i :: 0 <= i < |r| ==> '0' <= r[i] <= '9'
    decreases n
  {
    if n < 10 then [('0' as int + n) as char]
    else NatDigits(n / 10) + [('0' as int + n % 10) as char]
  }

  /** Python's `str()` of a scalar, as an f-string prints it. Containers are
      printed as a fixed marker (their `repr` is not modelled). */
  function Display(j: Json): (r: string)
    ensures j.JStr? ==> r == j.s
    ensures j.JNull? ==> r == "None"
  {
    match j
    case JNull => "None"
    case JBool(b) => if b then "True" else "False"
    case JNum(n) => if n < 0 then "-" + NatDigits(-n) else NatDigits(n)
    case JStr(s) => s
    case JArr(_) => "[...]"
    case JObj(_) => "{...}"
  }

  /** Python's `==` between a JSON value and a string literal. */
  predicate IsStr(j: Json, s: string) {
    j == JStr(s)
  }

  /** A JSON value stored as a reference's user or post id: JSON null is
      Python's None; any other value stands for the text it formats as
      (f-strings and `os.path.join` see only that text). */
  function Ident(j: Json): (r: Option<string>)
    ensures r.None? <==> j.JNull?
    ensures j.JStr? ==> r == Some(j.s)
  {
    if j.JNull? then None else Some(Display(j))
  }

  /** `d[k] = v`: only a dict accepts a string key. */
  function SetField(j: Json, k: string, v: Json): (r: Outcome<Json>)
    ensures j.JObj? ==> r == Ok(JObj(j.fields[k := v]))
    ensures !j.JObj? ==> r == Err(TypeError)
  {
    if j.JObj? then Ok(JObj(j.fields[k := v])) else Err(TypeError)
  }

  /** A value handed to `os.path.split`, which accepts only text here. */
  function PathArg(j: Json): (r: Outcome<string>)
    ensures r.Ok? <==> j.JStr?
    ensures r.Ok? ==> r.value == j.s
    ensures !j.JStr? ==> r == Err(TypeError)
  {
    if j.JStr? then Ok(j.s) else Err(TypeError)
  }
}
