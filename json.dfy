/**
 * Decoded JSON values as the scripts see them after `json.loads`: Python's
 * None, bool, int, str, list and dict (a dict keeps its insertion order, so
 * an object is a sequence of members). The Python conversions the scripts
 * apply to such values (`int(x)`, `str(x)`, truthiness, `x or y`) live here.
 */
module Json {
  import opened Wrappers
  import Text

  datatype Json =
    | JNull
    | JBool(b: bool)
    | JInt(i: int)
    | JStr(s: string)
    | JArr(items: seq<Json>)
    | JObj(members: seq<Member>)

  datatype Member = Member(key: string, value: Json)

  /**
   * `d.get(key)` on a dict's members. A decoded dict has unique keys, so the
   * first member with the key is the only one.
   */
  function Get(members: seq<Member>, key: string): (r: Option<Json>)
    ensures r.Some? ==> Member(key, r.value) in members
    ensures r.None? ==> forall m :: m in members ==> m.key != key
  {
    if members == [] then None
    else if members[0].key == key then Some(members[0].value)
    else Get(members[1..], key)
  }

  /** `d.get(key)` with Python's None (JNull) for a missing key. */
  function GetOrNull(members: seq<Member>, key: string): Json {
    match Get(members, key)
    case Some(x) => x
    case None => JNull
  }

  /** `v.get(key)` where `v` is known to be a dict, anything else giving None. */
  function Field(v: Json, key: string): Json {
    if v.JObj? then GetOrNull(v.members, key) else JNull
  }

  /** `list(d.keys())`. */
  function Keys(members: seq<Member>): (r: seq<string>)
    ensures |r| == |members|
  {
    seq(|members|, i requires 0 <= i < |members| => members[i].key)
  }

  /** Python truthiness: `bool(v)`. */
  predicate Truthy(v: Json) {
    match v
    case JNull => false
    case JBool(b) => b
    case JInt(i) => i != 0
    case JStr(s) => s != ""
    case JArr(xs) => xs != []
    case JObj(ms) => ms != []
  }

  /** Python's `x or y`. */
  function Or(x: Json, y: Json): Json {
    if Truthy(x) then x else y
  }

  /**
   * Python's `int(v)`: an int as is, a bool as 0 or 1, a string through
   * `int(s)`; None, lists and dicts raise.
   */
  function PyInt(v: Json): Option<int> {
    match v
    case JInt(i) => Some(i)
    case JBool(b) => Some(if b then 1 else 0)
    case JStr(s) => Text.ParseInt(s)
    case _ => None
  }

  /** The canonical appid string `str(int(v))`, if `int(v)` succeeds. */
  function CanonicalId(v: Json): Option<string> {
    match PyInt(v)
    case Some(n) => Some(Text.IntToString(n))
    case None => None
  }

  /** Python's `str(v)`. */
  function PyStr(v: Json): string {
    match v
    case JStr(s) => s
    case _ => Repr(v)
  }

  /** Python's `repr(v)` (string escapes are not reproduced). */
  function Repr(v: Json): string {
    match v
    case JNull => "None"
    case JBool(b) => if b then "True" else "False"
    case JInt(i) => Text.IntToString(i)
    case JStr(s) => "'" + s + "'"
    case JArr(xs) => "[" + ReprItems(xs) + "]"
    case JObj(ms) => "{" + ReprMembers(ms) + "}"
  }

  function ReprItems(xs: seq<Json>): string {
    if xs == [] then ""
    else if |xs| == 1 then Repr(xs[0])
    else Repr(xs[0]) + ", " + ReprItems(xs[1..])
  }

  function ReprMembers(ms: seq<Member>): string {
    if ms == [] then ""
    else
      var head := "'" + ms[0].key + "': " + Repr(ms[0].value);
      if |ms| == 1 then head else head + ", " + ReprMembers(ms[1..])
  }

  /**
   * The items of an appid list file: the list under `"appids"` of a dict,
   * or the top-level list itself; None for any other shape.
   */
  function AppidList(data: Json): (r: Option<seq<Json>>)
    ensures r.Some? <==> data.JArr? || Field(data, "appids").JArr?
  {
    if Field(data, "appids").JArr? then Some(Field(data, "appids").items)
    else if data.JArr? then Some(data.items)
    else None
  }
}
