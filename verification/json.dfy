/** The decoded JSON values the provider responses arrive as (what Jackson
    hands over as `Map<String, Object>`), and the casts the code applies to
    them. A cast to the wrong type is a `ClassCastException`, modelled as
    `Err`; a missing key and an explicit `null` both read as null. Numbers
    are integral: fractional numbers are not modelled. */
module Json {
  import opened Wrappers

  datatype Json =
    | JNull
    | JBool(b: bool)
    | JNum(n: int)
    | JStr(s: string)
    | JArr(items: seq<Json>)
    | JObj(fields: map<string, Json>)

  type Object = map<string, Json>

  const CastError: string := "ClassCastException"

  /** What an HTTP exchange produced: a decoded body (possibly null) or an
      exception. */
  datatype Fetch = Fetched(body: Option<Object>) | FetchFailed

  /** `(String) obj.get(key)`. */
  function GetString(obj: Object, key: string): (r: Result<Option<string>>)
    ensures r.Ok? && r.value.Some? <==> key in obj && obj[key].JStr?
    ensures r.Ok? && r.value.Some? ==> r.value.value == obj[key].s
    ensures r.Ok? && r.value.None? <==> key !in obj || obj[key].JNull?
  {
    if key !in obj then Ok(None)
    else match obj[key]
      case JNull => Ok(None)
      case JStr(s) => Ok(Some(s))
      case _ => Err(CastError)
  }

  /** `(Map<String, Object>) obj.get(key)`. */
  function GetObject(obj: Object, key: string): (r: Result<Option<Object>>)
    ensures r.Ok? && r.value.Some? <==> key in obj && obj[key].JObj?
    ensures r.Ok? && r.value.Some? ==> r.value.value == obj[key].fields
    ensures r.Ok? && r.value.None? <==> key !in obj || obj[key].JNull?
  {
    if key !in obj then Ok(None)
    else match obj[key]
      case JNull => Ok(None)
      case JObj(fields) => Ok(Some(fields))
      case _ => Err(CastError)
  }

  /** `(List<Map<String, Object>>) obj.get(key)`; the elements are cast one
      by one when iterated. */
  function GetList(obj: Object, key: string): (r: Result<Option<seq<Json>>>)
    ensures r.Ok? && r.value.Some? <==> key in obj && obj[key].JArr?
    ensures r.Ok? && r.value.Some? ==> r.value.value == obj[key].items
    ensures r.Ok? && r.value.None? <==> key !in obj || obj[key].JNull?
  {
    if key !in obj then Ok(None)
    else match obj[key]
      case JNull => Ok(None)
      case JArr(items) => Ok(Some(items))
      case _ => Err(CastError)
  }

  /** The loop variable of `for (Map<String, Object> item : items)`. A null
      element passes the cast and only fails when used. */
  function AsObject(j: Json): Result<Option<Object>> {
    match j
    case JNull => Ok(None)
    case JObj(fields) => Ok(Some(fields))
    case _ => Err(CastError)
  }

  /** `Number.intValue()` of an integral number: the low 32 bits, read as a
      signed value. */
  function IntValue(n: int): (r: int)
    ensures -0x8000_0000 <= r < 0x8000_0000
    ensures -0x8000_0000 <= n < 0x8000_0000 ==> r == n
    ensures (r - n) % 0x1_0000_0000 == 0
  {
    var low := n % 0x1_0000_0000;
    if low >= 0x8000_0000 then low - 0x1_0000_0000 else low
  }

  /** `obj.get(key) instanceof Number ? intValue : unset`. */
  function GetNumber(obj: Object, key: string): (r: Option<int>)
    ensures r.Some? <==> key in obj && obj[key].JNum?
  {
    if key in obj && obj[key].JNum? then Some(IntValue(obj[key].n)) else None
  }
}
