/** The `JsonNode` accessors the import reads a document with, over the
    decoded values of the `Json` module. `get` on a node that is not an
    object, or for an absent key, gives Java's null, and calling a method
    on that null is a `NullPointerException`; the conversions never throw
    and fall back to a default instead. */
module Jackson {
  import opened Wrappers
  import opened JavaText
  import opened Json

  const NullPointer: string := "NullPointerException"

  /** `node.get(key)`: the field of an object node, null otherwise. */
  function Get(node: Json, key: string): (r: Option<Json>)
    ensures r.Some? <==> node.JObj? && key in node.fields
    ensures r.Some? ==> r.value == node.fields[key]
  {
    if node.JObj? && key in node.fields then Some(node.fields[key]) else None
  }

  /** `node.get(key).asXxx()`: the field, or the exception of calling a
      method on null. */
  function Field(node: Json, key: string): (r: Result<Json>)
    ensures r.Ok? <==> Get(node, key).Some?
    ensures r.Ok? ==> r.value == node.fields[key]
  {
    if node.JObj? && key in node.fields then Ok(node.fields[key]) else Err(NullPointer)
  }

  /** `node.has(key)`: the key is present, even with an explicit null. */
  predicate Has(node: Json, key: string) {
    node.JObj? && key in node.fields
  }

  /** `node != null && node.isArray()`. */
  predicate IsArray(node: Option<Json>) {
    node.Some? && node.value.JArr?
  }

  /** Half the range of Java's `long` and `int`. */
  const LongHalf: int := 0x8000_0000_0000_0000
  const IntHalf: int := 0x8000_0000

  /** The low 64 bits of an integral number, read as a signed value: the
      `long` a number node gives, as `IntValue` gives its `int`. */
  function LongValue(n: int): (r: int)
    ensures -LongHalf <= r < LongHalf
    ensures -LongHalf <= n < LongHalf ==> r == n
    ensures (r - n) % 0x1_0000_0000_0000_0000 == 0
  {
    var low := n % 0x1_0000_0000_0000_0000;
    if low >= 0x8000_0000_0000_0000 then low - 0x1_0000_0000_0000_0000 else low
  }

  /** `NumberInput.parseAsLong`/`parseAsInt` for a text of decimal digits,
      with an optional sign, after trimming. Jackson parses any other text
      as a `double` and truncates it; floating point is not modelled, so
      such a text, like a value outside the range, gives the default 0. */
  function ParseIntegral(s: string, half: int): (r: int)
    requires half > 0
    ensures -half <= r < half
  {
    var t := Trim(s);
    var negative := |t| > 0 && t[0] == '-';
    var digits := if |t| > 0 && (t[0] == '-' || t[0] == '+') then t[1..] else t;
    if |digits| == 0 || exists i :: 0 <= i < |digits| && !IsDigit(digits[i]) then 0
    else
      var v := if negative then -(DigitsValue(digits) as int) else DigitsValue(digits) as int;
      if -half <= v < half then v else 0
  }

  /** `asText()`: a text as it is, a number or a boolean spelled out, null
      as "null", and an array or object as the empty text. */
  function AsText(node: Json): (r: string)
    ensures node.JStr? ==> r == node.s
    ensures node.JArr? || node.JObj? ==> r == ""
  {
    match node
    case JStr(s) => s
    case JNum(n) => IntToString(n)
    case JBool(b) => if b then "true" else "false"
    case JNull => "null"
    case _ => ""
  }

  /** `asLong()` and `asInt()`, for the range of `long` or `int`: a number
      narrowed, a boolean as 1 or 0, a text parsed, anything else 0. */
  function AsIntegral(node: Json, half: int): (r: int)
    requires half == LongHalf || half == IntHalf
    ensures -half <= r < half
    ensures node.JNum? && -half <= node.n < half ==> r == node.n
    ensures node.JNull? || node.JArr? || node.JObj? ==> r == 0
  {
    match node
    case JNum(n) => if half == LongHalf then LongValue(n) else IntValue(n)
    case JBool(b) => if b then 1 else 0
    case JStr(s) => ParseIntegral(s, half)
    case _ => 0
  }

  function AsLong(node: Json): (r: int)
    ensures -LongHalf <= r < LongHalf
    ensures node.JNum? && -LongHalf <= node.n < LongHalf ==> r == node.n
  {
    AsIntegral(node, LongHalf)
  }

  function AsInt(node: Json): (r: int)
    ensures -IntHalf <= r < IntHalf
    ensures node.JNum? && -IntHalf <= node.n < IntHalf ==> r == node.n
  {
    AsIntegral(node, IntHalf)
  }

  /** `asBoolean()`: a boolean as it is, a number as non-zero, a text as
      whether it trims to "true", anything else false. */
  function AsBoolean(node: Json): (r: bool)
    ensures node.JBool? ==> r == node.b
    ensures node.JNull? || node.JArr? || node.JObj? ==> !r
  {
    match node
    case JBool(b) => b
    case JNum(n) => n != 0
    case JStr(s) => Trim(s) == "true"
    case _ => false
  }
}
