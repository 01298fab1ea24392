/** JSON values as block attributes carry them, and the JavaScript truthiness and string conversion applied to them. */
module Json {
  import opened Wrappers
  import Strings

  /** A parsed JSON value; numbers are restricted to integers. */
  datatype Json = JNull | JBool(b: bool) | JNum(n: int) | JStr(s: string) | JArr(items: seq<Json>) | JObj(fields: map<string, Json>)

  /** The attribute object of a block comment. */
  type Attrs = map<string, Json>

  /** JavaScript truthiness of a JSON value. */
  predicate Truthy(v: Json) {
    match v
    case JNull => false
    case JBool(b) => b
    case JNum(n) => n != 0
    case JStr(s) => s != []
    case _ => true
  }

  /** `attributes?.key as string` read where the code only proceeds on a truthy string. */
  function StrAttr(attrs: Option<Attrs>, key: string): (r: Option<string>)
    ensures r.Some? <==> attrs.Some? && key in attrs.value && attrs.value[key].JStr? && attrs.value[key].s != []
    ensures r.Some? ==> attrs.value[key] == JStr(r.value)
  {
    if attrs.Some? && key in attrs.value && attrs.value[key].JStr? && attrs.value[key].s != [] then Some(attrs.value[key].s)
    else None
  }

  /** `attributes?.key` read where only its truthiness decides. */
  function TruthyAttr(attrs: Option<Attrs>, key: string): (r: Option<Json>)
    ensures r.Some? <==> attrs.Some? && key in attrs.value && Truthy(attrs.value[key])
    ensures r.Some? ==> r.value == attrs.value[key]
  {
    if attrs.Some? && key in attrs.value && Truthy(attrs.value[key]) then Some(attrs.value[key]) else None
  }

  /** `String(v)` for a JSON value. */
  function ToText(v: Json): (r: string)
    ensures v.JStr? ==> r == v.s
    ensures v.JNum? ==> r == Strings.IntToString(v.n)
  {
    match v
    case JNull => "null"
    case JBool(b) => if b then "true" else "false"
    case JNum(n) => Strings.IntToString(n)
    case JStr(s) => s
    case JArr(items) => JoinItems(items)
    case JObj(_) => "[object Object]"
  }

  /** `Number(v)` for a JSON value; `None` is `NaN`. Arrays and objects convert through their text. */
  function NumberValue(v: Json): (r: Option<int>)
    ensures v.JStr? ==> r == Strings.ToNumber(v.s)
  {
    match v
    case JNull => Some(0)
    case JBool(b) => Some(if b then 1 else 0)
    case JNum(n) => Some(n)
    case _ => Strings.ToNumber(ToText(v))
  }

  /** A number reads as itself, and so does its decimal text. */
  lemma NumberValueOfNumber(n: int)
    ensures NumberValue(JNum(n)) == Some(n)
    ensures NumberValue(JStr(ToText(JNum(n)))) == Some(n)
  {
    Strings.ToNumberOfInt(n);
  }

  /** `Array.prototype.join(',')`, where `null` items print as nothing. */
  function JoinItems(items: seq<Json>): string {
    if items == [] then ""
    else
      var head := if items[0].JNull? then "" else ToText(items[0]);
      if |items| == 1 then head else head + "," + JoinItems(items[1..])
  }
}
