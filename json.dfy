/** Parsed JSON values as the route handler sees them after `JSON.parse`. */
module Json {
  import opened Wrappers

  /** A parsed JSON document. Numbers are modelled as integers. */
  datatype Json =
    | JNull
    | JBool(b: bool)
    | JNum(n: int)
    | JStr(s: string)
    | JArr(items: seq<Json>)
    | JObj(fields: seq<(string, Json)>)

  /** The runtime's `JSON.parse` (None when it throws) and `JSON.stringify(_, null, 2)`. */
  datatype Codec = Codec(parse: string -> Option<Json>, stringify: Json -> string)

  /** JavaScript truthiness of a parsed value. */
  predicate Truthy(j: Json) {
    match j
    case JNull => false
    case JBool(b) => b
    case JNum(n) => n != 0
    case JStr(s) => s != ""
    case JArr(_) => true
    case JObj(_) => true
  }

  /** The position of the last field named `key`, if any. */
  function LastIndex(fields: seq<(string, Json)>, key: string): (r: Option<nat>)
    ensures r.Some? ==> r.value < |fields| && fields[r.value].0 == key &&
                        forall k :: r.value < k < |fields| ==> fields[k].0 != key
    ensures r.None? ==> forall i :: 0 <= i < |fields| ==> fields[i].0 != key
  {
    if fields == [] then None
    else if fields[|fields| - 1].0 == key then Some(|fields| - 1)
    else LastIndex(fields[..|fields| - 1], key)
  }

  /** The value of the last field named `key`: `JSON.parse` keeps the last duplicate. */
  function LastValue(fields: seq<(string, Json)>, key: string): (r: Option<Json>)
    ensures r.Some? ==> exists i :: 0 <= i < |fields| && fields[i] == (key, r.value) &&
                          forall k :: i < k < |fields| ==> fields[k].0 != key
    ensures r.None? ==> forall i :: 0 <= i < |fields| ==> fields[i].0 != key
  {
    match LastIndex(fields, key)
    case None => None
    case Some(i) => Some(fields[i].1)
  }

  /** Property read `j.key`: only objects have own fields. */
  function Field(j: Json, key: string): Option<Json> {
    if j.JObj? then LastValue(j.fields, key) else None
  }

  function DigitChar(d: nat): char
    requires d < 10
  {
    "0123456789"[d]
  }

  function NatToString(n: nat): (r: string)
    ensures r != []
    decreases n
  {
    if n < 10 then [DigitChar(n)] else NatToString(n / 10) + [DigitChar(n % 10)]
  }

  function IntToString(n: int): string {
    if n < 0 then "-" + NatToString(-n) else NatToString(n)
  }

  /**
   * A value `String` can convert: an object converts unless it has its own
   * `toString` field (which parsed JSON makes a non-callable value, so the
   * conversion throws), and an array converts when every element does.
   */
  ghost predicate Convertible(j: Json) {
    match j
    case JObj(fields) => forall i :: 0 <= i < |fields| ==> fields[i].0 != "toString"
    case JArr(items) => forall i :: 0 <= i < |items| ==> Convertible(items[i])
    case _ => true
  }

  /** `String(j)`, the text a template literal interpolates for a value; None when it throws. */
  function Show(j: Json): (r: Option<string>)
    ensures r.Some? <==> Convertible(j)
    ensures j.JStr? ==> r == Some(j.s)
    ensures j.JObj? && Convertible(j) ==> r == Some("[object Object]")
    decreases j, 1, 0
  {
    match j
    case JNull => Some("null")
    case JBool(b) => Some(if b then "true" else "false")
    case JNum(n) => Some(IntToString(n))
    case JStr(s) => Some(s)
    case JArr(items) => JoinItems(j, 0)
    case JObj(fields) => if LastIndex(fields, "toString").Some? then None else Some("[object Object]")
  }

  /** `items.slice(i).join(",")`, where `null` elements become empty text; None when an element throws. */
  function JoinItems(j: Json, i: nat): (r: Option<string>)
    requires j.JArr? && i <= |j.items|
    ensures r.Some? <==> forall k :: i <= k < |j.items| ==> Convertible(j.items[k])
    decreases j, 0, |j.items| - i
  {
    if i == |j.items| then Some("")
    else
      var item := if j.items[i].JNull? then Some("") else Show(j.items[i]);
      match item
      case None => None
      case Some(text) =>
        if i + 1 == |j.items| then Some(text)
        else
          match JoinItems(j, i + 1)
          case None => None
          case Some(rest) => Some(text + "," + rest)
  }
}
