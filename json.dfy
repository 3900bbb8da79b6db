/** JSON values as org.json represents them (JSONObject, JSONArray, JSONObject.NULL and
    the boxed scalars), with the lookups BatchItem uses and the text toString() gives. */
module Json {
  import opened Wrappers
  import opened JavaUtil

  datatype Json =
    | JNull                                 // JSONObject.NULL
    | JBool(b: bool)
    | JNumber(literal: string)              // the text org.json writes for the number
    | JString(s: string)
    | JArray(elements: seq<Json>)
    | JObject(members: seq<(string, Json)>) // in the order the object iterates its keys

  /** JSONObject.opt(key): the value stored under `key`, or nothing. */
  function Opt(members: seq<(string, Json)>, key: string): (r: Option<Json>)
    ensures r.None? <==> forall i :: 0 <= i < |members| ==> members[i].0 != key
    ensures r.Some? ==> exists i :: 0 <= i < |members| && members[i] == (key, r.value)
  {
    if members == [] then None
    else if members[0].0 == key then Some(members[0].1)
    else
      var r := Opt(members[1..], key);
      assert forall i :: 1 <= i < |members| ==> members[i] == members[1..][i - 1];
      r
  }

  /** JSONObject.optJSONObject(key): the members of the object stored under `key`; nothing
      when the key is absent or holds something other than an object. */
  function OptJsonObject(members: seq<(string, Json)>, key: string): (r: Option<seq<(string, Json)>>)
    ensures r.Some? <==> Opt(members, key).Some? && Opt(members, key).value.JObject?
    ensures r.Some? ==> Opt(members, key).value == JObject(r.value)
  {
    match Opt(members, key)
    case Some(JObject(ms)) => Some(ms)
    case _ => None
  }

  /** JSONObject.optString(key, null): the text of the value stored under `key`; the
      default (null) when the key is absent or holds JSONObject.NULL. */
  function OptString(members: seq<(string, Json)>, key: string): (r: Option<string>)
    ensures r.None? <==> Opt(members, key).None? || Opt(members, key).value.JNull?
    ensures Opt(members, key).Some? && Opt(members, key).value.JString? ==>
              r == Some(Opt(members, key).value.s)
  {
    match Opt(members, key)
    case None => None
    case Some(v) => if v.JNull? then None else Some(ToJavaString(v))
  }

  /** Object.toString() of a non-null org.json value: a string is itself, everything else
      is its JSON text. */
  function ToJavaString(v: Json): (r: string)
    requires !v.JNull?
    ensures v.JString? ==> r == v.s
    ensures v.JBool? ==> r == (if v.b then "true" else "false")
    ensures v.JNumber? ==> r == v.literal
  {
    if v.JString? then v.s else Render(v)
  }

  /** The compact JSON text org.json writes for a value. */
  function Render(v: Json): (text: string)
    decreases v
  {
    match v
    case JNull => "null"
    case JBool(b) => if b then "true" else "false"
    case JNumber(t) => t
    case JString(s) => Quote(s)
    case JArray(es) =>
      "[" + Join(seq(|es|, i requires 0 <= i < |es| => Render(es[i])), ",") + "]"
    case JObject(ms) =>
      "{" + Join(seq(|ms|, i requires 0 <= i < |ms| => Quote(ms[i].0) + ":" + Render(ms[i].1)), ",") + "}"
  }

  /** JSONObject.quote: the string between double quotes, with the escapes org.json uses. */
  function Quote(s: string): (quoted: string) {
    "\"" + Escape(s, '\U{0}') + "\""
  }

  /** The escaped text of `s`, `prev` being the character written just before it. */
  function Escape(s: string, prev: char): (escaped: string) {
    if s == [] then "" else EscapeChar(prev, s[0]) + Escape(s[1..], s[0])
  }

  function EscapeChar(prev: char, c: char): (escaped: string) {
    if c == '\\' || c == '"' then ['\\', c]
    else if c == '/' then (if prev == '<' then "\\/" else "/")
    else if c == '\U{8}' then "\\b"
    else if c == '\t' then "\\t"
    else if c == '\n' then "\\n"
    else if c == '\U{C}' then "\\f"
    else if c == '\r' then "\\r"
    else if NeedsUnicodeEscape(c) then "\\u" + Hex4(c as int)
    else [c]
  }

  predicate NeedsUnicodeEscape(c: char) {
    c < ' ' || ('\U{80}' <= c < '\U{A0}') || ('\U{2000}' <= c < '\U{2100}')
  }

  /** Integer.toHexString padded with zeros to four digits. */
  function Hex4(n: int): (r: string)
    requires 0 <= n < 0x10000
    ensures |r| == 4
  {
    [HexDigit(n / 0x1000), HexDigit(n / 0x100 % 16), HexDigit(n / 16 % 16), HexDigit(n % 16)]
  }

  function HexDigit(d: int): (digit: char)
    requires 0 <= d < 16
  {
    if d < 10 then ('0' as int + d) as char else ('a' as int + d - 10) as char
  }
}
