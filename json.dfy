/** JSON values as `json.loads` hands them to the scripts, the Python
    operations the scripts apply to them (truthiness, `dict.get`, `int()`,
    `len()` and indexing), and the text `json.dump(obj, out,
    ensure_ascii=False)` writes for them.

    Numbers are integers only; an object is its list of fields in document
    order (a decoded `dict` has distinct keys, so the first field with a key
    is the one `dict.get` returns). */
module Json {
  import opened Wrappers
  import opened Text

  datatype Json =
    | JNull
    | JBool(b: bool)
    | JNum(n: int)
    | JStr(s: string)
    | JArr(items: seq<Json>)
    | JObj(fields: seq<Field>)

  datatype Field = Field(key: string, value: Json)

  /** Python truthiness (`if v:`). */
  predicate Truthy(j: Json) {
    match j
    case JNull => false
    case JBool(b) => b
    case JNum(n) => n != 0
    case JStr(s) => s != []
    case JArr(xs) => xs != []
    case JObj(fs) => fs != []
  }

  /** `d.get(key)` on a dict: the value of the field named `key`, if any. */
  function Get(fields: seq<Field>, key: string): Option<Json> {
    if fields == [] then None
    else if fields[0].key == key then Some(fields[0].value)
    else Get(fields[1..], key)
  }

  /** `d.get(key)` finds a value exactly when some field is named `key`,
      and the value it finds is that of a field named `key`. */
  lemma {:induction false} GetFinds(fields: seq<Field>, key: string)
    ensures Get(fields, key).Some? <==> exists k :: 0 <= k < |fields| && fields[k].key == key
    ensures Get(fields, key).Some? ==>
      exists k :: 0 <= k < |fields| && fields[k].key == key && fields[k].value == Get(fields, key).value
  {
    if fields != [] && fields[0].key != key {
      GetFinds(fields[1..], key);
      assert forall k :: 0 < k < |fields| ==> fields[k] == fields[1..][k - 1];
      if Get(fields, key).Some? {
        var k :| 0 <= k < |fields[1..]| && fields[1..][k].key == key && fields[1..][k].value == Get(fields, key).value;
        assert fields[k + 1] == fields[1..][k];
      }
    } else if fields != [] {
      assert fields[0].key == key;
    }
  }

  /** `obj.get(key)` where `obj` may be any value: only a dict has fields. */
  function Member(j: Json, key: string): Option<Json> {
    if j.JObj? then Get(j.fields, key) else None
  }

  function DigitValue(c: char): int
    requires IsDigit(c)
  {
    c as int - '0' as int
  }

  /** The value of a non-empty string of ASCII digits. */
  function DigitsValue(s: string): (n: nat)
    requires forall i :: 0 <= i < |s| ==> IsDigit(s[i])
  {
    if s == [] then 0 else DigitsValue(s[..|s| - 1]) * 10 + DigitValue(s[|s| - 1])
  }

  /** `int(s)` for a string: optional surrounding white space, an optional
      sign and ASCII digits. */
  function ParseIntText(s: string): Option<int> {
    var t := Strip(s);
    var neg := t != [] && t[0] == '-';
    var body := if t != [] && (t[0] == '-' || t[0] == '+') then t[1..] else t;
    if body == [] || exists i :: 0 <= i < |body| && !IsDigit(body[i]) then None
    else
      var v: int := DigitsValue(body);
      Some(if neg then -v else v)
  }

  /** `int(v)` on a decoded JSON value; `None` where Python raises. */
  function PyInt(j: Json): Option<int> {
    match j
    case JNum(n) => Some(n)
    case JBool(b) => Some(if b then 1 else 0)
    case JStr(s) => ParseIntText(s)
    case _ => None
  }

  /** `len(v)`: defined for lists, strings and dicts. */
  function PyLen(j: Json): Option<nat> {
    match j
    case JArr(xs) => Some(|xs|)
    case JStr(s) => Some(|s|)
    case JObj(fs) => Some(|fs|)
    case _ => None
  }

  /** `v[i]` for `0 <= i < len(v)`: a list element or a one-character
      string; a dict with string keys raises `KeyError` for an int. */
  function PyIndex(j: Json, i: int): Option<Json> {
    match j
    case JArr(xs) => if 0 <= i < |xs| then Some(xs[i]) else None
    case JStr(s) => if 0 <= i < |s| then Some(JStr([s[i]])) else None
    case _ => None
  }

  // ---- json.dump(obj, out, ensure_ascii=False) ----

  function HexDigitChar(d: int): char
    requires 0 <= d < 16
  {
    if d < 10 then ('0' as int + d) as char else ('a' as int + d - 10) as char
  }

  /** The escape `json.dumps` writes for one character of a string. */
  function EscapeChar(c: char): string {
    if c == '"' then "\\\""
    else if c == '\\' then "\\\\"
    else if c == '\n' then "\\n"
    else if c == '\r' then "\\r"
    else if c == '\t' then "\\t"
    else if c == '\U{8}' then "\\b"
    else if c == '\U{c}' then "\\f"
    else if c < ' ' then "\\u00" + [HexDigitChar(c as int / 16), HexDigitChar(c as int % 16)]
    else [c]
  }

  function Escape(s: string): string {
    if s == [] then [] else EscapeChar(s[0]) + Escape(s[1..])
  }

  function Quote(s: string): string {
    "\"" + Escape(s) + "\""
  }

  /** `str(n)`: the decimal digits of `n`, without leading zeros. */
  function NatToString(n: nat): (r: string)
    ensures r != [] && forall i :: 0 <= i < |r| ==> IsDigit(r[i])
    ensures DigitsValue(r) == n
    ensures |r| > 1 ==> r[0] != '0'
  {
    if n < 10 then [('0' as int + n) as char]
    else
      var front := NatToString(n / 10);
      var r := front + [('0' as int + n % 10) as char];
      assert r[..|r| - 1] == front;
      r
  }

  function IntToString(n: int): string {
    if n < 0 then "-" + NatToString(-n) else NatToString(n)
  }

  /** The text of `json.dumps(v, ensure_ascii=False)` with its default
      separators `", "` and `": "`. */
  function Dumps(j: Json): string
    decreases j
  {
    match j
    case JNull => "null"
    case JBool(b) => if b then "true" else "false"
    case JNum(n) => IntToString(n)
    case JStr(s) => Quote(s)
    case JArr(xs) => "[" + DumpsItems(xs) + "]"
    case JObj(fs) => "{" + DumpsFields(fs) + "}"
  }

  function DumpsItems(xs: seq<Json>): string
    decreases xs
  {
    if xs == [] then []
    else if |xs| == 1 then Dumps(xs[0])
    else Dumps(xs[0]) + ", " + DumpsItems(xs[1..])
  }

  function DumpsField(f: Field): string
    decreases f
  {
    Quote(f.key) + ": " + Dumps(f.value)
  }

  function DumpsFields(fs: seq<Field>): string
    decreases fs
  {
    if fs == [] then []
    else if |fs| == 1 then DumpsField(fs[0])
    else DumpsField(fs[0]) + ", " + DumpsFields(fs[1..])
  }
}
