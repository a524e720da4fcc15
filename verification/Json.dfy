/**
 JSON trees and the compact sorted-key text that `json.dumps(v, sort_keys=True, separators=(",", ":"))`
 writes for them (ASCII output, every other code point escaped).
 */
module Json {
  import opened PyText

  /** Dictionaries are maps: insertion order is not part of a JSON object's value (see InsertionOrder). */
  datatype Json =
    | JNull
    | JBool(b: bool)
    | JInt(n: int)
    | JFloat(lit: FloatText)
    | JStr(s: Str)
    | JArr(items: seq<Json>)
    | JObj(fields: Object)

  type Object = map<Str, Json>

  // ---------------------------------------------------------------- numbers

  predicate IsDigit(c: char) {
    '0' <= c <= '9'
  }

  predicate IsNumChar(c: char) {
    IsDigit(c) || c == '-' || c == '+' || c == '.' || c == 'e'
  }

  /** `repr` of a finite float: a numeral that, unlike an integer's, has a point or an exponent. */
  predicate IsFloatText(t: string) {
    t != "" && (t[0] == '-' || IsDigit(t[0])) && (forall c :: c in t ==> IsNumChar(c)) && ('.' in t || 'e' in t)
  }

  type FloatText = t: string | IsFloatText(t) witness "0.0"

  function DigitChar(d: int): (c: char)
    requires 0 <= d < 10
    ensures IsDigit(c)
  {
    ('0' as int + d) as char
  }

  function NatText(n: nat): (t: string)
    ensures t != ""
    ensures forall c :: c in t ==> IsDigit(c)
  {
    if n < 10 then [DigitChar(n)] else NatText(n / 10) + [DigitChar(n % 10)]
  }

  function IntText(n: int): (t: string)
    ensures t != "" && (t[0] == '-' || IsDigit(t[0]))
    ensures forall c :: c in t ==> IsDigit(c) || c == '-'
  {
    if n < 0 then "-" + NatText(-n) else NatText(n)
  }

  // ---------------------------------------------------------------- strings

  function HexChar(d: int): char
    requires 0 <= d < 16
  {
    if d < 10 then ('0' as int + d) as char else ('a' as int + d - 10) as char
  }

  /** The escape of one UTF-16 code unit: a reverse solidus, `u` and four lower-case hexadecimal digits. */
  function UnitEscape(u: int): (t: string)
    requires 0 <= u < 0x10000
    ensures |t| == 6 && t[0] == '\\' && t[1] == 'u'
  {
    ['\\', 'u', HexChar(u / 0x1000), HexChar(u / 0x100 % 0x10), HexChar(u / 0x10 % 0x10), HexChar(u % 0x10)]
  }

  const QUOTE := 0x22
  const BACKSLASH := 0x5C

  function HighUnit(c: CodePoint): (u: int)
    requires c >= 0x10000
    ensures 0xD800 <= u < 0xDC00
  {
    0xD800 + (c - 0x10000) / 0x400
  }

  function LowUnit(c: CodePoint): (u: int)
    requires c >= 0x10000
    ensures 0xDC00 <= u < 0xE000
  {
    0xDC00 + (c - 0x10000) % 0x400
  }

  function Escape(c: CodePoint): (t: string)
    ensures t != "" && t[0] != '"'
  {
    if c == QUOTE then "\\\""
    else if c == BACKSLASH then "\\\\"
    else if c == 0x0A then "\\n"
    else if c == 0x0D then "\\r"
    else if c == 0x09 then "\\t"
    else if c == 0x0C then "\\f"
    else if c == 0x08 then "\\b"
    else if 0x20 <= c <= 0x7E then [c as char]
    else if c < 0x10000 then UnitEscape(c)
    else UnitEscape(HighUnit(c)) + UnitEscape(LowUnit(c))
  }

  function EscapeAll(s: Str): string {
    if s == [] then "" else Escape(s[0]) + EscapeAll(s[1..])
  }

  function Quote(s: Str): string {
    "\"" + EscapeAll(s) + "\""
  }

  // ---------------------------------------------------------------- trees

  function Print(v: Json): string
    decreases v, 1
  {
    match v
    case JNull => "null"
    case JBool(b) => if b then "true" else "false"
    case JInt(n) => IntText(n)
    case JFloat(lit) => lit
    case JStr(s) => Quote(s)
    case JArr(items) => "[" + PrintItems(items) + "]"
    case JObj(fields) => "{" + PrintMembers(v, SortedKeys(fields.Keys)) + "}"
  }

  function PrintItems(items: seq<Json>): string
    decreases items, 0
  {
    if items == [] then ""
    else if |items| == 1 then Print(items[0])
    else Print(items[0]) + "," + PrintItems(items[1..])
  }

  function PrintMembers(obj: Json, keys: seq<Str>): string
    requires obj.JObj? && forall k :: k in keys ==> k in obj.fields
    decreases obj, 0, |keys|
  {
    if keys == [] then ""
    else
      var member := Quote(keys[0]) + ":" + Print(obj.fields[keys[0]]);
      if |keys| == 1 then member else member + "," + PrintMembers(obj, keys[1..])
  }
}
