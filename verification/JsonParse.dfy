/**
 A reader for the compact text, in the manner of Python's own decoder (sections 4 to 7 of RFC 8259 without
 insignificant white space), written independently of Print, and the texts it can return.
 */
module JsonParse {
  import opened Prelude
  import opened PyText
  import opened Json

  datatype Read<+T> = Fail | Got(value: T, rest: string)

  // ---------------------------------------------------------------- strings

  function HexDigit(c: char): (r: Option<int>)
    ensures r.Some? ==> 0 <= r.value < 16
  {
    if '0' <= c <= '9' then Some(c as int - '0' as int)
    else if 'a' <= c <= 'f' then Some(c as int - 'a' as int + 10)
    else None
  }

  function HexUnit(t: string): (r: Option<int>)
    ensures r.Some? ==> |t| >= 4 && 0 <= r.value < 0x10000
  {
    if |t| < 4 then None
    else
      var a, b, c, d := HexDigit(t[0]), HexDigit(t[1]), HexDigit(t[2]), HexDigit(t[3]);
      if a.Some? && b.Some? && c.Some? && d.Some?
      then Some(0x1000 * a.value + 0x100 * b.value + 0x10 * c.value + d.value)
      else None
  }

  /** The code unit spelled at the front of `t`, if `t` starts with a `\u` escape. */
  function UnitAt(t: string): (r: Option<int>)
    ensures r.Some? ==> |t| >= 6 && 0 <= r.value < 0x10000
  {
    if |t| >= 6 && t[0] == '\\' && t[1] == 'u' then HexUnit(t[2..]) else None
  }

  predicate IsHigh(c: int) { 0xD800 <= c < 0xDC00 }

  predicate IsLow(c: int) { 0xDC00 <= c < 0xE000 }

  function Combine(high: int, low: int): (c: CodePoint)
    requires IsHigh(high) && IsLow(low)
    ensures c >= 0x10000
  {
    0x10000 + (high - 0xD800) * 0x400 + (low - 0xDC00)
  }

  /** One character of a string literal: a surrogate pair of escapes is joined. */
  function ReadChar(t: string): (r: Read<CodePoint>)
    ensures r.Got? ==> |r.rest| < |t|
  {
    if t == "" || t[0] == '"' || (t[0] as int) < 0x20 then Fail
    else if t[0] != '\\' then Got(t[0] as int, t[1..])
    else if |t| < 2 then Fail
    else if t[1] == '"' then Got(QUOTE, t[2..])
    else if t[1] == '\\' then Got(BACKSLASH, t[2..])
    else if t[1] == 'n' then Got(0x0A, t[2..])
    else if t[1] == 'r' then Got(0x0D, t[2..])
    else if t[1] == 't' then Got(0x09, t[2..])
    else if t[1] == 'f' then Got(0x0C, t[2..])
    else if t[1] == 'b' then Got(0x08, t[2..])
    else
      var u := UnitAt(t);
      if u.None? then Fail
      else
        var low := UnitAt(t[6..]);
        if IsHigh(u.value) && low.Some? && IsLow(low.value)
        then Got(Combine(u.value, low.value), t[12..])
        else Got(u.value, t[6..])
  }

  /** The characters up to and past the closing quotation mark. */
  function ReadChars(t: string): (r: Read<Str>)
    ensures r.Got? ==> |r.rest| < |t|
    decreases |t|
  {
    if t == "" then Fail
    else if t[0] == '"' then Got([], t[1..])
    else
      var c := ReadChar(t);
      if c.Fail? then Fail
      else
        var cs := ReadChars(c.rest);
        if cs.Fail? then Fail else Got([c.value] + cs.value, cs.rest)
  }

  function ReadString(t: string): (r: Read<Str>)
    ensures r.Got? ==> |r.rest| < |t|
  {
    if t == "" || t[0] != '"' then Fail else ReadChars(t[1..])
  }

  // ---------------------------------------------------------------- numbers

  function NumLength(t: string): (n: nat)
    ensures n <= |t|
    ensures forall i :: 0 <= i < n ==> IsNumChar(t[i])
    ensures n < |t| ==> !IsNumChar(t[n])
  {
    if t == "" || !IsNumChar(t[0]) then 0 else 1 + NumLength(t[1..])
  }

  function NatValue(t: string): nat
    requires forall c :: c in t ==> IsDigit(c)
  {
    if t == "" then 0
    else
      assert t[|t|-1] in t && IsDigit(t[|t|-1]);
      10 * NatValue(t[..|t|-1]) + (t[|t|-1] as int - '0' as int)
  }

  function Number(tok: string): (r: Option<Json>) {
    if tok != "" && forall c :: c in tok ==> IsDigit(c) then Some(JInt(NatValue(tok)))
    else if |tok| > 1 && tok[0] == '-' && forall c :: c in tok[1..] ==> IsDigit(c) then Some(JInt(0 - NatValue(tok[1..])))
    else if IsFloatText(tok) then Some(JFloat(tok))
    else None
  }

  // ---------------------------------------------------------------- trees

  function ReadValue(t: string): (r: Read<Json>)
    ensures r.Got? ==> |r.rest| < |t|
    decreases |t|, 1
  {
    if t == "" then Fail
    else if t[0] == 'n' then (if "null" <= t then Got(JNull, t[4..]) else Fail)
    else if t[0] == 't' then (if "true" <= t then Got(JBool(true), t[4..]) else Fail)
    else if t[0] == 'f' then (if "false" <= t then Got(JBool(false), t[5..]) else Fail)
    else if t[0] == '"' then
      var s := ReadString(t);
      if s.Fail? then Fail else Got(JStr(s.value), s.rest)
    else if t[0] == '[' then
      if "[]" <= t then Got(JArr([]), t[2..])
      else
        var xs := ReadItems(t[1..]);
        if xs.Fail? then Fail else Got(JArr(xs.value), xs.rest)
    else if t[0] == '{' then
      if "{}" <= t then Got(JObj(map[]), t[2..])
      else
        var ms := ReadMembers(t[1..]);
        if ms.Fail? then Fail else Got(JObj(ms.value), ms.rest)
    else if t[0] == '-' || IsDigit(t[0]) then
      var k := NumLength(t);
      var n := Number(t[..k]);
      if n.None? then Fail else Got(n.value, t[k..])
    else Fail
  }

  function ReadItems(t: string): (r: Read<seq<Json>>)
    ensures r.Got? ==> |r.rest| < |t|
    decreases |t|, 2
  {
    var x := ReadValue(t);
    if x.Fail? || x.rest == "" then Fail
    else if x.rest[0] == ']' then Got([x.value], x.rest[1..])
    else if x.rest[0] == ',' then
      var xs := ReadItems(x.rest[1..]);
      if xs.Fail? then Fail else Got([x.value] + xs.value, xs.rest)
    else Fail
  }

  /** Members left to right; a later duplicate key wins, as in Python. */
  function ReadMembers(t: string): (r: Read<Object>)
    ensures r.Got? ==> |r.rest| < |t|
    decreases |t|, 2
  {
    var k := ReadString(t);
    if k.Fail? || k.rest == "" || k.rest[0] != ':' then Fail
    else
      var x := ReadValue(k.rest[1..]);
      if x.Fail? || x.rest == "" then Fail
      else if x.rest[0] == '}' then Got(map[k.value := x.value], x.rest[1..])
      else if x.rest[0] == ',' then
        var ms := ReadMembers(x.rest[1..]);
        if ms.Fail? then Fail else Got(map[k.value := x.value] + ms.value, ms.rest)
      else Fail
  }

  // ---------------------------------------------------------------- well-formed text

  /** No high surrogate directly followed by a low one: true of every string of Unicode scalar values. */
  predicate WellFormedText(s: Str) {
    forall i :: 0 <= i < |s| - 1 ==> !(IsHigh(s[i]) && IsLow(s[i+1]))
  }

  /** The scalar-value reading of a string: adjacent surrogates become the character they encode. */
  function Joined(s: Str): Str {
    if |s| < 2 then s
    else if IsHigh(s[0]) && IsLow(s[1]) then [Combine(s[0], s[1])] + Joined(s[2..])
    else [s[0]] + Joined(s[1..])
  }

  ghost predicate WellFormed(v: Json) {
    match v
    case JStr(s) => WellFormedText(s)
    case JArr(items) => forall i :: 0 <= i < |items| ==> WellFormed(items[i])
    case JObj(fields) => forall k :: k in fields ==> WellFormedText(k) && WellFormed(fields[k])
    case _ => true
  }
}
