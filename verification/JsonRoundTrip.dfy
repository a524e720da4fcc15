/** The round trip between Print and ReadValue, and what follows from it for the canonical encoding. */
module JsonRoundTrip {
  import opened Prelude
  import opened PyText
  import opened Json
  import opened JsonParse

  // ---------------------------------------------------------------- strings

  lemma HexRoundTrip(d: int)
    requires 0 <= d < 16
    ensures HexDigit(HexChar(d)) == Some(d)
  {}

  lemma UnitDigits(u: int)
    requires 0 <= u < 0x10000
    ensures u == 0x1000 * (u / 0x1000) + 0x100 * (u / 0x100 % 0x10) + 0x10 * (u / 0x10 % 0x10) + u % 0x10
  {
    var a, b, c := u / 0x10, u / 0x100, u / 0x1000;
    assert b == a / 0x10 && c == b / 0x10;
  }

  lemma UnitRoundTrip(u: int, tail: string)
    requires 0 <= u < 0x10000
    ensures UnitAt(UnitEscape(u) + tail) == Some(u)
    ensures (UnitEscape(u) + tail)[6..] == tail
  {
    var t := UnitEscape(u) + tail;
    assert t[2..6] == [HexChar(u / 0x1000), HexChar(u / 0x100 % 0x10), HexChar(u / 0x10 % 0x10), HexChar(u % 0x10)];
    assert forall i :: 0 <= i < 4 ==> t[2..][i] == t[2..6][i];
    HexRoundTrip(u / 0x1000);
    HexRoundTrip(u / 0x100 % 0x10);
    HexRoundTrip(u / 0x10 % 0x10);
    HexRoundTrip(u % 0x10);
    UnitDigits(u);
  }

  lemma CharRoundTrip(c: CodePoint, tail: string)
    requires IsHigh(c) ==> !(UnitAt(tail).Some? && IsLow(UnitAt(tail).value))
    ensures ReadChar(Escape(c) + tail) == Got(c, tail)
  {
    var t := Escape(c) + tail;
    if c >= 0x10000 {
      var more := UnitEscape(LowUnit(c)) + tail;
      assert t == UnitEscape(HighUnit(c)) + more;
      UnitRoundTrip(HighUnit(c), more);
      UnitRoundTrip(LowUnit(c), tail);
      assert t[12..] == more[6..];
      assert Combine(HighUnit(c), LowUnit(c)) == c;
    } else if Escape(c) == UnitEscape(c) {
      UnitRoundTrip(c, tail);
    } else if |Escape(c)| == 1 {
      assert t[1..] == tail;
    } else {
      assert t[2..] == tail;
    }
  }

  lemma PairRoundTrip(high: CodePoint, low: CodePoint, tail: string)
    requires IsHigh(high) && IsLow(low)
    ensures ReadChar(Escape(high) + Escape(low) + tail) == Got(Combine(high, low), tail)
  {
    var more := UnitEscape(low) + tail;
    var t := Escape(high) + Escape(low) + tail;
    assert t == UnitEscape(high) + more;
    UnitRoundTrip(high, more);
    UnitRoundTrip(low, tail);
    assert t[12..] == more[6..];
  }

  /** Only the escape of a low surrogate is read back as one. */
  lemma NotLowAhead(s: Str, rest: string)
    requires s == [] || !IsLow(s[0])
    ensures var u := UnitAt(EscapeAll(s) + "\"" + rest); !(u.Some? && IsLow(u.value))
  {
    hide HexUnit;
    var t := EscapeAll(s) + "\"" + rest;
    if s != [] {
      var c := s[0];
      var more := EscapeAll(s[1..]) + "\"" + rest;
      assert t == Escape(c) + more;
      if c >= 0x10000 {
        assert t == UnitEscape(HighUnit(c)) + (UnitEscape(LowUnit(c)) + more);
        UnitRoundTrip(HighUnit(c), UnitEscape(LowUnit(c)) + more);
      } else if Escape(c) == UnitEscape(c) {
        UnitRoundTrip(c, more);
      } else if |Escape(c)| == 1 {
        assert t[0] == Escape(c)[0];
      } else {
        assert t[1] == Escape(c)[1];
      }
    }
  }

  /** What is left to read after the escapes of `s`: the closing mark and the rest. */
  function Quoted(s: Str, rest: string): string {
    EscapeAll(s) + "\"" + rest
  }

  lemma QuotedStep(s: Str, rest: string)
    requires s != []
    ensures Quoted(s, rest) == Escape(s[0]) + Quoted(s[1..], rest)
  {}

  lemma ReadCharsStep(t: string, c: CodePoint, tail: string)
    requires ReadChar(t) == Got(c, tail)
    ensures ReadChars(tail).Got? ==> ReadChars(t) == Got([c] + ReadChars(tail).value, ReadChars(tail).rest)
  {}

  /** Reading back a quoted string gives its scalar-value reading, whatever the string. */
  lemma {:induction false} StringRoundTrip(s: Str, rest: string)
    ensures ReadChars(Quoted(s, rest)) == Got(Joined(s), rest)
    decreases |s|
  {
    hide ReadChar;
    hide Escape;
    if s == [] {
      assert Quoted(s, rest) == "\"" + rest && ("\"" + rest)[1..] == rest;
    } else if |s| >= 2 && IsHigh(s[0]) && IsLow(s[1]) {
      PairStep(s, rest);
      ReadCharsStep(Quoted(s, rest), Combine(s[0], s[1]), Quoted(s[2..], rest));
      StringRoundTrip(s[2..], rest);
    } else {
      CharStep(s, rest);
      ReadCharsStep(Quoted(s, rest), s[0], Quoted(s[1..], rest));
      StringRoundTrip(s[1..], rest);
      assert s == [s[0]] + s[1..];
    }
  }

  lemma PairStep(s: Str, rest: string)
    requires |s| >= 2 && IsHigh(s[0]) && IsLow(s[1])
    ensures ReadChar(Quoted(s, rest)) == Got(Combine(s[0], s[1]), Quoted(s[2..], rest))
  {
    var tail := Quoted(s[2..], rest);
    assert s[1..][1..] == s[2..] && s[1..][0] == s[1];
    QuotedStep(s, rest);
    QuotedStep(s[1..], rest);
    PairRoundTrip(s[0], s[1], tail);
    assert Escape(s[0]) + (Escape(s[1]) + tail) == Escape(s[0]) + Escape(s[1]) + tail;
  }

  lemma CharStep(s: Str, rest: string)
    requires s != [] && !(|s| >= 2 && IsHigh(s[0]) && IsLow(s[1]))
    ensures ReadChar(Quoted(s, rest)) == Got(s[0], Quoted(s[1..], rest))
  {
    QuotedStep(s, rest);
    if IsHigh(s[0]) {
      NotLowAhead(s[1..], rest);
    }
    CharRoundTrip(s[0], Quoted(s[1..], rest));
  }

  lemma {:induction false} JoinedIdentity(s: Str)
    ensures |Joined(s)| <= |s|
    ensures Joined(s) == s <==> WellFormedText(s)
    decreases |s|
  {
    if |s| >= 2 {
      if IsHigh(s[0]) && IsLow(s[1]) {
        JoinedIdentity(s[2..]);
        assert !WellFormedText(s);
      } else {
        JoinedIdentity(s[1..]);
        assert s == [s[0]] + s[1..];
        assert forall i :: 0 <= i < |s[1..]| ==> s[1..][i] == s[i+1];
        if WellFormedText(s[1..]) {
          forall i | 0 <= i < |s| - 1 ensures !(IsHigh(s[i]) && IsLow(s[i+1])) {
            if i > 0 { assert s[1..][i-1] == s[i] && s[1..][i] == s[i+1]; }
          }
        } else {
          assert ([s[0]] + Joined(s[1..]))[1..] == Joined(s[1..]);
          var i :| 0 <= i < |s[1..]| - 1 && IsHigh(s[1..][i]) && IsLow(s[1..][i+1]);
          assert IsHigh(s[i+1]) && IsLow(s[i+1+1]);
        }
      }
    }
  }

  /** A quoted string is read back unchanged exactly when no surrogate pair was stored as two code points. */
  lemma QuoteRoundTrip(s: Str, rest: string)
    ensures ReadString(Quote(s) + rest) == Got(Joined(s), rest)
    ensures ReadString(Quote(s) + rest) == Got(s, rest) <==> WellFormedText(s)
  {
    assert (Quote(s) + rest)[1..] == EscapeAll(s) + "\"" + rest;
    StringRoundTrip(s, rest);
    JoinedIdentity(s);
  }

  /** The failing family is real: one astral character and its two surrogates are encoded alike. */
  lemma SplitPairCollides()
    ensures Quote([0x1F600]) == Quote([0xD83D, 0xDE00])
    ensures !WellFormedText([0xD83D, 0xDE00]) && WellFormedText([0x1F600])
  {
    var pair: Str := [0xD83D, 0xDE00];
    assert pair[1..] == [0xDE00];
    assert EscapeAll(pair) == Escape(0xD83D) + (Escape(0xDE00) + "");
    assert EscapeAll([0x1F600]) == Escape(0x1F600) + "";
    assert IsHigh(pair[0]) && IsLow(pair[0+1]);
  }

  // ---------------------------------------------------------------- numbers

  ghost predicate Terminated(rest: string) {
    rest == "" || !IsNumChar(rest[0])
  }

  lemma {:induction false} NumLengthOf(tok: string, rest: string)
    requires (forall c :: c in tok ==> IsNumChar(c)) && Terminated(rest)
    ensures NumLength(tok + rest) == |tok|
  {
    if tok != "" {
      assert tok[0] in tok;
      assert (tok + rest)[1..] == tok[1..] + rest;
      NumLengthOf(tok[1..], rest);
    } else {
      assert tok + rest == rest;
    }
  }

  lemma {:induction false} NatRoundTrip(n: nat)
    ensures NatValue(NatText(n)) == n
  {
    if n >= 10 {
      NatRoundTrip(n / 10);
      var t := NatText(n);
      assert t[..|t|-1] == NatText(n / 10) && t[|t|-1] == DigitChar(n % 10);
    }
  }

  lemma IntTokens(n: int)
    ensures Number(IntText(n)) == Some(JInt(n))
  {
    if n < 0 {
      NatRoundTrip(-n);
      assert IntText(n)[1..] == NatText(-n);
      assert '-' in IntText(n) && !IsDigit('-');
    } else {
      NatRoundTrip(n);
    }
  }

  lemma FloatTokens(lit: FloatText)
    ensures Number(lit) == Some(JFloat(lit))
  {
    var c := if '.' in lit then '.' else 'e';
    assert c in lit && !IsDigit(c);
    if lit[0] == '-' {
      var i :| 0 <= i < |lit| && lit[i] == c;
      assert lit[1..][i-1] == c;
    }
  }

  // ---------------------------------------------------------------- trees

  lemma FirstChar(v: Json)
    ensures var t := Print(v); t != "" && t[0] != ']'
    ensures v.JInt? || v.JFloat? ==> Print(v)[0] == '-' || IsDigit(Print(v)[0])
  {}

  lemma {:induction false} RoundTrip(v: Json, rest: string)
    requires WellFormed(v) && Terminated(rest)
    ensures ReadValue(Print(v) + rest) == Got(v, rest)
    decreases v, 3
  {
    match v
    case JInt(n) => NumberRoundTrip(v, rest);
    case JFloat(lit) => NumberRoundTrip(v, rest);
    case JArr(items) => ArrayRoundTrip(v, rest);
    case JObj(fields) => ObjectRoundTrip(v, rest);
    case _ => LiteralRoundTrip(v, rest);
  }

  lemma LiteralRoundTrip(v: Json, rest: string)
    requires v.JNull? || v.JBool? || (v.JStr? && WellFormedText(v.s))
    ensures ReadValue(Print(v) + rest) == Got(v, rest)
  {
    var t := Print(v) + rest;
    match v
    case JNull => assert t[4..] == rest;
    case JBool(b) => assert t[..if b then 4 else 5] == Print(v); assert t[if b then 4 else 5..] == rest;
    case JStr(s) => QuoteRoundTrip(s, rest);
  }

  lemma ReadEmpty(rest: string)
    ensures ReadValue("[]" + rest) == Got(JArr([]), rest)
    ensures ReadValue("{}" + rest) == Got(JObj(map[]), rest)
  {
    assert ("[]" + rest)[2..] == rest && ("{}" + rest)[2..] == rest;
  }

  lemma {:induction false} ArrayRoundTrip(v: Json, rest: string)
    requires v.JArr? && WellFormed(v)
    ensures ReadValue(Print(v) + rest) == Got(v, rest)
    decreases v, 1
  {
    var t := Print(v) + rest;
    if v.items == [] {
      assert PrintItems(v.items) == "" && Print(v) == "[]";
      ReadEmpty(rest);
    } else {
      var body := PrintItems(v.items) + "]" + rest;
      assert t == "[" + body;
      FirstChar(v.items[0]);
      assert body[0] == Print(v.items[0])[0];
      ItemsRoundTrip(v.items, rest);
      ReadArrayStep(body);
    }
  }

  lemma ReadArrayStep(body: string)
    requires body != "" && body[0] != ']'
    ensures ReadItems(body).Got? ==> ReadValue("[" + body) == Got(JArr(ReadItems(body).value), ReadItems(body).rest)
  {
    assert ("[" + body)[1..] == body && ("[" + body)[1] == body[0];
  }

  lemma ObjectText(v: Json, rest: string)
    requires v.JObj?
    ensures v.fields == map[] ==> Print(v) == "{}"
    ensures Print(v) + rest == "{" + (PrintMembers(v, SortedKeys(v.fields.Keys)) + "}" + rest)
  {
    var keys := SortedKeys(v.fields.Keys);
    var m := PrintMembers(v, keys);
    assert Print(v) == "{" + m + "}";
    Bracket("{", m, "}", rest);
    if v.fields == map[] {
      assert |keys| == 0;
      assert m == "";
    }
  }

  lemma Bracket(a: string, m: string, z: string, rest: string)
    ensures (a + m + z) + rest == a + (m + z + rest)
  {}

  lemma {:induction false} ObjectMembers(v: Json, rest: string)
    requires v.JObj? && WellFormed(v) && v.fields != map[]
    ensures var body := PrintMembers(v, SortedKeys(v.fields.Keys)) + "}" + rest;
            body[0] == '"' && ReadMembers(body) == Got(v.fields, rest)
    decreases v, 1
  {
    var keys := SortedKeys(v.fields.Keys);
    assert keys != [] by { assert |v.fields.Keys| == |v.fields|; }
    MembersSplit(v, keys, rest);
    MembersRoundTrip(v, keys, rest);
    assert Picked(v.fields, keys) == v.fields;
  }

  lemma {:induction false} ObjectRoundTrip(v: Json, rest: string)
    requires v.JObj? && WellFormed(v)
    ensures ReadValue(Print(v) + rest) == Got(v, rest)
    decreases v, 2
  {
    ObjectText(v, rest);
    if v.fields == map[] {
      ReadEmpty(rest);
    } else {
      ObjectMembers(v, rest);
      ReadObjectStep(PrintMembers(v, SortedKeys(v.fields.Keys)) + "}" + rest);
    }
  }

  lemma ReadObjectStep(body: string)
    requires body != "" && body[0] != '}'
    ensures ReadMembers(body).Got? ==> ReadValue("{" + body) == Got(JObj(ReadMembers(body).value), ReadMembers(body).rest)
  {
    assert ("{" + body)[1..] == body && ("{" + body)[1] == body[0];
  }

  lemma ReadNumberStep(tok: string, rest: string)
    requires tok != "" && (tok[0] == '-' || IsDigit(tok[0])) && NumLength(tok + rest) == |tok| && Number(tok).Some?
    ensures ReadValue(tok + rest) == Got(Number(tok).value, rest)
  {
    hide Number;
    hide NumLength;
    assert (tok + rest)[..|tok|] == tok && (tok + rest)[|tok|..] == rest && (tok + rest)[0] == tok[0];
  }

  lemma NumberRoundTrip(v: Json, rest: string)
    requires (v.JInt? || v.JFloat?) && Terminated(rest)
    ensures ReadValue(Print(v) + rest) == Got(v, rest)
  {
    hide ReadValue;
    hide Number;
    hide NumLength;
    hide Terminated;
    var tok := Print(v);
    FirstChar(v);
    NumLengthOf(tok, rest);
    match v {
      case JInt(n) => IntTokens(n);
      case JFloat(lit) => FloatTokens(lit);
    }
    ReadNumberStep(tok, rest);
  }

  lemma ReadItemsStep(t: string, x: Json, more: string)
    requires more != "" && ReadValue(t) == Got(x, more)
    ensures more[0] == ']' ==> ReadItems(t) == Got([x], more[1..])
    ensures more[0] == ',' && ReadItems(more[1..]).Got? ==>
              ReadItems(t) == Got([x] + ReadItems(more[1..]).value, ReadItems(more[1..]).rest)
  {}

  ghost function ItemsTail(items: seq<Json>, rest: string): string
    requires items != []
  {
    if |items| == 1 then "]" + rest else "," + (PrintItems(items[1..]) + "]" + rest)
  }

  lemma RegroupItems(x: string, m: string, rest: string)
    ensures (x + "," + m) + "]" + rest == x + ("," + (m + "]" + rest))
    ensures x + "]" + rest == x + ("]" + rest)
  {}

  lemma ItemsSplit(items: seq<Json>, rest: string)
    requires items != []
    ensures PrintItems(items) + "]" + rest == Print(items[0]) + ItemsTail(items, rest)
  {
    hide Print;
    RegroupItems(Print(items[0]), if |items| == 1 then "" else PrintItems(items[1..]), rest);
  }

  lemma TailParts(c: char, body: string)
    ensures ([c] + body)[0] == c && ([c] + body)[1..] == body
  {}

  lemma {:induction false} ItemsRoundTrip(items: seq<Json>, rest: string)
    requires items != [] && forall i :: 0 <= i < |items| ==> WellFormed(items[i])
    ensures ReadItems(PrintItems(items) + "]" + rest) == Got(items, rest)
    decreases items, 0
  {
    hide ReadValue;
    hide ReadItems;
    hide Print;
    hide PrintItems;
    hide WellFormed;
    var more := ItemsTail(items, rest);
    ItemsSplit(items, rest);
    RoundTrip(items[0], more);
    ReadItemsStep(Print(items[0]) + more, items[0], more);
    if |items| > 1 {
      ItemsRoundTrip(items[1..], rest);
      TailParts(',', PrintItems(items[1..]) + "]" + rest);
      assert items == [items[0]] + items[1..];
    } else {
      TailParts(']', rest);
      assert items == [items[0]];
    }
  }

  ghost function Picked(fields: Object, keys: seq<Str>): Object
    requires forall k :: k in keys ==> k in fields
  {
    map k | k in keys :: fields[k]
  }

  lemma PickedStep(fields: Object, keys: seq<Str>)
    requires keys != [] && forall k :: k in keys ==> k in fields
    ensures Picked(fields, keys) == map[keys[0] := fields[keys[0]]] + Picked(fields, keys[1..])
    ensures |keys| == 1 ==> Picked(fields, keys) == map[keys[0] := fields[keys[0]]]
  {
    assert keys == [keys[0]] + keys[1..];
  }

  lemma ReadMembersStep(t: string, k: Str, body: string, x: Json, more: string)
    requires ReadString(t) == Got(k, ":" + body)
    requires more != "" && ReadValue(body) == Got(x, more)
    ensures more[0] == '}' ==> ReadMembers(t) == Got(map[k := x], more[1..])
    ensures more[0] == ',' && ReadMembers(more[1..]).Got? ==>
              ReadMembers(t) == Got(map[k := x] + ReadMembers(more[1..]).value, ReadMembers(more[1..]).rest)
  {
    assert (":" + body)[1..] == body;
  }

  ghost function MembersTail(obj: Json, keys: seq<Str>, rest: string): string
    requires obj.JObj? && keys != [] && forall k :: k in keys ==> k in obj.fields
  {
    if |keys| == 1 then "}" + rest else "," + (PrintMembers(obj, keys[1..]) + "}" + rest)
  }

  lemma Regroup(q: string, x: string, m: string, rest: string)
    ensures (q + ":" + x) + "}" + rest == q + (":" + (x + ("}" + rest)))
    ensures (q + ":" + x + "," + m) + "}" + rest == q + (":" + (x + ("," + (m + "}" + rest))))
  {}

  lemma MembersSplit(obj: Json, keys: seq<Str>, rest: string)
    requires obj.JObj? && keys != [] && forall k :: k in keys ==> k in obj.fields
    ensures PrintMembers(obj, keys) + "}" + rest
         == Quote(keys[0]) + (":" + (Print(obj.fields[keys[0]]) + MembersTail(obj, keys, rest)))
  {
    var m := if |keys| == 1 then "" else PrintMembers(obj, keys[1..]);
    Regroup(Quote(keys[0]), Print(obj.fields[keys[0]]), m, rest);
  }

  lemma {:induction false} MembersRoundTrip(obj: Json, keys: seq<Str>, rest: string)
    requires obj.JObj? && WellFormed(obj)
    requires keys != [] && forall k :: k in keys ==> k in obj.fields
    ensures ReadMembers(PrintMembers(obj, keys) + "}" + rest) == Got(Picked(obj.fields, keys), rest)
    decreases obj, 0, |keys|
  {
    hide ReadValue;
    hide Print;
    var t := PrintMembers(obj, keys) + "}" + rest;
    var k := keys[0];
    assert k in keys;
    var x := obj.fields[k];
    var more := MembersTail(obj, keys, rest);
    MembersSplit(obj, keys, rest);
    QuoteRoundTrip(k, ":" + (Print(x) + more));
    RoundTrip(x, more);
    ReadMembersStep(t, k, Print(x) + more, x, more);
    if |keys| > 1 {
      MembersRoundTrip(obj, keys[1..], rest);
      assert more[1..] == PrintMembers(obj, keys[1..]) + "}" + rest;
    } else {
      assert more[1..] == rest;
    }
    PickedStep(obj.fields, keys);
  }
}
