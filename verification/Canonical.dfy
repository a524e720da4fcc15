/** What the round trip means for the hash payload: the canonical encoding is injective and prefix-free. */
module Canonical {
  import opened Prelude
  import opened PyText
  import opened Json
  import opened JsonParse
  import opened JsonRoundTrip

  lemma ReadCharLow(t: string)
    requires ReadChar(t).Got? && IsLow(ReadChar(t).value)
    ensures UnitAt(t) == Some(ReadChar(t).value)
  {}

  lemma {:induction false} ReadsWellFormedText(t: string)
    requires ReadChars(t).Got?
    ensures WellFormedText(ReadChars(t).value)
    decreases |t|
  {
    if t[0] != '"' {
      var c := ReadChar(t);
      var cs := ReadChars(c.rest);
      ReadsWellFormedText(c.rest);
      var s := ReadChars(t).value;
      if cs.value != [] && IsHigh(c.value) && IsLow(cs.value[0]) {
        ReadCharLow(c.rest);
        assert false;
      }
      forall i | 0 <= i < |s| - 1 ensures !(IsHigh(s[i]) && IsLow(s[i+1])) {
        if i > 0 { assert s[i] == cs.value[i-1] && s[i+1] == cs.value[i-1+1]; }
      }
    }
  }

  /** Every tree the reader returns has well-formed text. */
  lemma {:induction false} ReadsWellFormed(t: string)
    requires ReadValue(t).Got?
    ensures WellFormed(ReadValue(t).value)
    decreases |t|, 1
  {
    if t[0] == '"' {
      ReadsWellFormedText(t[1..]);
    } else if t[0] == '[' && !("[]" <= t) {
      ItemsReadWellFormed(t[1..]);
    } else if t[0] == '{' && !("{}" <= t) {
      MembersReadWellFormed(t[1..]);
    }
  }

  lemma {:induction false} ItemsReadWellFormed(t: string)
    requires ReadItems(t).Got?
    ensures forall i :: 0 <= i < |ReadItems(t).value| ==> WellFormed(ReadItems(t).value[i])
    decreases |t|, 2
  {
    var x := ReadValue(t);
    ReadsWellFormed(t);
    if x.rest[0] == ',' {
      ItemsReadWellFormed(x.rest[1..]);
    }
  }

  lemma {:induction false} MembersReadWellFormed(t: string)
    requires ReadMembers(t).Got?
    ensures WellFormed(JObj(ReadMembers(t).value))
    decreases |t|, 2
  {
    var k := ReadString(t);
    ReadsWellFormedText(t[1..]);
    var x := ReadValue(k.rest[1..]);
    ReadsWellFormed(k.rest[1..]);
    if x.rest[0] == ',' {
      MembersReadWellFormed(x.rest[1..]);
    }
  }

  /** Reading back an encoded tree, whatever follows it, returns the tree if and only if its text is well formed. */
  lemma RoundTripExactly(v: Json, rest: string)
    requires Terminated(rest)
    ensures ReadValue(Print(v) + rest) == Got(v, rest) <==> WellFormed(v)
  {
    if WellFormed(v) {
      RoundTrip(v, rest);
    } else if ReadValue(Print(v) + rest) == Got(v, rest) {
      ReadsWellFormed(Print(v) + rest);
    }
  }

  /** Two trees have the same canonical bytes only if they are the same tree; no encoding is a prefix of another. */
  lemma PrintInjective(v: Json, w: Json, restV: string, restW: string)
    requires WellFormed(v) && WellFormed(w) && Terminated(restV) && Terminated(restW)
    requires Print(v) + restV == Print(w) + restW
    ensures v == w && restV == restW
  {
    RoundTrip(v, restV);
    RoundTrip(w, restW);
  }

  // ---------------------------------------------------------------- exactly which strings share an encoding

  lemma PairUnits(high: CodePoint, low: CodePoint)
    requires IsHigh(high) && IsLow(low)
    ensures HighUnit(Combine(high, low)) == high && LowUnit(Combine(high, low)) == low
  {
    var d := low - 0xDC00;
    assert 0 <= d < 0x400;
    assert (high - 0xD800) * 0x400 + d == Combine(high, low) - 0x10000;
  }

  lemma PairEscape(high: CodePoint, low: CodePoint)
    requires IsHigh(high) && IsLow(low)
    ensures Escape(Combine(high, low)) == Escape(high) + Escape(low)
  {
    hide UnitEscape;
    PairUnits(high, low);
    hide HighUnit;
    hide LowUnit;
    hide Combine;
  }

  lemma EscapeStep(c: CodePoint, s: Str)
    ensures EscapeAll([c] + s) == Escape(c) + EscapeAll(s)
  {
    hide Escape;
    assert ([c] + s)[1..] == s;
  }

  lemma Regroup(a: string, b: string, c: string)
    ensures (a + b) + c == a + (b + c)
  {}

  /** Joining split surrogate pairs does not change what is written. */
  lemma {:induction false} JoinedEscapes(s: Str)
    ensures EscapeAll(Joined(s)) == EscapeAll(s)
    decreases |s|
  {
    hide Escape;
    hide EscapeAll;
    hide Combine;
    if |s| >= 2 {
      var rest := s[1..];
      assert s == [s[0]] + rest;
      EscapeStep(s[0], rest);
      if IsHigh(s[0]) && IsLow(s[1]) {
        var more := s[2..];
        assert rest == [s[1]] + more;
        JoinedEscapes(more);
        EscapeStep(s[1], more);
        EscapeStep(Combine(s[0], s[1]), Joined(more));
        PairEscape(s[0], s[1]);
        Regroup(Escape(s[0]), Escape(s[1]), EscapeAll(more));
      } else {
        JoinedEscapes(rest);
        EscapeStep(s[0], Joined(rest));
      }
    }
  }

  /** Two strings are written alike if and only if their scalar-value readings coincide. */
  lemma QuoteCollides(s: Str, t: Str)
    ensures Quote(s) == Quote(t) <==> Joined(s) == Joined(t)
  {
    if Quote(s) == Quote(t) {
      QuoteRoundTrip(s, "");
      QuoteRoundTrip(t, "");
    }
    JoinedEscapes(s);
    JoinedEscapes(t);
  }
}

/** Insertion-ordered dictionaries, and the proof that `sort_keys=True` erases the order. */
module InsertionOrder {
  import opened PyText
  import opened Json
  import JsonRoundTrip

  datatype PyValue =
    | Scalar(v: Json)
    | List(items: seq<PyValue>)
    | Dict(entries: seq<Item>)

  datatype Item = Item(key: Str, val: PyValue)

  ghost predicate Distinct(entries: seq<Item>) {
    forall i, j :: 0 <= i < j < |entries| ==> entries[i].key != entries[j].key
  }

  /** A Python value: scalars hold no containers and a dictionary holds each key once. */
  ghost predicate Valid(p: PyValue) {
    match p
    case Scalar(v) => !v.JArr? && !v.JObj?
    case List(items) => forall i :: 0 <= i < |items| ==> Valid(items[i])
    case Dict(entries) => Distinct(entries) && forall i :: 0 <= i < |entries| ==> Valid(entries[i].val)
  }

  ghost function Meaning(p: PyValue): Json
    decreases p, 1
  {
    match p
    case Scalar(v) => v
    case List(items) => JArr(seq(|items|, i requires 0 <= i < |items| => Meaning(items[i])))
    case Dict(entries) => JObj(Fields(entries))
  }

  ghost function Fields(entries: seq<Item>): Object
    decreases entries, 0
  {
    if entries == [] then map[]
    else
      var e := entries[0];
      Fields(entries[1..]) + map[e.key := Meaning(e.val)]
  }

  function Insert(e: Item, sorted: seq<Item>): seq<Item> {
    if sorted == [] || Less(e.key, sorted[0].key) then [e] + sorted else [sorted[0]] + Insert(e, sorted[1..])
  }

  /** `sorted(d.items())`. */
  function SortItems(entries: seq<Item>): seq<Item> {
    if entries == [] then [] else Insert(entries[0], SortItems(entries[1..]))
  }

  lemma {:induction false} InsertMembers(e: Item, sorted: seq<Item>)
    ensures multiset(Insert(e, sorted)) == multiset([e]) + multiset(sorted)
  {
    if !(sorted == [] || Less(e.key, sorted[0].key)) {
      InsertMembers(e, sorted[1..]);
      assert sorted == [sorted[0]] + sorted[1..];
    }
  }

  lemma {:induction false} SortMembers(entries: seq<Item>)
    ensures multiset(SortItems(entries)) == multiset(entries)
    ensures |SortItems(entries)| == |entries|
    ensures forall e :: e in SortItems(entries) <==> e in entries
  {
    if entries != [] {
      SortMembers(entries[1..]);
      InsertMembers(entries[0], SortItems(entries[1..]));
      assert entries == [entries[0]] + entries[1..];
    }
    assert |multiset(SortItems(entries))| == |SortItems(entries)|;
    forall e ensures e in SortItems(entries) <==> e in entries {
      assert e in multiset(SortItems(entries)) <==> e in multiset(entries);
    }
  }

  /** `json.dumps` over insertion-ordered values. */
  function Dumps(p: PyValue): string
    requires Valid(p)
    decreases p, 1
  {
    match p
    case Scalar(v) => DumpScalar(v)
    case List(items) => "[" + DumpItems(items) + "]"
    case Dict(entries) =>
      SortMembers(entries);
      "{" + DumpMembers(p, SortItems(entries)) + "}"
  }

  function DumpScalar(v: Json): string
    requires !v.JArr? && !v.JObj?
  {
    match v
    case JNull => "null"
    case JBool(b) => if b then "true" else "false"
    case JInt(n) => IntText(n)
    case JFloat(lit) => lit
    case JStr(s) => Quote(s)
  }

  function DumpItems(items: seq<PyValue>): string
    requires forall i :: 0 <= i < |items| ==> Valid(items[i])
    decreases items, 0
  {
    if items == [] then ""
    else if |items| == 1 then Dumps(items[0])
    else Dumps(items[0]) + "," + DumpItems(items[1..])
  }

  function DumpMembers(p: PyValue, es: seq<Item>): string
    requires p.Dict? && Valid(p) && forall e :: e in es ==> e in p.entries
    decreases p, 0, |es|
  {
    if es == [] then ""
    else
      assert es[0] in p.entries;
      var member := Quote(es[0].key) + ":" + Dumps(es[0].val);
      if |es| == 1 then member else member + "," + DumpMembers(p, es[1..])
  }

  ghost predicate AscendingItems(es: seq<Item>) {
    forall i, j :: 0 <= i < j < |es| ==> Less(es[i].key, es[j].key)
  }

  lemma ConsAscending(e: Item, es: seq<Item>)
    requires AscendingItems(es) && forall x :: x in es ==> Less(e.key, x.key)
    ensures AscendingItems([e] + es)
  {}

  lemma {:induction false} InsertAscending(e: Item, sorted: seq<Item>)
    requires AscendingItems(sorted) && forall x :: x in sorted ==> x.key != e.key
    ensures AscendingItems(Insert(e, sorted))
  {
    if sorted != [] {
      var head, tail := sorted[0], sorted[1..];
      assert head in sorted && sorted == [head] + tail;
      assert forall x :: x in tail ==> Less(head.key, x.key);
      LessTotal(e.key, head.key);
      if Less(e.key, head.key) {
        forall x | x in sorted ensures Less(e.key, x.key) {
          if x != head { LessTransitive(e.key, head.key, x.key); }
        }
        ConsAscending(e, sorted);
      } else {
        InsertAscending(e, tail);
        InsertMembers(e, tail);
        forall x | x in Insert(e, tail) ensures Less(head.key, x.key) {
          assert x in multiset(Insert(e, tail));
        }
        ConsAscending(head, Insert(e, tail));
      }
    }
  }

  function Keys(es: seq<Item>): (r: seq<Str>)
    ensures |r| == |es|
  {
    seq(|es|, i requires 0 <= i < |es| => es[i].key)
  }

  lemma {:induction false} SortAscending(entries: seq<Item>)
    requires Distinct(entries)
    ensures AscendingItems(SortItems(entries))
  {
    if entries != [] {
      var tail := entries[1..];
      assert Distinct(tail);
      SortAscending(tail);
      SortMembers(tail);
      var sorted := SortItems(tail);
      forall x | x in sorted ensures x.key != entries[0].key {
        assert x in tail;
        var q :| 0 <= q < |tail| && tail[q] == x;
        assert entries[q+1] == tail[q];
      }
      InsertAscending(entries[0], sorted);
    }
  }

  lemma {:induction false} FieldsLookup(entries: seq<Item>)
    requires Distinct(entries)
    ensures forall i :: 0 <= i < |entries| ==>
              entries[i].key in Fields(entries) && Fields(entries)[entries[i].key] == Meaning(entries[i].val)
    ensures forall k :: k in Fields(entries) <==> k in Keys(entries)
  {
    if entries != [] {
      var tail := entries[1..];
      assert Distinct(tail);
      FieldsLookup(tail);
      assert Keys(entries) == [entries[0].key] + Keys(tail);
      forall i | 0 <= i < |entries|
        ensures entries[i].key in Fields(entries) && Fields(entries)[entries[i].key] == Meaning(entries[i].val)
      {
        if i > 0 { assert entries[i] == tail[i-1]; }
      }
    }
  }

  /** The text written for a Python value depends only on its meaning, never on the order keys were inserted in. */
  lemma {:induction false} DumpsIsPrint(p: PyValue)
    requires Valid(p)
    ensures Dumps(p) == Print(Meaning(p))
    decreases p, 2
  {
    match p
    case Scalar(v) =>
    case List(items) => ItemsDump(items, Meaning(p).items);
    case Dict(entries) => DictDump(p);
  }

  lemma {:induction false} DictDump(p: PyValue)
    requires p.Dict? && Valid(p)
    ensures Dumps(p) == Print(Meaning(p))
    decreases p, 1
  {
    var obj := JObj(Fields(p.entries));
    SortMembers(p.entries);
    assert Keys(SortItems(p.entries)) == SortedKeys(obj.fields.Keys) && Agrees(p.entries, obj.fields) by {
      SortedFields(p.entries);
    }
    MembersDump(p, SortItems(p.entries), obj);
    DictText(p);
    JsonRoundTrip.ObjectText(obj, "");
    assert Print(obj) + "" == Print(obj);
  }

  lemma DictText(p: PyValue)
    requires p.Dict? && Valid(p)
    ensures forall e :: e in SortItems(p.entries) ==> e in p.entries
    ensures Dumps(p) == "{" + (DumpMembers(p, SortItems(p.entries)) + "}" + "")
    ensures Meaning(p) == JObj(Fields(p.entries))
  {
    SortMembers(p.entries);
  }

  lemma KeysSubset(a: seq<Item>, b: seq<Item>, k: Str)
    requires forall e :: e in a ==> e in b
    ensures k in Keys(a) ==> k in Keys(b)
  {
    if k in Keys(a) {
      var i :| 0 <= i < |a| && Keys(a)[i] == k;
      assert a[i] in b;
      var j :| 0 <= j < |b| && b[j] == a[i];
      assert Keys(b)[j] == k;
    }
  }

  /** Sorting the items enumerates the dictionary's keys in the order Print uses. */
  lemma SortedFields(entries: seq<Item>)
    requires Distinct(entries)
    ensures Keys(SortItems(entries)) == SortedKeys(Fields(entries).Keys)
    ensures forall i :: 0 <= i < |entries| ==>
              entries[i].key in Fields(entries) && Fields(entries)[entries[i].key] == Meaning(entries[i].val)
  {
    var keys, fields := Keys(SortItems(entries)), Fields(entries).Keys;
    FieldsLookup(entries);
    assert forall k :: k in keys <==> k in fields by {
      SortMembers(entries);
      forall k ensures k in keys <==> k in Keys(entries) {
        KeysSubset(entries, SortItems(entries), k);
        KeysSubset(SortItems(entries), entries, k);
      }
    }
    assert Ascending(keys) by { SortAscending(entries); }
    KeyCount(keys, fields);
    AscendingUnique(keys, SortedKeys(fields));
  }

  lemma {:induction false} KeyCount(keys: seq<Str>, s: set<Str>)
    requires Ascending(keys) && forall k :: k in keys <==> k in s
    ensures |keys| == |s|
  {
    if keys == [] {
      assert s == {};
    } else {
      LessTotal(keys[0], keys[0]);
      assert forall i :: 0 < i < |keys| ==> Less(keys[0], keys[i]);
      assert keys == [keys[0]] + keys[1..];
      KeyCount(keys[1..], s - {keys[0]});
    }
  }

  lemma {:induction false} ItemsDump(items: seq<PyValue>, js: seq<Json>)
    requires forall i :: 0 <= i < |items| ==> Valid(items[i])
    requires |js| == |items| && forall i :: 0 <= i < |items| ==> js[i] == Meaning(items[i])
    ensures DumpItems(items) == PrintItems(js)
    decreases items, 0
  {
    if items != [] {
      DumpsIsPrint(items[0]);
      ItemsDump(items[1..], js[1..]);
    }
  }

  ghost predicate Agrees(es: seq<Item>, fields: Object) {
    forall e :: e in es ==> e.key in fields && fields[e.key] == Meaning(e.val)
  }

  lemma DumpMembersStep(p: PyValue, es: seq<Item>)
    requires p.Dict? && Valid(p) && es != [] && forall e :: e in es ==> e in p.entries
    ensures es[0] in p.entries && Valid(es[0].val)
    ensures DumpMembers(p, es) ==
            var member := Quote(es[0].key) + ":" + Dumps(es[0].val);
            if |es| == 1 then member else member + "," + DumpMembers(p, es[1..])
  {
    assert es[0] in es;
  }

  lemma PrintMembersStep(obj: Json, keys: seq<Str>)
    requires obj.JObj? && keys != [] && forall k :: k in keys ==> k in obj.fields
    ensures keys[0] in obj.fields
    ensures PrintMembers(obj, keys) ==
            var member := Quote(keys[0]) + ":" + Print(obj.fields[keys[0]]);
            if |keys| == 1 then member else member + "," + PrintMembers(obj, keys[1..])
  {}

  lemma {:induction false} MembersDump(p: PyValue, es: seq<Item>, obj: Json)
    requires p.Dict? && Valid(p) && obj.JObj? && forall e :: e in es ==> e in p.entries
    requires Agrees(es, obj.fields)
    ensures forall k :: k in Keys(es) ==> k in obj.fields
    ensures DumpMembers(p, es) == PrintMembers(obj, Keys(es))
    decreases p, 0, |es|
  {
    if es != [] {
      var head, tail := es[0], es[1..];
      assert head in es && head in p.entries;
      assert Keys(es) == [head.key] + Keys(tail) && Keys(es)[1..] == Keys(tail);
      assert forall k :: k in Keys(es) ==> k in obj.fields by {
        forall k | k in Keys(es) ensures k in obj.fields {
          var i :| 0 <= i < |es| && Keys(es)[i] == k;
          assert es[i] in es;
        }
      }
      DumpMembersStep(p, es);
      PrintMembersStep(obj, Keys(es));
      DumpsIsPrint(head.val);
      MembersDump(p, tail, obj);
    }
  }
}
