/**
 Exactly which trees are written alike. Without any hypothesis on their text: those that read the same along the
 sorted keys, once every split surrogate pair, in keys as in values, is joined.
 */
module Spelling {
  import opened PyText
  import opened Json
  import opened JsonParse
  import opened JsonRoundTrip
  import opened Canonical

  /** What a canonical text spells: objects are member sequences, in which two keys may come out the same. */
  datatype Spelled =
    | Scalar(v: Json)
    | Text(s: Str)
    | List(items: seq<Spelled>)
    | Members(members: seq<(Str, Spelled)>)

  ghost function Spell(v: Json): Spelled
    decreases v, 1
  {
    match v
    case JStr(s) => Text(Joined(s))
    case JArr(items) => List(SpellItems(items))
    case JObj(fields) => Members(SpellMembers(v, SortedKeys(fields.Keys)))
    case _ => Scalar(v)
  }

  ghost function SpellItems(items: seq<Json>): (r: seq<Spelled>)
    ensures |r| == |items|
    decreases items, 0
  {
    if items == [] then [] else [Spell(items[0])] + SpellItems(items[1..])
  }

  ghost function SpellMembers(obj: Json, keys: seq<Str>): (r: seq<(Str, Spelled)>)
    requires obj.JObj? && forall k :: k in keys ==> k in obj.fields
    ensures |r| == |keys|
    decreases obj, 0, |keys|
  {
    if keys == [] then []
    else
      assert keys[0] in keys;
      [(Joined(keys[0]), Spell(obj.fields[keys[0]]))] + SpellMembers(obj, keys[1..])
  }

  // ---------------------------------------------------------------- the same spelling gives the same text

  lemma {:induction false} SameSpellingSameText(v: Json, w: Json)
    requires Spell(v) == Spell(w)
    ensures Print(v) == Print(w)
    decreases v, 1
  {
    match v
    case JStr(s) => QuoteCollides(s, w.s);
    case JArr(items) => SameItems(items, w.items);
    case JObj(fields) => SameMembers(v, SortedKeys(fields.Keys), w, SortedKeys(w.fields.Keys));
    case _ =>
  }

  lemma {:induction false} SameItems(xs: seq<Json>, ys: seq<Json>)
    requires SpellItems(xs) == SpellItems(ys)
    ensures PrintItems(xs) == PrintItems(ys)
    decreases xs, 0
  {
    hide Spell;
    hide Print;
    if xs != [] {
      var p, q := SpellItems(xs), SpellItems(ys);
      assert |xs| == |ys|;
      assert p[0] == Spell(xs[0]) && q[0] == Spell(ys[0]) && p[1..] == SpellItems(xs[1..]) && q[1..] == SpellItems(ys[1..]);
      SameSpellingSameText(xs[0], ys[0]);
      SameItems(xs[1..], ys[1..]);
    }
  }

  lemma {:induction false} SameMembers(v: Json, xs: seq<Str>, w: Json, ys: seq<Str>)
    requires v.JObj? && (forall k :: k in xs ==> k in v.fields) && w.JObj? && (forall k :: k in ys ==> k in w.fields)
    requires SpellMembers(v, xs) == SpellMembers(w, ys)
    ensures PrintMembers(v, xs) == PrintMembers(w, ys)
    decreases v, 0, |xs|
  {
    hide Spell;
    hide Print;
    hide Quote;
    hide Joined;
    if xs != [] {
      var p, q := SpellMembers(v, xs), SpellMembers(w, ys);
      assert |xs| == |ys| && xs[0] in xs && ys[0] in ys;
      assert p[0] == (Joined(xs[0]), Spell(v.fields[xs[0]])) && q[0] == (Joined(ys[0]), Spell(w.fields[ys[0]]));
      assert p[1..] == SpellMembers(v, xs[1..]) && q[1..] == SpellMembers(w, ys[1..]);
      QuoteCollides(xs[0], ys[0]);
      SameSpellingSameText(v.fields[xs[0]], w.fields[ys[0]]);
      SameMembers(v, xs[1..], w, ys[1..]);
    }
  }

  // ---------------------------------------------------------------- the same text gives the same spelling

  /** The first character tells strings, arrays, objects and the rest apart. */
  function Class(v: Json): int {
    match v case JStr(_) => 1 case JArr(_) => 2 case JObj(_) => 3 case _ => 0
  }

  function ClassOf(c: char): int {
    if c == '"' then 1 else if c == '[' then 2 else if c == '{' then 3 else 0
  }

  lemma FirstTells(v: Json)
    ensures Print(v) != "" && ClassOf(Print(v)[0]) == Class(v)
  {
    FirstChar(v);
  }

  lemma ScalarRoundTrip(v: Json, rest: string)
    requires Class(v) == 0 && Terminated(rest)
    ensures ReadValue(Print(v) + rest) == Got(v, rest)
  {
    if v.JInt? || v.JFloat? { NumberRoundTrip(v, rest); } else { LiteralRoundTrip(v, rest); }
  }

  lemma Cut(a: string, x: string, b: string, y: string)
    requires |a| == |b| && a + x == b + y
    ensures x == y
  {
    assert x == (a + x)[|a|..] && y == (b + y)[|b|..];
  }

  /** Texts that agree, whatever follows them, spell the same and are followed by the same. */
  lemma {:induction false} SameTextSameSpelling(v: Json, w: Json, restV: string, restW: string)
    requires Terminated(restV) && Terminated(restW) && Print(v) + restV == Print(w) + restW
    ensures Spell(v) == Spell(w) && restV == restW
    decreases v, 1
  {
    FirstTells(v);
    FirstTells(w);
    assert Class(v) == Class(w) by {
      assert (Print(v) + restV)[0] == Print(v)[0] && (Print(w) + restW)[0] == Print(w)[0];
    }
    hide ClassOf;
    match v
    case JStr(s) =>
      QuoteRoundTrip(s, restV);
      QuoteRoundTrip(w.s, restW);
    case JArr(items) =>
      ArrayText(v, restV);
      ArrayText(w, restW);
      Cut("[", PrintItems(items) + "]" + restV, "[", PrintItems(w.items) + "]" + restW);
      ItemsSpelling(items, w.items, restV, restW);
    case JObj(fields) =>
      ObjectText(v, restV);
      ObjectText(w, restW);
      var xs, ys := SortedKeys(fields.Keys), SortedKeys(w.fields.Keys);
      Cut("{", PrintMembers(v, xs) + "}" + restV, "{", PrintMembers(w, ys) + "}" + restW);
      MembersSpelling(v, xs, w, ys, restV, restW);
    case _ =>
      ScalarRoundTrip(v, restV);
      ScalarRoundTrip(w, restW);
  }

  lemma ArrayText(v: Json, rest: string)
    requires v.JArr?
    ensures Print(v) + rest == "[" + (PrintItems(v.items) + "]" + rest)
  {
    hide PrintItems;
    Bracket("[", PrintItems(v.items), "]", rest);
  }

  lemma ItemsStart(items: seq<Json>, rest: string)
    ensures var t := PrintItems(items) + "]" + rest; t != "" && (t[0] == ']' <==> items == [])
  {
    if items != [] {
      FirstChar(items[0]);
      ItemsSplit(items, rest);
      hide Print;
      hide PrintItems;
      hide ItemsTail;
      assert (Print(items[0]) + ItemsTail(items, rest))[0] == Print(items[0])[0];
    } else {
      assert PrintItems(items) + "]" + rest == "]" + rest;
    }
  }

  lemma {:induction false} ItemsSpelling(xs: seq<Json>, ys: seq<Json>, restX: string, restY: string)
    requires PrintItems(xs) + "]" + restX == PrintItems(ys) + "]" + restY
    ensures SpellItems(xs) == SpellItems(ys) && restX == restY
    decreases xs, 0
  {
    ItemsStart(xs, restX);
    ItemsStart(ys, restY);
    if xs == [] {
      assert PrintItems(xs) + "]" + restX == "]" + restX && PrintItems(ys) + "]" + restY == "]" + restY;
      Cut("]", restX, "]", restY);
    } else {
      ItemsSplit(xs, restX);
      ItemsSplit(ys, restY);
      var x, y := ItemsTail(xs, restX), ItemsTail(ys, restY);
      hide Print;
      hide PrintItems;
      hide Spell;
      SameTextSameSpelling(xs[0], ys[0], x, y);
      assert x[0] == y[0];
      if |xs| == 1 {
        Cut("]", restX, "]", restY);
        assert xs[1..] == [] && ys[1..] == [];
      } else {
        Cut(",", PrintItems(xs[1..]) + "]" + restX, ",", PrintItems(ys[1..]) + "]" + restY);
        ItemsSpelling(xs[1..], ys[1..], restX, restY);
      }
    }
  }

  lemma MembersStart(v: Json, keys: seq<Str>, rest: string)
    requires v.JObj? && forall k :: k in keys ==> k in v.fields
    ensures var t := PrintMembers(v, keys) + "}" + rest; t != "" && (t[0] == '}' <==> keys == [])
  {
    if keys != [] {
      MembersSplit(v, keys, rest);
      hide PrintMembers;
      assert Quote(keys[0])[0] == '"';
    } else {
      assert PrintMembers(v, keys) + "}" + rest == "}" + rest;
    }
  }

  lemma {:induction false} MembersSpelling(v: Json, xs: seq<Str>, w: Json, ys: seq<Str>, restV: string, restW: string)
    requires v.JObj? && (forall k :: k in xs ==> k in v.fields) && w.JObj? && (forall k :: k in ys ==> k in w.fields)
    requires PrintMembers(v, xs) + "}" + restV == PrintMembers(w, ys) + "}" + restW
    ensures SpellMembers(v, xs) == SpellMembers(w, ys) && restV == restW
    decreases v, 0, |xs|
  {
    MembersStart(v, xs, restV);
    MembersStart(w, ys, restW);
    if xs == [] {
      assert PrintMembers(v, xs) + "}" + restV == "}" + restV && PrintMembers(w, ys) + "}" + restW == "}" + restW;
      Cut("}", restV, "}", restW);
    } else {
      assert xs[0] in xs && ys[0] in ys;
      MembersSplit(v, xs, restV);
      MembersSplit(w, ys, restW);
      hide Print;
      hide PrintMembers;
      hide Quote;
      hide Spell;
      hide Joined;
      var x, y := MembersTail(v, xs, restV), MembersTail(w, ys, restW);
      var bodyV, bodyW := Print(v.fields[xs[0]]) + x, Print(w.fields[ys[0]]) + y;
      QuoteRoundTrip(xs[0], ":" + bodyV);
      QuoteRoundTrip(ys[0], ":" + bodyW);
      Cut(":", bodyV, ":", bodyW);
      SameTextSameSpelling(v.fields[xs[0]], w.fields[ys[0]], x, y);
      assert x[0] == y[0];
      if |xs| == 1 {
        Cut("}", restV, "}", restW);
        assert xs[1..] == [] && ys[1..] == [];
      } else {
        Cut(",", PrintMembers(v, xs[1..]) + "}" + restV, ",", PrintMembers(w, ys[1..]) + "}" + restW);
        MembersSpelling(v, xs[1..], w, ys[1..], restV, restW);
      }
    }
  }

  /** Any two trees have the same canonical bytes if and only if they spell the same. */
  lemma PrintCollides(v: Json, w: Json)
    ensures Print(v) == Print(w) <==> Spell(v) == Spell(w)
  {
    if Spell(v) == Spell(w) { SameSpellingSameText(v, w); }
    if Print(v) == Print(w) {
      assert Print(v) + "" == Print(w) + "";
      SameTextSameSpelling(v, w, "", "");
    }
  }
}
