/** What the validation of staged values and document keys accepts, in terms of the texts themselves. */
module ConfigValues {
  import opened Prelude
  import opened PyText
  import Sanitize
  import opened ConfigParams

  // ---------------------------------------------------------------- white space

  ghost predicate Blank(s: Str) {
    forall i :: 0 <= i < |s| ==> IsSpace(s[i])
  }

  ghost predicate NoOuterSpace(s: Str) {
    s == [] || (!IsSpace(s[0]) && !IsSpace(s[|s|-1]))
  }

  lemma {:induction false} LeftStripped(s: Str) returns (pre: Str)
    ensures s == pre + StripLeft(s) && Blank(pre) && (StripLeft(s) != [] ==> !IsSpace(StripLeft(s)[0]))
  {
    hide IsSpace;
    if s != [] && IsSpace(s[0]) {
      pre := LeftStripped(s[1..]);
      pre := [s[0]] + pre;
      assert s == [s[0]] + s[1..];
    } else {
      pre := [];
    }
  }

  lemma {:induction false} RightStripped(s: Str) returns (post: Str)
    ensures s == StripRight(s) + post && Blank(post) && (StripRight(s) != [] ==> !IsSpace(StripRight(s)[|StripRight(s)|-1]))
  {
    hide IsSpace;
    if s != [] && IsSpace(s[|s|-1]) {
      post := RightStripped(s[..|s|-1]);
      post := post + [s[|s|-1]];
      assert s == s[..|s|-1] + [s[|s|-1]];
    } else {
      post := [];
    }
  }

  /** The text is this value with white space around it. */
  ghost predicate Trims(s: Str, value: Str) {
    NoOuterSpace(value) && exists pre, post :: Blank(pre) && Blank(post) && s == pre + value + post
  }

  /** Stripping removes exactly the outer white space. */
  lemma StripTrims(s: Str)
    ensures Trims(s, Strip(s))
  {
    hide IsSpace;
    var pre := LeftStripped(s);
    var post := RightStripped(StripLeft(s));
    var t := Strip(s);
    assert s == pre + t + post;
    if t != [] { assert StripLeft(s)[0] == t[0]; }
  }

  /** Where the white space around a value lies. */
  lemma Surrounded(s: Str, value: Str, pre: Str, post: Str)
    requires Blank(pre) && Blank(post) && s == pre + value + post && NoOuterSpace(value)
    ensures Blank(s) <==> value == []
    ensures forall i :: 0 <= i < |pre| ==> IsSpace(s[i])
    ensures forall i :: |pre| + |value| <= i < |s| ==> IsSpace(s[i])
    ensures value != [] ==> !IsSpace(s[|pre|]) && !IsSpace(s[|pre| + |value| - 1])
  {
    hide IsSpace;
    assert forall i :: |pre| + |value| <= i < |s| ==> s[i] == post[i - |pre| - |value|];
    if value != [] {
      assert s[|pre|] == value[0] && s[|pre| + |value| - 1] == value[|value|-1];
    }
  }

  /** There is only one way to remove it. */
  lemma TrimsUnique(s: Str, a: Str, b: Str)
    requires Trims(s, a) && Trims(s, b)
    ensures a == b
  {
    hide IsSpace;
    var pre, post :| Blank(pre) && Blank(post) && s == pre + a + post;
    var pre', post' :| Blank(pre') && Blank(post') && s == pre' + b + post';
    Surrounded(s, a, pre, post);
    Surrounded(s, b, pre', post');
    if a != [] {
      assert |pre| == |pre'| && |pre| + |a| == |pre'| + |b|;
      assert a == s[|pre|..|pre| + |a|] && b == s[|pre'|..|pre'| + |b|];
    }
  }

  lemma StripIs(s: Str, value: Str)
    ensures Strip(s) == value <==> Trims(s, value)
  {
    hide Trims;
    hide Strip;
    StripTrims(s);
    if Trims(s, value) { TrimsUnique(s, Strip(s), value); }
  }

  /** A text is non-blank and unchanged by stripping exactly when it has no outer white space. */
  lemma StripFixed(s: Str)
    ensures Strip(s) != [] && Strip(s) == s <==> s != [] && !IsSpace(s[0]) && !IsSpace(s[|s|-1])
  {
    hide IsSpace;
    hide Strip;
    StripIs(s, s);
    var none: Str := [];
    assert Blank(none) && s == none + s + none;
  }

  // ---------------------------------------------------------------- comma-separated lists

  function JoinCommas(pieces: seq<Str>): Str
    requires pieces != []
  {
    if |pieces| == 1 then pieces[0] else pieces[0] + [',' as int] + JoinCommas(pieces[1..])
  }

  /** Splitting and joining at commas are inverse, and no piece holds a comma. */
  lemma {:induction false} SplitJoins(s: Str)
    ensures SplitCommas(s) != [] && JoinCommas(SplitCommas(s)) == s
    ensures forall i :: 0 <= i < |SplitCommas(s)| ==> ',' as int !in SplitCommas(s)[i]
  {
    if s != [] {
      SplitJoins(s[1..]);
      var rest := SplitCommas(s[1..]);
      assert s == [s[0]] + s[1..];
      if s[0] == ',' as int {
        assert ([[]] + rest)[1..] == rest;
      } else {
        var pieces := [[s[0]] + rest[0]] + rest[1..];
        assert SplitCommas(s) == pieces && pieces[1..] == rest[1..];
        if |rest| > 1 { assert JoinCommas(rest) == rest[0] + [',' as int] + JoinCommas(rest[1..]); }
      }
    }
  }

  // ---------------------------------------------------------------- the value rules

  /** Minus signs up to here, then digits, at least one. */
  predicate SignsThenDigits(v: Str, k: nat) {
    k < |v| && (forall i :: 0 <= i < k ==> v[i] == '-' as int) && forall i :: k <= i < |v| ==> '0' as int <= v[i] <= '9' as int
  }

  ghost predicate IsIntegerText(v: Str) {
    exists k: nat :: SignsThenDigits(v, k)
  }

  lemma {:induction false} IntegerTexts(v: Str)
    ensures AllDigits(StripMinus(v)) <==> IsIntegerText(v)
  {
    if v != [] && v[0] == '-' as int {
      IntegerTexts(v[1..]);
      forall k: nat ensures SignsThenDigits(v[1..], k) <==> SignsThenDigits(v, k + 1) {
        assert forall i :: 0 <= i < |v[1..]| ==> v[1..][i] == v[i+1];
        assert forall i :: 1 <= i < |v| ==> v[i] == v[1..][i-1];
      }
      if k: nat :| SignsThenDigits(v, k) {
        assert k != 0;
        assert SignsThenDigits(v[1..], k - 1) <==> SignsThenDigits(v, k - 1 + 1);
      }
    } else {
      assert AllDigits(v) <==> SignsThenDigits(v, 0);
      forall k: nat | SignsThenDigits(v, k) ensures k == 0 {}
    }
  }

  /** The word in any mixture of upper and lower case. */
  ghost predicate SpellsWord(v: Str, word: string) {
    |v| == |word| && forall i :: 0 <= i < |v| ==> v[i] == word[i] as int || v[i] == word[i] as int - 0x20
  }

  lemma LowerSpells(v: Str, word: string)
    requires forall i :: 0 <= i < |word| ==> 'a' <= word[i] <= 'z' && word[i] != 'k'
    ensures Sanitize.Lower(v) == Py(word) <==> SpellsWord(v, word)
  {
    var l, w := Sanitize.Lower(v), Py(word);
    if SpellsWord(v, word) {
      forall i | 0 <= i < |l| ensures l[i] == w[i] {}
    }
    if l == w {
      forall i | 0 <= i < |v| ensures v[i] == word[i] as int || v[i] == word[i] as int - 0x20 { assert l[i] == w[i]; }
    }
  }

  /** What may be staged for a parameter of each type. */
  ghost predicate Admissible(p: Parameter, value: Str) {
    match p.valueType
    case EnumType =>
      p.allowedValues.Some? && p.allowedValues.value != [] ==>
        exists piece :: piece in SplitCommas(p.allowedValues.value) && Trims(piece, value)
    case IntegerType => IsIntegerText(value)
    case BooleanType => SpellsWord(value, "true") || SpellsWord(value, "false")
    case _ => true
  }

  lemma ValidIsAdmissible(p: Parameter, value: Str)
    ensures ValidValue(p, value) <==> Admissible(p, value)
  {
    hide Trims;
    hide Strip;
    hide SplitCommas;
    hide IsIntegerText;
    hide AllDigits;
    hide StripMinus;
    hide Sanitize.Lower;
    hide SpellsWord;
    IntegerTexts(value);
    LowerSpells(value, "true");
    LowerSpells(value, "false");
    if p.valueType == EnumType && p.allowedValues.Some? && p.allowedValues.value != [] {
      var pieces := SplitCommas(p.allowedValues.value);
      forall i | 0 <= i < |pieces| ensures Strip(pieces[i]) == value <==> Trims(pieces[i], value) { StripIs(pieces[i], value); }
    }
  }

  // ---------------------------------------------------------------- staging and reverting

  /** Every parameter but this is as it was, and nothing was logged. */
  ghost predicate OthersSame(before: Db, after: Db, id: Id) {
    id in before.params && after.params.Keys == before.params.Keys && after.log == before.log &&
    forall q :: q in before.params && q != id ==> after.params[q] == before.params[q]
  }

  /** Staging is refused for unknown parameters and inadmissible values; otherwise it stages the value, or clears it. */
  lemma StageOutcome(db: Db, id: Id, value: Str, changedBy: Str)
    ensures Stage(db, id, value, changedBy) == Err(NotFound) <==> id !in db.params
    ensures Stage(db, id, value, changedBy) == Err(Unprocessable) <==> id in db.params && !Admissible(db.params[id], value)
    ensures var r := Stage(db, id, value, changedBy);
            r.Ok? ==>
              OthersSame(db, r.value, id) &&
              if value == db.params[id].active
              then r.value.params[id] == db.params[id].(pending := None) && r.value.changes == db.changes
              else r.value.params[id] == db.params[id].(pending := Some(value)) && |r.value.changes| == |db.changes| + 1 &&
                   r.value.changes[..|db.changes|] == db.changes &&
                   var c := r.value.changes[|db.changes|];
                   c.parameterId == id && c.previousValue == db.params[id].active && c.newValue == value &&
                   c.changedBy == changedBy && c.status == PendingChange && c.appliedAt.None?
  {
    hide ValidValue;
    hide Admissible;
    if id in db.params { ValidIsAdmissible(db.params[id], value); }
  }

  lemma RevertOutcome(db: Db, id: Id)
    ensures Revert(db, id).Ok? <==> id in db.params
    ensures var r := Revert(db, id);
            r.Ok? ==>
              OthersSame(db, r.value, id) && r.value.params[id] == db.params[id].(pending := None) &&
              |r.value.changes| == |db.changes| && forall i :: 0 <= i < |db.changes| ==>
                var c := db.changes[i];
                r.value.changes[i] == if c.parameterId == id && c.status == PendingChange then c.(status := RevertedChange) else c
  {}
}
