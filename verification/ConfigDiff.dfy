/** The masked comparison of two document versions, and its laws. */
module ConfigDiff {
  import opened Prelude
  import opened PyText
  import opened Json
  import opened JsonParse
  import Audit
  import opened AuditTheorems
  import Canonical
  import ConfigDocs

  /** Eight bullets. */
  const MASK: Json := JStr([0x2022, 0x2022, 0x2022, 0x2022, 0x2022, 0x2022, 0x2022, 0x2022])

  /** `_mask_payload`. */
  function Masked(payload: Object, sensitive: set<Str>): Object {
    map k | k in payload :: if k in sensitive then MASK else payload[k]
  }

  datatype Diff = Diff(added: Object, removed: Object, changed: map<Str, (Json, Json)>, unchangedCount: nat)

  /** A document as the comparison sees it: its raw payload and the keys to mask. */
  datatype Side = Side(payload: Object, sensitive: set<Str>)

  // ---------------------------------------------------------------- Python's `==`

  /** The number a float's text stands for; binary rounding is what makes it more than the decimal it shows. */
  type Floats = FloatText -> real

  /** Booleans, integers and floats compare as numbers. */
  function Numeric(num: Floats, v: Json): Option<real> {
    match v
    case JBool(b) => Some(if b then 1.0 else 0.0)
    case JInt(n) => Some(n as real)
    case JFloat(lit) => Some(num(lit))
    case _ => None
  }

  /** `v == w` on decoded JSON: numbers by value whatever their type, containers member by member. */
  predicate Same(num: Floats, v: Json, w: Json) {
    if Numeric(num, v).Some? || Numeric(num, w).Some? then Numeric(num, v) == Numeric(num, w)
    else
      match v
      case JStr(s) => w == JStr(s)
      case JArr(items) => w.JArr? && |w.items| == |items| && forall i :: 0 <= i < |items| ==> Same(num, items[i], w.items[i])
      case JObj(fields) =>
        w.JObj? && w.fields.Keys == fields.Keys && forall k :: k in fields && k in w.fields ==> Same(num, fields[k], w.fields[k])
      case _ => w.JNull?
  }

  lemma {:induction false} SameReflexive(num: Floats, v: Json)
    ensures Same(num, v, v)
  {
    match v {
      case JArr(items) => forall i | 0 <= i < |items| ensures Same(num, items[i], items[i]) { SameReflexive(num, items[i]); }
      case JObj(fields) => forall k | k in fields ensures Same(num, fields[k], fields[k]) { SameReflexive(num, fields[k]); }
      case _ =>
    }
  }

  lemma {:induction false} SameSymmetric(num: Floats, v: Json, w: Json)
    ensures Same(num, v, w) <==> Same(num, w, v)
  {
    match (v, w) {
      case (JArr(xs), JArr(ys)) =>
        if |xs| == |ys| {
          forall i | 0 <= i < |xs| ensures Same(num, xs[i], ys[i]) <==> Same(num, ys[i], xs[i]) { SameSymmetric(num, xs[i], ys[i]); }
        }
      case (JObj(xs), JObj(ys)) =>
        forall k | k in xs && k in ys ensures Same(num, xs[k], ys[k]) <==> Same(num, ys[k], xs[k]) { SameSymmetric(num, xs[k], ys[k]); }
      case _ =>
    }
  }

  lemma {:induction false} SameTransitive(num: Floats, u: Json, v: Json, w: Json)
    requires Same(num, u, v) && Same(num, v, w)
    ensures Same(num, u, w)
  {
    match (u, v, w) {
      case (JArr(xs), JArr(ys), JArr(zs)) =>
        forall i | 0 <= i < |xs| ensures Same(num, xs[i], zs[i]) { SameTransitive(num, xs[i], ys[i], zs[i]); }
      case (JObj(xs), JObj(ys), JObj(zs)) =>
        forall k | k in xs ensures Same(num, xs[k], zs[k]) { SameTransitive(num, xs[k], ys[k], zs[k]); }
      case _ =>
    }
  }

  // ---------------------------------------------------------------- the difference

  function Common(base: Side, other: Side): set<Str> {
    base.payload.Keys * other.payload.Keys
  }

  function ChangedKeys(num: Floats, base: Side, other: Side): set<Str> {
    set k | k in Common(base, other) && !Same(num, base.payload[k], other.payload[k])
  }

  function UnchangedKeys(num: Floats, base: Side, other: Side): set<Str> {
    set k | k in Common(base, other) && Same(num, base.payload[k], other.payload[k])
  }

  function Added(base: Side, other: Side): Object {
    Masked(other.payload, other.sensitive) - base.payload.Keys
  }

  function Changes(keys: set<Str>, base: Object, other: Object): map<Str, (Json, Json)>
    requires keys <= base.Keys && keys <= other.Keys
  {
    map k | k in keys :: (base[k], other[k])
  }

  function DiffOf(num: Floats, base: Side, other: Side): Diff {
    Diff(Added(base, other), Added(other, base),
         Changes(ChangedKeys(num, base, other), Masked(base.payload, base.sensitive), Masked(other.payload, other.sensitive)),
         |UnchangedKeys(num, base, other)|)
  }

  /** The loop over the common keys: what changed, as shown, and how many values are equal. */
  method CompareCommon(num: Floats, base: Side, other: Side, baseMasked: Object, otherMasked: Object)
    returns (changed: map<Str, (Json, Json)>, unchangedCount: nat)
    requires baseMasked.Keys == base.payload.Keys && otherMasked.Keys == other.payload.Keys
    ensures changed == Changes(ChangedKeys(num, base, other), baseMasked, otherMasked)
    ensures unchangedCount == |UnchangedKeys(num, base, other)|
  {
    changed := map[];
    unchangedCount := 0;
    var todo := Common(base, other);
    ghost var kept: set<Str> := {};
    while todo != {}
      invariant forall k :: k in todo ==> k in Common(base, other)
      invariant forall k :: k in changed <==> k in Common(base, other) && k !in todo && !Same(num, base.payload[k], other.payload[k])
      invariant forall k :: k in changed ==> changed[k] == (baseMasked[k], otherMasked[k])
      invariant forall k :: k in kept <==> k in Common(base, other) && k !in todo && Same(num, base.payload[k], other.payload[k])
      invariant unchangedCount == |kept|
      decreases todo
    {
      var key :| key in todo;
      if !Same(num, base.payload[key], other.payload[key]) {
        changed := changed[key := (baseMasked[key], otherMasked[key])];
      } else {
        unchangedCount := unchangedCount + 1;
        kept := kept + {key};
      }
      todo := todo - {key};
    }
    assert kept == UnchangedKeys(num, base, other);
    assert changed == Changes(ChangedKeys(num, base, other), baseMasked, otherMasked);
  }

  /** The comparison of `compare_configurations`: raw values decide, only masked values are shown. */
  method Compare(num: Floats, base: Side, other: Side) returns (d: Diff)
    ensures d == DiffOf(num, base, other)
  {
    var baseMasked, otherMasked := Masked(base.payload, base.sensitive), Masked(other.payload, other.sensitive);
    var added := otherMasked - base.payload.Keys;
    var removed := baseMasked - other.payload.Keys;
    var changed, unchangedCount := CompareCommon(num, base, other, baseMasked, otherMasked);
    d := Diff(added, removed, changed, unchangedCount);
  }

  lemma Parts(whole: set<Str>, a: set<Str>, b: set<Str>, c: set<Str>)
    requires forall k :: k in whole <==> k in a || k in b || k in c
    requires forall k :: !(k in a && k in b) && !(k in a && k in c) && !(k in b && k in c)
    ensures |whole| == |a| + |b| + |c|
  {
    assert whole == a + (b + c);
    assert |b + c| == |b| + |c|;
  }

  lemma SizeOf(base: Side, other: Side, num: Floats)
    ensures |base.payload| == |Added(other, base)| + |ChangedKeys(num, base, other)| + |UnchangedKeys(num, base, other)|
  {
    var gone := Added(other, base).Keys;
    assert forall k :: k in gone <==> k in base.payload && k !in other.payload;
    hide Added;
    Parts(base.payload.Keys, gone, ChangedKeys(num, base, other), UnchangedKeys(num, base, other));
    assert |base.payload.Keys| == |base.payload| && |gone| == |Added(other, base)|;
  }

  lemma ChangedSymmetric(num: Floats, base: Side, other: Side)
    ensures ChangedKeys(num, other, base) == ChangedKeys(num, base, other)
    ensures UnchangedKeys(num, other, base) == UnchangedKeys(num, base, other)
  {
    hide Same;
    forall k | k in Common(base, other)
      ensures Same(num, base.payload[k], other.payload[k]) <==> Same(num, other.payload[k], base.payload[k])
    {
      SameSymmetric(num, base.payload[k], other.payload[k]);
    }
  }

  /** Every key of either version is counted exactly once. */
  lemma DiffCounts(num: Floats, base: Side, other: Side)
    ensures var d := DiffOf(num, base, other);
            |base.payload| == |d.removed| + |d.changed| + d.unchangedCount && |other.payload| == |d.added| + |d.changed| + d.unchangedCount
  {
    hide Added;
    hide Masked;
    SizeOf(base, other, num);
    SizeOf(other, base, num);
    ChangedSymmetric(num, base, other);
    var changed := DiffOf(num, base, other).changed;
    assert changed.Keys == ChangedKeys(num, base, other);
    assert |changed.Keys| == |changed|;
  }

  /** Swapping the versions swaps what was added with what was removed, and each change's two sides. */
  lemma DiffSwaps(num: Floats, base: Side, other: Side)
    ensures var d, e := DiffOf(num, base, other), DiffOf(num, other, base);
            e.added == d.removed && e.removed == d.added && e.unchangedCount == d.unchangedCount &&
            e.changed == map k | k in d.changed :: (d.changed[k].1, d.changed[k].0)
  {
    ChangedSymmetric(num, base, other);
  }

  /** Applying a difference to a payload. */
  ghost function Patched(payload: Object, d: Diff): Object {
    (payload - d.removed.Keys) + d.added + (map k | k in d.changed :: d.changed[k].1)
  }

  /** With nothing masked, applying the difference to the base gives the other version, value for value up to `==`. */
  lemma DiffPatches(num: Floats, base: Side, other: Side)
    requires base.sensitive == {} && other.sensitive == {}
    ensures var p := Patched(base.payload, DiffOf(num, base, other));
            p.Keys == other.payload.Keys && forall k :: k in p ==> Same(num, p[k], other.payload[k])
  {
    hide Same;
    var p := Patched(base.payload, DiffOf(num, base, other));
    forall k | k in p ensures k in other.payload && Same(num, p[k], other.payload[k]) { SameReflexive(num, p[k]); }
  }

  /** It gives the very same payload if and only if every value counted as unchanged is identical, not merely equal. */
  lemma DiffPatchesExactly(num: Floats, base: Side, other: Side)
    requires base.sensitive == {} && other.sensitive == {}
    ensures Patched(base.payload, DiffOf(num, base, other)) == other.payload <==>
            forall k :: k in UnchangedKeys(num, base, other) ==> base.payload[k] == other.payload[k]
  {
    hide Same;
    var p := Patched(base.payload, DiffOf(num, base, other));
    forall k | k in UnchangedKeys(num, base, other) ensures k in p && p[k] == base.payload[k] {}
    DiffPatches(num, base, other);
    forall k | k in other.payload && k !in UnchangedKeys(num, base, other) ensures p[k] == other.payload[k] {}
  }

  /** The two can differ: a flag rewritten as the number one is no change to the comparison, so the patch keeps the number. */
  lemma OneIsTrue(num: Floats) returns (base: Side, other: Side)
    ensures base.sensitive == {} && other.sensitive == {}
    ensures DiffOf(num, base, other) == Diff(map[], map[], map[], 1)
    ensures Patched(base.payload, DiffOf(num, base, other)) != other.payload
  {
    var flag := Py("flag");
    base, other := Side(map[flag := JInt(1)], {}), Side(map[flag := JBool(true)], {});
    assert UnchangedKeys(num, base, other) == {flag};
    assert ChangedKeys(num, base, other) == {};
    assert base.payload[flag] != other.payload[flag];
    DiffPatchesExactly(num, base, other);
    assert DiffOf(num, base, other) == Diff(map[], map[], map[], 1);
  }

  /** What is shown: the other side's value, or the mask where that side calls the key sensitive. */
  ghost predicate Shows(shown: Json, side: Side, k: Str)
    requires k in side.payload
  {
    shown == if k in side.sensitive then MASK else side.payload[k]
  }

  /** Added, removed and changed keys are exactly those of one side, of the other, and those with unequal values. */
  lemma DiffShows(num: Floats, base: Side, other: Side, k: Str)
    ensures var d := DiffOf(num, base, other);
            (k in d.added <==> k in other.payload && k !in base.payload) && (k in d.added ==> Shows(d.added[k], other, k)) &&
            (k in d.removed <==> k in base.payload && k !in other.payload) && (k in d.removed ==> Shows(d.removed[k], base, k)) &&
            (k in d.changed <==> k in base.payload && k in other.payload && !Same(num, base.payload[k], other.payload[k])) &&
            (k in d.changed ==> Shows(d.changed[k].0, base, k) && Shows(d.changed[k].1, other, k))
  {
    hide Same;
  }

  /** The two pairs differ only in the values of masked keys, and agree on which common keys hold equal values. */
  ghost predicate SameButSecrets(num: Floats, base: Side, other: Side, base': Side, other': Side) {
    base'.sensitive == base.sensitive && other'.sensitive == other.sensitive &&
    base'.payload.Keys == base.payload.Keys && other'.payload.Keys == other.payload.Keys &&
    (forall k :: k in base.payload && k !in base.sensitive ==> base'.payload[k] == base.payload[k]) &&
    (forall k :: k in other.payload && k !in other.sensitive ==> other'.payload[k] == other.payload[k]) &&
    forall k :: k in Common(base, other) ==>
      (Same(num, base'.payload[k], other'.payload[k]) <==> Same(num, base.payload[k], other.payload[k]))
  }

  /** A difference reveals of masked values only whether they are equal. */
  lemma DiffHidesSecrets(num: Floats, base: Side, other: Side, base': Side, other': Side)
    requires SameButSecrets(num, base, other, base', other')
    ensures DiffOf(num, base', other') == DiffOf(num, base, other)
  {
    assert Masked(base'.payload, base.sensitive) == Masked(base.payload, base.sensitive);
    assert Masked(other'.payload, other.sensitive) == Masked(other.payload, other.sensitive);
    assert ChangedKeys(num, base', other') == ChangedKeys(num, base, other);
    assert UnchangedKeys(num, base', other') == UnchangedKeys(num, base, other);
  }

  /** Two versions with the same checksum show no difference, provided the digest does not collide on their texts. */
  lemma EqualChecksumsNoDiff(digest: string -> Audit.Digest, num: Floats, base: Side, other: Side)
    requires WellFormed(JObj(base.payload)) && WellFormed(JObj(other.payload))
    requires ConfigDocs.Checksum(digest, base.payload) == ConfigDocs.Checksum(digest, other.payload)
    requires CollisionFreeOn(digest, {Print(JObj(base.payload)), Print(JObj(other.payload))})
    ensures DiffOf(num, base, other) == Diff(map[], map[], map[], |base.payload|)
  {
    hide Print;
    hide Same;
    Canonical.PrintInjective(JObj(base.payload), JObj(other.payload), "", "");
    assert base.payload == other.payload;
    forall k | k in base.payload ensures Same(num, base.payload[k], other.payload[k]) { SameReflexive(num, base.payload[k]); }
    assert ChangedKeys(num, base, other) == {};
    assert UnchangedKeys(num, base, other) == base.payload.Keys;
    assert |base.payload.Keys| == |base.payload|;
  }
}
