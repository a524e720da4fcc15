/** Building dictionaries from a set of known keys, and looking values up in them. */
module Metadata {
  import opened Prelude
  import opened PyText
  import opened Json

  /** The dictionary `{key(f): val(f) for f in s}`. */
  function Keyed<F(!new)>(s: set<F>, key: F -> Str, val: F -> Json): Object
    requires forall f, g :: key(f) == key(g) ==> f == g
  {
    map f | f in s :: key(f) := val(f)
  }

  lemma KeyedAt<F(!new)>(s: set<F>, key: F -> Str, val: F -> Json, f: F)
    requires forall f, g :: key(f) == key(g) ==> f == g
    ensures key(f) in Keyed(s, key, val) <==> f in s
    ensures f in s ==> Keyed(s, key, val)[key(f)] == val(f)
  {}

  lemma KeyedKey<F(!new)>(s: set<F>, key: F -> Str, val: F -> Json, k: Str) returns (f: F)
    requires forall f, g :: key(f) == key(g) ==> f == g
    requires k in Keyed(s, key, val)
    ensures f in s && k == key(f)
  {
    f :| f in s && k == key(f);
  }

  function Get(o: Object, key: Str): Option<Json> {
    if key in o then Some(o[key]) else None
  }
}
