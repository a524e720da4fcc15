/** Recursive redaction of sensitive metadata, on the audit side and on the response side. */
module Sanitize {
  import opened Prelude
  import opened PyText
  import opened Json
  import opened Metadata
  import JsonParse

  const REDACTED: Json := JStr(Py("[REDACTED]"))

  const SENSITIVE_METADATA_KEYS: set<string> := {
    "access_token", "api_key", "apikey", "authorization", "credential", "credentials",
    "password", "private_key", "refresh_token", "secret", "secret_key", "token"
  }

  /**
   `str.lower` as far as membership in an all-ASCII set can tell: besides the ASCII capitals, U+212A (Kelvin sign)
   is the one code point whose lower case is a single ASCII letter.
   */
  function LowerCode(c: CodePoint): CodePoint {
    if 'A' as int <= c <= 'Z' as int then c + 0x20 else if c == 0x212A then 'k' as int else c
  }

  function Lower(s: Str): Str {
    seq(|s|, i requires 0 <= i < |s| => LowerCode(s[i]))
  }

  predicate Sensitive(key: Str) {
    exists k :: k in SENSITIVE_METADATA_KEYS && Py(k) == Lower(key)
  }

  /** `sanitize_metadata`. */
  function Sanitized(v: Json): Json {
    match v
    case JObj(fields) => JObj(map k | k in fields :: if Sensitive(k) then REDACTED else Sanitized(fields[k]))
    case JArr(items) => JArr(seq(|items|, i requires 0 <= i < |items| => Sanitized(items[i])))
    case _ => v
  }

  /** `redact_sensitive_metadata`, written apart from the audit sanitizer as in the response schema. */
  function Redacted(v: Json): Json {
    if v.JObj? then
      JObj(map k | k in v.fields :: if SensitiveInResponse(k) then JStr(Py("[REDACTED]")) else Redacted(v.fields[k]))
    else if v.JArr? then JArr(seq(|v.items|, i requires 0 <= i < |v.items| => Redacted(v.items[i])))
    else v
  }

  const RESPONSE_SENSITIVE_KEYS: seq<string> := [
    "access_token", "api_key", "apikey", "authorization", "credential", "credentials",
    "password", "private_key", "refresh_token", "secret", "secret_key", "token"
  ]

  predicate SensitiveInResponse(key: Str) {
    exists i :: 0 <= i < |RESPONSE_SENSITIVE_KEYS| && Py(RESPONSE_SENSITIVE_KEYS[i]) == Lower(key)
  }

  // ---------------------------------------------------------------- what sanitization means

  /** The trees differ at most beneath sensitive keys. */
  ghost predicate SameOutsideSecrets(v: Json, w: Json) {
    match (v, w)
    case (JObj(f), JObj(g)) =>
      f.Keys == g.Keys && forall k :: k in f && !Sensitive(k) ==> SameOutsideSecrets(f[k], g[k])
    case (JArr(a), JArr(b)) => |a| == |b| && forall i :: 0 <= i < |a| ==> SameOutsideSecrets(a[i], b[i])
    case _ => v == w
  }

  /** Sanitization forgets exactly what lies beneath sensitive keys, and nothing else. */
  lemma {:induction false} SanitizeKernel(v: Json, w: Json)
    ensures Sanitized(v) == Sanitized(w) <==> SameOutsideSecrets(v, w)
    decreases v, 1
  {
    match (v, w)
    case (JObj(f), JObj(g)) => ObjectKernel(v, w);
    case (JArr(a), JArr(b)) => ArrayKernel(v, w);
    case _ =>
  }

  lemma {:induction false} ObjectKernel(v: Json, w: Json)
    requires v.JObj? && w.JObj?
    ensures Sanitized(v) == Sanitized(w) <==> SameOutsideSecrets(v, w)
    decreases v, 0
  {
    hide Sensitive;
    var f, g := v.fields, w.fields;
    var sf, sg := Sanitized(v).fields, Sanitized(w).fields;
    assert sf.Keys == f.Keys && sg.Keys == g.Keys;
    forall k | k in f && k in g ensures Sanitized(f[k]) == Sanitized(g[k]) <==> SameOutsideSecrets(f[k], g[k]) {
      SanitizeKernel(f[k], g[k]);
    }
    if SameOutsideSecrets(v, w) {
      assert sf == sg;
    }
    if sf == sg {
      forall k | k in f && !Sensitive(k) ensures SameOutsideSecrets(f[k], g[k]) {
        assert sf[k] == sg[k];
      }
    }
  }

  lemma {:induction false} ArrayKernel(v: Json, w: Json)
    requires v.JArr? && w.JArr?
    ensures Sanitized(v) == Sanitized(w) <==> SameOutsideSecrets(v, w)
    decreases v, 0
  {
    var a, b := v.items, w.items;
    var sa, sb := Sanitized(v).items, Sanitized(w).items;
    forall i | 0 <= i < |a| && i < |b| ensures Sanitized(a[i]) == Sanitized(b[i]) <==> SameOutsideSecrets(a[i], b[i]) {
      SanitizeKernel(a[i], b[i]);
    }
    if sa == sb {
      forall i | 0 <= i < |a| ensures SameOutsideSecrets(a[i], b[i]) {
        assert sa[i] == sb[i];
      }
    }
  }

  /** Every sensitive key, at any depth, holds the redaction marker. */
  ghost predicate Clean(v: Json) {
    match v
    case JObj(fields) => forall k :: k in fields ==> if Sensitive(k) then fields[k] == REDACTED else Clean(fields[k])
    case JArr(items) => forall i :: 0 <= i < |items| ==> Clean(items[i])
    case _ => true
  }

  lemma {:induction false} SanitizedIsClean(v: Json)
    ensures Clean(Sanitized(v))
  {
    match v {
      case JObj(fields) => forall k | k in fields { SanitizedIsClean(fields[k]); }
      case JArr(items) => forall i | 0 <= i < |items| { SanitizedIsClean(items[i]); }
      case _ =>
    }
  }

  /** A tree is left alone exactly when it has nothing to hide. */
  lemma {:induction false} CleanIsFixed(v: Json)
    ensures Sanitized(v) == v <==> Clean(v)
  {
    match v {
      case JObj(fields) =>
        var s := Sanitized(v).fields;
        forall k | k in fields ensures Sanitized(fields[k]) == fields[k] <==> Clean(fields[k]) { CleanIsFixed(fields[k]); }
        if Clean(v) { assert s == fields; }
        if s == fields { assert forall k :: k in fields ==> s[k] == fields[k]; }
      case JArr(items) =>
        var s := Sanitized(v).items;
        forall i | 0 <= i < |items| ensures Sanitized(items[i]) == items[i] <==> Clean(items[i]) { CleanIsFixed(items[i]); }
        if Clean(v) { assert s == items; }
        if s == items { assert forall i :: 0 <= i < |items| ==> s[i] == items[i]; }
      case _ =>
    }
  }

  /** Sanitizing is idempotent, keeps everything outside the secrets and leaves only marked secrets. */
  lemma SanitizeLaws(v: Json)
    ensures Sanitized(Sanitized(v)) == Sanitized(v)
    ensures SameOutsideSecrets(v, Sanitized(v))
  {
    SanitizedIsClean(v);
    CleanIsFixed(Sanitized(v));
    SanitizeKernel(v, Sanitized(v));
  }

  datatype Step = InField(k: Str) | InItem(i: nat)

  /** The subtree a path of keys and indices leads to. */
  ghost function At(v: Json, path: seq<Step>): Option<Json>
    decreases |path|
  {
    if path == [] then Some(v)
    else match path[0]
      case InField(k) => if v.JObj? && k in v.fields then At(v.fields[k], path[1..]) else None
      case InItem(i) => if v.JArr? && i < |v.items| then At(v.items[i], path[1..]) else None
  }

  /** Wherever a path through a sanitized tree ends in a sensitive key, it ends at the marker. */
  lemma {:induction false} NoSecretOnAnyPath(v: Json, path: seq<Step>, key: Str)
    requires Clean(v) && Sensitive(key)
    ensures var x := At(v, path + [InField(key)]); x.None? || x.value == REDACTED
    decreases |path|
  {
    var full := path + [InField(key)];
    if path == [] {
      if v.JObj? && key in v.fields {
        assert At(v, full) == At(v.fields[key], full[1..]);
      }
    } else {
      assert full[1..] == path[1..] + [InField(key)] && full[0] == path[0];
      match path[0]
      case InField(k) =>
        if v.JObj? && k in v.fields {
          if !Sensitive(k) {
            NoSecretOnAnyPath(v.fields[k], path[1..], key);
          } else {
            assert At(REDACTED, full[1..]).None?;
          }
        }
      case InItem(i) =>
        if v.JArr? && i < |v.items| {
          NoSecretOnAnyPath(v.items[i], path[1..], key);
        }
    }
  }

  lemma SensitiveAgrees(key: Str)
    ensures Sensitive(key) <==> SensitiveInResponse(key)
  {
    var ks := RESPONSE_SENSITIVE_KEYS;
    if Sensitive(key) {
      var k :| k in SENSITIVE_METADATA_KEYS && Py(k) == Lower(key);
      assert k == ks[0] || k == ks[1] || k == ks[2] || k == ks[3] || k == ks[4] || k == ks[5] || k == ks[6]
          || k == ks[7] || k == ks[8] || k == ks[9] || k == ks[10] || k == ks[11];
    }
    if SensitiveInResponse(key) {
      var i :| 0 <= i < |ks| && Py(ks[i]) == Lower(key);
      assert ks[i] in SENSITIVE_METADATA_KEYS;
    }
  }

  /** The response redactor and the audit sanitizer agree on every tree. */
  lemma {:induction false} RedactorAgrees(v: Json)
    ensures Redacted(v) == Sanitized(v)
  {
    match v {
      case JObj(fields) =>
        var r, s := Redacted(v).fields, Sanitized(v).fields;
        assert r.Keys == fields.Keys && s.Keys == fields.Keys;
        forall k | k in fields ensures r[k] == s[k] {
          RedactorAgrees(fields[k]);
          SensitiveAgrees(k);
        }
        assert r == s;
      case JArr(items) =>
        forall i | 0 <= i < |items| ensures Redacted(items[i]) == Sanitized(items[i]) { RedactorAgrees(items[i]); }
        assert Redacted(v).items == Sanitized(v).items;
      case _ =>
    }
  }

  lemma {:induction false} SanitizedWellFormed(v: Json)
    requires JsonParse.WellFormed(v)
    ensures JsonParse.WellFormed(Sanitized(v))
  {
    match v {
      case JObj(fields) => forall k | k in fields { SanitizedWellFormed(fields[k]); }
      case JArr(items) => forall i | 0 <= i < |items| { SanitizedWellFormed(items[i]); }
      case _ =>
    }
  }

  // ---------------------------------------------------------------- keys that sanitization leaves alone

  lemma LowerFixed(s: string)
    requires forall i :: 0 <= i < |s| ==> 'a' <= s[i] <= 'z' || s[i] == '_'
    ensures Lower(Py(s)) == Py(s)
  {}

  lemma PlainName(s: string)
    requires forall i :: 0 <= i < |s| ==> 'a' <= s[i] <= 'z' || s[i] == '_'
    requires s !in SENSITIVE_METADATA_KEYS
    ensures !Sensitive(Py(s))
  {
    LowerFixed(s);
    if Sensitive(Py(s)) {
      var k :| k in SENSITIVE_METADATA_KEYS && Py(k) == Lower(Py(s));
      PyInjective(k, s);
    }
  }

  lemma SanitizedGet(o: Object, k: Str)
    requires !Sensitive(k)
    ensures Get(Sanitized(JObj(o)).fields, k) == if k in o then Some(Sanitized(o[k])) else None
  {
    hide Sensitive;
  }
}
