/** The canonical hash payload of an audit entry, and the proof that it commits to every hashed field. */
module Payload {
  import opened Prelude
  import opened PyText
  import opened Json
  import opened Clock
  import opened Audit
  import opened JsonParse
  import opened Metadata
  import Canonical

  /** The keys of the hash payload. */
  datatype Field =
    | PrevHash | OccurredAt | SeverityField | EventTypeField | EventSubtype
    | Actor | Description | TenantSlug | SourceIp | MetadataJson

  const FIELDS := {
    PrevHash, OccurredAt, SeverityField, EventTypeField, EventSubtype,
    Actor, Description, TenantSlug, SourceIp, MetadataJson
  }

  function Name(f: Field): string {
    match f
    case PrevHash => "prev_hash"
    case OccurredAt => "occurred_at"
    case SeverityField => "severity"
    case EventTypeField => "event_type"
    case EventSubtype => "event_subtype"
    case Actor => "actor"
    case Description => "description"
    case TenantSlug => "tenant_slug"
    case SourceIp => "source_ip"
    case MetadataJson => "metadata_json"
  }

  lemma NamesDistinct()
    ensures forall f, g :: Py(Name(f)) == Py(Name(g)) ==> f == g
  {
    forall f, g | Py(Name(f)) == Py(Name(g)) ensures f == g {
      PyInjective(Name(f), Name(g));
    }
  }

  function OptStr(s: Option<Str>): Json {
    match s case None => JNull case Some(t) => JStr(t)
  }

  function Value(prev: Option<Str>, e: Content, f: Field): Json {
    match f
    case PrevHash => OptStr(prev)
    case OccurredAt => JStr(Py(IsoFormat(e.occurredAt)))
    case SeverityField => JStr(Py(SeverityValue(e.severity)))
    case EventTypeField => JStr(Py(EventTypeValue(e.eventType)))
    case EventSubtype => JStr(e.eventSubtype)
    case Actor => JStr(e.actor)
    case Description => JStr(e.description)
    case TenantSlug => OptStr(e.tenantSlug)
    case SourceIp => OptStr(e.sourceIp)
    case MetadataJson => JObj(e.metadata)
  }

  function PayloadObject(prev: Option<Str>, e: Content): Object {
    NamesDistinct();
    Keyed(FIELDS, f => Py(Name(f)), f => Value(prev, e, f))
  }

  lemma PayloadLookup(prev: Option<Str>, e: Content, f: Field)
    ensures Py(Name(f)) in PayloadObject(prev, e) && PayloadObject(prev, e)[Py(Name(f))] == Value(prev, e, f)
  {
    hide Name;
    hide Value;
    assert f in FIELDS;
    NamesDistinct();
    KeyedAt(FIELDS, f => Py(Name(f)), f => Value(prev, e, f), f);
  }

  lemma PayloadKey(prev: Option<Str>, e: Content, k: Str) returns (f: Field)
    requires k in PayloadObject(prev, e)
    ensures k == Py(Name(f))
  {
    hide Name;
    hide Value;
    NamesDistinct();
    f := KeyedKey(FIELDS, f => Py(Name(f)), f => Value(prev, e, f), k);
  }

  /** `_canonical_payload`: the bytes that are hashed. */
  function PayloadText(prev: Option<Str>, e: Content): string {
    Print(JObj(PayloadObject(prev, e)))
  }

  /** `compute_entry_hash` over a digest function. */
  function Sha256(digest: string -> Digest): (Option<Str>, Content) -> Digest {
    (prev, e) => digest(PayloadText(prev, e))
  }

  ghost predicate WellFormedOpt(s: Option<Str>) {
    s.Some? ==> WellFormedText(s.value)
  }

  /** Text columns and JSON hold Unicode scalar values. */
  ghost predicate WellFormedContent(e: Content) {
    WellFormedText(e.eventSubtype) && WellFormedText(e.actor) && WellFormedText(e.description) &&
    WellFormedOpt(e.tenantSlug) && WellFormedOpt(e.sourceIp) && WellFormed(JObj(e.metadata))
  }

  lemma PyWellFormed(s: string)
    ensures WellFormedText(Py(s))
  {}

  lemma PayloadWellFormed(prev: Option<Str>, e: Content)
    requires WellFormedOpt(prev) && WellFormedContent(e)
    ensures WellFormed(JObj(PayloadObject(prev, e)))
  {
    hide Name;
    hide Value;
    hide PayloadObject;
    var o := PayloadObject(prev, e);
    forall k | k in o ensures WellFormedText(k) && WellFormed(o[k]) {
      var f := PayloadKey(prev, e, k);
      PayloadLookup(prev, e, f);
      PyWellFormed(Name(f));
      ValueWellFormed(prev, e, f);
    }
  }

  lemma ValueWellFormed(prev: Option<Str>, e: Content, f: Field)
    requires WellFormedOpt(prev) && WellFormedContent(e)
    ensures WellFormed(Value(prev, e, f))
  {
    hide IsoFormat;
    hide SeverityValue;
    hide EventTypeValue;
    PyWellFormed(IsoFormat(e.occurredAt));
    PyWellFormed(SeverityValue(e.severity));
    PyWellFormed(EventTypeValue(e.eventType));
  }

  lemma ValuesInjective(p: Option<Str>, d: Content, q: Option<Str>, e: Content)
    requires forall f :: f in FIELDS ==> Value(p, d, f) == Value(q, e, f)
    ensures p == q && d == e
  {
    hide IsoFormat;
    hide SeverityValue;
    hide EventTypeValue;
    assert Value(p, d, PrevHash) == Value(q, e, PrevHash) && Value(p, d, TenantSlug) == Value(q, e, TenantSlug);
    assert Value(p, d, SourceIp) == Value(q, e, SourceIp) && Value(p, d, EventSubtype) == Value(q, e, EventSubtype);
    assert Value(p, d, Actor) == Value(q, e, Actor) && Value(p, d, Description) == Value(q, e, Description);
    assert Value(p, d, MetadataJson) == Value(q, e, MetadataJson);
    assert Value(p, d, OccurredAt) == Value(q, e, OccurredAt);
    PyInjective(IsoFormat(d.occurredAt), IsoFormat(e.occurredAt));
    IsoFormatInjective(d.occurredAt, e.occurredAt);
    assert Value(p, d, SeverityField) == Value(q, e, SeverityField);
    assert Value(p, d, EventTypeField) == Value(q, e, EventTypeField);
    PyInjective(SeverityValue(d.severity), SeverityValue(e.severity));
    PyInjective(EventTypeValue(d.eventType), EventTypeValue(e.eventType));
    EnumsInjective(d.severity, e.severity, d.eventType, e.eventType);
  }

  lemma EnumsInjective(s: Severity, t: Severity, a: EventType, b: EventType)
    ensures SeverityValue(s) == SeverityValue(t) ==> s == t
    ensures EventTypeValue(a) == EventTypeValue(b) ==> a == b
  {}

  /** Equal payload bytes mean equal previous hash and equal hashed fields, all of them. */
  lemma PayloadInjective(p: Option<Str>, d: Content, q: Option<Str>, e: Content)
    requires WellFormedOpt(p) && WellFormedContent(d) && WellFormedOpt(q) && WellFormedContent(e)
    ensures PayloadText(p, d) == PayloadText(q, e) <==> p == q && d == e
  {
    hide Name;
    hide Value;
    hide PayloadObject;
    if PayloadText(p, d) == PayloadText(q, e) {
      var m, n := PayloadObject(p, d), PayloadObject(q, e);
      PayloadWellFormed(p, d);
      PayloadWellFormed(q, e);
      ObjectsEqual(m, n);
      forall f | f in FIELDS ensures Value(p, d, f) == Value(q, e, f) {
        PayloadLookup(p, d, f);
        PayloadLookup(q, e, f);
      }
      ValuesInjective(p, d, q, e);
    }
  }

  lemma ObjectsEqual(m: Object, n: Object)
    requires WellFormed(JObj(m)) && WellFormed(JObj(n)) && Print(JObj(m)) == Print(JObj(n))
    ensures m == n
  {
    Canonical.PrintInjective(JObj(m), JObj(n), "", "");
  }
}
