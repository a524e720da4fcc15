/** Hash-chained audit log: entries, the canonical hash payload, appending, and the verification walk. */
module Audit {
  import opened Prelude
  import opened PyText
  import opened Json
  import opened Clock
  import opened Sanitize

  // ---------------------------------------------------------------- cryptography, left abstract

  predicate IsHexCode(c: int) {
    '0' as int <= c <= '9' as int || 'a' as int <= c <= 'f' as int
  }

  /** `hexdigest()` of a SHA-256 digest. */
  type Digest = s: Str | |s| == 64 && forall i :: 0 <= i < |s| ==> IsHexCode(s[i]) witness seq(64, _ => '0' as int)

  /**
   Hashing an entry's canonical payload (Payload.Sha256 builds this from a digest function), and signing and
   checking a digest with the installation's key.
   */
  datatype Crypto = Crypto(
    hash: (Option<Str>, Content) -> Digest, sign: Str -> Str, verify: (Str, Str) -> bool, keyId: Str)

  /** What ECDSA promises: a signature made with the key verifies under it. */
  ghost predicate SignsOwn(c: Crypto) {
    forall h: Digest :: c.verify(h, c.sign(h))
  }

  // ---------------------------------------------------------------- entries

  datatype Severity = Critical | Warning | Info

  datatype EventType =
    | StateChange | AuthEvent | ConfigChange | PolicyEval | TenantLifecycle | KeyOperation | AnomalyDetected

  function SeverityValue(s: Severity): string {
    match s case Critical => "critical" case Warning => "warning" case Info => "info"
  }

  function EventTypeValue(e: EventType): string {
    match e
    case StateChange => "state_change"
    case AuthEvent => "auth_event"
    case ConfigChange => "config_change"
    case PolicyEval => "policy_eval"
    case TenantLifecycle => "tenant_lifecycle"
    case KeyOperation => "key_operation"
    case AnomalyDetected => "anomaly_detected"
  }

  /** The fields an entry's hash commits to, besides the previous hash. */
  datatype Content = Content(
    occurredAt: Instant, severity: Severity, eventType: EventType, eventSubtype: Str, actor: Str,
    description: Str, tenantSlug: Option<Str>, sourceIp: Option<Str>, metadata: Object)

  datatype Entry = Entry(
    id: Str, sequence: nat, content: Content, tenantId: Option<Str>,
    prevHash: Option<Str>, entryHash: Str, signingKeyId: Str, signature: Str)

  /** A request to append: `AuditLogEntryCreate`. */
  datatype Draft = Draft(
    severity: Severity, eventType: EventType, eventSubtype: Str, actor: Str, description: Str,
    tenantId: Option<Str>, tenantSlug: Option<Str>, sourceIp: Option<Str>, metadata: Object)

  // ---------------------------------------------------------------- appending

  /** The table and its identity counter; the counter is not rolled back. */
  datatype Log = Log(rows: seq<Entry>, nextSequence: nat)

  /** `_get_tail`: the row with the greatest sequence number. */
  function Tail(rows: seq<Entry>): Option<Entry> {
    if rows == [] then None
    else
      var t := Tail(rows[1..]);
      if t.None? || t.value.sequence < rows[0].sequence then Some(rows[0]) else t
  }

  function ContentOf(d: Draft, now: Instant): Content {
    Content(now, d.severity, d.eventType, d.eventSubtype, d.actor, d.description, d.tenantSlug, d.sourceIp,
            Sanitized(JObj(d.metadata)).fields)
  }

  /** The entry as it would be logged, but for its time. */
  function Logged(d: Draft): Content {
    ContentOf(d, RawInstant(1970, 1, 1, 0, 0, 0, 0))
  }

  /** What reaches a service: a command, or an entry of a client's own, which `POST /audit-log/entries` appends as it is. */
  datatype Input<+C> = Serve(command: C) | Post(d: Draft, s: Stamp)

  /** What the environment supplies to an append: the clock and a fresh identifier. */
  datatype Stamp = Stamp(now: Instant, id: Str)

  function NewEntry(c: Crypto, log: Log, d: Draft, s: Stamp): Entry {
    var tail := Tail(log.rows);
    var prev := if tail.Some? then Some(tail.value.entryHash) else None;
    var content := ContentOf(d, s.now);
    var hash := c.hash(prev, content);
    Entry(s.id, log.nextSequence, content, d.tenantId, prev, hash, c.keyId, c.sign(hash))
  }

  /** The primary key on `id` and the unique constraint on `entry_hash`. */
  predicate Admissible(rows: seq<Entry>, e: Entry) {
    forall i :: 0 <= i < |rows| ==> rows[i].id != e.id && rows[i].entryHash != e.entryHash
  }

  datatype Attempt = Attempt(log: Log, ok: bool)

  /** `append_entry_in_transaction`; a refused insert still consumes a sequence number. */
  function Append(c: Crypto, log: Log, d: Draft, s: Stamp): Attempt {
    var e := NewEntry(c, log, d, s);
    if Admissible(log.rows, e) then Attempt(Log(log.rows + [e], log.nextSequence + 1), true)
    else Attempt(log.(nextSequence := log.nextSequence + 1), false)
  }

  function Repeated(code: int): Digest
    requires IsHexCode(code)
  {
    seq(64, _ => code)
  }

  /** The smallest crypto under which a log of two entries is accepted, for the concrete runs. */
  function ToyCrypto(): Crypto {
    var first, second := Repeated('0' as int), Repeated('1' as int);
    Crypto((prev: Option<Str>, e: Content) => if prev.None? then first else second, h => h, (h, signature) => true, [])
  }

  lemma TwoAppends(d: Draft, s: Stamp, d': Draft, s': Stamp)
    requires s.id != s'.id
    ensures SignsOwn(ToyCrypto())
    ensures var a := Append(ToyCrypto(), Log([], 1), d, s); a.ok && Append(ToyCrypto(), a.log, d', s').ok
  {
    var c := ToyCrypto();
    var e := NewEntry(c, Log([], 1), d, s);
    assert Append(c, Log([], 1), d, s).log.rows == [e];
    assert Tail([e]) == Some(e);
    var e' := NewEntry(c, Append(c, Log([], 1), d, s).log, d', s');
    assert e.entryHash[0] != e'.entryHash[0];
  }

  // ---------------------------------------------------------------- the verification walk

  /** The previous hash the walk expects at position `i`: the stored hash of the entry before. */
  function ExpectedPrev(rows: seq<Entry>, i: nat): Option<Str>
    requires i < |rows|
  {
    if i == 0 then None else Some(rows[i-1].entryHash)
  }

  /** Hash, linkage and signature of one entry against the hash expected before it. */
  predicate Checks(c: Crypto, prev: Option<Str>, e: Entry) {
    c.hash(prev, e.content) == e.entryHash && e.prevHash == prev && c.verify(e.entryHash, e.signature)
  }

  predicate EntryOk(c: Crypto, rows: seq<Entry>, i: nat)
    requires i < |rows|
  {
    Checks(c, ExpectedPrev(rows, i), rows[i])
  }

  datatype Report = Report(verified: nat, failed: nat, isValid: bool, firstBreak: Option<nat>, rootHash: Option<Str>)

  ghost function FailuresBefore(c: Crypto, rows: seq<Entry>, n: nat): set<nat>
    requires n <= |rows|
  {
    set i: nat | i < n && !EntryOk(c, rows, i)
  }

  ghost function Failures(c: Crypto, rows: seq<Entry>): set<nat> {
    FailuresBefore(c, rows, |rows|)
  }

  lemma FailuresStep(c: Crypto, rows: seq<Entry>, n: nat)
    requires n < |rows|
    ensures FailuresBefore(c, rows, n + 1) == FailuresBefore(c, rows, n) + (if EntryOk(c, rows, n) then {} else {n})
    ensures |FailuresBefore(c, rows, n + 1)| == |FailuresBefore(c, rows, n)| + (if EntryOk(c, rows, n) then 0 else 1)
    ensures forall j :: j in FailuresBefore(c, rows, n) ==> j < n
  {
    assert FailuresBefore(c, rows, n + 1) == FailuresBefore(c, rows, n) + (if EntryOk(c, rows, n) then {} else {n});
  }

  ghost predicate IsFirst(i: nat, s: set<nat>) {
    i in s && forall j :: j in s ==> i <= j
  }

  function RootHash(rows: seq<Entry>): Option<Str> {
    if rows == [] then None else Some(rows[|rows|-1].entryHash)
  }

  ghost predicate BreaksAt(rows: seq<Entry>, failures: set<nat>, at: Option<nat>) {
    if failures == {} then at.None?
    else exists i: nat :: IsFirst(i, failures) && i < |rows| && at == Some(rows[i].sequence)
  }

  lemma NothingBroken(c: Crypto, rows: seq<Entry>)
    ensures FailuresBefore(c, rows, 0) == {} && BreaksAt(rows, {}, None)
  {}

  lemma BreaksAtStep(rows: seq<Entry>, failures: set<nat>, at: Option<nat>, k: nat)
    requires k < |rows| && BreaksAt(rows, failures, at) && forall j :: j in failures ==> j < k
    ensures BreaksAt(rows, failures + {k}, if at.None? then Some(rows[k].sequence) else at)
  {
    if failures == {} {
      assert IsFirst(k, failures + {k});
    } else {
      var i: nat :| IsFirst(i, failures) && i < |rows| && at == Some(rows[i].sequence);
      assert IsFirst(i, failures + {k});
    }
  }

  /** What a verification report says of a log: the counts, the first failing row and the root. */
  ghost predicate Describes(c: Crypto, rows: seq<Entry>, r: Report) {
    r.failed == |Failures(c, rows)| && r.verified + r.failed == |rows| &&
    (r.isValid <==> Failures(c, rows) == {}) &&
    BreaksAt(rows, Failures(c, rows), r.firstBreak) &&
    r.rootHash == RootHash(rows)
  }

  /** The recomputed hash is the stored one, the link is the stored hash before, and the signature verifies. */
  ghost predicate RowHolds(c: Crypto, rows: seq<Entry>, i: nat)
    requires i < |rows|
  {
    var prev := if i == 0 then None else Some(rows[i-1].entryHash);
    rows[i].entryHash == c.hash(prev, rows[i].content) && rows[i].prevHash == prev && c.verify(rows[i].entryHash, rows[i].signature)
  }

  /** The rows of which one of the three does not hold. */
  ghost function Unsound(c: Crypto, rows: seq<Entry>): set<nat> {
    set i: nat | i < |rows| && !RowHolds(c, rows, i)
  }

  lemma FailuresAreUnsound(c: Crypto, rows: seq<Entry>)
    ensures Failures(c, rows) == Unsound(c, rows)
    ensures Unsound(c, rows) == {} <==> forall i: nat :: i < |rows| ==> RowHolds(c, rows, i)
  {
    forall i: nat | i < |rows| ensures i in Failures(c, rows) <==> i in Unsound(c, rows) {
      assert EntryOk(c, rows, i) <==> RowHolds(c, rows, i);
    }
    if Unsound(c, rows) == {} {
      forall i: nat | i < |rows| ensures RowHolds(c, rows, i) { assert i !in Unsound(c, rows); }
    }
  }

  /** `verify_chain` over the rows in sequence order. */
  method VerifyChain(c: Crypto, rows: seq<Entry>) returns (r: Report)
    ensures Describes(c, rows, r)
    ensures r.isValid <==> forall i: nat :: i < |rows| ==> RowHolds(c, rows, i)
    ensures r.failed == |Unsound(c, rows)| && BreaksAt(rows, Unsound(c, rows), r.firstBreak)
  {
    FailuresAreUnsound(c, rows);
    hide RowHolds;
    hide Unsound;
    hide IsFirst;
    hide BreaksAt;
    hide Checks;
    hide FailuresBefore;
    assert FailuresBefore(c, rows, 0) == {} && BreaksAt(rows, {}, None) by { NothingBroken(c, rows); }
    var verified: nat, failed: nat := 0, 0;
    var firstBreak: Option<nat> := None;
    var expectedPrev: Option<Str> := None;
    ghost var broken: set<nat> := {};
    for k := 0 to |rows|
      invariant expectedPrev == if k == 0 then None else Some(rows[k-1].entryHash)
      invariant broken == FailuresBefore(c, rows, k)
      invariant failed == |broken| && verified + failed == k
      invariant BreaksAt(rows, broken, firstBreak)
    {
      var e := rows[k];
      FailuresStep(c, rows, k);
      if Checks(c, expectedPrev, e) {
        verified := verified + 1;
      } else {
        BreaksAtStep(rows, broken, firstBreak, k);
        failed := failed + 1;
        if firstBreak.None? {
          firstBreak := Some(e.sequence);
        }
        broken := broken + {k};
      }
      expectedPrev := Some(e.entryHash);
    }
    r := Report(verified, failed, failed == 0, firstBreak, expectedPrev);
  }

  /** The audit table as the services mutate it: appended to in place, rolled back to a snapshot. */
  class AuditTable {
    var rows: seq<Entry>
    var nextSequence: nat

    function View(): Log
      reads this
    {
      Log(rows, nextSequence)
    }

    constructor ()
      ensures View() == Log([], 1)
    {
      rows, nextSequence := [], 1;
    }

    method AppendEntry(c: Crypto, d: Draft, now: Instant, id: Str) returns (ok: bool)
      modifies this
      ensures Attempt(View(), ok) == Append(c, old(View()), d, Stamp(now, id))
    {
      var prev: Option<Str> := None;
      var tail := Tail(rows);
      if tail.Some? {
        prev := Some(tail.value.entryHash);
      }
      var content := ContentOf(d, now);
      var hash := c.hash(prev, content);
      var e := Entry(id, nextSequence, content, d.tenantId, prev, hash, c.keyId, c.sign(hash));
      nextSequence := nextSequence + 1;
      ok := Admissible(rows, e);
      if ok {
        rows := rows + [e];
      }
    }

    /** `db.rollback()`: the rows return to the snapshot, the identity counter does not. */
    method Rollback(snapshot: seq<Entry>)
      modifies this`rows
      ensures View() == Log(snapshot, old(nextSequence))
    {
      rows := snapshot;
    }
  }
}
