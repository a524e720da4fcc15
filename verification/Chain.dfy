/** Theorems on the hash chain, for any entry hash: what a verified log and its root commit to. */
module Chain {
  import opened Prelude
  import opened PyText
  import opened Json
  import Sanitize
  import opened Audit

  ghost predicate Intact(c: Crypto, rows: seq<Entry>) {
    forall i: nat :: i < |rows| ==> EntryOk(c, rows, i)
  }

  lemma IntactIffNoFailures(c: Crypto, rows: seq<Entry>)
    ensures Intact(c, rows) <==> Failures(c, rows) == {}
  {
    if Failures(c, rows) == {} {
      forall i: nat | i < |rows| ensures EntryOk(c, rows, i) {
        assert i !in Failures(c, rows);
      }
    }
  }

  type Preimage = (Option<Str>, Content)

  ghost function PreimageAt(rows: seq<Entry>, i: nat): Preimage
    requires i < |rows|
  {
    (ExpectedPrev(rows, i), rows[i].content)
  }

  /** Everything that is hashed when the log is verified. */
  ghost function Preimages(rows: seq<Entry>): set<Preimage> {
    set i: nat | i < |rows| :: PreimageAt(rows, i)
  }

  /** The entry hash does not collide on these inputs. */
  ghost predicate Commits(c: Crypto, inputs: set<Preimage>) {
    forall x, y :: x in inputs && y in inputs && c.hash(x.0, x.1) == c.hash(y.0, y.1) ==> x == y
  }

  lemma IntactHash(c: Crypto, rows: seq<Entry>, i: nat)
    requires Intact(c, rows) && i < |rows|
    ensures c.hash(PreimageAt(rows, i).0, PreimageAt(rows, i).1) == rows[i].entryHash
    ensures rows[i].prevHash == ExpectedPrev(rows, i)
    ensures PreimageAt(rows, i) in Preimages(rows)
  {
    assert EntryOk(c, rows, i);
  }

  /** No two entries of an intact log share a hash. */
  lemma {:induction false} HashesDistinct(c: Crypto, rows: seq<Entry>, i: nat, j: nat)
    requires Intact(c, rows) && Commits(c, Preimages(rows)) && i < j < |rows|
    ensures rows[i].entryHash != rows[j].entryHash
  {
    if rows[i].entryHash == rows[j].entryHash {
      IntactHash(c, rows, i);
      IntactHash(c, rows, j);
      assert PreimageAt(rows, i) == PreimageAt(rows, j);
      if i > 0 {
        HashesDistinct(c, rows, i - 1, j - 1);
      }
      assert false;
    }
  }

  lemma PrefixIntact(c: Crypto, rows: seq<Entry>, n: nat)
    requires Intact(c, rows) && n <= |rows|
    ensures Intact(c, rows[..n]) && Preimages(rows[..n]) <= Preimages(rows)
  {
    var p := rows[..n];
    forall i: nat | i < |p| ensures EntryOk(c, p, i) && PreimageAt(p, i) == PreimageAt(rows, i) {
      assert EntryOk(c, rows, i);
    }
    forall x | x in Preimages(p) ensures x in Preimages(rows) {
      var i: nat :| i < |p| && x == PreimageAt(p, i);
      assert x == PreimageAt(rows, i);
    }
  }

  /** The stored chain fields and hashed content coincide. */
  ghost predicate SameEntry(x: Entry, y: Entry) {
    x.content == y.content && x.prevHash == y.prevHash && x.entryHash == y.entryHash
  }

  /** Two intact logs with the same root agree on every hashed field of every entry. */
  lemma {:induction false} RootDetermines(c: Crypto, a: seq<Entry>, b: seq<Entry>)
    requires Intact(c, a) && Intact(c, b) && Commits(c, Preimages(a) + Preimages(b))
    requires RootHash(a) == RootHash(b)
    ensures |a| == |b| && forall i :: 0 <= i < |a| ==> SameEntry(a[i], b[i])
    decreases |a|
  {
    if a != [] {
      var m, n := |a| - 1, |b| - 1;
      IntactHash(c, a, m);
      IntactHash(c, b, n);
      assert PreimageAt(a, m) == PreimageAt(b, n);
      PrefixIntact(c, a, m);
      PrefixIntact(c, b, n);
      RootDetermines(c, a[..m], b[..n]);
      forall i | 0 <= i < |a| ensures SameEntry(a[i], b[i]) {
        if i < m { assert SameEntry(a[..m][i], b[..n][i]); }
      }
    }
  }

  // ---------------------------------------------------------------- truncation

  /** Positions in increasing order. */
  ghost predicate Picks(rows: seq<Entry>, at: seq<nat>) {
    (forall k :: 0 <= k < |at| ==> at[k] < |rows|) && forall j, k :: 0 <= j < k < |at| ==> at[j] < at[k]
  }

  ghost function Subsequence(rows: seq<Entry>, at: seq<nat>): (s: seq<Entry>)
    requires Picks(rows, at)
    ensures |s| == |at| && forall k :: 0 <= k < |at| ==> s[k] == rows[at[k]]
  {
    seq(|at|, k requires 0 <= k < |at| => rows[at[k]])
  }

  ghost predicate IsPrefix(at: seq<nat>) {
    forall k :: 0 <= k < |at| ==> at[k] == k
  }

  lemma {:induction false} PickedInPlace(c: Crypto, rows: seq<Entry>, at: seq<nat>, k: nat)
    requires Intact(c, rows) && Commits(c, Preimages(rows)) && Picks(rows, at)
    requires Intact(c, Subsequence(rows, at)) && k < |at|
    ensures at[k] == k
  {
    var sub := Subsequence(rows, at);
    IntactHash(c, sub, k);
    IntactHash(c, rows, at[k]);
    if k > 0 {
      PickedInPlace(c, rows, at, k - 1);
      assert at[k-1] < at[k];
      var i, j := k - 1, at[k] - 1;
      assert rows[i].entryHash == rows[j].entryHash;
      if i < j {
        HashesDistinct(c, rows, i, j);
      }
    }
  }

  /** Removing entries from an intact log goes unnoticed exactly when only a tail was cut off. */
  lemma Truncation(c: Crypto, rows: seq<Entry>, at: seq<nat>)
    requires Intact(c, rows) && Commits(c, Preimages(rows)) && Picks(rows, at)
    ensures Intact(c, Subsequence(rows, at)) <==> IsPrefix(at)
    ensures IsPrefix(at) <==> Subsequence(rows, at) <= rows
  {
    var sub := Subsequence(rows, at);
    if Intact(c, sub) {
      forall k | 0 <= k < |at| ensures at[k] == k { PickedInPlace(c, rows, at, k); }
    }
    if IsPrefix(at) {
      assert |at| <= |rows| by {
        if |at| > 0 { assert at[|at|-1] < |rows|; }
      }
      assert sub == rows[..|at|];
      PrefixIntact(c, rows, |at|);
    }
    if sub <= rows {
      assert sub == rows[..|sub|];
      PrefixIntact(c, rows, |sub|);
      forall k | 0 <= k < |at| ensures at[k] == k { PickedInPlace(c, rows, at, k); }
    }
  }

  // ---------------------------------------------------------------- tampering

  /** Rows altered in anything but their sequence numbers and stored hashes. */
  ghost predicate HashesKept(rows: seq<Entry>, altered: seq<Entry>) {
    |altered| == |rows| && forall i :: 0 <= i < |rows| ==>
      altered[i].sequence == rows[i].sequence && altered[i].entryHash == rows[i].entryHash
  }

  /** Rows with other hashed content, another stored previous hash, or a signature that does not verify. */
  ghost function BrokenAt(c: Crypto, rows: seq<Entry>, altered: seq<Entry>): set<nat>
    requires |altered| == |rows|
  {
    set i: nat | i < |rows| && (altered[i].content != rows[i].content || altered[i].prevHash != rows[i].prevHash ||
                                !c.verify(altered[i].entryHash, altered[i].signature))
  }

  /** Verification of an altered log fails at exactly the rows altered in content, link or signature, and nowhere else. */
  lemma TamperLocalized(c: Crypto, rows: seq<Entry>, altered: seq<Entry>)
    requires Intact(c, rows) && HashesKept(rows, altered)
    requires Commits(c, Preimages(rows) + Preimages(altered))
    ensures Failures(c, altered) == BrokenAt(c, rows, altered)
  {
    forall i: nat | i < |rows| ensures EntryOk(c, altered, i) <==> i !in BrokenAt(c, rows, altered) {
      IntactHash(c, rows, i);
      assert EntryOk(c, rows, i);
      assert ExpectedPrev(altered, i) == ExpectedPrev(rows, i);
      assert PreimageAt(altered, i) in Preimages(altered);
      if EntryOk(c, altered, i) {
        assert PreimageAt(altered, i) == PreimageAt(rows, i);
      }
    }
  }

  /** Replacing signatures alone needs no hypothesis: exactly the rows whose signature does not verify fail. */
  lemma ForgedSignatures(c: Crypto, rows: seq<Entry>, altered: seq<Entry>)
    requires Intact(c, rows) && |altered| == |rows|
    requires forall i :: 0 <= i < |rows| ==> altered[i] == rows[i].(signature := altered[i].signature)
    ensures Failures(c, altered) == set i: nat | i < |rows| && !c.verify(rows[i].entryHash, altered[i].signature)
  {
    forall i: nat | i < |rows| ensures EntryOk(c, altered, i) <==> c.verify(rows[i].entryHash, altered[i].signature) {
      assert EntryOk(c, rows, i);
      assert ExpectedPrev(altered, i) == ExpectedPrev(rows, i);
    }
  }

  /** The row's own stored hash, or the one before it, is another. */
  ghost predicate HashMoved(rows: seq<Entry>, altered: seq<Entry>, i: nat)
    requires i < |rows| == |altered|
  {
    altered[i].entryHash != rows[i].entryHash || ExpectedPrev(altered, i) != ExpectedPrev(rows, i)
  }

  /** Replacing stored hashes alone makes those rows and the rows right after them fail, and no others. */
  lemma ForgedHashes(c: Crypto, rows: seq<Entry>, altered: seq<Entry>)
    requires Intact(c, rows) && |altered| == |rows|
    requires forall i :: 0 <= i < |rows| ==> altered[i] == rows[i].(entryHash := altered[i].entryHash)
    ensures Failures(c, altered) == set i: nat | i < |rows| && HashMoved(rows, altered, i)
  {
    forall i: nat | i < |rows| ensures EntryOk(c, altered, i) <==> !HashMoved(rows, altered, i) {
      assert EntryOk(c, rows, i);
    }
  }

  // ---------------------------------------------------------------- runs of transactions

  /** Rows carry increasing sequence numbers below the counter, and every entry checks. */
  ghost predicate Honest(c: Crypto, log: Log) {
    Intact(c, log.rows) && Ordered(log.rows) && forall i :: 0 <= i < |log.rows| ==> log.rows[i].sequence < log.nextSequence
  }

  ghost predicate Ordered(rows: seq<Entry>) {
    forall i, j :: 0 <= i < j < |rows| ==> rows[i].sequence < rows[j].sequence
  }

  /** In an ordered table the row of greatest sequence is the last one. */
  lemma {:induction false} TailIsLast(rows: seq<Entry>)
    requires Ordered(rows)
    ensures Tail(rows) == if rows == [] then None else Some(rows[|rows|-1])
  {
    if |rows| > 1 {
      assert forall i :: 0 <= i < |rows[1..]| ==> rows[1..][i] == rows[i+1];
      TailIsLast(rows[1..]);
    }
  }

  lemma AppendHonest(c: Crypto, log: Log, d: Draft, s: Stamp)
    requires SignsOwn(c) && Honest(c, log)
    ensures Honest(c, Append(c, log, d, s).log)
    ensures Append(c, log, d, s).ok ==> Append(c, log, d, s).log.rows == log.rows + [NewEntry(c, log, d, s)]
    ensures !Append(c, log, d, s).ok ==> Append(c, log, d, s).log.rows == log.rows
  {
    TailIsLast(log.rows);
    var e := NewEntry(c, log, d, s);
    var rows := log.rows + [e];
    forall i: nat | i < |rows| ensures EntryOk(c, rows, i) {
      if i < |log.rows| {
        assert EntryOk(c, log.rows, i);
        assert ExpectedPrev(rows, i) == ExpectedPrev(log.rows, i);
      }
    }
  }

  /** The row an accepted append stores, field by field, and when an append is refused. */
  lemma RowAppended(c: Crypto, log: Log, d: Draft, s: Stamp)
    requires Honest(c, log)
    ensures var a := Append(c, log, d, s);
            a.log.nextSequence == log.nextSequence + 1 && (!a.ok ==> a.log.rows == log.rows) &&
            (a.ok ==> |a.log.rows| == |log.rows| + 1 && log.rows <= a.log.rows && Stores(c, log, d, s, a.log.rows[|log.rows|]))
    ensures Append(c, log, d, s).ok <==>
              forall i :: 0 <= i < |log.rows| ==>
                log.rows[i].id != s.id && log.rows[i].entryHash != c.hash(RootHash(log.rows), ContentOf(d, s.now))
  {
    TailIsLast(log.rows);
    assert Sanitize.Sanitized(JObj(d.metadata)).JObj?;
  }

  ghost predicate Stores(c: Crypto, log: Log, d: Draft, s: Stamp, e: Entry) {
    e.id == s.id && e.sequence == log.nextSequence && e.tenantId == d.tenantId &&
    e.content.occurredAt == s.now && e.content.severity == d.severity && e.content.eventType == d.eventType &&
    e.content.eventSubtype == d.eventSubtype && e.content.actor == d.actor && e.content.description == d.description &&
    e.content.tenantSlug == d.tenantSlug && e.content.sourceIp == d.sourceIp &&
    JObj(e.content.metadata) == Sanitize.Sanitized(JObj(d.metadata)) &&
    e.prevHash == RootHash(log.rows) && e.entryHash == c.hash(RootHash(log.rows), e.content) &&
    e.signature == c.sign(e.entryHash) && e.signingKeyId == c.keyId
  }

  /** One request to append, with what the environment supplies for it. */
  datatype Request = Request(draft: Draft, stamp: Stamp)

  /** A transaction's appends; the first refused insert aborts the rest. */
  ghost function AppendAll(c: Crypto, log: Log, rs: seq<Request>): Attempt
    decreases |rs|
  {
    if rs == [] then Attempt(log, true)
    else
      var a := Append(c, log, rs[0].draft, rs[0].stamp);
      if a.ok then AppendAll(c, a.log, rs[1..]) else a
  }

  datatype Transaction = Transaction(requests: seq<Request>, commit: bool)

  /** Commit keeps the appended rows; a rollback or a refused insert restores them but not the counter. */
  ghost function RunTransaction(c: Crypto, log: Log, t: Transaction): Log {
    var a := AppendAll(c, log, t.requests);
    if t.commit && a.ok then a.log else Log(log.rows, a.log.nextSequence)
  }

  ghost function Run(c: Crypto, log: Log, ts: seq<Transaction>): Log
    decreases |ts|
  {
    if ts == [] then log else Run(c, RunTransaction(c, log, ts[0]), ts[1..])
  }

  /** The row at position `k` is the one its request stores. */
  ghost predicate StoredAt(log: Log, rs: seq<Request>, after: seq<Entry>, k: nat)
    requires |log.rows| <= k < |after| <= |log.rows| + |rs|
  {
    var r := rs[k - |log.rows|];
    after[k].content == ContentOf(r.draft, r.stamp.now) && after[k].id == r.stamp.id &&
    after[k].sequence == log.nextSequence + (k - |log.rows|)
  }

  /** The rows these requests store, in order. */
  ghost predicate StoresAll(log: Log, rs: seq<Request>, after: seq<Entry>) {
    |after| == |log.rows| + |rs| && log.rows <= after && forall k: nat :: |log.rows| <= k < |after| ==> StoredAt(log, rs, after, k)
  }

  lemma AppendStores(c: Crypto, log: Log, r: Request)
    requires Append(c, log, r.draft, r.stamp).ok
    ensures StoresAll(log, [r], Append(c, log, r.draft, r.stamp).log.rows)
    ensures Append(c, log, r.draft, r.stamp).log.nextSequence == log.nextSequence + 1
  {
    hide ContentOf;
  }

  lemma StoresCons(log: Log, mid: Log, rs: seq<Request>, after: seq<Entry>)
    requires rs != [] && StoresAll(log, [rs[0]], mid.rows) && mid.nextSequence == log.nextSequence + 1
    requires StoresAll(mid, rs[1..], after)
    ensures StoresAll(log, rs, after)
  {
    hide ContentOf;
    forall k: nat | |log.rows| <= k < |after| ensures StoredAt(log, rs, after, k) {
      if k == |log.rows| {
        assert StoredAt(log, [rs[0]], mid.rows, k) && after[k] == mid.rows[k];
      } else {
        assert StoredAt(mid, rs[1..], after, k) && rs[1..][k - |mid.rows|] == rs[k - |log.rows|];
      }
    }
  }

  lemma {:induction false} AppendAllStores(c: Crypto, log: Log, rs: seq<Request>)
    requires AppendAll(c, log, rs).ok
    ensures StoresAll(log, rs, AppendAll(c, log, rs).log.rows)
    decreases |rs|
  {
    if rs != [] {
      hide Append;
      hide StoresAll;
      var a := Append(c, log, rs[0].draft, rs[0].stamp);
      AppendStores(c, log, rs[0]);
      AppendAllStores(c, a.log, rs[1..]);
      StoresCons(log, a.log, rs, AppendAll(c, log, rs).log.rows);
    }
  }

  /** A committed transaction stores all of its entries in order; any other stores none. */
  lemma TransactionOutcome(c: Crypto, log: Log, t: Transaction)
    ensures var after := RunTransaction(c, log, t).rows;
            if t.commit && AppendAll(c, log, t.requests).ok then StoresAll(log, t.requests, after) else after == log.rows
  {
    hide StoresAll;
    if AppendAll(c, log, t.requests).ok { AppendAllStores(c, log, t.requests); }
  }

  lemma {:induction false} AppendAllHonest(c: Crypto, log: Log, rs: seq<Request>)
    requires SignsOwn(c) && Honest(c, log)
    ensures Honest(c, AppendAll(c, log, rs).log)
    ensures log.nextSequence <= AppendAll(c, log, rs).log.nextSequence
    ensures log.rows <= AppendAll(c, log, rs).log.rows
    ensures AppendAll(c, log, rs).ok ==> |AppendAll(c, log, rs).log.rows| == |log.rows| + |rs|
    decreases |rs|
  {
    if rs != [] {
      AppendHonest(c, log, rs[0].draft, rs[0].stamp);
      var a := Append(c, log, rs[0].draft, rs[0].stamp);
      if a.ok {
        AppendAllHonest(c, a.log, rs[1..]);
      }
    }
  }

  /** Every serial run of committed and rolled-back transactions leaves a log that verifies, rooted at its tail. */
  lemma {:induction false} RunVerifies(c: Crypto, log: Log, ts: seq<Transaction>)
    requires SignsOwn(c) && Honest(c, log)
    ensures var after := Run(c, log, ts);
            Honest(c, after) && Failures(c, after.rows) == {} && log.rows <= after.rows &&
            RootHash(after.rows) == match Tail(after.rows) case None => None case Some(e) => Some(e.entryHash)
    decreases |ts|
  {
    if ts == [] {
      IntactIffNoFailures(c, log.rows);
      TailIsLast(log.rows);
    } else {
      AppendAllHonest(c, log, ts[0].requests);
      RunVerifies(c, RunTransaction(c, log, ts[0]), ts[1..]);
    }
  }

  lemma EmptyHonest(c: Crypto, next: nat)
    ensures Honest(c, Log([], next))
  {}

  /** From an empty log, whatever is committed or rolled back, the verification report is clean and its root the tail's hash. */
  lemma ReachableVerifies(c: Crypto, next: nat, ts: seq<Transaction>, r: Report)
    requires SignsOwn(c) && Describes(c, Run(c, Log([], next), ts).rows, r)
    ensures var rows := Run(c, Log([], next), ts).rows;
            r.isValid && r.failed == 0 && r.verified == |rows| && r.firstBreak == None &&
            r.rootHash == (match Tail(rows) case None => None case Some(e) => Some(e.entryHash))
  {
    hide Run;
    hide Honest;
    EmptyHonest(c, next);
    RunVerifies(c, Log([], next), ts);
  }

  /** On an honest log without hash collisions, the unique constraint on entry hashes never refuses an append. */
  lemma UniqueHashNeverFires(c: Crypto, log: Log, d: Draft, s: Stamp)
    requires SignsOwn(c) && Honest(c, log)
    requires Commits(c, Preimages(log.rows + [NewEntry(c, log, d, s)]))
    requires forall i :: 0 <= i < |log.rows| ==> log.rows[i].id != s.id
    ensures Append(c, log, d, s).ok
  {
    var e := NewEntry(c, log, d, s);
    var rows := log.rows + [e];
    TailIsLast(log.rows);
    forall i: nat | i < |rows| ensures EntryOk(c, rows, i) {
      if i < |log.rows| {
        assert EntryOk(c, log.rows, i);
        assert ExpectedPrev(rows, i) == ExpectedPrev(log.rows, i);
      }
    }
    forall i | 0 <= i < |log.rows| ensures log.rows[i].entryHash != e.entryHash {
      HashesDistinct(c, rows, i, |log.rows|);
    }
  }
}
