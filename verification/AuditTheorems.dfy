/**
 The chain theorems brought down to the digest: the only hypothesis is that the digest function does not collide on
 the texts that were actually hashed. Injectivity of the canonical payload is proved, not assumed.
 */
module AuditTheorems {
  import opened Prelude
  import opened Json
  import opened JsonParse
  import opened Audit
  import opened Payload
  import opened Chain
  import opened Sanitize

  /** No two of these texts share a digest. */
  ghost predicate CollisionFreeOn(digest: string -> Digest, texts: set<string>) {
    forall a, b :: a in texts && b in texts && digest(a) == digest(b) ==> a == b
  }

  ghost function Texts(inputs: set<Preimage>): set<string> {
    set x | x in inputs :: PayloadText(x.0, x.1)
  }

  ghost predicate WellFormedRows(rows: seq<Entry>) {
    forall i :: 0 <= i < |rows| ==> WellFormedContent(rows[i].content)
  }

  ghost predicate WellFormedInputs(inputs: set<Preimage>) {
    forall x :: x in inputs ==> WellFormedOpt(x.0) && WellFormedContent(x.1)
  }

  lemma DigestWellFormed(h: Digest)
    ensures WellFormedText(h)
  {
    forall i | 0 <= i < |h| - 1 ensures !(IsHigh(h[i]) && IsLow(h[i+1])) {
      assert IsHexCode(h[i]);
    }
  }

  lemma InputsWellFormed(c: Crypto, rows: seq<Entry>, hashes: seq<Entry>)
    requires Intact(c, hashes) && WellFormedRows(rows) && |hashes| == |rows|
    requires forall i :: 0 <= i < |rows| ==> rows[i].entryHash == hashes[i].entryHash
    ensures WellFormedInputs(Preimages(rows))
  {
    forall x | x in Preimages(rows) ensures WellFormedOpt(x.0) && WellFormedContent(x.1) {
      var i: nat :| i < |rows| && x == PreimageAt(rows, i);
      if i > 0 {
        IntactHash(c, hashes, i - 1);
        var h: Digest := c.hash(PreimageAt(hashes, i - 1).0, PreimageAt(hashes, i - 1).1);
        DigestWellFormed(h);
      }
    }
  }

  /** A digest that does not collide on the hashed texts makes the entry hash commit to its inputs. */
  lemma DigestCommits(c: Crypto, digest: string -> Digest, inputs: set<Preimage>)
    requires c.hash == Sha256(digest) && WellFormedInputs(inputs) && CollisionFreeOn(digest, Texts(inputs))
    ensures Commits(c, inputs)
  {
    hide PayloadText;
    hide WellFormedContent;
    forall x, y | x in inputs && y in inputs && c.hash(x.0, x.1) == c.hash(y.0, y.1) ensures x == y {
      assert PayloadText(x.0, x.1) in Texts(inputs) && PayloadText(y.0, y.1) in Texts(inputs);
      assert c.hash(x.0, x.1) == digest(PayloadText(x.0, x.1)) && c.hash(y.0, y.1) == digest(PayloadText(y.0, y.1));
      PayloadInjective(x.0, x.1, y.0, y.1);
    }
  }

  /** Two logs that verify and report the same root hash agree on their length and on every hashed field. */
  lemma RootCommitment(c: Crypto, digest: string -> Digest, a: seq<Entry>, b: seq<Entry>)
    requires c.hash == Sha256(digest) && WellFormedRows(a) && WellFormedRows(b)
    requires CollisionFreeOn(digest, Texts(Preimages(a) + Preimages(b)))
    requires Failures(c, a) == {} && Failures(c, b) == {} && RootHash(a) == RootHash(b)
    ensures |a| == |b| && forall i :: 0 <= i < |a| ==> SameEntry(a[i], b[i])
  {
    hide Sha256;
    hide WellFormedRows;
    IntactIffNoFailures(c, a);
    IntactIffNoFailures(c, b);
    InputsWellFormed(c, a, a);
    InputsWellFormed(c, b, b);
    DigestCommits(c, digest, Preimages(a) + Preimages(b));
    RootDetermines(c, a, b);
  }

  /** An order-preserving selection of rows of a verified log verifies if and only if it is a prefix. */
  lemma TruncationOnly(c: Crypto, digest: string -> Digest, rows: seq<Entry>, at: seq<nat>)
    requires c.hash == Sha256(digest) && WellFormedRows(rows) && CollisionFreeOn(digest, Texts(Preimages(rows)))
    requires Failures(c, rows) == {} && Picks(rows, at)
    ensures Failures(c, Subsequence(rows, at)) == {} <==> Subsequence(rows, at) <= rows
  {
    hide Sha256;
    hide WellFormedRows;
    IntactIffNoFailures(c, rows);
    IntactIffNoFailures(c, Subsequence(rows, at));
    InputsWellFormed(c, rows, rows);
    DigestCommits(c, digest, Preimages(rows));
    Truncation(c, rows, at);
  }

  /** Altering rows of a verified log makes the walk fail at exactly those altered in content, link or signature. */
  lemma TamperEvident(c: Crypto, digest: string -> Digest, rows: seq<Entry>, altered: seq<Entry>)
    requires c.hash == Sha256(digest) && WellFormedRows(rows) && WellFormedRows(altered)
    requires HashesKept(rows, altered) && Failures(c, rows) == {}
    requires CollisionFreeOn(digest, Texts(Preimages(rows) + Preimages(altered)))
    ensures Failures(c, altered) == BrokenAt(c, rows, altered)
  {
    hide Sha256;
    hide WellFormedRows;
    hide CollisionFreeOn;
    IntactIffNoFailures(c, rows);
    InputsWellFormed(c, rows, rows);
    InputsWellFormed(c, altered, rows);
    DigestCommits(c, digest, Preimages(rows) + Preimages(altered));
    TamperLocalized(c, rows, altered);
  }

  /** The report on an altered log: how many entries failed, how many passed and where the first break is. */
  lemma TamperReport(c: Crypto, digest: string -> Digest, rows: seq<Entry>, altered: seq<Entry>, r: Report)
    requires c.hash == Sha256(digest) && WellFormedRows(rows) && WellFormedRows(altered)
    requires HashesKept(rows, altered) && Failures(c, rows) == {}
    requires CollisionFreeOn(digest, Texts(Preimages(rows) + Preimages(altered)))
    requires Describes(c, altered, r)
    ensures r.failed == |BrokenAt(c, rows, altered)| && r.verified == |rows| - |BrokenAt(c, rows, altered)|
    ensures BreaksAt(rows, BrokenAt(c, rows, altered), r.firstBreak)
    ensures r.isValid <==> BrokenAt(c, rows, altered) == {}
    ensures r.rootHash == RootHash(rows)
    ensures Ordered(rows) && BrokenAt(c, rows, altered) != {} ==> IsLowest(rows, BrokenAt(c, rows, altered), r.firstBreak)
  {
    hide Sha256;
    hide WellFormedRows;
    hide CollisionFreeOn;
    hide Texts;
    hide Preimages;
    assert |altered| == |rows|;
    TamperEvident(c, digest, rows, altered);
    BreaksAtAltered(c, rows, altered, r, BrokenAt(c, rows, altered));
    if Ordered(rows) && BrokenAt(c, rows, altered) != {} {
      FirstIsLowest(rows, BrokenAt(c, rows, altered), r.firstBreak);
    }
  }

  /** Forging signatures alone is reported exactly where they do not verify, whatever the digest does. */
  lemma ForgedSignaturesReport(c: Crypto, rows: seq<Entry>, altered: seq<Entry>, r: Report)
    requires Failures(c, rows) == {} && |altered| == |rows| && Describes(c, altered, r)
    requires forall i :: 0 <= i < |rows| ==> altered[i] == rows[i].(signature := altered[i].signature)
    ensures var forged := set i: nat | i < |rows| && !c.verify(rows[i].entryHash, altered[i].signature);
            r.failed == |forged| && r.verified == |rows| - |forged| && (r.isValid <==> forged == {}) &&
            BreaksAt(rows, forged, r.firstBreak)
  {
    IntactIffNoFailures(c, rows);
    ForgedSignatures(c, rows, altered);
    BreaksAtAltered(c, rows, altered, r, set i: nat | i < |rows| && !c.verify(rows[i].entryHash, altered[i].signature));
  }

  lemma BreaksAtAltered(c: Crypto, rows: seq<Entry>, altered: seq<Entry>, r: Report, failures: set<nat>)
    requires HashesKept(rows, altered) && Failures(c, altered) == failures && Describes(c, altered, r)
    ensures r.failed == |failures| && r.verified == |rows| - |failures|
    ensures BreaksAt(rows, failures, r.firstBreak)
    ensures r.isValid <==> failures == {}
    ensures r.rootHash == RootHash(rows)
  {
    hide FailuresBefore;
    hide IsFirst;
  }

  /** The smallest sequence number among the rows at these positions. */
  ghost predicate IsLowest(rows: seq<Entry>, at: set<nat>, sequence: Option<nat>) {
    sequence.Some? && (exists i :: i in at && i < |rows| && rows[i].sequence == sequence.value) &&
    forall i :: i in at && i < |rows| ==> sequence.value <= rows[i].sequence
  }

  lemma FirstIsLowest(rows: seq<Entry>, at: set<nat>, sequence: Option<nat>)
    requires Ordered(rows) && at != {} && BreaksAt(rows, at, sequence)
    ensures IsLowest(rows, at, sequence)
  {}

  /** Drafts whose metadata differs only beneath sensitive keys produce the same entry, hash included. */
  lemma SecretsDoNotReachTheHash(c: Crypto, log: Log, d: Draft, secrets: Object, s: Stamp)
    requires SameOutsideSecrets(JObj(d.metadata), JObj(secrets))
    ensures NewEntry(c, log, d.(metadata := secrets), s) == NewEntry(c, log, d, s)
  {
    SanitizeKernel(JObj(d.metadata), JObj(secrets));
  }
}
