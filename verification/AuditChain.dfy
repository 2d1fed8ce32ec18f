/**
 The audit table as a hash chain: what `verify_chain` accepts, and what its
 acceptance proves about the rows (shoreguard/services/audit.py).

 The shape of a chain does not depend on what a digest covers, so the
 definitions take the digest of a row as a parameter; `DigestOf` is the one
 the service computes.
 */
module AuditChain {
  import opened Wrappers
  import opened AuditHash

  /** A row of `audit_log`; legacy rows have no entry hash. */
  datatype Row = Row(
    id: nat,
    entry: Entry,
    gatewayId: Option<nat>,
    prevHash: Option<string>,
    entryHash: Option<string>)

  type Digest = Row -> string

  function RowView(r: Row): View
  {
    ViewOf(OrEmpty(r.prevHash), r.entry)
  }

  function RowPayload(r: Row): string
  {
    Payload(OrEmpty(r.prevHash), r.entry)
  }

  /** The digest that `log` stores and `verify_chain` recomputes. */
  function DigestOf(sha: string -> string): Digest
  {
    (r: Row) => ComputeEntryHash(sha, OrEmpty(r.prevHash), r.entry)
  }

  predicate Legacy(r: Row)
  {
    r.entryHash.None?
  }

  predicate SelfHashed(digest: Digest, r: Row)
  {
    r.entryHash == Some(digest(r))
  }

  /** Rows come back in primary-key order, and keys start at 1. */
  predicate Ordered(rows: seq<Row>)
  {
    && (forall i :: 0 <= i < |rows| ==> 1 <= rows[i].id)
    && (forall i, j :: 0 <= i < j < |rows| ==> rows[i].id < rows[j].id)
  }

  /** `k` legacy rows followed by a chain in which each row names its predecessor's hash. */
  predicate ChainFrom(digest: Digest, rows: seq<Row>, k: nat)
  {
    && k <= |rows|
    && (forall i :: 0 <= i < k ==> Legacy(rows[i]))
    && (forall i :: k <= i < |rows| ==> SelfHashed(digest, rows[i]))
    && (forall i :: k < i < |rows| ==> rows[i].prevHash == rows[i - 1].entryHash)
  }

  ghost predicate WellChained(digest: Digest, rows: seq<Row>)
  {
    exists k: nat :: ChainFrom(digest, rows, k)
  }

  // ----- Shape of a chain ------------------------------------------------

  lemma ChainStartUnique(digest: Digest, rows: seq<Row>, k: nat, m: nat)
    requires ChainFrom(digest, rows, k) && ChainFrom(digest, rows, m)
    ensures k == m
  {
    assert k < |rows| ==> SelfHashed(digest, rows[k]);
    assert m < |rows| ==> SelfHashed(digest, rows[m]);
  }

  /** Cutting rows off the end is invisible: a prefix of a good table is good. */
  lemma NewRowsMayGo(digest: Digest, rows: seq<Row>, k: nat, n: nat)
    requires ChainFrom(digest, rows, k) && n <= |rows|
    ensures ChainFrom(digest, rows[..n], if k < n then k else n)
  {
  }

  /** So is cutting rows off the old end, which is what retention does. */
  lemma OldRowsMayGo(digest: Digest, rows: seq<Row>, k: nat, n: nat)
    requires ChainFrom(digest, rows, k) && n <= |rows|
    ensures ChainFrom(digest, rows[n..], if n < k then k - n else 0)
  {
  }

  /** When one more row keeps a well-chained table well chained. */
  predicate Extends(digest: Digest, rows: seq<Row>, k: nat, r: Row)
    requires k <= |rows|
  {
    if Legacy(r) then k == |rows|
    else SelfHashed(digest, r) && (k < |rows| ==> r.prevHash == rows[|rows| - 1].entryHash)
  }

  lemma ChainAppend(digest: Digest, rows: seq<Row>, k: nat, r: Row)
    requires ChainFrom(digest, rows, k)
    ensures WellChained(digest, rows + [r]) <==> Extends(digest, rows, k, r)
    ensures Extends(digest, rows, k, r) ==> ChainFrom(digest, rows + [r], if Legacy(r) then k + 1 else k)
  {
    var more := rows + [r];
    if Extends(digest, rows, k, r) {
      assert ChainFrom(digest, more, if Legacy(r) then k + 1 else k);
    }
    if WellChained(digest, more) {
      var m: nat :| ChainFrom(digest, more, m);
      NewRowsMayGo(digest, more, m, |rows|);
      assert more[..|rows|] == rows;
      ChainStartUnique(digest, rows, k, if m < |rows| then m else |rows|);
      assert more[|rows|] == r;
      assert m == |more| ==> Legacy(more[|rows|]);
      assert m <= |rows| ==> SelfHashed(digest, more[|rows|]);
    }
  }

  // ----- What an accepted table proves -----------------------------------

  /** Among the rows of two tables, equal digests come from equal hashed fields. */
  ghost predicate Faithful(digest: Digest, a: seq<Row>, b: seq<Row>)
  {
    forall i, j :: 0 <= i < |a| && 0 <= j < |b| && digest(a[i]) == digest(b[j]) ==> RowView(a[i]) == RowView(b[j])
  }

  /** Two stored rows whose hashed texts differ but have the same SHA-256. */
  ghost predicate Collides(sha: string -> string, a: seq<Row>, b: seq<Row>)
  {
    exists i, j :: 0 <= i < |a| && 0 <= j < |b| && CollidingPair(sha, a[i], b[j])
  }

  predicate CollidingPair(sha: string -> string, r: Row, s: Row)
  {
    RowPayload(r) != RowPayload(s) && sha(RowPayload(r)) == sha(RowPayload(s))
  }

  lemma NoCollisionMeansFaithful(sha: string -> string, a: seq<Row>, b: seq<Row>)
    ensures Collides(sha, a, b) || Faithful(DigestOf(sha), a, b)
  {
    if !Collides(sha, a, b) {
      forall i, j | 0 <= i < |a| && 0 <= j < |b| && DigestOf(sha)(a[i]) == DigestOf(sha)(b[j])
        ensures RowView(a[i]) == RowView(b[j])
      {
        assert !CollidingPair(sha, a[i], b[j]);
        PayloadDeterminesView(OrEmpty(a[i].prevHash), a[i].entry, OrEmpty(b[j].prevHash), b[j].entry);
      }
    }
  }

  /** The rows `n` from the end of two tables carry the same hashed fields and hash. */
  predicate AgreeAt(a: seq<Row>, b: seq<Row>, n: nat)
    requires 1 <= n <= |a| && n <= |b|
  {
    && RowView(a[|a| - n]) == RowView(b[|b| - n])
    && a[|a| - n].entryHash == b[|b| - n].entryHash
  }

  lemma {:induction false} AgreeFromTheEnd(digest: Digest, a: seq<Row>, ka: nat, b: seq<Row>, kb: nat, n: nat)
    requires ChainFrom(digest, a, ka) && ChainFrom(digest, b, kb)
    requires 1 <= n <= |a| - ka && n <= |b| - kb
    requires a[|a| - 1].entryHash == b[|b| - 1].entryHash
    requires Faithful(digest, a, b)
    ensures AgreeAt(a, b, n)
  {
    var r, s := a[|a| - n], b[|b| - n];
    if n > 1 {
      AgreeFromTheEnd(digest, a, ka, b, kb, n - 1);
      var r', s' := a[|a| - n + 1], b[|b| - n + 1];
      assert RowView(r').prev == RowView(s').prev;
      assert r'.prevHash == r.entryHash && s'.prevHash == s.entryHash;
    }
    assert SelfHashed(digest, r) && SelfHashed(digest, s);
  }

  /**
   Tamper evidence. Two tables that both verify and end in the same entry hash
   agree, row by row from the end, on every hashed field for as far as both
   are hashed; otherwise the tables themselves exhibit a SHA-256 collision.
   */
  lemma TamperEvident(sha: string -> string, a: seq<Row>, ka: nat, b: seq<Row>, kb: nat)
    requires ChainFrom(DigestOf(sha), a, ka) && ka < |a|
    requires ChainFrom(DigestOf(sha), b, kb) && kb < |b|
    requires a[|a| - 1].entryHash == b[|b| - 1].entryHash
    ensures Collides(sha, a, b)
         || forall n: nat :: 1 <= n <= |a| - ka && n <= |b| - kb ==> AgreeAt(a, b, n)
  {
    NoCollisionMeansFaithful(sha, a, b);
    if Faithful(DigestOf(sha), a, b) {
      forall n: nat | 1 <= n <= |a| - ka && n <= |b| - kb
        ensures AgreeAt(a, b, n)
      {
        AgreeFromTheEnd(DigestOf(sha), a, ka, b, kb, n);
      }
    }
  }

  /** A second table with the same legacy rows passes only with the same chain start. */
  lemma SameChainStart(digest: Digest, rows: seq<Row>, k: nat)
    requires k < |rows|
    requires (forall j :: 0 <= j < k ==> Legacy(rows[j])) && !Legacy(rows[k])
    requires WellChained(digest, rows)
    ensures ChainFrom(digest, rows, k)
  {
  }

  /**
   No edit, swap or replacement before the last row goes unnoticed: a table of
   the same shape and the same last hash still passes only if it carries the
   same hashed fields everywhere, or a collision is exhibited.
   */
  lemma EditDetected(sha: string -> string, a: seq<Row>, k: nat, b: seq<Row>)
    requires ChainFrom(DigestOf(sha), a, k) && k < |a| == |b|
    requires (forall j :: 0 <= j < k ==> Legacy(b[j])) && !Legacy(b[k])
    requires a[|a| - 1].entryHash == b[|b| - 1].entryHash
    requires WellChained(DigestOf(sha), b)
    ensures Collides(sha, a, b) || forall i :: k <= i < |a| ==> RowView(a[i]) == RowView(b[i])
  {
    SameChainStart(DigestOf(sha), b, k);
    TamperEvident(sha, a, k, b, k);
    if !Collides(sha, a, b) {
      forall i | k <= i < |a|
        ensures RowView(a[i]) == RowView(b[i])
      {
        assert AgreeAt(a, b, |a| - i);
      }
    }
  }

  function Without(rows: seq<Row>, i: nat): seq<Row>
    requires i < |rows|
  {
    rows[..i] + rows[i + 1..]
  }

  lemma GapShape(digest: Digest, a: seq<Row>, k: nat, i: nat)
    requires ChainFrom(digest, a, k) && k < i < |a| - 1
    requires WellChained(digest, Without(a, i))
    ensures ChainFrom(digest, Without(a, i), k)
  {
  }

  /**
   Removing one hashed row that has hashed rows on both sides is rejected,
   unless it repeats its predecessor in all ten fields, which takes a digest
   that is part of its own input, or a collision is exhibited.
   */
  lemma InnerDeletionDetected(sha: string -> string, a: seq<Row>, k: nat, i: nat)
    requires ChainFrom(DigestOf(sha), a, k) && k < i < |a| - 1
    requires WellChained(DigestOf(sha), Without(a, i))
    ensures Collides(sha, a, Without(a, i))
         || (RowView(a[i - 1]) == RowView(a[i]) && RowView(a[i - 1]).prev == DigestOf(sha)(a[i - 1]))
  {
    var b := Without(a, i);
    GapShape(DigestOf(sha), a, k, i);
    assert b[|b| - 1] == a[|a| - 1];
    TamperEvident(sha, a, k, b, k);
    if !Collides(sha, a, b) {
      AgreementAtGap(a, i);
      assert SelfHashed(DigestOf(sha), a[i - 1]) && a[i].prevHash == a[i - 1].entryHash;
    }
  }

  lemma AgreementAtGap(a: seq<Row>, i: nat)
    requires 0 < i < |a| - 1 && AgreeAt(a, Without(a, i), |a| - i)
    ensures RowView(a[i - 1]) == RowView(a[i])
  {
  }
}
