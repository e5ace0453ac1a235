/** The attestation lifecycle (audit/regulatory_attestation_signer.py). */
module Attestations {
  import opened Basics
  import opened Hashing

  // ----- Attestations as values

  datatype Status = Draft | Signed | Expired | Revoked

  /** What never changes after creation. */
  datatype Terms = Terms(id: string, framework: string, periodStart: int, periodEnd: int, entity: string,
                         createdAt: int, expiresAt: int, rootHash: string, contentHash: string)

  /** An attestation as `to_dict` stores it. */
  datatype Snapshot = Snapshot(terms: Terms, status: Status, signature: Option<string>, signedAt: Option<int>,
                               signerInfo: map<string, string>, metadata: map<string, string>)

  /** The dictionaries that are serialised: one at creation, another at signing and verifying. */
  datatype Content =
    | Created(id: string, framework: string, periodStart: int, periodEnd: int, entity: string,
              rootHash: string, createdAt: int, metadata: map<string, string>)
    | Sealed(id: string, framework: string, periodStart: int, periodEnd: int, entity: string,
             rootHash: string, contentHash: string, createdAt: int)

  /** `verify` is the signature check of the RSA-PSS signer. */
  datatype Crypto = Crypto(sha: Sha, json: Content -> string, verify: (string, string) -> bool)

  /** Serialisation loses nothing. */
  ghost predicate Faithful(c: Crypto) {
    forall x, y :: c.json(x) == c.json(y) ==> x == y
  }

  const YEAR := 365 * 24 * 3600 * 1000000  // microseconds

  function CreationText(c: Crypto, t: Terms, metadata: map<string, string>): string {
    c.json(Created(t.id, t.framework, t.periodStart, t.periodEnd, t.entity, t.rootHash, t.createdAt, metadata))
  }

  function SealText(c: Crypto, t: Terms): string {
    c.json(Sealed(t.id, t.framework, t.periodStart, t.periodEnd, t.entity, t.rootHash, t.contentHash, t.createdAt))
  }

  /** A request for a new attestation, with the fresh id, the clock, and the audit root. */
  datatype Request = Request(id: string, framework: string, periodStart: int, periodEnd: int, entity: string,
                             metadata: map<string, string>, now: int, rootHash: string)

  function DraftOf(c: Crypto, q: Request): Snapshot {
    var t := Terms(q.id, q.framework, q.periodStart, q.periodEnd, q.entity, q.now, q.now + YEAR, q.rootHash, "");
    Snapshot(t.(contentHash := c.sha(CreationText(c, t, q.metadata))), Draft, None, None, map[], q.metadata)
  }

  /** The terms are those asked for: which report, of whom, on what period and root, and for one year. */
  predicate AsRequested(t: Terms, q: Request) {
    && t.id == q.id && t.framework == q.framework && t.entity == q.entity
    && t.periodStart == q.periodStart && t.periodEnd == q.periodEnd
    && t.createdAt == q.now && t.expiresAt == q.now + YEAR && t.rootHash == q.rootHash
  }

  function SignedOf(a: Snapshot, signature: string, signer: string, now: int): Snapshot {
    a.(status := Signed, signature := Some(signature), signedAt := Some(now),
       signerInfo := map["signer_id" := signer, "signer_name" := "System"])
  }

  /** A signed snapshot carries the signature, its time and its signer. */
  predicate SignedBy(a: Snapshot, signature: string, signer: string, now: int) {
    && a.status == Signed && a.signature == Some(signature) && a.signedAt == Some(now)
    && a.signerInfo == map["signer_id" := signer, "signer_name" := "System"]
  }

  /** A revoked one says when, why and by whom. */
  predicate RevokedBy(a: Snapshot, reason: string, revoker: string, now: string) {
    && a.status == Revoked
    && "revoked_at" in a.metadata && a.metadata["revoked_at"] == now
    && "revocation_reason" in a.metadata && a.metadata["revocation_reason"] == reason
    && "revoked_by" in a.metadata && a.metadata["revoked_by"] == revoker
  }

  function RevokedOf(a: Snapshot, reason: string, revoker: string, now: string): Snapshot {
    a.(status := Revoked,
       metadata := a.metadata["revoked_at" := now]["revocation_reason" := reason]["revoked_by" := revoker])
  }

  /** What `verify_attestation` checks; `currentRoot` is the audit root as computed now. */
  datatype Checks = Checks(status: bool, expiry: bool, contentHash: bool, signature: bool, auditRoot: bool) {
    predicate IsValid() {
      status && expiry && contentHash && signature && auditRoot
    }
  }

  predicate SignatureOk(c: Crypto, a: Snapshot) {
    a.signature.Some? && a.signature.value != "" && c.verify(SealText(c, a.terms), a.signature.value)
  }

  function ChecksOn(c: Crypto, a: Snapshot, now: int, currentRoot: string): Checks {
    Checks(a.status == Signed, now <= a.terms.expiresAt, c.sha(SealText(c, a.terms)) == a.terms.contentHash,
           SignatureOk(c, a), currentRoot == a.terms.rootHash)
  }

  /** The text that is signed is that of the sealed dictionary, and of no other. */
  lemma SealBinds(c: Crypto, t: Terms, s: Content)
    requires Faithful(c)
    ensures SealText(c, t) == c.json(s) <==>
            && s.Sealed? && s.id == t.id && s.framework == t.framework && s.periodStart == t.periodStart
            && s.periodEnd == t.periodEnd && s.entity == t.entity && s.rootHash == t.rootHash
            && s.contentHash == t.contentHash && s.createdAt == t.createdAt
  {
  }

  /** So it is with the text that is hashed at creation. */
  lemma CreationBinds(c: Crypto, t: Terms, metadata: map<string, string>, s: Content)
    requires Faithful(c)
    ensures CreationText(c, t, metadata) == c.json(s) <==>
            && s.Created? && s.id == t.id && s.framework == t.framework && s.periodStart == t.periodStart
            && s.periodEnd == t.periodEnd && s.entity == t.entity && s.rootHash == t.rootHash
            && s.createdAt == t.createdAt && s.metadata == metadata
  {
  }

  /** What each check says. */
  ghost predicate Checked(k: Checks, c: Crypto, a: Snapshot, now: int, currentRoot: string) {
    && (k.status <==> a.status == Signed)
    && (k.expiry <==> now <= a.terms.expiresAt)
    && (k.contentHash <==> c.sha(SealText(c, a.terms)) == a.terms.contentHash)
    && (k.signature <==> a.signature.Some? && a.signature.value != "" &&
                         c.verify(SealText(c, a.terms), a.signature.value))
    && (k.auditRoot <==> currentRoot == a.terms.rootHash)
  }

  // ----- The signer as a transition function

  datatype Error = NotFound | WrongStatus(status: Status)

  /** The signer's cache and the attestation stream. */
  datatype State = State(cache: map<string, Snapshot>, stream: seq<Snapshot>)

  const EMPTY := State(map[], [])

  /** `read_stream(ATTESTATION_STREAM, limit=1000)` */
  const SCAN_LIMIT := 1000

  /** The first event for `id` among the first `SCAN_LIMIT` of the stream. */
  function FirstStored(stream: seq<Snapshot>, id: string, from: nat := 0): (r: Option<Snapshot>)
    requires from <= |stream|
    decreases |stream| - from
  {
    if from == |stream| || from >= SCAN_LIMIT then None
    else if stream[from].terms.id == id then Some(stream[from])
    else FirstStored(stream, id, from + 1)
  }

  /** `get_attestation`: the cached object, or else the oldest stored event, which is then cached. */
  function Fetch(st: State, id: string): Option<Snapshot> {
    if id in st.cache then Some(st.cache[id]) else FirstStored(st.stream, id)
  }

  function AfterFetch(st: State, id: string): State {
    var found := Fetch(st, id);
    if found.Some? then st.(cache := st.cache[id := found.value]) else st
  }

  /** Storing an attestation appends its snapshot and caches the object. */
  function Stored(st: State, a: Snapshot): State {
    State(st.cache[a.terms.id := a], st.stream + [a])
  }

  function AfterSign(st: State, id: string, signature: string, signer: string, now: int): (State, Option<Error>) {
    var found := Fetch(st, id);
    if found.None? then (st, Some(NotFound))
    else if found.value.status != Draft then (AfterFetch(st, id), Some(WrongStatus(found.value.status)))
    else (Stored(st, SignedOf(found.value, signature, signer, now)), None)
  }

  function AfterRevoke(st: State, id: string, reason: string, revoker: string, now: string): (State, Option<Error>) {
    var found := Fetch(st, id);
    if found.None? then (st, Some(NotFound))
    else if found.value.status != Signed then (AfterFetch(st, id), Some(WrongStatus(found.value.status)))
    else (Stored(st, RevokedOf(found.value, reason, revoker, now)), None)
  }

  datatype Op =
    | Create(request: Request)
    | Sign(id: string, signature: string, signer: string, signTime: int)
    | Revoke(id: string, reason: string, revoker: string, revokeTime: string)
    | Get(id: string)

  /** The state after an operation, and the error it raised if it did. */
  function Apply(c: Crypto, st: State, op: Op): (State, Option<Error>) {
    match op
    case Create(q) => (Stored(st, DraftOf(c, q)), None)
    case Sign(id, signature, signer, now) => AfterSign(st, id, signature, signer, now)
    case Revoke(id, reason, revoker, now) => AfterRevoke(st, id, reason, revoker, now)
    case Get(id) => (AfterFetch(st, id), None)
  }

  lemma StoringOverridesFetch(st: State, id: string, a: Snapshot)
    requires a.terms.id == id
    ensures Stored(AfterFetch(st, id), a) == Stored(st, a)
  {
    assert AfterFetch(st, id).cache[id := a] == st.cache[id := a];
  }

  // ----- The objects

  class Attestation {
    const terms: Terms
    var status: Status
    var signature: Option<string>
    var signedAt: Option<int>
    var signerInfo: map<string, string>
    var metadata: map<string, string>

    /** `from_dict`; the constructor of a draft is the case of an unsigned snapshot. */
    constructor (a: Snapshot)
      ensures View() == a && terms == a.terms
    {
      terms, status, signature, signedAt := a.terms, a.status, a.signature, a.signedAt;
      signerInfo, metadata := a.signerInfo, a.metadata;
    }

    function View(): Snapshot
      reads this
    {
      Snapshot(terms, status, signature, signedAt, signerInfo, metadata)
    }

    method MarkSigned(signature: string, signer: string, now: int)
      modifies this
      ensures View() == SignedOf(old(View()), signature, signer, now)
      ensures status == Signed && this.signature == Some(signature) && signedAt == Some(now)
      ensures signerInfo == map["signer_id" := signer, "signer_name" := "System"] && metadata == old(metadata)
    {
      this.signature := Some(signature);
      signedAt := Some(now);
      status := Signed;
      signerInfo := map["signer_id" := signer, "signer_name" := "System"];
    }

    method MarkRevoked(reason: string, revoker: string, now: string)
      modifies this
      ensures View() == RevokedOf(old(View()), reason, revoker, now)
      ensures status == Revoked && signature == old(signature) && signedAt == old(signedAt)
      ensures signerInfo == old(signerInfo)
      ensures metadata == old(metadata)["revoked_at" := now]["revocation_reason" := reason]["revoked_by" := revoker]
    {
      status := Revoked;
      metadata := metadata["revoked_at" := now]["revocation_reason" := reason]["revoked_by" := revoker];
    }
  }

  ghost function Views(cache: map<string, Attestation>): map<string, Snapshot>
    reads cache.Values
  {
    map id | id in cache :: cache[id].View()
  }

  lemma ViewsOfUpdate(cache: map<string, Attestation>, id: string, a: Attestation)
    ensures Views(cache[id := a]) == Views(cache)[id := a.View()]
  {
  }

  /** `RegulatoryAttestationSigner`, with the stream it stores to. */
  class Signer {
    const c: Crypto
    var cache: map<string, Attestation>
    var stream: seq<Snapshot>

    constructor (c: Crypto)
      ensures this.c == c && Valid() && View() == EMPTY
    {
      this.c := c;
      cache, stream := map[], [];
    }

    /** Every cached object is filed under its own id. */
    ghost predicate Valid()
      reads this
    {
      forall id :: id in cache ==> cache[id].terms.id == id
    }

    ghost function View(): State
      reads this, cache.Values
    {
      State(Views(cache), stream)
    }

    method Store(a: Attestation)
      requires Valid()
      modifies this
      ensures Valid()
      ensures View() == Stored(old(View()), a.View())
      ensures stream == old(stream) + [a.View()] && cache == old(cache)[a.terms.id := a]
    {
      ViewsOfUpdate(cache, a.terms.id, a);
      stream := stream + [a.View()];
      cache := cache[a.terms.id := a];
    }

    method CreateAttestation(q: Request) returns (a: Attestation)
      requires Valid() && q.id !in cache
      modifies this
      ensures Valid() && fresh(a) && a.View() == DraftOf(c, q)
      ensures View() == Stored(old(View()), DraftOf(c, q))
      ensures AsRequested(a.terms, q) && a.status == Draft && a.metadata == q.metadata
      ensures a.signature == None && a.signedAt == None && a.signerInfo == map[]
      ensures a.terms.contentHash == c.sha(CreationText(c, a.terms, q.metadata))
      ensures cache == old(cache)[q.id := a] && stream == old(stream) + [a.View()]
    {
      var terms := Terms(q.id, q.framework, q.periodStart, q.periodEnd, q.entity, q.now, q.now + YEAR, q.rootHash, "");
      var contentHash := c.sha(CreationText(c, terms, q.metadata));
      a := new Attestation(Snapshot(terms.(contentHash := contentHash), Draft, None, None, map[], q.metadata));
      Store(a);
    }

    method GetAttestation(id: string) returns (a: Attestation?)
      requires Valid()
      modifies this
      ensures Valid() && stream == old(stream)
      ensures a == null <==> Fetch(old(View()), id).None?
      ensures a != null ==> a.terms.id == id && Some(a.View()) == Fetch(old(View()), id)
      ensures cache == if a == null then old(cache) else old(cache)[id := a]
      ensures id in old(cache) ==> a == old(cache)[id]
      ensures a != null && id !in old(cache) ==> fresh(a)
      ensures View() == AfterFetch(old(View()), id)
    {
      if id in cache {
        return cache[id];
      }
      var i := 0;
      while i < |stream| && i < SCAN_LIMIT
        invariant i <= |stream|
        invariant FirstStored(stream, id) == FirstStored(stream, id, i)
      {
        if stream[i].terms.id == id {
          a := new Attestation(stream[i]);
          ViewsOfUpdate(cache, id, a);
          cache := cache[id := a];
          return;
        }
        i := i + 1;
      }
      a := null;
    }

    method VerifyAttestation(id: string, now: int, currentRoot: string) returns (r: Option<Checks>)
      requires Valid()
      modifies this
      ensures Valid() && View() == AfterFetch(old(View()), id)
      ensures r == match Fetch(old(View()), id)
                   case None => None
                   case Some(a) => Some(ChecksOn(c, a, now, currentRoot))
      ensures r.Some? ==> id in cache && Checked(r.value, c, cache[id].View(), now, currentRoot)
    {
      var a := GetAttestation(id);
      if a == null {
        return None;
      }
      var text := SealText(c, a.terms);
      var contentOk := c.sha(text) == a.terms.contentHash;
      var signatureOk := false;
      if a.signature.Some? && a.signature.value != "" {
        signatureOk := c.verify(text, a.signature.value);
      }
      r := Some(Checks(a.status == Signed, !(now > a.terms.expiresAt), contentOk, signatureOk,
                       currentRoot == a.terms.rootHash));
    }

    /** The part of signing that follows the checks. */
    method SignAndStore(a: Attestation, signature: string, signer: string, now: int)
      requires Valid() && a.terms.id in cache && cache[a.terms.id] == a
      modifies this, a
      ensures Valid() && View() == Stored(old(View()), SignedOf(old(a.View()), signature, signer, now))
    {
      ghost var was := Views(cache);
      a.MarkSigned(signature, signer, now);
      assert Views(cache) == was[a.terms.id := a.View()] by {
        assert forall id :: id in cache && id != a.terms.id ==> cache[id] != a;
      }
      Store(a);
      assert Views(cache) == was[a.terms.id := a.View()];
    }

    /** The part of revoking that follows the checks. */
    method RevokeAndStore(a: Attestation, reason: string, revoker: string, now: string)
      requires Valid() && a.terms.id in cache && cache[a.terms.id] == a
      modifies this, a
      ensures Valid() && View() == Stored(old(View()), RevokedOf(old(a.View()), reason, revoker, now))
    {
      ghost var was := Views(cache);
      a.MarkRevoked(reason, revoker, now);
      assert Views(cache) == was[a.terms.id := a.View()] by {
        assert forall id :: id in cache && id != a.terms.id ==> cache[id] != a;
      }
      Store(a);
      assert Views(cache) == was[a.terms.id := a.View()];
    }

    method SignAttestation(id: string, signature: string, signer: string, now: int) returns (error: Option<Error>)
      requires Valid()
      modifies this, cache.Values
      ensures Valid()
      ensures (View(), error) == AfterSign(old(View()), id, signature, signer, now)
      ensures error.Some? ==> stream == old(stream)
      ensures error == None ==> |stream| == |old(stream)| + 1 && old(stream) <= stream
      ensures error == None ==> stream[|stream| - 1].terms.id == id
      ensures error == None ==> SignedBy(stream[|stream| - 1], signature, signer, now)
    {
      var a := GetAttestation(id);
      if a == null {
        return Some(NotFound);
      }
      if a.status != Draft {
        return Some(WrongStatus(a.status));
      }
      StoringOverridesFetch(old(View()), id, SignedOf(a.View(), signature, signer, now));
      SignAndStore(a, signature, signer, now);
      error := None;
    }

    method RevokeAttestation(id: string, reason: string, revoker: string, now: string) returns (error: Option<Error>)
      requires Valid()
      modifies this, cache.Values
      ensures Valid()
      ensures (View(), error) == AfterRevoke(old(View()), id, reason, revoker, now)
      ensures error.Some? ==> stream == old(stream)
      ensures error == None ==> |stream| == |old(stream)| + 1 && old(stream) <= stream
      ensures error == None ==> stream[|stream| - 1].terms.id == id
      ensures error == None ==> RevokedBy(stream[|stream| - 1], reason, revoker, now)
    {
      var a := GetAttestation(id);
      if a == null {
        return Some(NotFound);
      }
      if a.status != Signed {
        return Some(WrongStatus(a.status));
      }
      StoringOverridesFetch(old(View()), id, RevokedOf(a.View(), reason, revoker, now));
      RevokeAndStore(a, reason, revoker, now);
      error := None;
    }
  }

  // ----- Runs of one signer from an empty stream

  /** The stored events of one attestation, oldest first. */
  function History(stream: seq<Snapshot>, id: string): seq<Snapshot> {
    Filter(stream, (a: Snapshot) => a.terms.id == id)
  }

  lemma HistorySnoc(stream: seq<Snapshot>, a: Snapshot, id: string)
    ensures History(stream + [a], id)
         == if a.terms.id == id then History(stream, id) + [a] else History(stream, id)
  {
    FilterSnoc(stream, a, (b: Snapshot) => b.terms.id == id);
  }

  /** The status of the `n`-th stored event. */
  function Phase(n: nat): Status {
    if n == 0 then Draft else if n == 1 then Signed else Revoked
  }

  /**
   * At most one event for each status, in lifecycle order; the terms never change; a draft is
   * unsigned, and signature, time and signer are those of the one signing event ever after.
   */
  ghost predicate GoodHistory(h: seq<Snapshot>) {
    && 1 <= |h| <= 3
    && h[0].status == Draft && h[0].signature == None && h[0].signedAt == None
    && (|h| > 1 ==> h[1].status == Signed && h[1].terms == h[0].terms && h[1].metadata == h[0].metadata
                    && h[1].signature.Some? && h[1].signedAt.Some?)
    && (|h| > 2 ==> h[2].status == Revoked && h[2].terms == h[0].terms && h[2].signature == h[1].signature
                    && h[2].signedAt == h[1].signedAt && h[2].signerInfo == h[1].signerInfo)
  }

  /** The cached attestation is the last one stored, and its history keeps to the lifecycle. */
  ghost predicate InStep(st: State, id: string)
    requires id in st.cache
  {
    var h := History(st.stream, id);
    GoodHistory(h) && h[0].terms.id == id && h[|h| - 1] == st.cache[id]
  }

  ghost predicate Inv(st: State) {
    && (forall id :: id in st.cache ==> InStep(st, id))
    && (forall id :: id !in st.cache ==> History(st.stream, id) == [])
  }

  /** New attestations get ids that no stored event carries. */
  ghost predicate FreshIds(c: Crypto, st: State, ops: seq<Op>)
    decreases |ops|
  {
    ops == [] ||
    var before, op := ops[..|ops| - 1], ops[|ops| - 1];
    && FreshIds(c, st, before)
    && (op.Create? ==> op.request.id !in Run(c, st, before).cache)
  }

  function Run(c: Crypto, st: State, ops: seq<Op>): State
    decreases |ops|
  {
    if ops == [] then st else Apply(c, Run(c, st, ops[..|ops| - 1]), ops[|ops| - 1]).0
  }

  /** The scan of `get_attestation` reaches an event of `id`. */
  ghost predicate InReach(stream: seq<Snapshot>, id: string) {
    exists n :: 0 <= n < |stream| && n < SCAN_LIMIT && stream[n].terms.id == id
  }

  /** The scan finds the oldest event, or nothing when that lies too far on. */
  lemma {:induction false} ScanFindsOldest(stream: seq<Snapshot>, id: string, from: nat)
    requires from <= |stream|
    requires forall n :: 0 <= n < from ==> stream[n].terms.id != id
    ensures InReach(stream, id) ==>
              History(stream, id) != [] && FirstStored(stream, id, from) == Some(History(stream, id)[0])
    ensures !InReach(stream, id) ==> FirstStored(stream, id, from) == None
    decreases |stream| - from
  {
    if from < |stream| && from < SCAN_LIMIT {
      if stream[from].terms.id == id {
        OldestIsFirstOfHistory(stream, id, from);
      } else {
        ScanFindsOldest(stream, id, from + 1);
      }
    }
  }

  lemma {:induction false} OldestIsFirstOfHistory(stream: seq<Snapshot>, id: string, n: nat)
    requires n < |stream| && stream[n].terms.id == id
    requires forall i :: 0 <= i < n ==> stream[i].terms.id != id
    ensures History(stream, id) != [] && History(stream, id)[0] == stream[n]
    decreases |stream|
  {
    var before, last := stream[..|stream| - 1], stream[|stream| - 1];
    assert stream == before + [last];
    HistorySnoc(before, last, id);
    if n < |before| {
      OldestIsFirstOfHistory(before, id, n);
    } else {
      FilterNone(before, (a: Snapshot) => a.terms.id == id);
    }
  }

  lemma UnknownIsOutOfReach(stream: seq<Snapshot>, id: string)
    requires History(stream, id) == []
    ensures !InReach(stream, id)
  {
    forall n | 0 <= n < |stream|
      ensures stream[n].terms.id != id
    {
      assert stream[n] in stream && stream[n] !in History(stream, id);
    }
  }

  lemma StoringMakesStep(st: State, a: Snapshot, h: seq<Snapshot>)
    requires h == History(st.stream, a.terms.id) && GoodHistory(h + [a])
    ensures InStep(Stored(st, a), a.terms.id)
  {
    HistorySnoc(st.stream, a, a.terms.id);
    assert (h + [a])[0].terms.id == a.terms.id by {
      assert h != [] ==> h[0] in h;
    }
  }

  lemma StoringKeepsOthers(st: State, a: Snapshot, id: string)
    requires Inv(st) && id != a.terms.id
    ensures id in st.cache ==> InStep(Stored(st, a), id)
    ensures id !in st.cache ==> History(Stored(st, a).stream, id) == []
  {
    HistorySnoc(st.stream, a, id);
    if id in st.cache {
      assert InStep(st, id);
    }
  }

  lemma StoringExtendsHistory(st: State, a: Snapshot)
    requires Inv(st)
    requires GoodHistory(History(st.stream, a.terms.id) + [a])
    ensures Inv(Stored(st, a))
  {
    var st' := Stored(st, a);
    StoringMakesStep(st, a, History(st.stream, a.terms.id));
    forall id
      ensures id in st'.cache ==> InStep(st', id)
      ensures id !in st'.cache ==> History(st'.stream, id) == []
    {
      if id != a.terms.id {
        StoringKeepsOthers(st, a, id);
      }
    }
  }

  lemma FetchOfKnown(st: State, id: string)
    requires Inv(st)
    ensures Fetch(st, id) == if id in st.cache then Some(st.cache[id]) else None
    ensures AfterFetch(st, id) == st
  {
    if id !in st.cache {
      ScanFindsOldest(st.stream, id, 0);
      UnknownIsOutOfReach(st.stream, id);
    } else {
      assert st.cache[id := st.cache[id]] == st.cache;
    }
  }

  lemma SigningKeepsInv(st: State, id: string, signature: string, signer: string, now: int)
    requires Inv(st)
    ensures var (st', error) := AfterSign(st, id, signature, signer, now);
            Inv(st') && st.stream <= st'.stream && (error.Some? ==> st' == st)
  {
    FetchOfKnown(st, id);
    if id in st.cache && st.cache[id].status == Draft {
      assert InStep(st, id);
      StoringExtendsHistory(st, SignedOf(st.cache[id], signature, signer, now));
    }
  }

  lemma RevokingKeepsInv(st: State, id: string, reason: string, revoker: string, now: string)
    requires Inv(st)
    ensures var (st', error) := AfterRevoke(st, id, reason, revoker, now);
            Inv(st') && st.stream <= st'.stream && (error.Some? ==> st' == st)
  {
    FetchOfKnown(st, id);
    if id in st.cache && st.cache[id].status == Signed {
      assert InStep(st, id);
      StoringExtendsHistory(st, RevokedOf(st.cache[id], reason, revoker, now));
    }
  }

  /** No operation breaks the lifecycle, rewrites the stream, or changes anything when it fails. */
  lemma ApplyKeepsInv(c: Crypto, st: State, op: Op)
    requires Inv(st) && (op.Create? ==> op.request.id !in st.cache)
    ensures Inv(Apply(c, st, op).0)
    ensures st.stream <= Apply(c, st, op).0.stream
    ensures Apply(c, st, op).1.Some? ==> Apply(c, st, op).0 == st
  {
    match op
    case Create(q) => StoringExtendsHistory(st, DraftOf(c, q));
    case Sign(id, signature, signer, now) => SigningKeepsInv(st, id, signature, signer, now);
    case Revoke(id, reason, revoker, now) => RevokingKeepsInv(st, id, reason, revoker, now);
    case Get(id) => FetchOfKnown(st, id);
  }

  /** Whatever is created, signed, revoked and read, every attestation keeps to the lifecycle. */
  lemma {:induction false} LifecycleHolds(c: Crypto, ops: seq<Op>)
    requires FreshIds(c, EMPTY, ops)
    ensures Inv(Run(c, EMPTY, ops))
    decreases |ops|
  {
    if ops != [] {
      var before := ops[..|ops| - 1];
      LifecycleHolds(c, before);
      ApplyKeepsInv(c, Run(c, EMPTY, before), ops[|ops| - 1]);
    }
  }

  /** Signing succeeds exactly on stored drafts, revoking exactly on signed attestations. */
  lemma OutcomesFollowHistory(c: Crypto, st: State, id: string, text: string, who: string, now: int, when: string)
    requires Inv(st)
    ensures var n := |History(st.stream, id)|;
            && Apply(c, st, Sign(id, text, who, now)).1
               == (if n == 0 then Some(NotFound) else if n == 1 then None else Some(WrongStatus(Phase(n - 1))))
            && Apply(c, st, Revoke(id, text, who, when)).1
               == (if n == 0 then Some(NotFound) else if n == 2 then None else Some(WrongStatus(Phase(n - 1))))
  {
    FetchOfKnown(st, id);
    if id in st.cache {
      assert InStep(st, id);
    }
  }

  // ----- What was asked for stays

  lemma {:induction false} FreshPrefix(c: Crypto, ops: seq<Op>, n: nat)
    requires FreshIds(c, EMPTY, ops) && n <= |ops|
    ensures FreshIds(c, EMPTY, ops[..n])
    decreases |ops|
  {
    if n < |ops| {
      assert ops[..|ops| - 1][..n] == ops[..n];
      FreshPrefix(c, ops[..|ops| - 1], n);
    } else {
      assert ops[..n] == ops;
    }
  }

  lemma HistoryGrows(before: seq<Snapshot>, after: seq<Snapshot>, id: string)
    requires before <= after
    ensures History(before, id) <= History(after, id)
  {
    var rest := after[|before|..];
    assert after == before + rest;
    FilterAppend(before, rest, (a: Snapshot) => a.terms.id == id);
  }

  /** What a run has stored for an attestation stays at the head of its history. */
  lemma {:induction false} HistoryStays(c: Crypto, ops: seq<Op>, n: nat, id: string)
    requires FreshIds(c, EMPTY, ops) && n <= |ops|
    ensures History(Run(c, EMPTY, ops[..n]).stream, id) <= History(Run(c, EMPTY, ops).stream, id)
    decreases |ops|
  {
    if n < |ops| {
      var before, op := ops[..|ops| - 1], ops[|ops| - 1];
      assert before[..n] == ops[..n];
      HistoryStays(c, before, n, id);
      LifecycleHolds(c, before);
      ApplyKeepsInv(c, Run(c, EMPTY, before), op);
      HistoryGrows(Run(c, EMPTY, before).stream, Run(c, EMPTY, ops).stream, id);
    } else {
      assert ops[..n] == ops;
    }
  }

  /** An operation that succeeds stores one event, and this is the next of its attestation for good. */
  lemma NextOfHistory(c: Crypto, ops: seq<Op>, i: nat, a: Snapshot)
    requires FreshIds(c, EMPTY, ops) && i < |ops|
    requires Apply(c, Run(c, EMPTY, ops[..i]), ops[i]).0 == Stored(Run(c, EMPTY, ops[..i]), a)
    ensures var n := |History(Run(c, EMPTY, ops[..i]).stream, a.terms.id)|;
            n < |History(Run(c, EMPTY, ops).stream, a.terms.id)| &&
            History(Run(c, EMPTY, ops).stream, a.terms.id)[n] == a
  {
    var was := Run(c, EMPTY, ops[..i]);
    assert ops[..i + 1][..i] == ops[..i];
    HistorySnoc(was.stream, a, a.terms.id);
    HistoryStays(c, ops, i + 1, a.terms.id);
  }

  lemma KnownTerms(st: State, id: string)
    requires Inv(st) && History(st.stream, id) != []
    ensures id in st.cache && st.cache[id].terms == History(st.stream, id)[0].terms
    ensures forall a :: a in History(st.stream, id) ==> a.terms == History(st.stream, id)[0].terms
  {
    assert InStep(st, id);
  }

  /** A created attestation keeps the terms of its request, in the cache and in every stored event. */
  lemma CreationIsKept(c: Crypto, ops: seq<Op>, i: nat)
    requires FreshIds(c, EMPTY, ops) && i < |ops| && ops[i].Create?
    ensures var q := ops[i].request; var st := Run(c, EMPTY, ops); var h := History(st.stream, q.id);
            && q.id in st.cache && AsRequested(st.cache[q.id].terms, q)
            && h != [] && h[0].metadata == q.metadata
            && forall a :: a in h ==> AsRequested(a.terms, q)
  {
    var q, was := ops[i].request, Run(c, EMPTY, ops[..i]);
    FreshPrefix(c, ops, i + 1);
    assert ops[..i + 1][..i] == ops[..i];
    LifecycleHolds(c, ops[..i]);
    NextOfHistory(c, ops, i, DraftOf(c, q));
    LifecycleHolds(c, ops);
    KnownTerms(Run(c, EMPTY, ops), q.id);
  }

  /** What a successful signature stores, and what was there before. */
  lemma SignedFrom(c: Crypto, was: State, op: Op) returns (a: Snapshot)
    requires Inv(was) && op.Sign? && Apply(c, was, op).1 == None
    ensures Apply(c, was, op).0 == Stored(was, a) && a.terms.id == op.id && |History(was.stream, op.id)| == 1
    ensures SignedBy(a, op.signature, op.signer, op.signTime)
  {
    FetchOfKnown(was, op.id);
    assert InStep(was, op.id);
    a := SignedOf(was.cache[op.id], op.signature, op.signer, op.signTime);
  }

  /** A successful signature is the second event of its attestation and is on all that follow. */
  lemma SigningIsKept(c: Crypto, ops: seq<Op>, i: nat)
    requires FreshIds(c, EMPTY, ops) && i < |ops| && ops[i].Sign?
    requires Apply(c, Run(c, EMPTY, ops[..i]), ops[i]).1 == None
    ensures var op := ops[i]; var h := History(Run(c, EMPTY, ops).stream, op.id);
            && |h| > 1 && SignedBy(h[1], op.signature, op.signer, op.signTime)
            && (|h| > 2 ==> SignedBy(h[2].(status := Signed), op.signature, op.signer, op.signTime))
  {
    FreshPrefix(c, ops, i);
    LifecycleHolds(c, ops[..i]);
    var a := SignedFrom(c, Run(c, EMPTY, ops[..i]), ops[i]);
    NextOfHistory(c, ops, i, a);
    LifecycleHolds(c, ops);
    LastOfThree(Run(c, EMPTY, ops), ops[i].id);
  }

  lemma LastOfThree(st: State, id: string)
    requires Inv(st)
    ensures var h := History(st.stream, id);
            |h| > 2 ==> h[2].status == Revoked && h[2].signature == h[1].signature &&
                        h[2].signedAt == h[1].signedAt && h[2].signerInfo == h[1].signerInfo
  {
    if id in st.cache {
      assert InStep(st, id);
    }
  }

  /** `after` is `before` but for the three keys of a revocation. */
  ghost predicate OthersKept(before: map<string, string>, after: map<string, string>) {
    forall key :: key != "revoked_at" && key != "revocation_reason" && key != "revoked_by" ==>
      (key in after <==> key in before) && (key in before ==> after[key] == before[key])
  }

  lemma RevokedFrom(c: Crypto, was: State, op: Op) returns (a: Snapshot)
    requires Inv(was) && op.Revoke? && Apply(c, was, op).1 == None
    ensures Apply(c, was, op).0 == Stored(was, a) && a.terms.id == op.id && |History(was.stream, op.id)| == 2
    ensures RevokedBy(a, op.reason, op.revoker, op.revokeTime)
    ensures OthersKept(History(was.stream, op.id)[0].metadata, a.metadata)
  {
    FetchOfKnown(was, op.id);
    assert InStep(was, op.id);
    a := RevokedOf(was.cache[op.id], op.reason, op.revoker, op.revokeTime);
  }

  /** A successful revocation is the third event, with its reason and the metadata of the draft. */
  lemma RevocationIsKept(c: Crypto, ops: seq<Op>, i: nat)
    requires FreshIds(c, EMPTY, ops) && i < |ops| && ops[i].Revoke?
    requires Apply(c, Run(c, EMPTY, ops[..i]), ops[i]).1 == None
    ensures var op := ops[i]; var h := History(Run(c, EMPTY, ops).stream, op.id);
            && |h| == 3 && RevokedBy(h[2], op.reason, op.revoker, op.revokeTime)
            && OthersKept(h[0].metadata, h[2].metadata)
  {
    FreshPrefix(c, ops, i);
    LifecycleHolds(c, ops[..i]);
    var a := RevokedFrom(c, Run(c, EMPTY, ops[..i]), ops[i]);
    NextOfHistory(c, ops, i, a);
    HistoryStays(c, ops, i, ops[i].id);
    LifecycleHolds(c, ops);
    AtMostThree(Run(c, EMPTY, ops), ops[i].id);
  }

  lemma AtMostThree(st: State, id: string)
    requires Inv(st)
    ensures |History(st.stream, id)| <= 3
  {
    if id in st.cache {
      assert InStep(st, id);
    }
  }

  // ----- A second signer on the same stream

  /**
   * A signer with an empty cache finds the draft, however old, and nothing when that lies past the
   * scan's limit: it sees the present attestation exactly while nothing followed a draft in reach.
   */
  lemma RestartReadsTheDraft(st: State, id: string)
    requires Inv(st) && id in st.cache
    ensures History(st.stream, id) != []
    ensures Fetch(State(map[], st.stream), id)
         == if InReach(st.stream, id) then Some(History(st.stream, id)[0]) else None
    ensures Fetch(State(map[], st.stream), id) == Some(st.cache[id])
       <==> |History(st.stream, id)| == 1 && InReach(st.stream, id)
  {
    ScanFindsOldest(st.stream, id, 0);
    assert InStep(st, id);
  }

  /** Such a signer signs anew whatever is in reach; only a draft keeps to the lifecycle then. */
  lemma RestartSignsAgain(c: Crypto, st: State, id: string, signature: string, signer: string, now: int)
    requires Inv(st) && id in st.cache
    ensures var (st', error) := Apply(c, State(map[], st.stream), Sign(id, signature, signer, now));
            && error == (if InReach(st.stream, id) then None else Some(NotFound))
            && (GoodHistory(History(st'.stream, id)) <==> !InReach(st.stream, id) || |History(st.stream, id)| == 1)
  {
    RestartReadsTheDraft(st, id);
    assert InStep(st, id);
    var h := History(st.stream, id);
    HistorySnoc(st.stream, SignedOf(h[0], signature, signer, now), id);
  }

  /** And it can never revoke, not even what is signed. */
  lemma RestartNeverRevokes(c: Crypto, st: State, id: string, reason: string, revoker: string, now: string)
    requires Inv(st) && id in st.cache
    ensures var (st', error) := Apply(c, State(map[], st.stream), Revoke(id, reason, revoker, now));
            && error == Some(if InReach(st.stream, id) then WrongStatus(Draft) else NotFound)
            && st'.stream == st.stream
  {
    RestartReadsTheDraft(st, id);
    assert InStep(st, id);
  }

  // ----- What verification says of the attestations of a run

  /** A draft carries the digest of its creation text. */
  predicate DraftIsHashed(c: Crypto, a: Snapshot) {
    a.status == Draft ==> a.terms.contentHash == c.sha(CreationText(c, a.terms, a.metadata))
  }

  lemma {:induction false} StoredDraftsAreHashed(c: Crypto, st: State, ops: seq<Op>)
    requires forall a :: a in st.stream ==> DraftIsHashed(c, a)
    ensures forall a :: a in Run(c, st, ops).stream ==> DraftIsHashed(c, a)
    decreases |ops|
  {
    if ops != [] {
      StoredDraftsAreHashed(c, st, ops[..|ops| - 1]);
      OneMoreDraftIsHashed(c, Run(c, st, ops[..|ops| - 1]), ops[|ops| - 1]);
    }
  }

  lemma OneMoreDraftIsHashed(c: Crypto, st: State, op: Op)
    requires forall a :: a in st.stream ==> DraftIsHashed(c, a)
    ensures forall a :: a in Apply(c, st, op).0.stream ==> DraftIsHashed(c, a)
  {
    if op.Create? {
      assert DraftIsHashed(c, DraftOf(c, op.request));
    }
  }

  /** The draft of a known attestation is stored, with the terms of the cached object. */
  lemma DraftOfCached(st: State, id: string) returns (draft: Snapshot)
    requires Inv(st) && id in st.cache
    ensures History(st.stream, id) != [] && draft == History(st.stream, id)[0]
    ensures draft in st.stream && draft.status == Draft && draft.terms == st.cache[id].terms
  {
    assert InStep(st, id);
    draft := History(st.stream, id)[0];
    assert draft in History(st.stream, id);
  }

  /** The content hash of an attestation is the digest of its creation text, with the draft's metadata. */
  lemma ContentHashIsOfCreation(c: Crypto, ops: seq<Op>, id: string)
    requires FreshIds(c, EMPTY, ops) && id in Run(c, EMPTY, ops).cache
    ensures History(Run(c, EMPTY, ops).stream, id) != []
    ensures var st := Run(c, EMPTY, ops); var a := st.cache[id];
            a.terms.contentHash == c.sha(CreationText(c, a.terms, History(st.stream, id)[0].metadata))
  {
    LifecycleHolds(c, ops);
    StoredDraftsAreHashed(c, EMPTY, ops);
    var draft := DraftOfCached(Run(c, EMPTY, ops), id);
    assert DraftIsHashed(c, draft);
  }

  /** `texts` holds both texts that creating and verifying the stored attestations hash. */
  ghost predicate HoldsTexts(c: Crypto, stream: seq<Snapshot>, texts: set<string>) {
    forall a :: a in stream ==> CreationText(c, a.terms, a.metadata) in texts && SealText(c, a.terms) in texts
  }

  lemma DraftFailsContentCheck(c: Crypto, draft: Snapshot, texts: set<string>)
    requires draft.status == Draft && DraftIsHashed(c, draft)
    requires Faithful(c) && CollisionFreeOn(c.sha, texts) && HoldsTexts(c, [draft], texts)
    ensures c.sha(SealText(c, draft.terms)) != draft.terms.contentHash
  {
    assert draft in [draft];
    assert SealText(c, draft.terms) != CreationText(c, draft.terms, draft.metadata);
  }

  /**
   * Verification compares the content hash with the digest of another dictionary: whatever was
   * created, signed, revoked and read, no attestation ever passes, short of a collision.
   */
  lemma VerificationNeverPasses(c: Crypto, ops: seq<Op>, id: string, now: int, currentRoot: string, texts: set<string>)
    requires FreshIds(c, EMPTY, ops) && id in Run(c, EMPTY, ops).cache
    requires Faithful(c) && CollisionFreeOn(c.sha, texts) && HoldsTexts(c, Run(c, EMPTY, ops).stream, texts)
    ensures var checks := ChecksOn(c, Run(c, EMPTY, ops).cache[id], now, currentRoot);
            !checks.contentHash && !checks.IsValid()
  {
    LifecycleHolds(c, ops);
    StoredDraftsAreHashed(c, EMPTY, ops);
    var draft := DraftOfCached(Run(c, EMPTY, ops), id);
    DraftFailsContentCheck(c, draft, texts);
  }

  /** The signer accepts the signature it is asked for. */
  ghost predicate SignatureFits(c: Crypto, st: State, op: Op) {
    op.Sign? && op.id in st.cache && st.cache[op.id].status == Draft ==>
      op.signature != "" && c.verify(SealText(c, st.cache[op.id].terms), op.signature)
  }

  ghost predicate SignaturesFit(c: Crypto, st: State, ops: seq<Op>)
    decreases |ops|
  {
    ops == [] ||
    var before := ops[..|ops| - 1];
    SignaturesFit(c, st, before) && SignatureFits(c, Run(c, st, before), ops[|ops| - 1])
  }

  ghost predicate SignaturesHold(c: Crypto, st: State) {
    forall id :: id in st.cache && st.cache[id].signature.Some? ==> SignatureOk(c, st.cache[id])
  }

  lemma StoringKeepsSignatures(c: Crypto, st: State, a: Snapshot)
    requires SignaturesHold(c, st) && (a.signature.Some? ==> SignatureOk(c, a))
    ensures SignaturesHold(c, Stored(st, a))
  {
  }

  lemma StepKeepsSignatures(c: Crypto, st: State, op: Op)
    requires Inv(st) && SignaturesHold(c, st) && SignatureFits(c, st, op)
    ensures SignaturesHold(c, Apply(c, st, op).0)
  {
    match op
    case Create(q) => StoringKeepsSignatures(c, st, DraftOf(c, q));
    case Sign(id, signature, signer, now) =>
      FetchOfKnown(st, id);
      if id in st.cache && st.cache[id].status == Draft {
        StoringKeepsSignatures(c, st, SignedOf(st.cache[id], signature, signer, now));
      }
    case Revoke(id, reason, revoker, now) =>
      FetchOfKnown(st, id);
      if id in st.cache && st.cache[id].status == Signed {
        StoringKeepsSignatures(c, st, RevokedOf(st.cache[id], reason, revoker, now));
      }
    case Get(id) => FetchOfKnown(st, id);
  }

  lemma {:induction false} RunKeepsSignatures(c: Crypto, ops: seq<Op>)
    requires FreshIds(c, EMPTY, ops) && SignaturesFit(c, EMPTY, ops)
    ensures SignaturesHold(c, Run(c, EMPTY, ops))
    decreases |ops|
  {
    if ops != [] {
      var before := ops[..|ops| - 1];
      RunKeepsSignatures(c, before);
      LifecycleHolds(c, before);
      StepKeepsSignatures(c, Run(c, EMPTY, before), ops[|ops| - 1]);
    }
  }

  lemma SignedIff(c: Crypto, st: State, id: string)
    requires Inv(st) && SignaturesHold(c, st) && id in st.cache
    ensures SignatureOk(c, st.cache[id]) <==> |History(st.stream, id)| > 1
  {
    assert InStep(st, id);
  }

  /** The signature check, on the contrary, passes for exactly the attestations that were signed, revoked or not. */
  lemma SignatureCheckIsExact(c: Crypto, ops: seq<Op>, id: string, now: int, currentRoot: string)
    requires FreshIds(c, EMPTY, ops) && SignaturesFit(c, EMPTY, ops) && id in Run(c, EMPTY, ops).cache
    ensures ChecksOn(c, Run(c, EMPTY, ops).cache[id], now, currentRoot).signature
       <==> |History(Run(c, EMPTY, ops).stream, id)| > 1
  {
    LifecycleHolds(c, ops);
    RunKeepsSignatures(c, ops);
    SignedIff(c, Run(c, EMPTY, ops), id);
  }
}
