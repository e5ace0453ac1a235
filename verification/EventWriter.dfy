/** The audit event writer and its two streams (audit/event_writer_immutable.py). */
module EventWriter {
  import opened Basics
  import opened Hashing
  import HashChain
  import TamperAlarm

  // ----- Records and what the store makes of them

  datatype StreamName = Audit | Security

  predicate StartsWith(s: string, prefix: string) {
    prefix <= s
  }

  /** `_get_stream_name` */
  function StreamOf(eventType: string): StreamName {
    if StartsWith(eventType, "security.") || StartsWith(eventType, "auth.") || StartsWith(eventType, "access.")
    then Security else Audit
  }

  /** Security events are those of three families of types, and no others. */
  lemma SecurityTypes(eventType: string)
    ensures StreamOf(eventType) == Security <==>
            exists rest :: eventType == "security." + rest || eventType == "auth." + rest ||
                           eventType == "access." + rest
  {
    if StreamOf(eventType) == Security {
      if "security." <= eventType {
        assert eventType == "security." + eventType[9..];
      } else if "auth." <= eventType {
        assert eventType == "auth." + eventType[5..];
      } else {
        assert eventType == "access." + eventType[7..];
      }
    }
  }

  /** `payload` is the canonical JSON text of the fields that are only carried and hashed. */
  datatype Record = Record(eventType: string, payload: string, previous: string, hash: string)

  /** The writer hashes the record's own fields, not the shape the chain builder hashes. */
  datatype Content = Content(eventType: string, payload: string, previous: string)

  /**
   * A stored event: the record, the metadata and time the store adds, the hash stored before, and
   * the store's own hash, which is what a later read of the last event returns.
   */
  datatype Event = Event(record: Record, meta: string, previous: string, hash: string)

  /** What the store serialises and hashes. */
  datatype StoreContent = StoreContent(record: Record, meta: string, previous: string)

  datatype Tools = Tools(sha: Sha, json: Content -> string, storeJson: StoreContent -> string)

  const STORE_SEED := "EVENT_STORE_GENESIS_2025"

  function Genesis(k: Tools): string {
    k.sha(HashChain.GENESIS_SEED)
  }

  function StoreGenesis(k: Tools): string {
    k.sha(STORE_SEED)
  }

  function RecordHash(k: Tools, eventType: string, payload: string, previous: string): string {
    k.sha(k.json(Content(eventType, payload, previous)))
  }

  function StoreText(k: Tools, r: Record, meta: string, previous: string): string {
    k.storeJson(StoreContent(r, meta, previous))
  }

  /** The store's `_compute_hash`: the digest of the whole record and what it adds. */
  function Seal(k: Tools, r: Record, meta: string, previous: string): string {
    k.sha(StoreText(k, r, meta, previous))
  }

  /** `_build_event_record` */
  function BuildRecord(k: Tools, eventType: string, payload: string, previous: string): Record {
    Record(eventType, payload, previous, RecordHash(k, eventType, payload, previous))
  }

  /** Two records that the digest tells apart carry one hash exactly if they agree in what the writer hashes. */
  lemma RecordHashBinds(k: Tools, r: Record, q: Record)
    requires Faithful(k) && CollisionFreeOn(k.sha, {RecordText(k, r), RecordText(k, q)})
    requires r.hash == RecordHash(k, r.eventType, r.payload, r.previous)
    requires q.hash == RecordHash(k, q.eventType, q.payload, q.previous)
    ensures r.hash == q.hash <==> r.eventType == q.eventType && r.payload == q.payload && r.previous == q.previous
  {
    assert r.hash == k.sha(RecordText(k, r)) && q.hash == k.sha(RecordText(k, q));
    assert k.json(Content(r.eventType, r.payload, r.previous)) == RecordText(k, r);
  }

  /** `_get_last_hash`: the last event's hash, or the audit genesis hash. */
  function LastHash(k: Tools, s: seq<Event>): string {
    if s == [] then Genesis(k) else s[|s| - 1].hash
  }

  /** What the store itself links to; it has a genesis hash of its own. */
  function StoreLastHash(k: Tools, s: seq<Event>): string {
    if s == [] then StoreGenesis(k) else s[|s| - 1].hash
  }

  function Appended(k: Tools, s: seq<Event>, r: Record, meta: string): seq<Event> {
    var previous := StoreLastHash(k, s);
    s + [Event(r, meta, previous, Seal(k, r, meta, previous))]
  }

  // ----- Chained streams

  /** The event continues the stream before it: the record links to the last hash that was readable. */
  predicate Continues(k: Tools, before: seq<Event>, e: Event) {
    && e.record == BuildRecord(k, e.record.eventType, e.record.payload, LastHash(k, before))
    && e.previous == StoreLastHash(k, before)
    && e.hash == Seal(k, e.record, e.meta, e.previous)
  }

  predicate LinkedAt(k: Tools, s: seq<Event>, i: nat)
    requires i < |s|
  {
    Continues(k, s[..i], s[i])
  }

  ghost predicate Linked(k: Tools, s: seq<Event>) {
    forall i: nat :: i < |s| ==> LinkedAt(k, s, i)
  }

  lemma LinkedSnoc(k: Tools, s: seq<Event>, e: Event)
    requires Linked(k, s)
    ensures Linked(k, s + [e]) <==> Continues(k, s, e)
  {
    var all := s + [e];
    assert all[..|s|] == s;
    forall i: nat | i < |s|
      ensures LinkedAt(k, all, i)
    {
      assert LinkedAt(k, s, i) && all[..i] == s[..i];
    }
    assert LinkedAt(k, all, |s|) <==> Continues(k, s, e);
  }

  /** Every record names the hash its stored event names, except that the first starts from the audit genesis. */
  lemma RecordsFollowTheStore(k: Tools, s: seq<Event>, i: nat)
    requires Linked(k, s) && i < |s|
    ensures s[i].record.previous == if i == 0 then Genesis(k) else s[i].previous
    ensures s[i].previous == if i == 0 then StoreGenesis(k) else s[i - 1].hash
    ensures s[i].record.hash == RecordHash(k, s[i].record.eventType, s[i].record.payload, s[i].record.previous)
  {
    assert LinkedAt(k, s, i);
  }

  // ----- The protocol: reading the last hash and appending are separate steps

  /** A write that has read the last hash and not yet appended. */
  datatype Pending = Pending(eventType: string, payload: string, readHash: string)

  datatype State = State(streams: map<StreamName, seq<Event>>, inFlight: map<nat, Pending>, writeCount: nat)

  const START := State(map[Audit := [], Security := []], map[], 0)

  datatype Step =
    | Read(write: nat, eventType: string, payload: string)
    | Append(write: nat, meta: string)

  /** Some write on `name` is under way. */
  ghost predicate Busy(st: State, name: StreamName) {
    exists w :: w in st.inFlight && StreamOf(st.inFlight[w].eventType) == name
  }

  ghost predicate Enabled(st: State, step: Step) {
    match step
    case Read(w, _, _) => w !in st.inFlight
    case Append(w, _) => w in st.inFlight
  }

  /** No write starts on a stream on which another is under way. */
  ghost predicate Exclusive(st: State, step: Step) {
    step.Read? ==> !Busy(st, StreamOf(step.eventType))
  }

  function Next(k: Tools, st: State, step: Step): State
    requires Audit in st.streams && Security in st.streams
    requires Enabled(st, step)
  {
    match step
    case Read(w, eventType, payload) =>
      var last := LastHash(k, st.streams[StreamOf(eventType)]);
      st.(inFlight := st.inFlight[w := Pending(eventType, payload, last)])
    case Append(w, meta) =>
      var p := st.inFlight[w];
      var name := StreamOf(p.eventType);
      var r := BuildRecord(k, p.eventType, p.payload, p.readHash);
      State(st.streams[name := Appended(k, st.streams[name], r, meta)], st.inFlight - {w}, st.writeCount + 1)
  }

  /** The event holds what was asked for, and names the hashes that were last. */
  ghost predicate Holds(k: Tools, e: Event, eventType: string, payload: string, meta: string, readHash: string,
                        stored: string) {
    && e.record.eventType == eventType && e.record.payload == payload && e.record.previous == readHash
    && e.record.hash == k.sha(k.json(Content(eventType, payload, readHash)))
    && e.meta == meta && e.previous == stored && e.hash == k.sha(k.storeJson(StoreContent(e.record, meta, stored)))
  }

  /** `now` is `was` and one event more, which holds what was asked for and continues `was`. */
  ghost predicate Adds(k: Tools, was: seq<Event>, now: seq<Event>, eventType: string, payload: string, meta: string) {
    && |now| == |was| + 1 && was <= now
    && Holds(k, now[|was|], eventType, payload, meta, LastHash(k, was), StoreLastHash(k, was))
  }

  /**
   * An append adds one event to the stream of its type and none to the other; it holds the type and
   * payload of its write and the hash this had read.
   */
  lemma AppendStores(k: Tools, st: State, w: nat, meta: string)
    requires Inv(k, st) && w in st.inFlight
    ensures var st' := Next(k, st, Append(w, meta));
            var p := st.inFlight[w];
            var name := StreamOf(p.eventType);
            var s, t := st.streams[name], st'.streams[name];
            && |t| == |s| + 1 && s <= t
            && Holds(k, t[|s|], p.eventType, p.payload, meta, p.readHash, StoreLastHash(k, s))
            && forall other :: other in st.streams && other != name ==> st'.streams[other] == st.streams[other]
    ensures Next(k, st, Append(w, meta)).writeCount == st.writeCount + 1
    ensures forall v :: v in Next(k, st, Append(w, meta)).inFlight <==> v in st.inFlight && v != w
  {
  }

  /** A read changes no stream and remembers what was asked for and the last hash of its stream. */
  lemma ReadRemembers(k: Tools, st: State, w: nat, eventType: string, payload: string)
    requires Inv(k, st) && w !in st.inFlight
    ensures var st' := Next(k, st, Read(w, eventType, payload));
            && st'.streams == st.streams && st'.writeCount == st.writeCount && w in st'.inFlight
            && st'.inFlight[w].eventType == eventType && st'.inFlight[w].payload == payload
            && st'.inFlight[w].readHash == LastHash(k, st.streams[StreamOf(eventType)])
  {
  }

  ghost predicate Routed(s: seq<Event>, name: StreamName) {
    forall e :: e in s ==> StreamOf(e.record.eventType) == name
  }

  ghost predicate StreamOk(k: Tools, s: seq<Event>, name: StreamName) {
    Linked(k, s) && Routed(s, name)
  }

  /** Both streams are linked from genesis, every event is in its stream, and all writes are counted. */
  ghost predicate Inv(k: Tools, st: State) {
    && st.streams.Keys == {Audit, Security}
    && StreamOk(k, st.streams[Audit], Audit)
    && StreamOk(k, st.streams[Security], Security)
    && st.writeCount == |st.streams[Audit]| + |st.streams[Security]|
  }

  /** One write at most per stream, and what it read is still the last hash. */
  ghost predicate Current(k: Tools, st: State)
    requires st.streams.Keys == {Audit, Security}
  {
    && (forall v, w :: v in st.inFlight && w in st.inFlight && v != w ==>
          StreamOf(st.inFlight[v].eventType) != StreamOf(st.inFlight[w].eventType))
    && (forall w :: w in st.inFlight ==>
          st.inFlight[w].readHash == LastHash(k, st.streams[StreamOf(st.inFlight[w].eventType)]))
  }

  /** An append keeps its stream linked exactly when the hash it read is still the last one. */
  lemma AppendLinksIff(k: Tools, st: State, w: nat, meta: string)
    requires Inv(k, st) && w in st.inFlight
    ensures var p := st.inFlight[w];
            Inv(k, Next(k, st, Append(w, meta))) <==> p.readHash == LastHash(k, st.streams[StreamOf(p.eventType)])
  {
    var p := st.inFlight[w];
    var name := StreamOf(p.eventType);
    AppendedLinksIff(k, st.streams[name], p, meta);
  }

  lemma AppendedLinksIff(k: Tools, s: seq<Event>, p: Pending, meta: string)
    requires StreamOk(k, s, StreamOf(p.eventType))
    ensures var all := Appended(k, s, BuildRecord(k, p.eventType, p.payload, p.readHash), meta);
            && (StreamOk(k, all, StreamOf(p.eventType)) <==> p.readHash == LastHash(k, s))
            && |all| == |s| + 1
  {
    var r := BuildRecord(k, p.eventType, p.payload, p.readHash);
    var previous := StoreLastHash(k, s);
    LinkedSnoc(k, s, Event(r, meta, previous, Seal(k, r, meta, previous)));
  }

  lemma StepKeepsInv(k: Tools, st: State, step: Step)
    requires Inv(k, st) && Current(k, st) && Enabled(st, step) && Exclusive(st, step)
    ensures Inv(k, Next(k, st, step)) && Current(k, Next(k, st, step))
    ensures forall name :: name in st.streams ==> st.streams[name] <= Next(k, st, step).streams[name]
  {
    match step
    case Read(w, eventType, payload) =>
    case Append(w, meta) =>
      AppendLinksIff(k, st, w, meta);
  }

  /** The states of every run whose writes exclude each other per stream. */
  ghost predicate Reachable(k: Tools, steps: seq<Step>, st: State)
    decreases |steps|
  {
    if steps == [] then st == START
    else
      exists was: State ::
        && Reachable(k, steps[..|steps| - 1], was)
        && was.streams.Keys == {Audit, Security}
        && Enabled(was, steps[|steps| - 1]) && Exclusive(was, steps[|steps| - 1])
        && st == Next(k, was, steps[|steps| - 1])
  }

  /** However writes on the two streams interleave, both stay chained and every write is counted. */
  lemma {:induction false} StreamsStayChained(k: Tools, steps: seq<Step>, st: State)
    requires Reachable(k, steps, st)
    ensures Inv(k, st) && Current(k, st)
    decreases |steps|
  {
    if steps != [] {
      var before, step := steps[..|steps| - 1], steps[|steps| - 1];
      var was: State :| Reachable(k, before, was) && was.streams.Keys == {Audit, Security} &&
        Enabled(was, step) && Exclusive(was, step) && st == Next(k, was, step);
      StreamsStayChained(k, before, was);
      StepKeepsInv(k, was, step);
    }
  }

  /** Two writes that overlap on one stream leave it chained only if the first changed no hash. */
  lemma OverlapForks(k: Tools, st: State, v: nat, w: nat, p: Step, q: Step, m: string, n: string)
    requires Inv(k, st) && v != w && v !in st.inFlight && w !in st.inFlight
    requires p.Read? && p.write == v && q.Read? && q.write == w
    requires StreamOf(p.eventType) == StreamOf(q.eventType)
    ensures var one := Next(k, Next(k, Next(k, st, p), q), Append(v, m));
            var s := st.streams[StreamOf(p.eventType)];
            Inv(k, Next(k, one, Append(w, n))) <==>
            Seal(k, BuildRecord(k, p.eventType, p.payload, LastHash(k, s)), m, StoreLastHash(k, s)) == LastHash(k, s)
  {
    var two := Next(k, Next(k, st, p), q);
    var name := StreamOf(p.eventType);
    assert two.streams == st.streams;
    assert two.inFlight[v].readHash == LastHash(k, st.streams[name]) == two.inFlight[w].readHash;
    AppendLinksIff(k, two, v, m);
    var one := Next(k, two, Append(v, m));
    assert w in one.inFlight && one.inFlight[w] == two.inFlight[w];
    AppendLinksIff(k, one, w, n);
  }

  // ----- The object

  /** `ImmutableEventWriter`, with the store's two streams. */
  class Writer {
    const k: Tools
    var audit: seq<Event>
    var security: seq<Event>
    var writeCount: nat

    constructor (k: Tools)
      ensures this.k == k && View() == START
    {
      this.k := k;
      audit, security, writeCount := [], [], 0;
    }

    /** Between two calls no write is under way. */
    ghost function View(): State
      reads this
    {
      State(map[Audit := audit, Security := security], map[], writeCount)
    }

    method GetLastHash(name: StreamName) returns (hash: string)
      ensures hash == LastHash(k, if name == Audit then audit else security)
      ensures var s := if name == Audit then audit else security;
              hash == if s == [] then k.sha(HashChain.GENESIS_SEED) else s[|s| - 1].hash
    {
      var s := if name == Audit then audit else security;
      if s != [] {
        return s[|s| - 1].hash;
      }
      hash := Genesis(k);
    }

    /** `valid` is the catalogue's verdict on the event; an invalid one raises before any effect. */
    method WriteEvent(eventType: string, payload: string, valid: bool, meta: string) returns (written: bool)
      modifies this
      ensures written == valid
      ensures View() == if valid then Next(k, Next(k, old(View()), Read(0, eventType, payload)), Append(0, meta))
                        else old(View())
      ensures !valid ==> audit == old(audit) && security == old(security) && writeCount == old(writeCount)
      ensures valid && StreamOf(eventType) == Audit ==> Adds(k, old(audit), audit, eventType, payload, meta)
      ensures valid && StreamOf(eventType) == Audit ==> security == old(security)
      ensures valid && StreamOf(eventType) == Security ==> Adds(k, old(security), security, eventType, payload, meta)
      ensures valid && StreamOf(eventType) == Security ==> audit == old(audit)
      ensures valid ==> writeCount == old(writeCount) + 1
    {
      if !valid {
        return false;
      }
      ghost var st := View();
      var name := StreamOf(eventType);
      var last := GetLastHash(name);
      var r := BuildRecord(k, eventType, payload, last);
      if name == Audit {
        audit := Appended(k, audit, r, meta);
      } else {
        security := Appended(k, security, r, meta);
      }
      writeCount := writeCount + 1;
      written := true;
      ghost var reading := Next(k, st, Read(0, eventType, payload));
      assert reading.inFlight - {0} == map[];
    }
  }

  // ----- Tamper evidence of a written stream

  function EventText(k: Tools, e: Event): string {
    StoreText(k, e.record, e.meta, e.previous)
  }

  function RecordText(k: Tools, r: Record): string {
    k.json(Content(r.eventType, r.payload, r.previous))
  }

  /**
   * Serialisation loses nothing, the two shapes never read alike, and none reads like a seed: they
   * are JSON objects with different keys.
   */
  ghost predicate Faithful(k: Tools) {
    && (forall x, y :: k.json(x) == k.json(y) ==> x == y)
    && (forall x, y :: k.storeJson(x) == k.storeJson(y) ==> x == y)
    && (forall x, y :: k.storeJson(x) != k.json(y))
    && (forall x :: k.storeJson(x) != HashChain.GENESIS_SEED && k.storeJson(x) != STORE_SEED)
  }

  /** The digest has no collision on `texts`, the two seeds included. */
  ghost predicate Safe(k: Tools, texts: set<string>) {
    && Faithful(k) && CollisionFreeOn(k.sha, texts)
    && HashChain.GENESIS_SEED in texts && STORE_SEED in texts
  }

  /** The digest is safe on all that writing `s` hashes. */
  ghost predicate Secure(k: Tools, s: seq<Event>, texts: set<string>) {
    Safe(k, texts) && forall e :: e in s ==> EventText(k, e) in texts && RecordText(k, e.record) in texts
  }

  /** The event carries both its digests, and their texts are among `texts`. */
  ghost predicate Sealed(k: Tools, e: Event, texts: set<string>) {
    && EventText(k, e) in texts && e.hash == k.sha(EventText(k, e))
    && RecordText(k, e.record) in texts && e.record.hash == k.sha(RecordText(k, e.record))
  }

  lemma SealedAt(k: Tools, s: seq<Event>, i: nat, texts: set<string>)
    requires Linked(k, s) && Secure(k, s, texts) && i < |s|
    ensures Sealed(k, s[i], texts)
  {
    assert LinkedAt(k, s, i) && s[i] in s;
  }

  lemma SameHashSameEvent(k: Tools, d: Event, e: Event, texts: set<string>)
    requires Safe(k, texts) && Sealed(k, d, texts) && Sealed(k, e, texts)
    ensures d.hash == e.hash ==> d == e
  {
  }

  /** A stored hash is no genesis hash, and not the hash the record carries inside. */
  lemma HashIsNoOther(k: Tools, e: Event, texts: set<string>)
    requires Safe(k, texts) && Sealed(k, e, texts)
    ensures e.hash != Genesis(k) && e.hash != StoreGenesis(k) && e.hash != e.record.hash
  {
  }

  /** The last stored hash binds the whole stream, whatever the lengths. */
  lemma {:induction false} WriterTamperEvidence(k: Tools, s: seq<Event>, t: seq<Event>, texts: set<string>)
    requires Linked(k, s) && Linked(k, t) && Secure(k, s, texts) && Secure(k, t, texts)
    requires LastHash(k, s) == LastHash(k, t)
    ensures s == t
    decreases |s|
  {
    LastEventsAgree(k, s, t, texts);
    if s != [] {
      var m, n := |s| - 1, |t| - 1;
      LastRecordNamesLastHash(k, s);
      LastRecordNamesLastHash(k, t);
      WriterTamperEvidence(k, s[..m], t[..n], texts);
      assert s == s[..m] + [s[m]] && t == t[..n] + [t[n]];
    }
  }

  lemma LastEventsAgree(k: Tools, s: seq<Event>, t: seq<Event>, texts: set<string>)
    requires Linked(k, s) && Linked(k, t) && Secure(k, s, texts) && Secure(k, t, texts)
    requires LastHash(k, s) == LastHash(k, t)
    ensures s == [] <==> t == []
    ensures s != [] ==> s[|s| - 1] == t[|t| - 1]
  {
    if s != [] {
      SealedAt(k, s, |s| - 1, texts);
      HashIsNoOther(k, s[|s| - 1], texts);
    }
    if t != [] {
      SealedAt(k, t, |t| - 1, texts);
      HashIsNoOther(k, t[|t| - 1], texts);
    }
    if s != [] && t != [] {
      SameHashSameEvent(k, s[|s| - 1], t[|t| - 1], texts);
    }
  }

  /** The records are no chain of their own: after the first, none names the hash the record before it carries. */
  lemma RecordsNeverChain(k: Tools, s: seq<Event>, i: nat, texts: set<string>)
    requires Linked(k, s) && Secure(k, s, texts) && 0 < i < |s|
    ensures s[i].record.previous != s[i - 1].record.hash
  {
    RecordsFollowTheStore(k, s, i);
    SealedAt(k, s, i - 1, texts);
    HashIsNoOther(k, s[i - 1], texts);
  }

  /** A stream never repeats a hash. */
  lemma {:induction false} HashesAreDistinct(k: Tools, s: seq<Event>, i: nat, j: nat, texts: set<string>)
    requires Linked(k, s) && Secure(k, s, texts) && i < j < |s|
    ensures s[i].hash != s[j].hash
    decreases i
  {
    if i > 0 {
      HashesAreDistinct(k, s, i - 1, j - 1, texts);
    } else {
      SealedAt(k, s, j - 1, texts);
      HashIsNoOther(k, s[j - 1], texts);
    }
    OtherPreviousOtherHash(k, s, i, j, texts);
  }

  lemma OtherPreviousOtherHash(k: Tools, s: seq<Event>, i: nat, j: nat, texts: set<string>)
    requires Linked(k, s) && Secure(k, s, texts) && i < j < |s|
    requires (if i == 0 then StoreGenesis(k) else s[i - 1].hash) != s[j - 1].hash
    ensures s[i].hash != s[j].hash
  {
    RecordsFollowTheStore(k, s, i);
    RecordsFollowTheStore(k, s, j);
    SealedAt(k, s, i, texts);
    SealedAt(k, s, j, texts);
    SameHashSameEvent(k, s[i], s[j], texts);
  }

  /** The stream after a write that nothing overlaps. */
  function AfterWrite(k: Tools, s: seq<Event>, p: Step, meta: string): seq<Event>
    requires p.Read?
  {
    Appended(k, s, BuildRecord(k, p.eventType, p.payload, LastHash(k, s)), meta)
  }

  lemma WriteMovesOn(k: Tools, s: seq<Event>, p: Step, m: string, texts: set<string>)
    requires p.Read? && StreamOk(k, s, StreamOf(p.eventType)) && Secure(k, AfterWrite(k, s, p, m), texts)
    ensures Seal(k, BuildRecord(k, p.eventType, p.payload, LastHash(k, s)), m, StoreLastHash(k, s)) != LastHash(k, s)
  {
    var all := AfterWrite(k, s, p, m);
    AppendedLinksIff(k, s, Pending(p.eventType, p.payload, LastHash(k, s)), m);
    if s == [] {
      SealedAt(k, all, 0, texts);
      HashIsNoOther(k, all[0], texts);
    } else {
      HashesAreDistinct(k, all, |s| - 1, |s|, texts);
    }
  }

  /** So two writes that overlap on one stream always leave it broken. */
  lemma OverlapAlwaysForks(k: Tools, st: State, v: nat, w: nat, p: Step, q: Step, m: string, n: string,
                           texts: set<string>)
    requires Inv(k, st) && v != w && v !in st.inFlight && w !in st.inFlight
    requires p.Read? && p.write == v && q.Read? && q.write == w
    requires StreamOf(p.eventType) == StreamOf(q.eventType)
    requires Secure(k, AfterWrite(k, st.streams[StreamOf(p.eventType)], p, m), texts)
    ensures !Inv(k, Next(k, Next(k, Next(k, Next(k, st, p), q), Append(v, m)), Append(w, n)))
  {
    OverlapForks(k, st, v, w, p, q, m, n);
    WriteMovesOn(k, st.streams[StreamOf(p.eventType)], p, m, texts);
  }

  lemma LastRecordNamesLastHash(k: Tools, s: seq<Event>)
    requires Linked(k, s) && s != []
    ensures s[|s| - 1].record.previous == LastHash(k, s[..|s| - 1])
    ensures Linked(k, s[..|s| - 1])
  {
    assert LinkedAt(k, s, |s| - 1);
    LinkedPrefix(k, s, |s| - 1);
  }

  lemma LinkedPrefix(k: Tools, s: seq<Event>, m: nat)
    requires Linked(k, s) && m <= |s|
    ensures Linked(k, s[..m])
  {
    forall i: nat | i < m
      ensures LinkedAt(k, s[..m], i)
    {
      assert LinkedAt(k, s, i) && s[..m][..i] == s[..i];
    }
  }

  // ----- Stored events under the audit verifier

  /** `recs` is what a verifier reads of the stored events: their own two hashes, and any payload. */
  ghost predicate ReadFrom(recs: seq<HashChain.Rec>, s: seq<Event>) {
    && |recs| == |s|
    && forall i :: 0 <= i < |s| ==>
         recs[i].previous == HashChain.Text(s[i].previous) && recs[i].hash == HashChain.Text(s[i].hash)
  }

  /**
   * The store starts its streams from another genesis hash than the verifier: unless the two
   * collide, every written stream is found broken at its first event, tampered with or not.
   */
  lemma WrittenStreamsNeverVerify(k: Tools, c: HashChain.Crypto, s: seq<Event>, recs: seq<HashChain.Rec>)
    requires c.sha == k.sha && CollisionFreeOn(k.sha, {STORE_SEED, HashChain.GENESIS_SEED})
    requires Linked(k, s) && s != [] && ReadFrom(recs, s)
    ensures HashChain.FirstBroken(c, recs) == 0
    ensures TamperAlarm.Tampered(c, Ok(recs))
  {
    assert LinkedAt(k, s, 0);
    assert STORE_SEED[0] != HashChain.GENESIS_SEED[0];
    assert recs[0].previous == HashChain.Text(StoreGenesis(k));
    assert !HashChain.OkAt(c, recs, 0);
  }
}
