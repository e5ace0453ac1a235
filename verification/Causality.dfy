/** The causal graph and its indexes (axioms/causality_chain.py). */
module Causality {
  import opened Basics

  // ----- Links and records

  datatype Kind = Direct | Derived | Correction | Aggregation | Allocation | Elimination

  datatype Strength = Strong | Moderate | Weak | Correlation

  function InferStrength(kind: Kind): Strength {
    match kind
    case Direct => Strong
    case Correction => Strong
    case Derived => Moderate
    case Aggregation => Moderate
    case Allocation => Weak
    case Elimination => Moderate
  }

  datatype Link = Link(id: string, cause: string, effect: string, kind: Kind, strength: Strength,
                       description: string, weight: real)

  /** A record as a value: every change builds a new one, a version on. */
  datatype CausalityRecord = CausalityRecord(transaction: string, causes: seq<Link>, effects: seq<Link>,
                                             verifiedBy: Option<string>, complete: bool, version: nat) {
    function AddCause(link: Link): CausalityRecord {
      this.(causes := causes + [link], version := version + 1)
    }

    function AddEffect(link: Link): CausalityRecord {
      this.(effects := effects + [link], version := version + 1)
    }

    function MarkComplete(verifier: string): CausalityRecord {
      this.(verifiedBy := Some(verifier), complete := true, version := version + 1)
    }
  }

  function NewRecord(transaction: string): CausalityRecord {
    CausalityRecord(transaction, [], [], None, false, 1)
  }

  // ----- The service as a transition function

  /** `order` lists the keys of `links` as a Python dictionary does: by first insertion. */
  datatype State = State(links: map<string, Link>, order: seq<string>, records: map<string, CausalityRecord>)

  const EMPTY := State(map[], [], map[])

  function Ensure(records: map<string, CausalityRecord>, t: string): map<string, CausalityRecord> {
    if t in records then records else records[t := NewRecord(t)]
  }

  function WithEffect(records: map<string, CausalityRecord>, link: Link): map<string, CausalityRecord> {
    var known := Ensure(records, link.cause);
    known[link.cause := known[link.cause].AddEffect(link)]
  }

  function WithCause(records: map<string, CausalityRecord>, link: Link): map<string, CausalityRecord> {
    var known := Ensure(records, link.effect);
    known[link.effect := known[link.effect].AddCause(link)]
  }

  datatype Op =
    | Register(id: string, cause: string, effect: string, kind: Kind, description: string, weight: real)
    | Complete(transaction: string, verifier: string)

  function LinkOf(op: Op): Link
    requires op.Register?
  {
    Link(op.id, op.cause, op.effect, op.kind, InferStrength(op.kind), op.description, op.weight)
  }

  /** The link is the one asked for, as strong as its kind implies. */
  ghost predicate Describes(l: Link, op: Op) {
    && op.Register? && l.id == op.id && l.cause == op.cause && l.effect == op.effect
    && l.kind == op.kind && l.description == op.description && l.weight == op.weight
    && (l.strength == Strong <==> l.kind == Direct || l.kind == Correction)
    && (l.strength == Moderate <==> l.kind == Derived || l.kind == Aggregation || l.kind == Elimination)
    && (l.strength == Weak <==> l.kind == Allocation)
  }

  /** `CausalLink._validate` raises on any other weight, before anything is stored. */
  predicate WeightOk(op: Op) {
    op.Register? && 0.0 <= op.weight <= 1.0
  }

  function Apply(st: State, op: Op): State {
    match op
    case Register(id, _, _, _, _, _) =>
      if !WeightOk(op) then st
      else
        var link := LinkOf(op);
        State(st.links[id := link], if id in st.links then st.order else st.order + [id],
              WithCause(WithEffect(st.records, link), link))
    case Complete(t, verifier) =>
      if t in st.records then st.(records := st.records[t := st.records[t].MarkComplete(verifier)]) else st
  }

  // ----- The service

  /** `CausalityChainAxiom` */
  class Graph {
    var links: map<string, Link>
    var order: seq<string>
    var records: map<string, CausalityRecord>

    constructor ()
      ensures View() == EMPTY
    {
      links, order, records := map[], [], map[];
    }

    function View(): State
      reads this
    {
      State(links, order, records)
    }

    method RegisterCausality(op: Op) returns (link: Option<Link>)
      requires op.Register?
      modifies this
      ensures View() == Apply(old(View()), op)
      ensures link.Some? <==> 0.0 <= op.weight <= 1.0
      ensures link.Some? ==> Describes(link.value, op) && op.id in links && links[op.id] == link.value
      ensures link.Some? ==> op.cause in records && link.value in records[op.cause].effects
      ensures link.Some? ==> op.effect in records && link.value in records[op.effect].causes
    {
      if !(0.0 <= op.weight <= 1.0) {
        return None;
      }
      var l := Link(op.id, op.cause, op.effect, op.kind, InferStrength(op.kind), op.description, op.weight);
      if op.id !in links {
        order := order + [op.id];
      }
      links := links[op.id := l];
      if op.cause !in records {
        records := records[op.cause := NewRecord(op.cause)];
      }
      records := records[op.cause := records[op.cause].AddEffect(l)];
      if op.effect !in records {
        records := records[op.effect := NewRecord(op.effect)];
      }
      records := records[op.effect := records[op.effect].AddCause(l)];
      link := Some(l);
    }

    method MarkComplete(t: string, verifier: string) returns (r: Option<CausalityRecord>)
      modifies this`records
      ensures View() == Apply(old(View()), Complete(t, verifier))
      ensures r == if t in old(records) then Some(records[t]) else None
      ensures r.Some? ==> r.value.complete && r.value.verifiedBy == Some(verifier)
      ensures r.Some? ==> r.value.version == old(records)[t].version + 1
      ensures r.Some? ==> r.value.transaction == old(records)[t].transaction
      ensures r.Some? ==> r.value.causes == old(records)[t].causes && r.value.effects == old(records)[t].effects
    {
      if t !in records {
        return None;
      }
      var completed := records[t].MarkComplete(verifier);
      records := records[t := completed];
      r := Some(completed);
    }
  }

  // ----- What a run leaves behind

  function Run(ops: seq<Op>): State {
    if ops == [] then EMPTY else Apply(Run(ops[..|ops| - 1]), ops[|ops| - 1])
  }

  /** The links registered by a run, in order. */
  function Registered(ops: seq<Op>): seq<Link> {
    if ops == [] then []
    else
      var op := ops[|ops| - 1];
      Registered(ops[..|ops| - 1]) + if WeightOk(op) then [LinkOf(op)] else []
  }

  /** The registered links that leave `t`. */
  function Leaving(log: seq<Link>, t: string): seq<Link> {
    Filter(log, (l: Link) => l.cause == t)
  }

  /** The registered links that enter `t`. */
  function Entering(log: seq<Link>, t: string): seq<Link> {
    Filter(log, (l: Link) => l.effect == t)
  }

  predicate Touches(log: seq<Link>, t: string) {
    Leaving(log, t) != [] || Entering(log, t) != []
  }

  /** Who completed `t`, in order: the completions of `t` that found a record to complete. */
  function Completers(ops: seq<Op>, t: string): seq<string> {
    if ops == [] then []
    else
      var before, op := ops[..|ops| - 1], ops[|ops| - 1];
      Completers(before, t) +
      if op.Complete? && op.transaction == t && Touches(Registered(before), t) then [op.verifier] else []
  }

  ghost predicate FreshIds(ops: seq<Op>) {
    forall i, j :: 0 <= i < j < |ops| && ops[i].Register? && ops[j].Register? ==> ops[i].id != ops[j].id
  }

  /** The record of `t` when `log` was registered and `completers` completed it. */
  ghost predicate RecordIs(r: CausalityRecord, log: seq<Link>, completers: seq<string>, t: string) {
    && r.transaction == t
    && r.effects == Leaving(log, t)
    && r.causes == Entering(log, t)
    && r.version == 1 + |r.causes| + |r.effects| + |completers|
    && (r.complete <==> completers != [])
    && r.verifiedBy == if completers == [] then None else Some(completers[|completers| - 1])
  }

  /** What the record of `t` must be after a run. */
  ghost predicate RecordOk(r: CausalityRecord, ops: seq<Op>, t: string) {
    RecordIs(r, Registered(ops), Completers(ops, t), t)
  }

  ghost predicate RecordsOk(st: State, ops: seq<Op>) {
    && (forall t :: t in st.records <==> Touches(Registered(ops), t))
    && (forall t :: t in st.records ==> RecordOk(st.records[t], ops, t))
  }

  lemma LogSnoc(log: seq<Link>, l: Link, t: string)
    ensures Leaving(log + [l], t) == if l.cause == t then Leaving(log, t) + [l] else Leaving(log, t)
    ensures Entering(log + [l], t) == if l.effect == t then Entering(log, t) + [l] else Entering(log, t)
  {
    FilterSnoc(log, l, (k: Link) => k.cause == t);
    FilterSnoc(log, l, (k: Link) => k.effect == t);
  }

  function RecordAt(records: map<string, CausalityRecord>, t: string): CausalityRecord {
    if t in records then records[t] else NewRecord(t)
  }

  /** The record of a transaction after a link is registered, the two ends being the same or not. */
  function Linked(r: CausalityRecord, l: Link, t: string): CausalityRecord {
    var left := if l.cause == t then r.AddEffect(l) else r;
    if l.effect == t then left.AddCause(l) else left
  }

  /** What registering a link does to each transaction. */
  lemma RegisteringAt(records: map<string, CausalityRecord>, l: Link, t: string)
    ensures t in WithCause(WithEffect(records, l), l) <==> t in records || t == l.cause || t == l.effect
    ensures t in WithCause(WithEffect(records, l), l) ==>
              WithCause(WithEffect(records, l), l)[t] == Linked(RecordAt(records, t), l, t)
  {
  }

  lemma LinkedRecordIs(r: CausalityRecord, log: seq<Link>, l: Link, completers: seq<string>, t: string)
    requires RecordIs(r, log, completers, t)
    ensures RecordIs(Linked(r, l, t), log + [l], completers, t)
    ensures Touches(log + [l], t) <==> Touches(log, t) || t == l.cause || t == l.effect
  {
    LogSnoc(log, l, t);
  }

  /** A transaction without a record is as one with a new record. */
  lemma RecordAtIs(ops: seq<Op>, st: State, t: string)
    requires RecordsOk(st, ops)
    ensures RecordIs(RecordAt(st.records, t), Registered(ops), Completers(ops, t), t)
  {
    if t in st.records {
      assert RecordOk(st.records[t], ops, t);
    } else {
      NoCompletionBefore(ops, t);
    }
  }

  lemma RegisterKeepsRecordAt(before: seq<Op>, op: Op, st: State, t: string)
    requires WeightOk(op) && RecordsOk(st, before)
    ensures var records := Apply(st, op).records;
            && (t in records <==> Touches(Registered(before) + [LinkOf(op)], t))
            && (t in records ==>
                  RecordIs(records[t], Registered(before) + [LinkOf(op)], Completers(before, t), t))
  {
    var log, l := Registered(before), LinkOf(op);
    RegisteringAt(st.records, l, t);
    RecordAtIs(before, st, t);
    LinkedRecordIs(RecordAt(st.records, t), log, l, Completers(before, t), t);
  }

  lemma OneMoreRegistered(before: seq<Op>, op: Op)
    ensures Registered(before + [op]) == if WeightOk(op) then Registered(before) + [LinkOf(op)] else Registered(before)
  {
    assert (before + [op])[..|before|] == before;
  }

  lemma OneMoreCompletion(before: seq<Op>, op: Op, t: string)
    ensures Completers(before + [op], t)
         == Completers(before, t) +
            if op.Complete? && op.transaction == t && Touches(Registered(before), t) then [op.verifier] else []
  {
    assert (before + [op])[..|before|] == before;
  }

  lemma RegisterKeepsRecords(before: seq<Op>, op: Op, st: State)
    requires WeightOk(op) && RecordsOk(st, before)
    ensures RecordsOk(Apply(st, op), before + [op])
  {
    var ops := before + [op];
    OneMoreRegistered(before, op);
    forall t
      ensures t in Apply(st, op).records <==> Touches(Registered(ops), t)
      ensures t in Apply(st, op).records ==> RecordOk(Apply(st, op).records[t], ops, t)
    {
      RegisterKeepsRecordAt(before, op, st, t);
      OneMoreCompletion(before, op, t);
    }
  }

  /** A transaction no link touches yet was never completed. */
  lemma {:induction false} NoCompletionBefore(ops: seq<Op>, t: string)
    requires !Touches(Registered(ops), t)
    ensures Completers(ops, t) == []
    decreases |ops|
  {
    if ops != [] {
      var before, op := ops[..|ops| - 1], ops[|ops| - 1];
      if WeightOk(op) {
        LogSnoc(Registered(before), LinkOf(op), t);
      } else {
        assert Registered(ops) == Registered(before);
      }
      NoCompletionBefore(before, t);
    }
  }

  lemma CompleteKeepsRecordAt(before: seq<Op>, op: Op, st: State, t: string)
    requires !WeightOk(op) && RecordsOk(st, before) && t in st.records
    ensures t in Apply(st, op).records && RecordOk(Apply(st, op).records[t], before + [op], t)
  {
    OneMoreRegistered(before, op);
    OneMoreCompletion(before, op, t);
    assert RecordOk(st.records[t], before, t) && Touches(Registered(before), t);
  }

  lemma CompleteKeepsRecords(before: seq<Op>, op: Op, st: State)
    requires !WeightOk(op) && RecordsOk(st, before)
    ensures RecordsOk(Apply(st, op), before + [op])
  {
    OneMoreRegistered(before, op);
    forall t | t in st.records
      ensures t in Apply(st, op).records && RecordOk(Apply(st, op).records[t], before + [op], t)
    {
      CompleteKeepsRecordAt(before, op, st, t);
    }
    assert Apply(st, op).records.Keys == st.records.Keys;
  }

  /**
   * After any run each transaction's effects are exactly the registered links that leave it, its
   * causes those that enter it, in registration order; its version counts them and its completions.
   */
  lemma {:induction false} IndexesAgree(ops: seq<Op>)
    ensures RecordsOk(Run(ops), ops)
    decreases |ops|
  {
    if ops != [] {
      var before, op := ops[..|ops| - 1], ops[|ops| - 1];
      assert ops == before + [op];
      IndexesAgree(before);
      if WeightOk(op) {
        RegisterKeepsRecords(before, op, Run(before));
      } else {
        CompleteKeepsRecords(before, op, Run(before));
      }
    }
  }

  // ----- The indexes read off the operations

  /** The accepted registrations, in order. */
  function AcceptedOps(ops: seq<Op>): seq<Op> {
    Filter(ops, (op: Op) => op.Register? && 0.0 <= op.weight <= 1.0)
  }

  /** Those that name `t` as the cause, in order. */
  function OpsFrom(ops: seq<Op>, t: string): seq<Op> {
    Filter(AcceptedOps(ops), (op: Op) => op.Register? && op.cause == t)
  }

  /** Those that name `t` as the effect, in order. */
  function OpsTo(ops: seq<Op>, t: string): seq<Op> {
    Filter(AcceptedOps(ops), (op: Op) => op.Register? && op.effect == t)
  }

  /** Each link is the one its operation asked for. */
  ghost predicate DescribeAll(links: seq<Link>, ops: seq<Op>) {
    |links| == |ops| && forall i :: 0 <= i < |links| ==> Describes(links[i], ops[i])
  }

  /** The log is the accepted registrations. */
  lemma {:induction false} LogFollowsOps(ops: seq<Op>)
    ensures DescribeAll(Registered(ops), AcceptedOps(ops))
    decreases |ops|
  {
    if ops != [] {
      LogFollowsOps(ops[..|ops| - 1]);
    }
  }

  /** The links at `t` are those of the operations that name `t`. */
  lemma {:induction false} LeavingFollows(links: seq<Link>, ops: seq<Op>, t: string)
    requires DescribeAll(links, ops)
    ensures DescribeAll(Leaving(links, t), Filter(ops, (op: Op) => op.Register? && op.cause == t))
    decreases |links|
  {
    if links != [] {
      LeavingFollows(links[..|links| - 1], ops[..|ops| - 1], t);
      assert Describes(links[|links| - 1], ops[|ops| - 1]);
    }
  }

  lemma {:induction false} EnteringFollows(links: seq<Link>, ops: seq<Op>, t: string)
    requires DescribeAll(links, ops)
    ensures DescribeAll(Entering(links, t), Filter(ops, (op: Op) => op.Register? && op.effect == t))
    decreases |links|
  {
    if links != [] {
      EnteringFollows(links[..|links| - 1], ops[..|ops| - 1], t);
      assert Describes(links[|links| - 1], ops[|ops| - 1]);
    }
  }

  /**
   * After any run the effects of a transaction are, in order, the links of the accepted registrations
   * that name it as their cause, its causes those of the registrations that name it as their effect,
   * and it has a record exactly if some accepted registration names it.
   */
  lemma IndexesFollowOps(ops: seq<Op>, t: string)
    ensures t in Run(ops).records <==> OpsFrom(ops, t) != [] || OpsTo(ops, t) != []
    ensures t in Run(ops).records ==>
              DescribeAll(Run(ops).records[t].effects, OpsFrom(ops, t)) &&
              DescribeAll(Run(ops).records[t].causes, OpsTo(ops, t))
  {
    IndexesAgree(ops);
    LogFollowsOps(ops);
    LeavingFollows(Registered(ops), AcceptedOps(ops), t);
    EnteringFollows(Registered(ops), AcceptedOps(ops), t);
    assert t in Run(ops).records <==> Touches(Registered(ops), t);
    assert t in Run(ops).records ==> RecordOk(Run(ops).records[t], ops, t);
  }

  // ----- The link table

  function IdsOf(log: seq<Link>): set<string> {
    set l | l in log :: l.id
  }

  lemma IdsSnoc(log: seq<Link>, l: Link)
    ensures IdsOf(log + [l]) == IdsOf(log) + {l.id}
  {
    assert forall k :: k in log + [l] <==> k in log || k == l;
    assert l in log + [l];
  }

  /** Entry `i` of the table is the `i`-th registered link. */
  predicate EntryIs(links: map<string, Link>, order: seq<string>, log: seq<Link>, i: nat)
    requires i < |log| == |order|
  {
    order[i] == log[i].id && log[i].id in links && links[log[i].id] == log[i]
  }

  /** The table holds `log` and nothing else, under distinct ids and in the order of `log`. */
  ghost predicate TableIs(links: map<string, Link>, order: seq<string>, log: seq<Link>) {
    && links.Keys == IdsOf(log)
    && |links| == |order| == |log|
    && forall i: nat :: i < |log| ==> EntryIs(links, order, log, i)
  }

  lemma {:induction false} LoggedIdWasRequested(ops: seq<Op>, l: Link) returns (j: nat)
    requires l in Registered(ops)
    ensures j < |ops| && ops[j].Register? && ops[j].id == l.id
    decreases |ops|
  {
    var before := ops[..|ops| - 1];
    if l in Registered(before) {
      j := LoggedIdWasRequested(before, l);
    } else {
      j := |before|;
    }
  }

  lemma NewIdIsNotInTable(before: seq<Op>, op: Op)
    requires FreshIds(before + [op]) && op.Register?
    ensures op.id !in IdsOf(Registered(before))
  {
    var ops := before + [op];
    assert ops[|before|] == op && forall j :: 0 <= j < |before| ==> ops[j] == before[j];
    forall l | l in Registered(before)
      ensures l.id != op.id
    {
      var j := LoggedIdWasRequested(before, l);
    }
  }

  lemma EntryStays(links: map<string, Link>, order: seq<string>, log: seq<Link>, l: Link, i: nat)
    requires i < |log| == |order| && EntryIs(links, order, log, i) && l.id !in links
    ensures EntryIs(links[l.id := l], order + [l.id], log + [l], i)
  {
    assert (order + [l.id])[i] == order[i] && (log + [l])[i] == log[i] && log[i].id != l.id;
  }

  lemma TableGrows(links: map<string, Link>, order: seq<string>, log: seq<Link>, l: Link)
    requires TableIs(links, order, log) && l.id !in links
    ensures TableIs(links[l.id := l], order + [l.id], log + [l])
  {
    var links', order', log' := links[l.id := l], order + [l.id], log + [l];
    assert links'.Keys == IdsOf(log') by {
      IdsSnoc(log, l);
    }
    assert |links'| == |links| + 1;
    assert EntryIs(links', order', log', |log|);
    forall i: nat | i < |log|
      ensures EntryIs(links', order', log', i)
    {
      EntryStays(links, order, log, l, i);
    }
  }

  /** The link table holds exactly the registered links under their ids, in registration order. */
  lemma {:induction false} TableHoldsTheLog(ops: seq<Op>)
    requires FreshIds(ops)
    ensures TableIs(Run(ops).links, Run(ops).order, Registered(ops))
    ensures DescribeAll(Registered(ops), AcceptedOps(ops))
    decreases |ops|
  {
    if ops != [] {
      var before, op := ops[..|ops| - 1], ops[|ops| - 1];
      assert ops == before + [op];
      assert forall i :: 0 <= i < |before| ==> before[i] == ops[i];
      TableHoldsTheLog(before);
      OneMoreRegistered(before, op);
      if WeightOk(op) {
        NewIdIsNotInTable(before, op);
        TableGrows(Run(before).links, Run(before).order, Registered(before), LinkOf(op));
      }
    }
    LogFollowsOps(ops);
  }

  // ----- Conservation of links

  ghost function SumEffects(records: map<string, CausalityRecord>, keys: set<string>): nat
    requires keys <= records.Keys
  {
    if keys == {} then 0
    else
      var t :| t in keys;
      |records[t].effects| + SumEffects(records, keys - {t})
  }

  ghost function SumCauses(records: map<string, CausalityRecord>, keys: set<string>): nat
    requires keys <= records.Keys
  {
    if keys == {} then 0
    else
      var t :| t in keys;
      |records[t].causes| + SumCauses(records, keys - {t})
  }

  /** The links of `log` whose cause is among `keys`. */
  ghost function LeavingAny(log: seq<Link>, keys: set<string>): nat {
    if log == [] then 0
    else LeavingAny(log[..|log| - 1], keys) + if log[|log| - 1].cause in keys then 1 else 0
  }

  ghost function EnteringAny(log: seq<Link>, keys: set<string>): nat {
    if log == [] then 0
    else EnteringAny(log[..|log| - 1], keys) + if log[|log| - 1].effect in keys then 1 else 0
  }

  lemma {:induction false} OneKeyLess(log: seq<Link>, keys: set<string>, t: string)
    requires t in keys
    ensures LeavingAny(log, keys) == |Leaving(log, t)| + LeavingAny(log, keys - {t})
    ensures EnteringAny(log, keys) == |Entering(log, t)| + EnteringAny(log, keys - {t})
    decreases |log|
  {
    if log != [] {
      OneKeyLess(log[..|log| - 1], keys, t);
    }
  }

  lemma {:induction false} NoKeys(log: seq<Link>)
    ensures LeavingAny(log, {}) == 0 && EnteringAny(log, {}) == 0
    decreases |log|
  {
    if log != [] {
      NoKeys(log[..|log| - 1]);
    }
  }

  lemma {:induction false} EffectsCountLinks(records: map<string, CausalityRecord>, log: seq<Link>, keys: set<string>)
    requires keys <= records.Keys
    requires forall t :: t in keys ==> records[t].effects == Leaving(log, t)
    ensures SumEffects(records, keys) == LeavingAny(log, keys)
    decreases |keys|
  {
    if keys == {} {
      NoKeys(log);
    } else {
      var t :| t in keys && SumEffects(records, keys) == |records[t].effects| + SumEffects(records, keys - {t});
      OneKeyLess(log, keys, t);
      EffectsCountLinks(records, log, keys - {t});
    }
  }

  lemma {:induction false} CausesCountLinks(records: map<string, CausalityRecord>, log: seq<Link>, keys: set<string>)
    requires keys <= records.Keys
    requires forall t :: t in keys ==> records[t].causes == Entering(log, t)
    ensures SumCauses(records, keys) == EnteringAny(log, keys)
    decreases |keys|
  {
    if keys == {} {
      NoKeys(log);
    } else {
      var t :| t in keys && SumCauses(records, keys) == |records[t].causes| + SumCauses(records, keys - {t});
      OneKeyLess(log, keys, t);
      CausesCountLinks(records, log, keys - {t});
    }
  }

  lemma {:induction false} AllEndsAreKeys(log: seq<Link>, keys: set<string>)
    requires forall t :: Touches(log, t) ==> t in keys
    ensures LeavingAny(log, keys) == |log| && EnteringAny(log, keys) == |log|
    decreases |log|
  {
    if log != [] {
      var before, l := log[..|log| - 1], log[|log| - 1];
      forall t | Touches(before, t)
        ensures t in keys
      {
        assert Touches(log, t);
      }
      AllEndsAreKeys(before, keys);
      assert Touches(log, l.cause) && Touches(log, l.effect);
    }
  }

  /**
   * Every link is an effect of one record and a cause of one record: both sums are the number of
   * registered links, and so, when ids are fresh, the size of the link table.
   */
  lemma LinksAreConserved(ops: seq<Op>)
    ensures SumEffects(Run(ops).records, Run(ops).records.Keys) == |Registered(ops)|
    ensures SumCauses(Run(ops).records, Run(ops).records.Keys) == |Registered(ops)|
    ensures FreshIds(ops) ==> |Run(ops).links| == |Registered(ops)|
  {
    var records, log := Run(ops).records, Registered(ops);
    IndexesAgree(ops);
    forall t | t in records
      ensures records[t].effects == Leaving(log, t) && records[t].causes == Entering(log, t)
    {
      assert RecordOk(records[t], ops, t);
    }
    EffectsCountLinks(records, log, records.Keys);
    CausesCountLinks(records, log, records.Keys);
    AllEndsAreKeys(log, records.Keys);
    if FreshIds(ops) {
      TableHoldsTheLog(ops);
    }
  }
}
