/** The journal registry (axioms/double_entry.py). */
module DoubleEntry {
  import opened Basics
  import opened Numbering

  // ----- Lines and journals

  datatype Side = Debit | Credit

  /** `details` stands for the descriptive fields that are only carried along. */
  datatype Line = Line(lineId: string, journalId: string, account: string, side: Side, amount: real,
                       currency: string, details: string)

  /** `JournalLine._validate` */
  predicate LineOk(l: Line) {
    l.amount > 0.0 && l.account != "" && |l.currency| == 3
  }

  datatype JournalStatus = Draft | Submitted | Approved | Posted | Reversed | Void | Rejected

  datatype Journal = Journal(id: string, number: string, kind: string, date: int, description: string,
                             lines: seq<Line>, createdBy: string, approvedBy: seq<string>,
                             status: JournalStatus, version: nat, hash: string)

  function Total(lines: seq<Line>, side: Side): real {
    if lines == [] then 0.0
    else Total(lines[..|lines| - 1], side) +
         if lines[|lines| - 1].side == side then lines[|lines| - 1].amount else 0.0
  }

  /** One line more adds its amount to the total of its own side. */
  lemma TotalSnoc(before: seq<Line>, l: Line, side: Side)
    ensures Total(before + [l], side) == Total(before, side) + if l.side == side then l.amount else 0.0
  {
    assert (before + [l])[..|before|] == before;
  }

  function Difference(lines: seq<Line>): real {
    Total(lines, Debit) - Total(lines, Credit)
  }

  function Abs(x: real): real {
    if x < 0.0 then -x else x
  }

  predicate IsBalanced(j: Journal, tolerance: real) {
    Abs(Difference(j.lines)) <= tolerance
  }

  /** What `compute_hash` renders and hashes. */
  datatype HashContent = HashContent(id: string, number: string, kind: string, date: int, debit: real, credit: real,
                                     difference: real, status: JournalStatus, version: nat, lineIds: seq<string>)

  type Digest = HashContent -> string

  function LineIds(lines: seq<Line>): seq<string> {
    seq(|lines|, i requires 0 <= i < |lines| => lines[i].lineId)
  }

  function ContentOf(j: Journal): HashContent {
    HashContent(j.id, j.number, j.kind, j.date, Total(j.lines, Debit), Total(j.lines, Credit),
                Difference(j.lines), j.status, j.version, LineIds(j.lines))
  }

  /** On two journals that the digest tells apart, the hash binds the content, field by field. */
  lemma HashBinds(digest: Digest, j: Journal, k: Journal)
    requires digest(ContentOf(j)) == digest(ContentOf(k)) ==> ContentOf(j) == ContentOf(k)
    ensures digest(ContentOf(j)) == digest(ContentOf(k)) <==>
            && j.id == k.id && j.number == k.number && j.kind == k.kind && j.date == k.date
            && Total(j.lines, Debit) == Total(k.lines, Debit) && Total(j.lines, Credit) == Total(k.lines, Credit)
            && j.status == k.status && j.version == k.version && |j.lines| == |k.lines|
            && forall i :: 0 <= i < |j.lines| ==> j.lines[i].lineId == k.lines[i].lineId
  {
    assert LineIds(j.lines) == LineIds(k.lines) <==>
      |j.lines| == |k.lines| && forall i :: 0 <= i < |j.lines| ==> j.lines[i].lineId == k.lines[i].lineId by {
      if LineIds(j.lines) == LineIds(k.lines) {
        assert |LineIds(j.lines)| == |LineIds(k.lines)|;
        forall i | 0 <= i < |j.lines|
          ensures j.lines[i].lineId == k.lines[i].lineId
        {
          assert LineIds(j.lines)[i] == LineIds(k.lines)[i];
        }
      }
    }
  }

  /** `update`: a copy one version on, with the old hash. */
  function Updated(j: Journal, status: JournalStatus, approvedBy: seq<string>): Journal {
    j.(status := status, approvedBy := approvedBy, version := j.version + 1)
  }

  // ----- The registry as a transition function

  datatype Error = NoLines | BadLine

  datatype Request = Request(id: string, kind: string, date: int, description: string, lines: seq<Line>,
                             createdBy: string, approvedBy: seq<string>, number: Option<string>,
                             year: nat, month: nat)

  datatype State = State(journals: map<string, Journal>, counters: Counters)

  const EMPTY := State(map[], map[])

  function Relabelled(lines: seq<Line>, id: string): (r: seq<Line>)
    ensures |r| == |lines|
  {
    seq(|lines|, i requires 0 <= i < |lines| => lines[i].(journalId := id))
  }

  /** `l` is line `m` of a request, under the journal's id. */
  ghost predicate IsCopy(l: Line, m: Line, id: string) {
    && l.lineId == m.lineId && l.account == m.account && l.side == m.side && l.amount == m.amount
    && l.currency == m.currency && l.details == m.details && l.journalId == id
  }

  ghost predicate AreCopies(copies: seq<Line>, lines: seq<Line>, id: string) {
    |copies| == |lines| && forall i :: 0 <= i < |lines| ==> IsCopy(copies[i], lines[i], id)
  }

  /** Copies have the totals of what they copy. */
  lemma {:induction false} CopiesKeepTotals(copies: seq<Line>, lines: seq<Line>, id: string, side: Side)
    requires AreCopies(copies, lines, id)
    ensures Total(copies, side) == Total(lines, side)
    decreases |lines|
  {
    if lines != [] {
      CopiesKeepTotals(copies[..|lines| - 1], lines[..|lines| - 1], id, side);
      assert IsCopy(copies[|lines| - 1], lines[|lines| - 1], id);
    }
  }

  /** `journal_number or self.generate_journal_number()` */
  predicate NumberGiven(q: Request) {
    q.number.Some? && q.number.value != ""
  }

  function CountersAfterNumbering(counters: Counters, q: Request): Counters {
    if NumberGiven(q) then counters else AfterDraw(counters, DEFAULT_PREFIX)
  }

  function NumberFor(counters: Counters, q: Request): string {
    if NumberGiven(q) then q.number.value
    else Number(DEFAULT_PREFIX, q.year, q.month, Count(counters, DEFAULT_PREFIX) + 1)
  }

  /** A number that was supplied and is not empty, or else the next of the default prefix. */
  ghost predicate IsNumberFor(number: string, counters: Counters, q: Request) {
    if q.number == None || q.number == Some("")
    then number == Number("JRN", q.year, q.month, Count(counters, "JRN") + 1)
    else q.number == Some(number)
  }

  function NewJournal(digest: Digest, counters: Counters, q: Request): Journal {
    var j := Journal(q.id, NumberFor(counters, q), q.kind, q.date, q.description, Relabelled(q.lines, q.id),
                     q.createdBy, q.approvedBy, Draft, 1, "");
    j.(hash := digest(ContentOf(j)))
  }

  predicate LinesOk(lines: seq<Line>) {
    forall i :: 0 <= i < |lines| ==> LineOk(lines[i])
  }

  /** The journal is the one asked for, but for its number. */
  ghost predicate AsRequested(j: Journal, q: Request) {
    && j.id == q.id && j.kind == q.kind && j.date == q.date && j.description == q.description
    && j.createdBy == q.createdBy && q.approvedBy <= j.approvedBy
    && AreCopies(j.lines, q.lines, q.id)
    && Total(j.lines, Debit) == Total(q.lines, Debit) && Total(j.lines, Credit) == Total(q.lines, Credit)
    && Difference(j.lines) == Difference(q.lines)
  }

  /** A line that the constructor rejects. */
  predicate IsBad(l: Line) {
    l.amount <= 0.0 || l.account == "" || |l.currency| != 3
  }

  lemma NewJournalAsRequested(digest: Digest, counters: Counters, q: Request)
    ensures AsRequested(NewJournal(digest, counters, q), q)
    ensures NewJournal(digest, counters, q).approvedBy == q.approvedBy
  {
    var j := NewJournal(digest, counters, q);
    assert AreCopies(j.lines, q.lines, q.id);
    CopiesKeepTotals(j.lines, q.lines, q.id, Debit);
    CopiesKeepTotals(j.lines, q.lines, q.id, Credit);
  }

  /** A bad line is met only after the number was drawn, so the number is lost. */
  function AfterCreate(digest: Digest, st: State, q: Request): (State, Result<Journal, Error>) {
    if q.lines == [] then (st, Err(NoLines))
    else
      var counters := CountersAfterNumbering(st.counters, q);
      if !LinesOk(q.lines) then (State(st.journals, counters), Err(BadLine))
      else
        var j := NewJournal(digest, st.counters, q);
        (State(st.journals[q.id := j], counters), Ok(j))
  }

  function AfterSubmit(st: State, id: string): (State, Option<Journal>) {
    if id !in st.journals || st.journals[id].status != Draft then (st, None)
    else
      var j := Updated(st.journals[id], Submitted, st.journals[id].approvedBy);
      (st.(journals := st.journals[id := j]), Some(j))
  }

  function AfterApprove(st: State, id: string, approver: string): (State, Option<Journal>) {
    if id !in st.journals || st.journals[id].status != Submitted then (st, None)
    else
      var j := Updated(st.journals[id], Approved, st.journals[id].approvedBy + [approver]);
      (st.(journals := st.journals[id := j]), Some(j))
  }

  // ----- Enforcement

  datatype Severity = Catastrophic | Critical | High | Medium | Low | Info

  function SeverityRank(s: Severity): nat {
    match s
    case Catastrophic => 100 case Critical => 80 case High => 60
    case Medium => 40 case Low => 20 case Info => 0
  }

  function Max(a: real, b: real): real {
    if a >= b then a else b
  }

  function DetermineSeverity(difference: real, debit: real, credit: real, tolerance: real): Severity {
    var most := Max(debit, credit);
    var ratio := if most > 0.0 then Abs(difference) / most else 0.0;
    if ratio > 0.5 then Catastrophic
    else if ratio > 0.1 then Critical
    else if ratio > 0.01 then High
    else if ratio > 0.001 then Medium
    else if ratio > tolerance then Low
    else Info
  }

  const DEFAULT_TOLERANCE := 0.0001

  /** `tolerance or default`: zero is falsy. */
  function Tolerance(tolerance: Option<real>, default: real): real {
    if tolerance.None? || tolerance.value == 0.0 then default else tolerance.value
  }

  datatype Verification = Verification(journalId: string, balanced: bool, debit: real, credit: real,
                                       difference: real, tolerance: real, severity: Severity)

  function VerificationOf(j: Journal, tolerance: real): Verification {
    var balanced := IsBalanced(j, tolerance);
    Verification(j.id, balanced, Total(j.lines, Debit), Total(j.lines, Credit), Difference(j.lines), tolerance,
                 if balanced then Info
                 else DetermineSeverity(Difference(j.lines), Total(j.lines, Debit), Total(j.lines, Credit), tolerance))
  }

  /** The verdict names the journal, its totals and their difference, and balances within the tolerance. */
  ghost predicate IsVerdictOn(v: Verification, j: Journal, tolerance: real) {
    && v.journalId == j.id && v.debit == Total(j.lines, Debit) && v.credit == Total(j.lines, Credit)
    && v.difference == v.debit - v.credit && v.tolerance == tolerance
    && (v.balanced <==> -tolerance <= v.difference <= tolerance)
    && v.severity == if v.balanced then Info else DetermineSeverity(v.difference, v.debit, v.credit, tolerance)
  }

  /** A tolerance that is given and not zero, or else the default. */
  ghost function UsedTolerance(tolerance: Option<real>): real {
    if tolerance == None || tolerance == Some(0.0) then 0.0001 else tolerance.value
  }

  predicate IsGrave(v: Verification) {
    !v.balanced && (v.severity == Catastrophic || v.severity == Critical || v.severity == High)
  }

  lemma VerdictOnJournal(j: Journal, tolerance: Option<real>, raiseOnViolation: bool)
    ensures var v := VerificationOf(j, Tolerance(tolerance, DEFAULT_TOLERANCE));
            && IsVerdictOn(v, j, UsedTolerance(tolerance))
            && (Raises(v, raiseOnViolation) <==> raiseOnViolation && IsGrave(v))
  {
  }

  /** The verifications that failed. */
  function Failed(vs: seq<Verification>): seq<Verification> {
    Filter(vs, (v: Verification) => !v.balanced)
  }

  predicate Raises(v: Verification, raiseOnViolation: bool) {
    !v.balanced && raiseOnViolation && SeverityRank(v.severity) >= SeverityRank(High)
  }

  // ----- The service

  /** `DoubleEntryAxiom` */
  class Registry {
    const digest: Digest
    var journals: map<string, Journal>
    var counters: Counters
    var verifications: seq<Verification>
    var violations: seq<Verification>

    constructor (digest: Digest)
      ensures this.digest == digest && Valid() && View() == EMPTY
    {
      this.digest := digest;
      journals, counters := map[], map[];
      verifications, violations := [], [];
    }

    function View(): State
      reads this
    {
      State(journals, counters)
    }

    ghost predicate Valid()
      reads this
    {
      Inv(digest, View()) && violations == Failed(verifications)
    }

    method GenerateJournalNumber(prefix: string, year: nat, month: nat) returns (number: string)
      modifies this`counters
      ensures counters == AfterDraw(old(counters), prefix)
      ensures number == Number(prefix, year, month, Count(counters, prefix))
    {
      if prefix !in counters {
        counters := counters[prefix := 0];
      }
      counters := counters[prefix := counters[prefix] + 1];
      number := Number(prefix, year, month, counters[prefix]);
    }

    /** `journal_number or self.generate_journal_number()` */
    method ChooseNumber(q: Request) returns (number: string)
      modifies this`counters
      ensures counters == CountersAfterNumbering(old(counters), q) && number == NumberFor(old(counters), q)
      ensures IsNumberFor(number, old(counters), q)
    {
      if NumberGiven(q) {
        return q.number.value;
      }
      number := GenerateJournalNumber(DEFAULT_PREFIX, q.year, q.month);
    }

    method CreateJournal(q: Request) returns (r: Result<Journal, Error>)
      requires Valid() && q.id !in journals
      modifies this`journals, this`counters
      ensures Valid() && (View(), r) == AfterCreate(digest, old(View()), q)
      ensures r.Err? && r.error == NoLines <==> q.lines == []
      ensures r.Err? && r.error == BadLine <==> exists l :: l in q.lines && IsBad(l)
      ensures r.Ok? ==> AsRequested(r.value, q) && r.value.approvedBy == q.approvedBy
      ensures r.Ok? ==> r.value.status == Draft && r.value.version == 1
      ensures r.Ok? ==> IsNumberFor(r.value.number, old(counters), q)
      ensures journals == if r.Ok? then old(journals)[q.id := r.value] else old(journals)
    {
      ghost var st := View();
      if q.lines == [] {
        return Err(NoLines);
      }
      assert Inv(digest, AfterCreate(digest, st, q).0) by {
        CreateKeepsInv(digest, st, q);
      }
      var number := ChooseNumber(q);
      var copied := CopyLines(q.lines, q.id);
      if copied.Err? {
        return Err(copied.error);
      }
      var j := Journal(q.id, number, q.kind, q.date, q.description, copied.value, q.createdBy, q.approvedBy,
                       Draft, 1, "");
      j := j.(hash := digest(ContentOf(j)));
      assert j == NewJournal(digest, st.counters, q);
      NewJournalAsRequested(digest, st.counters, q);
      journals := journals[q.id := j];
      r := Ok(j);
    }

    /** The loop that rebuilds, and so validates, every line under the new id. */
    method CopyLines(lines: seq<Line>, id: string) returns (r: Result<seq<Line>, Error>)
      ensures r == if LinesOk(lines) then Ok(Relabelled(lines, id)) else Err(BadLine)
      ensures r.Ok? ==> AreCopies(r.value, lines, id)
      ensures r.Err? <==> exists l :: l in lines && IsBad(l)
    {
      var copied: seq<Line> := [];
      for i := 0 to |lines|
        invariant copied == Relabelled(lines, id)[..i]
        invariant forall k :: 0 <= k < i ==> LineOk(lines[k])
      {
        if !LineOk(lines[i]) {
          assert lines[i] in lines && IsBad(lines[i]);
          return Err(BadLine);
        }
        copied := copied + [lines[i].(journalId := id)];
      }
      assert Relabelled(lines, id)[..|lines|] == Relabelled(lines, id);
      r := Ok(copied);
    }

    method SubmitJournal(id: string) returns (r: Option<Journal>)
      requires Valid()
      modifies this`journals
      ensures Valid() && (View(), r) == AfterSubmit(old(View()), id)
      ensures r.Some? ==> r.value.status == Submitted && r.value.approvedBy == old(journals)[id].approvedBy
      ensures journals == if r.Some? then old(journals)[id := r.value] else old(journals)
    {
      MovesKeepInv(digest, View(), id, "");
      if id !in journals || journals[id].status != Draft {
        return None;
      }
      var updated := Updated(journals[id], Submitted, journals[id].approvedBy);
      journals := journals[id := updated];
      r := Some(updated);
    }

    method ApproveJournal(id: string, approver: string) returns (r: Option<Journal>)
      requires Valid()
      modifies this`journals
      ensures Valid() && (View(), r) == AfterApprove(old(View()), id, approver)
      ensures r.Some? ==> r.value.status == Approved && r.value.approvedBy == old(journals)[id].approvedBy + [approver]
      ensures journals == if r.Some? then old(journals)[id := r.value] else old(journals)
    {
      MovesKeepInv(digest, View(), id, approver);
      if id !in journals || journals[id].status != Submitted {
        return None;
      }
      var updated := Updated(journals[id], Approved, journals[id].approvedBy + [approver]);
      journals := journals[id := updated];
      r := Some(updated);
    }

    /** Records the verification first, then reports, or raises when the violation is grave. */
    method Enforce(j: Journal, tolerance: Option<real>, raiseOnViolation: bool)
      returns (r: Result<Verification, Verification>)
      requires Valid()
      modifies this`verifications, this`violations
      ensures Valid()
      ensures var v := VerificationOf(j, Tolerance(tolerance, DEFAULT_TOLERANCE));
              verifications == old(verifications) + [v] &&
              r == if Raises(v, raiseOnViolation) then Err(v) else Ok(v)
      ensures var v := if r.Ok? then r.value else r.error;
              && IsVerdictOn(v, j, UsedTolerance(tolerance))
              && violations == old(violations) + (if v.balanced then [] else [v])
              && (r.Err? <==> raiseOnViolation && IsGrave(v))
    {
      var v := VerificationOf(j, Tolerance(tolerance, DEFAULT_TOLERANCE));
      FilterSnoc(verifications, v, (w: Verification) => !w.balanced);
      VerdictOnJournal(j, tolerance, raiseOnViolation);
      verifications := verifications + [v];
      if !v.balanced {
        violations := violations + [v];
      }
      r := if Raises(v, raiseOnViolation) then Err(v) else Ok(v);
    }
  }

  // ----- What every operation keeps

  /** How far a journal is: the number of moves that lead to its status. */
  function Stage(status: JournalStatus): nat {
    match status
    case Draft => 0 case Submitted => 1 case Approved => 2 case _ => 3
  }

  /** A journal as the registry keeps it. */
  ghost predicate Kept(digest: Digest, j: Journal, id: string) {
    && j.id == id && j.lines != [] && LinesOk(j.lines)
    && (forall i :: 0 <= i < |j.lines| ==> j.lines[i].journalId == id)
    && Stage(j.status) <= 2 && j.version == 1 + Stage(j.status)
    && j.hash == digest(ContentOf(j.(status := Draft, version := 1)))
  }

  ghost predicate Inv(digest: Digest, st: State) {
    forall id :: id in st.journals ==> Kept(digest, st.journals[id], id)
  }

  lemma CreateKeepsInv(digest: Digest, st: State, q: Request)
    requires Inv(digest, st)
    ensures Inv(digest, AfterCreate(digest, st, q).0)
  {
    if q.lines != [] && LinesOk(q.lines) {
      var j := NewJournal(digest, st.counters, q);
      assert j.lines[0] == q.lines[0].(journalId := q.id);
      assert ContentOf(j) == ContentOf(j.(hash := ""));
      assert j.(status := Draft, version := 1) == j;
    }
  }

  lemma MovesKeepInv(digest: Digest, st: State, id: string, approver: string)
    requires Inv(digest, st)
    ensures Inv(digest, AfterSubmit(st, id).0)
    ensures Inv(digest, AfterApprove(st, id, approver).0)
  {
    if id in st.journals {
      var j := st.journals[id];
      var s := Updated(j, Submitted, j.approvedBy);
      var a := Updated(j, Approved, j.approvedBy + [approver]);
      assert ContentOf(s.(status := Draft, version := 1)) == ContentOf(j.(status := Draft, version := 1));
      assert ContentOf(a.(status := Draft, version := 1)) == ContentOf(j.(status := Draft, version := 1));
    }
  }

  // ----- Runs

  datatype Op =
    | Create(request: Request)
    | Submit(id: string)
    | Approve(id: string, approver: string)

  function Apply(digest: Digest, st: State, op: Op): State {
    match op
    case Create(q) => AfterCreate(digest, st, q).0
    case Submit(id) => AfterSubmit(st, id).0
    case Approve(id, approver) => AfterApprove(st, id, approver).0
  }

  function Run(digest: Digest, st: State, ops: seq<Op>): State {
    if ops == [] then st else Apply(digest, Run(digest, st, ops[..|ops| - 1]), ops[|ops| - 1])
  }

  /** Fresh UUIDs: no creation reuses an id the registry holds. */
  ghost predicate FreshIds(digest: Digest, st: State, ops: seq<Op>) {
    ops == [] ||
    var before, op := ops[..|ops| - 1], ops[|ops| - 1];
    && FreshIds(digest, st, before)
    && (op.Create? ==> op.request.id !in Run(digest, st, before).journals)
  }

  /** Whether `op` moves journal `id` on from state `st`. */
  predicate MovesOn(st: State, op: Op, id: string) {
    && id in st.journals
    && match op
       case Create(_) => false
       case Submit(i) => i == id && st.journals[id].status == Draft
       case Approve(i, _) => i == id && st.journals[id].status == Submitted
  }

  /** The successful submissions and approvals of `id` along a run. */
  function MoveCount(digest: Digest, st: State, ops: seq<Op>, id: string): nat {
    if ops == [] then 0
    else
      var before := ops[..|ops| - 1];
      MoveCount(digest, st, before, id) + if MovesOn(Run(digest, st, before), ops[|ops| - 1], id) then 1 else 0
  }

  /** `later` is `j` after `moves` moves: only status, version and approvers may differ. */
  ghost predicate Descends(j: Journal, later: Journal, moves: nat) {
    && later.(status := j.status, version := j.version, approvedBy := j.approvedBy) == j
    && Stage(later.status) == Stage(j.status) + moves && later.version == j.version + moves
    && j.approvedBy <= later.approvedBy
    && |later.approvedBy| == |j.approvedBy| + if Stage(j.status) < 2 && Stage(later.status) == 2 then 1 else 0
  }

  lemma MoveDescends(j: Journal, status: JournalStatus, approvedBy: seq<string>)
    requires Stage(j.status) < 2 && Stage(status) == Stage(j.status) + 1
    requires approvedBy == j.approvedBy || (|approvedBy| == |j.approvedBy| + 1 && j.approvedBy <= approvedBy)
    requires |approvedBy| == |j.approvedBy| + if Stage(status) == 2 then 1 else 0
    ensures Descends(j, Updated(j, status, approvedBy), 1)
  {
  }

  lemma StepDescends(digest: Digest, st: State, op: Op, id: string)
    requires Inv(digest, st) && id in st.journals && (op.Create? ==> op.request.id !in st.journals)
    ensures id in Apply(digest, st, op).journals
    ensures Descends(st.journals[id], Apply(digest, st, op).journals[id], if MovesOn(st, op, id) then 1 else 0)
    ensures op.Approve? && MovesOn(st, op, id) ==>
              Apply(digest, st, op).journals[id].approvedBy == st.journals[id].approvedBy + [op.approver]
  {
    var j := st.journals[id];
    if MovesOn(st, op, id) {
      match op
      case Submit(_) => MoveDescends(j, Submitted, j.approvedBy);
      case Approve(_, approver) => MoveDescends(j, Approved, j.approvedBy + [approver]);
    } else {
      OtherStepsDoNothing(digest, st, op, id);
    }
  }

  /** An operation leaves every journal as it is that it does not move on, so all but its own. */
  lemma OtherStepsDoNothing(digest: Digest, st: State, op: Op, id: string)
    requires id in st.journals && (op.Create? ==> op.request.id !in st.journals) && !MovesOn(st, op, id)
    ensures id in Apply(digest, st, op).journals && Apply(digest, st, op).journals[id] == st.journals[id]
    ensures Descends(st.journals[id], st.journals[id], 0)
  {
  }

  lemma {:induction false} RunKeepsInv(digest: Digest, st: State, ops: seq<Op>)
    requires Inv(digest, st)
    ensures Inv(digest, Run(digest, st, ops))
    decreases |ops|
  {
    if ops != [] {
      RunKeepsInv(digest, st, ops[..|ops| - 1]);
      var now := Run(digest, st, ops[..|ops| - 1]);
      match ops[|ops| - 1]
      case Create(q) => CreateKeepsInv(digest, now, q);
      case Submit(id) => MovesKeepInv(digest, now, id, "");
      case Approve(id, approver) => MovesKeepInv(digest, now, id, approver);
    }
  }

  lemma DescendsTransitive(a: Journal, b: Journal, c: Journal, m: nat, n: nat)
    requires Descends(a, b, m) && Descends(b, c, n) && Stage(c.status) <= 2
    ensures Descends(a, c, m + n)
  {
    assert c.(status := a.status, version := a.version, approvedBy := a.approvedBy)
        == c.(status := b.status, version := b.version, approvedBy := b.approvedBy)
            .(status := a.status, version := a.version, approvedBy := a.approvedBy);
  }

  /**
   * Whatever runs, a journal keeps its id, number, lines and so its difference; it only moves
   * draft to submitted to approved, one version a move, and gains one approver on approval.
   */
  lemma {:induction false} JournalsOnlyMoveOn(digest: Digest, st: State, ops: seq<Op>, id: string)
    requires Inv(digest, st) && FreshIds(digest, st, ops) && id in st.journals
    ensures id in Run(digest, st, ops).journals
    ensures Descends(st.journals[id], Run(digest, st, ops).journals[id], MoveCount(digest, st, ops, id))
    decreases |ops|
  {
    if ops != [] {
      var before, op := ops[..|ops| - 1], ops[|ops| - 1];
      JournalsOnlyMoveOn(digest, st, before, id);
      RunKeepsInv(digest, st, before);
      RunKeepsInv(digest, st, ops);
      var now := Run(digest, st, before);
      StepDescends(digest, now, op, id);
      DescendsTransitive(st.journals[id], now.journals[id], Run(digest, st, ops).journals[id],
                         MoveCount(digest, st, before, id), if MovesOn(now, op, id) then 1 else 0);
    }
  }

  // ----- Numbers drawn along a run

  /** The operation draws a number: it creates a journal from lines, and no number was supplied. */
  predicate Draws(op: Op) {
    op.Create? && op.request.lines != [] && !NumberGiven(op.request)
  }

  function DrawsOf(ops: seq<Op>): seq<Draw> {
    if ops == [] then []
    else
      var op := ops[|ops| - 1];
      DrawsOf(ops[..|ops| - 1]) + if Draws(op) then [DrawOf(op)] else []
  }

  function DrawOf(op: Op): Draw
    requires op.Create?
  {
    Draw(DEFAULT_PREFIX, op.request.year, op.request.month)
  }

  lemma DrawsOfOneMore(ops: seq<Op>, op: Op)
    ensures DrawsOf(ops + [op]) == if Draws(op) then DrawsOf(ops) + [DrawOf(op)] else DrawsOf(ops)
  {
    assert (ops + [op])[..|ops|] == ops;
  }

  lemma {:induction false} CountersFollowDraws(digest: Digest, st: State, ops: seq<Op>)
    ensures Run(digest, st, ops).counters == CountersAfter(st.counters, DrawsOf(ops))
    decreases |ops|
  {
    if ops != [] {
      var before, op := ops[..|ops| - 1], ops[|ops| - 1];
      assert ops == before + [op];
      CountersFollowDraws(digest, st, before);
      DrawsOfOneMore(before, op);
      if Draws(op) {
        CountersAfterOneMore(st.counters, DrawsOf(before), DrawOf(op));
      }
    }
  }

  lemma {:induction false} DrawsOfPrefix(ops: seq<Op>, i: nat)
    requires i <= |ops|
    ensures DrawsOf(ops[..i]) <= DrawsOf(ops)
    decreases |ops|
  {
    if i < |ops| {
      assert ops[..|ops| - 1][..i] == ops[..i];
      DrawsOfPrefix(ops[..|ops| - 1], i);
    } else {
      assert ops[..i] == ops;
    }
  }

  /** The number given to the journal of a creation is the one issued for its draw. */
  lemma NumberOfCreation(digest: Digest, st: State, ops: seq<Op>, i: nat)
    requires i < |ops| && Draws(ops[i])
    ensures |DrawsOf(ops[..i])| < |DrawsOf(ops)|
    ensures NumberFor(Run(digest, st, ops[..i]).counters, ops[i].request)
         == Issued(st.counters, DrawsOf(ops), |DrawsOf(ops[..i])|)
  {
    var before, op := ops[..i], ops[i];
    assert ops[..i + 1] == before + [op];
    DrawsOfOneMore(before, op);
    DrawsOfPrefix(ops, i + 1);
    NumberDrawnNext(digest, st, before, op);
    IssuedAfter(st.counters, DrawsOf(ops), DrawsOf(before), DrawOf(op));
  }

  lemma NumberDrawnNext(digest: Digest, st: State, before: seq<Op>, op: Op)
    requires Draws(op)
    ensures NumberFor(Run(digest, st, before).counters, op.request)
         == Number(DEFAULT_PREFIX, op.request.year, op.request.month,
                   Count(CountersAfter(st.counters, DrawsOf(before) + [DrawOf(op)]), DEFAULT_PREFIX))
  {
    CountersFollowDraws(digest, st, before);
    CountersAfterOneMore(st.counters, DrawsOf(before), DrawOf(op));
  }

  lemma IssuedAfter(counters: Counters, draws: seq<Draw>, earlier: seq<Draw>, d: Draw)
    requires earlier + [d] <= draws
    ensures Issued(counters, draws, |earlier|)
         == Number(d.prefix, d.year, d.month, Count(CountersAfter(counters, earlier + [d]), d.prefix))
  {
    assert draws[..|earlier| + 1] == earlier + [d];
    assert draws[|earlier|] == (earlier + [d])[|earlier|] == d;
  }

  ghost predicate Dated(ops: seq<Op>) {
    forall k :: 0 <= k < |ops| && ops[k].Create? ==> ops[k].request.month < 100
  }

  /** No two creations of a run, failed ones included, draw the same journal number. */
  lemma DrawnNumbersAreDistinct(digest: Digest, st: State, ops: seq<Op>, i: nat, j: nat)
    requires i < j < |ops| && Draws(ops[i]) && Draws(ops[j])
    requires Dated(ops)
    ensures NumberFor(Run(digest, st, ops[..i]).counters, ops[i].request)
         != NumberFor(Run(digest, st, ops[..j]).counters, ops[j].request)
  {
    NumberOfCreation(digest, st, ops, i);
    NumberOfCreation(digest, st, ops, j);
    NumberOfCreation(digest, st, ops[..j], i);
    assert ops[..j][..i] == ops[..i];
    DrawsAreDated(ops);
    IssuedNumbersAreDistinct(st.counters, DrawsOf(ops), |DrawsOf(ops[..i])|, |DrawsOf(ops[..j])|);
  }

  lemma {:induction false} DrawsAreDated(ops: seq<Op>)
    requires Dated(ops)
    ensures Calendar(DrawsOf(ops))
    decreases |ops|
  {
    if ops != [] {
      DrawsAreDated(ops[..|ops| - 1]);
    }
  }

  // ----- The numbers of the journals in the registry

  /** The operation is a creation that succeeds. */
  predicate Registers(op: Op) {
    op.Create? && op.request.lines != [] && LinesOk(op.request.lines)
  }

  /** It succeeds with a number of the caller's. */
  predicate Supplies(op: Op) {
    Registers(op) && NumberGiven(op.request)
  }

  /** The number that creation `i` of a run gives. */
  function NumberAt(digest: Digest, ops: seq<Op>, i: nat): string
    requires i < |ops| && ops[i].Create?
  {
    NumberFor(Run(digest, EMPTY, ops[..i]).counters, ops[i].request)
  }

  lemma {:induction false} FreshPrefix(digest: Digest, ops: seq<Op>, n: nat)
    requires FreshIds(digest, EMPTY, ops) && n <= |ops|
    ensures FreshIds(digest, EMPTY, ops[..n])
    decreases |ops|
  {
    if n < |ops| {
      assert ops[..|ops| - 1][..n] == ops[..n];
      FreshPrefix(digest, ops[..|ops| - 1], n);
    } else {
      assert ops[..n] == ops;
    }
  }

  /** No operation changes the number of a journal that is there; only its creation puts it there. */
  lemma StepKeepsNumber(digest: Digest, st: State, op: Op, id: string)
    requires op.Create? ==> op.request.id !in st.journals
    ensures var now := Apply(digest, st, op).journals;
            if id in st.journals then id in now && now[id].number == st.journals[id].number
            else id in now <==> Registers(op) && op.request.id == id
    ensures Registers(op) ==> Apply(digest, st, op).journals[op.request.id].number == NumberFor(st.counters, op.request)
  {
  }

  /** No operation changes what was asked for of a journal that is there. */
  lemma StepKeepsRequest(digest: Digest, st: State, op: Op, id: string, q: Request)
    requires op.Create? ==> op.request.id !in st.journals
    ensures id in st.journals && AsRequested(st.journals[id], q) ==>
              id in Apply(digest, st, op).journals && AsRequested(Apply(digest, st, op).journals[id], q)
    ensures Registers(op) ==>
              op.request.id in Apply(digest, st, op).journals &&
              AsRequested(Apply(digest, st, op).journals[op.request.id], op.request)
  {
    if Registers(op) {
      NewJournalAsRequested(digest, st.counters, op.request);
    }
  }

  /**
   * Every journal of the registry was put there by a creation, and has the number this gave and the
   * lines, so the difference, and all else that it asked for.
   */
  lemma {:induction false} CreationOf(digest: Digest, ops: seq<Op>, id: string) returns (i: nat)
    requires FreshIds(digest, EMPTY, ops) && id in Run(digest, EMPTY, ops).journals
    ensures i < |ops| && Registers(ops[i]) && ops[i].request.id == id
    ensures Run(digest, EMPTY, ops).journals[id].number == NumberAt(digest, ops, i)
    ensures AsRequested(Run(digest, EMPTY, ops).journals[id], ops[i].request)
    decreases |ops|
  {
    var before, op := ops[..|ops| - 1], ops[|ops| - 1];
    StepKeepsNumber(digest, Run(digest, EMPTY, before), op, id);
    if id in Run(digest, EMPTY, before).journals {
      i := CreationOf(digest, before, id);
      StepKeepsRequest(digest, Run(digest, EMPTY, before), op, id, ops[i].request);
      assert before[..i] == ops[..i];
    } else {
      i := |before|;
      StepKeepsRequest(digest, Run(digest, EMPTY, before), op, id, op.request);
    }
  }

  /** Every successful creation is in the registry ever after, under its number and as it was asked for. */
  lemma {:induction false} CreationStays(digest: Digest, ops: seq<Op>, i: nat)
    requires FreshIds(digest, EMPTY, ops) && i < |ops| && Registers(ops[i])
    ensures ops[i].request.id in Run(digest, EMPTY, ops).journals
    ensures Run(digest, EMPTY, ops).journals[ops[i].request.id].number == NumberAt(digest, ops, i)
    ensures AsRequested(Run(digest, EMPTY, ops).journals[ops[i].request.id], ops[i].request)
    decreases |ops|
  {
    var before, op := ops[..|ops| - 1], ops[|ops| - 1];
    StepKeepsNumber(digest, Run(digest, EMPTY, before), op, ops[i].request.id);
    StepKeepsRequest(digest, Run(digest, EMPTY, before), op, ops[i].request.id, ops[i].request);
    if i < |before| {
      CreationStays(digest, before, i);
      assert before[..i] == ops[..i];
    }
  }

  lemma CreationsHaveOwnIds(digest: Digest, ops: seq<Op>, i: nat, j: nat)
    requires FreshIds(digest, EMPTY, ops) && i < j < |ops| && Registers(ops[i]) && Registers(ops[j])
    ensures ops[i].request.id != ops[j].request.id
  {
    FreshPrefix(digest, ops, j);
    FreshPrefix(digest, ops, j + 1);
    assert ops[..j + 1][..j] == ops[..j];
    CreationStays(digest, ops[..j], i);
  }

  /** No two journals of the registry have one number. */
  ghost predicate NumbersAreDistinct(journals: map<string, Journal>) {
    forall a, b :: a in journals && b in journals && a != b ==> journals[a].number != journals[b].number
  }

  /** Creations `i` and `j` succeed, the number of one at least was supplied, and they got one number. */
  ghost predicate Clash(digest: Digest, ops: seq<Op>, i: nat, j: nat) {
    && i < j < |ops| && Registers(ops[i]) && Registers(ops[j])
    && (NumberGiven(ops[i].request) || NumberGiven(ops[j].request))
    && NumberAt(digest, ops, i) == NumberAt(digest, ops, j)
  }

  lemma SameNumberMeansClash(digest: Digest, ops: seq<Op>, i: nat, j: nat)
    requires FreshIds(digest, EMPTY, ops) && Dated(ops)
    requires i < j < |ops| && Registers(ops[i]) && Registers(ops[j])
    requires NumberAt(digest, ops, i) == NumberAt(digest, ops, j)
    ensures Clash(digest, ops, i, j)
  {
    if !NumberGiven(ops[i].request) && !NumberGiven(ops[j].request) {
      DrawnNumbersAreDistinct(digest, EMPTY, ops, i, j);
      assert false;
    }
  }

  /**
   * The numbers of the registry are distinct exactly when no supplied one equals that of another
   * successful creation, supplied or drawn; the service itself checks nothing of the kind.
   */
  lemma RegistryNumbersDistinctIff(digest: Digest, ops: seq<Op>)
    requires FreshIds(digest, EMPTY, ops) && Dated(ops)
    ensures NumbersAreDistinct(Run(digest, EMPTY, ops).journals) <==> forall i: nat, j: nat :: !Clash(digest, ops, i, j)
  {
    var journals := Run(digest, EMPTY, ops).journals;
    if i: nat, j: nat :| Clash(digest, ops, i, j) {
      CreationStays(digest, ops, i);
      CreationStays(digest, ops, j);
      CreationsHaveOwnIds(digest, ops, i, j);
      assert !NumbersAreDistinct(journals);
    }
    if a, b :| a in journals && b in journals && a != b && journals[a].number == journals[b].number {
      var i := CreationOf(digest, ops, a);
      var j := CreationOf(digest, ops, b);
      if i < j {
        SameNumberMeansClash(digest, ops, i, j);
      } else {
        SameNumberMeansClash(digest, ops, j, i);
      }
    }
  }

  /** The caller supplies distinct numbers, none of which begins as drawn ones do. */
  ghost predicate OwnNumbers(ops: seq<Op>) {
    && (forall i :: 0 <= i < |ops| && Supplies(ops[i]) ==> !(DEFAULT_PREFIX + "-" <= ops[i].request.number.value))
    && (forall i, j :: 0 <= i < j < |ops| && Supplies(ops[i]) && Supplies(ops[j]) ==>
          ops[i].request.number != ops[j].request.number)
  }

  lemma DrawnBeginsWithPrefix(digest: Digest, ops: seq<Op>, i: nat)
    requires i < |ops| && Registers(ops[i])
    ensures if NumberGiven(ops[i].request) then NumberAt(digest, ops, i) == ops[i].request.number.value
            else DEFAULT_PREFIX + "-" <= NumberAt(digest, ops, i)
  {
  }

  lemma OwnNumbersDoNotClash(digest: Digest, ops: seq<Op>, i: nat, j: nat)
    requires OwnNumbers(ops)
    ensures !Clash(digest, ops, i, j)
  {
    if i < j < |ops| && Registers(ops[i]) && Registers(ops[j]) {
      DrawnBeginsWithPrefix(digest, ops, i);
      DrawnBeginsWithPrefix(digest, ops, j);
    }
  }

  /** Such a caller is safe. */
  lemma OwnPrefixIsSafe(digest: Digest, ops: seq<Op>)
    requires FreshIds(digest, EMPTY, ops) && Dated(ops) && OwnNumbers(ops)
    ensures NumbersAreDistinct(Run(digest, EMPTY, ops).journals)
  {
    forall i: nat, j: nat
      ensures !Clash(digest, ops, i, j)
    {
      OwnNumbersDoNotClash(digest, ops, i, j);
    }
    RegistryNumbersDistinctIff(digest, ops);
  }

  // ----- Hashes and severities

  /** The digest does not collide on these two. */
  ghost predicate Separates(digest: Digest, a: HashContent, b: HashContent) {
    digest(a) == digest(b) ==> a == b
  }

  /** The stored hash is that of the draft: it matches exactly while the journal is one. */
  lemma HashIsStaleAfterMoves(digest: Digest, st: State, id: string)
    requires Inv(digest, st) && id in st.journals
    requires var j := st.journals[id]; Separates(digest, ContentOf(j), ContentOf(j.(status := Draft, version := 1)))
    ensures st.journals[id].hash == digest(ContentOf(st.journals[id])) <==> st.journals[id].status == Draft
  {
    var j := st.journals[id];
    if j.status == Draft {
      assert j.(status := Draft, version := 1) == j;
    }
  }

  lemma {:induction false} TotalsAreNonNegative(lines: seq<Line>, side: Side)
    requires LinesOk(lines)
    ensures Total(lines, side) >= 0.0
    ensures lines != [] ==> Total(lines, Debit) + Total(lines, Credit) > 0.0
    decreases |lines|
  {
    if lines != [] {
      TotalsAreNonNegative(lines[..|lines| - 1], Debit);
      TotalsAreNonNegative(lines[..|lines| - 1], Credit);
    }
  }

  /** Enforcement raises exactly when the difference exceeds both the tolerance and 1% of the larger side. */
  lemma EnforceRaisesIff(j: Journal, tolerance: real)
    requires j.lines != [] && LinesOk(j.lines)
    ensures Raises(VerificationOf(j, tolerance), true) <==>
            Abs(Difference(j.lines)) > tolerance &&
            Abs(Difference(j.lines)) > 0.01 * Max(Total(j.lines, Debit), Total(j.lines, Credit))
  {
    TotalsAreNonNegative(j.lines, Debit);
    TotalsAreNonNegative(j.lines, Credit);
    RatioAbove(Abs(Difference(j.lines)), Max(Total(j.lines, Debit), Total(j.lines, Credit)), 0.01);
  }

  /** The severities are bands of the difference, as a share of the larger side. */
  lemma SeverityBands(difference: real, debit: real, credit: real, tolerance: real)
    requires Max(debit, credit) > 0.0
    ensures var s := DetermineSeverity(difference, debit, credit, tolerance);
            var x := Abs(difference);
            var most := Max(debit, credit);
            && (s == Catastrophic <==> x > 0.5 * most)
            && (s == Critical <==> 0.1 * most < x <= 0.5 * most)
            && (s == High <==> 0.01 * most < x <= 0.1 * most)
            && (s == Medium <==> 0.001 * most < x <= 0.01 * most)
            && (s == Low <==> tolerance * most < x <= 0.001 * most)
            && (s == Info <==> x <= 0.001 * most && x <= tolerance * most)
  {
    var x, most := Abs(difference), Max(debit, credit);
    RatioAbove(x, most, 0.5);
    RatioAbove(x, most, 0.1);
    RatioAbove(x, most, 0.01);
    RatioAbove(x, most, 0.001);
    RatioAbove(x, most, tolerance);
  }

  lemma RatioAbove(x: real, y: real, bound: real)
    requires y > 0.0
    ensures x / y > bound <==> x > bound * y
  {
    var q := x / y;
    assert q * y == x;
    if q > bound {
      assert (q - bound) * y > 0.0;
    } else {
      assert (bound - q) * y >= 0.0;
    }
  }
}
