/** The rate-limited tamper alarm (audit/tamper_alert_trigger.py). */
module TamperAlarm {
  import opened Basics
  import opened HashChain
  import opened ChainBuilder
  import opened ChainTheorems

  // ----- The cooldown as a function of the failing checks

  /** When each stream last raised an alert, in microseconds. */
  type Clocks = map<string, int>

  predicate Due(last: Clocks, cooldown: int, stream: string, now: int) {
    stream !in last || now - last[stream] >= cooldown
  }

  function AfterFailure(last: Clocks, cooldown: int, stream: string, now: int): Clocks {
    if Due(last, cooldown, stream, now) then last[stream := now] else last
  }

  /** A check that found tampering. */
  datatype Failure = Failure(stream: string, at: int)

  function ClocksAfter(cooldown: int, fails: seq<Failure>): Clocks {
    if fails == [] then map[]
    else
      var f := fails[|fails| - 1];
      AfterFailure(ClocksAfter(cooldown, fails[..|fails| - 1]), cooldown, f.stream, f.at)
  }

  /** The times at which a new alarm raised an alert for `stream`. */
  function Alerts(cooldown: int, fails: seq<Failure>, stream: string): seq<int> {
    if fails == [] then []
    else
      var before, f := fails[..|fails| - 1], fails[|fails| - 1];
      Alerts(cooldown, before, stream) +
      if f.stream == stream && Due(ClocksAfter(cooldown, before), cooldown, stream, f.at) then [f.at] else []
  }

  lemma {:induction false} ClockShowsLastAlert(cooldown: int, fails: seq<Failure>, stream: string)
    ensures stream in ClocksAfter(cooldown, fails) <==> Alerts(cooldown, fails, stream) != []
    ensures stream in ClocksAfter(cooldown, fails) ==>
              var a := Alerts(cooldown, fails, stream); ClocksAfter(cooldown, fails)[stream] == a[|a| - 1]
    decreases |fails|
  {
    if fails != [] {
      ClockShowsLastAlert(cooldown, fails[..|fails| - 1], stream);
    }
  }

  /** Any two alerts are at least a cooldown apart. */
  ghost predicate Spaced(ts: seq<int>, cooldown: int) {
    forall i, j :: 0 <= i < j < |ts| ==> ts[j] - ts[i] >= cooldown
  }

  lemma {:induction false} AlertsAreSpaced(cooldown: int, fails: seq<Failure>, stream: string)
    requires cooldown > 0
    ensures Spaced(Alerts(cooldown, fails, stream), cooldown)
    decreases |fails|
  {
    if fails != [] {
      var before := fails[..|fails| - 1];
      AlertsAreSpaced(cooldown, before, stream);
      ClockShowsLastAlert(cooldown, before, stream);
      var a := Alerts(cooldown, before, stream);
      var all := Alerts(cooldown, fails, stream);
      forall i, j | 0 <= i < j < |all|
        ensures all[j] - all[i] >= cooldown
      {
        if j == |a| && i < |a| - 1 {
          assert a[|a| - 1] - a[i] >= cooldown;
        }
      }
    }
  }

  function InWindow(ts: seq<int>, from: int, width: int): seq<int> {
    Filter(ts, t => from <= t <= from + width)
  }

  lemma {:induction false} WindowIsSpaced(ts: seq<int>, cooldown: int, from: int, width: int)
    requires Spaced(ts, cooldown)
    ensures Spaced(InWindow(ts, from, width), cooldown)
    decreases |ts|
  {
    if ts != [] {
      var before, x := ts[..|ts| - 1], ts[|ts| - 1];
      WindowIsSpaced(before, cooldown, from, width);
      var f := InWindow(before, from, width);
      forall i | 0 <= i < |f|
        ensures x - f[i] >= cooldown
      {
        assert f[i] in before;
      }
    }
  }

  lemma {:induction false} SpacedSpan(ts: seq<int>, cooldown: int)
    requires Spaced(ts, cooldown) && ts != []
    ensures ts[|ts| - 1] - ts[0] >= (|ts| - 1) * cooldown
  {
    if |ts| > 1 {
      SpacedSpan(ts[..|ts| - 1], cooldown);
      assert ts[|ts| - 1] - ts[|ts| - 2] >= cooldown;
      assert (|ts| - 1) * cooldown == (|ts| - 2) * cooldown + cooldown;
    }
  }

  lemma DivisionBound(n: int, d: int, w: int)
    requires d > 0 && n * d <= w
    ensures n <= w / d
  {
    CancelFactor(n, w / d + 1, d);
  }

  lemma CancelFactor(n: int, m: int, d: int)
    requires d > 0 && n * d < m * d
    ensures n < m
  {
  }

  /** Whatever the clock does, a window of length `width` holds at most width/cooldown + 1 alerts. */
  lemma AlertRateBound(cooldown: int, fails: seq<Failure>, stream: string, from: int, width: nat)
    requires cooldown > 0
    ensures |InWindow(Alerts(cooldown, fails, stream), from, width)| <= width / cooldown + 1
  {
    var ts := Alerts(cooldown, fails, stream);
    AlertsAreSpaced(cooldown, fails, stream);
    WindowIsSpaced(ts, cooldown, from, width);
    var f := InWindow(ts, from, width);
    if f != [] {
      SpacedSpan(f, cooldown);
      assert f[0] in f && f[|f| - 1] in f;
      DivisionBound(|f| - 1, cooldown, width);
    } else {
      DivisionBound(0, cooldown, width);
    }
  }

  lemma AlertsSnoc(cooldown: int, fails: seq<Failure>, f: Failure)
    ensures Alerts(cooldown, fails + [f], f.stream)
         == Alerts(cooldown, fails, f.stream) +
            if Due(ClocksAfter(cooldown, fails), cooldown, f.stream, f.at) then [f.at] else []
  {
    assert (fails + [f])[..|fails|] == fails;
  }

  lemma ClocksSnoc(cooldown: int, fails: seq<Failure>, f: Failure)
    ensures ClocksAfter(cooldown, fails + [f])
         == AfterFailure(ClocksAfter(cooldown, fails), cooldown, f.stream, f.at)
  {
    assert (fails + [f])[..|fails|] == fails;
  }

  /** A failing check raises an alert exactly when no earlier alert lies within its cooldown. */
  lemma SilencedIff(cooldown: int, fails: seq<Failure>, f: Failure)
    requires cooldown > 0
    ensures Alerts(cooldown, fails + [f], f.stream)
         == Alerts(cooldown, fails, f.stream) +
            if exists a :: a in Alerts(cooldown, fails, f.stream) && f.at < a + cooldown then [] else [f.at]
  {
    AlertsSnoc(cooldown, fails, f);
    ClockShowsLastAlert(cooldown, fails, f.stream);
    AlertsAreSpaced(cooldown, fails, f.stream);
    var ts := Alerts(cooldown, fails, f.stream);
    if ts != [] {
      assert ts[|ts| - 1] in ts;
      forall a | a in ts
        ensures a <= ts[|ts| - 1]
      {
      }
    }
  }

  /** Alerts of one stream never depend on another stream's failures. */
  lemma {:induction false} StreamsDoNotInterfere(cooldown: int, fails: seq<Failure>, stream: string)
    ensures Alerts(cooldown, fails, stream)
         == Alerts(cooldown, Filter(fails, (f: Failure) => f.stream == stream), stream)
    decreases |fails|
  {
    var mine := (f: Failure) => f.stream == stream;
    if fails != [] {
      var before, f := fails[..|fails| - 1], fails[|fails| - 1];
      var own := Filter(before, mine);
      StreamsDoNotInterfere(cooldown, before, stream);
      if f.stream == stream {
        ClockShowsLastAlert(cooldown, before, stream);
        ClockShowsLastAlert(cooldown, own, stream);
        AlertsSnoc(cooldown, own, f);
      }
    }
  }

  // ----- The checks

  /** What a check reports. A store that fails to answer counts as invalid, with no index. */
  datatype Report = Report(stream: string, valid: bool, brokenAt: Option<nat>, checked: nat)

  function ReportOn(c: Crypto, stream: string, read: Result<seq<Rec>, string>): Report {
    match read
    case Err(_) => Report(stream, false, None, 0)
    case Ok(s) =>
      Report(stream, Accepted(c, s), if Accepted(c, s) then None else Some(FirstBroken(c, s)), |s|)
  }

  /** The report names its stream, says what verification found, and counts the records read. */
  ghost predicate Tells(r: Report, c: Crypto, stream: string, read: Result<seq<Rec>, string>) {
    && r.stream == stream
    && (r.valid <==> read.Ok? && Accepted(c, read.value))
    && r.brokenAt == (if read.Ok? && !r.valid then Some(FirstBroken(c, read.value)) else None)
    && r.checked == if read.Ok? then |read.value| else 0
  }

  lemma ReportTells(c: Crypto, stream: string, read: Result<seq<Rec>, string>)
    ensures Tells(ReportOn(c, stream, read), c, stream, read)
  {
  }

  /** Whether the check found tampering; a failing store does not count. */
  predicate Tampered(c: Crypto, read: Result<seq<Rec>, string>) {
    read.Ok? && !Accepted(c, read.value)
  }

  function ReadView(read: Result<seq<Record>, string>): Result<seq<Rec>, string>
    reads RecordsOf(read)
  {
    match read
    case Ok(records) => Ok(Views(records))
    case Err(e) => Err(e)
  }

  function RecordsOf(read: Result<seq<Record>, string>): set<Record> {
    if read.Ok? then set r | r in read.value else {}
  }

  /** What each record object of `all` holds. */
  ghost function ViewsOf(all: set<Record>): (views: map<Record, Rec>)
    reads all
    ensures views.Keys == all
  {
    map r | r in all :: r.View()
  }

  ghost function Look(views: map<Record, Rec>, records: seq<Record>): (s: seq<Rec>)
    requires forall r :: r in records ==> r in views
    ensures |s| == |records| && forall i :: 0 <= i < |s| ==> s[i] == views[records[i]]
  {
    seq(|records|, i requires 0 <= i < |records| => views[records[i]])
  }

  lemma LookIsViews(all: set<Record>, records: seq<Record>)
    requires forall r :: r in records ==> r in all
    ensures Look(ViewsOf(all), records) == Views(records)
  {
  }

  ghost predicate Within(read: Result<seq<Record>, string>, all: set<Record>) {
    read.Ok? ==> Distinct(read.value) && forall r :: r in read.value ==> r in all
  }

  /** What an answer of the store reads like when its records hold `views`. */
  ghost function ReadIn(views: map<Record, Rec>, read: Result<seq<Record>, string>): Result<seq<Rec>, string>
    requires Within(read, views.Keys)
  {
    match read
    case Ok(records) => Ok(Look(views, records))
    case Err(e) => Err(e)
  }

  /** `views` after `records` were assigned `recs`. */
  ghost function Assigned(views: map<Record, Rec>, records: seq<Record>, recs: seq<Rec>): map<Record, Rec>
    requires |records| == |recs|
  {
    if records == [] then views
    else
      var n := |records| - 1;
      Assigned(views, records[..n], recs[..n])[records[n] := recs[n]]
  }

  lemma {:induction false} AssignedAt(views: map<Record, Rec>, records: seq<Record>, recs: seq<Rec>, r: Record)
    requires |records| == |recs| && Distinct(records)
    ensures r in Assigned(views, records, recs) <==> r in views || r in records
    ensures r !in records && r in views ==> Assigned(views, records, recs)[r] == views[r]
    ensures forall i :: 0 <= i < |records| && records[i] == r ==> Assigned(views, records, recs)[r] == recs[i]
    decreases |records|
  {
    if records != [] {
      var n := |records| - 1;
      AssignedAt(views, records[..n], recs[..n], r);
      assert records == records[..n] + [records[n]];
    }
  }

  lemma AssignedKeys(views: map<Record, Rec>, records: seq<Record>, recs: seq<Rec>)
    requires |records| == |recs| && Distinct(records) && forall r :: r in records ==> r in views
    ensures Assigned(views, records, recs).Keys == views.Keys
  {
    forall r
      ensures r in Assigned(views, records, recs) <==> r in views
    {
      AssignedAt(views, records, recs, r);
    }
    assert Assigned(views, records, recs).Keys == views.Keys;
  }

  /** What the records of an answer hold after one check. */
  function Left(c: Crypto, autoRepair: bool, s: seq<Rec>): (t: seq<Rec>)
    ensures |t| == |s|
  {
    if autoRepair && !Accepted(c, s) then RepairResult(c, s, FirstBroken(c, s)) else s
  }

  /** What all records hold after one check: only those of the answer it looked at can change. */
  ghost function ViewsAfter(c: Crypto, autoRepair: bool, views: map<Record, Rec>, read: Result<seq<Record>, string>)
    : (now: map<Record, Rec>)
    requires Within(read, views.Keys)
    ensures now.Keys == views.Keys
  {
    match read
    case Err(_) => views
    case Ok(records) =>
      var now := Left(c, autoRepair, Look(views, records));
      AssignedKeys(views, records, now);
      Assigned(views, records, now)
  }

  /** Every list of the store is made of distinct objects in `all`; different lists may share some. */
  ghost predicate Answers(answers: seq<Result<seq<Record>, string>>, all: set<Record>) {
    forall i :: 0 <= i < |answers| ==> Within(answers[i], all)
  }

  /** What the records hold when the first `n` answers have been checked. */
  ghost function ViewsUpTo(c: Crypto, autoRepair: bool, views: map<Record, Rec>,
                           answers: seq<Result<seq<Record>, string>>, n: nat): (now: map<Record, Rec>)
    requires n <= |answers| && Answers(answers, views.Keys)
    ensures now.Keys == views.Keys
  {
    if n == 0 then views
    else ViewsAfter(c, autoRepair, ViewsUpTo(c, autoRepair, views, answers, n - 1), answers[n - 1])
  }

  /** The answers as the checks see them, each after the repairs of the checks before it. */
  ghost function Seen(c: Crypto, autoRepair: bool, views: map<Record, Rec>, answers: seq<Result<seq<Record>, string>>)
    : (was: seq<Result<seq<Rec>, string>>)
    requires Answers(answers, views.Keys)
    ensures |was| == |answers|
  {
    seq(|answers|, i requires 0 <= i < |answers| =>
      ReadIn(ViewsUpTo(c, autoRepair, views, answers, i), answers[i]))
  }

  /** Check `i` sees `was[i]` and takes the records from `path[i]` to `path[i + 1]`. */
  ghost predicate StepsAt(c: Crypto, autoRepair: bool, path: seq<map<Record, Rec>>,
                          answers: seq<Result<seq<Record>, string>>, was: seq<Result<seq<Rec>, string>>, i: nat)
    requires i < |was| == |answers| == |path| - 1
  {
    && Within(answers[i], path[i].Keys)
    && was[i] == ReadIn(path[i], answers[i])
    && path[i + 1] == ViewsAfter(c, autoRepair, path[i], answers[i])
  }

  /** What the records hold before each check, and at the end. */
  ghost function Path(c: Crypto, autoRepair: bool, views: map<Record, Rec>, answers: seq<Result<seq<Record>, string>>)
    : (path: seq<map<Record, Rec>>)
    requires Answers(answers, views.Keys)
    ensures |path| == |answers| + 1
  {
    seq(|answers| + 1, i requires 0 <= i <= |answers| => ViewsUpTo(c, autoRepair, views, answers, i))
  }

  lemma PathStepsAt(c: Crypto, autoRepair: bool, views: map<Record, Rec>,
                    answers: seq<Result<seq<Record>, string>>, i: nat)
    requires Answers(answers, views.Keys) && i < |answers|
    ensures StepsAt(c, autoRepair, Path(c, autoRepair, views, answers), answers, Seen(c, autoRepair, views, answers), i)
  {
    var path := Path(c, autoRepair, views, answers);
    var before := ViewsUpTo(c, autoRepair, views, answers, i);
    assert path[i] == before && Within(answers[i], before.Keys);
    assert path[i + 1] == ViewsUpTo(c, autoRepair, views, answers, i + 1);
    assert ViewsUpTo(c, autoRepair, views, answers, i + 1) == ViewsAfter(c, autoRepair, before, answers[i]);
    assert Seen(c, autoRepair, views, answers)[i] == ReadIn(before, answers[i]);
  }

  /** The reports on the first `n` streams. */
  function ReportsUpTo(c: Crypto, streams: seq<string>, was: seq<Result<seq<Rec>, string>>, n: nat)
    : (reports: seq<Report>)
    requires n <= |streams| == |was|
    ensures |reports| == n
  {
    if n == 0 then [] else ReportsUpTo(c, streams, was, n - 1) + [ReportOn(c, streams[n - 1], was[n - 1])]
  }

  lemma {:induction false} ReportsTell(c: Crypto, streams: seq<string>, was: seq<Result<seq<Rec>, string>>, n: nat)
    requires n <= |streams| == |was|
    ensures forall i :: 0 <= i < n ==> Tells(ReportsUpTo(c, streams, was, n)[i], c, streams[i], was[i])
  {
    if n > 0 {
      ReportsTell(c, streams, was, n - 1);
      ReportTells(c, streams[n - 1], was[n - 1]);
    }
  }

  /** `fails` continued with the failing checks among the first `n` streams. */
  function FailuresUpTo(fails: seq<Failure>, c: Crypto, streams: seq<string>, was: seq<Result<seq<Rec>, string>>,
                        clock: seq<int>, n: nat): seq<Failure>
    requires n <= |streams| == |was| == |clock|
  {
    if n == 0 then fails
    else
      FailuresUpTo(fails, c, streams, was, clock, n - 1) + FailureOf(c, streams[n - 1], was[n - 1], clock[n - 1])
  }

  /** The failing check that one answer amounts to, if it does. */
  function FailureOf(c: Crypto, stream: string, was: Result<seq<Rec>, string>, now: int): seq<Failure> {
    if Tampered(c, was) then [Failure(stream, now)] else []
  }

  /** `TamperAlertTrigger`; the ghost field records the failing checks so far. */
  class Alarm {
    const builder: Builder
    const cooldown: int
    const autoRepair: bool
    const stopAtFirst: bool
    var lastAlert: Clocks
    ghost var failures: seq<Failure>

    constructor (builder: Builder, cooldown: int, autoRepair: bool, stopAtFirst: bool)
      ensures this.builder == builder && this.cooldown == cooldown
      ensures this.autoRepair == autoRepair && this.stopAtFirst == stopAtFirst
      ensures Valid() && failures == []
    {
      this.builder, this.cooldown := builder, cooldown;
      this.autoRepair, this.stopAtFirst := autoRepair, stopAtFirst;
      lastAlert, failures := map[], [];
    }

    ghost predicate Valid()
      reads this
    {
      lastAlert == ClocksAfter(cooldown, failures)
    }

    method SendAlert(stream: string, now: int) returns (sent: bool)
      requires Valid()
      modifies this
      ensures Valid() && failures == old(failures) + [Failure(stream, now)]
      ensures Alerts(cooldown, failures, stream)
           == Alerts(cooldown, old(failures), stream) + if sent then [now] else []
    {
      AlertsSnoc(cooldown, failures, Failure(stream, now));
      ClocksSnoc(cooldown, failures, Failure(stream, now));
      failures := failures + [Failure(stream, now)];
      if stream in lastAlert {
        if now - lastAlert[stream] < cooldown {
          return false;
        }
      }
      lastAlert := lastAlert[stream := now];
      sent := true;
    }

    /** `read` is what the store answers, `now` the clock when the alert is considered. */
    method CheckStream(stream: string, read: Result<seq<Record>, string>, now: int)
      returns (report: Report, sent: bool)
      requires Valid() && (read.Ok? ==> Distinct(read.value))
      modifies this, builder, RecordsOf(read)
      ensures Valid() && report == ReportOn(builder.c, stream, old(ReadView(read)))
      ensures Tells(report, builder.c, stream, old(ReadView(read)))
      ensures failures == old(failures) + FailureOf(builder.c, stream, old(ReadView(read)), now)
      ensures read.Ok? && !report.valid ==> failures == old(failures) + [Failure(stream, now)]
      ensures read.Err? || report.valid ==> failures == old(failures) && !sent
      ensures read.Ok? && (report.valid || !autoRepair) ==> Views(read.value) == old(Views(read.value))
      ensures OthersKept(old(builder.cache), builder.cache, Some(stream))
      ensures Alerts(cooldown, failures, stream)
           == Alerts(cooldown, old(failures), stream) + if sent then [now] else []
      ensures builder.cache
           == if report.valid && read.Ok? then
                CacheAfterVerify(builder.c, old(builder.cache), Some(stream), old(Views(read.value)))
              else
                old(builder.cache)
      ensures read.Ok? ==>
        Views(read.value) == Left(builder.c, autoRepair, old(Views(read.value)))
    {
      sent := false;
      if read.Err? {
        return Report(stream, false, None, 0), false;
      }
      var events := read.value;
      report := Report(stream, true, None, |events|);
      if events == [] {
        return;
      }
      var v := builder.VerifyChain(events, Some(stream));
      report := report.(valid := v.valid, brokenAt := if v.valid then None else v.brokenAt);
      if !v.valid {
        sent := OnTampering(stream, events, v.brokenAt.value, now);
      }
    }

    /** What follows a failed verification: the alert, and the repair if configured. */
    method OnTampering(stream: string, events: seq<Record>, brokenAt: nat, now: int) returns (sent: bool)
      requires Valid() && Distinct(events)
      modifies this, events
      ensures Valid() && failures == old(failures) + [Failure(stream, now)]
      ensures Alerts(cooldown, failures, stream)
           == Alerts(cooldown, old(failures), stream) + if sent then [now] else []
      ensures Views(events)
           == if autoRepair then RepairResult(builder.c, old(Views(events)), brokenAt) else old(Views(events))
    {
      sent := SendAlert(stream, now);
      if autoRepair {
        var _ := builder.RepairChain(events, brokenAt);
      }
    }

    /** The body of the loop over the streams; `all` holds the records of every answer. */
    method CheckOne(stream: string, read: Result<seq<Record>, string>, now: int, ghost all: set<Record>)
      returns (report: Report)
      requires Valid() && Within(read, all)
      modifies this, builder, all
      ensures Valid() && report == ReportOn(builder.c, stream, ReadIn(old(ViewsOf(all)), read))
      ensures failures == old(failures) + FailureOf(builder.c, stream, ReadIn(old(ViewsOf(all)), read), now)
      ensures ViewsOf(all) == ViewsAfter(builder.c, autoRepair, old(ViewsOf(all)), read)
    {
      ghost var views := ViewsOf(all);
      var sent;
      if read.Err? {
        report, sent := CheckStream(stream, read, now);
        assert ViewsOf(all) == views;
        return;
      }
      LookIsViews(all, read.value);
      report, sent := CheckStream(stream, read, now);
      ViewsFollow(views, all, read.value, Views(read.value));
    }

    /** The body of the loop over the streams. */
    method CheckNth(streams: seq<string>, answers: seq<Result<seq<Record>, string>>, clock: seq<int>, i: nat,
                    ghost all: set<Record>, ghost path: seq<map<Record, Rec>>, ghost was: seq<Result<seq<Rec>, string>>)
      returns (report: Report)
      requires Valid() && i < |streams| == |answers| == |clock| == |was| == |path| - 1
      requires ViewsOf(all) == path[i] && StepsAt(builder.c, autoRepair, path, answers, was, i)
      modifies this, builder, all
      ensures Valid() && report == ReportOn(builder.c, streams[i], was[i])
      ensures failures == old(failures) + FailureOf(builder.c, streams[i], was[i], clock[i])
      ensures ViewsOf(all) == path[i + 1]
    {
      report := CheckOne(streams[i], answers[i], clock[i], all);
    }

    /** `check_all_streams`: the streams in order, up to the first failure if so configured. */
    method CheckAllStreams(streams: seq<string>, answers: seq<Result<seq<Record>, string>>, clock: seq<int>,
                           ghost all: set<Record>)
      returns (reports: seq<Report>)
      requires Valid() && |streams| == |answers| == |clock| && Answers(answers, all)
      modifies this, builder, all
      ensures Valid() && |reports| <= |streams|
      ensures var was := Seen(builder.c, autoRepair, old(ViewsOf(all)), answers);
              && reports == ReportsUpTo(builder.c, streams, was, |reports|)
              && failures == FailuresUpTo(old(failures), builder.c, streams, was, clock, |reports|)
      ensures forall i :: 0 <= i < |reports| - 1 && stopAtFirst ==> reports[i].valid
      ensures |reports| < |streams| ==> stopAtFirst && reports != [] && !reports[|reports| - 1].valid
      ensures ViewsOf(all) == ViewsUpTo(builder.c, autoRepair, old(ViewsOf(all)), answers, |reports|)
      ensures forall i :: 0 <= i < |reports| ==>
                Tells(reports[i], builder.c, streams[i], Seen(builder.c, autoRepair, old(ViewsOf(all)), answers)[i])
    {
      ghost var views := ViewsOf(all);
      ghost var was := Seen(builder.c, autoRepair, views, answers);
      ghost var path := Path(builder.c, autoRepair, views, answers);
      forall i: nat | i < |was|
        ensures StepsAt(builder.c, autoRepair, path, answers, was, i)
      {
        PathStepsAt(builder.c, autoRepair, views, answers, i);
      }
      reports := CheckAlong(streams, answers, clock, all, path, was);
      ReportsTell(builder.c, streams, was, |reports|);
    }

    /** The loop over the streams. */
    method CheckAlong(streams: seq<string>, answers: seq<Result<seq<Record>, string>>, clock: seq<int>,
                      ghost all: set<Record>, ghost path: seq<map<Record, Rec>>,
                      ghost was: seq<Result<seq<Rec>, string>>)
      returns (reports: seq<Report>)
      requires Valid() && |streams| == |answers| == |clock| == |was| == |path| - 1 && ViewsOf(all) == path[0]
      requires forall i: nat :: i < |was| ==> StepsAt(builder.c, autoRepair, path, answers, was, i)
      modifies this, builder, all
      ensures Valid() && |reports| <= |streams|
      ensures reports == ReportsUpTo(builder.c, streams, was, |reports|)
      ensures failures == FailuresUpTo(old(failures), builder.c, streams, was, clock, |reports|)
      ensures forall i :: 0 <= i < |reports| - 1 && stopAtFirst ==> reports[i].valid
      ensures |reports| < |streams| ==> stopAtFirst && reports != [] && !reports[|reports| - 1].valid
      ensures ViewsOf(all) == path[|reports|]
    {
      reports := [];
      for i := 0 to |streams|
        invariant Valid() && reports == ReportsUpTo(builder.c, streams, was, i)
        invariant stopAtFirst ==> forall j :: 0 <= j < i ==> reports[j].valid
        invariant ViewsOf(all) == path[i]
        invariant failures == FailuresUpTo(old(failures), builder.c, streams, was, clock, i)
      {
        var report := CheckNth(streams, answers, clock, i, all, path, was);
        reports := reports + [report];
        if !report.valid && stopAtFirst {
          return;
        }
      }
    }
  }

  /** If only `records` changed, the views are the old ones with theirs assigned. */
  lemma ViewsFollow(views: map<Record, Rec>, all: set<Record>, records: seq<Record>, now: seq<Rec>)
    requires Distinct(records) && |now| == |records| && now == Views(records)
    requires views.Keys == all && forall r :: r in records ==> r in all
    requires forall r :: r in all && r !in records ==> r.View() == views[r]
    ensures ViewsOf(all) == Assigned(views, records, now)
  {
    AssignedKeys(views, records, now);
    forall r | r in all
      ensures r.View() == Assigned(views, records, now)[r]
    {
      AssignedAt(views, records, now, r);
    }
  }

  lemma AssignedSame(views: map<Record, Rec>, records: seq<Record>)
    requires Distinct(records) && forall r :: r in records ==> r in views
    ensures Assigned(views, records, Look(views, records)) == views
  {
    AssignedKeys(views, records, Look(views, records));
    forall r | r in views
      ensures Assigned(views, records, Look(views, records))[r] == views[r]
    {
      AssignedAt(views, records, Look(views, records), r);
    }
  }

  /** Without automatic repair every check sees the answers as the store gave them. */
  lemma {:induction false} WithoutRepairNothingChanges(c: Crypto, views: map<Record, Rec>,
                                                       answers: seq<Result<seq<Record>, string>>, n: nat)
    requires n <= |answers| && Answers(answers, views.Keys)
    ensures ViewsUpTo(c, false, views, answers, n) == views
  {
    if n > 0 {
      WithoutRepairNothingChanges(c, views, answers, n - 1);
      if answers[n - 1].Ok? {
        AssignedSame(views, answers[n - 1].value);
      }
    }
  }

  /** With it, no list of records is found tampered with twice in a row: a second look passes. */
  lemma SecondLookPasses(c: Crypto, views: map<Record, Rec>, read: Result<seq<Record>, string>)
    requires Within(read, views.Keys)
    ensures !Tampered(c, ReadIn(ViewsAfter(c, true, views, read), read))
  {
    if read.Ok? {
      var s := Look(views, read.value);
      RepairWorksIff(c, s, FirstBroken(c, s));
      LookAtAssigned(views, read.value, Left(c, true, s));
    }
  }

  lemma LookAtAssigned(views: map<Record, Rec>, records: seq<Record>, recs: seq<Rec>)
    requires |records| == |recs| && Distinct(records) && forall r :: r in records ==> r in views
    ensures Assigned(views, records, recs).Keys == views.Keys
    ensures Look(Assigned(views, records, recs), records) == recs
  {
    AssignedKeys(views, records, recs);
    forall i | 0 <= i < |records|
      ensures Assigned(views, records, recs)[records[i]] == recs[i]
    {
      AssignedAt(views, records, recs, records[i]);
    }
  }

  /** With automatic repair a tampered stream passes the very next check: the evidence is gone. */
  lemma AutoRepairErasesEvidence(c: Crypto, stream: string, s: seq<Rec>)
    requires !Accepted(c, s)
    ensures var k := ReportOn(c, stream, Ok(s)).brokenAt.value;
            ReportOn(c, stream, Ok(RepairResult(c, s, k))).valid
    ensures var k := ReportOn(c, stream, Ok(s)).brokenAt.value;
            !Tampered(c, Ok(RepairResult(c, s, k)))
  {
    RepairWorksIff(c, s, FirstBroken(c, s));
  }
}
