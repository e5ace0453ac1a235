/** The service that builds, verifies and repairs chains, with its per-stream cache. */
module ChainBuilder {
  import opened Basics
  import opened HashChain

  /** What a failed verification complains about. */
  datatype Breach = LinkMismatch | HashMismatch

  datatype Verdict = Verdict(valid: bool, brokenAt: Option<nat>, breach: Option<Breach>)

  type Cache = map<string, string>

  /** `if stream_name:` */
  predicate Named(stream: Option<string>) {
    stream.Some? && stream.value != ""
  }

  // ----- Specification of building

  /** One round of the building loop: a hash that is already there is kept. */
  function Stamp(c: Crypto, r: Rec, last: string): (t: Rec)
    ensures t.hash.Text?
  {
    var linked := r.(previous := Text(last));
    if r.hash.Truthy() then linked else linked.(hash := Text(RecordHash(c, linked, Text(last))))
  }

  ghost predicate Hashed(s: seq<Rec>) {
    forall i :: 0 <= i < |s| ==> s[i].hash.Text?
  }

  /** The hash before position `i` in a chain that continues from `start`. */
  function HashBefore(s: seq<Rec>, start: string, i: nat): string
    requires i <= |s| && Hashed(s)
  {
    if i == 0 then start else s[i - 1].hash.text
  }

  /** The hash a batch hands on: its last record's, or `start` when there is none. */
  function EndHash(s: seq<Rec>, start: string): string
    requires Hashed(s)
  {
    HashBefore(s, start, |s|)
  }

  function Built(c: Crypto, s: seq<Rec>, start: string): (t: seq<Rec>)
    ensures |t| == |s|
    ensures Hashed(t)
  {
    if s == [] then []
    else
      var before := Built(c, s[..|s| - 1], start);
      before + [Stamp(c, s[|s| - 1], EndHash(before, start))]
  }

  function StartHash(c: Crypto, cache: Cache, stream: Option<string>): string {
    if Named(stream) && stream.value in cache then cache[stream.value] else Genesis(c)
  }

  /** The cache after building `s` on `stream`; an empty batch leaves it alone. */
  function CacheAfterBuild(c: Crypto, cache: Cache, stream: Option<string>, s: seq<Rec>): Cache {
    if Named(stream) && s != [] then
      var start := StartHash(c, cache, stream);
      cache[stream.value := EndHash(Built(c, s, start), start)]
    else
      cache
  }

  /** The cache after a verification of `s` on `stream` that succeeded. */
  function CacheAfterVerify(c: Crypto, cache: Cache, stream: Option<string>, s: seq<Rec>): Cache {
    if Named(stream) && s != [] && s[|s| - 1].hash.Text? then
      cache[stream.value := s[|s| - 1].hash.text]
    else
      cache
  }

  /** Every stream but `stream` is known as before, with the same last hash. */
  ghost predicate OthersKept(was: Cache, now: Cache, stream: Option<string>) {
    forall n :: stream != Some(n) ==> (n in now <==> n in was) && (n in was ==> now[n] == was[n])
  }

  lemma CacheOfBatch(c: Crypto, cache: Cache, stream: Option<string>, s: seq<Rec>, last: string)
    requires var start := StartHash(c, cache, stream); s != [] && last == EndHash(Built(c, s, start), start)
    ensures CacheAfterBuild(c, cache, stream, s) == if Named(stream) then cache[stream.value := last] else cache
  {
  }

  lemma {:induction false} BuiltPrefix(c: Crypto, s: seq<Rec>, start: string, j: nat)
    requires j <= |s|
    ensures Built(c, s, start)[..j] == Built(c, s[..j], start)
  {
    if j < |s| {
      BuiltPrefix(c, s[..|s| - 1], start, j);
      assert s[..|s| - 1][..j] == s[..j];
    } else {
      assert s[..j] == s;
    }
  }

  /** Every record is stamped with the hash of the built record before it. */
  lemma {:induction false} BuiltAt(c: Crypto, s: seq<Rec>, start: string, i: nat)
    requires i < |s|
    ensures Built(c, s, start)[i] == Stamp(c, s[i], HashBefore(Built(c, s, start), start, i))
  {
    BuiltPrefix(c, s, start, i + 1);
    BuiltPrefix(c, s, start, i);
    assert s[..i + 1][..i] == s[..i];
    assert Built(c, s[..i + 1], start)[i] == Built(c, s, start)[i];
    if i > 0 {
      assert Built(c, s[..i], start)[i - 1] == Built(c, s, start)[i - 1];
    }
  }

  // ----- Specification of repairing

  function Restamp(c: Crypto, r: Rec, last: Field): (t: Rec)
    ensures t.hash.Text?
  {
    var linked := r.(previous := last);
    linked.(hash := Text(RecordHash(c, linked, last)))
  }

  /** The hash before `k` as the repair reads it: a missing key reads as genesis. */
  function RepairStart(c: Crypto, s: seq<Rec>, k: nat): Field
    requires k <= |s|
  {
    if k == 0 then Text(Genesis(c)) else s[k - 1].hash.GetOr(Genesis(c))
  }

  /** `s` with the records from `k` on rehashed. */
  function Repaired(c: Crypto, s: seq<Rec>, k: nat): (t: seq<Rec>)
    requires k <= |s|
    ensures |t| == |s|
    ensures t[..k] == s[..k]
    decreases |s|
  {
    if k == |s| then s
    else
      var before := Repaired(c, s[..|s| - 1], k);
      assert before[..k] == s[..|s| - 1][..k] == s[..k];
      before + [Restamp(c, s[|s| - 1], RepairStart(c, before, |s| - 1))]
  }

  lemma {:induction false} RepairedPrefix(c: Crypto, s: seq<Rec>, k: nat, j: nat)
    requires k <= j <= |s|
    ensures Repaired(c, s, k)[..j] == Repaired(c, s[..j], k)
    decreases |s|
  {
    if j < |s| {
      RepairedPrefix(c, s[..|s| - 1], k, j);
      assert s[..|s| - 1][..j] == s[..j];
    } else {
      assert s[..j] == s;
    }
  }

  lemma {:induction false} RepairedAt(c: Crypto, s: seq<Rec>, k: nat, i: nat)
    requires k <= i < |s|
    ensures Repaired(c, s, k)[i] == Restamp(c, s[i], RepairStart(c, Repaired(c, s, k), i))
  {
    RepairedPrefix(c, s, k, i + 1);
    RepairedPrefix(c, s, k, i);
    assert s[..i + 1][..i] == s[..i];
    assert Repaired(c, s[..i + 1], k)[i] == Repaired(c, s, k)[i];
    if i > 0 {
      assert Repaired(c, s[..i], k)[i - 1] == Repaired(c, s, k)[i - 1];
    }
  }

  /** Record `i` of a list repaired from `k` on: as it was, or restamped after the one before it. */
  ghost predicate RepairedIs(c: Crypto, s: seq<Rec>, k: nat, t: seq<Rec>, i: nat)
    requires i < |s| == |t|
  {
    t[i] == if i < k then s[i] else Restamp(c, s[i], RepairStart(c, t, i))
  }

  lemma RepairedIsAt(c: Crypto, s: seq<Rec>, k: nat, i: nat)
    requires k <= |s| && i < |s|
    ensures RepairedIs(c, s, k, Repaired(c, s, k), i)
  {
    if i < k {
      assert Repaired(c, s, k)[..k][i] == s[..k][i];
    } else {
      RepairedAt(c, s, k, i);
    }
  }

  /** The list a call of `repair_chain` leaves: an index out of range changes nothing. */
  function RepairResult(c: Crypto, s: seq<Rec>, start: int): seq<Rec> {
    if start < 0 || start >= |s| then s else Repaired(c, s, start)
  }

  // ----- The objects

  /** A record dictionary; the builder assigns its last three keys. */
  class Record {
    const payload: string
    var flag: Option<bool>
    var previous: Field
    var hash: Field

    constructor (payload: string)
      ensures View() == Rec(payload, None, Absent, Absent)
    {
      this.payload := payload;
      flag, previous, hash := None, Absent, Absent;
    }

    function View(): Rec
      reads this
    {
      Rec(payload, flag, previous, hash)
    }
  }

  function Views(records: seq<Record>): (s: seq<Rec>)
    reads records
    ensures |s| == |records|
    ensures forall i :: 0 <= i < |s| ==> s[i] == records[i].View()
  {
    seq(|records|, i requires 0 <= i < |records| reads records => records[i].View())
  }

  /** `AuditHashChainBuilder` */
  class Builder {
    const c: Crypto
    var cache: Cache

    constructor (c: Crypto)
      ensures this.c == c && cache == map[]
    {
      this.c := c;
      cache := map[];
    }

    /** The body of the building loop. */
    method StampRecord(record: Record, last: string)
      modifies record
      ensures record.View() == Stamp(c, old(record.View()), last)
      ensures record.flag == old(record.flag) && record.previous == Text(last)
      ensures record.hash == match old(record.hash)
                             case Text(h) =>
                               if h != "" then Text(h) else Text(RecordHash(c, record.View(), Text(last)))
                             case _ => Text(RecordHash(c, record.View(), Text(last)))
    {
      record.previous := Text(last);
      if !record.hash.Truthy() {
        record.hash := Text(RecordHash(c, record.View(), Text(last)));
      }
    }

    /** The building loop. */
    method StampAll(records: seq<Record>, start: string) returns (last: string)
      requires Distinct(records)
      modifies records
      ensures Views(records) == Built(c, old(Views(records)), start)
      ensures last == EndHash(Built(c, old(Views(records)), start), start)
    {
      ghost var was := Views(records);
      ghost var goal := Built(c, was, start);
      last := start;
      for i := 0 to |records|
        invariant last == HashBefore(goal, start, i)
        invariant forall j :: 0 <= j < i ==> records[j].View() == goal[j]
        invariant forall j :: i <= j < |records| ==> records[j].View() == was[j]
      {
        assert goal[i] == Stamp(c, was[i], last) by {
          BuiltAt(c, was, start, i);
        }
        assert forall j :: 0 <= j < |records| && j != i ==> records[j] != records[i];
        StampRecord(records[i], last);
        assert records[i].View() == goal[i];
        last := records[i].hash.text;
      }
      assert Views(records) == goal;
    }

    method BuildChain(records: seq<Record>, stream: Option<string>) returns (out: seq<Record>)
      requires Distinct(records)
      modifies this, records
      ensures out == records
      ensures Views(records) == Built(c, old(Views(records)), StartHash(c, old(cache), stream))
      ensures cache == CacheAfterBuild(c, old(cache), stream, old(Views(records)))
      ensures OthersKept(old(cache), cache, stream)
      ensures stream == None || stream == Some("") || records == [] ==> cache == old(cache)
      ensures stream.Some? && stream.value != "" && records != [] ==>
                stream.value in cache && records[|records| - 1].hash == Text(cache[stream.value])
    {
      ghost var was, start := Views(records), StartHash(c, cache, stream);
      if records == [] {
        assert was == [];
        return [];
      }
      var last := Genesis(c);
      if Named(stream) && stream.value in cache {
        last := cache[stream.value];
      }
      assert last == start;
      last := StampAll(records, last);
      CacheOfBatch(c, cache, stream, was, last);
      if Named(stream) {
        cache := cache[stream.value := last];
      }
      out := records;
    }

    method VerifyChain(records: seq<Record>, stream: Option<string>) returns (v: Verdict)
      modifies this
      ensures v.valid <==> Accepted(c, Views(records))
      ensures v.brokenAt == if v.valid then None else Some(FirstBroken(c, Views(records)))
      ensures v.breach == if v.valid then None
                          else if LinkOk(c, Views(records), FirstBroken(c, Views(records)))
                            then Some(HashMismatch) else Some(LinkMismatch)
      ensures cache == if v.valid then CacheAfterVerify(c, old(cache), stream, Views(records)) else old(cache)
      ensures OthersKept(old(cache), cache, stream)
      ensures stream == None || stream == Some("") || records == [] || !v.valid ==> cache == old(cache)
      ensures stream.Some? && stream.value != "" && records != [] && v.valid ==>
                stream.value in cache && records[|records| - 1].hash == Text(cache[stream.value])
    {
      if records == [] {
        return Verdict(true, None, None);
      }
      var last;
      v, last := CheckRecords(records);
      if !v.valid {
        return;
      }
      if Named(stream) {
        cache := cache[stream.value := last.text];
      }
    }

    /** The verifying loop; `last` is the hash of the last record when all are fine. */
    method CheckRecords(records: seq<Record>) returns (v: Verdict, last: Field)
      requires records != []
      ensures v.valid <==> Accepted(c, Views(records))
      ensures v.brokenAt == if v.valid then None else Some(FirstBroken(c, Views(records)))
      ensures v.breach == if v.valid then None
                          else if LinkOk(c, Views(records), FirstBroken(c, Views(records)))
                            then Some(HashMismatch) else Some(LinkMismatch)
      ensures v.valid ==> last.Text? && last == records[|records| - 1].hash
    {
      v := Verdict(true, None, None);
      ghost var s := Views(records);
      last := Text(Genesis(c));
      for i := 0 to |records|
        invariant last == PriorHash(c, s, i)
        invariant FirstBroken(c, s) >= i
        invariant i > 0 ==> s[i - 1].hash.Text?
      {
        assert s[i] == records[i].View();
        var previous := records[i].previous.Get();
        var hash := records[i].hash.Get();
        assert previous == last && hash == Text(RecordHash(c, s[i], previous)) <==> OkAt(c, s, i);
        if previous != last {
          return Verdict(false, Some(i), Some(LinkMismatch)), last;
        }
        var recomputed := RecordHash(c, records[i].View(), previous);
        if hash != Text(recomputed) {
          return Verdict(false, Some(i), Some(HashMismatch)), last;
        }
        last := hash;
      }
    }

    method FindBrokenLink(records: seq<Record>) returns (k: Option<nat>)
      ensures k == if Accepted(c, Views(records)) then None else Some(FirstBroken(c, Views(records)))
    {
      if records == [] {
        return None;
      }
      ghost var s := Views(records);
      var last := Text(Genesis(c));
      for i := 0 to |records|
        invariant last == PriorHash(c, s, i)
        invariant FirstBroken(c, s) >= i
      {
        assert s[i] == records[i].View();
        var previous := records[i].previous.Get();
        var hash := records[i].hash.Get();
        assert previous == last && hash == Text(RecordHash(c, s[i], previous)) <==> OkAt(c, s, i);
        if previous != last {
          return Some(i);
        }
        var recomputed := RecordHash(c, records[i].View(), previous);
        if hash != Text(recomputed) {
          return Some(i);
        }
        last := hash;
      }
      return None;
    }

    /** The body of the repairing loop. */
    method RestampRecord(record: Record, last: Field)
      modifies record
      ensures record.View() == Restamp(c, old(record.View()), last)
      ensures record.flag == old(record.flag) && record.previous == last
      ensures record.hash == Text(RecordHash(c, record.View(), last))
    {
      record.previous := last;
      record.hash := Text(RecordHash(c, record.View(), last));
    }

    method RepairChain(records: seq<Record>, start: int) returns (out: seq<Record>)
      requires Distinct(records)
      modifies records
      ensures out == records
      ensures Views(records) == RepairResult(c, old(Views(records)), start)
    {
      if start < 0 || start >= |records| {
        return records;
      }
      var last := Text(Genesis(c));
      if start > 0 {
        last := records[start - 1].hash.GetOr(Genesis(c));
      }
      RestampAll(records, start, last);
      out := records;
    }

    /** The repairing loop. */
    method RestampAll(records: seq<Record>, start: nat, before: Field)
      requires Distinct(records) && start < |records|
      requires before == RepairStart(c, Views(records), start)
      modifies records
      ensures Views(records) == Repaired(c, old(Views(records)), start)
    {
      ghost var was := Views(records);
      forall i: nat | i < |records|
        ensures RepairedIs(c, was, start, Repaired(c, was, start), i)
      {
        RepairedIsAt(c, was, start, i);
      }
      RestampTowards(records, start, before, Repaired(c, was, start));
    }

    /** The loop, told its goal. */
    method RestampTowards(records: seq<Record>, start: nat, before: Field, ghost goal: seq<Rec>)
      requires Distinct(records) && start < |records| == |goal|
      requires before == RepairStart(c, Views(records), start)
      requires forall i: nat :: i < |records| ==> RepairedIs(c, Views(records), start, goal, i)
      modifies records
      ensures Views(records) == goal
    {
      ghost var was := Views(records);
      assert start > 0 ==> RepairedIs(c, was, start, goal, start - 1);
      var last := before;
      for i := start to |records|
        invariant last == RepairStart(c, goal, i)
        invariant forall j :: start <= j < i ==> records[j].View() == goal[j]
        invariant forall j :: 0 <= j < start || i <= j < |records| ==> records[j].View() == was[j]
      {
        assert RepairedIs(c, was, start, goal, i);
        RestampRecord(records[i], last);
        last := records[i].hash;
      }
      forall i: nat | i < |records|
        ensures records[i].View() == goal[i]
      {
        assert RepairedIs(c, was, start, goal, i);
      }
      assert Views(records) == goal;
    }
  }
}
