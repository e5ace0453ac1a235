/** What building, verifying and repairing promise together. */
module ChainTheorems {
  import opened Basics
  import opened HashChain
  import opened ChainBuilder

  // ----- Building gives accepted chains

  ghost predicate Unhashed(s: seq<Rec>) {
    forall i :: 0 <= i < |s| ==> !s[i].hash.Truthy()
  }

  /** The hash of record `i`, if the build kept it, is the one it would have computed. */
  ghost predicate KeptHashFits(c: Crypto, s: seq<Rec>, start: string, i: nat)
    requires i < |s|
  {
    var t := Built(c, s, start);
    s[i].hash.Truthy() ==> s[i].hash.text == RecordHash(c, t[i], Text(HashBefore(t, start, i)))
  }

  ghost predicate KeptHashesFit(c: Crypto, s: seq<Rec>, start: string) {
    forall i: nat :: i < |s| ==> KeptHashFits(c, s, start, i)
  }

  lemma StampedOkIff(c: Crypto, all: seq<Rec>, k: nat, r: Rec, last: string)
    requires k < |all| && all[k] == Stamp(c, r, last) && PriorHash(c, all, k) == Text(last)
    ensures OkAt(c, all, k) <==> (r.hash.Truthy() ==> r.hash.text == RecordHash(c, all[k], Text(last)))
  {
  }

  lemma PriorHashOfExtension(c: Crypto, log: seq<Rec>, t: seq<Rec>, i: nat)
    requires Hashed(log) && Hashed(t) && i < |t|
    ensures PriorHash(c, log + t, |log| + i) == Text(HashBefore(t, EndHash(log, Genesis(c)), i))
  {
    var all, k := log + t, |log| + i;
    if i > 0 {
      assert all[k - 1] == t[i - 1];
    } else if log != [] {
      assert all[k - 1] == log[k - 1];
    }
  }

  lemma BuiltOkAtIff(c: Crypto, log: seq<Rec>, s: seq<Rec>, i: nat, start: string, t: seq<Rec>)
    requires Hashed(log) && i < |s|
    requires start == EndHash(log, Genesis(c)) && t == Built(c, s, start)
    ensures OkAt(c, log + t, |log| + i) <==> KeptHashFits(c, s, start, i)
  {
    BuiltAt(c, s, start, i);
    PriorHashOfExtension(c, log, t, i);
    assert (log + t)[|log| + i] == t[i];
    StampedOkIff(c, log + t, |log| + i, s[i], HashBefore(t, start, i));
  }

  /** Appending a built batch to an accepted log keeps it accepted, exactly when kept hashes fit. */
  lemma ExtendAccepted(c: Crypto, log: seq<Rec>, s: seq<Rec>)
    requires Accepted(c, log) && Hashed(log)
    ensures Accepted(c, log + Built(c, s, EndHash(log, Genesis(c))))
       <==> KeptHashesFit(c, s, EndHash(log, Genesis(c)))
  {
    var start := EndHash(log, Genesis(c));
    var t := Built(c, s, start);
    var all := log + t;
    if KeptHashesFit(c, s, start) {
      forall i: nat | i < |all|
        ensures OkAt(c, all, i)
      {
        if i < |log| {
          assert OkAt(c, log, i);
          OkAtAgrees(c, log, all, i);
        } else {
          BuiltOkAtIff(c, log, s, i - |log|, start, t);
        }
      }
    }
    if Accepted(c, all) {
      forall i: nat | i < |s|
        ensures KeptHashFits(c, s, start, i)
      {
        assert OkAt(c, all, |log| + i);
        BuiltOkAtIff(c, log, s, i, start, t);
      }
    }
  }

  /** A chain built from genesis is accepted exactly when every kept hash fits. */
  lemma BuiltAcceptedIff(c: Crypto, s: seq<Rec>)
    ensures Accepted(c, Built(c, s, Genesis(c))) <==> KeptHashesFit(c, s, Genesis(c))
  {
    ExtendAccepted(c, [], s);
    assert [] + Built(c, s, Genesis(c)) == Built(c, s, Genesis(c));
  }

  /** Building keeps what a record carries, and its hash if that is a non-empty text. */
  lemma BuildKeepsContents(c: Crypto, s: seq<Rec>, start: string, i: nat)
    requires i < |s|
    ensures var r, t := s[i], Built(c, s, start)[i];
            && t.payload == r.payload && t.flag == r.flag
            && (r.hash.Text? && r.hash.text != "" ==> t.hash == r.hash)
            && (!r.hash.Text? || r.hash.text == "" ==> t.hash == Text(RecordHash(c, t, t.previous)))
  {
    BuiltAt(c, s, start, i);
  }

  // ----- Batches

  lemma {:induction false} BuiltAppend(c: Crypto, a: seq<Rec>, b: seq<Rec>, start: string)
    ensures Built(c, a + b, start)
         == Built(c, a, start) + Built(c, b, EndHash(Built(c, a, start), start))
    ensures EndHash(Built(c, a + b, start), start)
         == EndHash(Built(c, b, EndHash(Built(c, a, start), start)), EndHash(Built(c, a, start), start))
    decreases |b|
  {
    if b == [] {
      assert a + b == a;
    } else {
      var b' := b[..|b| - 1];
      BuiltAppend(c, a, b', start);
      assert (a + b)[..|a + b| - 1] == a + b';
    }
  }

  /** One call of `build_chain` or `verify_chain`. */
  datatype Call =
    | Build(stream: Option<string>, batch: seq<Rec>)
    | Verify(stream: Option<string>, log: seq<Rec>)

  /** The cache after one call; a verification that fails leaves it alone. */
  function CacheAfter(c: Crypto, cache: Cache, call: Call): Cache {
    match call
    case Build(stream, batch) => CacheAfterBuild(c, cache, stream, batch)
    case Verify(stream, log) => if Accepted(c, log) then CacheAfterVerify(c, cache, stream, log) else cache
  }

  /** The builder's cache after the calls. */
  function RunCache(c: Crypto, cache: Cache, calls: seq<Call>): Cache {
    if calls == [] then cache
    else CacheAfter(c, RunCache(c, cache, calls[..|calls| - 1]), calls[|calls| - 1])
  }

  /** The call builds on stream `name`. */
  predicate BuildsOn(call: Call, name: string) {
    call.Build? && call.stream == Some(name)
  }

  /** The records the builds on stream `name` return, in call order. */
  function RunOutput(c: Crypto, cache: Cache, calls: seq<Call>, name: string): seq<Rec> {
    if calls == [] then []
    else
      var before, last := calls[..|calls| - 1], calls[|calls| - 1];
      RunOutput(c, cache, before, name) +
      if BuildsOn(last, name) then
        Built(c, last.batch, StartHash(c, RunCache(c, cache, before), last.stream))
      else
        []
  }

  /** The records handed to the builds on stream `name`, in call order. */
  function RunInput(calls: seq<Call>, name: string): seq<Rec> {
    if calls == [] then []
    else
      var last := calls[|calls| - 1];
      RunInput(calls[..|calls| - 1], name) + if BuildsOn(last, name) then last.batch else []
  }

  /** A call on another stream, or on none, changes neither a stream's entry nor its starting hash. */
  lemma OtherCallsTouchNothing(c: Crypto, cache: Cache, call: Call, name: string)
    requires name != "" && call.stream != Some(name)
    ensures OthersKept(cache, CacheAfter(c, cache, call), call.stream)
    ensures name in CacheAfter(c, cache, call) <==> name in cache
    ensures StartHash(c, CacheAfter(c, cache, call), Some(name)) == StartHash(c, cache, Some(name))
    ensures call.stream == None || call.stream == Some("") ==> CacheAfter(c, cache, call) == cache
  {
  }

  /** An unnamed batch starts from genesis, a named one from what the cache has for its stream, if anything. */
  lemma WhereBatchesStart(c: Crypto, cache: Cache, name: string)
    ensures StartHash(c, cache, None) == Genesis(c) && StartHash(c, cache, Some("")) == Genesis(c)
    ensures name != "" ==>
              StartHash(c, cache, Some(name)) == if name in cache then cache[name] else Genesis(c)
  {
  }

  /** A verification under `name` rewinds the stream if it succeeds on a list that ends in another hash. */
  predicate Rewinds(c: Crypto, cache: Cache, call: Call, name: string) {
    && call.Verify? && call.stream == Some(name) && call.log != [] && Accepted(c, call.log)
    && call.log[|call.log| - 1].hash != Text(StartHash(c, cache, Some(name)))
  }

  /** No verification of the run rewinds stream `name`. */
  ghost predicate NeverRewound(c: Crypto, cache: Cache, calls: seq<Call>, name: string)
    decreases |calls|
  {
    calls == [] ||
    var before := calls[..|calls| - 1];
    NeverRewound(c, cache, before, name) && !Rewinds(c, RunCache(c, cache, before), calls[|calls| - 1], name)
  }

  /** After a verification the next batch starts where it did exactly if the verification did not rewind. */
  lemma RewindIff(c: Crypto, cache: Cache, call: Call, name: string)
    requires name != "" && call.Verify?
    ensures StartHash(c, CacheAfter(c, cache, call), Some(name)) == StartHash(c, cache, Some(name))
       <==> !Rewinds(c, cache, call, name)
  {
    if call.stream == Some(name) && call.log != [] && Accepted(c, call.log) {
      AcceptedIsHashed(c, call.log);
    }
  }

  /**
   * How a stream is cut into batches, and what is built and verified on other streams meanwhile,
   * leaves no trace; nor do verifications of the stream itself that do not rewind it.
   */
  lemma {:induction false} BatchIndependence(c: Crypto, cache: Cache, calls: seq<Call>, name: string)
    requires name != "" && NeverRewound(c, cache, calls, name)
    ensures RunOutput(c, cache, calls, name)
         == Built(c, RunInput(calls, name), StartHash(c, cache, Some(name)))
    ensures StartHash(c, RunCache(c, cache, calls), Some(name))
         == EndHash(RunOutput(c, cache, calls, name), StartHash(c, cache, Some(name)))
    decreases |calls|
  {
    if calls != [] {
      var before, last := calls[..|calls| - 1], calls[|calls| - 1];
      BatchIndependence(c, cache, before, name);
      if BuildsOn(last, name) {
        BuiltAppend(c, RunInput(before, name), last.batch, StartHash(c, cache, Some(name)));
      } else {
        OtherCallKeepsEnd(c, RunCache(c, cache, before), last, name);
        assert RunInput(calls, name) == RunInput(before, name);
        assert RunOutput(c, cache, calls, name) == RunOutput(c, cache, before, name);
      }
    }
  }

  lemma OtherCallKeepsEnd(c: Crypto, cache: Cache, call: Call, name: string)
    requires name != "" && !BuildsOn(call, name) && !Rewinds(c, cache, call, name)
    ensures StartHash(c, CacheAfter(c, cache, call), Some(name)) == StartHash(c, cache, Some(name))
  {
    if call.Verify? {
      RewindIff(c, cache, call, name);
    } else {
      OtherCallsTouchNothing(c, cache, call, name);
    }
  }

  /** Verifications of any outcome under other names never rewind a stream. */
  lemma {:induction false} OthersNeverRewind(c: Crypto, cache: Cache, calls: seq<Call>, name: string)
    requires forall i :: 0 <= i < |calls| && calls[i].Verify? ==> calls[i].stream != Some(name)
    ensures NeverRewound(c, cache, calls, name)
    decreases |calls|
  {
    if calls != [] {
      OthersNeverRewind(c, cache, calls[..|calls| - 1], name);
    }
  }

  lemma {:induction false} RunKeepsPresence(c: Crypto, cache: Cache, calls: seq<Call>, name: string)
    requires name != "" && name !in cache
    ensures RunInput(calls, name) != [] ==> name in RunCache(c, cache, calls)
    ensures (forall i :: 0 <= i < |calls| && calls[i].Verify? ==> calls[i].stream != Some(name)) ==>
              (name in RunCache(c, cache, calls) <==> RunInput(calls, name) != [])
    decreases |calls|
  {
    if calls != [] {
      var before, last := calls[..|calls| - 1], calls[|calls| - 1];
      RunKeepsPresence(c, cache, before, name);
      if last.stream != Some(name) {
        OtherCallsTouchNothing(c, RunCache(c, cache, before), last, name);
      }
    }
  }

  /** On a stream new to the cache, unhashed batches make one accepted chain, whose end is cached. */
  lemma FreshStreamIsOneChain(c: Crypto, cache: Cache, calls: seq<Call>, name: string)
    requires name != "" && name !in cache && Unhashed(RunInput(calls, name)) && NeverRewound(c, cache, calls, name)
    ensures RunOutput(c, cache, calls, name) == Built(c, RunInput(calls, name), Genesis(c))
    ensures Accepted(c, RunOutput(c, cache, calls, name))
    ensures Hashed(RunOutput(c, cache, calls, name))
    ensures RunInput(calls, name) != [] ==>
              name in RunCache(c, cache, calls) &&
              RunCache(c, cache, calls)[name] == EndHash(RunOutput(c, cache, calls, name), Genesis(c))
    ensures RunInput(calls, name) == [] &&
            (forall i :: 0 <= i < |calls| && calls[i].Verify? ==> calls[i].stream != Some(name)) ==>
              name !in RunCache(c, cache, calls)
  {
    BatchIndependence(c, cache, calls, name);
    RunKeepsPresence(c, cache, calls, name);
    BuiltAcceptedIff(c, RunInput(calls, name));
  }

  /**
   * Verification overwrites the cache. After verifying a prefix of a stream under the
   * stream's name, the next batch continues the chain only if the prefix was all of it.
   */
  lemma VerifyingAPrefixRewinds(c: Crypto, cache: Cache, log: seq<Rec>, n: nat, name: string,
                                batch: seq<Rec>, texts: set<string>)
    requires name != "" && Secure(c, log, texts)
    requires Accepted(c, log) && 0 < n <= |log|
    requires batch != [] && Unhashed(batch)
    ensures var cache' := CacheAfterVerify(c, cache, Some(name), log[..n]);
            Accepted(c, log + Built(c, batch, StartHash(c, cache', Some(name)))) <==> n == |log|
  {
    var cache' := CacheAfterVerify(c, cache, Some(name), log[..n]);
    var start := StartHash(c, cache', Some(name));
    AcceptedIsHashed(c, log);
    assert OkAt(c, log, n - 1);
    assert Text(start) == log[n - 1].hash;
    if n == |log| {
      ExtendAccepted(c, log, batch);
    } else {
      LaterHashDiffers(c, log, n, texts);
      OtherStartBreaks(c, log, batch, start);
    }
  }

  lemma LaterHashDiffers(c: Crypto, log: seq<Rec>, n: nat, texts: set<string>)
    requires Secure(c, log, texts) && Accepted(c, log) && 0 < n < |log|
    ensures log[n - 1].hash != log[|log| - 1].hash
  {
    if log[n - 1].hash == log[|log| - 1].hash {
      AcceptedPrefix(c, log, n);
      SecurePrefix(c, log, texts, n);
      TamperEvidence(c, log[..n], log, texts);
      assert false;
    }
  }

  lemma OtherStartBreaks(c: Crypto, log: seq<Rec>, batch: seq<Rec>, start: string)
    requires log != [] && batch != [] && log[|log| - 1].hash != Text(start)
    ensures !Accepted(c, log + Built(c, batch, start))
  {
    var all := log + Built(c, batch, start);
    BuiltAt(c, batch, start, 0);
    assert all[|log|] == Built(c, batch, start)[0] && all[|log| - 1] == log[|log| - 1];
    assert !OkAt(c, all, |log|);
  }

  lemma AcceptedIsHashed(c: Crypto, s: seq<Rec>)
    requires Accepted(c, s)
    ensures Hashed(s)
    ensures forall i :: 0 <= i < |s| ==> s[i].previous.Text?
  {
    forall i | 0 <= i < |s|
      ensures s[i].hash.Text? && s[i].previous.Text?
    {
      assert OkAt(c, s, i);
      if i > 0 {
        assert OkAt(c, s, i - 1);
      }
    }
  }

  // ----- Repair

  /** The same records up to `previous_hash` and `hash`. */
  ghost predicate SameContents(s: seq<Rec>, t: seq<Rec>) {
    && |s| == |t|
    && forall i :: 0 <= i < |s| ==> s[i].payload == t[i].payload && s[i].flag == t[i].flag
  }

  /** The contents leave no choice: at most one accepted list carries them. */
  lemma {:induction false} AcceptedIsDetermined(c: Crypto, s: seq<Rec>, t: seq<Rec>)
    requires Accepted(c, s) && Accepted(c, t) && SameContents(s, t)
    ensures s == t
    decreases |s|
  {
    if s != [] {
      var m := |s| - 1;
      AcceptedPrefix(c, s, m);
      AcceptedPrefix(c, t, m);
      AcceptedIsDetermined(c, s[..m], t[..m]);
      assert OkAt(c, s, m) && OkAt(c, t, m);
      AcceptedIsHashed(c, s);
      AcceptedIsHashed(c, t);
      assert m > 0 ==> s[m - 1] == s[..m][m - 1] && t[m - 1] == t[..m][m - 1];
      assert s == s[..m] + [s[m]] && t == t[..m] + [t[m]];
    }
  }

  /** A repair rewrites `previous_hash` and `hash` from its start on, and nothing else. */
  lemma RepairTouchesOnlyTail(c: Crypto, s: seq<Rec>, start: int)
    ensures SameContents(s, RepairResult(c, s, start))
    ensures forall i :: 0 <= i < |s| && i < start ==> RepairResult(c, s, start)[i] == s[i]
  {
    if 0 <= start < |s| {
      var t := Repaired(c, s, start);
      forall i | 0 <= i < |s|
        ensures t[i].payload == s[i].payload && t[i].flag == s[i].flag
        ensures i < start ==> t[i] == s[i]
      {
        if i < start {
          assert t[i] == t[..start][i] == s[..start][i];
        } else {
          RepairedAt(c, s, start, i);
        }
      }
    }
  }

  /** The first repaired record links to genesis, or to the hash before it; a missing hash reads as genesis. */
  lemma RepairStartsAt(c: Crypto, s: seq<Rec>, start: nat)
    requires start < |s|
    ensures RepairResult(c, s, start)[start].previous
         == if start == 0 || s[start - 1].hash.Absent? then Text(Genesis(c)) else s[start - 1].hash
  {
    RepairedAt(c, s, start, start);
    if start > 0 {
      RepairedIsAt(c, s, start, start - 1);
    }
  }

  lemma RepairedIsOkAt(c: Crypto, s: seq<Rec>, k: nat, i: nat)
    requires k <= i < |s| && Accepted(c, s[..k])
    ensures OkAt(c, Repaired(c, s, k), i)
  {
    var t := Repaired(c, s, k);
    RepairedAt(c, s, k, i);
    if i > k {
      RepairedAt(c, s, k, i - 1);
    } else if k > 0 {
      assert OkAt(c, s[..k], k - 1);
      assert t[k - 1] == t[..k][k - 1] == s[..k][k - 1];
      AcceptedIsHashed(c, s[..k]);
    }
  }

  /** Repairing from `k` yields an accepted list exactly when everything before `k` was sound. */
  lemma RepairWorksIff(c: Crypto, s: seq<Rec>, start: int)
    ensures Accepted(c, RepairResult(c, s, start))
       <==> Accepted(c, s) || 0 <= start <= FirstBroken(c, s)
  {
    if 0 <= start < |s| {
      var t := Repaired(c, s, start);
      LongestAcceptedPrefix(c, s, start);
      AcceptedMeansUnbroken(c, s);
      if Accepted(c, s[..start]) {
        forall i: nat | i < |t|
          ensures OkAt(c, t, i)
        {
          if i < start {
            assert OkAt(c, t[..start], i);
            OkAtOfPrefix(c, t, start, i);
          } else {
            RepairedIsOkAt(c, s, start, i);
          }
        }
      } else if Accepted(c, t) {
        AcceptedPrefix(c, t, start);
        assert false;
      }
    } else {
      AcceptedMeansUnbroken(c, s);
    }
  }

  /** An accepted list is a fixed point of every repair. */
  lemma RepairOfAcceptedIsIdle(c: Crypto, s: seq<Rec>, start: int)
    requires Accepted(c, s)
    ensures RepairResult(c, s, start) == s
  {
    RepairWorksIff(c, s, start);
    RepairTouchesOnlyTail(c, s, start);
    AcceptedIsDetermined(c, s, RepairResult(c, s, start));
  }

  /**
   * Repairing where `find_broken_link` points gives the one accepted list with these contents, and
   * changes the record it points at.
   */
  lemma RepairAtTheBreak(c: Crypto, s: seq<Rec>, t: seq<Rec>)
    requires !Accepted(c, s)
    requires SameContents(s, t) && Accepted(c, t)
    ensures FirstBroken(c, s) < |s|
    ensures t == RepairResult(c, s, FirstBroken(c, s))
    ensures t[..FirstBroken(c, s)] == s[..FirstBroken(c, s)]
    ensures t[FirstBroken(c, s)] != s[FirstBroken(c, s)]
  {
    var k := FirstBroken(c, s);
    AcceptedMeansUnbroken(c, s);
    RepairWorksIff(c, s, k);
    RepairTouchesOnlyTail(c, s, k);
    AcceptedIsDetermined(c, t, RepairResult(c, s, k));
    if t[k] == s[k] {
      assert OkAt(c, t, k);
      assert k > 0 ==> t[k - 1] == s[k - 1];
      OkAtAgrees(c, s, t, k);
    }
  }
}
