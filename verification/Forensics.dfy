/** The forensic replayer's integrity flags (audit/forensic_replayer.py). */
module ForensicReplay {
  import opened Basics
  import opened HashChain
  import opened ChainBuilder

  /** The events a failed replay hands back: those before the break are flagged intact. */
  function Flagged(c: Crypto, s: seq<Rec>): (t: seq<Rec>)
    ensures |t| == |s|
  {
    if Accepted(c, s) then s
    else seq(|s|, i requires 0 <= i < |s| => s[i].(flag := Some(i < FirstBroken(c, s))))
  }

  /** The flagging loop; index 0 is falsy and takes the other branch. */
  method FlagEvents(events: seq<Record>, brokenAt: Option<nat>)
    requires Distinct(events)
    modifies events
    ensures Views(events)
         == seq(|events|, i requires 0 <= i < |events| reads events =>
              old(events[i].View()).(flag := Some(brokenAt.Some? && i < brokenAt.value)))
  {
    ghost var was := Views(events);
    for i := 0 to |events|
      invariant forall j :: 0 <= j < i ==>
        events[j].View() == was[j].(flag := Some(brokenAt.Some? && j < brokenAt.value))
      invariant forall j :: i <= j < |events| ==> events[j].View() == was[j]
    {
      events[i].flag := Some(if brokenAt.Some? && brokenAt.value != 0 then i < brokenAt.value else false);
    }
  }

  /** `replay_stream` on the events the store returned. */
  method ReplayStream(builder: Builder, events: seq<Record>, stream: string, verify: bool)
    returns (out: seq<Record>)
    requires Distinct(events)
    modifies builder, events
    ensures out == events
    ensures Views(events) == if verify then Flagged(builder.c, old(Views(events))) else old(Views(events))
    ensures !verify || Accepted(builder.c, old(Views(events))) ==> Views(events) == old(Views(events))
    ensures OthersKept(old(builder.cache), builder.cache, Some(stream))
    ensures !verify ==> builder.cache == old(builder.cache)
    ensures builder.cache
         == if verify && Accepted(builder.c, old(Views(events))) then
              CacheAfterVerify(builder.c, old(builder.cache), Some(stream), old(Views(events)))
            else
              old(builder.cache)
  {
    if events == [] {
      return [];
    }
    ghost var was := Views(events);
    if verify {
      var v := builder.VerifyChain(events, Some(stream));
      if !v.valid {
        FlagEvents(events, v.brokenAt);
        assert Views(events) == Flagged(builder.c, was);
      }
    }
    out := events;
  }

  /** An event of a failed replay is flagged intact exactly when the chain up to it is accepted. */
  lemma FlagsAreExact(c: Crypto, s: seq<Rec>, i: nat)
    requires !Accepted(c, s) && i < |s|
    ensures Flagged(c, s)[i].flag == Some(Accepted(c, s[..i + 1]))
    ensures Flagged(c, s)[i] == s[i].(flag := Some(Accepted(c, s[..i + 1])))
  {
    LongestAcceptedPrefix(c, s, i + 1);
  }

  /**
   * The flag is part of what the next verification hashes: a sound event passes again only if
   * it already carried the flag the replay wrote.
   */
  lemma FlaggedEventPassesIff(c: Crypto, s: seq<Rec>, i: nat, texts: set<string>)
    requires !Accepted(c, s) && i < FirstBroken(c, s) <= |s|
    requires Secure(c, s, texts) && Secure(c, Flagged(c, s), texts)
    ensures OkAt(c, Flagged(c, s), i) <==> s[i].flag == Some(true)
  {
    var t := Flagged(c, s);
    assert OkAt(c, s, i);
    assert PriorHash(c, t, i) == PriorHash(c, s, i);
    var a := RecordText(c, s[i], s[i].previous.Get());
    var b := RecordText(c, t[i], t[i].previous.Get());
    assert a in Texts(c, s) && b in Texts(c, t);
  }

  /**
   * Replaying twice finds the break at the same place or later exactly when every event before
   * it already carried a true flag; for events that never were replayed, the second replay
   * finds the very first event broken.
   */
  lemma ReplayTaintsItsEvents(c: Crypto, s: seq<Rec>, texts: set<string>)
    requires !Accepted(c, s)
    requires Secure(c, s, texts) && Secure(c, Flagged(c, s), texts)
    ensures FirstBroken(c, Flagged(c, s)) >= FirstBroken(c, s)
       <==> forall i :: 0 <= i < FirstBroken(c, s) ==> s[i].flag == Some(true)
    ensures FirstBroken(c, s) > 0 && s[0].flag.None? ==>
              FirstBroken(c, Flagged(c, s)) == 0 &&
              Flagged(c, Flagged(c, s))[0].flag == Some(false)
  {
    var k, t := FirstBroken(c, s), Flagged(c, s);
    AcceptedMeansUnbroken(c, s);
    forall i: nat | i < k
      ensures OkAt(c, t, i) <==> s[i].flag == Some(true)
    {
      FlaggedEventPassesIff(c, s, i, texts);
    }
    if k > 0 && s[0].flag.None? {
      assert !OkAt(c, t, 0);
      assert !Accepted(c, t);
    }
  }

  /**
   * Verification always starts from genesis, so a replay from a later sequence number finds the
   * first event it reads broken: of all suffixes of a sound stream only the whole stream passes.
   */
  lemma SuffixPassesIff(c: Crypto, s: seq<Rec>, from: nat, texts: set<string>)
    requires Secure(c, s, texts) && Accepted(c, s) && from < |s|
    ensures Accepted(c, s[from..]) <==> from == 0
    ensures from > 0 ==> FirstBroken(c, s[from..]) == 0 && Flagged(c, s[from..])[0].flag == Some(false)
  {
    if from == 0 {
      assert s[0..] == s;
    } else {
      OnlyFirstNamesGenesis(c, s, from, texts);
      assert !OkAt(c, s[from..], 0);
    }
  }
}
