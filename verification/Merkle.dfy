/** The audit root hash (audit/regulatory_attestation_signer.py, compute_audit_root_hash). */
module Merkle {
  import opened Basics
  import opened Hashing

  // ----- The level-by-level loop

  function Pair(sha: Sha, left: string, right: string): string {
    sha(left + right)
  }

  /** Node `i` of the next level; an odd last node is paired with itself. */
  function Node(sha: Sha, hashes: seq<string>, i: nat): string
    requires 2 * i < |hashes|
  {
    Pair(sha, hashes[2 * i], if 2 * i + 1 < |hashes| then hashes[2 * i + 1] else hashes[2 * i])
  }

  function Level(sha: Sha, hashes: seq<string>): (next: seq<string>)
    ensures |next| == (|hashes| + 1) / 2
  {
    seq((|hashes| + 1) / 2, i requires 0 <= i < (|hashes| + 1) / 2 => Node(sha, hashes, i))
  }

  /** How many rounds the outer loop takes on `n` hashes. */
  function Rounds(n: nat): nat {
    if n <= 1 then 0 else 1 + Rounds((n + 1) / 2)
  }

  function Pow2(k: nat): (p: nat)
    ensures p > 0
  {
    if k == 0 then 1 else 2 * Pow2(k - 1)
  }

  /** `Rounds(n)` is the base-two logarithm of `n`, rounded up. */
  lemma {:induction false} RoundsIsCeilLog2(n: nat)
    requires n > 0
    ensures n <= Pow2(Rounds(n))
    ensures n > 1 ==> Pow2(Rounds(n) - 1) < n
    ensures n == 1 ==> Rounds(n) == 0
  {
    if n > 1 {
      RoundsIsCeilLog2((n + 1) / 2);
    }
  }

  // ----- The top-down tree

  /** The left half of a tree of height `r + 1`. */
  function LeftPart(hashes: seq<string>, r: nat): (part: seq<string>)
    requires 0 < |hashes| <= Pow2(r + 1)
    ensures 0 < |part| <= Pow2(r)
  {
    if |hashes| <= Pow2(r) then hashes else hashes[..Pow2(r)]
  }

  /** The right half; when nothing is left for it, a copy of the left one. */
  function RightPart(hashes: seq<string>, r: nat): (part: seq<string>)
    requires 0 < |hashes| <= Pow2(r + 1)
    ensures 0 < |part| <= Pow2(r)
  {
    if |hashes| <= Pow2(r) then hashes else hashes[Pow2(r)..]
  }

  /** The tree of height `r` over at most 2^r leaves. */
  function TreeRoot(sha: Sha, hashes: seq<string>, r: nat): string
    requires 0 < |hashes| <= Pow2(r)
    decreases r
  {
    if r == 0 then hashes[0]
    else Pair(sha, TreeRoot(sha, LeftPart(hashes, r - 1), r - 1), TreeRoot(sha, RightPart(hashes, r - 1), r - 1))
  }

  /** The root of a non-empty list: its tree of least height. */
  function Root(sha: Sha, hashes: seq<string>): string
    requires hashes != []
  {
    RoundsIsCeilLog2(|hashes|);
    TreeRoot(sha, hashes, Rounds(|hashes|))
  }

  /** Cutting a list at an even place and taking the next level commute, node by node. */
  lemma NodeOfHalf(sha: Sha, hashes: seq<string>, h: nat, i: nat)
    requires 2 * h <= |hashes| && 2 * i < |hashes|
    ensures i < h ==> Node(sha, hashes[..2 * h], i) == Node(sha, hashes, i)
    ensures i >= h ==> Node(sha, hashes[2 * h..], i - h) == Node(sha, hashes, i)
  {
  }

  lemma LevelSplits(sha: Sha, hashes: seq<string>, h: nat)
    requires 2 * h <= |hashes|
    ensures Level(sha, hashes)[..h] == Level(sha, hashes[..2 * h])
    ensures Level(sha, hashes)[h..] == Level(sha, hashes[2 * h..])
  {
    var next := Level(sha, hashes);
    forall i | 0 <= i < |next|
      ensures i < h ==> next[i] == Level(sha, hashes[..2 * h])[i]
      ensures i >= h ==> next[i] == Level(sha, hashes[2 * h..])[i - h]
    {
      NodeOfHalf(sha, hashes, h, i);
    }
  }

  lemma LevelOfParts(sha: Sha, hashes: seq<string>, r: nat)
    requires 0 < |hashes| <= Pow2(r + 2)
    ensures LeftPart(Level(sha, hashes), r) == Level(sha, LeftPart(hashes, r + 1))
    ensures RightPart(Level(sha, hashes), r) == Level(sha, RightPart(hashes, r + 1))
  {
    if |hashes| > Pow2(r + 1) {
      LevelSplits(sha, hashes, Pow2(r));
    }
  }

  lemma TreeInTwoParts(sha: Sha, hashes: seq<string>, left: seq<string>, right: seq<string>, r: nat)
    requires 0 < |hashes| <= Pow2(r + 1)
    requires left == LeftPart(hashes, r) && right == RightPart(hashes, r)
    ensures TreeRoot(sha, hashes, r + 1) == Pair(sha, TreeRoot(sha, left, r), TreeRoot(sha, right, r))
  {
  }

  lemma LowestStorey(sha: Sha, hashes: seq<string>)
    requires 0 < |hashes| <= 2
    ensures TreeRoot(sha, hashes, 1) == TreeRoot(sha, Level(sha, hashes), 0)
  {
    assert Level(sha, hashes)[0] == Node(sha, hashes, 0);
    assert TreeRoot(sha, hashes, 1)
        == Pair(sha, TreeRoot(sha, LeftPart(hashes, 0), 0), TreeRoot(sha, RightPart(hashes, 0), 0));
  }

  /** One round of the loop takes one storey off the tree. */
  lemma {:induction false} LevelIsOneStorey(sha: Sha, hashes: seq<string>, r: nat)
    requires 0 < |hashes| <= Pow2(r + 1)
    ensures TreeRoot(sha, hashes, r + 1) == TreeRoot(sha, Level(sha, hashes), r)
    decreases r, 0
  {
    if r == 0 {
      LowestStorey(sha, hashes);
    } else {
      HigherStorey(sha, hashes, r - 1, LeftPart(hashes, r), RightPart(hashes, r));
    }
  }

  lemma {:induction false} HigherStorey(sha: Sha, hashes: seq<string>, h: nat, left: seq<string>, right: seq<string>)
    requires 0 < |hashes| <= Pow2(h + 2)
    requires left == LeftPart(hashes, h + 1) && right == RightPart(hashes, h + 1)
    ensures TreeRoot(sha, hashes, h + 2) == TreeRoot(sha, Level(sha, hashes), h + 1)
    decreases h, 1
  {
    LevelIsOneStorey(sha, left, h);
    LevelIsOneStorey(sha, right, h);
    LevelOfParts(sha, hashes, h);
    TreeInTwoParts(sha, hashes, left, right, h + 1);
    TreeInTwoParts(sha, Level(sha, hashes), Level(sha, left), Level(sha, right), h);
  }

  lemma LevelKeepsRoot(sha: Sha, hashes: seq<string>)
    requires |hashes| > 1
    ensures Root(sha, Level(sha, hashes)) == Root(sha, hashes)
  {
    var r := Rounds(|hashes|) - 1;
    RoundsIsCeilLog2(|hashes|);
    assert Rounds(|Level(sha, hashes)|) == r;
    LevelIsOneStorey(sha, hashes, r);
    calc {
      Root(sha, hashes);
      TreeRoot(sha, hashes, r + 1);
      TreeRoot(sha, Level(sha, hashes), r);
      Root(sha, Level(sha, hashes));
    }
  }

  /** `[e.get("hash") for e in events if e.get("hash")]` */
  function Leaves(events: seq<Option<string>>): (hashes: seq<string>)
    ensures "" !in hashes
  {
    if events == [] then []
    else
      var last := events[|events| - 1];
      Leaves(events[..|events| - 1]) +
      if last.Some? && last.value != "" then [last.value] else []
  }

  /** The root of all event hashes, and of no events at all. */
  function AuditRoot(sha: Sha, events: seq<Option<string>>): string {
    var hashes := Leaves(events);
    if hashes == [] then sha("no_events") else Root(sha, hashes)
  }

  /** The inner loop. */
  method NextLevel(sha: Sha, hashes: seq<string>) returns (nextLevel: seq<string>)
    ensures nextLevel == Level(sha, hashes)
  {
    nextLevel := [];
    var i := 0;
    while i < |hashes|
      invariant i == 2 * |nextLevel| && i <= |hashes| + 1
      invariant forall j :: 0 <= j < |nextLevel| ==> nextLevel[j] == Node(sha, hashes, j)
    {
      var combined := hashes[i] + if i + 1 < |hashes| then hashes[i + 1] else hashes[i];
      nextLevel := nextLevel + [sha(combined)];
      i := i + 2;
    }
  }

  /** The event has a hash that counts. */
  predicate IsHashed(event: Option<string>) {
    event != None && event != Some("")
  }

  /**
   * `hashes` are the events' hashes in stream order: leaf `k` is the hash at `positions[k]`, the
   * positions increase, and no event with a hash is left out.
   */
  ghost predicate ReadOff(events: seq<Option<string>>, hashes: seq<string>, positions: seq<nat>) {
    && |positions| == |hashes|
    && (forall j, k :: 0 <= j < k < |positions| ==> positions[j] < positions[k])
    && (forall k :: 0 <= k < |positions| ==>
          positions[k] < |events| && hashes[k] != "" && events[positions[k]] == Some(hashes[k]))
    && (forall i: nat :: i < |events| && IsHashed(events[i]) ==> i in positions)
  }

  lemma LeavesSnoc(events: seq<Option<string>>, e: Option<string>)
    ensures Leaves(events + [e]) == if IsHashed(e) then Leaves(events) + [e.value] else Leaves(events)
  {
    assert (events + [e])[..|events|] == events;
  }

  lemma ReadOffGrows(events: seq<Option<string>>, hashes: seq<string>, positions: seq<nat>, e: Option<string>)
    requires ReadOff(events, hashes, positions)
    ensures if IsHashed(e) then ReadOff(events + [e], hashes + [e.value], positions + [|events|])
            else ReadOff(events + [e], hashes, positions)
  {
    var all := events + [e];
    forall i: nat | i < |all| && IsHashed(all[i])
      ensures i in positions + [|events|]
      ensures i < |events| ==> i in positions
    {
      if i < |events| {
        assert events[i] == all[i];
      } else {
        assert (positions + [|events|])[|positions|] == i;
      }
    }
  }

  /** The leaves are read off the events. */
  lemma {:induction false} LeavesAreReadOff(events: seq<Option<string>>) returns (positions: seq<nat>)
    ensures ReadOff(events, Leaves(events), positions)
    decreases |events|
  {
    if events == [] {
      positions := [];
    } else {
      var before, e := events[..|events| - 1], events[|events| - 1];
      assert events == before + [e];
      positions := LeavesAreReadOff(before);
      ReadOffGrows(before, Leaves(before), positions, e);
      LeavesSnoc(before, e);
      if IsHashed(e) {
        positions := positions + [|before|];
      }
    }
  }

  /** The list comprehension that collects the leaves. */
  method CollectLeaves(events: seq<Option<string>>) returns (hashes: seq<string>, ghost positions: seq<nat>)
    ensures hashes == Leaves(events)
    ensures ReadOff(events, hashes, positions)
  {
    hashes := [];
    for i := 0 to |events|
      invariant hashes == Leaves(events[..i])
    {
      assert events[..i + 1][..i] == events[..i];
      if events[i].Some? && events[i].value != "" {
        hashes := hashes + [events[i].value];
      }
    }
    assert events[..|events|] == events;
    positions := LeavesAreReadOff(events);
  }

  /** Every event has a hash, and `hashes` are these. */
  ghost predicate AllHashed(events: seq<Option<string>>, hashes: seq<string>) {
    && |events| == |hashes|
    && forall i :: 0 <= i < |events| ==> hashes[i] != "" && events[i] == Some(hashes[i])
  }

  lemma {:induction false} LeavesOfAllHashed(events: seq<Option<string>>, hashes: seq<string>)
    requires AllHashed(events, hashes)
    ensures Leaves(events) == hashes
    decreases |events|
  {
    if events != [] {
      var n := |events| - 1;
      LeavesOfAllHashed(events[..n], hashes[..n]);
      assert hashes == hashes[..n] + [hashes[n]];
    }
  }

  lemma {:induction false} LeavesOfNoneHashed(events: seq<Option<string>>)
    requires forall i :: 0 <= i < |events| ==> !IsHashed(events[i])
    ensures Leaves(events) == []
    decreases |events|
  {
    if events != [] {
      LeavesOfNoneHashed(events[..|events| - 1]);
    }
  }

  /** The loop computes the tree's root, in ceil(log2 n) rounds. */
  method ComputeAuditRootHash(sha: Sha, events: seq<Option<string>>) returns (root: string, ghost rounds: nat)
    ensures root == AuditRoot(sha, events)
    ensures rounds == Rounds(|Leaves(events)|)
    ensures forall hashes :: AllHashed(events, hashes) && hashes != [] ==> root == Root(sha, hashes)
    ensures (forall i :: 0 <= i < |events| ==> !IsHashed(events[i])) ==> root == sha("no_events")
  {
    forall hashes | AllHashed(events, hashes)
      ensures Leaves(events) == hashes
    {
      LeavesOfAllHashed(events, hashes);
    }
    if forall i :: 0 <= i < |events| ==> !IsHashed(events[i]) {
      LeavesOfNoneHashed(events);
    }
    root, rounds := RootOfLeaves(sha, events);
  }

  /** The collecting and the outer loop. */
  method RootOfLeaves(sha: Sha, events: seq<Option<string>>) returns (root: string, ghost rounds: nat)
    ensures root == AuditRoot(sha, events)
    ensures rounds == Rounds(|Leaves(events)|)
    ensures Leaves(events) == [] ==> root == sha("no_events")
  {
    rounds := 0;
    var hashes, _ := CollectLeaves(events);
    if hashes == [] {
      return sha("no_events"), 0;
    }
    while |hashes| > 1
      invariant |hashes| > 0
      invariant Root(sha, hashes) == AuditRoot(sha, events)
      invariant rounds + Rounds(|hashes|) == Rounds(|Leaves(events)|)
      decreases |hashes|
    {
      LevelKeepsRoot(sha, hashes);
      hashes := NextLevel(sha, hashes);
      rounds := rounds + 1;
    }
    root := hashes[0];
  }

  /** The roots of up to three leaves, written out. */
  lemma SmallRoots(sha: Sha, a: string, b: string, c: string)
    ensures Root(sha, [a]) == a
    ensures Root(sha, [a, b]) == sha(a + b)
    ensures Root(sha, [a, b, c]) == sha(sha(a + b) + sha(c + c))
  {
    LevelKeepsRoot(sha, [a, b]);
    LevelKeepsRoot(sha, [a, b, c]);
    assert Level(sha, [a, b]) == [sha(a + b)];
    assert Level(sha, [a, b, c]) == [sha(a + b), sha(c + c)];
    LevelKeepsRoot(sha, [sha(a + b), sha(c + c)]);
    assert Level(sha, [sha(a + b), sha(c + c)]) == [sha(sha(a + b) + sha(c + c))];
  }

  // ----- What the root binds

  /** The 2^r leaves of the tree of height `r`, with every repeated half written out. */
  function Expand(hashes: seq<string>, r: nat): (full: seq<string>)
    requires 0 < |hashes| <= Pow2(r)
    ensures |full| == Pow2(r)
    ensures hashes <= full
    decreases r
  {
    if r == 0 then hashes
    else
      var left, right := LeftPart(hashes, r - 1), RightPart(hashes, r - 1);
      assert |hashes| > Pow2(r - 1) ==> hashes == left + right;
      Expand(left, r - 1) + Expand(right, r - 1)
  }

  /** Hexadecimal digests all have one length; so have the texts taken as leaves. */
  ghost predicate AllDigests(hashes: seq<string>) {
    forall i :: 0 <= i < |hashes| ==> |hashes[i]| == 64
  }

  /** On these texts the digest has its length and no collision. */
  ghost predicate Sound(sha: Sha, texts: set<string>) {
    CollisionFreeOn(sha, texts) && forall t :: t in texts ==> |sha(t)| == 64
  }

  /** Every concatenation hashed on the way to the root. */
  ghost function NodeTexts(sha: Sha, hashes: seq<string>, r: nat): set<string>
    requires 0 < |hashes| <= Pow2(r)
    decreases r
  {
    if r == 0 then {}
    else
      var left, right := LeftPart(hashes, r - 1), RightPart(hashes, r - 1);
      NodeTexts(sha, left, r - 1) + NodeTexts(sha, right, r - 1) +
      {TreeRoot(sha, left, r - 1) + TreeRoot(sha, right, r - 1)}
  }

  lemma ConcatBinds<T>(a: seq<T>, b: seq<T>, x: seq<T>, y: seq<T>)
    requires |a| == |x|
    ensures a + b == x + y <==> a == x && b == y
  {
    if a + b == x + y {
      assert a == (a + b)[..|a|] == x;
      assert b == (a + b)[|a|..] == y;
    }
  }

  lemma PairBinds(sha: Sha, a: string, b: string, x: string, y: string, texts: set<string>)
    requires |a| == |x| && a + b in texts && x + y in texts && CollisionFreeOn(sha, texts)
    ensures Pair(sha, a, b) == Pair(sha, x, y) <==> a == x && b == y
  {
    ConcatBinds(a, b, x, y);
  }

  /** What `TreeRootBinds` asks of a list: digests as leaves, and every hashed text in `texts`. */
  ghost predicate Covered(sha: Sha, hashes: seq<string>, r: nat, texts: set<string>)
    requires 0 < |hashes| <= Pow2(r)
  {
    AllDigests(hashes) && NodeTexts(sha, hashes, r) <= texts
  }

  lemma {:induction false} TreeRootIsDigest(sha: Sha, hashes: seq<string>, r: nat, texts: set<string>)
    requires 0 < |hashes| <= Pow2(r) && Covered(sha, hashes, r, texts) && Sound(sha, texts)
    ensures |TreeRoot(sha, hashes, r)| == 64
  {
    if r == 0 {
      assert |hashes[0]| == 64;
    } else {
      RootTextIsHashed(sha, hashes, r - 1);
    }
  }

  lemma RootTextIsHashed(sha: Sha, hashes: seq<string>, h: nat)
    requires 0 < |hashes| <= Pow2(h + 1)
    ensures var text := TreeRoot(sha, LeftPart(hashes, h), h) + TreeRoot(sha, RightPart(hashes, h), h);
            text in NodeTexts(sha, hashes, h + 1) && TreeRoot(sha, hashes, h + 1) == sha(text)
  {
  }

  lemma PartsAreCovered(sha: Sha, hashes: seq<string>, r: nat, texts: set<string>)
    requires 0 < |hashes| <= Pow2(r + 1) && Sound(sha, texts) && Covered(sha, hashes, r + 1, texts)
    ensures Covered(sha, LeftPart(hashes, r), r, texts) && Covered(sha, RightPart(hashes, r), r, texts)
    ensures |TreeRoot(sha, LeftPart(hashes, r), r)| == 64
    ensures TreeRoot(sha, LeftPart(hashes, r), r) + TreeRoot(sha, RightPart(hashes, r), r) in texts
  {
    TreeRootIsDigest(sha, LeftPart(hashes, r), r, texts);
  }

  /** If roots and leaves agree together in both halves, they agree together in the whole. */
  lemma HalvesBind(sha: Sha, la: string, ra: string, lb: string, rb: string,
                   ela: seq<string>, era: seq<string>, elb: seq<string>, erb: seq<string>, texts: set<string>)
    requires |la| == |lb| && la + ra in texts && lb + rb in texts && CollisionFreeOn(sha, texts)
    requires |ela| == |elb| && (la == lb <==> ela == elb) && (ra == rb <==> era == erb)
    ensures Pair(sha, la, ra) == Pair(sha, lb, rb) <==> ela + era == elb + erb
  {
    PairBinds(sha, la, ra, lb, rb, texts);
    ConcatBinds(ela, era, elb, erb);
  }

  /** Trees of one height have the same root exactly when they have the same written-out leaves. */
  lemma {:induction false} TreeRootBinds(sha: Sha, a: seq<string>, b: seq<string>, r: nat, texts: set<string>)
    requires 0 < |a| <= Pow2(r) && 0 < |b| <= Pow2(r)
    requires Sound(sha, texts) && Covered(sha, a, r, texts) && Covered(sha, b, r, texts)
    ensures TreeRoot(sha, a, r) == TreeRoot(sha, b, r) <==> Expand(a, r) == Expand(b, r)
    decreases r
  {
    if r == 0 {
      assert a == [a[0]] && b == [b[0]];
    } else {
      var h := r - 1;
      var la, ra, lb, rb := LeftPart(a, h), RightPart(a, h), LeftPart(b, h), RightPart(b, h);
      PartsAreCovered(sha, a, h, texts);
      PartsAreCovered(sha, b, h, texts);
      TreeRootBinds(sha, la, lb, h, texts);
      TreeRootBinds(sha, ra, rb, h, texts);
      HalvesBind(sha, TreeRoot(sha, la, h), TreeRoot(sha, ra, h), TreeRoot(sha, lb, h), TreeRoot(sha, rb, h),
                 Expand(la, h), Expand(ra, h), Expand(lb, h), Expand(rb, h), texts);
    }
  }

  /** The texts hashed on the way to the root of a list. */
  ghost function RootTexts(sha: Sha, hashes: seq<string>): set<string>
    requires hashes != []
  {
    RoundsIsCeilLog2(|hashes|);
    NodeTexts(sha, hashes, Rounds(|hashes|))
  }

  /** The leaves of a list's tree, with every repeated half written out. */
  function FullLeaves(hashes: seq<string>): (full: seq<string>)
    requires hashes != []
    ensures hashes <= full
  {
    RoundsIsCeilLog2(|hashes|);
    Expand(hashes, Rounds(|hashes|))
  }

  ghost predicate RootCovered(sha: Sha, hashes: seq<string>, texts: set<string>)
    requires hashes != []
  {
    AllDigests(hashes) && RootTexts(sha, hashes) <= texts
  }

  /** Lists that take equally many rounds have the same root exactly when they have the same full leaves. */
  lemma RootBindsFullLeaves(sha: Sha, a: seq<string>, b: seq<string>, texts: set<string>)
    requires a != [] && b != [] && Rounds(|a|) == Rounds(|b|)
    requires Sound(sha, texts) && RootCovered(sha, a, texts) && RootCovered(sha, b, texts)
    ensures Root(sha, a) == Root(sha, b) <==> FullLeaves(a) == FullLeaves(b)
  {
    RoundsIsCeilLog2(|a|);
    RoundsIsCeilLog2(|b|);
    TreeRootBinds(sha, a, b, Rounds(|a|), texts);
  }

  /** Lists of one length with the same root are equal, element by element. */
  lemma RootBindsLeaves(sha: Sha, a: seq<string>, b: seq<string>, texts: set<string>)
    requires a != [] && |a| == |b|
    requires Sound(sha, texts) && RootCovered(sha, a, texts) && RootCovered(sha, b, texts)
    requires Root(sha, a) == Root(sha, b)
    ensures a == b
  {
    RootBindsFullLeaves(sha, a, b, texts);
    assert a == FullLeaves(a)[..|a|] && b == FullLeaves(b)[..|a|];
  }

  /** Two equally long lists of hashed events with one audit root have the same hashes, position by position. */
  lemma RootBindsEvents(sha: Sha, events: seq<Option<string>>, hashes: seq<string>,
                        events': seq<Option<string>>, hashes': seq<string>, texts: set<string>)
    requires |events| == |events'| && events != []
    requires AllHashed(events, hashes) && AllHashed(events', hashes')
    requires Sound(sha, texts) && RootCovered(sha, hashes, texts) && RootCovered(sha, hashes', texts)
    requires AuditRoot(sha, events) == AuditRoot(sha, events')
    ensures events == events'
  {
    LeavesOfAllHashed(events, hashes);
    LeavesOfAllHashed(events', hashes');
    RootBindsLeaves(sha, hashes, hashes', texts);
  }

  /** `k` rounds of the loop. */
  function Levels(sha: Sha, hashes: seq<string>, k: nat): (next: seq<string>)
    requires hashes != [] && k <= Rounds(|hashes|)
    ensures next != [] && Rounds(|next|) == Rounds(|hashes|) - k
    ensures Root(sha, next) == Root(sha, hashes)
    decreases k
  {
    if k == 0 then hashes
    else
      LevelKeepsRoot(sha, hashes);
      Levels(sha, Level(sha, hashes), k - 1)
  }

  /**
   * Lists of any lengths: the roots agree exactly when the longer loop reaches, after its extra
   * rounds, a list with the same full leaves. So the root alone does not fix the length.
   */
  lemma RootsAgreeIff(sha: Sha, a: seq<string>, b: seq<string>, extra: nat, texts: set<string>)
    requires a != [] && b != [] && Rounds(|a|) == extra + Rounds(|b|)
    requires Sound(sha, texts) && RootCovered(sha, Levels(sha, a, extra), texts) && RootCovered(sha, b, texts)
    ensures Root(sha, a) == Root(sha, b) <==> FullLeaves(Levels(sha, a, extra)) == FullLeaves(b)
  {
    RootBindsFullLeaves(sha, Levels(sha, a, extra), b, texts);
  }

  /** Texts of one length are needed: of two leaves the root binds the concatenation, not the border. */
  lemma MovedBorderKeepsRoot(sha: Sha, a: string, b: string, x: string, y: string)
    requires CollisionFreeOn(sha, {a + b, x + y})
    ensures Root(sha, [a, b]) == Root(sha, [x, y]) <==> a + b == x + y
  {
    LevelKeepsRoot(sha, [a, b]);
    LevelKeepsRoot(sha, [x, y]);
    assert Root(sha, Level(sha, [a, b])) == sha(a + b) && Root(sha, Level(sha, [x, y])) == sha(x + y);
  }

  /** So are equal lengths: repeating the last leaf of an odd list leaves the root as it was. */
  lemma RepeatedLastLeafKeepsRoot(sha: Sha, hashes: seq<string>)
    requires |hashes| > 1 && |hashes| % 2 == 1
    ensures Root(sha, hashes + [hashes[|hashes| - 1]]) == Root(sha, hashes)
  {
    var more := hashes + [hashes[|hashes| - 1]];
    assert Level(sha, more) == Level(sha, hashes);
    LevelKeepsRoot(sha, more);
    LevelKeepsRoot(sha, hashes);
  }
}
