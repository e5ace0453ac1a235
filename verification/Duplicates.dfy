/** Duplicate groups in a stream (audit/duplicate_detector_fuzzy.py). */
module Duplicates {
  import opened Basics
  import opened Hashing

  /**
   * `metadata` is without its timestamp and correlation id; `sortKey` orders timestamp texts;
   * `stamp` is the instant a text denotes, if it parses and can be compared with the clock.
   */
  datatype Event = Event(id: string, eventType: string, data: string, metadata: string,
                         sortKey: int, stamp: Option<int>)

  datatype Content = Content(eventType: string, data: string, metadata: string)

  /** `ratio` is the sequence matcher's similarity of two JSON texts. */
  datatype Tools = Tools(sha: Sha, json: Content -> string, ratio: (string, string) -> real)

  /** `now` is the clock as read when the group of a hash is examined. */
  datatype Config = Config(threshold: real, window: int, now: string -> int)

  datatype Entry = Entry(group: seq<Event>, score: real, eventIds: seq<string>)

  function ContentHash(k: Tools, e: Event): string {
    k.sha(k.json(Content(e.eventType, e.data, e.metadata)))
  }

  /** Serialisation loses nothing. */
  ghost predicate Faithful(k: Tools) {
    forall x, y :: k.json(x) == k.json(y) ==> x == y
  }

  function HashText(k: Tools, e: Event): string {
    k.json(Content(e.eventType, e.data, e.metadata))
  }

  /** Two events that the digest tells apart have one content hash exactly if they agree in type, data and metadata. */
  lemma SameHashIff(k: Tools, a: Event, b: Event)
    requires Faithful(k) && CollisionFreeOn(k.sha, {HashText(k, a), HashText(k, b)})
    ensures ContentHash(k, a) == ContentHash(k, b) <==>
            a.eventType == b.eventType && a.data == b.data && a.metadata == b.metadata
  {
    assert ContentHash(k, a) == k.sha(HashText(k, a)) && ContentHash(k, b) == k.sha(HashText(k, b));
  }

  ghost predicate RatiosOk(k: Tools) {
    forall a, b :: k.ratio(a, b) >= 0.0
  }

  function Similarity(k: Tools, a: Event, b: Event): real {
    var content := if ContentHash(k, a) == ContentHash(k, b) then 1.0 else 0.0;
    var typed := if a.eventType == b.eventType then 0.2 else 0.0;
    var total := content + typed + k.ratio(a.data, b.data) * 0.3;
    if total < 1.0 then total else 1.0
  }

  /** Events with different content hashes are less than half similar: a fifth for the type, the rest for the data. */
  lemma OtherHashSimilarity(k: Tools, a: Event, b: Event)
    requires ContentHash(k, a) != ContentHash(k, b) && 0.0 <= k.ratio(a.data, b.data) <= 1.0
    ensures Similarity(k, a, b) <= 0.5
    ensures Similarity(k, a, b) == 0.3 * k.ratio(a.data, b.data) + if a.eventType == b.eventType then 0.2 else 0.0
  {
  }

  // ----- Specification of the scan

  /** The events with one content hash, in stream order. */
  function ClassOf(k: Tools, events: seq<Event>, hash: string): seq<Event> {
    Filter(events, (e: Event) => ContentHash(k, e) == hash)
  }

  /** The content hashes, in the order in which they first occur. */
  function Keys(k: Tools, events: seq<Event>): seq<string> {
    if events == [] then []
    else
      var before := Keys(k, events[..|events| - 1]);
      var hash := ContentHash(k, events[|events| - 1]);
      if hash in before then before else before + [hash]
  }

  /** `sorted` is stable: an event goes behind those with the same key. */
  function Insert(sorted: seq<Event>, e: Event): seq<Event> {
    if sorted == [] || sorted[|sorted| - 1].sortKey <= e.sortKey then sorted + [e]
    else Insert(sorted[..|sorted| - 1], e) + [sorted[|sorted| - 1]]
  }

  function Sorted(events: seq<Event>): seq<Event> {
    if events == [] then [] else Insert(Sorted(events[..|events| - 1]), events[|events| - 1])
  }

  predicate Recent(e: Event, start: int) {
    e.stamp.Some? && e.stamp.value > start
  }

  function RecentOf(events: seq<Event>, start: int): seq<Event> {
    Filter(events, (e: Event) => Recent(e, start))
  }

  function Ids(events: seq<Event>): seq<string> {
    seq(|events|, i requires 0 <= i < |events| => events[i].id)
  }

  /** The recent events of a class, in time order. */
  function Group(k: Tools, cfg: Config, events: seq<Event>, hash: string): seq<Event> {
    RecentOf(Sorted(ClassOf(k, events, hash)), cfg.now(hash) - cfg.window)
  }

  /** The score of the first event from `from` on that is similar enough to the group's first. */
  function FirstSimilar(k: Tools, cfg: Config, group: seq<Event>, from: nat): Option<real>
    requires 0 < from <= |group|
    decreases |group| - from
  {
    if from == |group| then None
    else
      var s := Similarity(k, group[0], group[from]);
      if s >= cfg.threshold then Some(s) else FirstSimilar(k, cfg, group, from + 1)
  }

  /** The entry of a group, if it has one. */
  function EntryOf(k: Tools, cfg: Config, group: seq<Event>): seq<Entry> {
    if |group| < 2 then []
    else match FirstSimilar(k, cfg, group, 1)
      case None => []
      case Some(score) => [Entry(group, score, Ids(group))]
  }

  function EntriesOf(k: Tools, cfg: Config, events: seq<Event>, keys: seq<string>): seq<Entry> {
    if keys == [] then []
    else
      EntriesOf(k, cfg, events, keys[..|keys| - 1]) + EntryFor(k, cfg, events, keys[|keys| - 1])
  }

  function EntryFor(k: Tools, cfg: Config, events: seq<Event>, hash: string): seq<Entry> {
    EntryOf(k, cfg, Group(k, cfg, events, hash))
  }

  // ----- The scan

  /** The loop that fills `hash_groups`; `keys` is the dictionary's insertion order. */
  method GroupByHash(k: Tools, events: seq<Event>) returns (keys: seq<string>, groups: map<string, seq<Event>>)
    ensures keys == Keys(k, events)
    ensures forall h :: h in groups <==> h in keys
    ensures forall h :: h in groups ==> groups[h] == ClassOf(k, events, h)
  {
    keys, groups := [], map[];
    for i := 0 to |events|
      invariant keys == Keys(k, events[..i])
      invariant forall h :: h in groups <==> h in keys
      invariant forall h :: h in groups ==> groups[h] == ClassOf(k, events[..i], h)
      invariant forall h :: h !in groups ==> ClassOf(k, events[..i], h) == []
    {
      assert events[..i + 1][..i] == events[..i];
      var hash := ContentHash(k, events[i]);
      if hash !in groups {
        keys := keys + [hash];
        groups := groups[hash := []];
      }
      groups := groups[hash := groups[hash] + [events[i]]];
    }
    assert events[..|events|] == events;
  }

  /** The loop over a sorted group that keeps what lies in the window. */
  method KeepRecent(sorted: seq<Event>, start: int) returns (group: seq<Event>)
    ensures group == RecentOf(sorted, start)
  {
    group := [];
    for i := 0 to |sorted|
      invariant group == RecentOf(sorted[..i], start)
    {
      assert sorted[..i + 1][..i] == sorted[..i];
      if sorted[i].stamp.Some? && sorted[i].stamp.value > start {
        group := group + [sorted[i]];
      }
    }
    assert sorted[..|sorted|] == sorted;
  }

  /** The ids are those of the events, in their order. */
  ghost predicate HasIds(ids: seq<string>, events: seq<Event>) {
    |ids| == |events| && forall i :: 0 <= i < |ids| ==> ids[i] == events[i].id
  }

  /** The score is that of the first event similar enough to the group's first. */
  ghost predicate ScoredAt(k: Tools, cfg: Config, score: real, group: seq<Event>) {
    exists i :: 0 < i < |group| && score == Similarity(k, group[0], group[i]) && score >= cfg.threshold &&
                forall j :: 0 < j < i ==> Similarity(k, group[0], group[j]) < cfg.threshold
  }

  /** The loop that compares the first event of a group with the others until one is similar. */
  method ReportGroup(k: Tools, cfg: Config, group: seq<Event>) returns (entries: seq<Entry>)
    ensures entries == EntryOf(k, cfg, group)
    ensures |entries| <= 1 && (|group| < 2 ==> entries == [])
    ensures forall e :: e in entries ==>
              e.group == group && HasIds(e.eventIds, group) && ScoredAt(k, cfg, e.score, group)
    ensures entries == [] <==> forall j :: 0 < j < |group| ==> Similarity(k, group[0], group[j]) < cfg.threshold
  {
    entries := [];
    if |group| >= 2 {
      for i := 1 to |group|
        invariant entries == [] && FirstSimilar(k, cfg, group, 1) == FirstSimilar(k, cfg, group, i)
        invariant forall j :: 0 < j < i ==> Similarity(k, group[0], group[j]) < cfg.threshold
      {
        var similarity := Similarity(k, group[0], group[i]);
        if similarity >= cfg.threshold {
          return [Entry(group, similarity, Ids(group))];
        }
      }
    }
  }

  /** The body of the loop over the hash groups. */
  method ReportClass(k: Tools, cfg: Config, ghost events: seq<Event>, hash: string, members: seq<Event>)
    returns (entries: seq<Entry>)
    requires members == ClassOf(k, events, hash)
    ensures entries == EntryFor(k, cfg, events, hash)
  {
    if |members| < 2 {
      SmallClassNoEntry(k, cfg, events, hash);
      return [];
    }
    var group := KeepRecent(Sorted(members), cfg.now(hash) - cfg.window);
    entries := ReportGroup(k, cfg, group);
  }

  lemma SmallClassNoEntry(k: Tools, cfg: Config, events: seq<Event>, hash: string)
    requires |ClassOf(k, events, hash)| < 2
    ensures EntryFor(k, cfg, events, hash) == []
  {
    SizesShrink(ClassOf(k, events, hash), cfg.now(hash) - cfg.window);
  }

  lemma EntriesOfOneMoreKey(k: Tools, cfg: Config, events: seq<Event>, keys: seq<string>, i: nat)
    requires i < |keys|
    ensures EntriesOf(k, cfg, events, keys[..i + 1])
         == EntriesOf(k, cfg, events, keys[..i]) + EntryFor(k, cfg, events, keys[i])
  {
    assert keys[..i + 1][..i] == keys[..i];
  }

  /** `detect_duplicates_in_stream` */
  method DetectDuplicates(k: Tools, cfg: Config, events: seq<Event>) returns (duplicates: seq<Entry>)
    ensures duplicates == EntriesOf(k, cfg, events, Keys(k, events))
  {
    duplicates := [];
    if |events| < 2 {
      FewEventsNoEntry(k, cfg, events, Keys(k, events));
      return;
    }
    var keys, groups := GroupByHash(k, events);
    for i := 0 to |keys|
      invariant duplicates == EntriesOf(k, cfg, events, keys[..i])
    {
      EntriesOfOneMoreKey(k, cfg, events, keys, i);
      assert keys[i] in groups;
      var entries := ReportClass(k, cfg, events, keys[i], groups[keys[i]]);
      duplicates := duplicates + entries;
    }
    assert keys[..|keys|] == keys;
  }

  lemma SizesShrink(events: seq<Event>, start: int)
    ensures |RecentOf(Sorted(events), start)| <= |events|
  {
    SortedKeepsEvents(events);
    assert |multiset(Sorted(events))| == |multiset(events)|;
  }

  lemma {:induction false} SmallGroupsNoEntry(k: Tools, cfg: Config, events: seq<Event>, keys: seq<string>)
    requires forall h :: |Group(k, cfg, events, h)| < 2
    ensures EntriesOf(k, cfg, events, keys) == []
    decreases |keys|
  {
    if keys != [] {
      SmallGroupsNoEntry(k, cfg, events, keys[..|keys| - 1]);
    }
  }

  lemma FewEventsNoEntry(k: Tools, cfg: Config, events: seq<Event>, keys: seq<string>)
    requires |events| < 2
    ensures EntriesOf(k, cfg, events, keys) == []
  {
    forall h
      ensures |Group(k, cfg, events, h)| < 2
    {
      SizesShrink(ClassOf(k, events, h), cfg.now(h) - cfg.window);
    }
    SmallGroupsNoEntry(k, cfg, events, keys);
  }

  // ----- Sorting and filtering keep exactly the right events

  lemma {:induction false} InsertKeepsEvents(sorted: seq<Event>, e: Event)
    ensures multiset(Insert(sorted, e)) == multiset(sorted) + multiset{e}
    decreases |sorted|
  {
    if sorted != [] && sorted[|sorted| - 1].sortKey > e.sortKey {
      var before := sorted[..|sorted| - 1];
      InsertKeepsEvents(before, e);
      assert sorted == before + [sorted[|sorted| - 1]];
    }
  }

  lemma {:induction false} SortedKeepsEvents(events: seq<Event>)
    ensures multiset(Sorted(events)) == multiset(events)
    decreases |events|
  {
    if events != [] {
      var before, e := events[..|events| - 1], events[|events| - 1];
      calc {
        multiset(Sorted(events));
        { InsertKeepsEvents(Sorted(before), e); }
        multiset(Sorted(before)) + multiset{e};
        { SortedKeepsEvents(before); }
        multiset(before) + multiset{e};
        { assert events == before + [e]; }
        multiset(events);
      }
    }
  }

  /** Sorting keeps events with one key in their order. */
  lemma {:induction false} SortedIsStable(events: seq<Event>, key: int)
    ensures WithKey(Sorted(events), key) == WithKey(events, key)
    decreases |events|
  {
    if events != [] {
      var before, e := events[..|events| - 1], events[|events| - 1];
      assert events == before + [e];
      SortedIsStable(before, key);
      SortedIsOrdered(before);
      InsertIsStable(Sorted(before), e, key);
      FilterSnoc(before, e, (x: Event) => x.sortKey == key);
    }
  }

  function WithKey(events: seq<Event>, key: int): seq<Event> {
    Filter(events, (e: Event) => e.sortKey == key)
  }

  lemma {:induction false} InsertIsStable(sorted: seq<Event>, e: Event, key: int)
    requires Ordered(sorted)
    ensures WithKey(Insert(sorted, e), key) == WithKey(sorted + [e], key)
    decreases |sorted|
  {
    if sorted != [] && sorted[|sorted| - 1].sortKey > e.sortKey {
      var before, last := sorted[..|sorted| - 1], sorted[|sorted| - 1];
      assert sorted == before + [last];
      InsertIsStable(before, e, key);
      WithKeySnoc(before, e, key);
      WithKeySnoc(before, last, key);
      WithKeySnoc(sorted, e, key);
      WithKeySnoc(Insert(before, e), last, key);
      if last.sortKey == key {
        assert WithKey(before + [e], key) == WithKey(before, key);
      }
    }
  }

  lemma WithKeySnoc(events: seq<Event>, e: Event, key: int)
    ensures WithKey(events + [e], key) == if e.sortKey == key then WithKey(events, key) + [e] else WithKey(events, key)
  {
    FilterSnoc(events, e, (x: Event) => x.sortKey == key);
  }

  ghost predicate Ordered(events: seq<Event>) {
    forall i, j :: 0 <= i < j < |events| ==> events[i].sortKey <= events[j].sortKey
  }

  lemma OrderedSnoc(events: seq<Event>, e: Event)
    requires Ordered(events) && forall x :: x in events ==> x.sortKey <= e.sortKey
    ensures Ordered(events + [e])
  {
  }

  lemma {:induction false} InsertKeepsOrder(sorted: seq<Event>, e: Event)
    requires Ordered(sorted)
    ensures Ordered(Insert(sorted, e))
    decreases |sorted|
  {
    if sorted != [] && sorted[|sorted| - 1].sortKey > e.sortKey {
      var before, last := sorted[..|sorted| - 1], sorted[|sorted| - 1];
      InsertKeepsOrder(before, e);
      forall x | x in Insert(before, e)
        ensures x.sortKey <= last.sortKey
      {
        InsertKeepsEvents(before, e);
        assert x in multiset(Insert(before, e));
        assert x in before || x == e;
      }
      OrderedSnoc(Insert(before, e), last);
    } else {
      OrderedSnoc(sorted, e);
    }
  }

  lemma {:induction false} SortedIsOrdered(events: seq<Event>)
    ensures Ordered(Sorted(events))
    decreases |events|
  {
    if events != [] {
      SortedIsOrdered(events[..|events| - 1]);
      InsertKeepsOrder(Sorted(events[..|events| - 1]), events[|events| - 1]);
    }
  }

  lemma RecentOfSortedCounts(events: seq<Event>, start: int, e: Event)
    ensures multiset(RecentOf(Sorted(events), start))[e] == if Recent(e, start) then multiset(events)[e] else 0
  {
    FilterCounts(Sorted(events), (x: Event) => Recent(x, start), e);
    SortedKeepsEvents(events);
  }

  lemma ClassCounts(k: Tools, events: seq<Event>, hash: string, e: Event)
    ensures multiset(ClassOf(k, events, hash))[e] == if ContentHash(k, e) == hash then multiset(events)[e] else 0
  {
    FilterCounts(events, (x: Event) => ContentHash(k, x) == hash, e);
  }

  /** A group holds precisely the recent events of its class, each as often as the stream does. */
  lemma GroupIsExact(k: Tools, cfg: Config, events: seq<Event>, hash: string, e: Event)
    ensures multiset(Group(k, cfg, events, hash))[e]
         == if ContentHash(k, e) == hash && e.stamp.Some? && e.stamp.value > cfg.now(hash) - cfg.window
            then multiset(events)[e] else 0
  {
    var class_, start := ClassOf(k, events, hash), cfg.now(hash) - cfg.window;
    assert Group(k, cfg, events, hash) == RecentOf(Sorted(class_), start);
    RecentOfSortedCounts(class_, start, e);
    ClassCounts(k, events, hash, e);
  }

  lemma GroupHasHash(k: Tools, cfg: Config, events: seq<Event>, hash: string)
    ensures forall e :: e in Group(k, cfg, events, hash) ==> ContentHash(k, e) == hash
  {
    forall e | e in Group(k, cfg, events, hash)
      ensures ContentHash(k, e) == hash
    {
      assert e in multiset(Group(k, cfg, events, hash));
      GroupIsExact(k, cfg, events, hash, e);
    }
  }

  // ----- Which entries there are

  lemma {:induction false} KeysAreTheHashes(k: Tools, events: seq<Event>)
    ensures Distinct(Keys(k, events))
    ensures forall h :: h in Keys(k, events) <==> exists e :: e in events && ContentHash(k, e) == h
    decreases |events|
  {
    if events != [] {
      var before, last := events[..|events| - 1], events[|events| - 1];
      KeysAreTheHashes(k, before);
      assert events == before + [last];
      assert forall e :: e in events <==> e in before || e == last;
    }
  }

  /** `p` is the first event with its content hash. */
  ghost predicate IsFirstOfHash(k: Tools, events: seq<Event>, p: nat) {
    p < |events| && forall q :: 0 <= q < p ==> ContentHash(k, events[q]) != ContentHash(k, events[p])
  }

  /** Key `i` is the hash of the event at `firsts[i]`, the first to have it. */
  ghost predicate FirstsOf(k: Tools, events: seq<Event>, keys: seq<string>, firsts: seq<nat>) {
    && |firsts| == |keys|
    && (forall i, j :: 0 <= i < j < |firsts| ==> firsts[i] < firsts[j])
    && (forall i :: 0 <= i < |firsts| ==>
          IsFirstOfHash(k, events, firsts[i]) && keys[i] == ContentHash(k, events[firsts[i]]))
  }

  lemma FirstsStay(k: Tools, before: seq<Event>, last: Event, keys: seq<string>, firsts: seq<nat>)
    requires FirstsOf(k, before, keys, firsts)
    ensures FirstsOf(k, before + [last], keys, firsts)
  {
    assert forall p: nat :: IsFirstOfHash(k, before, p) ==>
      IsFirstOfHash(k, before + [last], p) && (before + [last])[p] == before[p];
  }

  lemma FirstsGrow(k: Tools, events: seq<Event>, keys: seq<string>, firsts: seq<nat>)
    requires events != [] && FirstsOf(k, events[..|events| - 1], keys, firsts) && FirstsOf(k, events, keys, firsts)
    requires IsFirstOfHash(k, events, |events| - 1)
    ensures FirstsOf(k, events, keys + [ContentHash(k, events[|events| - 1])], firsts + [|events| - 1])
  {
    forall i | 0 <= i < |firsts|
      ensures firsts[i] < |events| - 1
    {
      assert IsFirstOfHash(k, events[..|events| - 1], firsts[i]);
    }
  }

  /** The keys are in the order of the first events that have them. */
  lemma {:induction false} KeysAreInOrder(k: Tools, events: seq<Event>) returns (firsts: seq<nat>)
    ensures FirstsOf(k, events, Keys(k, events), firsts)
    decreases |events|
  {
    firsts := [];
    if events != [] {
      var before, last := events[..|events| - 1], events[|events| - 1];
      assert events == before + [last];
      firsts := KeysAreInOrder(k, before);
      FirstsStay(k, before, last, Keys(k, before), firsts);
      if ContentHash(k, last) !in Keys(k, before) {
        NewHashIsFirst(k, before, last);
        FirstsGrow(k, events, Keys(k, before), firsts);
        firsts := firsts + [|before|];
      }
    }
  }

  lemma NewHashIsFirst(k: Tools, before: seq<Event>, last: Event)
    requires ContentHash(k, last) !in Keys(k, before)
    ensures IsFirstOfHash(k, before + [last], |before|)
  {
    KeysAreTheHashes(k, before);
    forall q | 0 <= q < |before|
      ensures ContentHash(k, before[q]) != ContentHash(k, last)
    {
      assert before[q] in before;
    }
  }

  /** Events of one class are wholly similar, so the similarity test passes unless nothing can pass. */
  lemma SameHashIsSimilar(k: Tools, cfg: Config, group: seq<Event>)
    requires RatiosOk(k) && |group| >= 2
    requires forall e :: e in group ==> ContentHash(k, e) == ContentHash(k, group[0])
    ensures FirstSimilar(k, cfg, group, 1) == if cfg.threshold <= 1.0 then Some(1.0) else None
  {
    SimilarFrom(k, cfg, group, 1);
  }

  lemma {:induction false} SimilarFrom(k: Tools, cfg: Config, group: seq<Event>, from: nat)
    requires RatiosOk(k) && 0 < from <= |group|
    requires forall e :: e in group ==> ContentHash(k, e) == ContentHash(k, group[0])
    ensures FirstSimilar(k, cfg, group, from)
         == if from < |group| && cfg.threshold <= 1.0 then Some(1.0) else None
    decreases |group| - from
  {
    if from < |group| {
      assert group[from] in group;
      assert Similarity(k, group[0], group[from]) == 1.0;
      SimilarFrom(k, cfg, group, from + 1);
    }
  }

  /** The keys whose groups have at least two events. */
  function Repeated(k: Tools, cfg: Config, events: seq<Event>, keys: seq<string>): seq<string> {
    Filter(keys, (h: string) => |Group(k, cfg, events, h)| >= 2)
  }

  function FullEntry(k: Tools, cfg: Config, events: seq<Event>, h: string): Entry {
    var group := Group(k, cfg, events, h);
    Entry(group, 1.0, Ids(group))
  }

  lemma EntryOfRepeated(k: Tools, cfg: Config, events: seq<Event>, h: string)
    requires RatiosOk(k)
    ensures EntryFor(k, cfg, events, h)
         == if |Group(k, cfg, events, h)| >= 2 && cfg.threshold <= 1.0 then [FullEntry(k, cfg, events, h)] else []
  {
    GroupHasHash(k, cfg, events, h);
    var group := Group(k, cfg, events, h);
    if |group| >= 2 {
      assert group[0] in group;
      SameHashIsSimilar(k, cfg, group);
    }
  }

  lemma {:induction false} EntriesAreRepeatedGroups(k: Tools, cfg: Config, events: seq<Event>, keys: seq<string>)
    requires RatiosOk(k)
    ensures var r := Repeated(k, cfg, events, keys); var d := EntriesOf(k, cfg, events, keys);
            if cfg.threshold <= 1.0
            then |d| == |r| && forall i :: 0 <= i < |r| ==> d[i] == FullEntry(k, cfg, events, r[i])
            else d == []
    decreases |keys|
  {
    if keys != [] {
      EntriesAreRepeatedGroups(k, cfg, events, keys[..|keys| - 1]);
      EntryOfRepeated(k, cfg, events, keys[|keys| - 1]);
    }
  }

  /** The entries of a scan, and the hashes they are for. */
  lemma EntriesMatchHashes(k: Tools, cfg: Config, events: seq<Event>, d: seq<Entry>, r: seq<string>)
    requires RatiosOk(k) && cfg.threshold <= 1.0
    requires d == EntriesOf(k, cfg, events, Keys(k, events)) && r == Repeated(k, cfg, events, Keys(k, events))
    ensures |d| == |r| && Distinct(r)
    ensures forall i :: 0 <= i < |d| ==> d[i] == FullEntry(k, cfg, events, r[i]) && |d[i].group| >= 2
    ensures forall h :: h in r <==> h in Keys(k, events) && |Group(k, cfg, events, h)| >= 2
  {
    KeysAreTheHashes(k, events);
    FilterDistinct(Keys(k, events), (h: string) => |Group(k, cfg, events, h)| >= 2);
    EntriesAreRepeatedGroups(k, cfg, events, Keys(k, events));
    forall i | 0 <= i < |d|
      ensures |d[i].group| >= 2
    {
      assert r[i] in r;
    }
  }

  /** Every class with at least two recent events is reported, with all of them and score one. */
  lemma EveryRepeatIsReported(k: Tools, cfg: Config, events: seq<Event>, h: string)
    requires RatiosOk(k) && cfg.threshold <= 1.0 && |Group(k, cfg, events, h)| >= 2
    ensures FullEntry(k, cfg, events, h) in EntriesOf(k, cfg, events, Keys(k, events))
  {
    var d, r := EntriesOf(k, cfg, events, Keys(k, events)), Repeated(k, cfg, events, Keys(k, events));
    EntriesMatchHashes(k, cfg, events, d, r);
    GroupNeedsKey(k, cfg, events, h);
    var i :| 0 <= i < |r| && r[i] == h;
    assert d[i] == FullEntry(k, cfg, events, h);
  }

  /** Nothing else is reported: an entry is the full entry of its events' common hash. */
  lemma OnlyRepeatsAreReported(k: Tools, cfg: Config, events: seq<Event>, i: nat)
    requires RatiosOk(k) && cfg.threshold <= 1.0 && i < |EntriesOf(k, cfg, events, Keys(k, events))|
    ensures var e := EntriesOf(k, cfg, events, Keys(k, events))[i];
            && |e.group| >= 2 && e == FullEntry(k, cfg, events, ContentHash(k, e.group[0]))
            && e.score == 1.0 && HasIds(e.eventIds, e.group)
            && forall x :: x in e.group ==> ContentHash(k, x) == ContentHash(k, e.group[0])
  {
    var d, r := EntriesOf(k, cfg, events, Keys(k, events)), Repeated(k, cfg, events, Keys(k, events));
    EntriesMatchHashes(k, cfg, events, d, r);
    GroupHasHash(k, cfg, events, r[i]);
    assert d[i].group[0] in Group(k, cfg, events, r[i]);
  }

  /** No event is in two entries. */
  lemma EntriesAreDisjoint(k: Tools, cfg: Config, events: seq<Event>, i: nat, j: nat, e: Event)
    requires RatiosOk(k) && i < j < |EntriesOf(k, cfg, events, Keys(k, events))|
    requires e in EntriesOf(k, cfg, events, Keys(k, events))[i].group
    ensures e !in EntriesOf(k, cfg, events, Keys(k, events))[j].group
  {
    var d, r := EntriesOf(k, cfg, events, Keys(k, events)), Repeated(k, cfg, events, Keys(k, events));
    EntriesAreRepeatedGroups(k, cfg, events, Keys(k, events));
    EntriesMatchHashes(k, cfg, events, d, r);
    GroupHasHash(k, cfg, events, r[i]);
    GroupHasHash(k, cfg, events, r[j]);
  }

  /** The similarity test drops a class only when the threshold exceeds one, and then all of them. */
  lemma NothingPassesAboveOne(k: Tools, cfg: Config, events: seq<Event>)
    requires RatiosOk(k) && cfg.threshold > 1.0
    ensures EntriesOf(k, cfg, events, Keys(k, events)) == []
  {
    EntriesAreRepeatedGroups(k, cfg, events, Keys(k, events));
  }

  /**
   * Where no timestamp can be read nothing is reported, whatever the stream holds. So it is with
   * every stream the repository's own store returns: its timestamps are no texts.
   */
  lemma UnreadableStampsHideAll(k: Tools, cfg: Config, events: seq<Event>)
    requires forall e :: e in events ==> e.stamp.None?
    ensures EntriesOf(k, cfg, events, Keys(k, events)) == []
  {
    forall h
      ensures |Group(k, cfg, events, h)| < 2
    {
      UnreadableGroupIsEmpty(k, cfg, events, h);
    }
    SmallGroupsNoEntry(k, cfg, events, Keys(k, events));
  }

  lemma SortedHas(events: seq<Event>, e: Event)
    ensures e in Sorted(events) <==> e in events
  {
    SortedKeepsEvents(events);
    assert e in Sorted(events) <==> e in multiset(Sorted(events));
    assert e in events <==> e in multiset(events);
  }

  lemma UnreadableGroupIsEmpty(k: Tools, cfg: Config, events: seq<Event>, h: string)
    requires forall e :: e in events ==> e.stamp.None?
    ensures Group(k, cfg, events, h) == []
  {
    var members := Sorted(ClassOf(k, events, h));
    forall e | e in members
      ensures e.stamp.None?
    {
      SortedHas(ClassOf(k, events, h), e);
    }
    FilterNone(members, (e: Event) => Recent(e, cfg.now(h) - cfg.window));
  }

  lemma GroupNeedsKey(k: Tools, cfg: Config, events: seq<Event>, h: string)
    requires Group(k, cfg, events, h) != []
    ensures h in Keys(k, events)
  {
    KeysAreTheHashes(k, events);
    var e := Group(k, cfg, events, h)[0];
    assert e in multiset(Group(k, cfg, events, h));
    GroupIsExact(k, cfg, events, h, e);
    assert e in multiset(events) && e in events;
  }
}
