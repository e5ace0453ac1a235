/** Sequence gaps in a stream (audit/gap_detector.py). */
module Gaps {
  import opened Basics

  datatype Event = Event(id: string, sequence: Option<int>)

  datatype Gap = Gap(position: nat, expected: int, actual: int, size: int, eventId: string)

  /** `event.get("sequence_number", i + 1)` */
  function Number(events: seq<Event>, i: nat): int
    requires i < |events|
  {
    if events[i].sequence.Some? then events[i].sequence.value else i + 1
  }

  /** The gaps among the first `n` events: wherever a number is not its predecessor's successor. */
  function GapsUpTo(events: seq<Event>, n: nat): seq<Gap>
    requires n <= |events|
  {
    if n <= 1 then []
    else
      var i := n - 1;
      var expected, actual := Number(events, i - 1) + 1, Number(events, i);
      GapsUpTo(events, i) +
      if actual != expected then [Gap(i, expected, actual, actual - expected, events[i].id)] else []
  }

  /** The number of event `i`: its own, or its place counted from one. */
  ghost predicate HasNumber(events: seq<Event>, i: nat, x: int)
    requires i < |events|
  {
    match events[i].sequence
    case Some(own) => x == own
    case None => x == i + 1
  }

  /** The gap is at event `i`: what was expected there, what was found, and how far the two lie apart. */
  ghost predicate IsGapAt(events: seq<Event>, g: Gap, i: nat)
    requires 0 < i < |events|
  {
    && g.position == i && g.eventId == events[i].id
    && HasNumber(events, i - 1, g.expected - 1) && HasNumber(events, i, g.actual)
    && g.actual != g.expected && g.size == g.actual - g.expected
  }

  /** Every gap is at an event after the first, and as it should be. */
  lemma {:induction false} GapIsAt(events: seq<Event>, n: nat, g: Gap)
    requires n <= |events| && g in GapsUpTo(events, n)
    ensures 0 < g.position < n && IsGapAt(events, g, g.position)
  {
    if g in GapsUpTo(events, n - 1) {
      GapIsAt(events, n - 1, g);
    }
  }

  /** There is one gap at most at each event, and they are in stream order. */
  lemma {:induction false} GapsAreInOrder(events: seq<Event>, n: nat, a: nat, b: nat)
    requires n <= |events| && a < b < |GapsUpTo(events, n)|
    ensures GapsUpTo(events, n)[a].position < GapsUpTo(events, n)[b].position
  {
    var before := GapsUpTo(events, n - 1);
    if b < |before| {
      GapsAreInOrder(events, n - 1, a, b);
    } else {
      assert before[a] in before;
      GapIsAt(events, n - 1, before[a]);
    }
  }

  /** And there is one wherever a number is not its predecessor's successor. */
  lemma {:induction false} NoGapIsMissed(events: seq<Event>, n: nat, i: nat, last: int, now: int)
    requires 0 < i < n <= |events| && HasNumber(events, i - 1, last) && HasNumber(events, i, now) && now != last + 1
    ensures Gap(i, last + 1, now, now - (last + 1), events[i].id) in GapsUpTo(events, n)
  {
    if i < n - 1 {
      NoGapIsMissed(events, n - 1, i, last, now);
    }
  }

  /** `detect_sequence_gaps` */
  method DetectSequenceGaps(events: seq<Event>) returns (gaps: seq<Gap>)
    ensures gaps == GapsUpTo(events, |events|)
    ensures forall g :: g in gaps ==> 0 < g.position < |events| && IsGapAt(events, g, g.position)
  {
    gaps := ScanForGaps(events);
    forall g | g in gaps
      ensures 0 < g.position < |events| && IsGapAt(events, g, g.position)
    {
      GapIsAt(events, |events|, g);
    }
  }

  /** The scanning loop. */
  method ScanForGaps(events: seq<Event>) returns (gaps: seq<Gap>)
    ensures gaps == GapsUpTo(events, |events|)
  {
    gaps := [];
    if events == [] {
      return;
    }
    var expected := if events[0].sequence.Some? then events[0].sequence.value else 1;
    for i := 0 to |events|
      invariant gaps == GapsUpTo(events, i)
      invariant expected == if i == 0 then Number(events, 0) else Number(events, i - 1) + 1
    {
      var actual := if events[i].sequence.Some? then events[i].sequence.value else i + 1;
      if actual != expected {
        gaps := gaps + [Gap(i, expected, actual, actual - expected, events[i].id)];
        expected := actual + 1;
      } else {
        expected := expected + 1;
      }
    }
  }

  function TotalSize(gaps: seq<Gap>): int {
    if gaps == [] then 0 else TotalSize(gaps[..|gaps| - 1]) + gaps[|gaps| - 1].size
  }

  /** On every stream, in order or not, the reported sizes add up to what the ends leave over. */
  lemma {:induction false} SizesTelescope(events: seq<Event>, n: nat)
    requires 0 < n <= |events|
    ensures TotalSize(GapsUpTo(events, n)) == Number(events, n - 1) - Number(events, 0) - (n - 1)
  {
    if n > 1 {
      SizesTelescope(events, n - 1);
      var before, all := GapsUpTo(events, n - 1), GapsUpTo(events, n);
      if all != before {
        assert all[..|all| - 1] == before;
      }
    }
  }

  ghost predicate Consecutive(events: seq<Event>, n: nat)
    requires n <= |events|
  {
    forall i :: 0 <= i < n ==> Number(events, i) == Number(events, 0) + i
  }

  /** No gap is reported exactly when the numbers are consecutive. */
  lemma {:induction false} NoGapsIff(events: seq<Event>, n: nat)
    requires n <= |events|
    ensures GapsUpTo(events, n) == [] <==> Consecutive(events, n)
  {
    if n > 1 {
      NoGapsIff(events, n - 1);
      var last := Number(events, n - 1) == Number(events, 0) + (n - 1);
      assert Consecutive(events, n) <==> Consecutive(events, n - 1) && last;
      assert Consecutive(events, n - 1) ==> Number(events, n - 2) == Number(events, 0) + (n - 2);
    }
  }

  ghost predicate Increasing(events: seq<Event>) {
    forall i, j :: 0 <= i < j < |events| ==> Number(events, i) < Number(events, j)
  }

  /** On an increasing stream every gap is a non-empty interval, and later gaps lie wholly above. */
  lemma {:induction false} GapsAreDisjoint(events: seq<Event>, n: nat)
    requires n <= |events| && Increasing(events)
    ensures forall g :: g in GapsUpTo(events, n) ==> g.expected < g.actual <= Number(events, n - 1)
    ensures forall a, b :: 0 <= a < b < |GapsUpTo(events, n)| ==>
              GapsUpTo(events, n)[a].actual < GapsUpTo(events, n)[b].expected
  {
    if n > 1 {
      GapsAreDisjoint(events, n - 1);
      assert Number(events, n - 2) < Number(events, n - 1);
      var before := GapsUpTo(events, n - 1);
      forall a | 0 <= a < |before|
        ensures before[a].actual < Number(events, n - 2) + 1
      {
        assert before[a] in before;
      }
    }
  }

  /** `x` lies in a reported interval. */
  ghost predicate Covered(gaps: seq<Gap>, x: int) {
    exists g :: g in gaps && g.expected <= x < g.actual
  }

  ghost predicate Present(events: seq<Event>, n: nat, x: int)
    requires n <= |events|
  {
    exists i :: 0 <= i < n && Number(events, i) == x
  }

  lemma CoveredStep(events: seq<Event>, n: nat, x: int)
    requires 1 < n <= |events|
    ensures Covered(GapsUpTo(events, n), x) <==>
            Covered(GapsUpTo(events, n - 1), x) || Number(events, n - 2) < x < Number(events, n - 1)
  {
    var before, all := GapsUpTo(events, n - 1), GapsUpTo(events, n);
    var low, high := Number(events, n - 2) + 1, Number(events, n - 1);
    assert forall g :: g in before ==> g in all;
    if low <= x < high {
      assert all[|before|] in all;
    }
  }

  /** On an increasing stream the missing numbers are exactly those in the reported intervals. */
  lemma {:induction false} MissingIff(events: seq<Event>, n: nat, x: int)
    requires 0 < n <= |events| && Increasing(events)
    ensures Covered(GapsUpTo(events, n), x) <==>
            Number(events, 0) <= x <= Number(events, n - 1) && !Present(events, n, x)
  {
    if n > 1 {
      MissingIff(events, n - 1, x);
      CoveredStep(events, n, x);
      assert Present(events, n, x) <==> Present(events, n - 1, x) || Number(events, n - 1) == x;
      if Present(events, n - 1, x) {
        assert x <= Number(events, n - 2) < Number(events, n - 1);
      }
      assert Present(events, n - 1, Number(events, n - 2));
      assert Number(events, 0) <= Number(events, n - 2) < Number(events, n - 1);
    }
  }
}
