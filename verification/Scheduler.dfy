/** Timers in a deque that is kept sorted by deadline. */
module Scheduler {
  import opened Common

  datatype TimerId = TimerId(topic: nat, window: nat)

  datatype Timer = Timer(deadline: int, event: nat, id: TimerId, interval: Option<nat>)

  /** Readings of a clock after the time `now` was read. */
  ghost predicate NeverBefore(clock: nat -> int, now: int) {
    forall k :: clock(k) >= now
  }

  predicate Sorted(timers: seq<Timer>) {
    forall i, j :: 0 <= i < j < |timers| ==> timers[i].deadline <= timers[j].deadline
  }

  // ----- What scheduling and updating should do -----

  /** Position of the first timer with a later deadline. */
  function InsertPosition(timers: seq<Timer>, deadline: int): (k: nat)
    ensures k <= |timers|
  {
    if timers == [] || timers[0].deadline > deadline then 0 else 1 + InsertPosition(timers[1..], deadline)
  }

  /** The timer behind all timers that are due no later. */
  function Inserted(timers: seq<Timer>, t: Timer): seq<Timer> {
    var k := InsertPosition(timers, t.deadline);
    timers[..k] + [t] + timers[k..]
  }

  /** The timers inserted one after the other. */
  function InsertedAll(timers: seq<Timer>, more: seq<Timer>): seq<Timer> {
    if more == [] then timers
    else Inserted(InsertedAll(timers, more[..|more| - 1]), more[|more| - 1])
  }

  /** Number of leading timers that are due. */
  function DueCount(timers: seq<Timer>, now: int): (k: nat)
    ensures k <= |timers|
  {
    InsertPosition(timers, now)
  }

  /** New timers for the repeating ones among `fired`; each rescheduling reads the clock. */
  function Rescheduled(fired: seq<Timer>, clock: nat -> int): seq<Timer> {
    if fired == [] then []
    else
      var before, t := Rescheduled(fired[..|fired| - 1], clock), fired[|fired| - 1];
      if t.interval == None then before
      else before + [t.(deadline := clock(|before|) + t.interval.value)]
  }

  function Events(timers: seq<Timer>): seq<nat> {
    seq(|timers|, i requires 0 <= i < |timers| => timers[i].event)
  }

  // ----- Laws -----

  /** The position splits the timers into those that are due by the deadline and one that is not. */
  lemma {:induction false} PositionSplits(timers: seq<Timer>, deadline: int)
    ensures forall i :: 0 <= i < InsertPosition(timers, deadline) ==> timers[i].deadline <= deadline
    ensures InsertPosition(timers, deadline) < |timers| ==> timers[InsertPosition(timers, deadline)].deadline > deadline
  {
    if timers != [] && timers[0].deadline <= deadline {
      PositionSplits(timers[1..], deadline);
    }
  }

  lemma SortedTail(timers: seq<Timer>)
    requires Sorted(timers) && timers != []
    ensures Sorted(timers[1..])
  {
  }

  /** Inserting keeps the deque sorted. */
  lemma InsertedSorted(timers: seq<Timer>, t: Timer)
    requires Sorted(timers)
    ensures Sorted(Inserted(timers, t))
  {
    PositionSplits(timers, t.deadline);
    var k := InsertPosition(timers, t.deadline);
    forall i | k <= i < |timers|
      ensures timers[i].deadline > t.deadline
    {
      assert k < i ==> timers[k].deadline <= timers[i].deadline;
    }
  }

  /** Inserting adds just the one timer. */
  lemma InsertedMultiset(timers: seq<Timer>, t: Timer)
    ensures multiset(Inserted(timers, t)) == multiset(timers) + multiset{t}
  {
    var k := InsertPosition(timers, t.deadline);
    assert timers == timers[..k] + timers[k..];
  }

  lemma {:induction false} InsertedAllSorted(timers: seq<Timer>, more: seq<Timer>)
    requires Sorted(timers)
    ensures Sorted(InsertedAll(timers, more))
    ensures multiset(InsertedAll(timers, more)) == multiset(timers) + multiset(more)
  {
    if more != [] {
      var front, last := more[..|more| - 1], more[|more| - 1];
      InsertedAllSorted(timers, front);
      InsertedSorted(InsertedAll(timers, front), last);
      InsertedMultiset(InsertedAll(timers, front), last);
      assert more == front + [last];
    }
  }

  predicate AllDueBy(timers: seq<Timer>, deadline: int) {
    forall i :: 0 <= i < |timers| ==> timers[i].deadline <= deadline
  }

  /** A timer that is due no earlier than `front` is inserted behind it. */
  lemma {:induction false} InsertBehind(front: seq<Timer>, back: seq<Timer>, t: Timer)
    requires AllDueBy(front, t.deadline)
    ensures Inserted(front + back, t) == front + Inserted(back, t)
  {
    PositionBehind(front, back, t.deadline);
    SpliceBehind(front, back, InsertPosition(back, t.deadline), t);
  }

  lemma SpliceBehind(front: seq<Timer>, back: seq<Timer>, k: nat, t: Timer)
    requires k <= |back|
    ensures (front + back)[..|front| + k] + [t] + (front + back)[|front| + k..] == front + (back[..k] + [t] + back[k..])
  {
    assert (front + back)[..|front| + k] == front + back[..k];
    assert (front + back)[|front| + k..] == back[k..];
  }

  lemma {:induction false} PositionBehind(front: seq<Timer>, back: seq<Timer>, deadline: int)
    requires AllDueBy(front, deadline)
    ensures InsertPosition(front + back, deadline) == |front| + InsertPosition(back, deadline)
  {
    if front == [] {
      assert front + back == back;
    } else {
      PositionBehind(front[1..], back, deadline);
      assert (front + back)[1..] == front[1..] + back;
      assert (front + back)[0] == front[0];
    }
  }

  /** In a sorted deque the due timers are exactly the leading ones. */
  lemma DueAreLeading(timers: seq<Timer>, now: int, i: nat)
    requires Sorted(timers) && i < |timers|
    ensures timers[i].deadline <= now <==> i < DueCount(timers, now)
  {
    var k := DueCount(timers, now);
    PositionSplits(timers, now);
    if k < i {
      assert timers[k].deadline <= timers[i].deadline;
    }
  }

  lemma {:induction false} RescheduledLater(fired: seq<Timer>, clock: nat -> int, now: int)
    requires NeverBefore(clock, now)
    requires forall t :: t in fired ==> t.interval != Some(0)
    ensures forall i :: 0 <= i < |Rescheduled(fired, clock)| ==> Rescheduled(fired, clock)[i].deadline > now
  {
    if fired != [] {
      RescheduledLater(fired[..|fired| - 1], clock, now);
    }
  }

  /** The repeating timers, in order. */
  function Repeating(timers: seq<Timer>): seq<Timer> {
    if timers == [] then []
    else
      Repeating(timers[..|timers| - 1])
      + if timers[|timers| - 1].interval == None then [] else [timers[|timers| - 1]]
  }

  /** Each repeating timer that fires comes back with the deadline that its interval and one reading of the clock
      give, and is otherwise the same. */
  lemma {:induction false} RescheduledEach(fired: seq<Timer>, clock: nat -> int)
    ensures |Rescheduled(fired, clock)| == |Repeating(fired)|
    ensures forall j :: 0 <= j < |Repeating(fired)| ==>
      var t := Repeating(fired)[j];
      t.interval.Some? && Rescheduled(fired, clock)[j] == Timer(clock(j) + t.interval.value, t.event, t.id, t.interval)
  {
    if fired != [] {
      RescheduledEach(fired[..|fired| - 1], clock);
    }
  }

  lemma RescheduledOneMore(fired: seq<Timer>, t: Timer, clock: nat -> int)
    ensures Rescheduled(fired + [t], clock)
         == if t.interval == None then Rescheduled(fired, clock)
            else Rescheduled(fired, clock) + [t.(deadline := clock(|Rescheduled(fired, clock)|) + t.interval.value)]
  {
    assert (fired + [t])[..|fired|] == fired;
  }

  /** What remains after an update is due later than `now`. */
  lemma RemainingLater(rest: seq<Timer>, more: seq<Timer>, now: int)
    requires Sorted(rest) && (rest != [] ==> rest[0].deadline > now)
    requires forall i :: 0 <= i < |more| ==> more[i].deadline > now
    ensures forall i :: 0 <= i < |InsertedAll(rest, more)| ==> InsertedAll(rest, more)[i].deadline > now
  {
    InsertedAllSorted(rest, more);
    var all := InsertedAll(rest, more);
    forall i | 0 <= i < |all|
      ensures all[i].deadline > now
    {
      assert all[i] in multiset(all);
      if all[i] in rest {
        var j :| 0 <= j < |rest| && rest[j] == all[i];
        assert j > 0 ==> rest[0].deadline <= rest[j].deadline;
      } else {
        assert all[i] in more;
      }
    }
  }

  // ----- The update loop -----

  /** A due timer that is due again as soon as it has been rescheduled. */
  predicate HasDueZero(timers: seq<Timer>, now: int) {
    exists t :: t in timers && t.deadline <= now && t.interval == Some(0)
  }

  /** A sorted deque in which no due timer repeats at once, and a clock that does not run backwards. */
  ghost predicate Lawful(all: seq<Timer>, now: int, clock: nat -> int) {
    Sorted(all) && NeverBefore(clock, now) && !HasDueZero(all, now)
  }

  /** The deque after the first `fired` due timers have fired. */
  ghost function Partway(all: seq<Timer>, now: int, fired: nat, clock: nat -> int): seq<Timer>
    requires fired <= DueCount(all, now)
  {
    all[fired..DueCount(all, now)] + InsertedAll(all[DueCount(all, now)..], Rescheduled(all[..fired], clock))
  }

  /** The timer that replaces a repeating one. */
  ghost function Replacement(all: seq<Timer>, fired: nat, clock: nat -> int): Timer
    requires fired < |all| && all[fired].interval.Some?
  {
    all[fired].(deadline := clock(|Rescheduled(all[..fired], clock)|) + all[fired].interval.value)
  }

  lemma InsertedAllOneMore(timers: seq<Timer>, more: seq<Timer>, t: Timer)
    ensures InsertedAll(timers, more + [t]) == Inserted(InsertedAll(timers, more), t)
  {
    assert (more + [t])[..|more|] == more;
  }

  /** The due timers that are left once `fired` more than one have fired, and what is behind them. */
  lemma PartwayFront(all: seq<Timer>, now: int, fired: nat, clock: nat -> int)
    requires fired < DueCount(all, now)
    ensures Partway(all, now, fired, clock)
         == [all[fired]] + (all[fired + 1..DueCount(all, now)]
                            + InsertedAll(all[DueCount(all, now)..], Rescheduled(all[..fired], clock)))
  {
    assert all[fired..DueCount(all, now)] == [all[fired]] + all[fired + 1..DueCount(all, now)];
  }

  /** The replacement is due no earlier than the timers that are due now. */
  lemma ReplacementBehind(all: seq<Timer>, now: int, fired: nat, clock: nat -> int)
    requires NeverBefore(clock, now) && fired < DueCount(all, now) && all[fired].interval.Some?
    ensures AllDueBy(all[fired + 1..DueCount(all, now)], Replacement(all, fired, clock).deadline)
  {
    PositionSplits(all, now);
  }

  lemma InsertBehindDue(due: seq<Timer>, rest: seq<Timer>, more: seq<Timer>, t: Timer)
    requires AllDueBy(due, t.deadline)
    ensures due + InsertedAll(rest, more + [t]) == Inserted(due + InsertedAll(rest, more), t)
  {
    InsertedAllOneMore(rest, more, t);
    InsertBehind(due, InsertedAll(rest, more), t);
  }

  /** Firing a timer adds its replacement behind all due timers. */
  lemma PartwayNext(all: seq<Timer>, now: int, fired: nat, clock: nat -> int)
    requires Lawful(all, now, clock) && fired < DueCount(all, now)
    ensures var left := all[fired + 1..DueCount(all, now)]
                        + InsertedAll(all[DueCount(all, now)..], Rescheduled(all[..fired], clock));
      Partway(all, now, fired + 1, clock)
      == if all[fired].interval == None then left else Inserted(left, Replacement(all, fired, clock))
  {
    var k, more := DueCount(all, now), Rescheduled(all[..fired], clock);
    assert all[..fired + 1] == all[..fired] + [all[fired]];
    RescheduledOneMore(all[..fired], all[fired], clock);
    if all[fired].interval.Some? {
      ReplacementBehind(all, now, fired, clock);
      InsertBehindDue(all[fired + 1..k], all[k..], more, Replacement(all, fired, clock));
    }
  }

  /** Firing one more timer takes it off the front and puts its replacement behind all due timers. */
  lemma FireOne(all: seq<Timer>, now: int, fired: nat, clock: nat -> int)
    requires Lawful(all, now, clock) && fired < DueCount(all, now)
    ensures Partway(all, now, fired, clock) != [] && Partway(all, now, fired, clock)[0] == all[fired]
    ensures Partway(all, now, fired + 1, clock)
         == if all[fired].interval == None then Partway(all, now, fired, clock)[1..]
            else Inserted(Partway(all, now, fired, clock)[1..], Replacement(all, fired, clock))
  {
    PartwayFront(all, now, fired, clock);
    PartwayNext(all, now, fired, clock);
  }

  /** Number of clock readings after one more timer has fired. */
  lemma CallsOneMore(all: seq<Timer>, fired: nat, clock: nat -> int)
    requires fired < |all|
    ensures |Rescheduled(all[..fired + 1], clock)|
         == |Rescheduled(all[..fired], clock)| + if all[fired].interval == None then 0 else 1
  {
    assert all[..fired + 1] == all[..fired] + [all[fired]];
    RescheduledOneMore(all[..fired], all[fired], clock);
  }

  lemma EventsOneMore(all: seq<Timer>, fired: nat)
    requires fired < |all|
    ensures Events(all[..fired + 1]) == Events(all[..fired]) + [all[fired].event]
  {
  }

  /** The deque after its front timer has fired at a given time. */
  function AfterFront(timers: seq<Timer>, time: int): seq<Timer>
    requires timers != []
  {
    var t := timers[0];
    if t.interval == None then timers[1..]
    else Inserted(timers[1..], Timer(time + t.interval.value, t.event, t.id, Some(t.interval.value)))
  }

  /** As long as not all due timers have fired, the front of the deque is due; afterwards nothing is. */
  lemma FrontDue(all: seq<Timer>, now: int, fired: nat, clock: nat -> int)
    requires Lawful(all, now, clock) && fired <= DueCount(all, now)
    ensures fired < DueCount(all, now) ==>
      Partway(all, now, fired, clock) != [] && Partway(all, now, fired, clock)[0].deadline <= now
    ensures fired == DueCount(all, now) ==>
      forall i :: 0 <= i < |Partway(all, now, fired, clock)| ==> Partway(all, now, fired, clock)[i].deadline > now
  {
    var k := DueCount(all, now);
    PositionSplits(all, now);
    if fired == k {
      forall t | t in all[..k]
        ensures t.interval != Some(0)
      {
        assert t in all && t.deadline <= now;
      }
      RescheduledLater(all[..k], clock, now);
      RemainingLater(all[k..], Rescheduled(all[..k], clock), now);
      assert all[k..k] == [];
    }
  }

  /** The update loop's state: the deque, and how often the clock has been read. */
  datatype Loop = Loop(timers: seq<Timer>, calls: nat)

  predicate FrontIsDue(timers: seq<Timer>, now: int) {
    timers != [] && timers[0].deadline <= now
  }

  /** The loop's state after going round `n` times, or as often as it does. */
  ghost function Turns(all: seq<Timer>, now: int, n: nat, clock: nat -> int): Loop {
    if n == 0 then Loop(all, 0)
    else
      var before := Turns(all, now, n - 1, clock);
      if FrontIsDue(before.timers, now) then
        Loop(AfterFront(before.timers, clock(before.calls)),
             before.calls + if before.timers[0].interval == None then 0 else 1)
      else before
  }

  /** One turn of the update loop: the front timer is the next one to fire, and firing it moves the deque on. */
  lemma TurnFires(all: seq<Timer>, now: int, fired: nat, clock: nat -> int, timers: seq<Timer>, calls: nat)
    requires Lawful(all, now, clock) && fired < DueCount(all, now)
    requires timers == Partway(all, now, fired, clock) && calls == |Rescheduled(all[..fired], clock)|
    ensures timers != [] && timers[0] == all[fired]
    ensures AfterFront(timers, clock(calls)) == Partway(all, now, fired + 1, clock)
  {
    FireOne(all, now, fired, clock);
  }

  /** The loop fires the due timers in order and puts their replacements behind them. */
  lemma {:induction false} TurnsArePartway(all: seq<Timer>, now: int, fired: nat, clock: nat -> int)
    requires Lawful(all, now, clock) && fired <= DueCount(all, now)
    ensures Turns(all, now, fired, clock)
         == Loop(Partway(all, now, fired, clock), |Rescheduled(all[..fired], clock)|)
  {
    if fired == 0 {
      assert all[..0] == [];
    } else {
      TurnsArePartway(all, now, fired - 1, clock);
      FrontDue(all, now, fired - 1, clock);
      TurnFires(all, now, fired - 1, clock, Partway(all, now, fired - 1, clock),
                |Rescheduled(all[..fired - 1], clock)|);
      CallsOneMore(all, fired - 1, clock);
    }
  }

  /** The loop goes on exactly while due timers are left, and the next one is at the front. */
  lemma LoopGuard(all: seq<Timer>, now: int, fired: nat, clock: nat -> int)
    requires Lawful(all, now, clock) && fired <= DueCount(all, now)
    ensures var timers := Turns(all, now, fired, clock).timers;
      && (FrontIsDue(timers, now) <==> fired < DueCount(all, now))
      && (fired < DueCount(all, now) ==> timers[0] == all[fired])
  {
    TurnsArePartway(all, now, fired, clock);
    FrontDue(all, now, fired, clock);
    if fired < DueCount(all, now) {
      FireOne(all, now, fired, clock);
    }
  }

  /** What the loop leaves when it ends. */
  lemma LoopEnd(all: seq<Timer>, now: int, clock: nat -> int)
    requires Lawful(all, now, clock)
    ensures var k := DueCount(all, now);
      var timers := Turns(all, now, k, clock).timers;
      && timers == InsertedAll(all[k..], Rescheduled(all[..k], clock))
      && forall i :: 0 <= i < |timers| ==> timers[i].deadline > now
  {
    var k := DueCount(all, now);
    TurnsArePartway(all, now, k, clock);
    FrontDue(all, now, k, clock);
    assert all[k..k] == [];
  }

  // ----- When an update ends -----

  /** After some number of turns no timer at the front is due. */
  ghost predicate Halts(all: seq<Timer>, now: int, clock: nat -> int) {
    exists n :: !FrontIsDue(Turns(all, now, n, clock).timers, now)
  }

  lemma InsertedHas(timers: seq<Timer>, t: Timer, x: Timer)
    ensures x in Inserted(timers, t) <==> x == t || x in timers
  {
    InsertedMultiset(timers, t);
    assert x in multiset(Inserted(timers, t)) <==> x in multiset(timers) + multiset{t};
  }

  lemma ZeroInFront(timers: seq<Timer>, now: int)
    requires Sorted(timers) && HasDueZero(timers, now)
    ensures FrontIsDue(timers, now)
  {
    var z :| z in timers && z.deadline <= now && z.interval == Some(0);
    var i :| 0 <= i < |timers| && timers[i] == z;
    assert i > 0 ==> timers[0].deadline <= timers[i].deadline;
  }

  lemma AfterFrontSorted(timers: seq<Timer>, time: int)
    requires Sorted(timers) && timers != []
    ensures Sorted(AfterFront(timers, time))
  {
    SortedTail(timers);
    var t := timers[0];
    if t.interval.Some? {
      InsertedSorted(timers[1..], Timer(time + t.interval.value, t.event, t.id, Some(t.interval.value)));
    }
  }

  /** While the clock stands still, firing the front leaves a due timer that repeats at once. */
  lemma ZeroKept(timers: seq<Timer>, now: int)
    requires timers != [] && HasDueZero(timers, now)
    ensures HasDueZero(AfterFront(timers, now), now)
  {
    var z :| z in timers && z.deadline <= now && z.interval == Some(0);
    assert timers == [timers[0]] + timers[1..];
    var t := timers[0];
    if t.interval == None {
      assert z in AfterFront(timers, now);
    } else {
      var again := Timer(now + t.interval.value, t.event, t.id, Some(t.interval.value));
      InsertedHas(timers[1..], again, again);
      InsertedHas(timers[1..], again, z);
      assert z in AfterFront(timers, now) || again.interval == Some(0);
    }
  }

  /** So the loop never ends. */
  lemma {:induction false} ZeroNeverEnds(all: seq<Timer>, now: int, n: nat, clock: nat -> int)
    requires Sorted(all) && HasDueZero(all, now) && forall k :: clock(k) == now
    ensures var timers := Turns(all, now, n, clock).timers;
      Sorted(timers) && HasDueZero(timers, now) && FrontIsDue(timers, now)
  {
    if n > 0 {
      ZeroNeverEnds(all, now, n - 1, clock);
      AfterFrontSorted(Turns(all, now, n - 1, clock).timers, now);
      ZeroKept(Turns(all, now, n - 1, clock).timers, now);
    }
    ZeroInFront(Turns(all, now, n, clock).timers, now);
  }

  /** Main result: an update ends on every clock that does not run backwards exactly if no due timer repeats with
      interval zero. */
  lemma UpdateEndsIff(all: seq<Timer>, now: int)
    requires Sorted(all)
    ensures (forall clock :: NeverBefore(clock, now) ==> Halts(all, now, clock)) <==> !HasDueZero(all, now)
  {
    if HasDueZero(all, now) {
      var still: nat -> int := _ => now;
      forall n: nat
        ensures FrontIsDue(Turns(all, now, n, still).timers, now)
      {
        ZeroNeverEnds(all, now, n, still);
      }
      assert NeverBefore(still, now) && !Halts(all, now, still);
    } else {
      forall clock | NeverBefore(clock, now)
        ensures Halts(all, now, clock)
      {
        LoopGuard(all, now, DueCount(all, now), clock);
      }
    }
  }

  // ----- The scheduler -----

  class Scheduler {
    var timers: seq<Timer>
    ghost var emitted: seq<nat>

    constructor ()
      ensures timers == [] && emitted == []
    {
      timers := [];
      emitted := [];
    }

    /** Schedule an event `interval` after the time `now`. */
    method Schedule(event: nat, interval: nat, repeat: bool, id: TimerId, now: int)
      requires Sorted(timers)
      modifies this`timers
      ensures Sorted(timers)
      ensures timers == Inserted(old(timers), Timer(now + interval, event, id, if repeat then Some(interval) else None))
    {
      var t := Timer(now + interval, event, id, if repeat then Some(interval) else None);
      var index := 0;
      while index < |timers| && timers[index].deadline <= t.deadline
        invariant 0 <= index <= |timers|
        invariant forall i :: 0 <= i < index ==> timers[i].deadline <= t.deadline
      {
        index := index + 1;
      }
      PositionIs(timers, t.deadline, index);
      InsertedSorted(timers, t);
      timers := timers[..index] + [t] + timers[index..];
    }

    /** Take the front timer off, reschedule it if it repeats and emit its event. */
    method FireFront(clock: nat -> int, calls: nat) returns (newCalls: nat)
      requires timers != [] && Sorted(timers)
      modifies this`timers, this`emitted
      ensures Sorted(timers) && emitted == old(emitted) + [old(timers)[0].event]
      ensures timers == AfterFront(old(timers), clock(calls))
      ensures newCalls == calls + if old(timers)[0].interval == None then 0 else 1
    {
      SortedTail(timers);
      var timer := timers[0];
      timers := timers[1..];
      newCalls := calls;
      if timer.interval.Some? {
        Schedule(timer.event, timer.interval.value, true, timer.id, clock(calls));
        newCalls := calls + 1;
      }
      emitted := emitted + [timer.event];
    }

    /** One turn of the update loop. */
    method FireDue(now: int, clock: nat -> int, calls: nat, ghost all: seq<Timer>, ghost fired: nat)
      returns (newCalls: nat)
      requires Sorted(timers) && Lawful(all, now, clock) && fired <= DueCount(all, now)
      requires Turns(all, now, fired, clock) == Loop(timers, calls) && FrontIsDue(timers, now)
      modifies this`timers, this`emitted
      ensures Sorted(timers) && fired < DueCount(all, now)
      ensures emitted == old(emitted) + [all[fired].event]
      ensures Turns(all, now, fired + 1, clock) == Loop(timers, newCalls)
    {
      LoopGuard(all, now, fired, clock);
      newCalls := FireFront(clock, calls);
    }

    /** Emit the events of all due timers, reschedule the repeating ones and give the next deadline. `now` is
        sampled once; every rescheduling samples the clock again. */
    method Update(now: int, clock: nat -> int) returns (next: Option<int>)
      requires Sorted(timers) && NeverBefore(clock, now) && !HasDueZero(timers, now)
      modifies this`timers, this`emitted
      ensures Sorted(timers)
      ensures var k := DueCount(old(timers), now);
        && emitted == old(emitted) + Events(old(timers)[..k])
        && timers == InsertedAll(old(timers)[k..], Rescheduled(old(timers)[..k], clock))
      ensures forall i :: 0 <= i < |timers| ==> timers[i].deadline > now
      ensures next == if timers == [] then None else Some(timers[0].deadline)
    {
      ghost var all, fired := timers, 0;
      var calls := 0;
      assert Events(all[..0]) == [];
      while timers != [] && timers[0].deadline <= now
        invariant 0 <= fired <= DueCount(all, now) && Sorted(timers)
        invariant Turns(all, now, fired, clock) == Loop(timers, calls)
        invariant emitted == old(emitted) + Events(all[..fired])
        decreases DueCount(all, now) - fired
      {
        calls := FireDue(now, clock, calls, all, fired);
        EventsOneMore(all, fired);
        fired := fired + 1;
      }
      LoopGuard(all, now, fired, clock);
      LoopEnd(all, now, clock);
      next := if timers == [] then None else Some(timers[0].deadline);
    }

    /** Remove the first timer with an id. */
    method Unschedule(id: TimerId) returns (removed: Option<Timer>)
      requires Sorted(timers)
      modifies this`timers
      ensures Sorted(timers)
      ensures removed == None ==> timers == old(timers) && forall t :: t in timers ==> t.id != id
      ensures removed.Some? ==> removed.value.id == id && exists k ::
        && 0 <= k < |old(timers)| && old(timers)[k] == removed.value
        && (forall i :: 0 <= i < k ==> old(timers)[i].id != id)
        && timers == old(timers)[..k] + old(timers)[k + 1..]
    {
      var index := 0;
      while index < |timers| && timers[index].id != id
        invariant 0 <= index <= |timers| && forall i :: 0 <= i < index ==> timers[i].id != id
      {
        index := index + 1;
      }
      if index == |timers| {
        return None;
      }
      removed := Some(timers[index]);
      timers := timers[..index] + timers[index + 1..];
    }
  }

  lemma {:induction false} PositionIs(timers: seq<Timer>, deadline: int, k: nat)
    requires k <= |timers| && forall i :: 0 <= i < k ==> timers[i].deadline <= deadline
    requires k < |timers| ==> timers[k].deadline > deadline
    ensures InsertPosition(timers, deadline) == k
  {
    if k > 0 {
      PositionIs(timers[1..], deadline, k - 1);
    }
  }
}
