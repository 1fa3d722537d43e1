/** The two-lock protocol of the fair mutex: `next` is a ticket that must be held while taking `data`. */
module FairMutex {
  import opened Common

  type ThreadId = nat

  /** Where a thread is in `lock`, or in a lease with its unfair locks. */
  datatype Place =
    | Idle
    | LockWantsNext      // in `lock`, blocked on `next`
    | LockWantsData      // in `lock`, holds `next`, blocked on `data`
    | LockHasBoth        // in `lock`, `next` is dropped when the call returns
    | Holds              // after `lock`, holds the guard of `data`
    | LeaseWantsNext     // in `lease`, blocked on `next`
    | Leased             // holds the lease, not `data`
    | LeasedWantsData    // holds the lease, blocked in `lock_unfair`
    | LeasedHolds        // holds the lease and the guard of `data`
    | LeaseEnding        // holds the lease, the guard of `data` is dropped

  /** Owners of the two locks and the place of each thread. */
  datatype State = State(data: Option<ThreadId>, next: Option<ThreadId>, place: seq<Place>)

  datatype Action =
    | CallLock
    | CallLease
    | TakeNext
    | TakeData
    | ReturnFromLock
    | DropData
    | CallLockUnfair
    | TryLockFails
    | DropLease

  // ----- The steps -----

  predicate HasNext(p: Place) {
    p in {LockWantsData, LockHasBoth, Leased, LeasedWantsData, LeasedHolds, LeaseEnding}
  }

  predicate HasData(p: Place) {
    p in {LockHasBoth, Holds, LeasedHolds}
  }

  predicate WaitsForData(p: Place) {
    p in {LockWantsData, LeasedWantsData}
  }

  function Initial(threads: nat): State {
    State(None, None, seq(threads, _ => Idle))
  }

  predicate Enabled(s: State, t: ThreadId, a: Action) {
    t < |s.place| &&
    match a
    case CallLock => s.place[t] == Idle
    case CallLease => s.place[t] == Idle
    case TakeNext => s.place[t] in {LockWantsNext, LeaseWantsNext} && s.next == None
    // From `Leased` this is a `try_lock_unfair` that succeeds.
    case TakeData => s.place[t] in {LockWantsData, LeasedWantsData, Leased} && s.data == None
    case ReturnFromLock => s.place[t] == LockHasBoth
    case DropData => s.place[t] in {Holds, LeasedHolds}
    case CallLockUnfair => s.place[t] == Leased
    case TryLockFails => s.place[t] == Leased && s.data != None
    case DropLease => s.place[t] in {Leased, LeaseEnding}
  }

  /** Where the acting thread goes. */
  function Moved(p: Place, a: Action): Place {
    match a
    case CallLock => LockWantsNext
    case CallLease => LeaseWantsNext
    case TakeNext => if p == LockWantsNext then LockWantsData else Leased
    case TakeData => if p == LockWantsData then LockHasBoth else LeasedHolds
    case ReturnFromLock => Holds
    case DropData => if p == Holds then Idle else LeaseEnding
    case CallLockUnfair => LeasedWantsData
    case TryLockFails => p
    case DropLease => Idle
  }

  function Step(s: State, t: ThreadId, a: Action): State
    requires Enabled(s, t, a)
  {
    State(
      if a == TakeData then Some(t) else if a == DropData then None else s.data,
      if a == TakeNext then Some(t) else if a in {ReturnFromLock, DropLease} then None else s.next,
      s.place[t := Moved(s.place[t], a)])
  }

  // ----- Every reachable state -----

  /** Each lock is held by exactly the threads whose place says so. */
  predicate Consistent(s: State) {
    && (forall t :: 0 <= t < |s.place| ==> (HasNext(s.place[t]) <==> s.next == Some(t)))
    && (forall t :: 0 <= t < |s.place| ==> (HasData(s.place[t]) <==> s.data == Some(t)))
    && (s.next.Some? ==> s.next.value < |s.place|)
    && (s.data.Some? ==> s.data.value < |s.place|)
  }

  lemma StepConsistent(s: State, t: ThreadId, a: Action)
    requires Consistent(s) && Enabled(s, t, a)
    ensures Consistent(Step(s, t, a))
  {
  }

  /** One scheduling choice. */
  datatype Choice = Choice(thread: ThreadId, action: Action)

  /** The state after a run, or None if some choice is not enabled when it is made. */
  function Outcome(s: State, steps: seq<Choice>): Option<State>
    decreases |steps|
  {
    if steps == [] then Some(s)
    else if Enabled(s, steps[0].thread, steps[0].action) then
      Outcome(Step(s, steps[0].thread, steps[0].action), steps[1..])
    else None
  }

  predicate Runs(s: State, steps: seq<Choice>) {
    Outcome(s, steps).Some?
  }

  function After(s: State, steps: seq<Choice>): State
    requires Runs(s, steps)
  {
    Outcome(s, steps).value
  }

  lemma {:induction false} RunConsistent(s: State, steps: seq<Choice>)
    requires Consistent(s) && Runs(s, steps)
    ensures Consistent(After(s, steps)) && |After(s, steps).place| == |s.place|
    decreases |steps|
  {
    if steps != [] {
      StepConsistent(s, steps[0].thread, steps[0].action);
      RunConsistent(Step(s, steps[0].thread, steps[0].action), steps[1..]);
    }
  }

  lemma ReachableConsistent(threads: nat, steps: seq<Choice>)
    requires Runs(Initial(threads), steps)
    ensures Consistent(After(Initial(threads), steps)) && |After(Initial(threads), steps).place| == threads
  {
    RunConsistent(Initial(threads), steps);
  }

  /** In every reachable state at most one thread holds `data`, and at most one holds the ticket. */
  lemma MutualExclusion(threads: nat, steps: seq<Choice>, t: ThreadId, u: ThreadId)
    requires Runs(Initial(threads), steps) && t < threads && u < threads
    ensures var s := After(Initial(threads), steps);
      && |s.place| == threads
      && (HasData(s.place[t]) && HasData(s.place[u]) ==> t == u)
      && (HasNext(s.place[t]) && HasNext(s.place[u]) ==> t == u)
  {
    ReachableConsistent(threads, steps);
  }

  // ----- What the calls go through -----

  /** A run of one thread: a choice that is enabled leads to a state, and the rest goes on from there. */
  lemma OneStep(s: State, t: ThreadId, a: Action, rest: seq<Choice>, s1: State)
    requires Enabled(s, t, a) && Step(s, t, a) == s1
    ensures Outcome(s, [Choice(t, a)] + rest) == Outcome(s1, rest)
  {
    assert ([Choice(t, a)] + rest)[1..] == rest;
  }

  /** The steps of a call of `lock` that finds both locks free. */
  function LockSteps(t: ThreadId): seq<Choice> {
    [Choice(t, CallLock)] + ([Choice(t, TakeNext)] + ([Choice(t, TakeData)] + ([Choice(t, ReturnFromLock)] + [])))
  }

  /** `lock` takes the ticket, then the data, and gives the ticket back when it returns. */
  lemma LockRun(s: State, t: ThreadId)
    requires s.data == None && s.next == None && t < |s.place| && s.place[t] == Idle
    ensures Outcome(s, LockSteps(t)) == Some(State(Some(t), None, s.place[t := Holds]))
  {
    var r1: seq<Choice> := [Choice(t, ReturnFromLock)] + [];
    var r2 := [Choice(t, TakeData)] + r1;
    var r3 := [Choice(t, TakeNext)] + r2;
    OneStep(s, t, CallLock, r3, State(None, None, s.place[t := LockWantsNext]));
    OneStep(State(None, None, s.place[t := LockWantsNext]), t, TakeNext, r2,
            State(None, Some(t), s.place[t := LockWantsData]));
    OneStep(State(None, Some(t), s.place[t := LockWantsData]), t, TakeData, r1,
            State(Some(t), Some(t), s.place[t := LockHasBoth]));
    OneStep(State(Some(t), Some(t), s.place[t := LockHasBoth]), t, ReturnFromLock, [],
            State(Some(t), None, s.place[t := Holds]));
  }

  /** While the data is held so, another thread can take the ticket, must wait for the data and gets it as soon as it
      is dropped. */
  lemma LockHandsOver(s: State, t: ThreadId, u: ThreadId)
    requires s.data == Some(t) && s.next == None && t < |s.place| && u < |s.place| && t != u
    requires s.place[t] == Holds && s.place[u] == Idle
    ensures var waiting := State(Some(t), Some(u), s.place[u := LockWantsData]);
      && Outcome(s, [Choice(u, CallLock)] + ([Choice(u, TakeNext)] + [])) == Some(waiting)
      && !Enabled(waiting, u, TakeData)
      && Outcome(waiting, [Choice(t, DropData)] + ([Choice(u, TakeData)] + ([Choice(u, ReturnFromLock)] + [])))
         == Some(State(Some(u), None, s.place[t := Idle][u := Holds]))
  {
    var waiting := State(Some(t), Some(u), s.place[u := LockWantsData]);
    var r1: seq<Choice> := [Choice(u, TakeNext)] + [];
    OneStep(s, u, CallLock, r1, State(Some(t), None, s.place[u := LockWantsNext]));
    OneStep(State(Some(t), None, s.place[u := LockWantsNext]), u, TakeNext, [], waiting);
    var r2: seq<Choice> := [Choice(u, ReturnFromLock)] + [];
    var r3 := [Choice(u, TakeData)] + r2;
    var dropped := State(None, Some(u), s.place[u := LockWantsData][t := Idle]);
    OneStep(waiting, t, DropData, r3, dropped);
    OneStep(dropped, u, TakeData, r2, State(Some(u), Some(u), s.place[t := Idle][u := LockHasBoth]));
    OneStep(State(Some(u), Some(u), s.place[t := Idle][u := LockHasBoth]), u, ReturnFromLock, [],
            State(Some(u), None, s.place[t := Idle][u := Holds]));
  }

  /** A lease takes the ticket and keeps it, also while the data is held under it, taken by a try or by waiting:
      meanwhile no other thread gets the ticket. */
  lemma LeaseRun(s: State, t: ThreadId, u: ThreadId, waits: bool)
    requires s.data == None && s.next == None && t < |s.place| && u < |s.place| && t != u
    requires s.place[t] == Idle && s.place[u] == LockWantsNext
    ensures var leased, held :=
        State(None, Some(t), s.place[t := Leased]), State(Some(t), Some(t), s.place[t := LeasedHolds]);
      && Outcome(s, [Choice(t, CallLease)] + ([Choice(t, TakeNext)] + [])) == Some(leased)
      && Outcome(leased, (if waits then [Choice(t, CallLockUnfair)] else []) + ([Choice(t, TakeData)] + []))
         == Some(held)
      && !Enabled(leased, u, TakeNext) && !Enabled(held, u, TakeNext)
      && Outcome(held, [Choice(t, DropData)] + ([Choice(t, DropLease)] + [])) == Some(s)
  {
    var leased, held :=
      State(None, Some(t), s.place[t := Leased]), State(Some(t), Some(t), s.place[t := LeasedHolds]);
    var r1: seq<Choice> := [Choice(t, TakeNext)] + [];
    OneStep(s, t, CallLease, r1, State(None, None, s.place[t := LeaseWantsNext]));
    OneStep(State(None, None, s.place[t := LeaseWantsNext]), t, TakeNext, [], leased);
    var r2: seq<Choice> := [Choice(t, TakeData)] + [];
    if waits {
      OneStep(leased, t, CallLockUnfair, r2, State(None, Some(t), s.place[t := LeasedWantsData]));
      OneStep(State(None, Some(t), s.place[t := LeasedWantsData]), t, TakeData, [], held);
    } else {
      OneStep(leased, t, TakeData, [], held);
      assert [] + r2 == r2;
    }
    var r3: seq<Choice> := [Choice(t, DropLease)] + [];
    var ending := State(None, Some(t), s.place[t := LeaseEnding]);
    OneStep(held, t, DropData, r3, ending);
    assert s.place[t := LeaseEnding][t := Idle] == s.place;
    OneStep(ending, t, DropLease, [], s);
  }

  /** A try under a lease fails exactly if the data is held, and changes nothing. */
  lemma TryFailsIffHeld(s: State, t: ThreadId)
    requires t < |s.place| && s.place[t] == Leased
    ensures Enabled(s, t, TryLockFails) <==> s.data.Some?
    ensures Enabled(s, t, TakeData) <==> s.data == None
    ensures s.data.Some? ==> Step(s, t, TryLockFails) == s
  {
  }

  // ----- Fairness -----

  /** Once a thread holds the ticket and waits for `data`, only that thread can take `data`. */
  lemma WaiterIsNext(s: State, t: ThreadId, u: ThreadId, a: Action)
    requires Consistent(s) && t < |s.place| && WaitsForData(s.place[t]) && Enabled(s, u, a)
    ensures a == TakeData <==> u == t
    ensures u != t ==> Step(s, u, a).place[t] == s.place[t]
  {
  }

  /** From a state in which `t` waits, nobody takes `data` before `t` does. */
  lemma {:induction false} NotOvertakenFrom(s: State, steps: seq<Choice>, t: ThreadId, j: nat)
    requires Consistent(s) && t < |s.place| && WaitsForData(s.place[t])
    requires Runs(s, steps) && j < |steps|
    requires forall k :: 0 <= k < j ==> steps[k] != Choice(t, TakeData)
    ensures steps[j].action == TakeData <==> steps[j].thread == t
    decreases |steps|
  {
    var u, a := steps[0].thread, steps[0].action;
    WaiterIsNext(s, t, u, a);
    if j > 0 {
      assert steps[0] != Choice(t, TakeData);
      StepConsistent(s, u, a);
      NotOvertakenFrom(Step(s, u, a), steps[1..], t, j - 1);
    }
  }

  /** Main result: in no run of any number of threads does a thread take `data` between the moment another
      holds the ticket and waits for `data` and the moment that one takes it. */
  lemma NoOvertaking(threads: nat, before: seq<Choice>, steps: seq<Choice>, t: ThreadId, j: nat)
    requires Runs(Initial(threads), before)
    requires var s := After(Initial(threads), before);
      t < |s.place| && WaitsForData(s.place[t]) && Runs(s, steps)
    requires j < |steps| && forall k :: 0 <= k < j ==> steps[k] != Choice(t, TakeData)
    ensures steps[j].action == TakeData <==> steps[j].thread == t
  {
    ReachableConsistent(threads, before);
    NotOvertakenFrom(After(Initial(threads), before), steps, t, j);
  }

  /** While a thread holds the ticket, in `lock` or as a lease, no other thread takes `data`. */
  lemma TicketExcludes(s: State, t: ThreadId, u: ThreadId, a: Action)
    requires Consistent(s) && t < |s.place| && HasNext(s.place[t]) && Enabled(s, u, a)
    ensures a == TakeData ==> u == t
    ensures HasNext(Step(s, u, a).place[t]) <==> u != t || a !in {ReturnFromLock, DropLease}
  {
  }

  lemma {:induction false} ExcludedFrom(s: State, steps: seq<Choice>, t: ThreadId, j: nat)
    requires Consistent(s) && t < |s.place| && HasNext(s.place[t]) && Runs(s, steps) && j < |steps|
    requires forall k :: 0 <= k < j ==> steps[k] !in {Choice(t, ReturnFromLock), Choice(t, DropLease)}
    ensures steps[j].action == TakeData ==> steps[j].thread == t
    decreases |steps|
  {
    var u, a := steps[0].thread, steps[0].action;
    TicketExcludes(s, t, u, a);
    if j > 0 {
      assert steps[0] !in {Choice(t, ReturnFromLock), Choice(t, DropLease)};
      StepConsistent(s, u, a);
      ExcludedFrom(Step(s, u, a), steps[1..], t, j - 1);
    }
  }

  /** Main result: in every run of any number of threads, from the moment a thread takes the ticket, be it to wait
      for `data` or to try for it again and again, until that thread gives the ticket back, no other takes `data`. */
  lemma LeaseKeepsOthersOut(threads: nat, before: seq<Choice>, steps: seq<Choice>, t: ThreadId, j: nat)
    requires Runs(Initial(threads), before)
    requires var s := After(Initial(threads), before);
      t < |s.place| && HasNext(s.place[t]) && Runs(s, steps)
    requires j < |steps|
    requires forall k :: 0 <= k < j ==> steps[k] !in {Choice(t, ReturnFromLock), Choice(t, DropLease)}
    ensures steps[j].action == TakeData ==> steps[j].thread == t
  {
    ReachableConsistent(threads, before);
    ExcludedFrom(After(Initial(threads), before), steps, t, j);
  }

  // ----- No deadlock -----

  /** Steps that bring a call nearer to its end; a failed `try_lock_unfair` only goes round a loop. */
  predicate Progress(a: Action) {
    a !in {CallLock, CallLease, TryLockFails}
  }

  /** Number of steps that a thread needs at most to become idle. */
  function StepsLeft(p: Place): nat {
    match p
    case Idle => 0
    case Holds => 1
    case LockHasBoth => 2
    case LockWantsData => 3
    case LockWantsNext => 4
    case LeaseEnding => 1
    case LeasedHolds => 2
    case LeasedWantsData => 3
    case Leased => 4
    case LeaseWantsNext => 5
  }

  function TotalLeft(places: seq<Place>): nat {
    if places == [] then 0 else StepsLeft(places[0]) + TotalLeft(places[1..])
  }

  lemma {:induction false} TotalLeftUpdate(places: seq<Place>, t: nat, p: Place)
    requires t < |places|
    ensures TotalLeft(places[t := p]) == TotalLeft(places) - StepsLeft(places[t]) + StepsLeft(p)
  {
    if t == 0 {
      assert places[0 := p][1..] == places[1..];
    } else {
      assert places[t := p][1..] == places[1..][t - 1 := p];
      TotalLeftUpdate(places[1..], t - 1, p);
    }
  }

  predicate AllIdle(s: State) {
    s.data == None && s.next == None && forall t :: 0 <= t < |s.place| ==> s.place[t] == Idle
  }

  /** A step that finishes work: no lease is given up before `data` has been held under it. */
  predicate Works(s: State, t: ThreadId, a: Action) {
    Enabled(s, t, a) && Progress(a) && (a == DropLease ==> s.place[t] == LeaseEnding)
  }

  /** In every consistent state with an unfinished call some thread can go on with its work. */
  lemma NoDeadlock(s: State) returns (t: ThreadId, a: Action)
    requires Consistent(s) && !AllIdle(s)
    ensures Works(s, t, a)
  {
    if s.next.Some? {
      t := s.next.value;
      var p := s.place[t];
      if p == LockHasBoth {
        a := ReturnFromLock;
      } else if p == LeasedHolds {
        a := DropData;
      } else if p == LeaseEnding {
        a := DropLease;
      } else if p == Leased {
        a := CallLockUnfair;
      } else if s.data == None {
        a := TakeData;
      } else {
        t, a := s.data.value, DropData;
        assert s.place[t] == Holds;
      }
    } else if s.data.Some? {
      t, a := s.data.value, DropData;
      assert s.place[t] == Holds;
    } else {
      t :| 0 <= t < |s.place| && s.place[t] != Idle;
      a := TakeNext;
    }
  }

  lemma ProgressDecreases(s: State, t: ThreadId, a: Action)
    requires Enabled(s, t, a) && Progress(a)
    ensures TotalLeft(Step(s, t, a).place) < TotalLeft(s.place)
  {
    TotalLeftUpdate(s.place, t, Moved(s.place[t], a));
  }

  /** A run of progress steps is no longer than the work that it uses up. */
  lemma {:induction false} ProgressRunBounded(s: State, steps: seq<Choice>)
    requires Runs(s, steps) && forall k :: 0 <= k < |steps| ==> Progress(steps[k].action)
    ensures |steps| + TotalLeft(After(s, steps).place) <= TotalLeft(s.place)
    decreases |steps|
  {
    if steps != [] {
      ProgressDecreases(s, steps[0].thread, steps[0].action);
      ProgressRunBounded(Step(s, steps[0].thread, steps[0].action), steps[1..]);
    }
  }

  /** Main result: from every reachable state all calls can be brought to their end with the data held under every
      lease, and a run of progress steps that cannot go on has brought them there. */
  lemma EveryCallEnds(threads: nat, before: seq<Choice>, steps: seq<Choice>)
    requires Runs(Initial(threads), before)
    requires var s := After(Initial(threads), before);
      Runs(s, steps) && forall k :: 0 <= k < |steps| ==> Progress(steps[k].action)
    ensures var s := After(Initial(threads), before);
      && |steps| <= TotalLeft(s.place)
      && (AllIdle(After(s, steps)) || exists t, a :: Works(After(s, steps), t, a))
  {
    ReachableConsistent(threads, before);
    var s := After(Initial(threads), before);
    ProgressRunBounded(s, steps);
    RunConsistent(s, steps);
    if !AllIdle(After(s, steps)) {
      var t, a := NoDeadlock(After(s, steps));
    }
  }
}
