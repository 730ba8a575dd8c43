/** The scheduler over the array of slots (src/handle.c, src/pixel.c): the same steps as in
    Scheduler.dfy, but a service is looked up with the slot test, and a new one takes the first
    handle whose slot is empty, in a table that grows. Every run is one of the scheduler over the table, so that what was
    proved there holds for slots that are used again and again.
 */
module SlotScheduler {
  import opened Basics
  import opened Scheduler
  import opened SchedulerRuns
  import opened HandleTable

  /** `base` is everything but the table, which the slots hold; its own table is not used. */
  datatype SlotState = SlotState(base: State, slots: seq<Slot>)

  ghost function Abs(ss: SlotState): State
    requires WellPlaced(ss.slots)
  {
    ss.base.(table := TableOf(ss.slots))
  }

  function AddRef(slots: seq<Slot>, h: Handle, d: int): seq<Slot>
    requires |slots| > 0
  {
    Put(slots, h, At(slots, h).(ref := At(slots, h).ref + d))
  }

  /** A launch that would make the table grow and lose a service is not a step here. */
  predicate MayGrow(slots: seq<Slot>) { HasRoom(slots) || !Loses(slots) }

  function SlotStep(ss: SlotState, t: nat, a: Action): (r: SlotState)
    requires t < |ss.base.threads| && |ss.slots| > 0
    ensures |r.slots| > 0 && |r.base.threads| == |ss.base.threads|
  {
    var s, slots := ss.base, ss.slots;
    var pc := s.threads[t];
    match a
    case Grab =>
      if !(pc.Ready? && pc.q.Some?) then ss
      else if Found(slots, pc.q.value) then SlotState(Goto(s, t, Grabbed(pc.q.value)), AddRef(slots, pc.q.value, 1))
      else SlotState(Goto(s, t, FreeQueue(pc.q.value, true)), slots)
    case Send(h, m) =>
      if pc.Idle? && h != 0 && Found(slots, h) then SlotState(Goto(s, t, Sending(h, m)), AddRef(slots, h, 1)) else ss
    case Peek(h) =>
      if pc.Idle? && h != 0 && Found(slots, h) then SlotState(Goto(s, t, Releasing(h, ToIdle)), AddRef(slots, h, 1)) else ss
    case Launch(_) =>
      if !pc.Idle? || !MayGrow(slots) || s.issued == 0 then ss
      else
        var roomy := Roomy(slots);
        var h := Given(roomy, s.issued - 1);
        SlotState(Step(s, t, Launch(h)), Put(roomy, h, Slot(h, 2)))
    case ReleaseRef =>
      if !(pc.Releasing? && Found(slots, pc.h)) then ss
      else
        var left := AddRef(slots, pc.h, -1);
        SlotState(if At(left, pc.h).ref > 0 then Continue(s, t, pc.h, pc.k, true) else Goto(s, t, Removing(pc.h, pc.k)), left)
    case Remove =>
      if !pc.Removing? then ss
      else if Found(slots, pc.h) && At(slots, pc.h).ref <= 0 then
        SlotState(Goto(s, t, Freeing(pc.h, pc.k)), Put(slots, pc.h, At(slots, pc.h).(handle := 0)))
      else SlotState(Continue(s, t, pc.h, pc.k, false), slots)
    case _ => StepThreads(s, t, a); SlotState(Step(s, t, a), slots)
  }

  // ---------------------------------------------------------------- no handle is 0

  predicate PcOk(pc: Pc) {
    match pc
    case Idle => true
    case Ready(q) => q != Some(0)
    case Swap(h, next) => h != 0 && next != 0
    case Releasing(h, k) => h != 0 && k != ToReady(Some(0))
    case Removing(h, k) => h != 0 && k != ToReady(Some(0))
    case Freeing(h, k) => h != 0 && k != ToReady(Some(0))
    case _ => pc.h != 0
  }

  predicate NoZero(s: State) {
    && (forall t :: 0 <= t < |s.threads| ==> PcOk(s.threads[t]))
    && 0 !in s.list && 0 !in s.tokens && 0 !in s.table && s.issued > 0
  }

  lemma StepNoZero(s: State, t: nat, a: Action)
    requires t < |s.threads| && NoZero(s)
    ensures NoZero(Step(s, t, a))
  {
    hide Step, NoZero;
    if a.ReleaseRef? || a.Remove? || a.MarkFree? { ReleaseNoZero(s, t, a); } else { OtherNoZero(s, t, a); }
  }

  lemma ReleaseNoZero(s: State, t: nat, a: Action)
    requires t < |s.threads| && NoZero(s) && (a.ReleaseRef? || a.Remove? || a.MarkFree?)
    ensures NoZero(Step(s, t, a))
  {
    assert PcOk(s.threads[t]);
  }

  lemma OtherNoZero(s: State, t: nat, a: Action)
    requires t < |s.threads| && NoZero(s) && !a.ReleaseRef? && !a.Remove? && !a.MarkFree?
    ensures NoZero(Step(s, t, a))
  {
    assert PcOk(s.threads[t]);
    assert s.list != [] ==> s.list[0] != 0 && 0 !in s.list[1..];
  }

  // ------------------------------------------------------------------- refinement

  /** The step over the table that a step over the slots is. A launch that would lose
      a service is none (as is Finish, for a thread at rest). */
  function Real(ss: SlotState, t: nat, a: Action): Action
    requires t < |ss.base.threads| && |ss.slots| > 0
  {
    if a.Launch? && ss.base.threads[t].Idle? && ss.base.issued > 0 then
      if MayGrow(ss.slots) then Launch(Given(Roomy(ss.slots), ss.base.issued - 1)) else Finish
    else a
  }

  lemma OtherSteps(s: State, t: nat, a: Action, table: map<Handle, int>)
    requires t < |s.threads| && !a.Grab? && !a.Send? && !a.Peek? && !a.Launch? && !a.ReleaseRef? && !a.Remove?
    ensures Step(s.(table := table), t, a) == Step(s, t, a).(table := table)
  {
    hide Step;
    if a.MarkFree? { MarkFreeStep(s, t, table); } else { QuietStep(s, t, a, table); }
  }

  lemma MarkFreeStep(s: State, t: nat, table: map<Handle, int>)
    requires t < |s.threads|
    ensures Step(s.(table := table), t, MarkFree) == Step(s, t, MarkFree).(table := table)
  {
  }

  lemma QuietStep(s: State, t: nat, a: Action, table: map<Handle, int>)
    requires t < |s.threads| && !a.Grab? && !a.Send? && !a.Peek? && !a.Launch? && !a.ReleaseRef? && !a.Remove? && !a.MarkFree?
    ensures Step(s.(table := table), t, a) == Step(s, t, a).(table := table)
  {
    hide Continue;
  }

  lemma LaunchRefines(ss: SlotState, t: nat)
    requires t < |ss.base.threads| && WellPlaced(ss.slots) && ss.base.threads[t].Idle? && MayGrow(ss.slots) && ss.base.issued > 0
    ensures var roomy := Roomy(ss.slots);
            var h := Given(roomy, ss.base.issued - 1);
            && WellPlaced(Put(roomy, h, Slot(h, 2)))
            && Abs(SlotState(Step(ss.base, t, Launch(h)), Put(roomy, h, Slot(h, 2)))) == Step(Abs(ss), t, Launch(h))
  {
    hide TableOf, Put, Roomy, Loses;
    var roomy := Roomy(ss.slots);
    var h := Given(roomy, ss.base.issued - 1);
    RoomyTable(ss.slots);
    NextFreeFinds(roomy, ss.base.issued);
    PutTable(roomy, h, Slot(h, 2));
  }

  lemma SlotStepRefines(ss: SlotState, t: nat, a: Action)
    requires t < |ss.base.threads| && WellPlaced(ss.slots) && NoZero(Abs(ss))
    ensures WellPlaced(SlotStep(ss, t, a).slots)
    ensures Abs(SlotStep(ss, t, a)) == Step(Abs(ss), t, Real(ss, t, a))
  {
    assert PcOk(Abs(ss).threads[t]);
    if a.Grab? || a.Send? || a.Peek? {
      LookupRefines(ss, t, a);
    } else if a.ReleaseRef? || a.Remove? {
      ReleaseRefines(ss, t, a);
    } else {
      hide TableOf, Put, MayGrow, Roomy, Given, Step, SlotStep;
      if a.Launch? { LaunchStepRefines(ss, t, a); } else { SlotsStay(ss, t, a); }
    }
  }

  lemma SlotsStay(ss: SlotState, t: nat, a: Action)
    requires t < |ss.base.threads| && WellPlaced(ss.slots)
    requires !a.Grab? && !a.Send? && !a.Peek? && !a.Launch? && !a.ReleaseRef? && !a.Remove?
    ensures WellPlaced(SlotStep(ss, t, a).slots)
    ensures Abs(SlotStep(ss, t, a)) == Step(Abs(ss), t, a)
  {
    hide TableOf, Step;
    OtherSteps(ss.base, t, a, TableOf(ss.slots));
  }

  lemma LaunchStepRefines(ss: SlotState, t: nat, a: Action)
    requires t < |ss.base.threads| && WellPlaced(ss.slots) && a.Launch? && ss.base.issued > 0
    ensures WellPlaced(SlotStep(ss, t, a).slots)
    ensures Abs(SlotStep(ss, t, a)) == Step(Abs(ss), t, Real(ss, t, a))
  {
    hide TableOf, Put, MayGrow, Roomy, Given;
    if ss.base.threads[t].Idle? && MayGrow(ss.slots) { LaunchRefines(ss, t); }
  }

  lemma LookupRefines(ss: SlotState, t: nat, a: Action)
    requires t < |ss.base.threads| && WellPlaced(ss.slots) && PcOk(ss.base.threads[t]) && (a.Grab? || a.Send? || a.Peek?)
    ensures WellPlaced(SlotStep(ss, t, a).slots)
    ensures Abs(SlotStep(ss, t, a)) == Step(Abs(ss), t, a)
  {
    hide TableOf, Put, MayGrow, Roomy, Given;
    var pc := ss.base.threads[t];
    var h := if a.Send? then a.to else if a.Peek? then a.of else if pc.Ready? && pc.q.Some? then pc.q.value else 1;
    if h != 0 { LookUp(ss.slots, h, 1); } else { SlotTest(ss.slots, 0); }
  }

  lemma ReleaseRefines(ss: SlotState, t: nat, a: Action)
    requires t < |ss.base.threads| && WellPlaced(ss.slots) && PcOk(ss.base.threads[t]) && (a.ReleaseRef? || a.Remove?)
    ensures WellPlaced(SlotStep(ss, t, a).slots)
    ensures Abs(SlotStep(ss, t, a)) == Step(Abs(ss), t, a)
  {
    hide TableOf, Put, MayGrow, Roomy, Given;
    var pc := ss.base.threads[t];
    if pc.Releasing? || pc.Removing? { LookUp(ss.slots, pc.h, -1); }
  }

  lemma LookUp(slots: seq<Slot>, h: Handle, d: int)
    requires WellPlaced(slots) && h != 0
    ensures Found(slots, h) <==> h in TableOf(slots)
    ensures Found(slots, h) ==> TableOf(slots)[h] == At(slots, h).ref
    ensures Found(slots, h) ==>
      && WellPlaced(AddRef(slots, h, d)) && TableOf(AddRef(slots, h, d)) == TableOf(slots)[h := TableOf(slots)[h] + d]
      && At(AddRef(slots, h, d), h).ref == TableOf(slots)[h] + d
    ensures Found(slots, h) ==>
      var gone := Put(slots, h, At(slots, h).(handle := 0));
      WellPlaced(gone) && TableOf(gone) == TableOf(slots) - {h}
  {
    SlotTest(slots, h);
    if Found(slots, h) {
      var x := At(slots, h);
      PutTable(slots, h, x.(ref := x.ref + d));
      PutTable(slots, h, x.(handle := 0));
      Elsewhere(slots, h, h, x.(ref := x.ref + d));
    }
  }

  // --------------------------------------------------------------------- all runs

  function SlotStart(threads: nat, cap: nat): SlotState {
    SlotState(Start(threads), seq(cap, _ => Slot(0, 0)))
  }

  ghost function SlotRun(ss: SlotState, schedule: Schedule): SlotState
    requires Fits(schedule, |ss.base.threads|) && |ss.slots| > 0
    decreases |schedule|
  {
    if schedule == [] then ss else SlotRun(SlotStep(ss, schedule[0].0, schedule[0].1), schedule[1..])
  }

  /** The states of all runs of any number of threads over a table of any capacity. */
  ghost predicate SlotReachable(ss: SlotState) {
    exists threads: nat, cap: nat, schedule: Schedule ::
      cap > 0 && Fits(schedule, threads) && ss == SlotRun(SlotStart(threads, cap), schedule)
  }

  ghost predicate Linked(ss: SlotState) {
    WellPlaced(ss.slots) && NoZero(Abs(ss)) && Reachable(Abs(ss))
  }

  lemma {:induction false} RunLinked(ss: SlotState, schedule: Schedule)
    requires Linked(ss) && Fits(schedule, |ss.base.threads|)
    ensures Linked(SlotRun(ss, schedule))
    decreases |schedule|
  {
    hide SlotStep, Step, NoZero, Reachable, Real, TableOf;
    if schedule != [] {
      var t, a := schedule[0].0, schedule[0].1;
      SlotStepRefines(ss, t, a);
      StepNoZero(Abs(ss), t, Real(ss, t, a));
      ReachableStep(Abs(ss), t, Real(ss, t, a));
      RunLinked(SlotStep(ss, t, a), schedule[1..]);
    }
  }

  lemma StartLinked(threads: nat, cap: nat)
    requires cap > 0
    ensures Linked(SlotStart(threads, cap))
  {
    StartReachable(threads);
    var slots := SlotStart(threads, cap).slots;
    assert Handles(slots) == {};
    assert TableOf(slots) == map[];
  }

  lemma ReachableLinked(ss: SlotState)
    requires SlotReachable(ss)
    ensures Linked(ss)
  {
    hide Linked, SlotRun;
    var threads: nat, cap: nat, schedule: Schedule :|
      cap > 0 && Fits(schedule, threads) && ss == SlotRun(SlotStart(threads, cap), schedule);
    StartLinked(threads, cap);
    RunLinked(SlotStart(threads, cap), schedule);
  }

  // ----------------------------------------------------------------- main results

  /** While a thread has a reference, the slot still holds that service and a positive count, and
      nobody is freeing it; a service that is being freed has lost its slot, and one thread frees
      it. Slots may be reused. */
  lemma SlotFreedOnceUnreferenced(ss: SlotState, t: nat, u: nat, h: Handle)
    requires SlotReachable(ss) && |ss.slots| > 0 && t < |ss.base.threads| && u < |ss.base.threads| && t != u
    ensures Plays(ss.base.threads[t], HasRef, h) ==>
              && Found(ss.slots, h) && At(ss.slots, h).ref >= 1 && h !in ss.base.marked
              && !Plays(ss.base.threads[u], Frees, h)
    ensures Plays(ss.base.threads[t], Frees, h) ==>
              !Found(ss.slots, h) && h !in ss.base.marked && !Plays(ss.base.threads[u], Frees, h)
  {
    ReachableLinked(ss);
    FreedOnceUnreferenced(Abs(ss), t, u, h);
    SlotTest(ss.slots, h);
    assert PcOk(Abs(ss).threads[t]);
  }

  /** A reference is out, or the slot still has the service with a count of zero, or a thread is in
      pixel_free. */
  ghost predicate SlotStillThere(ss: SlotState, h: Handle)
    requires |ss.slots| > 0
  {
    var threads := ss.base.threads;
    || h in ss.base.tokens
    || (exists u :: 0 <= u < |threads| && Plays(threads[u], HasRef, h))
    || (Found(ss.slots, h) && At(ss.slots, h).ref == 0)
    || (exists u :: 0 <= u < |threads| && Plays(threads[u], Frees, h))
  }

  /** The service or queue that the next step of a thread works on is there, as over the table and
      with the same exceptions: a failed launch after a kill, and the report of a successful one
      when nobody has a reference any more. */
  lemma SlotNothingDangles(ss: SlotState, t: nat)
    requires SlotReachable(ss) && |ss.slots| > 0 && t < |ss.base.threads|
    ensures var pc, s := ss.base.threads[t], ss.base;
            && (pc.Releasing? ==> Found(ss.slots, pc.h))
            && (pc.Grabbed? || pc.FreeQueue? || pc.Sending? || pc.Freeing? ==> pc.h in s.queues)
            && (pc.Freeing? ==> !s.queues[pc.h].release)
            && (pc.ForceFree? ==> (pc.h in s.tokens <==> pc.h !in s.killed))
            && (pc.ForceFree? && pc.h in s.tokens ==> Found(ss.slots, pc.h) && At(ss.slots, pc.h).ref >= 1)
            && (pc.Launched? ==> (pc.h !in s.marked <==> SlotStillThere(ss, pc.h)))
            && (pc.Launched? && pc.h !in s.killed ==> Found(ss.slots, pc.h) && At(ss.slots, pc.h).ref >= 1)
  {
    hide TableOf, StillThere;
    ReachableLinked(ss);
    NothingDangles(Abs(ss), t);
    var pc := ss.base.threads[t];
    if pc.Releasing? || pc.ForceFree? || pc.Launched? {
      SlotTest(ss.slots, pc.h);
      assert PcOk(pc);
    }
    if pc.Launched? { SameStillThere(ss, pc.h); }
  }

  lemma SameStillThere(ss: SlotState, h: Handle)
    requires WellPlaced(ss.slots) && h != 0
    ensures SlotStillThere(ss, h) <==> StillThere(Abs(ss), h)
  {
    hide TableOf;
    SlotTest(ss.slots, h);
  }

  /** The handle of a service that has been freed finds nothing, whoever has its slot by now; that
      of a live service finds its own slot. */
  lemma OldHandlesFindNothing(ss: SlotState, h: Handle)
    requires SlotReachable(ss) && |ss.slots| > 0 && h != 0
    ensures h in ss.base.marked || h !in ss.base.born ==> !Found(ss.slots, h)
    ensures h in ss.base.tokens ==> Found(ss.slots, h) && At(ss.slots, h).ref >= 1
  {
    ReachableLinked(ss);
    ReachableInv(Abs(ss));
    assert InvAt(Abs(ss), h);
    SlotTest(ss.slots, h);
  }
}
