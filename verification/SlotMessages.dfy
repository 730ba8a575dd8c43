/** Which messages arrive, over the array of slots (src/handle.c, src/pixel.c): the sends of a run are
    those whose slot test finds the service.
 */
module SlotMessages {
  import opened Basics
  import opened Scheduler
  import opened SchedulerRuns
  import opened SchedulerMessages
  import opened HandleTable
  import opened SlotScheduler

  /** A send whose slot has the service. */
  function SlotSent(ss: SlotState, t: nat, a: Action, h: Handle): seq<Item>
    requires t < |ss.base.threads| && |ss.slots| > 0
  {
    if a.Send? && a.to == h && ss.base.threads[t].Idle? && h != 0 && Found(ss.slots, h) then [Item(t, a.m)] else []
  }

  ghost function SlotSends(ss: SlotState, schedule: Schedule, h: Handle): seq<Item>
    requires Fits(schedule, |ss.base.threads|) && |ss.slots| > 0
    decreases |schedule|
  {
    if schedule == [] then []
    else
      SlotSent(ss, schedule[0].0, schedule[0].1, h) + SlotSends(SlotStep(ss, schedule[0].0, schedule[0].1), schedule[1..], h)
  }

  ghost function SlotPushes(ss: SlotState, schedule: Schedule, h: Handle): seq<Item>
    requires Fits(schedule, |ss.base.threads|) && |ss.slots| > 0
    decreases |schedule|
  {
    if schedule == [] then []
    else
      PushedNow(ss.base, schedule[0].0, schedule[0].1, h) + SlotPushes(SlotStep(ss, schedule[0].0, schedule[0].1), schedule[1..], h)
  }

  /** The schedule over the table that a schedule over the slots is. */
  ghost function RealSchedule(ss: SlotState, schedule: Schedule): Schedule
    requires Fits(schedule, |ss.base.threads|) && |ss.slots| > 0
    decreases |schedule|
  {
    if schedule == [] then []
    else [(schedule[0].0, Real(ss, schedule[0].0, schedule[0].1))] + RealSchedule(SlotStep(ss, schedule[0].0, schedule[0].1), schedule[1..])
  }

  lemma SameSends(ss: SlotState, t: nat, a: Action, h: Handle)
    requires Linked(ss) && t < |ss.base.threads|
    ensures SlotSent(ss, t, a, h) == SentNow(Abs(ss), t, Real(ss, t, a), h)
    ensures PushedNow(ss.base, t, a, h) == PushedNow(Abs(ss), t, Real(ss, t, a), h)
  {
    hide TableOf, MayGrow, Roomy, Given;
    SlotTest(ss.slots, h);
  }

  lemma StepLinked(ss: SlotState, t: nat, a: Action)
    requires Linked(ss) && t < |ss.base.threads|
    ensures Linked(SlotStep(ss, t, a)) && Abs(SlotStep(ss, t, a)) == Step(Abs(ss), t, Real(ss, t, a))
  {
    hide SlotStep, Step, NoZero, Reachable, Real, TableOf;
    SlotStepRefines(ss, t, a);
    StepNoZero(Abs(ss), t, Real(ss, t, a));
    ReachableStep(Abs(ss), t, Real(ss, t, a));
  }

  lemma {:induction false} SlotRunIs(ss: SlotState, schedule: Schedule, h: Handle)
    requires Linked(ss) && Fits(schedule, |ss.base.threads|)
    ensures var table := RealSchedule(ss, schedule);
            && Fits(table, |Abs(ss).threads|) && Linked(SlotRun(ss, schedule))
            && Abs(SlotRun(ss, schedule)) == Run(Abs(ss), table)
            && SlotSends(ss, schedule, h) == Sends(Abs(ss), table, h)
            && SlotPushes(ss, schedule, h) == Pushes(Abs(ss), table, h)
    decreases |schedule|
  {
    hide SlotStep, Step, Real, SentNow, SlotSent, PushedNow, TableOf, NoZero, Reachable;
    if schedule != [] {
      var t, a, rest := schedule[0].0, schedule[0].1, schedule[1..];
      StepLinked(ss, t, a);
      SameSends(ss, t, a, h);
      SlotRunIs(SlotStep(ss, t, a), rest, h);
      StepThreads(Abs(ss), t, Real(ss, t, a));
      var table := RealSchedule(ss, schedule);
      assert table[0] == (t, Real(ss, t, a)) && table[1..] == RealSchedule(SlotStep(ss, t, a), rest);
    }
  }

  /** As over the table: in every run, what has been pushed to a service is what was sent to it by the
      sends whose slot test found it, in the order of each thread, but for what is about to be pushed. */
  lemma SlotMessagesArrive(threads: nat, cap: nat, schedule: Schedule, h: Handle)
    requires cap > 0 && Fits(schedule, threads)
    ensures var start := SlotStart(threads, cap);
            var s, sends, pushes := SlotRun(start, schedule).base, SlotSends(start, schedule, h), SlotPushes(start, schedule, h);
            && (h in s.queues ==> s.queues[h].pushed == s.queues[h].popped + s.queues[h].msgs == Messages(pushes))
            && multiset(Messages(pushes)) + AllPending(s.threads, h) == multiset(Messages(sends))
            && forall u: nat :: OfThread(pushes, u) + Pending(s.threads, u, h) == OfThread(sends, u)
  {
    hide SlotRun, SlotSends, SlotPushes, RealSchedule, OfThread, Messages, AllPending, Pending, Run, Sends, Pushes;
    var start := SlotStart(threads, cap);
    StartLinked(threads, cap);
    SlotRunIs(start, schedule, h);
    AbsStart(threads, cap);
    MessagesArrive(threads, RealSchedule(start, schedule), h);
  }

  lemma AbsStart(threads: nat, cap: nat)
    requires cap > 0
    ensures WellPlaced(SlotStart(threads, cap).slots) && Abs(SlotStart(threads, cap)) == Start(threads)
  {
    var slots := SlotStart(threads, cap).slots;
    assert Handles(slots) == {};
    assert TableOf(slots) == map[];
  }
}
