/** Three runs of the scheduler (src/pixel.c) that end badly: a queue that is never freed, a failed
    launch that gives up a reference which is not there any more, and a successful one that reports
    a service which has been freed.
 */
module SchedulerRuns {
  import opened Basics
  import opened Scheduler

  lemma {:induction false} RunThreads(s: State, schedule: Schedule)
    requires Fits(schedule, |s.threads|)
    ensures |Run(s, schedule).threads| == |s.threads|
    decreases |schedule|
  {
    hide Step;
    if schedule != [] {
      StepThreads(s, schedule[0].0, schedule[0].1);
      RunThreads(Step(s, schedule[0].0, schedule[0].1), schedule[1..]);
    }
  }

  lemma {:induction false} RunAppend(s: State, schedule: Schedule, t: nat, a: Action)
    requires Fits(schedule, |s.threads|) && t < |s.threads|
    ensures Fits(schedule + [(t, a)], |s.threads|) && |Run(s, schedule).threads| == |s.threads|
    ensures Run(s, schedule + [(t, a)]) == Step(Run(s, schedule), t, a)
    decreases |schedule|
  {
    hide Step;
    RunThreads(s, schedule);
    if schedule == [] {
      StepThreads(s, t, a);
      assert ([] + [(t, a)])[1..] == [];
    } else {
      StepThreads(s, schedule[0].0, schedule[0].1);
      RunAppend(Step(s, schedule[0].0, schedule[0].1), schedule[1..], t, a);
      assert (schedule + [(t, a)])[1..] == schedule[1..] + [(t, a)];
    }
  }

  /** One more step of a run. */
  lemma ReachableStep(s: State, t: nat, a: Action)
    requires Reachable(s) && t < |s.threads|
    ensures Reachable(Step(s, t, a))
  {
    hide Step, Run;
    var threads: nat, schedule: Schedule :| Fits(schedule, threads) && s == Run(Start(threads), schedule);
    RunThreads(Start(threads), schedule);
    RunAppend(Start(threads), schedule, t, a);
  }

  lemma StartReachable(threads: nat)
    ensures Reachable(Start(threads))
  {
    assert Fits([], threads) && Start(threads) == Run(Start(threads), []);
  }

  /** Two threads and one service, with handle 1, whose queue stays empty. */
  function Two(a: Pc, b: Pc, table: map<Handle, int>, tokens: set<Handle>, killed: set<Handle>, marked: set<Handle>, orphans: set<Handle>): State {
    State([a, b], 2, {1}, table, tokens, killed, {}, marked, map[1 := Queue([], true, marked != {}, [], [])], [], orphans)
  }

  lemma LaunchOne()
    ensures Reachable(Two(Launching(1), Idle, map[1 := 2], {1}, {}, {}, {}))
  {
    hide Reachable;
    StartReachable(2);
    ReachableStep(Start(2), 0, Launch(1));
    assert Start(2).threads == [Idle, Idle];
    assert Step(Start(2), 0, Launch(1)) == Two(Launching(1), Idle, map[1 := 2], {1}, {}, {}, {});
  }

  lemma LookedUp()
    requires Reachable(Two(Launching(1), Idle, map[1 := 2], {1}, {}, {}, {}))
    ensures Reachable(Two(Releasing(1, ToForceFree), Releasing(1, ToIdle), map[1 := 3], {1}, {}, {}, {}))
  {
    hide Reachable;
    var s := Two(Launching(1), Idle, map[1 := 2], {1}, {}, {}, {});
    ReachableStep(s, 1, Peek(1));
    var v := Two(Launching(1), Releasing(1, ToIdle), map[1 := 3], {1}, {}, {}, {});
    assert Step(s, 1, Peek(1)) == v;
    ReachableStep(v, 0, LaunchFail);
    assert Step(v, 0, LaunchFail) == Two(Releasing(1, ToForceFree), Releasing(1, ToIdle), map[1 := 3], {1}, {}, {}, {});
  }

  lemma FirstGivenUp()
    requires Reachable(Two(Releasing(1, ToForceFree), Releasing(1, ToIdle), map[1 := 3], {1}, {}, {}, {}))
    ensures Reachable(Two(Releasing(1, ToFreeIfGone), Releasing(1, ToIdle), map[1 := 2], {}, {}, {}, {}))
  {
    hide Reachable;
    var s := Two(Releasing(1, ToForceFree), Releasing(1, ToIdle), map[1 := 3], {1}, {}, {}, {});
    ReachableStep(s, 0, ReleaseRef);
    var v := Two(ForceFree(1), Releasing(1, ToIdle), map[1 := 2], {1}, {}, {}, {});
    assert Step(s, 0, ReleaseRef) == v;
    ReachableStep(v, 0, DropFirst);
    assert Step(v, 0, DropFirst) == Two(Releasing(1, ToFreeIfGone), Releasing(1, ToIdle), map[1 := 2], {}, {}, {}, {});
  }

  lemma StillReferenced()
    requires Reachable(Two(Releasing(1, ToFreeIfGone), Releasing(1, ToIdle), map[1 := 2], {}, {}, {}, {}))
    ensures Reachable(Two(Idle, Removing(1, ToIdle), map[1 := 0], {}, {}, {}, {1}))
  {
    hide Reachable;
    var s := Two(Releasing(1, ToFreeIfGone), Releasing(1, ToIdle), map[1 := 2], {}, {}, {}, {});
    ReachableStep(s, 0, ReleaseRef);
    var v := Two(Idle, Releasing(1, ToIdle), map[1 := 1], {}, {}, {}, {1});
    assert Step(s, 0, ReleaseRef) == v;
    ReachableStep(v, 1, ReleaseRef);
    assert Step(v, 1, ReleaseRef) == Two(Idle, Removing(1, ToIdle), map[1 := 0], {}, {}, {}, {1});
  }

  lemma FreedLast()
    requires Reachable(Two(Idle, Removing(1, ToIdle), map[1 := 0], {}, {}, {}, {1}))
    ensures Reachable(Two(Idle, Idle, map[], {}, {}, {1}, {1}))
  {
    hide Reachable;
    var s := Two(Idle, Removing(1, ToIdle), map[1 := 0], {}, {}, {}, {1});
    ReachableStep(s, 1, Remove);
    var v := Two(Idle, Freeing(1, ToIdle), map[], {}, {}, {}, {1});
    assert Step(s, 1, Remove) == v;
    ReachableStep(v, 1, MarkFree);
    assert Step(v, 1, MarkFree) == Two(Idle, Idle, map[], {}, {}, {1}, {1});
  }

  /** A launch while another thread looks the new service up: the launch fails, the service is freed
      when the other thread is done, and its queue is in nobody's hands and on no list, with all
      threads at rest. */
  lemma QueueForgotten() returns (s: State)
    ensures Reachable(s) && s.threads == [Idle, Idle]
    ensures 1 in s.marked && 1 in s.queues && s.queues[1].release && 1 in s.orphans && s.list == []
  {
    hide Reachable;
    LaunchOne();
    LookedUp();
    FirstGivenUp();
    StillReferenced();
    FreedLast();
    s := Two(Idle, Idle, map[], {}, {}, {1}, {1});
  }

  /** A service that is killed during its init function, which then fails: the launching thread is
      about to use a service that has been freed. */
  lemma KilledThenFailed() returns (s: State)
    ensures Reachable(s) && s.threads == [ForceFree(1), Idle]
    ensures 1 in s.marked && 1 !in s.table && 1 !in s.tokens && 1 in s.killed
  {
    hide Reachable;
    LaunchOne();
    KilledEarly();
    FailedLate();
    s := Two(ForceFree(1), Idle, map[], {}, {1}, {1}, {});
  }

  lemma KilledEarly()
    requires Reachable(Two(Launching(1), Idle, map[1 := 2], {1}, {}, {}, {}))
    ensures Reachable(Two(Releasing(1, ToForceFree), Idle, map[1 := 1], {}, {1}, {}, {}))
  {
    hide Reachable;
    var s := Two(Launching(1), Idle, map[1 := 2], {1}, {}, {}, {});
    ReachableStep(s, 1, Kill(1));
    var v := Two(Launching(1), Releasing(1, ToIdle), map[1 := 2], {}, {1}, {}, {});
    assert Step(s, 1, Kill(1)) == v;
    ReachableStep(v, 1, ReleaseRef);
    var w := Two(Launching(1), Idle, map[1 := 1], {}, {1}, {}, {});
    assert Step(v, 1, ReleaseRef) == w;
    ReachableStep(w, 0, LaunchFail);
    assert Step(w, 0, LaunchFail) == Two(Releasing(1, ToForceFree), Idle, map[1 := 1], {}, {1}, {}, {});
  }

  lemma FailedLate()
    requires Reachable(Two(Releasing(1, ToForceFree), Idle, map[1 := 1], {}, {1}, {}, {}))
    ensures Reachable(Two(ForceFree(1), Idle, map[], {}, {1}, {1}, {}))
  {
    hide Reachable;
    var s := Two(Releasing(1, ToForceFree), Idle, map[1 := 1], {}, {1}, {}, {});
    ReachableStep(s, 0, ReleaseRef);
    var v := Two(Removing(1, ToForceFree), Idle, map[1 := 0], {}, {1}, {}, {});
    assert Step(s, 0, ReleaseRef) == v;
    ReachableStep(v, 0, Remove);
    var w := Two(Freeing(1, ToForceFree), Idle, map[], {}, {1}, {}, {});
    assert Step(v, 0, Remove) == w;
    ReachableStep(w, 0, MarkFree);
    assert Step(w, 0, MarkFree) == Two(ForceFree(1), Idle, map[], {}, {1}, {1}, {});
  }

  /** The same with a service that has been launched. */
  function AfterLaunch(a: Pc, b: Pc, table: map<Handle, int>, tokens: set<Handle>, killed: set<Handle>, marked: set<Handle>): State {
    State([a, b], 2, {1}, table, tokens, killed, {1}, marked, map[1 := Queue([], true, marked != {}, [], [])], [1], {})
  }

  /** A service that is killed between the end of its launch and the report: the launching thread is
      about to use a service that has been freed. Its queue waits in the global list to be freed. */
  lemma KilledThenReported() returns (s: State)
    ensures Reachable(s) && s.threads == [Pc.Launched(1), Idle]
    ensures 1 in s.marked && 1 !in s.table && 1 in s.launched && 1 in s.killed && s.list == [1]
  {
    hide Reachable;
    LaunchOne();
    LaunchEnds();
    KilledBefore();
    FreedBefore();
    s := AfterLaunch(Pc.Launched(1), Idle, map[], {}, {1}, {1});
  }

  lemma LaunchEnds()
    requires Reachable(Two(Launching(1), Idle, map[1 := 2], {1}, {}, {}, {}))
    ensures Reachable(AfterLaunch(Pc.Launched(1), Idle, map[1 := 1], {1}, {}, {}))
  {
    hide Reachable;
    var s := Two(Launching(1), Idle, map[1 := 2], {1}, {}, {}, {});
    ReachableStep(s, 0, LaunchOk);
    var v := AfterLaunch(Releasing(1, ToLaunched), Idle, map[1 := 2], {1}, {}, {});
    assert Step(s, 0, LaunchOk) == v;
    ReachableStep(v, 0, ReleaseRef);
    assert Step(v, 0, ReleaseRef) == AfterLaunch(Pc.Launched(1), Idle, map[1 := 1], {1}, {}, {});
  }

  lemma KilledBefore()
    requires Reachable(AfterLaunch(Pc.Launched(1), Idle, map[1 := 1], {1}, {}, {}))
    ensures Reachable(AfterLaunch(Pc.Launched(1), Removing(1, ToIdle), map[1 := 0], {}, {1}, {}))
  {
    hide Reachable;
    var s := AfterLaunch(Pc.Launched(1), Idle, map[1 := 1], {1}, {}, {});
    ReachableStep(s, 1, Kill(1));
    var v := AfterLaunch(Pc.Launched(1), Releasing(1, ToIdle), map[1 := 1], {}, {1}, {});
    assert Step(s, 1, Kill(1)) == v;
    ReachableStep(v, 1, ReleaseRef);
    assert Step(v, 1, ReleaseRef) == AfterLaunch(Pc.Launched(1), Removing(1, ToIdle), map[1 := 0], {}, {1}, {});
  }

  lemma FreedBefore()
    requires Reachable(AfterLaunch(Pc.Launched(1), Removing(1, ToIdle), map[1 := 0], {}, {1}, {}))
    ensures Reachable(AfterLaunch(Pc.Launched(1), Idle, map[], {}, {1}, {1}))
  {
    hide Reachable;
    var w := AfterLaunch(Pc.Launched(1), Removing(1, ToIdle), map[1 := 0], {}, {1}, {});
    ReachableStep(w, 1, Remove);
    var x := AfterLaunch(Pc.Launched(1), Freeing(1, ToIdle), map[], {}, {1}, {});
    assert Step(w, 1, Remove) == x;
    ReachableStep(x, 1, MarkFree);
    assert Step(x, 1, MarkFree) == AfterLaunch(Pc.Launched(1), Idle, map[], {}, {1}, {1});
  }
}
