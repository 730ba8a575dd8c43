/** What whole operations do (src/pixel.c, src/queue.c) when their thread is not interrupted: sending,
    dispatching, launching and killing, each as the sequence of its steps from any state of the
    invariant.
 */
module SchedulerAlone {
  import opened Basics
  import opened Scheduler

  /** Thread `t` takes these steps and nobody else takes any. */
  function Alone(s: State, t: nat, actions: seq<Action>): (r: State)
    requires t < |s.threads|
    ensures |r.threads| == |s.threads|
    decreases |actions|
  {
    if actions == [] then s
    else
      StepThreads(s, t, actions[0]);
      Alone(Step(s, t, actions[0]), t, actions[1..])
  }

  lemma AloneIs(s: State, t: nat, a: Action, rest: seq<Action>)
    requires t < |s.threads|
    ensures |Step(s, t, a).threads| == |s.threads| && Alone(s, t, [a] + rest) == Alone(Step(s, t, a), t, rest)
  {
    hide Step;
    StepThreads(s, t, a);
    assert ([a] + rest)[1..] == rest;
  }

  lemma Three(s: State, t: nat, a: Action, b: Action, c: Action)
    requires t < |s.threads|
    ensures |Step(s, t, a).threads| == |Step(Step(s, t, a), t, b).threads| == |s.threads|
    ensures Alone(s, t, [a, b, c]) == Step(Step(Step(s, t, a), t, b), t, c)
  {
    hide Step;
    StepThreads(s, t, a);
    StepThreads(Step(s, t, a), t, b);
    AloneIs(s, t, a, [b, c]);
    AloneIs(Step(s, t, a), t, b, [c]);
    AloneIs(Step(Step(s, t, a), t, b), t, c, []);
    assert [a] + [b, c] == [a, b, c] && [b] + [c] == [b, c] && [c] + [] == [c];
  }

  lemma Four(s: State, t: nat, a: Action, b: Action, c: Action, d: Action)
    requires t < |s.threads|
    ensures |Step(s, t, a).threads| == |Step(Step(s, t, a), t, b).threads| == |s.threads|
    ensures |Step(Step(Step(s, t, a), t, b), t, c).threads| == |s.threads|
    ensures Alone(s, t, [a, b, c, d]) == Step(Step(Step(Step(s, t, a), t, b), t, c), t, d)
  {
    hide Step;
    StepThreads(s, t, a);
    Three(Step(s, t, a), t, b, c, d);
    AloneIs(s, t, a, [b, c, d]);
    assert [a] + [b, c, d] == [a, b, c, d];
    StepThreads(Step(Step(s, t, a), t, b), t, c);
  }

  // ---------------------------------------------------------------- single steps

  lemma Released(s: State, t: nat, h: Handle, k: Then)
    requires t < |s.threads| && s.threads[t] == Releasing(h, k) && h in s.table
    ensures s.table[h] >= 2 ==> Step(s, t, ReleaseRef) == Continue(s.(table := s.table[h := s.table[h] - 1]), t, h, k, true)
    ensures s.table[h] == 1 ==> Step(s, t, ReleaseRef) == Goto(s.(table := s.table[h := 0]), t, Removing(h, k))
  {
  }

  lemma Taken(s: State, t: nat)
    requires t < |s.threads| && s.threads[t] == Ready(None) && s.list != []
    ensures Step(s, t, PopGlobal) == Goto(s.(list := s.list[1..]), t, Ready(Some(s.list[0])))
  {
  }

  lemma Grabs(s: State, t: nat, h: Handle)
    requires t < |s.threads| && s.threads[t] == Ready(Some(h))
    ensures Step(s, t, Grab) == if h in s.table then Goto(IncRef(s, h), t, Grabbed(h)) else Goto(s, t, FreeQueue(h, true))
  {
  }

  lemma Pops(s: State, t: nat, h: Handle)
    requires t < |s.threads| && s.threads[t] == Grabbed(h) && h in s.queues
    ensures var q := s.queues[h];
            Step(s, t, PopMessage) ==
            if q.msgs != [] then Goto(s.(queues := s.queues[h := q.(msgs := q.msgs[1..], popped := q.popped + [q.msgs[0]])]), t, Running(h))
            else Goto(s.(queues := s.queues[h := q.(global := false)]), t, Releasing(h, ToReady(None)))
  {
  }

  // ----------------------------------------------------------------- operations

  /** pixel_push: the message is at the end of the queue, which is on the list if it was idle; nothing else
      has changed. */
  lemma PushAlone(s: State, t: nat, h: Handle, m: int)
    requires t < |s.threads| && s.threads[t] == Idle && h in s.table && s.table[h] >= 1 && h in s.queues
    ensures var q := s.queues[h];
            Alone(s, t, [Send(h, m), PushMessage, ReleaseRef]) ==
            s.(queues := s.queues[h := q.(msgs := q.msgs + [m], pushed := q.pushed + [m], global := true)],
               list := if q.global then s.list else s.list + [h])
  {
    hide Step;
    Three(s, t, Send(h, m), PushMessage, ReleaseRef);
    PushSteps(s, t, h, m);
    var q := s.queues[h];
    var b := Goto(IncRef(s, h).(queues := s.queues[h := q.(msgs := q.msgs + [m], pushed := q.pushed + [m], global := true)],
                                list := if q.global then s.list else s.list + [h]), t, Releasing(h, ToIdle));
    Released(b, t, h, ToIdle);
    assert b.table[h := b.table[h] - 1] == s.table && b.threads[t := Idle] == s.threads;
  }

  lemma PushSteps(s: State, t: nat, h: Handle, m: int)
    requires t < |s.threads| && s.threads[t] == Idle && h in s.table && h in s.queues
    ensures var q := s.queues[h];
            && |Step(s, t, Send(h, m)).threads| == |s.threads|
            && Step(Step(s, t, Send(h, m)), t, PushMessage) ==
               Goto(IncRef(s, h).(queues := s.queues[h := q.(msgs := q.msgs + [m], pushed := q.pushed + [m], global := true)],
                                  list := if q.global then s.list else s.list + [h]), t, Releasing(h, ToIdle))
  {
    var q := s.queues[h];
    var a := Goto(IncRef(s, h), t, Sending(h, m));
    assert Step(s, t, Send(h, m)) == a;
    assert a.threads[t := Releasing(h, ToIdle)] == s.threads[t := Releasing(h, ToIdle)];
  }

  /** A service that is not there is not pushed to. */
  lemma PushNowhere(s: State, t: nat, h: Handle, m: int)
    requires t < |s.threads| && s.threads[t] == Idle && h !in s.table
    ensures Step(s, t, Send(h, m)) == s
  {
  }

  /** The start of a dispatch, on the first queue of the list: with a message the worker is in the callback,
      and the message is popped; without, the queue is idle and the worker free again. */
  lemma DispatchAlone(s: State, t: nat)
    requires t < |s.threads| && s.threads[t] == Ready(None) && s.list != []
    requires s.list[0] in s.table && s.list[0] in s.queues && s.table[s.list[0]] >= 1
    ensures var h := s.list[0];
            var q := s.queues[h];
            if q.msgs != [] then
              Alone(s, t, [PopGlobal, Grab, PopMessage]) ==
              s.(threads := s.threads[t := Running(h)], list := s.list[1..], table := s.table[h := s.table[h] + 1],
                 queues := s.queues[h := q.(msgs := q.msgs[1..], popped := q.popped + [q.msgs[0]])])
            else
              Alone(s, t, [PopGlobal, Grab, PopMessage, ReleaseRef]) ==
              s.(list := s.list[1..], queues := s.queues[h := q.(global := false)])
  {
    hide Step;
    var h := s.list[0];
    Three(s, t, PopGlobal, Grab, PopMessage);
    Four(s, t, PopGlobal, Grab, PopMessage, ReleaseRef);
    Taken(s, t);
    var a := Goto(s.(list := s.list[1..]), t, Ready(Some(h)));
    Grabs(a, t, h);
    var b := Goto(IncRef(a, h), t, Grabbed(h));
    assert b.threads == s.threads[t := Grabbed(h)];
    Pops(b, t, h);
    if s.queues[h].msgs == [] {
      var c := Goto(b.(queues := s.queues[h := s.queues[h].(global := false)]), t, Releasing(h, ToReady(None)));
      Released(c, t, h, ToReady(None));
      assert c.table[h := c.table[h] - 1] == s.table && c.threads[t := Ready(None)] == s.threads;
    } else {
      assert b.threads[t := Running(h)] == s.threads[t := Running(h)];
    }
  }

  /** The end of a dispatch: the worker goes on with its own queue if there is no other, or else with the
      first of the list, and its own goes to the end. */
  lemma NextAlone(s: State, t: nat, h: Handle)
    requires t < |s.threads| && s.threads[t] == Running(h) && h in s.table && s.table[h] >= 2
    ensures if s.list == [] then
              Alone(s, t, [Finish, Next, ReleaseRef]) ==
              s.(threads := s.threads[t := Ready(Some(h))], table := s.table[h := s.table[h] - 1])
            else
              Alone(s, t, [Finish, Next, PushBack, ReleaseRef]) ==
              s.(threads := s.threads[t := Ready(Some(s.list[0]))], table := s.table[h := s.table[h] - 1],
                 list := s.list[1..] + [h])
  {
    hide Step;
    Three(s, t, Finish, Next, ReleaseRef);
    Four(s, t, Finish, Next, PushBack, ReleaseRef);
    NextSteps(s, t, h);
    if s.list == [] {
      var b := s.(threads := s.threads[t := Releasing(h, ToReady(Some(h)))]);
      Released(b, t, h, ToReady(Some(h)));
      assert b.threads[t := Ready(Some(h))] == s.threads[t := Ready(Some(h))];
    } else {
      var k := ToReady(Some(s.list[0]));
      var c := s.(threads := s.threads[t := Releasing(h, k)], list := s.list[1..] + [h]);
      SwapStep(s, t, h);
      Released(c, t, h, k);
      assert c.threads[t := Ready(Some(s.list[0]))] == s.threads[t := Ready(Some(s.list[0]))];
    }
  }

  lemma NextSteps(s: State, t: nat, h: Handle)
    requires t < |s.threads| && s.threads[t] == Running(h)
    ensures var pc := if s.list == [] then Releasing(h, ToReady(Some(h))) else Swap(h, s.list[0]);
            && |Step(s, t, Finish).threads| == |s.threads|
            && Step(Step(s, t, Finish), t, Next) ==
               s.(threads := s.threads[t := pc], list := if s.list == [] then [] else s.list[1..])
  {
    var pc := if s.list == [] then Releasing(h, ToReady(Some(h))) else Swap(h, s.list[0]);
    assert s.threads[t := Ran(h)][t := pc] == s.threads[t := pc];
  }

  lemma SwapStep(s: State, t: nat, h: Handle)
    requires t < |s.threads| && s.list != []
    ensures Step(s.(threads := s.threads[t := Swap(h, s.list[0])], list := s.list[1..]), t, PushBack) ==
            s.(threads := s.threads[t := Releasing(h, ToReady(Some(s.list[0])))], list := s.list[1..] + [h])
  {
    var pc := Releasing(h, ToReady(Some(s.list[0])));
    assert s.threads[t := Swap(h, s.list[0])][t := pc] == s.threads[t := pc];
  }

  /** pixel_new, when the init function succeeds: a service with its first reference, whose empty queue is
      on the list. */
  lemma LaunchAlone(s: State, t: nat, h: Handle)
    requires t < |s.threads| && s.threads[t] == Idle && h >= s.issued
    ensures Alone(s, t, [Launch(h), LaunchOk, ReleaseRef, Report]) ==
            s.(issued := h + 1, born := s.born + {h}, table := s.table[h := 1], tokens := s.tokens + {h},
               queues := s.queues[h := Queue([], true, false, [], [])], list := s.list + [h], launched := s.launched + {h})
  {
    hide Step;
    Four(s, t, Launch(h), LaunchOk, ReleaseRef, Report);
    LaunchSteps(s, t, h);
    var b := s.(threads := s.threads[t := Releasing(h, ToLaunched)], issued := h + 1, born := s.born + {h}, table := s.table[h := 2],
                tokens := s.tokens + {h}, queues := s.queues[h := Queue([], true, false, [], [])], list := s.list + [h],
                launched := s.launched + {h});
    Released(b, t, h, ToLaunched);
    assert b.table[h := 1] == s.table[h := 1];
    Reports(b.(table := s.table[h := 1]), t, h);
    assert b.threads[t := Launched(h)][t := Idle] == s.threads;
  }

  lemma LaunchSteps(s: State, t: nat, h: Handle)
    requires t < |s.threads| && s.threads[t] == Idle && h >= s.issued
    ensures |Step(s, t, Launch(h)).threads| == |s.threads|
    ensures Step(Step(s, t, Launch(h)), t, LaunchOk) ==
            s.(threads := s.threads[t := Releasing(h, ToLaunched)], issued := h + 1, born := s.born + {h}, table := s.table[h := 2],
               tokens := s.tokens + {h}, queues := s.queues[h := Queue([], true, false, [], [])], list := s.list + [h],
               launched := s.launched + {h})
  {
    assert s.threads[t := Launching(h)][t := Releasing(h, ToLaunched)] == s.threads[t := Releasing(h, ToLaunched)];
  }

  lemma Reports(s: State, t: nat, h: Handle)
    requires t < |s.threads|
    ensures Step(Goto(s, t, Launched(h)), t, Report) == Goto(Goto(s, t, Launched(h)), t, Idle)
  {
  }

  /** A kill of a service to which nobody else has a reference frees it: the service is out of the table,
      and its queue is marked and on the list if it was idle. */
  lemma KillAlone(s: State, t: nat, h: Handle)
    requires t < |s.threads| && s.threads[t] == Idle && h in s.tokens && h in s.table && s.table[h] == 1 && h in s.queues
    ensures var q := s.queues[h];
            Alone(s, t, [Kill(h), ReleaseRef, Remove, MarkFree]) ==
            s.(tokens := s.tokens - {h}, killed := s.killed + {h}, table := s.table - {h}, marked := s.marked + {h},
               queues := s.queues[h := q.(release := true)], list := if q.global then s.list else s.list + [h])
  {
    hide Step;
    Four(s, t, Kill(h), ReleaseRef, Remove, MarkFree);
    Killed(s, t, h);
    var a := s.(threads := s.threads[t := Releasing(h, ToIdle)], tokens := s.tokens - {h}, killed := s.killed + {h});
    Released(a, t, h, ToIdle);
    var b := Goto(a.(table := s.table[h := 0]), t, Removing(h, ToIdle));
    Removed(b, t, h);
    assert b.table - {h} == s.table - {h};
    var c := Goto(b.(table := s.table - {h}), t, Freeing(h, ToIdle));
    Marked(c, t, h);
    assert c.threads[t := Idle] == s.threads;
  }

  lemma Killed(s: State, t: nat, h: Handle)
    requires t < |s.threads| && s.threads[t] == Idle && h in s.tokens
    ensures Step(s, t, Kill(h)) == s.(threads := s.threads[t := Releasing(h, ToIdle)], tokens := s.tokens - {h}, killed := s.killed + {h})
  {
  }

  lemma Removed(s: State, t: nat, h: Handle)
    requires t < |s.threads| && s.threads[t] == Removing(h, ToIdle) && h in s.table && s.table[h] == 0
    ensures Step(s, t, Remove) == Goto(s.(table := s.table - {h}), t, Freeing(h, ToIdle))
  {
  }

  lemma Marked(s: State, t: nat, h: Handle)
    requires t < |s.threads| && s.threads[t] == Freeing(h, ToIdle) && h in s.queues
    ensures var q := s.queues[h];
            Step(s, t, MarkFree) == s.(threads := s.threads[t := Idle], queues := s.queues[h := q.(release := true)],
                                       marked := s.marked + {h}, list := if q.global then s.list else s.list + [h])
  {
  }

  /** The queue of a freed service is freed by the worker that finds it on the list. */
  lemma FreeAlone(s: State, t: nat)
    requires t < |s.threads| && s.threads[t] == Ready(None) && s.list != []
    requires s.list[0] !in s.table && s.list[0] in s.queues && s.queues[s.list[0]].release
    ensures Alone(s, t, [PopGlobal, Grab, QueueFree]) == s.(list := s.list[1..], queues := s.queues - {s.list[0]})
  {
    var h := s.list[0];
    Three(s, t, PopGlobal, Grab, QueueFree);
    var a := Goto(s.(list := s.list[1..]), t, Ready(Some(h)));
    assert Step(s, t, PopGlobal) == a;
    var b := Goto(a, t, FreeQueue(h, true));
    assert Step(a, t, Grab) == b;
    assert b.threads[t := Ready(None)] == s.threads;
  }
}
