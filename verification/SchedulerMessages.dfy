/** Which messages arrive (src/pixel.c, src/queue.c): in every run, what has been pushed to a service is
    what was sent to it, each message once and the messages of one thread in the order of its sends.
    What was sent is read off the schedule: the sends that found the service.
 */
module SchedulerMessages {
  import opened Basics
  import opened Scheduler

  /** A message and the thread that sends it. */
  datatype Item = Item(thread: nat, m: int)

  function Messages(items: seq<Item>): seq<int> {
    seq(|items|, k requires 0 <= k < |items| => items[k].m)
  }

  /** The messages of one thread, in order. */
  function OfThread(items: seq<Item>, u: nat): seq<int> {
    if items == [] then [] else (if items[0].thread == u then [items[0].m] else []) + OfThread(items[1..], u)
  }

  /** A send that finds the service. */
  ghost function SentNow(s: State, t: nat, a: Action, h: Handle): seq<Item>
    requires t < |s.threads|
  {
    if a.Send? && a.to == h && s.threads[t].Idle? && h in s.table then [Item(t, a.m)] else []
  }

  ghost function PushedNow(s: State, t: nat, a: Action, h: Handle): seq<Item>
    requires t < |s.threads|
  {
    var pc := s.threads[t];
    if a.PushMessage? && pc.Sending? && pc.h == h then [Item(t, pc.m)] else []
  }

  /** All sends to `h` in a run that found it, in their order. */
  ghost function Sends(s: State, schedule: Schedule, h: Handle): seq<Item>
    requires Fits(schedule, |s.threads|)
    decreases |schedule|
  {
    if schedule == [] then []
    else
      StepThreads(s, schedule[0].0, schedule[0].1);
      SentNow(s, schedule[0].0, schedule[0].1, h) + Sends(Step(s, schedule[0].0, schedule[0].1), schedule[1..], h)
  }

  /** All pushes to its queue. */
  ghost function Pushes(s: State, schedule: Schedule, h: Handle): seq<Item>
    requires Fits(schedule, |s.threads|)
    decreases |schedule|
  {
    if schedule == [] then []
    else
      StepThreads(s, schedule[0].0, schedule[0].1);
      PushedNow(s, schedule[0].0, schedule[0].1, h) + Pushes(Step(s, schedule[0].0, schedule[0].1), schedule[1..], h)
  }

  function PendingOf(pc: Pc, h: Handle): seq<int> { if pc.Sending? && pc.h == h then [pc.m] else [] }

  /** What thread `u` is about to push to `h`. */
  function Pending(threads: seq<Pc>, u: nat, h: Handle): seq<int> {
    if u < |threads| then PendingOf(threads[u], h) else []
  }

  function AllPending(threads: seq<Pc>, h: Handle): multiset<int> {
    if threads == [] then multiset{}
    else AllPending(threads[..|threads| - 1], h) + multiset(PendingOf(threads[|threads| - 1], h))
  }

  // ------------------------------------------------------------------ sequences

  lemma {:induction false} OfThreadAppend(a: seq<Item>, b: seq<Item>, u: nat)
    ensures OfThread(a + b, u) == OfThread(a, u) + OfThread(b, u)
    decreases |a|
  {
    if a == [] {
      assert a + b == b;
    } else {
      assert (a + b)[0] == a[0] && (a + b)[1..] == a[1..] + b;
      OfThreadAppend(a[1..], b, u);
    }
  }

  lemma MessagesAppend(a: seq<Item>, b: seq<Item>)
    ensures Messages(a + b) == Messages(a) + Messages(b)
  {
  }

  lemma Shuffle(a: multiset<int>, b: multiset<int>, x: multiset<int>, y: multiset<int>, z: multiset<int>)
    requires a + x == b + y
    ensures (a + z) + x == (b + z) + y
  {
    assert (a + z) + x == (a + x) + z && (b + z) + y == (b + y) + z;
  }

  lemma {:induction false} PendingUpdate(threads: seq<Pc>, t: nat, pc: Pc, h: Handle)
    requires t < |threads|
    ensures AllPending(threads[t := pc], h) + multiset(PendingOf(threads[t], h)) ==
            AllPending(threads, h) + multiset(PendingOf(pc, h))
    decreases |threads|
  {
    hide PendingOf;
    var n := |threads| - 1;
    var after := threads[t := pc];
    if t < n {
      PendingUpdate(threads[..n], t, pc, h);
      assert after[..n] == threads[..n][t := pc] && after[n] == threads[n];
      Shuffle(AllPending(after[..n], h), AllPending(threads[..n], h), multiset(PendingOf(threads[t], h)),
              multiset(PendingOf(pc, h)), multiset(PendingOf(threads[n], h)));
    } else {
      assert after[..n] == threads[..n];
      var rest, x, y := AllPending(threads[..n], h), multiset(PendingOf(threads[t], h)), multiset(PendingOf(pc, h));
      assert (rest + y) + x == (rest + x) + y;
    }
  }

  // ------------------------------------------------------------------- one step

  lemma OneThread(s: State, t: nat, a: Action, u: nat, h: Handle)
    requires t < |s.threads| && Inv(s)
    ensures Pending(s.threads, u, h) + OfThread(SentNow(s, t, a, h), u) ==
            OfThread(PushedNow(s, t, a, h), u) + Pending(Step(s, t, a).threads, u, h)
  {
    hide Inv;
    OneStep(s, t, a, h);
    Single(SentNow(s, t, a, h), t, u);
    Single(PushedNow(s, t, a, h), t, u);
  }

  lemma Single(items: seq<Item>, t: nat, u: nat)
    requires |items| <= 1 && (items != [] ==> items[0].thread == t)
    ensures OfThread(items, u) == if u == t then Messages(items) else []
  {
    if items != [] { assert items[1..] == []; }
  }

  /** What a thread is about to push comes by a send and goes by a push. */
  lemma OneStep(s: State, t: nat, a: Action, h: Handle)
    requires t < |s.threads| && Inv(s)
    ensures var v := Step(s, t, a);
            && v.threads == s.threads[t := v.threads[t]]
            && Pending(s.threads, t, h) + Messages(SentNow(s, t, a, h)) ==
               Messages(PushedNow(s, t, a, h)) + Pending(v.threads, t, h)
  {
    hide Inv;
    var pc := s.threads[t];
    if pc.Sending? { InUse(s, t, pc.h); }
  }

  lemma InUse(s: State, t: nat, h: Handle)
    requires Inv(s) && t < |s.threads| && Plays(s.threads[t], HasRef, h)
    ensures h in s.queues
  {
    assert InvAt(s, h);
    CountPositive(s.threads, t, HasRef, h);
  }

  /** The queue of `h` is there and shows its pushes, or it has not been made yet, or it is gone. */
  ghost function PushedTo(s: State, h: Handle): seq<int> { if h in s.queues then s.queues[h].pushed else [] }

  lemma OnePush(s: State, t: nat, a: Action, h: Handle)
    requires t < |s.threads| && (s.threads[t].Sending? ==> s.threads[t].h in s.queues)
    requires h !in s.queues || h < s.issued
    ensures var v := Step(s, t, a);
            h in v.queues ==> PushedTo(v, h) == PushedTo(s, h) + Messages(PushedNow(s, t, a, h))
  {
  }

  // ------------------------------------------------------------------- all runs

  lemma OneQueue(s: State, t: nat, a: Action, h: Handle)
    requires t < |s.threads|
    ensures var v := Step(s, t, a); s.issued <= v.issued && (h !in s.queues && h < s.issued ==> h !in v.queues)
  {
  }

  /** A queue that is gone does not come back. */
  lemma {:induction false} StaysGone(s: State, schedule: Schedule, h: Handle)
    requires Fits(schedule, |s.threads|) && h !in s.queues && h < s.issued
    ensures h !in Run(s, schedule).queues
    decreases |schedule|
  {
    hide Step;
    if schedule != [] {
      var t, a := schedule[0].0, schedule[0].1;
      StepThreads(s, t, a);
      OneQueue(s, t, a, h);
      StaysGone(Step(s, t, a), schedule[1..], h);
    }
  }

  lemma WasIssued(s: State, h: Handle)
    requires Inv(s) && h in s.queues
    ensures h < s.issued
  {
    assert InvAt(s, h);
  }

  lemma {:induction false} RunPushes(s: State, schedule: Schedule, h: Handle)
    requires Fits(schedule, |s.threads|) && Inv(s)
    ensures h in Run(s, schedule).queues ==> PushedTo(Run(s, schedule), h) == PushedTo(s, h) + Messages(Pushes(s, schedule, h))
    decreases |schedule|
  {
    hide Step, Inv, Messages, PushedNow;
    if schedule == [] {
      NoMessages();
      assert PushedTo(s, h) + [] == PushedTo(s, h);
    } else {
      var t, a, rest := schedule[0].0, schedule[0].1, schedule[1..];
      StepThreads(s, t, a);
      StepKeeps(s, t, a);
      var v := Step(s, t, a);
      RunPushes(v, rest, h);
      OneQueue(s, t, a, h);
      if h in s.queues { WasIssued(s, h); }
      if s.threads[t].Sending? { InUse(s, t, s.threads[t].h); }
      MessagesAppend(PushedNow(s, t, a, h), Pushes(v, rest, h));
      if h in v.queues {
        OnePush(s, t, a, h);
        assert (PushedTo(s, h) + Messages(PushedNow(s, t, a, h))) + Messages(Pushes(v, rest, h)) ==
               PushedTo(s, h) + (Messages(PushedNow(s, t, a, h)) + Messages(Pushes(v, rest, h)));
      } else if h < v.issued {
        StaysGone(v, rest, h);
      } else {
        NothingPushed(s, t, a, h);
      }
    }
  }

  lemma NoMessages()
    ensures Messages([]) == []
  {
  }

  lemma NothingPushed(s: State, t: nat, a: Action, h: Handle)
    requires t < |s.threads| && h !in s.queues && (s.threads[t].Sending? ==> s.threads[t].h in s.queues)
    ensures Messages(PushedNow(s, t, a, h)) == [] && forall x: seq<int> :: [] + ([] + x) == x
  {
  }

  lemma {:induction false} RunThread(s: State, schedule: Schedule, u: nat, h: Handle)
    requires Fits(schedule, |s.threads|) && Inv(s)
    ensures Pending(s.threads, u, h) + OfThread(Sends(s, schedule, h), u) ==
            OfThread(Pushes(s, schedule, h), u) + Pending(Run(s, schedule).threads, u, h)
    decreases |schedule|
  {
    hide Step, Inv, OfThread, SentNow, PushedNow, Pending;
    if schedule == [] {
      Nobody(u);
      assert Pending(s.threads, u, h) + [] == [] + Pending(s.threads, u, h);
    } else {
      var t, a, rest := schedule[0].0, schedule[0].1, schedule[1..];
      StepThreads(s, t, a);
      StepKeeps(s, t, a);
      var v := Step(s, t, a);
      RunThread(v, rest, u, h);
      OneThread(s, t, a, u, h);
      OfThreadAppend(SentNow(s, t, a, h), Sends(v, rest, h), u);
      OfThreadAppend(PushedNow(s, t, a, h), Pushes(v, rest, h), u);
      Chain(Pending(s.threads, u, h), OfThread(SentNow(s, t, a, h), u), OfThread(Sends(v, rest, h), u),
            OfThread(PushedNow(s, t, a, h), u), Pending(v.threads, u, h), OfThread(Pushes(v, rest, h), u),
            Pending(Run(v, rest).threads, u, h));
    }
  }

  lemma Nobody(u: nat)
    ensures OfThread([], u) == []
  {
  }

  lemma Chain(p: seq<int>, sent: seq<int>, later: seq<int>, pushed: seq<int>, q: seq<int>, pushes: seq<int>, r: seq<int>)
    requires p + sent == pushed + q && q + later == pushes + r
    ensures p + (sent + later) == (pushed + pushes) + r
  {
    assert p + (sent + later) == (p + sent) + later;
    assert (pushed + q) + later == pushed + (q + later);
    assert pushed + (pushes + r) == (pushed + pushes) + r;
  }

  lemma {:induction false} RunAll(s: State, schedule: Schedule, h: Handle)
    requires Fits(schedule, |s.threads|) && Inv(s)
    ensures AllPending(s.threads, h) + multiset(Messages(Sends(s, schedule, h))) ==
            multiset(Messages(Pushes(s, schedule, h))) + AllPending(Run(s, schedule).threads, h)
    decreases |schedule|
  {
    hide Step, Inv, Messages, SentNow, PushedNow, Pending, AllPending, PendingOf;
    if schedule == [] {
      NoMessages();
    } else {
      var t, a, rest := schedule[0].0, schedule[0].1, schedule[1..];
      StepThreads(s, t, a);
      StepKeeps(s, t, a);
      var v := Step(s, t, a);
      RunAll(v, rest, h);
      OneBag(s, t, a, h);
      MessagesAppend(SentNow(s, t, a, h), Sends(v, rest, h));
      MessagesAppend(PushedNow(s, t, a, h), Pushes(v, rest, h));
      BagChain(AllPending(s.threads, h), Messages(SentNow(s, t, a, h)), Messages(Sends(v, rest, h)),
               Messages(PushedNow(s, t, a, h)), AllPending(v.threads, h), Messages(Pushes(v, rest, h)),
               AllPending(Run(v, rest).threads, h));
    }
  }

  lemma BagChain(p: multiset<int>, sent: seq<int>, later: seq<int>, pushed: seq<int>, q: multiset<int>, pushes: seq<int>, r: multiset<int>)
    requires p + multiset(sent) == multiset(pushed) + q && q + multiset(later) == multiset(pushes) + r
    ensures p + multiset(sent + later) == multiset(pushed + pushes) + r
  {
    assert p + multiset(sent + later) == (p + multiset(sent)) + multiset(later);
    assert (multiset(pushed) + q) + multiset(later) == multiset(pushed) + (q + multiset(later));
  }

  lemma OneBag(s: State, t: nat, a: Action, h: Handle)
    requires t < |s.threads| && Inv(s)
    ensures AllPending(s.threads, h) + multiset(Messages(SentNow(s, t, a, h))) ==
            multiset(Messages(PushedNow(s, t, a, h))) + AllPending(Step(s, t, a).threads, h)
  {
    hide Step, Inv, Messages, SentNow, PushedNow, AllPending, PendingOf;
    OneStep(s, t, a, h);
    var v := Step(s, t, a);
    PendingUpdate(s.threads, t, v.threads[t], h);
    var x, y := PendingOf(s.threads[t], h), PendingOf(v.threads[t], h);
    var sent, pushed := Messages(SentNow(s, t, a, h)), Messages(PushedNow(s, t, a, h));
    assert multiset(x) + multiset(sent) == multiset(x + sent) == multiset(pushed + y) == multiset(pushed) + multiset(y);
    Cancel(AllPending(s.threads, h), AllPending(v.threads, h), multiset(x), multiset(y), multiset(sent), multiset(pushed));
  }

  lemma Cancel(p: multiset<int>, q: multiset<int>, x: multiset<int>, y: multiset<int>, sent: multiset<int>, pushed: multiset<int>)
    requires q + x == p + y && x + sent == pushed + y
    ensures p + sent == pushed + q
  {
    assert forall i :: q[i] + x[i] == (q + x)[i] && p[i] + y[i] == (p + y)[i];
    assert forall i :: x[i] + sent[i] == (x + sent)[i] && pushed[i] + y[i] == (pushed + y)[i];
  }

  // -------------------------------------------------------------- main result

  /** In every run, what has been pushed to a service, of which the first part has been popped and the
      rest waits, are the sends that found it: those of each thread in their order, and all of them but
      what threads are about to push. */
  lemma MessagesArrive(threads: nat, schedule: Schedule, h: Handle)
    requires Fits(schedule, threads)
    ensures var s, sends, pushes := Run(Start(threads), schedule), Sends(Start(threads), schedule, h), Pushes(Start(threads), schedule, h);
            && (h in s.queues ==> s.queues[h].pushed == s.queues[h].popped + s.queues[h].msgs == Messages(pushes))
            && multiset(Messages(pushes)) + AllPending(s.threads, h) == multiset(Messages(sends))
            && forall u: nat :: OfThread(pushes, u) + Pending(s.threads, u, h) == OfThread(sends, u)
  {
    hide Inv, Run, Sends, Pushes, OfThread, AllPending;
    var start := Start(threads);
    StartKeeps(threads);
    RunPushes(start, schedule, h);
    RunAll(start, schedule, h);
    NonePending(start.threads, h);
    assert Reachable(Run(start, schedule));
    if h in Run(start, schedule).queues { MessagesInOrder(Run(start, schedule), h); }
    forall u: nat ensures OfThread(Pushes(start, schedule, h), u) + Pending(Run(start, schedule).threads, u, h) ==
                          OfThread(Sends(start, schedule, h), u) {
      RunThread(start, schedule, u, h);
      assert [] + OfThread(Sends(start, schedule, h), u) == OfThread(Sends(start, schedule, h), u);
    }
  }

  lemma {:induction false} NonePending(threads: seq<Pc>, h: Handle)
    requires forall u :: 0 <= u < |threads| ==> threads[u] == Idle
    ensures AllPending(threads, h) == multiset{}
    decreases |threads|
  {
    if threads != [] { NonePending(threads[..|threads| - 1], h); }
  }
}
