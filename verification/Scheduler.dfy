/** The actor scheduler as a state machine: any number of threads, each lock region or atomic
    operation of src/queue.c, src/handle.c and src/pixel.c one step, in any interleaving.

    A service is known by its handle.  The handle table holds its reference count, its message
    queue is a structure of its own that outlives it, and worker threads take queues from a
    global list.  Handles are given in ascending order; the table is a map here, and the array of
    slots that are used again and again is in HandleTable.dfy and SlotScheduler.dfy.
 */
module Scheduler {
  import opened Basics

  type Handle = nat

  /** struct queue: `global` claims that the queue is in the global list or in the hands of a
      thread, `release` that its service is gone.  `pushed` and `popped` record the traffic. */
  datatype Queue = Queue(msgs: seq<int>, global: bool, release: bool, pushed: seq<int>, popped: seq<int>)

  /** What a thread does after giving a reference back. */
  datatype Then =
    | ToReady(q: Option<Handle>)
    | ToIdle
    | ToLaunched           // to the rest of a successful launch (the same service)
    | ToForceFree          // (the same service)
    | ToFreeIfGone         // (the same service)

  /** Where a thread is.  Operations that a callback performs while its worker is in `Running`
      are steps of other threads. */
  datatype Pc =
    | Idle
    | Ready(q: Option<Handle>)                // between two calls of pixel_dispatch
    | Grabbed(h: Handle)                      // service found, about to pop a message
    | Running(h: Handle)                      // in the callback
    | Ran(h: Handle)                          // about to look for the next queue
    | Swap(h: Handle, next: Handle)           // about to push its queue back
    | FreeQueue(h: Handle, worker: bool)      // about to call queue_free
    | Sending(h: Handle, m: int)              // about to call queue_push
    | Launching(h: Handle)                    // in the init function of a new service
    | Launched(h: Handle)                     // about to log the launch and to report the new handle
    | ForceFree(h: Handle)                    // about to drop the first reference of a failed launch
    | Releasing(h: Handle, k: Then)           // about to call handle_release_ref
    | Removing(h: Handle, k: Then)            // about to call handle_remove
    | Freeing(h: Handle, k: Then)             // about to call queue_mark_free (in pixel_free)

  /** `born`: all handles given so far, below `issued`.  `table`: reference counts of live
      services.  `tokens`: services whose first reference has not been given up, `killed`: those
      for which a kill has done so.  `marked`: services freed.  `orphans`: queues of failed launches
      that somebody else still had a reference to; the source forgets them. */
  datatype State = State(
    threads: seq<Pc>,
    issued: nat,
    born: set<Handle>,
    table: map<Handle, int>,
    tokens: set<Handle>,
    killed: set<Handle>,
    launched: set<Handle>,
    marked: set<Handle>,
    queues: map<Handle, Queue>,
    list: seq<Handle>,
    orphans: set<Handle>)

  datatype Action =
    | StartWorker
    | StopWorker
    | PopGlobal
    | Grab
    | PopMessage
    | Finish
    | Next
    | PushBack
    | QueueFree
    | Send(to: Handle, m: int)
    | PushMessage
    | Peek(of: Handle)
    | Kill(who: Handle)
    | Launch(given: Handle)
    | LaunchOk
    | Report
    | LaunchFail
    | DropFirst
    | ReleaseRef
    | Remove
    | MarkFree

  // -------------------------------------------------------------------- steps

  function Goto(s: State, t: nat, pc: Pc): State
    requires t < |s.threads|
  {
    s.(threads := s.threads[t := pc])
  }

  function IncRef(s: State, h: Handle): State
    requires h in s.table
  {
    s.(table := s.table[h := s.table[h] + 1])
  }

  /** After handle_release; `alive` is whether it returned the service. */
  function Continue(s: State, t: nat, h: Handle, k: Then, alive: bool): State
    requires t < |s.threads|
  {
    match k
    case ToReady(q) => Goto(s, t, Ready(q))
    case ToIdle => Goto(s, t, Idle)
    case ToLaunched => Goto(s, t, if alive then Launched(h) else Idle)
    case ToForceFree => Goto(s, t, ForceFree(h))
    case ToFreeIfGone =>
      if alive then Goto(s.(orphans := s.orphans + {h}), t, Idle) else Goto(s, t, FreeQueue(h, false))
  }

  /** The effect of one step of thread `t`; a step that is not possible changes nothing. */
  function Step(s: State, t: nat, a: Action): State
    requires t < |s.threads|
  {
    var pc := s.threads[t];
    match a
    case StartWorker => if pc.Idle? then Goto(s, t, Ready(None)) else s
    case StopWorker => if pc == Ready(None) then Goto(s, t, Idle) else s
    case PopGlobal =>
      if pc == Ready(None) && s.list != []
      then Goto(s.(list := s.list[1..]), t, Ready(Some(s.list[0]))) else s
    case Grab =>
      if !(pc.Ready? && pc.q.Some?) then s
      else if pc.q.value in s.table then Goto(IncRef(s, pc.q.value), t, Grabbed(pc.q.value))
      else Goto(s, t, FreeQueue(pc.q.value, true))
    case PopMessage =>
      if !(pc.Grabbed? && pc.h in s.queues) then s
      else
        var q := s.queues[pc.h];
        if q.msgs != [] then
          Goto(s.(queues := s.queues[pc.h := q.(msgs := q.msgs[1..], popped := q.popped + [q.msgs[0]])]), t, Running(pc.h))
        else
          Goto(s.(queues := s.queues[pc.h := q.(global := false)]), t, Releasing(pc.h, ToReady(None)))
    case Finish => if pc.Running? then Goto(s, t, Ran(pc.h)) else s
    case Next =>
      if !pc.Ran? then s
      else if s.list == [] then Goto(s, t, Releasing(pc.h, ToReady(Some(pc.h))))
      else Goto(s.(list := s.list[1..]), t, Swap(pc.h, s.list[0]))
    case PushBack =>
      if pc.Swap? then Goto(s.(list := s.list + [pc.h]), t, Releasing(pc.h, ToReady(Some(pc.next)))) else s
    case QueueFree =>
      if !(pc.FreeQueue? && pc.h in s.queues) then s
      else
        var after := if pc.worker then Ready(None) else Idle;
        if s.queues[pc.h].release then Goto(s.(queues := s.queues - {pc.h}), t, after)
        else Goto(s.(list := s.list + [pc.h]), t, after)
    case Send(h, m) => if pc.Idle? && h in s.table then Goto(IncRef(s, h), t, Sending(h, m)) else s
    case PushMessage =>
      if !(pc.Sending? && pc.h in s.queues) then s
      else
        var q := s.queues[pc.h];
        var q' := q.(msgs := q.msgs + [pc.m], pushed := q.pushed + [pc.m], global := true);
        Goto(s.(queues := s.queues[pc.h := q'], list := if q.global then s.list else s.list + [pc.h]),
             t, Releasing(pc.h, ToIdle))
    case Peek(h) => if pc.Idle? && h in s.table then Goto(IncRef(s, h), t, Releasing(h, ToIdle)) else s
    case Kill(h) =>
      if pc.Idle? && h in s.tokens
      then Goto(s.(tokens := s.tokens - {h}, killed := s.killed + {h}), t, Releasing(h, ToIdle)) else s
    case Launch(h) =>
      if !pc.Idle? || h < s.issued then s
      else
        Goto(s.(issued := h + 1, born := s.born + {h}, table := s.table[h := 2], tokens := s.tokens + {h},
                queues := s.queues[h := Queue([], true, false, [], [])]), t, Launching(h))
    case LaunchOk =>
      if pc.Launching?
      then Goto(s.(list := s.list + [pc.h], launched := s.launched + {pc.h}), t, Releasing(pc.h, ToLaunched)) else s
    case Report => if pc.Launched? then Goto(s, t, Idle) else s
    case LaunchFail => if pc.Launching? then Goto(s, t, Releasing(pc.h, ToForceFree)) else s
    case DropFirst =>
      if pc.ForceFree? && pc.h in s.tokens
      then Goto(s.(tokens := s.tokens - {pc.h}), t, Releasing(pc.h, ToFreeIfGone)) else s
    case ReleaseRef =>
      if !(pc.Releasing? && pc.h in s.table) then s
      else
        var s' := s.(table := s.table[pc.h := s.table[pc.h] - 1]);
        if s'.table[pc.h] > 0 then Continue(s', t, pc.h, pc.k, true) else Goto(s', t, Removing(pc.h, pc.k))
    case Remove =>
      if !pc.Removing? then s
      else if pc.h in s.table && s.table[pc.h] <= 0 then
        Goto(s.(table := s.table - {pc.h}), t, Freeing(pc.h, pc.k))
      else Continue(s, t, pc.h, pc.k, false)
    case MarkFree =>
      if !(pc.Freeing? && pc.h in s.queues) then s
      else
        var q := s.queues[pc.h];
        Continue(s.(queues := s.queues[pc.h := q.(release := true)], marked := s.marked + {pc.h},
                    list := if q.global then s.list else s.list + [pc.h]), t, pc.h, pc.k, false)
  }

  // -------------------------------------------------------------------- roles

  datatype Role = HasRef | OwnsQueue | Removes | Frees | Unborn | Failing

  predicate OwnsThen(g: Handle, k: Then, h: Handle) {
    match k
    case ToReady(q) => q == Some(h)
    case ToIdle => false
    case ToLaunched => false
    case ToForceFree => g == h
    case ToFreeIfGone => g == h
  }

  /** Does a thread at `pc` play the role for service `h`? */
  predicate Plays(pc: Pc, r: Role, h: Handle) {
    match r
    case HasRef =>
      (match pc
       case Grabbed(g) => g == h
       case Running(g) => g == h
       case Ran(g) => g == h
       case Swap(g, _) => g == h
       case Sending(g, _) => g == h
       case Launching(g) => g == h
       case Releasing(g, _) => g == h
       case _ => false)
    case OwnsQueue =>
      (match pc
       case Ready(q) => q == Some(h)
       case Grabbed(g) => g == h
       case Running(g) => g == h
       case Ran(g) => g == h
       case Swap(g, n) => g == h || n == h
       case FreeQueue(g, _) => g == h
       case Launching(g) => g == h
       case ForceFree(g) => g == h
       case Releasing(g, k) => OwnsThen(g, k, h)
       case Removing(g, k) => OwnsThen(g, k, h)
       case Freeing(g, k) => OwnsThen(g, k, h)
       case _ => false)
    case Removes => pc.Removing? && pc.h == h
    case Frees => pc.Freeing? && pc.h == h
    case Unborn =>
      (match pc
       case Launching(g) => g == h
       case ForceFree(g) => g == h
       case Releasing(g, k) => g == h && k == ToForceFree
       case Removing(g, k) => g == h && k == ToForceFree
       case Freeing(g, k) => g == h && k == ToForceFree
       case _ => false)
    case Failing =>
      (match pc
       case Releasing(g, k) => g == h && k == ToFreeIfGone
       case Removing(g, k) => g == h && k == ToFreeIfGone
       case Freeing(g, k) => g == h && k == ToFreeIfGone
       case _ => false)
  }

  function One(b: bool): nat { if b then 1 else 0 }

  /** How often: a thread about to swap queues has two of them. */
  function Weight(pc: Pc, r: Role, h: Handle): nat {
    if r == OwnsQueue && pc.Swap? then One(pc.h == h) + One(pc.next == h) else One(Plays(pc, r, h))
  }

  /** The number of times that a role is played. */
  function Count(threads: seq<Pc>, r: Role, h: Handle): nat {
    if threads == [] then 0
    else Count(threads[..|threads| - 1], r, h) + Weight(threads[|threads| - 1], r, h)
  }

  lemma {:induction false} CountUpdate(threads: seq<Pc>, t: nat, pc: Pc, r: Role, h: Handle)
    requires t < |threads|
    ensures Count(threads[t := pc], r, h) == Count(threads, r, h) - Weight(threads[t], r, h) + Weight(pc, r, h)
    decreases |threads|
  {
    var n := |threads| - 1;
    if t < n {
      CountUpdate(threads[..n], t, pc, r, h);
      assert threads[t := pc][..n] == threads[..n][t := pc];
    } else {
      assert threads[t := pc][..n] == threads[..n];
    }
  }

  lemma {:induction false} CountPositive(threads: seq<Pc>, t: nat, r: Role, h: Handle)
    requires t < |threads| && Plays(threads[t], r, h)
    ensures Count(threads, r, h) >= Weight(threads[t], r, h) >= 1
    decreases |threads|
  {
    var n := |threads| - 1;
    if t < n { CountPositive(threads[..n], t, r, h); }
  }

  lemma {:induction false} CountPair(threads: seq<Pc>, t: nat, u: nat, r: Role, h: Handle)
    requires t < u < |threads| && Plays(threads[t], r, h) && Plays(threads[u], r, h)
    ensures Count(threads, r, h) >= 2
    decreases |threads|
  {
    var n := |threads| - 1;
    if u < n { CountPair(threads[..n], t, u, r, h); } else { CountPositive(threads[..n], t, r, h); }
  }

  // ---------------------------------------------------------------- invariant

  /** In how many places the queue of `h` is: hands of threads and the global list. */
  function Places(s: State, h: Handle): nat {
    Count(s.threads, OwnsQueue, h) + multiset(s.list)[h]
  }

  /** The reference count counts the references, and a count of zero is being seen to. */
  ghost predicate RefsAt(s: State, h: Handle) {
    var refs := Count(s.threads, HasRef, h) + One(h in s.tokens);
    && (if h in s.table then s.table[h] == refs else refs == 0)
    && (h in s.table && s.table[h] == 0 ==> Count(s.threads, Removes, h) > 0)
    && (Count(s.threads, Unborn, h) > 0 ==> h !in s.launched && (h in s.tokens <==> h !in s.killed))
    && (Count(s.threads, Failing, h) > 0 ==> h !in s.launched)
    && (h in s.launched || h in s.tokens || h in s.killed ==> h in s.born)
    && (h in s.born ==> h < s.issued)
  }

  /** A registered service is in exactly one of three stages: live, being freed by one thread,
      freed. */
  ghost predicate StageAt(s: State, h: Handle) {
    One(h in s.table) + Count(s.threads, Frees, h) + One(h in s.marked) == One(h in s.born)
  }

  /** A queue is in at most one place; in none exactly when it is idle (or forgotten). */
  ghost predicate QueueAt(s: State, h: Handle) {
    && Places(s, h) <= 1
    && (h in s.queues ==>
          var q := s.queues[h];
          && h in s.born
          && (q.release <==> h in s.marked)
          && (Places(s, h) == 1 ==> q.global || q.release)
          && (Places(s, h) == 0 && h !in s.orphans ==> !q.global && !q.release && q.msgs == [])
          && (h in s.orphans ==> Places(s, h) == 0 && q.global)
          && q.pushed == q.popped + q.msgs)
    && (h !in s.queues ==> Places(s, h) == 0 && (h in s.born ==> h in s.marked))
    && (h in s.orphans ==> h in s.queues && h !in s.launched)
  }

  ghost predicate InvAt(s: State, h: Handle) {
    RefsAt(s, h) && StageAt(s, h) && QueueAt(s, h)
  }

  ghost predicate Inv(s: State) {
    forall h: Handle :: InvAt(s, h)
  }

  // ------------------------------------------------------------- preservation

  /** How the count of a role changes when thread `t` moves on to `pc`. */
  ghost predicate Shift(s: State, t: nat, pc: Pc, r: Role, h: Handle)
    requires t < |s.threads|
  {
    && Count(s.threads[t := pc], r, h) == Count(s.threads, r, h) - Weight(s.threads[t], r, h) + Weight(pc, r, h)
    && Count(s.threads, r, h) >= Weight(s.threads[t], r, h)
  }

  lemma ShiftRole(s: State, t: nat, pc: Pc, r: Role, h: Handle)
    requires t < |s.threads|
    ensures Shift(s, t, pc, r, h)
  {
    CountUpdate(s.threads, t, pc, r, h);
    if Plays(s.threads[t], r, h) { CountPositive(s.threads, t, r, h); }
  }

  lemma Moves(s: State, t: nat, pc: Pc, h: Handle)
    requires t < |s.threads|
    ensures Shift(s, t, pc, HasRef, h) && Shift(s, t, pc, OwnsQueue, h) && Shift(s, t, pc, Removes, h)
    ensures Shift(s, t, pc, Frees, h) && Shift(s, t, pc, Unborn, h)
    ensures Shift(s, t, pc, Failing, h)
    ensures Count(s.threads, Unborn, h) + Count(s.threads, Failing, h) <= Count(s.threads, OwnsQueue, h)
  {
    hide Count;
    ShiftRole(s, t, pc, HasRef, h);
    ShiftRole(s, t, pc, OwnsQueue, h);
    ShiftRole(s, t, pc, Removes, h);
    ShiftRole(s, t, pc, Frees, h);
    ShiftRole(s, t, pc, Unborn, h);
    ShiftRole(s, t, pc, Failing, h);
    UnbornOwns(s.threads, h);
  }

  lemma {:induction false} UnbornOwns(threads: seq<Pc>, h: Handle)
    ensures Count(threads, Unborn, h) + Count(threads, Failing, h) <= Count(threads, OwnsQueue, h)
    decreases |threads|
  {
    if threads != [] { UnbornOwns(threads[..|threads| - 1], h); }
  }

  lemma PushedOn(list: seq<Handle>, g: Handle, h: Handle)
    ensures multiset(list + [g])[h] == multiset(list)[h] + One(g == h)
  {
  }

  lemma PoppedOff(list: seq<Handle>, h: Handle)
    requires list != []
    ensures multiset(list)[h] == multiset(list[1..])[h] + One(list[0] == h)
  {
    assert list == [list[0]] + list[1..];
  }

  /** Where `Continue` leads. */
  function After(h: Handle, k: Then, alive: bool): Pc {
    match k
    case ToReady(q) => Ready(q)
    case ToIdle => Idle
    case ToLaunched => if alive then Launched(h) else Idle
    case ToForceFree => ForceFree(h)
    case ToFreeIfGone => if alive then Idle else FreeQueue(h, false)
  }

  lemma GoneOn(s: State, t: nat, h: Handle, k: Then)
    requires t < |s.threads|
    ensures Continue(s, t, h, k, false) == Goto(s, t, After(h, k, false))
  {
  }

  /** Going on after handle_release keeps the queues that the thread was going to keep. */
  lemma AfterWeights(g: Handle, k: Then, h: Handle)
    ensures var pc := After(g, k, false);
            && Weight(pc, HasRef, h) == Weight(pc, Removes, h) == Weight(pc, Frees, h) == 0
            && Weight(pc, OwnsQueue, h) == Weight(Freeing(g, k), OwnsQueue, h) == Weight(Removing(g, k), OwnsQueue, h)
            && Weight(pc, Unborn, h) == Weight(Freeing(g, k), Unborn, h) == Weight(Removing(g, k), Unborn, h)
            && Weight(pc, Failing, h) <= Weight(Freeing(g, k), Failing, h) == Weight(Removing(g, k), Failing, h)
    ensures Weight(Freeing(g, k), HasRef, h) == Weight(Freeing(g, k), Removes, h) == 0
    ensures Weight(Freeing(g, k), Frees, h) == One(g == h)
    ensures Weight(Removing(g, k), HasRef, h) == Weight(Removing(g, k), Frees, h) == 0
    ensures Weight(Removing(g, k), Removes, h) == One(g == h)
  {
  }

  lemma StartWorkerKeeps(s: State, t: nat, h: Handle)
    requires t < |s.threads| && Inv(s)
    ensures InvAt(Step(s, t, StartWorker), h)
  {
    hide Count;
    assert InvAt(s, h);
    Moves(s, t, Ready(None), h);
  }

  lemma StopWorkerKeeps(s: State, t: nat, h: Handle)
    requires t < |s.threads| && Inv(s)
    ensures InvAt(Step(s, t, StopWorker), h)
  {
    hide Count;
    assert InvAt(s, h);
    Moves(s, t, Idle, h);
  }

  lemma PopGlobalKeeps(s: State, t: nat, h: Handle)
    requires t < |s.threads| && Inv(s)
    ensures InvAt(Step(s, t, PopGlobal), h)
  {
    hide Count;
    assert InvAt(s, h);
    if s.list != [] {
      Moves(s, t, Ready(Some(s.list[0])), h);
      PoppedOff(s.list, h);
    }
  }

  lemma GrabKeeps(s: State, t: nat, h: Handle)
    requires t < |s.threads| && Inv(s)
    ensures InvAt(Step(s, t, Grab), h)
  {
    hide Count;
    assert InvAt(s, h);
    var pc := s.threads[t];
    if pc.Ready? && pc.q.Some? {
      var q := pc.q.value;
      Moves(s, t, if q in s.table then Grabbed(q) else FreeQueue(q, true), h);
    }
  }

  lemma PopMessageKeeps(s: State, t: nat, h: Handle)
    requires t < |s.threads| && Inv(s)
    ensures InvAt(Step(s, t, PopMessage), h)
  {
    hide Count;
    assert InvAt(s, h);
    var pc := s.threads[t];
    if pc.Grabbed? && pc.h in s.queues {
      Moves(s, t, if s.queues[pc.h].msgs != [] then Running(pc.h) else Releasing(pc.h, ToReady(None)), h);
    }
  }

  lemma FinishKeeps(s: State, t: nat, h: Handle)
    requires t < |s.threads| && Inv(s)
    ensures InvAt(Step(s, t, Finish), h)
  {
    hide Count;
    assert InvAt(s, h);
    var pc := s.threads[t];
    if pc.Running? { Moves(s, t, Ran(pc.h), h); }
  }

  lemma NextKeeps(s: State, t: nat, h: Handle)
    requires t < |s.threads| && Inv(s)
    ensures InvAt(Step(s, t, Next), h)
  {
    hide Count;
    assert InvAt(s, h);
    var pc := s.threads[t];
    if pc.Ran? {
      Moves(s, t, if s.list == [] then Releasing(pc.h, ToReady(Some(pc.h))) else Swap(pc.h, s.list[0]), h);
      if s.list != [] { PoppedOff(s.list, h); }
    }
  }

  lemma PushBackKeeps(s: State, t: nat, h: Handle)
    requires t < |s.threads| && Inv(s)
    ensures InvAt(Step(s, t, PushBack), h)
  {
    hide Count;
    assert InvAt(s, h);
    var pc := s.threads[t];
    if pc.Swap? {
      Moves(s, t, Releasing(pc.h, ToReady(Some(pc.next))), h);
      PushedOn(s.list, pc.h, h);
    }
  }

  lemma QueueFreeKeeps(s: State, t: nat, h: Handle)
    requires t < |s.threads| && Inv(s)
    ensures InvAt(Step(s, t, QueueFree), h)
  {
    assert InvAt(s, h);
    var pc := s.threads[t];
    if pc.FreeQueue? && pc.h in s.queues {
      if s.queues[pc.h].release { QueueDropKeeps(s, t, pc.h, pc.worker, h); } else { QueueBackKeeps(s, t, pc.h, pc.worker, h); }
    }
  }

  lemma QueueDropKeeps(s: State, t: nat, g: Handle, worker: bool, h: Handle)
    requires t < |s.threads| && InvAt(s, h) && s.threads[t] == FreeQueue(g, worker)
    requires g in s.queues && s.queues[g].release
    ensures InvAt(Goto(s.(queues := s.queues - {g}), t, if worker then Ready(None) else Idle), h)
  {
    hide Count, Weight, Plays;
    FreeQueueWeights(g, worker, h);
    Moves(s, t, if worker then Ready(None) else Idle, h);
  }

  lemma QueueBackKeeps(s: State, t: nat, g: Handle, worker: bool, h: Handle)
    requires t < |s.threads| && InvAt(s, h) && s.threads[t] == FreeQueue(g, worker)
    ensures InvAt(Goto(s.(list := s.list + [g]), t, if worker then Ready(None) else Idle), h)
  {
    hide Count, Weight, Plays;
    FreeQueueWeights(g, worker, h);
    Moves(s, t, if worker then Ready(None) else Idle, h);
    PushedOn(s.list, g, h);
  }

  lemma FreeQueueWeights(g: Handle, worker: bool, h: Handle)
    ensures forall r: Role :: Weight(FreeQueue(g, worker), r, h) == if r == OwnsQueue then One(g == h) else 0
    ensures forall r: Role :: Weight(Ready(None), r, h) == Weight(Idle, r, h) == 0
  {
  }

  lemma SendKeeps(s: State, t: nat, to: Handle, m: int, h: Handle)
    requires t < |s.threads| && Inv(s)
    ensures InvAt(Step(s, t, Send(to, m)), h)
  {
    hide Count;
    assert InvAt(s, h);
    Moves(s, t, Sending(to, m), h);
  }

  lemma PushMessageKeeps(s: State, t: nat, h: Handle)
    requires t < |s.threads| && Inv(s)
    ensures InvAt(Step(s, t, PushMessage), h)
  {
    hide Count, Weight, Plays, Continue;
    assert InvAt(s, h);
    var pc := s.threads[t];
    if pc.Sending? && pc.h in s.queues {
      SendingWeights(pc.h, pc.m, h);
      Moves(s, t, Releasing(pc.h, ToIdle), h);
      PushedOn(s.list, pc.h, h);
    }
  }

  lemma SendingWeights(g: Handle, m: int, h: Handle)
    ensures forall r: Role ::
      Weight(Sending(g, m), r, h) == Weight(Releasing(g, ToIdle), r, h) == if r == HasRef then One(g == h) else 0
  {
  }

  lemma PeekKeeps(s: State, t: nat, of: Handle, h: Handle)
    requires t < |s.threads| && Inv(s)
    ensures InvAt(Step(s, t, Peek(of)), h)
  {
    hide Count;
    assert InvAt(s, h);
    Moves(s, t, Releasing(of, ToIdle), h);
  }

  lemma KillKeeps(s: State, t: nat, who: Handle, h: Handle)
    requires t < |s.threads| && Inv(s)
    ensures InvAt(Step(s, t, Kill(who)), h)
  {
    hide Count;
    assert InvAt(s, h);
    Moves(s, t, Releasing(who, ToIdle), h);
  }

  lemma LaunchKeeps(s: State, t: nat, g: Handle, h: Handle)
    requires t < |s.threads| && Inv(s)
    ensures InvAt(Step(s, t, Launch(g)), h)
  {
    hide Count;
    assert InvAt(s, h);
    Moves(s, t, Launching(g), h);
  }

  lemma LaunchOkKeeps(s: State, t: nat, h: Handle)
    requires t < |s.threads| && Inv(s)
    ensures InvAt(Step(s, t, LaunchOk), h)
  {
    hide Count;
    assert InvAt(s, h);
    var pc := s.threads[t];
    if pc.Launching? {
      Moves(s, t, Releasing(pc.h, ToLaunched), h);
      PushedOn(s.list, pc.h, h);
    }
  }

  lemma ReportKeeps(s: State, t: nat, h: Handle)
    requires t < |s.threads| && Inv(s)
    ensures InvAt(Step(s, t, Report), h)
  {
    hide Count;
    assert InvAt(s, h);
    Moves(s, t, Idle, h);
  }

  lemma LaunchFailKeeps(s: State, t: nat, h: Handle)
    requires t < |s.threads| && Inv(s)
    ensures InvAt(Step(s, t, LaunchFail), h)
  {
    hide Count;
    assert InvAt(s, h);
    var pc := s.threads[t];
    if pc.Launching? { Moves(s, t, Releasing(pc.h, ToForceFree), h); }
  }

  lemma DropFirstKeeps(s: State, t: nat, h: Handle)
    requires t < |s.threads| && Inv(s)
    ensures InvAt(Step(s, t, DropFirst), h)
  {
    hide Count;
    assert InvAt(s, h);
    var pc := s.threads[t];
    if pc.ForceFree? { Moves(s, t, Releasing(pc.h, ToFreeIfGone), h); }
  }

  lemma ReleaseRefKeeps(s: State, t: nat, h: Handle)
    requires t < |s.threads| && Inv(s)
    ensures InvAt(Step(s, t, ReleaseRef), h)
  {
    hide Count, Continue, After, Weight, Plays, InvAt;
    assert InvAt(s, h);
    var pc := s.threads[t];
    if pc.Releasing? && pc.h in s.table {
      if s.table[pc.h] > 1 { OneLessKeeps(s, t, pc.h, pc.k, h); } else { LastRefKeeps(s, t, pc.h, pc.k, h); }
    }
  }

  lemma OneLessKeeps(s: State, t: nat, g: Handle, k: Then, h: Handle)
    requires t < |s.threads| && Inv(s) && s.threads[t] == Releasing(g, k) && g in s.table && s.table[g] > 1
    ensures InvAt(Continue(s.(table := s.table[g := s.table[g] - 1]), t, g, k, true), h)
  {
    hide Count;
    assert InvAt(s, h);
    Moves(s, t, After(g, k, true), h);
  }

  lemma LastRefKeeps(s: State, t: nat, g: Handle, k: Then, h: Handle)
    requires t < |s.threads| && Inv(s) && s.threads[t] == Releasing(g, k) && g in s.table && s.table[g] <= 1
    ensures InvAt(Goto(s.(table := s.table[g := s.table[g] - 1]), t, Removing(g, k)), h)
  {
    hide Count;
    assert InvAt(s, h);
    Moves(s, t, Removing(g, k), h);
  }

  lemma RemoveKeeps(s: State, t: nat, h: Handle)
    requires t < |s.threads| && Inv(s)
    ensures InvAt(Step(s, t, Remove), h)
  {
    hide Count, Continue, After, Weight, Plays;
    assert InvAt(s, h);
    var pc := s.threads[t];
    if pc.Removing? {
      AfterWeights(pc.h, pc.k, h);
      GoneOn(s, t, pc.h, pc.k);
      var gone := pc.h in s.table && s.table[pc.h] <= 0;
      Moves(s, t, if gone then Freeing(pc.h, pc.k) else After(pc.h, pc.k, false), h);
    }
  }

  lemma MarkFreeKeeps(s: State, t: nat, h: Handle)
    requires t < |s.threads| && Inv(s)
    ensures InvAt(Step(s, t, MarkFree), h)
  {
    hide Count, Continue, After, Weight, Plays;
    assert InvAt(s, h);
    var pc := s.threads[t];
    if pc.Freeing? && pc.h in s.queues {
      var q := s.queues[pc.h];
      var s1 := s.(queues := s.queues[pc.h := q.(release := true)], marked := s.marked + {pc.h},
                   list := if q.global then s.list else s.list + [pc.h]);
      GoneOn(s1, t, pc.h, pc.k);
      AfterWeights(pc.h, pc.k, h);
      Moves(s, t, After(pc.h, pc.k, false), h);
      PushedOn(s.list, pc.h, h);
    }
  }

  // --------------------------------------------------------------- every run

  lemma StepKeeps(s: State, t: nat, a: Action)
    requires t < |s.threads| && Inv(s)
    ensures Inv(Step(s, t, a))
  {
    hide InvAt, Step;
    forall h: Handle ensures InvAt(Step(s, t, a), h) {
      match a
      case StartWorker => StartWorkerKeeps(s, t, h);
      case StopWorker => StopWorkerKeeps(s, t, h);
      case PopGlobal => PopGlobalKeeps(s, t, h);
      case Grab => GrabKeeps(s, t, h);
      case PopMessage => PopMessageKeeps(s, t, h);
      case Finish => FinishKeeps(s, t, h);
      case Next => NextKeeps(s, t, h);
      case PushBack => PushBackKeeps(s, t, h);
      case QueueFree => QueueFreeKeeps(s, t, h);
      case Send(to, m) => SendKeeps(s, t, to, m, h);
      case PushMessage => PushMessageKeeps(s, t, h);
      case Peek(of) => PeekKeeps(s, t, of, h);
      case Kill(who) => KillKeeps(s, t, who, h);
      case Launch(g) => LaunchKeeps(s, t, g, h);
      case LaunchOk => LaunchOkKeeps(s, t, h);
      case Report => ReportKeeps(s, t, h);
      case LaunchFail => LaunchFailKeeps(s, t, h);
      case DropFirst => DropFirstKeeps(s, t, h);
      case ReleaseRef => ReleaseRefKeeps(s, t, h);
      case Remove => RemoveKeeps(s, t, h);
      case MarkFree => MarkFreeKeeps(s, t, h);
    }
  }

  function Start(threads: nat): State {
    State(seq(threads, _ => Idle), 1, {}, map[], {}, {}, {}, {}, map[], [], {})
  }

  /** A schedule: which thread moves, and how. */
  type Schedule = seq<(nat, Action)>

  ghost predicate Fits(schedule: Schedule, threads: nat) {
    forall k :: 0 <= k < |schedule| ==> schedule[k].0 < threads
  }

  lemma StepThreads(s: State, t: nat, a: Action)
    requires t < |s.threads|
    ensures |Step(s, t, a).threads| == |s.threads|
  {
  }

  ghost function Run(s: State, schedule: Schedule): State
    requires Fits(schedule, |s.threads|)
    decreases |schedule|
  {
    if schedule == [] then s
    else
      StepThreads(s, schedule[0].0, schedule[0].1);
      Run(Step(s, schedule[0].0, schedule[0].1), schedule[1..])
  }

  lemma {:induction false} RunKeeps(s: State, schedule: Schedule)
    requires Fits(schedule, |s.threads|) && Inv(s)
    ensures Inv(Run(s, schedule))
    decreases |schedule|
  {
    hide Inv, Step;
    if schedule != [] {
      StepThreads(s, schedule[0].0, schedule[0].1);
      StepKeeps(s, schedule[0].0, schedule[0].1);
      RunKeeps(Step(s, schedule[0].0, schedule[0].1), schedule[1..]);
    }
  }

  lemma {:induction false} NobodyCounts(threads: nat, r: Role, h: Handle)
    ensures Count(seq(threads, _ => Idle), r, h) == 0
    decreases threads
  {
    var all := seq<Pc>(threads, _ => Idle);
    if threads > 0 {
      NobodyCounts(threads - 1, r, h);
      assert all[..threads - 1] == seq<Pc>(threads - 1, _ => Idle);
    }
  }

  lemma StartKeeps(threads: nat)
    ensures Inv(Start(threads))
  {
    forall h: Handle ensures InvAt(Start(threads), h) {
      NobodyCounts(threads, HasRef, h);
      NobodyCounts(threads, OwnsQueue, h);
      NobodyCounts(threads, Removes, h);
      NobodyCounts(threads, Frees, h);
      NobodyCounts(threads, Unborn, h);
      NobodyCounts(threads, Failing, h);
    }
  }

  /** The states of all runs of any number of threads. */
  ghost predicate Reachable(s: State) {
    exists threads: nat, schedule: Schedule :: Fits(schedule, threads) && s == Run(Start(threads), schedule)
  }

  lemma ReachableInv(s: State)
    requires Reachable(s)
    ensures Inv(s)
  {
    var threads: nat, schedule: Schedule :| Fits(schedule, threads) && s == Run(Start(threads), schedule);
    StartKeeps(threads);
    RunKeeps(Start(threads), schedule);
  }

  // --------------------------------------------------------- launched services

  /** The thread is past a successful launch and may still use the service for its report. */
  predicate WillReport(pc: Pc, h: Handle) {
    pc == Launched(h) || pc == Releasing(h, ToLaunched) || pc == Removing(h, ToLaunched) || pc == Freeing(h, ToLaunched)
  }

  /** Only launched services are reported, and of those only a kill gives up the first reference. */
  ghost predicate LaunchesOk(s: State) {
    && (forall t, h :: 0 <= t < |s.threads| && WillReport(s.threads[t], h) ==> h in s.launched)
    && (forall h :: h in s.launched ==> (h in s.tokens <==> h !in s.killed))
  }

  lemma StepLaunches(s: State, t: nat, a: Action)
    requires t < |s.threads| && Inv(s) && LaunchesOk(s)
    ensures LaunchesOk(Step(s, t, a))
  {
    hide Inv, InvAt, Step, LaunchesOk;
    if a.LaunchOk? || a.DropFirst? || a.Launch? {
      LaunchLaunches(s, t, a);
    } else if a.ReleaseRef? || a.Remove? || a.MarkFree? {
      ReleaseLaunches(s, t, a);
    } else {
      OtherLaunches(s, t, a);
    }
  }

  lemma LaunchLaunches(s: State, t: nat, a: Action)
    requires t < |s.threads| && Inv(s) && LaunchesOk(s) && (a.LaunchOk? || a.DropFirst? || a.Launch?)
    ensures LaunchesOk(Step(s, t, a))
  {
    hide Count;
    var pc := s.threads[t];
    if a.Launch? {
      assert InvAt(s, a.given);
    } else if pc.Launching? || pc.ForceFree? {
      assert InvAt(s, pc.h);
      CountPositive(s.threads, t, Unborn, pc.h);
    }
  }

  lemma ReleaseLaunches(s: State, t: nat, a: Action)
    requires t < |s.threads| && LaunchesOk(s) && (a.ReleaseRef? || a.Remove? || a.MarkFree?)
    ensures LaunchesOk(Step(s, t, a))
  {
    var pc := s.threads[t];
    assert (pc.Releasing? || pc.Removing? || pc.Freeing?) && pc.k == ToLaunched ==> WillReport(pc, pc.h);
  }

  lemma OtherLaunches(s: State, t: nat, a: Action)
    requires t < |s.threads| && LaunchesOk(s) && !a.LaunchOk? && !a.DropFirst? && !a.Launch?
    requires !a.ReleaseRef? && !a.Remove? && !a.MarkFree?
    ensures LaunchesOk(Step(s, t, a))
  {
  }

  lemma {:induction false} RunLaunches(s: State, schedule: Schedule)
    requires Fits(schedule, |s.threads|) && Inv(s) && LaunchesOk(s)
    ensures LaunchesOk(Run(s, schedule))
    decreases |schedule|
  {
    hide Inv, Step, LaunchesOk;
    if schedule != [] {
      StepThreads(s, schedule[0].0, schedule[0].1);
      StepKeeps(s, schedule[0].0, schedule[0].1);
      StepLaunches(s, schedule[0].0, schedule[0].1);
      RunLaunches(Step(s, schedule[0].0, schedule[0].1), schedule[1..]);
    }
  }

  lemma ReachableLaunches(s: State)
    requires Reachable(s)
    ensures LaunchesOk(s)
  {
    hide Run, Inv;
    var threads: nat, schedule: Schedule :| Fits(schedule, threads) && s == Run(Start(threads), schedule);
    StartKeeps(threads);
    RunLaunches(Start(threads), schedule);
  }

  // -------------------------------------------------------------- main results

  /** A thread has the queue of `h` in its hands. */
  ghost predicate HasQueue(s: State, t: nat, h: Handle) {
    t < |s.threads| && Plays(s.threads[t], OwnsQueue, h)
  }

  /** No two threads ever have the same queue in hand; in particular no two workers run the
      same service at once, and a queue in hand is not in the global list. */
  lemma OneWorkerPerService(s: State, t: nat, u: nat, h: Handle)
    requires Reachable(s) && HasQueue(s, t, h)
    ensures HasQueue(s, u, h) ==> t == u
    ensures h !in s.list
  {
    ReachableInv(s);
    assert InvAt(s, h);
    CountPositive(s.threads, t, OwnsQueue, h);
    if HasQueue(s, u, h) && t != u {
      CountPair(s.threads, if t < u then t else u, if t < u then u else t, OwnsQueue, h);
    }
  }

  /** The global list never holds a queue twice, nor one that has been freed. */
  lemma GlobalListDistinct(s: State, i: nat, j: nat)
    requires Reachable(s) && i < |s.list| && j < |s.list|
    ensures s.list[i] in s.queues
    ensures s.list[i] == s.list[j] ==> i == j
  {
    ReachableInv(s);
    var h := s.list[i];
    assert InvAt(s, h) && multiset(s.list)[h] > 0;
    if i != j && s.list[j] == h {
      TwiceInList(s.list, if i < j then i else j, if i < j then j else i);
    }
  }

  lemma TwiceInList(list: seq<Handle>, i: nat, j: nat)
    requires i < j < |list| && list[i] == list[j]
    ensures multiset(list)[list[i]] >= 2
  {
    assert list == list[..i] + [list[i]] + list[i + 1..j] + [list[j]] + list[j + 1..];
  }

  lemma {:induction false} SomebodyPlays(threads: seq<Pc>, r: Role, h: Handle) returns (t: nat)
    requires Count(threads, r, h) > 0
    ensures t < |threads| && Plays(threads[t], r, h)
    decreases |threads|
  {
    var n := |threads| - 1;
    if Weight(threads[n], r, h) > 0 { t := n; } else { t := SomebodyPlays(threads[..n], r, h); }
  }

  /** A launched service with waiting messages is never idle: its queue is in the global list
      or in the hands of a thread. */
  lemma WaitingMeansScheduled(s: State, h: Handle)
    requires Reachable(s) && h in s.launched && h in s.queues && s.queues[h].msgs != []
    ensures h in s.list || exists t: nat :: HasQueue(s, t, h)
  {
    ReachableInv(s);
    assert InvAt(s, h);
    if h !in s.list {
      var t := SomebodyPlays(s.threads, OwnsQueue, h);
      assert HasQueue(s, t, h);
    }
  }

  /** Messages of a service leave in the order in which they were pushed, none lost. */
  lemma MessagesInOrder(s: State, h: Handle)
    requires Reachable(s) && h in s.queues
    ensures s.queues[h].pushed == s.queues[h].popped + s.queues[h].msgs
  {
    ReachableInv(s);
    assert InvAt(s, h);
  }

  /** A service is freed at most once, by one thread, and never while a reference is out. */
  lemma FreedOnceUnreferenced(s: State, t: nat, u: nat, h: Handle)
    requires Reachable(s) && t < |s.threads| && u < |s.threads| && t != u
    ensures Plays(s.threads[t], HasRef, h) ==>
              h in s.table && s.table[h] >= 1 && h !in s.marked && !Plays(s.threads[u], Frees, h)
    ensures Plays(s.threads[t], Frees, h) ==>
              h !in s.table && h !in s.marked && !Plays(s.threads[u], Frees, h)
  {
    ReachableInv(s);
    assert InvAt(s, h);
    var lo, hi := if t < u then t else u, if t < u then u else t;
    if Plays(s.threads[t], HasRef, h) { CountPositive(s.threads, t, HasRef, h); }
    if Plays(s.threads[t], Frees, h) { CountPositive(s.threads, t, Frees, h); }
    if Plays(s.threads[u], Frees, h) {
      CountPositive(s.threads, u, Frees, h);
      if Plays(s.threads[t], Frees, h) { CountPair(s.threads, lo, hi, Frees, h); }
    }
  }

  /** A reference is out, the first one or one that a thread has, or the service has not been
      removed yet, or a thread is in pixel_free. */
  ghost predicate StillThere(s: State, h: Handle) {
    || h in s.tokens
    || (exists u :: 0 <= u < |s.threads| && Plays(s.threads[u], HasRef, h))
    || (h in s.table && s.table[h] == 0)
    || (exists u :: 0 <= u < |s.threads| && Plays(s.threads[u], Frees, h))
  }

  /** A registered service has been freed exactly when nothing of this is so. */
  lemma FreedIff(s: State, h: Handle)
    requires Inv(s) && h in s.born
    ensures h !in s.marked <==> StillThere(s, h)
  {
    assert InvAt(s, h);
    if StillThere(s, h) {
      if u :| 0 <= u < |s.threads| && Plays(s.threads[u], HasRef, h) { CountPositive(s.threads, u, HasRef, h); }
      if u :| 0 <= u < |s.threads| && Plays(s.threads[u], Frees, h) { CountPositive(s.threads, u, Frees, h); }
    }
    if h !in s.marked {
      if Count(s.threads, Frees, h) > 0 { var u := SomebodyPlays(s.threads, Frees, h); }
      if Count(s.threads, HasRef, h) > 0 { var u := SomebodyPlays(s.threads, HasRef, h); }
    }
  }

  /** The service or queue that the next step of a thread works on exists, so that the tests in
      `Step` that the source does not have never fail, but for two steps of a launch.  A failed one
      gives up the first reference of its service, and that is there if and only if no kill has
      given it up before.  A successful one has given up its only reference when it logs the launch
      and reports the handle; the service is still there if and only if another reference is out or
      its removal has not come to its end, as it is when there was no kill. */
  lemma NothingDangles(s: State, t: nat)
    requires Reachable(s) && t < |s.threads|
    ensures var pc := s.threads[t];
            && (pc.Releasing? ==> pc.h in s.table)
            && (pc.Grabbed? || pc.FreeQueue? || pc.Sending? || pc.Freeing? ==> pc.h in s.queues)
            && (pc.Freeing? ==> !s.queues[pc.h].release)
            && (pc.ForceFree? ==> (pc.h in s.tokens <==> pc.h !in s.killed))
            && (pc.ForceFree? && pc.h in s.tokens ==> pc.h in s.table && s.table[pc.h] >= 1)
            && (pc.Launched? ==> (pc.h !in s.marked <==> StillThere(s, pc.h)))
            && (pc.Launched? && pc.h !in s.killed ==> pc.h in s.tokens && pc.h in s.table && s.table[pc.h] >= 1)
  {
    hide StillThere, Reachable, LaunchesOk;
    ReachableInv(s);
    var pc := s.threads[t];
    if pc.Launched? {
      ReportDangles(s, t);
    } else if !pc.Idle? && !pc.Ready? {
      assert InvAt(s, pc.h);
      if Plays(pc, HasRef, pc.h) { CountPositive(s.threads, t, HasRef, pc.h); }
      if Plays(pc, OwnsQueue, pc.h) { CountPositive(s.threads, t, OwnsQueue, pc.h); }
      if Plays(pc, Frees, pc.h) { CountPositive(s.threads, t, Frees, pc.h); }
      if Plays(pc, Unborn, pc.h) { CountPositive(s.threads, t, Unborn, pc.h); }
    }
  }

  lemma ReportDangles(s: State, t: nat)
    requires Reachable(s) && t < |s.threads| && s.threads[t].Launched?
    ensures var h := s.threads[t].h;
            && (h !in s.marked <==> StillThere(s, h))
            && (h !in s.killed ==> h in s.tokens && h in s.table && s.table[h] >= 1)
  {
    hide StillThere, Reachable, Count;
    ReachableInv(s);
    ReachableLaunches(s);
    var h := s.threads[t].h;
    assert WillReport(s.threads[t], h);
    assert InvAt(s, h);
    FreedIff(s, h);
  }

  /** When all threads have come to rest, every service whose first reference was given up has
      been freed, and the others have exactly that reference; the queue of a freed service is gone
      or waits in the global list to be freed, unless it is one of those that were forgotten. */
  lemma NothingLeaks(s: State, h: Handle)
    requires Reachable(s) && h in s.born
    requires forall t :: 0 <= t < |s.threads| ==> s.threads[t] == Idle
    ensures h in s.marked <==> h !in s.tokens
    ensures h in s.tokens ==> h in s.table && s.table[h] == 1
    ensures h in s.queues && s.queues[h].release ==> (h in s.list <==> h !in s.orphans)
    ensures h in s.orphans ==> h in s.queues && h !in s.list && h !in s.launched
  {
    ReachableInv(s);
    assert InvAt(s, h);
    assert s.threads == seq<Pc>(|s.threads|, _ => Idle);
    NobodyCounts(|s.threads|, HasRef, h);
    NobodyCounts(|s.threads|, OwnsQueue, h);
    NobodyCounts(|s.threads|, Removes, h);
    NobodyCounts(|s.threads|, Frees, h);
  }

  // ----------------------------------------------------------- forgotten queues

  /** The one step that forgets a queue: a failed launch gives up the first reference while
      somebody else still has one. */
  lemma ForgottenIff(s: State, t: nat, a: Action, h: Handle)
    requires t < |s.threads|
    ensures h in s.orphans ==> h in Step(s, t, a).orphans
    ensures h !in s.orphans ==>
      (h in Step(s, t, a).orphans <==>
        a == ReleaseRef && s.threads[t] == Releasing(h, ToFreeIfGone) && h in s.table && s.table[h] > 1)
  {
  }

  /** A forgotten queue is never freed: no thread has it and it is on no list. */
  lemma {:induction false} ForgottenForever(s: State, schedule: Schedule, h: Handle)
    requires Inv(s) && h in s.orphans && Fits(schedule, |s.threads|)
    ensures var v := Run(s, schedule);
            h in v.orphans && h in v.queues && h !in v.list && forall t :: !HasQueue(v, t, h)
    decreases |schedule|
  {
    if schedule == [] {
      assert InvAt(s, h);
      forall t ensures !HasQueue(s, t, h) {
        if HasQueue(s, t, h) { CountPositive(s.threads, t, OwnsQueue, h); }
      }
    } else {
      hide Step, Inv, HasQueue;
      var t, a := schedule[0].0, schedule[0].1;
      StepThreads(s, t, a);
      StepKeeps(s, t, a);
      ForgottenIff(s, t, a, h);
      ForgottenForever(Step(s, t, a), schedule[1..], h);
    }
  }
}
