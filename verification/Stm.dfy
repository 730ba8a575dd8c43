/** Shared snapshots (lualib/lstm.c): one object publishes immutable, reference-counted copies;
    readers keep the copy they read last and recognise a new one by its address.

    A state machine over any number of threads.  The allocator may hand out an address again as
    soon as it has been freed; addresses are all that a reader compares.  `version` numbers the
    publications and does not exist in the source.
 */
module Stm {
  import opened Basics

  type Addr = nat

  /** struct stm_copy; `version` is set when the copy is published. */
  datatype Copy = Copy(ref: int, version: Option<nat>)

  datatype Pc =
    | Rest
    | Made(a: Addr)                                  // stm_update, before the swap
    | Got(c: Option<Addr>, view: Option<nat>)        // lread, after stm_copy
    | Drop(a: Addr)                                  // stm_releasecopy, before the decrement
    | Free(a: Addr)                                  // stm_releasecopy, after it came to zero

  /** `last` is the reader's lastcopy, `seen` the publication it read last. */
  datatype Thread = Thread(pc: Pc, last: Option<Addr>, seen: Option<nat>)

  datatype State = State(heap: map<Addr, Copy>, obj: Option<Addr>, version: nat, threads: seq<Thread>)

  datatype Action =
    | NewCopy(a: Addr)
    | Publish
    | Close
    | StmCopy
    | Compare
    | DeleteReader
    | Decrement
    | Release

  /** What the object offers now. */
  function View(s: State): Option<nat> { if s.obj.Some? then Some(s.version) else None }

  function Go(s: State, t: nat, pc: Pc): State
    requires t < |s.threads|
  {
    s.(threads := s.threads[t := s.threads[t].(pc := pc)])
  }

  function DropIf(c: Option<Addr>): Pc { if c.Some? then Drop(c.value) else Rest }

  /** One step of thread `t`; a step that is not possible changes nothing. */
  function Step(s: State, t: nat, act: Action): State
    requires t < |s.threads|
  {
    var th := s.threads[t];
    match act
    case NewCopy(a) =>
      if th.pc.Rest? && a !in s.heap then Go(s.(heap := s.heap[a := Copy(1, None)]), t, Made(a)) else s
    case Publish =>
      if th.pc.Made? && th.pc.a in s.heap then
        var v := s.version + 1;
        Go(s.(heap := s.heap[th.pc.a := s.heap[th.pc.a].(version := Some(v))], obj := Some(th.pc.a), version := v),
           t, DropIf(s.obj))
      else s
    case Close =>
      if th.pc.Rest? && s.obj.Some? then Go(s.(obj := None), t, Drop(s.obj.value)) else s
    case StmCopy =>
      if !th.pc.Rest? then s
      else if s.obj.Some? && s.obj.value in s.heap then
        var a := s.obj.value;
        Go(s.(heap := s.heap[a := s.heap[a].(ref := s.heap[a].ref + 1)]), t, Got(s.obj, View(s)))
      else if s.obj.None? then Go(s, t, Got(None, None))
      else s
    case Compare =>
      if !th.pc.Got? then s
      else if th.pc.c == th.last then Go(s, t, DropIf(th.pc.c))
      else s.(threads := s.threads[t := Thread(DropIf(th.last), th.pc.c, th.pc.view)])
    case DeleteReader =>
      if th.pc.Rest? then s.(threads := s.threads[t := Thread(DropIf(th.last), None, None)]) else s
    case Decrement =>
      if th.pc.Drop? && th.pc.a in s.heap then
        var a := th.pc.a;
        var c := s.heap[a].(ref := s.heap[a].ref - 1);
        Go(s.(heap := s.heap[a := c]), t, if c.ref == 0 then Free(a) else Rest)
      else s
    case Release =>
      if th.pc.Free? then Go(s.(heap := s.heap - {th.pc.a}), t, Rest) else s
  }

  // ---------------------------------------------------------------- invariant

  function One(b: bool): nat { if b then 1 else 0 }

  /** References to `a` that a thread has. */
  function Holds(th: Thread, a: Addr): nat {
    One(th.last == Some(a)) + One(th.pc == Made(a) || th.pc == Drop(a) || (th.pc.Got? && th.pc.c == Some(a)))
  }

  function Frees(th: Thread, a: Addr): nat { One(th.pc == Free(a)) }

  function Refs(threads: seq<Thread>, a: Addr): nat {
    if threads == [] then 0 else Refs(threads[..|threads| - 1], a) + Holds(threads[|threads| - 1], a)
  }

  function Freeing(threads: seq<Thread>, a: Addr): nat {
    if threads == [] then 0 else Freeing(threads[..|threads| - 1], a) + Frees(threads[|threads| - 1], a)
  }

  lemma {:induction false} Recount(threads: seq<Thread>, t: nat, th: Thread, a: Addr)
    requires t < |threads|
    ensures Refs(threads[t := th], a) == Refs(threads, a) - Holds(threads[t], a) + Holds(th, a)
    ensures Freeing(threads[t := th], a) == Freeing(threads, a) - Frees(threads[t], a) + Frees(th, a)
    ensures Refs(threads, a) >= Holds(threads[t], a) && Freeing(threads, a) >= Frees(threads[t], a)
    decreases |threads|
  {
    var n := |threads| - 1;
    if t < n {
      Recount(threads[..n], t, th, a);
      assert threads[t := th][..n] == threads[..n][t := th];
    } else {
      assert threads[t := th][..n] == threads[..n];
    }
  }

  /** The count of a copy is the object's link plus the references of the threads; it is zero
      exactly while one thread is freeing the copy. */
  ghost predicate CountAt(s: State, a: Addr) {
    && (if a in s.heap then s.heap[a].ref == One(s.obj == Some(a)) + Refs(s.threads, a)
        else s.obj != Some(a) && Refs(s.threads, a) == 0)
    && Freeing(s.threads, a) == One(a in s.heap && s.heap[a].ref == 0)
  }

  ghost predicate Counts(s: State) {
    forall a: Addr :: CountAt(s, a)
  }

  /** Published copies carry different publication numbers; an unpublished one has only the
      reference of its maker. */
  ghost predicate Versions(s: State) {
    && (forall a :: a in s.heap && s.heap[a].version.None? ==> s.heap[a].ref == 1)
    && (forall a :: a in s.heap && s.heap[a].version.Some? ==> s.heap[a].version.value <= s.version)
    && (forall a, b :: a in s.heap && b in s.heap && s.heap[a].version.Some? && s.heap[a].version == s.heap[b].version ==> a == b)
    && (s.obj.Some? ==> s.obj.value in s.heap && s.heap[s.obj.value].version == Some(s.version))
  }

  ghost predicate Knows(s: State, c: Option<Addr>, v: Option<nat>) {
    if c.None? then v.None? else c.value in s.heap && v.Some? && s.heap[c.value].version == v
  }

  ghost predicate ThreadOk(s: State, th: Thread) {
    && Knows(s, th.last, th.seen)
    && (th.pc.Got? ==> Knows(s, th.pc.c, th.pc.view))
    && (th.pc.Drop? ==> th.pc.a in s.heap && s.heap[th.pc.a].version.Some?)
    && (th.pc.Made? ==> th.pc.a in s.heap && s.heap[th.pc.a].version.None?)
  }

  ghost predicate Inv(s: State) {
    Counts(s) && Versions(s) && forall t :: 0 <= t < |s.threads| ==> ThreadOk(s, s.threads[t])
  }

  // ------------------------------------------------------------- preservation

  lemma StepCounts(s: State, t: nat, act: Action)
    requires t < |s.threads| && Inv(s)
    ensures Counts(Step(s, t, act))
  {
    hide Refs, Freeing;
    var s' := Step(s, t, act);
    assert s'.threads == s.threads[t := s'.threads[t]];
    forall a: Addr ensures CountAt(s', a) {
      assert CountAt(s, a);
      Recount(s.threads, t, s'.threads[t], a);
    }
  }

  /** A thread's references point at live copies that nobody is freeing. */
  lemma HeldIsLive(s: State, t: nat, a: Addr)
    requires t < |s.threads| && Counts(s) && Holds(s.threads[t], a) > 0
    ensures a in s.heap && s.heap[a].ref > 0 && Freeing(s.threads, a) == 0
  {
    hide Refs, Freeing;
    assert CountAt(s, a);
    Recount(s.threads, t, s.threads[t], a);
  }

  /** Freeing a copy takes away nothing that anybody knows. */
  lemma FreeIsUnheld(s: State, t: nat, u: nat)
    requires t < |s.threads| && u < |s.threads| && Counts(s) && s.threads[t].pc.Free?
    ensures var a := s.threads[t].pc.a;
            s.obj != Some(a) && Holds(s.threads[u], a) == 0
  {
    hide Refs, Freeing;
    var a := s.threads[t].pc.a;
    assert CountAt(s, a);
    Recount(s.threads, t, s.threads[t], a);
    Recount(s.threads, u, s.threads[u], a);
  }

  lemma {:induction false} TwoHold(threads: seq<Thread>, t: nat, u: nat, a: Addr)
    requires t < |threads| && u < |threads| && t != u
    ensures Refs(threads, a) >= Holds(threads[t], a) + Holds(threads[u], a)
    decreases |threads|
  {
    var n := |threads| - 1;
    if t < n && u < n {
      TwoHold(threads[..n], t, u, a);
    } else {
      Recount(threads[..n], if t < n then t else u, threads[0], a);
    }
  }

  /** Nobody else has a copy that is not published yet. */
  lemma UnpublishedIsPrivate(s: State, t: nat, u: nat, a: Addr)
    requires Inv(s) && t < |s.threads| && u < |s.threads| && t != u
    requires a in s.heap && s.heap[a].version.None? && Holds(s.threads[t], a) > 0
    ensures Holds(s.threads[u], a) == 0
  {
    hide Refs, Freeing;
    assert CountAt(s, a);
    TwoHold(s.threads, t, u, a);
  }

  lemma StepVersions(s: State, t: nat, act: Action)
    requires t < |s.threads| && Inv(s)
    ensures Versions(Step(s, t, act))
  {
    hide Refs, Freeing, Counts;
    var th := s.threads[t];
    assert ThreadOk(s, th);
    if th.pc.Free? { FreeIsUnheld(s, t, t); }
    if th.pc.Drop? { DropsPublished(s, t); }
  }

  /** Only published copies are dropped. */
  lemma DropsPublished(s: State, t: nat)
    requires t < |s.threads| && Inv(s) && s.threads[t].pc.Drop?
    ensures s.threads[t].pc.a in s.heap && s.heap[s.threads[t].pc.a].version.Some?
  {
    assert ThreadOk(s, s.threads[t]);
  }

  lemma StepThreads(s: State, t: nat, act: Action, u: nat)
    requires t < |s.threads| && u < |s.threads| && Inv(s)
    ensures ThreadOk(Step(s, t, act), Step(s, t, act).threads[u])
  {
    hide Refs, Freeing, Counts;
    var th := s.threads[t];
    assert ThreadOk(s, s.threads[u]) && ThreadOk(s, th);
    if th.pc.Free? { FreeIsUnheld(s, t, u); }
    if th.pc.Made? && t != u { UnpublishedIsPrivate(s, t, u, th.pc.a); }
  }

  lemma StepKeeps(s: State, t: nat, act: Action)
    requires t < |s.threads| && Inv(s)
    ensures Inv(Step(s, t, act)) && |Step(s, t, act).threads| == |s.threads|
  {
    StepCounts(s, t, act);
    StepVersions(s, t, act);
    forall u | 0 <= u < |s.threads| ensures ThreadOk(Step(s, t, act), Step(s, t, act).threads[u]) {
      StepThreads(s, t, act, u);
    }
  }

  // ---------------------------------------------------------------- every run

  function Start(threads: nat, a: Addr): State {
    State(map[a := Copy(1, Some(0))], Some(a), 0, seq(threads, _ => Thread(Rest, None, None)))
  }

  type Schedule = seq<(nat, Action)>

  ghost predicate Fits(schedule: Schedule, threads: nat) {
    forall k :: 0 <= k < |schedule| ==> schedule[k].0 < threads
  }

  ghost function Run(s: State, schedule: Schedule): State
    requires Fits(schedule, |s.threads|)
    decreases |schedule|
  {
    if schedule == [] then s
    else
      assert |Step(s, schedule[0].0, schedule[0].1).threads| == |s.threads|;
      Run(Step(s, schedule[0].0, schedule[0].1), schedule[1..])
  }

  lemma {:induction false} RunKeeps(s: State, schedule: Schedule)
    requires Fits(schedule, |s.threads|) && Inv(s)
    ensures Inv(Run(s, schedule))
    decreases |schedule|
  {
    hide Inv, Step;
    if schedule != [] {
      StepKeeps(s, schedule[0].0, schedule[0].1);
      RunKeeps(Step(s, schedule[0].0, schedule[0].1), schedule[1..]);
    }
  }

  lemma {:induction false} NobodyHolds(threads: nat, a: Addr)
    ensures Refs(seq(threads, _ => Thread(Rest, None, None)), a) == 0
    ensures Freeing(seq(threads, _ => Thread(Rest, None, None)), a) == 0
    decreases threads
  {
    var all := seq<Thread>(threads, _ => Thread(Rest, None, None));
    if threads > 0 {
      NobodyHolds(threads - 1, a);
      assert all[..threads - 1] == seq<Thread>(threads - 1, _ => Thread(Rest, None, None));
    }
  }

  ghost predicate Reachable(s: State) {
    exists threads: nat, a: Addr, schedule: Schedule :: Fits(schedule, threads) && s == Run(Start(threads, a), schedule)
  }

  lemma ReachableInv(s: State)
    requires Reachable(s)
    ensures Inv(s)
  {
    var threads: nat, a: Addr, schedule: Schedule :| Fits(schedule, threads) && s == Run(Start(threads, a), schedule);
    StartKeeps(threads, a);
    RunKeeps(Start(threads, a), schedule);
  }

  lemma StartKeeps(threads: nat, a: Addr)
    ensures Inv(Start(threads, a))
  {
    forall b: Addr ensures CountAt(Start(threads, a), b) {
      NobodyHolds(threads, b);
    }
  }

  // -------------------------------------------------------------- main results

  /** In every run, the reference count of a copy is the object's link plus all references of
      threads; whoever has one finds the copy alive, and nobody is freeing it. */
  lemma HeldCopiesStay(s: State, t: nat, a: Addr)
    requires Reachable(s) && t < |s.threads|
    ensures a in s.heap ==> s.heap[a].ref == One(s.obj == Some(a)) + Refs(s.threads, a)
    ensures Holds(s.threads[t], a) > 0 ==> a in s.heap && s.heap[a].ref > 0 && Freeing(s.threads, a) == 0
    ensures s.obj == Some(a) ==> a in s.heap && s.heap[a].ref > 0 && Freeing(s.threads, a) == 0
  {
    ReachableInv(s);
    assert CountAt(s, a);
    if Holds(s.threads[t], a) > 0 { HeldIsLive(s, t, a); }
  }

  lemma {:induction false} FreeingPair(threads: seq<Thread>, t: nat, u: nat, a: Addr)
    requires t < |threads| && u < |threads| && t != u
    ensures Freeing(threads, a) >= Frees(threads[t], a) + Frees(threads[u], a)
    decreases |threads|
  {
    var n := |threads| - 1;
    if t < n && u < n {
      FreeingPair(threads[..n], t, u, a);
    } else {
      Recount(threads[..n], if t < n then t else u, threads[0], a);
    }
  }

  /** In every run, a copy is freed by one thread only, once nobody has it. */
  lemma FreedOnce(s: State, t: nat, u: nat)
    requires Reachable(s) && t < |s.threads| && u < |s.threads| && s.threads[t].pc.Free?
    ensures var a := s.threads[t].pc.a;
            && a in s.heap && s.heap[a].ref == 0 && s.obj != Some(a)
            && Holds(s.threads[u], a) == 0
            && (s.threads[u].pc == Free(a) ==> t == u)
  {
    ReachableInv(s);
    var a := s.threads[t].pc.a;
    assert CountAt(s, a);
    Recount(s.threads, t, s.threads[t], a);
    Recount(s.threads, u, s.threads[u], a);
    if t != u { FreeingPair(s.threads, t, u, a); }
  }

  /** In every run, the address test of lread is right: it finds the copy it had exactly when
      the object offers what this reader has read last, whatever addresses were handed out
      again in between. */
  lemma AddressTestIsRight(s: State, t: nat)
    requires Reachable(s) && t < |s.threads| && s.threads[t].pc.Got?
    ensures s.threads[t].pc.c == s.threads[t].last <==> s.threads[t].pc.view == s.threads[t].seen
  {
    ReachableInv(s);
    assert ThreadOk(s, s.threads[t]);
  }

  /** When all threads are at rest, the live copies are the object's and the readers'. */
  lemma NothingLeaks(s: State, a: Addr)
    requires Reachable(s) && a in s.heap && s.obj != Some(a)
    requires forall t :: 0 <= t < |s.threads| ==> s.threads[t].pc.Rest?
    ensures exists t :: 0 <= t < |s.threads| && s.threads[t].last == Some(a)
  {
    ReachableInv(s);
    assert CountAt(s, a);
    if s.heap[a].ref == 0 {
      var t := SomeFreeing(s.threads, a);
    } else {
      var t := SomeHolds(s.threads, a);
    }
  }

  lemma {:induction false} SomeFreeing(threads: seq<Thread>, a: Addr) returns (t: nat)
    requires Freeing(threads, a) > 0
    ensures t < |threads| && threads[t].pc == Free(a)
    decreases |threads|
  {
    t := |threads| - 1;
    if Frees(threads[t], a) == 0 { t := SomeFreeing(threads[..t], a); }
  }

  lemma {:induction false} SomeHolds(threads: seq<Thread>, a: Addr) returns (t: nat)
    requires Refs(threads, a) > 0
    ensures t < |threads| && Holds(threads[t], a) > 0
    decreases |threads|
  {
    t := |threads| - 1;
    if Holds(threads[t], a) == 0 { t := SomeHolds(threads[..t], a); }
  }
}
