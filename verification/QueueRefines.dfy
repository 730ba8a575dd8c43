/** The rings and the list of src/queue.c are the queues and the list of the scheduler: every critical
    section on them, growth included, is a step of Scheduler.dfy.  So in every run a service's ring
    holds what has been pushed and not yet popped, in order, and the links of the list, which are in
    the queues themselves, are those of the queues that wait for a worker.
 */
module QueueRefines {
  import opened Basics
  import S = Scheduler
  import R = SchedulerRuns
  import W = SchedulerMessages
  import M = MessageQueue

  ghost predicate Shows(q: M.Queue, m: S.Queue)
    reads q`cap, q`head, q`tail, q`mqueue, q`overloadThreshold, q`inGlobal, q`release, q.mqueue
  {
    q.Valid() && q.Contents() == m.msgs && q.inGlobal == m.global && q.release == m.release
  }

  // -------------------------------------------------------------------- one ring

  method PushMessage(q: M.Queue, m: int, ghost s: S.State, ghost t: nat) returns (schedule: bool)
    requires t < |s.threads| && s.threads[t] == S.Sending(q.handle, m) && q.handle in s.queues
    requires Shows(q, s.queues[q.handle])
    modifies q`cap, q`head, q`tail, q`mqueue, q`inGlobal, q.mqueue
    ensures var v := S.Step(s, t, S.PushMessage);
            && q.handle in v.queues && Shows(q, v.queues[q.handle])
            && v.list == if schedule then s.list + [q.handle] else s.list
    ensures q.mqueue == old(q.mqueue) || fresh(q.mqueue)
    ensures schedule == !s.queues[q.handle].global
  {
    schedule := q.Push(m);
  }

  method PopMessage(q: M.Queue, ghost s: S.State, ghost t: nat) returns (m: Option<int>)
    requires t < |s.threads| && s.threads[t] == S.Grabbed(q.handle) && q.handle in s.queues
    requires Shows(q, s.queues[q.handle])
    modifies q`head, q`overload, q`overloadThreshold, q`inGlobal
    ensures var v := S.Step(s, t, S.PopMessage);
            && q.handle in v.queues && Shows(q, v.queues[q.handle]) && v.list == s.list
            && (m.Some? <==> v.threads[t] == S.Running(q.handle))
            && (m.Some? ==> v.queues[q.handle].popped == s.queues[q.handle].popped + [m.value])
  {
    m := q.Pop();
  }

  method MarkFree(q: M.Queue, ghost s: S.State, ghost t: nat) returns (schedule: bool)
    requires t < |s.threads| && s.threads[t].Freeing? && s.threads[t].h == q.handle && q.handle in s.queues
    requires Shows(q, s.queues[q.handle]) && !s.queues[q.handle].release
    modifies q`release
    ensures var v := S.Step(s, t, S.MarkFree);
            && q.handle in v.queues && Shows(q, v.queues[q.handle])
            && v.list == if schedule then s.list + [q.handle] else s.list
    ensures schedule == !s.queues[q.handle].global
  {
    schedule := q.MarkFree();
  }

  // ---------------------------------------------------------------- all the rings

  /** Every queue has a ring of its own that shows it. */
  ghost predicate AllShow(rings: map<nat, M.Queue>, queues: map<nat, S.Queue>)
    reads rings.Values`cap, rings.Values`head, rings.Values`tail, rings.Values`mqueue, rings.Values`overloadThreshold
    reads rings.Values`inGlobal, rings.Values`release, Arrays(rings)
  {
    && rings.Keys == queues.Keys
    && (forall h :: h in rings ==> rings[h].handle == h && Shows(rings[h], queues[h]))
    && (forall g, h :: g in rings && h in rings && g != h ==> rings[g].mqueue != rings[h].mqueue)
  }

  ghost function Arrays(rings: map<nat, M.Queue>): set<array<M.Message>>
    reads rings.Values`mqueue
  {
    set h | h in rings :: rings[h].mqueue
  }

  /** The list is linked through the rings of its handles, and no other ring has a link. */
  ghost predicate Links(g: M.GlobalList, rings: map<nat, M.Queue>, list: seq<nat>)
    reads g, g.queues`next, rings.Values`next
  {
    && g.Valid() && |g.queues| == |list|
    && (forall i :: 0 <= i < |list| ==> list[i] in rings && g.queues[i] == rings[list[i]])
    && (forall h :: h in rings && h !in list ==> rings[h].next == null)
  }

  /** What the state machine needs for the operations on queues. */
  lemma InHand(s: S.State, t: nat, h: nat)
    requires S.Inv(s) && t < |s.threads| && S.Plays(s.threads[t], S.OwnsQueue, h)
    ensures h in s.queues && h !in s.list
  {
    assert S.InvAt(s, h);
    S.CountPositive(s.threads, t, S.OwnsQueue, h);
  }

  lemma InUse(s: S.State, t: nat, h: nat)
    requires S.Inv(s) && t < |s.threads| && (S.Plays(s.threads[t], S.HasRef, h) || S.Plays(s.threads[t], S.Frees, h))
    ensures h in s.queues && !s.queues[h].release && (h in s.list ==> s.queues[h].global)
  {
    assert S.InvAt(s, h);
    if S.Plays(s.threads[t], S.HasRef, h) { S.CountPositive(s.threads, t, S.HasRef, h); }
    if S.Plays(s.threads[t], S.Frees, h) { S.CountPositive(s.threads, t, S.Frees, h); }
  }

  lemma NotYet(s: S.State, h: nat)
    requires S.Inv(s) && h >= s.issued
    ensures h !in s.queues
  {
    assert S.InvAt(s, h);
  }

  method Link(g: M.GlobalList, ghost rings: map<nat, M.Queue>, q: M.Queue, ghost queues: map<nat, S.Queue>, ghost list: seq<nat>, ghost h: nat)
    requires AllShow(rings, queues) && Links(g, rings, list) && h in rings && h !in list && q == rings[h]
    modifies g, g.queues`next
    ensures AllShow(rings, queues) && Links(g, rings, list + [h])
  {
    hide Shows;
    forall i | 0 <= i < |g.queues| ensures g.queues[i] != q {
      assert list[i] in rings && g.queues[i].handle == list[i];
    }
    g.Push(q);
  }

  method Unlink(g: M.GlobalList, ghost rings: map<nat, M.Queue>, ghost queues: map<nat, S.Queue>, ghost list: seq<nat>) returns (q: M.Queue)
    requires AllShow(rings, queues) && Links(g, rings, list) && list != []
    modifies g, g.queues`next
    ensures AllShow(rings, queues) && Links(g, rings, list[1..]) && list[0] in rings && q == rings[list[0]]
  {
    hide Shows;
    forall h, i | h in rings && h !in list && 0 <= i < |g.queues| ensures g.queues[i] != rings[h] {
      assert list[i] in rings && g.queues[i].handle == list[i];
    }
    q := g.Pop();
  }

  ghost predicate Mirrors(g: M.GlobalList, rings: map<nat, M.Queue>, s: S.State)
    reads g, g.queues, rings.Values, Arrays(rings)
  {
    AllShow(rings, s.queues) && Links(g, rings, s.list)
  }

  lemma RingOf(rings: map<nat, M.Queue>, queues: map<nat, S.Queue>, h: nat)
    requires AllShow(rings, queues) && h in queues
    ensures h in rings && rings[h].handle == h && Shows(rings[h], queues[h])
    ensures rings[h] in rings.Values && rings[h].mqueue in Arrays(rings)
    ensures forall i :: i in rings && i != h ==> rings[i] != rings[h] && rings[i].mqueue != rings[h].mqueue
    ensures forall i :: i in rings ==> rings[i].handle == i
  {
  }

  lemma PushStep(s: S.State, t: nat, h: nat, m: int)
    requires t < |s.threads| && s.threads[t] == S.Sending(h, m) && h in s.queues
    ensures var v := S.Step(s, t, S.PushMessage);
            h in v.queues && v.queues == s.queues[h := v.queues[h]] && (v.list == s.list || v.list == s.list + [h])
  {
  }

  method PushRing(rings: map<nat, M.Queue>, m: int, h: nat, ghost s: S.State, ghost t: nat) returns (schedule: bool)
    requires t < |s.threads| && s.threads[t] == S.Sending(h, m) && h in s.queues && h in rings && AllShow(rings, s.queues)
    modifies rings.Values`cap, rings.Values`head, rings.Values`tail, rings.Values`mqueue, rings.Values`inGlobal, rings[h].mqueue
    ensures AllShow(rings, S.Step(s, t, S.PushMessage).queues)
    ensures S.Step(s, t, S.PushMessage).list == if schedule then s.list + [h] else s.list
    ensures schedule == !s.queues[h].global
    ensures forall i :: i in rings ==> rings[i].mqueue == old(rings[i].mqueue) || fresh(rings[i].mqueue)
  {
    hide Shows, S.Step;
    RingOf(rings, s.queues, h);
    PushStep(s, t, h, m);
    var q := rings[h];
    schedule := PushMessage(q, m, s, t);
    forall i | i in rings && i != h ensures Shows(rings[i], s.queues[i]) {
      assert old(Shows(rings[i], s.queues[i]));
    }
  }

  method PopRing(rings: map<nat, M.Queue>, h: nat, ghost s: S.State, ghost t: nat) returns (m: Option<int>)
    requires t < |s.threads| && s.threads[t] == S.Grabbed(h) && h in s.queues && AllShow(rings, s.queues)
    modifies rings.Values`head, rings.Values`overload, rings.Values`overloadThreshold, rings.Values`inGlobal
    ensures AllShow(rings, S.Step(s, t, S.PopMessage).queues)
    ensures m == if s.queues[h].msgs == [] then None else Some(s.queues[h].msgs[0])
  {
    hide Shows, S.Step;
    RingOf(rings, s.queues, h);
    PopStep(s, t, h);
    var q := rings[h];
    m := PopMessage(q, s, t);
    if m.Some? { SameLast(s.queues[h].popped, m.value, s.queues[h].msgs[0]); }
    forall i | i in rings && i != h ensures Shows(rings[i], s.queues[i]) {
      assert old(Shows(rings[i], s.queues[i]));
    }
  }

  lemma SameLast(a: seq<int>, x: int, y: int)
    ensures a + [x] == a + [y] ==> x == y
  {
    assert (a + [x])[|a|] == x && (a + [y])[|a|] == y;
  }

  lemma PopStep(s: S.State, t: nat, h: nat)
    requires t < |s.threads| && s.threads[t] == S.Grabbed(h) && h in s.queues
    ensures var v := S.Step(s, t, S.PopMessage);
            && h in v.queues && v.queues == s.queues[h := v.queues[h]] && v.list == s.list && |v.threads| == |s.threads|
            && (v.threads[t] == S.Running(h) <==> s.queues[h].msgs != [])
            && (s.queues[h].msgs != [] ==> v.queues[h].popped == s.queues[h].popped + [s.queues[h].msgs[0]])
  {
  }

  method FreeRing(rings: map<nat, M.Queue>, h: nat, ghost s: S.State, ghost t: nat) returns (schedule: bool)
    requires t < |s.threads| && s.threads[t].Freeing? && s.threads[t].h == h && h in s.queues && AllShow(rings, s.queues)
    requires !s.queues[h].release
    modifies rings.Values`release
    ensures AllShow(rings, S.Step(s, t, S.MarkFree).queues)
    ensures S.Step(s, t, S.MarkFree).list == if schedule then s.list + [h] else s.list
    ensures schedule == !s.queues[h].global
  {
    hide Shows, S.Step;
    RingOf(rings, s.queues, h);
    FreeStep(s, t, h);
    var q := rings[h];
    schedule := MarkFree(q, s, t);
    forall i | i in rings && i != h ensures Shows(rings[i], s.queues[i]) {
      assert old(Shows(rings[i], s.queues[i]));
    }
  }

  lemma FreeStep(s: S.State, t: nat, h: nat)
    requires t < |s.threads| && s.threads[t].Freeing? && s.threads[t].h == h && h in s.queues
    ensures var v := S.Step(s, t, S.MarkFree);
            h in v.queues && v.queues == s.queues[h := v.queues[h]] && (v.list == s.list || v.list == s.list + [h])
  {
  }

  // ------------------------------------------------------------------- every step

  lemma LinkedRings(g: M.GlobalList, rings: map<nat, M.Queue>, list: seq<nat>)
    requires Links(g, rings, list)
    ensures forall q :: q in g.queues ==> q in rings.Values
  {
  }

  /** A push: the ring, and the list if the queue was idle. */
  method Push(g: M.GlobalList, rings: map<nat, M.Queue>, m: int, h: nat, ghost s: S.State, ghost t: nat)
    requires t < |s.threads| && s.threads[t] == S.Sending(h, m) && Mirrors(g, rings, s)
    requires h in s.queues && (h in s.list ==> s.queues[h].global)
    modifies g, rings.Values, Arrays(rings)
    ensures Mirrors(g, rings, S.Step(s, t, S.PushMessage))
    ensures forall i :: i in rings ==> rings[i].mqueue == old(rings[i].mqueue) || fresh(rings[i].mqueue)
  {
    hide AllShow, Links, S.Step;
    RingOf(rings, s.queues, h);
    var schedule := PushRing(rings, m, h, s, t);
    LinkedRings(g, rings, s.list);
    if schedule {
      Link(g, rings, rings[h], S.Step(s, t, S.PushMessage).queues, s.list, h);
    }
  }

  method Free(g: M.GlobalList, rings: map<nat, M.Queue>, h: nat, ghost s: S.State, ghost t: nat)
    requires t < |s.threads| && s.threads[t].Freeing? && s.threads[t].h == h && Mirrors(g, rings, s)
    requires h in s.queues && !s.queues[h].release && (h in s.list ==> s.queues[h].global)
    modifies g, rings.Values
    ensures Mirrors(g, rings, S.Step(s, t, S.MarkFree))
    ensures forall i :: i in rings ==> rings[i].mqueue == old(rings[i].mqueue)
  {
    hide AllShow, Links, S.Step;
    RingOf(rings, s.queues, h);
    var schedule := FreeRing(rings, h, s, t);
    LinkedRings(g, rings, s.list);
    if schedule {
      Link(g, rings, rings[h], S.Step(s, t, S.MarkFree).queues, s.list, h);
    }
  }

  /** What the operations of src/pixel.c on queues come to, by thread state. */
  predicate Takes(s: S.State, t: nat, a: S.Action)
    requires t < |s.threads|
  {
    var pc := s.threads[t];
    s.list != [] && ((a.PopGlobal? && pc == S.Ready(None)) || (a.Next? && pc.Ran?))
  }

  predicate Gives(s: S.State, t: nat, a: S.Action, h: nat)
    requires t < |s.threads|
  {
    var pc := s.threads[t];
    || (a.PushBack? && pc.Swap? && pc.h == h)
    || (a.LaunchOk? && pc.Launching? && pc.h == h)
    || (a.QueueFree? && pc.FreeQueue? && pc.h == h && h in s.queues && !s.queues[h].release)
  }

  method Take(g: M.GlobalList, rings: map<nat, M.Queue>, s: S.State, t: nat, a: S.Action)
    requires t < |s.threads| && Takes(s, t, a) && Mirrors(g, rings, s)
    modifies g, rings.Values`next
    ensures Mirrors(g, rings, S.Step(s, t, a))
  {
    hide AllShow, Links;
    LinkedRings(g, rings, s.list);
    var q := Unlink(g, rings, s.queues, s.list);
  }

  method Give(g: M.GlobalList, rings: map<nat, M.Queue>, h: nat, s: S.State, t: nat, a: S.Action)
    requires t < |s.threads| && Gives(s, t, a, h) && Mirrors(g, rings, s) && h in s.queues && h !in s.list
    modifies g, rings.Values`next
    ensures Mirrors(g, rings, S.Step(s, t, a))
  {
    hide AllShow, Links;
    LinkedRings(g, rings, s.list);
    RingOf(rings, s.queues, h);
    Link(g, rings, rings[h], s.queues, s.list, h);
  }

  method NewRing(h: nat) returns (q: M.Queue)
    ensures Shows(q, S.Queue([], true, false, [], [])) && q.handle == h && q.next == null && fresh(q) && fresh(q.mqueue)
  {
    q := new M.Queue(h);
  }

  method Launch(g: M.GlobalList, rings: map<nat, M.Queue>, h: nat, s: S.State, t: nat) returns (more: map<nat, M.Queue>)
    requires t < |s.threads| && s.threads[t].Idle? && h >= s.issued && h !in s.queues && Mirrors(g, rings, s)
    ensures Mirrors(g, more, S.Step(s, t, S.Launch(h)))
    ensures h in more && fresh(more[h]) && fresh(more[h].mqueue) && more == rings[h := more[h]]
  {
    hide Shows;
    var q := NewRing(h);
    more := rings[h := q];
    forall i | i in rings ensures i in more && more[i] == rings[i] && Shows(more[i], s.queues[i]) {
      assert old(Shows(rings[i], s.queues[i]));
    }
  }

  lemma WithoutRing(g: M.GlobalList, rings: map<nat, M.Queue>, queues: map<nat, S.Queue>, list: seq<nat>, h: nat)
    requires AllShow(rings, queues) && Links(g, rings, list) && h in rings && h !in list
    ensures AllShow(rings - {h}, queues - {h}) && Links(g, rings - {h}, list)
    ensures rings[h] !in (rings - {h}).Values
  {
    hide Shows;
  }

  lemma Waiting(q: M.Queue, m: S.Queue)
    requires Shows(q, m)
    ensures q.Valid() && q.Contents() == m.msgs
  {
  }

  /** A released queue is emptied and freed. */
  method Release(g: M.GlobalList, rings: map<nat, M.Queue>, h: nat, s: S.State, t: nat) returns (more: map<nat, M.Queue>, dropped: seq<int>)
    requires t < |s.threads| && s.threads[t].FreeQueue? && s.threads[t].h == h && h in s.queues && s.queues[h].release
    requires h !in s.list && Mirrors(g, rings, s)
    modifies rings.Values`head, rings.Values`overload, rings.Values`overloadThreshold, rings.Values`inGlobal
    ensures Mirrors(g, more, S.Step(s, t, S.QueueFree)) && more == rings - {h} && dropped == s.queues[h].msgs
  {
    hide Shows, Links;
    RingOf(rings, s.queues, h);
    var q := rings[h];
    more := rings - {h};
    WithoutRing(g, rings, s.queues, s.list, h);
    Waiting(q, s.queues[h]);
    dropped := q.Drop();
    forall i | i in more ensures Shows(more[i], s.queues[i]) {
      assert old(Shows(rings[i], s.queues[i]));
    }
  }

  /** The other steps touch no queue. */
  lemma Quiet(s: S.State, t: nat, a: S.Action)
    requires t < |s.threads| && !a.PushMessage? && !a.PopMessage? && !a.MarkFree? && !a.Launch? && !Takes(s, t, a)
    requires var pc := s.threads[t];
             !((a.PushBack? && pc.Swap?) || (a.LaunchOk? && pc.Launching?) || (a.QueueFree? && pc.FreeQueue? && pc.h in s.queues))
    ensures S.Step(s, t, a).queues == s.queues && S.Step(s, t, a).list == s.list
  {
  }

  /** The message that a step hands to a callback. */
  function Handed(s: S.State, t: nat, a: S.Action): Option<int>
    requires t < |s.threads|
  {
    var pc := s.threads[t];
    if a.PopMessage? && pc.Grabbed? && pc.h in s.queues && s.queues[pc.h].msgs != [] then Some(s.queues[pc.h].msgs[0]) else None
  }

  function HandedTo(got: seq<(nat, int)>, h: nat): seq<int> {
    if got == [] then []
    else HandedTo(got[..|got| - 1], h) + if got[|got| - 1].0 == h then [got[|got| - 1].1] else []
  }

  lemma HandedOne(got: seq<(nat, int)>, h: nat, m: int, g: nat)
    ensures HandedTo(got + [(h, m)], g) == HandedTo(got, g) + if g == h then [m] else []
  {
    assert (got + [(h, m)])[..|got|] == got;
  }

  lemma {:induction false} HandedNone(got: seq<(nat, int)>, h: nat)
    requires forall i :: 0 <= i < |got| ==> got[i].0 != h
    ensures HandedTo(got, h) == []
    decreases |got|
  {
    if got != [] { HandedNone(got[..|got| - 1], h); }
  }

  /** What has been handed to callbacks is what the state says to have been popped. */
  ghost predicate Recorded(got: seq<(nat, int)>, s: S.State) {
    && (forall i :: 0 <= i < |got| ==> got[i].0 < s.issued)
    && (forall h :: h in s.queues ==> HandedTo(got, h) == s.queues[h].popped)
  }

  lemma StepRecords(got: seq<(nat, int)>, s: S.State, t: nat, a: S.Action)
    requires t < |s.threads| && S.Inv(s) && Recorded(got, s)
    ensures Recorded(match Handed(s, t, a) case None => got case Some(m) => got + [(s.threads[t].h, m)], S.Step(s, t, a))
  {
    hide S.Inv, HandedTo, S.Step;
    var now := match Handed(s, t, a) case None => got case Some(m) => got + [(s.threads[t].h, m)];
    var v := S.Step(s, t, a);
    if s.threads[t].Grabbed? {
      InUse(s, t, s.threads[t].h);
      W.WasIssued(s, s.threads[t].h);
    }
    Issued(s, t, a);
    forall h | h in v.queues ensures HandedTo(now, h) == v.queues[h].popped {
      if h in s.queues { W.WasIssued(s, h); }
      PoppedBy(s, t, a, h);
      if h !in s.queues { HandedNone(got, h); }
      if Handed(s, t, a).Some? { HandedOne(got, s.threads[t].h, Handed(s, t, a).value, h); }
    }
  }

  lemma Issued(s: S.State, t: nat, a: S.Action)
    requires t < |s.threads|
    ensures S.Step(s, t, a).issued >= s.issued
  {
  }

  lemma PoppedBy(s: S.State, t: nat, a: S.Action, h: nat)
    requires t < |s.threads| && h in S.Step(s, t, a).queues && (h in s.queues ==> h < s.issued)
    ensures var before := if h in s.queues then s.queues[h].popped else [];
            && S.Step(s, t, a).queues[h].popped ==
               (if Handed(s, t, a).Some? && s.threads[t].h == h then before + [Handed(s, t, a).value] else before)
            && (h !in s.queues ==> h >= s.issued)
  {
  }

  /** The operation on the rings and the list that a step of the scheduler is. */
  method StepRings(g: M.GlobalList, rings: map<nat, M.Queue>, s: S.State, t: nat, a: S.Action)
    returns (more: map<nat, M.Queue>, got: Option<int>)
    requires t < |s.threads| && S.Inv(s) && Mirrors(g, rings, s)
    modifies g, rings.Values, Arrays(rings)
    ensures Mirrors(g, more, S.Step(s, t, a)) && got == Handed(s, t, a)
    ensures forall i :: i in more ==> (i in rings && more[i] == rings[i]) || fresh(more[i])
    ensures forall i :: i in more ==> (i in rings && more[i].mqueue == old(rings[i].mqueue)) || fresh(more[i].mqueue)
  {
    hide S.Inv, S.Step, AllShow, Links;
    var pc := s.threads[t];
    more, got := rings, None;
    if a.PushMessage? && pc.Sending? {
      InUse(s, t, pc.h);
      Push(g, rings, pc.m, pc.h, s, t);
    } else if a.PopMessage? && pc.Grabbed? {
      InUse(s, t, pc.h);
      PopStep(s, t, pc.h);
      got := PopRing(rings, pc.h, s, t);
    } else if a.MarkFree? && pc.Freeing? {
      InUse(s, t, pc.h);
      Free(g, rings, pc.h, s, t);
    } else if a.Launch? && pc.Idle? && a.given >= s.issued {
      NotYet(s, a.given);
      more := Launch(g, rings, a.given, s, t);
    } else if Takes(s, t, a) {
      Take(g, rings, s, t, a);
    } else if (a.PushBack? && pc.Swap?) || (a.LaunchOk? && pc.Launching?) {
      InHand(s, t, pc.h);
      Give(g, rings, pc.h, s, t, a);
    } else if a.QueueFree? && pc.FreeQueue? {
      InHand(s, t, pc.h);
      if s.queues[pc.h].release {
        var dropped: seq<int>;
        more, dropped := Release(g, rings, pc.h, s, t);
      } else {
        Give(g, rings, pc.h, s, t, a);
      }
    } else {
      NothingToDo(s, t, a);
    }
  }

  lemma NothingToDo(s: S.State, t: nat, a: S.Action)
    requires t < |s.threads|
    requires var pc := s.threads[t];
             && !(a.PushMessage? && pc.Sending?) && !(a.PopMessage? && pc.Grabbed?) && !(a.MarkFree? && pc.Freeing?)
             && !(a.Launch? && pc.Idle? && a.given >= s.issued) && !Takes(s, t, a)
             && !((a.PushBack? && pc.Swap?) || (a.LaunchOk? && pc.Launching?)) && !(a.QueueFree? && pc.FreeQueue?)
    ensures S.Step(s, t, a).queues == s.queues && S.Step(s, t, a).list == s.list
  {
    if !a.PushMessage? && !a.PopMessage? && !a.MarkFree? && !a.Launch? { Quiet(s, t, a); }
  }

  lemma NoRings(g: M.GlobalList, threads: nat)
    requires g.Valid() && g.queues == []
    ensures Mirrors(g, map[], S.Start(threads))
  {
  }

  lemma {:induction false} RunOn(s: S.State, schedule: S.Schedule, n: nat)
    requires S.Fits(schedule, |s.threads|) && n < |schedule|
    ensures S.Fits(schedule[..n], |s.threads|) && S.Fits(schedule[..n + 1], |s.threads|)
    ensures schedule[n].0 < |S.Run(s, schedule[..n]).threads| == |s.threads|
    ensures S.Run(s, schedule[..n + 1]) == S.Step(S.Run(s, schedule[..n]), schedule[n].0, schedule[n].1)
  {
    R.RunThreads(s, schedule[..n]);
    R.RunAppend(s, schedule[..n], schedule[n].0, schedule[n].1);
    assert schedule[..n + 1] == schedule[..n] + [(schedule[n].0, schedule[n].1)];
  }

  /** Any run of any number of threads, on real rings and a real list: at its end every ring holds what
      was pushed to its service and not yet popped, in order, and the list is linked as the scheduler
      has it. */
  method RunRings(threads: nat, schedule: S.Schedule)
    returns (g: M.GlobalList, rings: map<nat, M.Queue>, s: S.State, got: seq<(nat, int)>)
    requires S.Fits(schedule, threads)
    ensures s == S.Run(S.Start(threads), schedule) && Mirrors(g, rings, s)
    ensures forall h :: h in rings ==>
      h in s.queues && rings[h].Valid() && s.queues[h].pushed == s.queues[h].popped + rings[h].Contents()
    ensures forall h :: h in rings ==>
      var sends, pushes := W.Sends(S.Start(threads), schedule, h), W.Pushes(S.Start(threads), schedule, h);
      && rings[h].Valid() && HandedTo(got, h) + rings[h].Contents() == W.Messages(pushes)
      && multiset(W.Messages(pushes)) + W.AllPending(s.threads, h) == multiset(W.Messages(sends))
      && forall u: nat :: W.OfThread(pushes, u) + W.Pending(s.threads, u, h) == W.OfThread(sends, u)
    ensures forall h :: h in s.launched && h in rings && rings[h].Contents() != [] && rings[h] !in g.queues ==>
      exists t: nat :: S.HasQueue(s, t, h)
  {
    hide S.Inv, S.Step, Mirrors, S.Run, Recorded, W.Sends, W.Pushes, W.OfThread, W.AllPending, W.Messages, W.Pending;
    g := new M.GlobalList();
    rings, s, got := map[], S.Start(threads), [];
    assert Recorded(got, s) by { NothingHanded(threads); }
    NoRings(g, threads);
    S.StartKeeps(threads);
    StartRun(threads);
    for n := 0 to |schedule|
      invariant fresh(g) && forall i :: i in rings ==> fresh(rings[i]) && fresh(rings[i].mqueue)
      invariant S.Fits(schedule[..n], threads) && s == S.Run(S.Start(threads), schedule[..n])
      invariant S.Inv(s) && Mirrors(g, rings, s) && |s.threads| == threads && Recorded(got, s)
    {
      RunOn(S.Start(threads), schedule, n);
      S.StepKeeps(s, schedule[n].0, schedule[n].1);
      StepRecords(got, s, schedule[n].0, schedule[n].1);
      var m: Option<int>;
      rings, m := StepRings(g, rings, s, schedule[n].0, schedule[n].1);
      if m.Some? {
        got := got + [(s.threads[schedule[n].0].h, m.value)];
      }
      S.StepThreads(s, schedule[n].0, schedule[n].1);
      s := S.Step(s, schedule[n].0, schedule[n].1);
    }
    assert schedule[..|schedule|] == schedule;
    AtTheEnd(g, rings, threads, schedule, got);
  }

  lemma NothingHanded(threads: nat)
    ensures Recorded([], S.Start(threads))
  {
  }

  lemma StartRun(threads: nat)
    ensures S.Run(S.Start(threads), []) == S.Start(threads) && |S.Start(threads).threads| == threads
  {
  }

  lemma AtTheEnd(g: M.GlobalList, rings: map<nat, M.Queue>, threads: nat, schedule: S.Schedule, got: seq<(nat, int)>)
    requires S.Fits(schedule, threads) && Mirrors(g, rings, S.Run(S.Start(threads), schedule))
    requires Recorded(got, S.Run(S.Start(threads), schedule))
    ensures var s := S.Run(S.Start(threads), schedule);
      forall h :: h in rings ==>
        var sends, pushes := W.Sends(S.Start(threads), schedule, h), W.Pushes(S.Start(threads), schedule, h);
        && rings[h].Valid() && HandedTo(got, h) + rings[h].Contents() == W.Messages(pushes)
        && multiset(W.Messages(pushes)) + W.AllPending(s.threads, h) == multiset(W.Messages(sends))
        && forall u: nat :: W.OfThread(pushes, u) + W.Pending(s.threads, u, h) == W.OfThread(sends, u)
    ensures var s := S.Run(S.Start(threads), schedule);
      forall h :: h in rings ==>
        && h in s.queues && rings[h].Valid() && s.queues[h].pushed == s.queues[h].popped + rings[h].Contents()
        && (h in s.launched && rings[h].Contents() != [] && rings[h] !in g.queues ==> exists t: nat :: S.HasQueue(s, t, h))
  {
    hide S.Run, S.Inv, S.HasQueue, Links, AllShow, Shows, W.Sends, W.Pushes, W.OfThread, W.AllPending, W.Messages, W.Pending, HandedTo;
    var s := S.Run(S.Start(threads), schedule);
    assert S.Reachable(s);
    forall h | h in rings
      ensures var sends, pushes := W.Sends(S.Start(threads), schedule, h), W.Pushes(S.Start(threads), schedule, h);
        && rings[h].Valid() && HandedTo(got, h) + rings[h].Contents() == W.Messages(pushes)
        && multiset(W.Messages(pushes)) + W.AllPending(s.threads, h) == multiset(W.Messages(sends))
        && forall u: nat :: W.OfThread(pushes, u) + W.Pending(s.threads, u, h) == W.OfThread(sends, u)
      ensures h in s.queues && rings[h].Valid() && s.queues[h].pushed == s.queues[h].popped + rings[h].Contents()
      ensures h in s.launched && rings[h].Contents() != [] && rings[h] !in g.queues ==> exists t: nat :: S.HasQueue(s, t, h)
    {
      RingShown(g, rings, s, h);
      S.MessagesInOrder(s, h);
      W.MessagesArrive(threads, schedule, h);
      if h in s.launched && s.queues[h].msgs != [] { S.WaitingMeansScheduled(s, h); }
    }
  }

  lemma RingShown(g: M.GlobalList, rings: map<nat, M.Queue>, s: S.State, h: nat)
    requires Mirrors(g, rings, s) && h in rings
    ensures h in s.queues && rings[h].Valid() && rings[h].Contents() == s.queues[h].msgs
    ensures h in s.list ==> rings[h] in g.queues
  {
    if h in s.list {
      var i :| 0 <= i < |s.list| && s.list[i] == h;
      assert g.queues[i] == rings[h];
    }
  }
}
