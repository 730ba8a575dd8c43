/** What a reader of a shared snapshot gets (lualib/lstm.c): the copy that is published when it asks,
    and "not updated" exactly if nothing was published since its last read. Both are read off the
    schedule: who published, closed or read, and when.
 */
module StmReads {
  import opened Basics
  import opened Stm

  /** The state after `n` steps of a run. */
  ghost function After(threads: nat, a: Addr, schedule: Schedule, n: nat): State
    requires Fits(schedule, threads) && n <= |schedule|
  {
    Run(Start(threads, a), schedule[..n])
  }

  lemma {:induction false} RunNext(s: State, schedule: Schedule, n: nat)
    requires Fits(schedule, |s.threads|) && n < |schedule|
    ensures |Run(s, schedule[..n]).threads| == |s.threads|
    ensures Run(s, schedule[..n + 1]) == Step(Run(s, schedule[..n]), schedule[n].0, schedule[n].1)
    decreases n
  {
    hide Step;
    var v := Step(s, schedule[0].0, schedule[0].1);
    assert |v.threads| == |s.threads| by { SameThreads(s, schedule[0].0, schedule[0].1); }
    if n == 0 {
      assert schedule[..1][1..] == [] && schedule[..0] == [];
      assert Run(s, schedule[..1]) == Run(v, []);
    } else {
      RunNext(v, schedule[1..], n - 1);
      assert schedule[..n + 1][1..] == schedule[1..][..n] && schedule[..n][1..] == schedule[1..][..n - 1];
    }
  }

  lemma SameThreads(s: State, t: nat, act: Action)
    requires t < |s.threads|
    ensures |Step(s, t, act).threads| == |s.threads|
  {
  }

  lemma AfterNext(threads: nat, a: Addr, schedule: Schedule, n: nat)
    requires Fits(schedule, threads) && n < |schedule|
    ensures |After(threads, a, schedule, n).threads| == threads
    ensures After(threads, a, schedule, n + 1) == Step(After(threads, a, schedule, n), schedule[n].0, schedule[n].1)
  {
    hide Step;
    RunNext(Start(threads, a), schedule, n);
  }

  lemma {:induction false} AfterKeeps(threads: nat, a: Addr, schedule: Schedule, n: nat)
    requires Fits(schedule, threads) && n <= |schedule|
    ensures Inv(After(threads, a, schedule, n)) && |After(threads, a, schedule, n).threads| == threads
    decreases n
  {
    hide Step, Inv, After;
    if n == 0 {
      StartKeeps(threads, a);
      assert After(threads, a, schedule, 0) == Start(threads, a) by { Nothing(threads, a, schedule); }
    } else {
      AfterKeeps(threads, a, schedule, n - 1);
      AfterNext(threads, a, schedule, n - 1);
      StepKeeps(After(threads, a, schedule, n - 1), schedule[n - 1].0, schedule[n - 1].1);
    }
  }

  lemma Nothing(threads: nat, a: Addr, schedule: Schedule)
    requires Fits(schedule, threads)
    ensures After(threads, a, schedule, 0) == Start(threads, a)
  {
    assert schedule[..0] == [];
  }

  // ------------------------------------------------------------- the history of a reader

  /** Where the read begins that thread `t` is in, or that it began last. */
  ghost function Asked(threads: nat, a: Addr, schedule: Schedule, n: nat, t: nat): Option<nat>
    requires Fits(schedule, threads) && n <= |schedule| && t < threads
    decreases n
  {
    if n == 0 then None
    else
      AfterKeeps(threads, a, schedule, n - 1);
      if schedule[n - 1] == (t, StmCopy) && After(threads, a, schedule, n - 1).threads[t].pc.Rest? then Some(n - 1)
      else Asked(threads, a, schedule, n - 1, t)
  }

  /** Where the last read began that this reader has finished; none for a new reader. */
  ghost function Finished(threads: nat, a: Addr, schedule: Schedule, n: nat, t: nat): Option<nat>
    requires Fits(schedule, threads) && n <= |schedule| && t < threads
    decreases n
  {
    if n == 0 then None
    else
      AfterKeeps(threads, a, schedule, n - 1);
      var pc := After(threads, a, schedule, n - 1).threads[t].pc;
      if schedule[n - 1] == (t, Compare) && pc.Got? then Asked(threads, a, schedule, n - 1, t)
      else if schedule[n - 1] == (t, DeleteReader) && pc.Rest? then None
      else Finished(threads, a, schedule, n - 1, t)
  }

  /** A step that publishes a copy, or closes the object. */
  ghost predicate Changes(s: State, t: nat, act: Action)
    requires t < |s.threads|
  {
    (act.Publish? && s.threads[t].pc.Made?) || (act.Close? && s.threads[t].pc.Rest? && s.obj.Some?)
  }

  ghost predicate ChangesAt(threads: nat, a: Addr, schedule: Schedule, k: nat)
    requires Fits(schedule, threads) && k < |schedule|
  {
    AfterKeeps(threads, a, schedule, k);
    Changes(After(threads, a, schedule, k), schedule[k].0, schedule[k].1)
  }

  /** Nobody publishes or closes from step `j` to before step `k`. */
  ghost predicate Quiet(threads: nat, a: Addr, schedule: Schedule, j: nat, k: nat)
    requires Fits(schedule, threads) && k <= |schedule|
  {
    forall i :: j <= i < k ==> !ChangesAt(threads, a, schedule, i)
  }

  lemma StepView(s: State, t: nat, act: Action)
    requires t < |s.threads| && Inv(s)
    ensures var v := Step(s, t, act);
            if !Changes(s, t, act) then v.obj == s.obj && v.version == s.version
            else if act.Publish? then v.obj == Some(s.threads[t].pc.a) && v.version == s.version + 1
            else v.obj == None && v.version == s.version
  {
    hide Counts;
    assert ThreadOk(s, s.threads[t]);
  }

  /** What the object offers changes exactly with a publication or a close, unless it is closed before
      and after. */
  lemma {:induction false} Between(threads: nat, a: Addr, schedule: Schedule, j: nat, k: nat)
    requires Fits(schedule, threads) && j <= k <= |schedule|
    ensures var u, v := After(threads, a, schedule, j), After(threads, a, schedule, k);
            && u.version <= v.version
            && (Quiet(threads, a, schedule, j, k) ==> v.obj == u.obj && v.version == u.version)
            && (!Quiet(threads, a, schedule, j, k) && v.obj.Some? ==> v.version > u.version)
    decreases k - j
  {
    hide Step, Inv, After, Changes;
    if j < k {
      Between(threads, a, schedule, j, k - 1);
      AfterKeeps(threads, a, schedule, k - 1);
      AfterNext(threads, a, schedule, k - 1);
      StepView(After(threads, a, schedule, k - 1), schedule[k - 1].0, schedule[k - 1].1);
      assert Quiet(threads, a, schedule, j, k) <==> Quiet(threads, a, schedule, j, k - 1) && !ChangesAt(threads, a, schedule, k - 1);
    }
  }

  /** What a reader has is what the object offered at these times. */
  ghost predicate Knows(threads: nat, a: Addr, schedule: Schedule, n: nat, t: nat)
    requires Fits(schedule, threads) && n <= |schedule| && t < threads
  {
    AfterKeeps(threads, a, schedule, n);
    var th, asked, read := After(threads, a, schedule, n).threads[t], Asked(threads, a, schedule, n, t), Finished(threads, a, schedule, n, t);
    && (th.pc.Got? ==>
          && asked.Some? && asked.value < n && th.pc.c == After(threads, a, schedule, asked.value).obj
          && th.pc.view == View(After(threads, a, schedule, asked.value))
          && (read.Some? ==> read.value < asked.value))
    && (if read.None? then th.last == None && th.seen == None
        else
          && read.value < n && th.last == After(threads, a, schedule, read.value).obj
          && th.seen == View(After(threads, a, schedule, read.value)))
  }

  /** One step changes what a reader has only by its own read. */
  lemma OwnStep(s: State, t: nat, act: Action, u: nat)
    requires t < |s.threads| && u < |s.threads| && Inv(s)
    ensures var th, v := s.threads[u], Step(s, t, act).threads[u];
            && (u != t ==> v == th)
            && (u == t && act.StmCopy? && th.pc.Rest? ==> v == th.(pc := Got(s.obj, View(s))))
            && (u == t && act.Compare? && th.pc.Got? ==> !v.pc.Got? && v.last == th.pc.c && v.seen == th.pc.view)
            && (u == t && act.DeleteReader? && th.pc.Rest? ==> !v.pc.Got? && v.last == None && v.seen == None)
            && (u == t && !(act.StmCopy? && th.pc.Rest?) && !(act.Compare? && th.pc.Got?) && !(act.DeleteReader? && th.pc.Rest?) ==>
                  v.last == th.last && v.seen == th.seen && (v.pc.Got? ==> v.pc == th.pc))
  {
    hide Counts;
    assert ThreadOk(s, s.threads[t]) && Versions(s);
  }

  lemma KnowsNext(threads: nat, a: Addr, schedule: Schedule, n: nat, t: nat)
    requires Fits(schedule, threads) && n < |schedule| && t < threads && Knows(threads, a, schedule, n, t)
    ensures Knows(threads, a, schedule, n + 1, t)
  {
    hide Step, Inv, After;
    AfterKeeps(threads, a, schedule, n);
    AfterKeeps(threads, a, schedule, n + 1);
    AfterNext(threads, a, schedule, n);
    OwnStep(After(threads, a, schedule, n), schedule[n].0, schedule[n].1, t);
  }

  lemma {:induction false} AlwaysKnows(threads: nat, a: Addr, schedule: Schedule, n: nat, t: nat)
    requires Fits(schedule, threads) && n <= |schedule| && t < threads
    ensures Knows(threads, a, schedule, n, t)
    decreases n
  {
    hide Knows;
    if n == 0 {
      KnowsNothing(threads, a, schedule, t);
    } else {
      AlwaysKnows(threads, a, schedule, n - 1, t);
      KnowsNext(threads, a, schedule, n - 1, t);
    }
  }

  lemma KnowsNothing(threads: nat, a: Addr, schedule: Schedule, t: nat)
    requires Fits(schedule, threads) && t < threads
    ensures Knows(threads, a, schedule, 0, t)
  {
    Nothing(threads, a, schedule);
  }

  // -------------------------------------------------------------- main results

  /** In every run, a reader has in hand the copy that the object offered when this read began, and keeps
      the one that it offered when the last finished read began. */
  lemma ReadsThePublished(threads: nat, a: Addr, schedule: Schedule, t: nat)
    requires Fits(schedule, threads) && t < threads
    ensures var s := After(threads, a, schedule, |schedule|);
            && t < |s.threads|
            && (s.threads[t].pc.Got? ==>
                  var asked := Asked(threads, a, schedule, |schedule|, t);
                  && asked.Some? && asked.value < |schedule| && schedule[asked.value] == (t, StmCopy)
                  && s.threads[t].pc.c == After(threads, a, schedule, asked.value).obj)
    ensures var s, read := After(threads, a, schedule, |schedule|), Finished(threads, a, schedule, |schedule|, t);
            && t < |s.threads|
            && (read.None? ==> s.threads[t].last == None)
            && (read.Some? ==> read.value < |schedule| && s.threads[t].last == After(threads, a, schedule, read.value).obj)
  {
    hide After;
    AfterKeeps(threads, a, schedule, |schedule|);
    AlwaysKnows(threads, a, schedule, |schedule|, t);
    AskedIs(threads, a, schedule, |schedule|, t);
  }

  lemma {:induction false} AskedIs(threads: nat, a: Addr, schedule: Schedule, n: nat, t: nat)
    requires Fits(schedule, threads) && n <= |schedule| && t < threads
    ensures var asked := Asked(threads, a, schedule, n, t);
            asked.Some? ==> asked.value < n && schedule[asked.value] == (t, StmCopy)
    decreases n
  {
    if n > 0 { AskedIs(threads, a, schedule, n - 1, t); }
  }

  /** In every run, the address test of lread says "not updated" if and only if nobody has published or
      closed between the beginning of this reader's last read and that of this one, or the object was
      closed at both; for the first read, if and only if it was closed. */
  lemma NotUpdatedIff(threads: nat, a: Addr, schedule: Schedule, t: nat)
    requires Fits(schedule, threads) && t < threads
    ensures var s, n := After(threads, a, schedule, |schedule|), |schedule|;
            && t < |s.threads|
            && (s.threads[t].pc.Got? ==>
                  var asked, read := Asked(threads, a, schedule, n, t), Finished(threads, a, schedule, n, t);
                  && asked.Some? && asked.value < n
                  && var now := After(threads, a, schedule, asked.value).obj;
                  && (read.None? ==> (s.threads[t].pc.c == s.threads[t].last <==> now == None))
                  && (read.Some? ==>
                        && read.value < asked.value
                        && var before := After(threads, a, schedule, read.value).obj;
                           s.threads[t].pc.c == s.threads[t].last <==>
                             Quiet(threads, a, schedule, read.value, asked.value) || (before == None && now == None)))
  {
    hide After, Step, Inv;
    var n := |schedule|;
    AfterKeeps(threads, a, schedule, n);
    AlwaysKnows(threads, a, schedule, n, t);
    var s := After(threads, a, schedule, n);
    if s.threads[t].pc.Got? {
      TestIsRight(s, t);
      var asked, read := Asked(threads, a, schedule, n, t), Finished(threads, a, schedule, n, t);
      if read.Some? { Between(threads, a, schedule, read.value, asked.value); }
    }
  }

  lemma TestIsRight(s: State, t: nat)
    requires Inv(s) && t < |s.threads| && s.threads[t].pc.Got?
    ensures s.threads[t].pc.c == s.threads[t].last <==> s.threads[t].pc.view == s.threads[t].seen
    ensures s.threads[t].pc.c == None <==> s.threads[t].pc.view == None
  {
    assert ThreadOk(s, s.threads[t]);
  }

  // ------------------------------------------------------------------- an update

  /** Thread 0 reads, thread 1 publishes a second copy, thread 0 reads again. */
  const UPDATE: Schedule :=
    [(0, StmCopy), (0, Compare), (1, NewCopy(2)), (1, Publish), (1, Decrement), (0, StmCopy), (0, Compare), (0, Decrement), (0, Release)]

  function Two(heap: map<Addr, Copy>, obj: Addr, version: nat, reader: Thread, writer: Pc): State {
    State(heap, Some(obj), version, [reader, Thread(writer, None, None)])
  }

  /** The second read gets the second copy, and the first one is freed. */
  lemma UpdateIsRead()
    ensures Fits(UPDATE, 2)
    ensures Run(Start(2, 1), UPDATE) == Two(map[2 := Copy(2, Some(1))], 2, 1, Thread(Rest, Some(2), Some(1)), Rest)
  {
    hide Step;
    ReadFirst();
    PublishSecond();
    ReadSecond();
    FreeFirst();
    var s := Two(map[1 := Copy(2, Some(0))], 1, 0, Thread(Rest, Some(1), Some(0)), Rest);
    var u := Two(map[1 := Copy(1, Some(0)), 2 := Copy(1, Some(1))], 2, 1, Thread(Rest, Some(1), Some(0)), Rest);
    var copy: Schedule, publish: Schedule := [(0, StmCopy), (0, Compare)], [(1, NewCopy(2)), (1, Publish), (1, Decrement)];
    var free: Schedule := [(0, Decrement), (0, Release)];
    RunParts(Start(2, 1), copy, publish + (copy + free));
    RunParts(s, publish, copy + free);
    RunParts(u, copy, free);
    assert UPDATE == copy + (publish + (copy + free));
  }

  lemma {:induction false} RunParts(s: State, a: Schedule, b: Schedule)
    requires Fits(a, |s.threads|) && Fits(b, |s.threads|)
    ensures Fits(a + b, |s.threads|) && |Run(s, a).threads| == |s.threads| && Run(s, a + b) == Run(Run(s, a), b)
    decreases |a|
  {
    hide Step;
    if a == [] {
      assert a + b == b;
    } else {
      SameThreads(s, a[0].0, a[0].1);
      assert (a + b)[0] == a[0] && (a + b)[1..] == a[1..] + b;
      RunParts(Step(s, a[0].0, a[0].1), a[1..], b);
    }
  }

  lemma OneStep(s: State, t: nat, act: Action, rest: Schedule)
    requires t < |s.threads| && Fits(rest, |s.threads|)
    ensures |Step(s, t, act).threads| == |s.threads|
    ensures Fits([(t, act)] + rest, |s.threads|) && Run(s, [(t, act)] + rest) == Run(Step(s, t, act), rest)
  {
    hide Step;
    SameThreads(s, t, act);
    assert ([(t, act)] + rest)[1..] == rest;
  }

  lemma ReadFirst()
    ensures Run(Start(2, 1), [(0, StmCopy), (0, Compare)]) ==
            Two(map[1 := Copy(2, Some(0))], 1, 0, Thread(Rest, Some(1), Some(0)), Rest)
  {
    var s := Start(2, 1);
    assert s.threads == [Thread(Rest, None, None), Thread(Rest, None, None)];
    var u := Two(map[1 := Copy(2, Some(0))], 1, 0, Thread(Got(Some(1), Some(0)), None, None), Rest);
    assert Step(s, 0, StmCopy) == u;
    var v := Two(map[1 := Copy(2, Some(0))], 1, 0, Thread(Rest, Some(1), Some(0)), Rest);
    assert Step(u, 0, Compare) == v;
    OneStep(s, 0, StmCopy, [(0, Compare)]);
    OneStep(u, 0, Compare, []);
    assert [(0, StmCopy)] + [(0, Compare)] == [(0, StmCopy), (0, Compare)] && [(0, Compare)] + [] == [(0, Compare)];
  }

  lemma PublishSecond()
    ensures var reader := Thread(Rest, Some(1), Some(0));
            Run(Two(map[1 := Copy(2, Some(0))], 1, 0, reader, Rest), [(1, NewCopy(2)), (1, Publish), (1, Decrement)]) ==
            Two(map[1 := Copy(1, Some(0)), 2 := Copy(1, Some(1))], 2, 1, reader, Rest)
  {
    var reader := Thread(Rest, Some(1), Some(0));
    var s := Two(map[1 := Copy(2, Some(0))], 1, 0, reader, Rest);
    var u := Two(map[1 := Copy(2, Some(0)), 2 := Copy(1, None)], 1, 0, reader, Made(2));
    assert Step(s, 1, NewCopy(2)) == u;
    var v := Two(map[1 := Copy(2, Some(0)), 2 := Copy(1, Some(1))], 2, 1, reader, Drop(1));
    assert Step(u, 1, Publish) == v;
    var w := Two(map[1 := Copy(1, Some(0)), 2 := Copy(1, Some(1))], 2, 1, reader, Rest);
    assert Step(v, 1, Decrement) == w;
    var rest: Schedule := [(1, Publish), (1, Decrement)];
    OneStep(s, 1, NewCopy(2), rest);
    OneStep(u, 1, Publish, [(1, Decrement)]);
    OneStep(v, 1, Decrement, []);
    assert [(1, NewCopy(2))] + rest == [(1, NewCopy(2)), (1, Publish), (1, Decrement)];
    assert [(1, Publish)] + [(1, Decrement)] == rest && [(1, Decrement)] + [] == [(1, Decrement)];
  }

  lemma ReadSecond()
    ensures Run(Two(map[1 := Copy(1, Some(0)), 2 := Copy(1, Some(1))], 2, 1, Thread(Rest, Some(1), Some(0)), Rest),
                [(0, StmCopy), (0, Compare)]) ==
            Two(map[1 := Copy(1, Some(0)), 2 := Copy(2, Some(1))], 2, 1, Thread(Drop(1), Some(2), Some(1)), Rest)
  {
    var s := Two(map[1 := Copy(1, Some(0)), 2 := Copy(1, Some(1))], 2, 1, Thread(Rest, Some(1), Some(0)), Rest);
    var u := Two(map[1 := Copy(1, Some(0)), 2 := Copy(2, Some(1))], 2, 1, Thread(Got(Some(2), Some(1)), Some(1), Some(0)), Rest);
    assert Step(s, 0, StmCopy) == u;
    var v := Two(map[1 := Copy(1, Some(0)), 2 := Copy(2, Some(1))], 2, 1, Thread(Drop(1), Some(2), Some(1)), Rest);
    assert Step(u, 0, Compare) == v;
    OneStep(s, 0, StmCopy, [(0, Compare)]);
    OneStep(u, 0, Compare, []);
    assert [(0, StmCopy)] + [(0, Compare)] == [(0, StmCopy), (0, Compare)] && [(0, Compare)] + [] == [(0, Compare)];
  }

  lemma FreeFirst()
    ensures Run(Two(map[1 := Copy(1, Some(0)), 2 := Copy(2, Some(1))], 2, 1, Thread(Drop(1), Some(2), Some(1)), Rest),
                [(0, Decrement), (0, Release)]) ==
            Two(map[2 := Copy(2, Some(1))], 2, 1, Thread(Rest, Some(2), Some(1)), Rest)
  {
    var v := Two(map[1 := Copy(1, Some(0)), 2 := Copy(2, Some(1))], 2, 1, Thread(Drop(1), Some(2), Some(1)), Rest);
    var w := Two(map[1 := Copy(0, Some(0)), 2 := Copy(2, Some(1))], 2, 1, Thread(Free(1), Some(2), Some(1)), Rest);
    assert Step(v, 0, Decrement) == w;
    var x := Two(map[2 := Copy(2, Some(1))], 2, 1, Thread(Rest, Some(2), Some(1)), Rest);
    assert Step(w, 0, Release) == x;
    OneStep(v, 0, Decrement, [(0, Release)]);
    OneStep(w, 0, Release, []);
    assert [(0, Decrement)] + [(0, Release)] == [(0, Decrement), (0, Release)] && [(0, Release)] + [] == [(0, Release)];
  }
}
