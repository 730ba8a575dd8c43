/** The spinning read-write lock (src/lock.h), for any number of threads and any interleaving
    of the individual loads and atomic operations.  A reader announces itself before it looks
    at the writer's flag a second time, so it may be counted while a writer is inside; what it
    may not do is stay.
 */
module RwLock {

  /** The next operation of a thread. */
  datatype Pc =
    | Outside
    | WaitWrite          // rlock: load `write`, spin while it is set
    | Announce           // rlock: atomic increment of `read`
    | Recheck            // rlock: load `write` again
    | Withdraw           // rlock: atomic decrement of `read`, start over
    | Reading
    | TestAndSet         // wlock: atomic test-and-set of `write`
    | WaitReaders        // wlock: load `read`, spin while it is not zero
    | Writing

  datatype State = State(threads: seq<Pc>, read: int, write: bool)

  datatype Action = LockRead | LockWrite | Go | UnlockRead | UnlockWrite

  /** One operation of thread `t`. */
  function Step(s: State, t: nat, a: Action): State
    requires t < |s.threads|
  {
    match (a, s.threads[t])
    case (LockRead, Outside) => s.(threads := s.threads[t := WaitWrite])
    case (LockWrite, Outside) => s.(threads := s.threads[t := TestAndSet])
    case (Go, WaitWrite) => if s.write then s else s.(threads := s.threads[t := Announce])
    case (Go, Announce) => s.(threads := s.threads[t := Recheck], read := s.read + 1)
    case (Go, Recheck) => s.(threads := s.threads[t := if s.write then Withdraw else Reading])
    case (Go, Withdraw) => s.(threads := s.threads[t := WaitWrite], read := s.read - 1)
    case (Go, TestAndSet) => if s.write then s else s.(threads := s.threads[t := WaitReaders], write := true)
    case (Go, WaitReaders) => if s.read != 0 then s else s.(threads := s.threads[t := Writing])
    case (UnlockRead, Reading) => s.(threads := s.threads[t := Outside], read := s.read - 1)
    case (UnlockWrite, Writing) => s.(threads := s.threads[t := Outside], write := false)
    case _ => s
  }

  function Counted(pc: Pc): nat { if pc in {Recheck, Withdraw, Reading} then 1 else 0 }

  function Holding(pc: Pc): nat { if pc in {WaitReaders, Writing} then 1 else 0 }

  function Inside(pc: Pc, who: Pc): nat { if pc == who then 1 else 0 }

  /** Sums over all threads: announced readers, owners of `write`, readers and writers inside. */
  datatype Tally = Tally(announced: nat, owners: nat, readers: nat, writers: nat)

  function Sum(threads: seq<Pc>): Tally {
    if threads == [] then Tally(0, 0, 0, 0)
    else
      var n := |threads| - 1;
      var u, pc := Sum(threads[..n]), threads[n];
      Tally(u.announced + Counted(pc), u.owners + Holding(pc), u.readers + Inside(pc, Reading), u.writers + Inside(pc, Writing))
  }

  lemma {:induction false} SumUpdate(threads: seq<Pc>, t: nat, pc: Pc)
    requires t < |threads|
    ensures var u, v, was := Sum(threads), Sum(threads[t := pc]), threads[t];
            && v.announced == u.announced - Counted(was) + Counted(pc)
            && v.owners == u.owners - Holding(was) + Holding(pc)
            && v.readers == u.readers - Inside(was, Reading) + Inside(pc, Reading)
            && v.writers == u.writers - Inside(was, Writing) + Inside(pc, Writing)
    decreases |threads|
  {
    var n := |threads| - 1;
    if t < n {
      SumUpdate(threads[..n], t, pc);
      assert threads[t := pc][..n] == threads[..n][t := pc];
    } else {
      assert threads[t := pc][..n] == threads[..n];
    }
  }

  lemma {:induction false} SumCovers(threads: seq<Pc>, t: nat)
    requires t < |threads|
    ensures var u := Sum(threads);
            u.readers >= Inside(threads[t], Reading) && u.writers >= Inside(threads[t], Writing)
    ensures Sum(threads).readers <= Sum(threads).announced && Sum(threads).writers <= Sum(threads).owners
    decreases |threads|
  {
    var n := |threads| - 1;
    if n > 0 { SumCovers(threads[..n], if t < n then t else 0); }
  }

  lemma {:induction false} SumTwo(threads: seq<Pc>, t: nat, u: nat)
    requires t < u < |threads| && threads[t] == threads[u] == Writing
    ensures Sum(threads).writers >= 2
    decreases |threads|
  {
    var n := |threads| - 1;
    if u < n { SumTwo(threads[..n], t, u); } else { SumCovers(threads[..n], t); }
  }

  /** `read` counts the announced readers, `write` is set while one thread owns it, and a
      writer inside excludes readers inside. */
  ghost predicate Inv(s: State) {
    var u := Sum(s.threads);
    && s.read == u.announced
    && u.owners == (if s.write then 1 else 0)
    && (u.writers > 0 ==> u.readers == 0)
    && u.readers <= u.announced && u.writers <= u.owners
  }

  lemma StepKeeps(s: State, t: nat, a: Action)
    requires t < |s.threads| && Inv(s)
    ensures Inv(Step(s, t, a)) && |Step(s, t, a).threads| == |s.threads|
  {
    hide Sum;
    var s' := Step(s, t, a);
    SumUpdate(s.threads, t, s'.threads[t]);
    SumCovers(s'.threads, t);
    assert s'.threads == s.threads[t := s'.threads[t]];
  }

  function Start(threads: nat): State { State(seq(threads, _ => Outside), 0, false) }

  type Schedule = seq<(nat, Action)>

  ghost predicate Fits(schedule: Schedule, threads: nat) {
    forall k :: 0 <= k < |schedule| ==> schedule[k].0 < threads
  }

  ghost function Run(s: State, schedule: Schedule): State
    requires Fits(schedule, |s.threads|)
    decreases |schedule|
  {
    if schedule == [] then s
    else
      assert |Step(s, schedule[0].0, schedule[0].1).threads| == |s.threads|;
      Run(Step(s, schedule[0].0, schedule[0].1), schedule[1..])
  }

  lemma {:induction false} RunKeeps(s: State, schedule: Schedule)
    requires Fits(schedule, |s.threads|) && Inv(s)
    ensures Inv(Run(s, schedule))
    decreases |schedule|
  {
    hide Inv, Step;
    if schedule != [] {
      StepKeeps(s, schedule[0].0, schedule[0].1);
      RunKeeps(Step(s, schedule[0].0, schedule[0].1), schedule[1..]);
    }
  }

  lemma {:induction false} NobodyInside(threads: nat)
    ensures Sum(seq(threads, _ => Outside)) == Tally(0, 0, 0, 0)
    decreases threads
  {
    var all := seq<Pc>(threads, _ => Outside);
    if threads > 0 {
      NobodyInside(threads - 1);
      assert all[..threads - 1] == seq<Pc>(threads - 1, _ => Outside);
    }
  }

  /** Mutual exclusion in every run: while one thread is writing, no other is reading or
      writing. */
  lemma WriterIsAlone(threads: nat, schedule: Schedule, t: nat, u: nat)
    requires Fits(schedule, threads)
    requires t < |Run(Start(threads), schedule).threads| && u < |Run(Start(threads), schedule).threads|
    ensures var s := Run(Start(threads), schedule);
            s.threads[t] == Writing && t != u ==> s.threads[u] != Reading && s.threads[u] != Writing
  {
    NobodyInside(threads);
    RunKeeps(Start(threads), schedule);
    var s := Run(Start(threads), schedule);
    SumCovers(s.threads, t);
    SumCovers(s.threads, u);
    if s.threads[t] == Writing && s.threads[u] == Writing && t != u {
      SumTwo(s.threads, if t < u then t else u, if t < u then u else t);
    }
  }

  /** The lock is free again whenever no thread is inside or on its way. */
  lemma QuietMeansFree(threads: nat, schedule: Schedule)
    requires Fits(schedule, threads)
    requires Run(Start(threads), schedule).threads == seq(threads, _ => Outside)
    ensures Run(Start(threads), schedule).read == 0 && !Run(Start(threads), schedule).write
  {
    NobodyInside(threads);
    RunKeeps(Start(threads), schedule);
  }

  // -------------------------------------------------------- a thread by itself

  /** Thread `t` goes on alone for `n` operations. */
  function Alone(s: State, t: nat, n: nat): (r: State)
    requires t < |s.threads|
    ensures |r.threads| == |s.threads|
    decreases n
  {
    if n == 0 then s else Alone(Step(s, t, Go), t, n - 1)
  }

  /** A reader that is let alone is inside after three operations if no thread owns `write`, counted
      once; while one does, it stays where it is for ever, not counted. */
  lemma ReaderAlone(s: State, t: nat, n: nat)
    requires t < |s.threads| && s.threads[t] == Outside
    ensures var r := Alone(Step(s, t, LockRead), t, n);
            if s.write then r == s.(threads := s.threads[t := WaitWrite])
            else n >= 3 ==> r == s.(threads := s.threads[t := Reading], read := s.read + 1)
  {
    var r := Step(s, t, LockRead);
    if s.write {
      Stuck(r, t, n);
    } else if n >= 3 {
      var a := Step(r, t, Go);
      var b := Step(a, t, Go);
      var c := Step(b, t, Go);
      assert c == s.(threads := s.threads[t := Reading], read := s.read + 1);
      assert Alone(r, t, n) == Alone(a, t, n - 1) == Alone(b, t, n - 2) == Alone(c, t, n - 3);
      Stuck(c, t, n - 3);
    }
  }

  /** A writer that is let alone is inside after two operations if no thread owns `write` and none is
      counted; if some are, it owns `write` and waits; if another owns it, it waits for that. */
  lemma WriterAlone(s: State, t: nat, n: nat)
    requires t < |s.threads| && s.threads[t] == Outside && n >= 2
    ensures var r := Alone(Step(s, t, LockWrite), t, n);
            if s.write then r == s.(threads := s.threads[t := TestAndSet])
            else r == s.(threads := s.threads[t := if s.read == 0 then Writing else WaitReaders], write := true)
  {
    var r := Step(s, t, LockWrite);
    if s.write {
      Stuck(r, t, n);
    } else {
      var a := Step(r, t, Go);
      var b := Step(a, t, Go);
      assert b == s.(threads := s.threads[t := if s.read == 0 then Writing else WaitReaders], write := true);
      assert Alone(r, t, n) == Alone(a, t, n - 1) == Alone(b, t, n - 2);
      Stuck(b, t, n - 2);
    }
  }

  /** A reader that has announced itself too early takes that back and waits. */
  lemma WithdrawsAlone(s: State, t: nat, n: nat)
    requires t < |s.threads| && s.threads[t] == Recheck && s.write && n >= 2
    ensures Alone(s, t, n) == s.(threads := s.threads[t := WaitWrite], read := s.read - 1)
  {
    var a := Step(s, t, Go);
    var b := Step(a, t, Go);
    assert b == s.(threads := s.threads[t := WaitWrite], read := s.read - 1);
    assert Alone(s, t, n) == Alone(a, t, n - 1) == Alone(b, t, n - 2);
    Stuck(b, t, n - 2);
  }

  lemma {:induction false} Stuck(s: State, t: nat, n: nat)
    requires t < |s.threads| && Step(s, t, Go) == s
    ensures Alone(s, t, n) == s
    decreases n
  {
    if n > 0 { Stuck(s, t, n - 1); }
  }

  /** Somebody owns `write` exactly while it is set, in every run. */
  lemma SetMeansOwned(threads: nat, schedule: Schedule)
    requires Fits(schedule, threads)
    ensures var s := Run(Start(threads), schedule);
            s.write <==> exists u :: 0 <= u < |s.threads| && (s.threads[u] == WaitReaders || s.threads[u] == Writing)
  {
    NobodyInside(threads);
    RunKeeps(Start(threads), schedule);
    OwnersAre(Run(Start(threads), schedule).threads);
  }

  lemma {:induction false} OwnersAre(threads: seq<Pc>)
    ensures Sum(threads).owners > 0 <==> exists u :: 0 <= u < |threads| && (threads[u] == WaitReaders || threads[u] == Writing)
    decreases |threads|
  {
    if threads != [] {
      var n := |threads| - 1;
      OwnersAre(threads[..n]);
      if u :| 0 <= u < |threads| && (threads[u] == WaitReaders || threads[u] == Writing) {
        assert u < n ==> threads[..n][u] == threads[u];
      }
      if u :| 0 <= u < n && (threads[..n][u] == WaitReaders || threads[..n][u] == Writing) {
        assert threads[u] == threads[..n][u];
      }
    }
  }
}
