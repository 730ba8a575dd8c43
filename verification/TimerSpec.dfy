/** What the timer service promises (src/timer.c), with no wheel in sight: timers wait in
    registration order and fire when the clock reaches their deadline.

    The clock counts ticks without wrapping around; the 32-bit `time` of the C code is this
    clock modulo 2^32 (TimerWheel.dfy).
 */
module TimerSpec {

  datatype Timer = Timer(id: nat, due: nat)

  /** Timer `id` was dispatched while the clock showed `at`. */
  datatype Firing = Firing(id: nat, at: nat)

  /** `history` is every timer ever registered; `pending` those not yet fired, in
      registration order; `log` the dispatches so far. */
  datatype World = World(clock: nat, history: seq<Timer>, pending: seq<Timer>, log: seq<Firing>)

  const START := World(0, [], [], [])

  // -------------------------------------------------------------------- steps

  function Register(w: World, delay: nat): World {
    var t := Timer(|w.history|, w.clock + delay);
    w.(history := w.history + [t], pending := w.pending + [t])
  }

  function RegisterAll(w: World, delays: seq<nat>): World
    decreases |delays|
  {
    if delays == [] then w else RegisterAll(Register(w, delays[0]), delays[1..])
  }

  /** The timers that are (or are not) due at `clock`, in order. */
  function Select(p: seq<Timer>, clock: nat, due: bool): seq<Timer> {
    if p == [] then []
    else
      var t := p[|p| - 1];
      Select(p[..|p| - 1], clock, due) + (if (t.due == clock) == due then [t] else [])
  }

  function Due(p: seq<Timer>, clock: nat): seq<Timer> { Select(p, clock, true) }

  function NotDue(p: seq<Timer>, clock: nat): seq<Timer> { Select(p, clock, false) }

  function Firings(p: seq<Timer>, clock: nat): seq<Firing> {
    seq(|p|, k requires 0 <= k < |p| => Firing(p[k].id, clock))
  }

  function FireDue(w: World): World {
    w.(pending := NotDue(w.pending, w.clock), log := w.log + Firings(Due(w.pending, w.clock), w.clock))
  }

  /** One update fires batches until nothing is due.  While a batch is being dispatched the
      lock is free: `arrivals[k]` are the delays registered meanwhile. */
  function Execute(w: World, arrivals: seq<seq<nat>>): World
    decreases |arrivals|
  {
    if Due(w.pending, w.clock) == [] then w
    else if arrivals == [] then FireDue(w)
    else Execute(RegisterAll(FireDue(w), arrivals[0]), arrivals[1..])
  }

  function Tick(w: World): World { w.(clock := w.clock + 1) }

  function Update(w: World, before: seq<seq<nat>>, after: seq<seq<nat>>): World {
    Execute(Tick(Execute(w, before)), after)
  }

  datatype Event =
    | Timeout(delay: nat)
    | Advance(before: seq<seq<nat>>, after: seq<seq<nat>>)

  function Apply(w: World, e: Event): World {
    match e
    case Timeout(delay) => Register(w, delay)
    case Advance(before, after) => Update(w, before, after)
  }

  function RunAll(w: World, events: seq<Event>): World
    decreases |events|
  {
    if events == [] then w else RunAll(Apply(w, events[0]), events[1..])
  }

  // --------------------------------------------------------------- invariants

  ghost predicate Pending(w: World, id: nat) {
    exists k :: 0 <= k < |w.pending| && w.pending[k].id == id
  }

  ghost predicate Fired(w: World, id: nat) {
    exists k :: 0 <= k < |w.log| && w.log[k].id == id
  }

  /** Registration order: ids number the registrations. */
  ghost predicate Ordered(p: seq<Timer>) {
    forall j, k :: 0 <= j < k < |p| ==> p[j].id < p[k].id
  }

  ghost predicate FromHistory(w: World) {
    && (forall k :: 0 <= k < |w.history| ==> w.history[k].id == k)
    && (forall k :: 0 <= k < |w.pending| ==> w.pending[k].id < |w.history| && w.pending[k] == w.history[w.pending[k].id])
  }

  /** Every dispatch happened at the deadline of its timer, and not in the future. */
  ghost predicate OnTime(w: World) {
    forall k :: 0 <= k < |w.log| ==>
      w.log[k].id < |w.history| && w.log[k].at == w.history[w.log[k].id].due && w.log[k].at <= w.clock
  }

  ghost predicate OnceOnly(w: World) {
    && (forall j, k :: 0 <= j < k < |w.log| ==> w.log[j].id != w.log[k].id)
    && (forall j, k :: 0 <= j < |w.log| && 0 <= k < |w.pending| ==> w.log[j].id != w.pending[k].id)
  }

  /** Nothing is lost: a timer is pending until it has fired. */
  ghost predicate NoneLost(w: World) {
    forall id :: 0 <= id < |w.history| ==> Pending(w, id) || Fired(w, id)
  }

  ghost predicate NotLate(w: World) {
    forall k :: 0 <= k < |w.pending| ==> w.pending[k].due >= w.clock
  }

  /** Dispatches of one tick are in registration order, ticks are in order, and timers still
      due now were registered later than those already dispatched in this tick. */
  ghost predicate InOrder(w: World) {
    && (forall j, k :: 0 <= j < k < |w.log| ==>
          w.log[j].at < w.log[k].at || (w.log[j].at == w.log[k].at && w.log[j].id < w.log[k].id))
    && (forall j, k :: 0 <= j < |w.log| && 0 <= k < |w.pending| ==>
          w.log[j].at == w.pending[k].due ==> w.log[j].id < w.pending[k].id)
  }

  ghost predicate Inv(w: World) {
    FromHistory(w) && Ordered(w.pending) && OnTime(w) && OnceOnly(w) && NoneLost(w) && NotLate(w) && InOrder(w)
  }

  // ------------------------------------------------------------- preservation

  lemma RegisterLosesNone(w: World, delay: nat)
    requires NoneLost(w)
    ensures NoneLost(Register(w, delay))
  {
    var v := Register(w, delay);
    forall id | 0 <= id < |v.history| ensures Pending(v, id) || Fired(v, id) {
      if id == |w.history| {
        assert v.pending[|w.pending|].id == id;
      } else if Pending(w, id) {
        var k :| 0 <= k < |w.pending| && w.pending[k].id == id;
        assert v.pending[k].id == id;
      } else {
        var k :| 0 <= k < |w.log| && w.log[k].id == id;
        assert v.log[k].id == id;
      }
    }
  }

  lemma RegisterKeeps(w: World, delay: nat)
    requires Inv(w)
    ensures Inv(Register(w, delay))
  {
    RegisterLosesNone(w, delay);
    hide NoneLost;
    var v := Register(w, delay);
    assert OnTime(v) by {
      forall k | 0 <= k < |v.log| ensures v.history[v.log[k].id] == w.history[w.log[k].id] {}
    }
  }

  lemma {:induction false} RegisterAllKeeps(w: World, delays: seq<nat>)
    requires Inv(w)
    ensures Inv(RegisterAll(w, delays)) && RegisterAll(w, delays).clock == w.clock
    ensures w.history <= RegisterAll(w, delays).history
    decreases |delays|
  {
    if delays != [] {
      RegisterKeeps(w, delays[0]);
      RegisterAllKeeps(Register(w, delays[0]), delays[1..]);
    }
  }

  lemma {:induction false} SelectMember(p: seq<Timer>, clock: nat, due: bool, t: Timer)
    ensures t in Select(p, clock, due) <==> t in p && (t.due == clock) == due
    decreases |p|
  {
    if p != [] {
      var q := p[..|p| - 1];
      assert p == q + [p[|p| - 1]];
      SelectMember(q, clock, due, t);
    }
  }

  lemma {:induction false} SelectOrdered(p: seq<Timer>, clock: nat, due: bool)
    requires Ordered(p)
    ensures Ordered(Select(p, clock, due))
    decreases |p|
  {
    if p != [] {
      var q, t := p[..|p| - 1], p[|p| - 1];
      var r := Select(q, clock, due);
      SelectOrdered(q, clock, due);
      forall k | 0 <= k < |r| ensures r[k].id < t.id {
        SelectMember(q, clock, due, r[k]);
        var j :| 0 <= j < |q| && q[j] == r[k];
        assert p[j].id < p[|q|].id;
      }
    }
  }

  lemma SelectFacts(p: seq<Timer>, clock: nat, due: bool)
    requires Ordered(p)
    ensures forall t :: t in Select(p, clock, due) <==> t in p && (t.due == clock) == due
    ensures Ordered(Select(p, clock, due))
  {
    forall t ensures t in Select(p, clock, due) <==> t in p && (t.due == clock) == due {
      SelectMember(p, clock, due, t);
    }
    SelectOrdered(p, clock, due);
  }

  lemma NoneDueLeft(p: seq<Timer>, clock: nat)
    requires Ordered(p)
    ensures Due(p, clock) == [] <==> forall t :: t in p ==> t.due != clock
    ensures Due(NotDue(p, clock), clock) == []
  {
    SelectFacts(p, clock, true);
    SelectFacts(p, clock, false);
    SelectFacts(NotDue(p, clock), clock, true);
    EmptyIffNoElement(Due(p, clock));
    EmptyIffNoElement(Due(NotDue(p, clock), clock));
  }

  lemma EmptyIffNoElement(p: seq<Timer>)
    ensures p == [] <==> forall t :: t !in p
  {
    if p != [] { assert p[0] in p; }
  }

  /** What firing the due timers does to the log and to the waiting timers. */
  ghost predicate Fires(w: World, v: World) {
    v.clock == w.clock && v.history == w.history && Logs(w, v) && StillWaiting(w, v)
  }

  ghost predicate Waited(p: seq<Timer>, t: Timer) {
    exists m :: 0 <= m < |p| && p[m] == t
  }

  ghost predicate Logs(w: World, v: World) {
    && |w.log| <= |v.log|
    && (forall k :: 0 <= k < |w.log| ==> v.log[k] == w.log[k])
    && (forall k :: |w.log| <= k < |v.log| ==> v.log[k].at == w.clock && Waited(w.pending, Timer(v.log[k].id, w.clock)))
    && (forall j, k :: |w.log| <= j < k < |v.log| ==> v.log[j].id < v.log[k].id)
  }

  ghost predicate StillWaiting(w: World, v: World) {
    && (forall k :: 0 <= k < |v.pending| ==> v.pending[k].due != w.clock && Waited(w.pending, v.pending[k]))
    && Ordered(v.pending)
  }

  ghost predicate KeepsWaitingOrFires(w: World, v: World) {
    forall m :: 0 <= m < |w.pending| ==> Pending(v, w.pending[m].id) || Fired(v, w.pending[m].id)
  }

  lemma WasPending(w: World, v: World, k: nat) returns (m: nat)
    requires Fires(w, v) && |w.log| <= k < |v.log|
    ensures v.log[k].at == w.clock && m < |w.pending| && w.pending[m] == Timer(v.log[k].id, w.clock)
  {
    assert v.log[k].at == w.clock;
    m :| 0 <= m < |w.pending| && w.pending[m] == Timer(v.log[k].id, w.clock);
  }

  lemma StillPending(w: World, v: World, k: nat) returns (m: nat)
    requires Fires(w, v) && k < |v.pending|
    ensures v.pending[k].due != w.clock && m < |w.pending| && w.pending[m] == v.pending[k]
  {
    assert v.pending[k].due != w.clock;
    m :| 0 <= m < |w.pending| && w.pending[m] == v.pending[k];
  }

  lemma FireLogs(w: World)
    requires Ordered(w.pending)
    ensures Logs(w, FireDue(w))
  {
    hide Select;
    var v, p := FireDue(w), w.pending;
    var d, n := Due(p, w.clock), |w.log|;
    SelectOrdered(p, w.clock, true);
    assert forall k :: n <= k < |v.log| ==> v.log[k] == Firing(d[k - n].id, w.clock);
    forall j, k | n <= j < k < |v.log| ensures v.log[j].id < v.log[k].id {
      assert d[j - n].id < d[k - n].id;
    }
    forall k | n <= k < |v.log| ensures v.log[k].at == w.clock && Waited(p, Timer(v.log[k].id, w.clock)) {
      var t := d[k - n];
      assert t in d;
      SelectMember(p, w.clock, true, t);
      assert t == Timer(v.log[k].id, w.clock);
    }
  }

  lemma FireShape(w: World)
    requires Ordered(w.pending)
    ensures Fires(w, FireDue(w))
  {
    hide Select, Logs;
    FireLogs(w);
    var r := NotDue(w.pending, w.clock);
    SelectOrdered(w.pending, w.clock, false);
    forall k | 0 <= k < |r| ensures r[k].due != w.clock && Waited(w.pending, r[k]) {
      assert r[k] in r;
      SelectMember(w.pending, w.clock, false, r[k]);
    }
  }

  lemma FireLosesNone(w: World)
    requires Ordered(w.pending)
    ensures KeepsWaitingOrFires(w, FireDue(w))
  {
    var v, p := FireDue(w), w.pending;
    var d, r, n := Due(p, w.clock), NotDue(p, w.clock), |w.log|;
    hide Select;
    forall m | 0 <= m < |p| ensures Pending(v, p[m].id) || Fired(v, p[m].id) {
      if p[m].due == w.clock {
        SelectMember(p, w.clock, true, p[m]);
        var k :| 0 <= k < |d| && d[k] == p[m];
        assert v.log[n + k].id == p[m].id;
      } else {
        SelectMember(p, w.clock, false, p[m]);
        assert p[m] in r;
      }
    }
  }

  lemma FireOnTime(w: World, v: World)
    requires Inv(w) && Fires(w, v) && KeepsWaitingOrFires(w, v)
    ensures FromHistory(v) && OnTime(v) && NotLate(v) && NoneLost(v)
  {
    forall k | 0 <= k < |v.log|
      ensures v.log[k].id < |v.history| && v.log[k].at == v.history[v.log[k].id].due && v.log[k].at <= v.clock
    {
      if k >= |w.log| {
        var m := WasPending(w, v, k);
      } else {
        assert v.log[k] == w.log[k];
      }
    }
    forall id | 0 <= id < |v.history| ensures Pending(v, id) || Fired(v, id) {
      if Pending(w, id) {
        var m :| 0 <= m < |w.pending| && w.pending[m].id == id;
      } else {
        var k :| 0 <= k < |w.log| && w.log[k].id == id;
        assert v.log[k].id == id;
      }
    }
  }

  lemma FireOnce(w: World, v: World)
    requires Inv(w) && Fires(w, v)
    ensures OnceOnly(v)
  {
    forall j, k | 0 <= j < k < |v.log| ensures v.log[j].id != v.log[k].id {
      if k >= |w.log| {
        var m := WasPending(w, v, k);
        if j < |w.log| { assert w.log[j].id != w.pending[m].id; }
      } else {
        assert w.log[j].id != w.log[k].id;
      }
    }
    forall j, k | 0 <= j < |v.log| && 0 <= k < |v.pending| ensures v.log[j].id != v.pending[k].id {
      var m := StillPending(w, v, k);
      if j >= |w.log| {
        var l := WasPending(w, v, j);
        assert l != m;
      } else {
        assert w.log[j].id != w.pending[m].id;
      }
    }
  }

  lemma FireInOrder(w: World, v: World)
    requires Inv(w) && Fires(w, v)
    ensures InOrder(v)
  {
    forall j, k | 0 <= j < k < |v.log|
      ensures v.log[j].at < v.log[k].at || (v.log[j].at == v.log[k].at && v.log[j].id < v.log[k].id)
    {
      if j < |w.log| <= k {
        var m := WasPending(w, v, k);
        assert w.log[j].at <= w.clock;
        assert w.log[j].at == w.pending[m].due ==> w.log[j].id < w.pending[m].id;
      } else if k < |w.log| {
        assert w.log[j].at < w.log[k].at || (w.log[j].at == w.log[k].at && w.log[j].id < w.log[k].id);
      }
    }
    forall j, k | 0 <= j < |v.log| && 0 <= k < |v.pending| ensures v.log[j].at < v.pending[k].due {
      var m := StillPending(w, v, k);
      if j < |w.log| {
        assert w.log[j].at <= w.clock <= w.pending[m].due;
      } else {
        var l := WasPending(w, v, j);
      }
    }
  }

  lemma FireKeeps(w: World)
    requires Inv(w)
    ensures Inv(FireDue(w)) && Due(FireDue(w).pending, w.clock) == []
  {
    var v := FireDue(w);
    FireShape(w);
    FireLosesNone(w);
    FireOnTime(w, v);
    FireOnce(w, v);
    FireInOrder(w, v);
    NoneDueLeft(w.pending, w.clock);
  }

  lemma {:induction false} ExecuteKeeps(w: World, arrivals: seq<seq<nat>>)
    requires Inv(w)
    ensures Inv(Execute(w, arrivals)) && Execute(w, arrivals).clock == w.clock
    ensures Due(Execute(w, arrivals).pending, w.clock) == []
    ensures w.history <= Execute(w, arrivals).history
    decreases |arrivals|
  {
    FireKeeps(w);
    if Due(w.pending, w.clock) != [] && arrivals != [] {
      RegisterAllKeeps(FireDue(w), arrivals[0]);
      ExecuteKeeps(RegisterAll(FireDue(w), arrivals[0]), arrivals[1..]);
    }
  }

  lemma TickKeeps(w: World)
    requires Inv(w) && Due(w.pending, w.clock) == []
    ensures Inv(Tick(w))
  {
    NoneDueLeft(w.pending, w.clock);
    forall k | 0 <= k < |w.pending| ensures w.pending[k].due >= w.clock + 1 {
      assert w.pending[k] in w.pending;
    }
    assert forall id :: Pending(w, id) ==> Pending(Tick(w), id);
    assert forall id :: Fired(w, id) ==> Fired(Tick(w), id);
  }

  lemma ApplyKeeps(w: World, e: Event)
    requires Inv(w)
    ensures Inv(Apply(w, e))
    ensures w.history <= Apply(w, e).history
    ensures e.Advance? ==> Apply(w, e).clock == w.clock + 1 && Due(Apply(w, e).pending, w.clock + 1) == []
  {
    hide Inv;
    match e
    case Timeout(delay) => RegisterKeeps(w, delay);
    case Advance(before, after) =>
      ExecuteKeeps(w, before);
      TickKeeps(Execute(w, before));
      ExecuteKeeps(Tick(Execute(w, before)), after);
  }

  lemma {:induction false} RunKeeps(w: World, events: seq<Event>)
    requires Inv(w)
    ensures Inv(RunAll(w, events))
    ensures w.history <= RunAll(w, events).history
    decreases |events|
  {
    if events != [] {
      ApplyKeeps(w, events[0]);
      RunKeeps(Apply(w, events[0]), events[1..]);
    }
  }

  lemma {:induction false} RunClock(w: World, events: seq<Event>)
    requires Inv(w)
    ensures RunAll(w, events).clock == w.clock + Advances(events)
    decreases |events|
  {
    if events != [] {
      ApplyKeeps(w, events[0]);
      RunClock(Apply(w, events[0]), events[1..]);
    }
  }

  function Advances(events: seq<Event>): nat {
    if events == [] then 0 else (if events[0].Advance? then 1 else 0) + Advances(events[1..])
  }

  // -------------------------------------------------------------- main results

  /** Timer `id` is in the log at position `k` and nowhere else. */
  ghost predicate FiredOnlyAt(w: World, id: nat, at: nat, k: nat) {
    && k < |w.log| && w.log[k] == Firing(id, at)
    && forall j :: 0 <= j < |w.log| && w.log[j].id == id ==> j == k
  }

  /** Over every run: each registered timer either is still pending, with its deadline not
      passed, and has never been dispatched; or it has been dispatched exactly once, at its
      deadline. */
  lemma FiresExactlyOnceOnTime(events: seq<Event>, id: nat)
    requires id < |RunAll(START, events).history|
    ensures var w := RunAll(START, events);
            var due := w.history[id].due;
            if Pending(w, id) then due >= w.clock && !Fired(w, id)
            else due <= w.clock && exists k: nat :: FiredOnlyAt(w, id, due, k)
  {
    var w := RunAll(START, events);
    RunKeeps(START, events);
    if Pending(w, id) {
      var k :| 0 <= k < |w.pending| && w.pending[k].id == id;
      assert w.pending[k] == w.history[id];
    } else {
      assert Fired(w, id);
      var k :| 0 <= k < |w.log| && w.log[k].id == id;
      assert FiredOnlyAt(w, id, w.history[id].due, k);
    }
  }

  /** Over every run: timers with equal deadlines are dispatched in registration order. */
  lemma EqualDeadlinesInOrder(events: seq<Event>, j: nat, k: nat)
    requires j < k < |RunAll(START, events).log|
    requires RunAll(START, events).log[j].at == RunAll(START, events).log[k].at
    ensures RunAll(START, events).log[j].id < RunAll(START, events).log[k].id
  {
    RunKeeps(START, events);
  }

  lemma FiredIffDue(w: World, id: nat)
    requires Inv(w) && id < |w.history| && Due(w.pending, w.clock) == []
    ensures Fired(w, id) <==> w.history[id].due <= w.clock
  {
    NoneDueLeft(w.pending, w.clock);
    if Fired(w, id) {
      var k :| 0 <= k < |w.log| && w.log[k].id == id;
    } else {
      var k :| 0 <= k < |w.pending| && w.pending[k].id == id;
      assert w.pending[k] in w.pending && w.pending[k] == w.history[id];
    }
  }

  lemma StartKeeps()
    ensures Inv(START)
  {
  }

  /** After every update, the timers that have fired are exactly those whose deadline the
      clock, which counts the updates, has reached. */
  lemma FiredIffReached(events: seq<Event>, before: seq<seq<nat>>, after: seq<seq<nat>>, id: nat)
    requires id < |Apply(RunAll(START, events), Advance(before, after)).history|
    ensures var w := Apply(RunAll(START, events), Advance(before, after));
            w.clock == Advances(events) + 1 && (Fired(w, id) <==> w.history[id].due <= w.clock)
  {
    hide Inv, Apply, RunAll, Fired;
    StartKeeps();
    var u := RunAll(START, events);
    RunKeeps(START, events);
    RunClock(START, events);
    ApplyKeeps(u, Advance(before, after));
    FiredIffDue(Apply(u, Advance(before, after)), id);
  }

  // ------------------------------------------------------------ read off the events

  lemma {:induction false} RunOn(w: World, events: seq<Event>, more: seq<Event>)
    ensures RunAll(w, events + more) == RunAll(RunAll(w, events), more)
    decreases |events|
  {
    hide Apply;
    if events == [] {
      assert events + more == more;
    } else {
      assert (events + more)[0] == events[0] && (events + more)[1..] == events[1..] + more;
      RunOn(Apply(w, events[0]), events[1..], more);
    }
  }

  lemma {:induction false} RegisteredStay(w: World, delays: seq<nat>)
    ensures w.history <= RegisterAll(w, delays).history
    ensures forall k :: 0 <= k < |delays| ==>
      |RegisterAll(w, delays).history| == |w.history| + |delays| && RegisterAll(w, delays).history[|w.history| + k].due == w.clock + delays[k]
    decreases |delays|
  {
    if delays != [] {
      var v := Register(w, delays[0]);
      RegisteredStay(v, delays[1..]);
      var r := RegisterAll(w, delays);
      assert |r.history| == |w.history| + |delays| by { if |delays| > 1 { assert 0 < |delays[1..]|; } else { assert delays[1..] == []; } }
      forall k | 0 <= k < |delays| ensures r.history[|w.history| + k].due == w.clock + delays[k] {
        if k == 0 { assert r.history[|w.history|] == v.history[|w.history|]; } else { assert delays[1..][k - 1] == delays[k]; }
      }
    }
  }

  /** Fired once, at that tick. */
  ghost predicate FiredAt(w: World, id: nat, at: nat) { exists k: nat :: FiredOnlyAt(w, id, at, k) }

  /** A timer that is registered with a delay after some updates has fired after as many updates more as
      the delay says (with a delay of zero, after one), not earlier, once, and at that tick. */
  lemma FiresAfterDelay(events: seq<Event>, delay: nat, more: seq<Event>, before: seq<seq<nat>>, after: seq<seq<nat>>)
    ensures var id, w := |RunAll(START, events).history|, RunAll(START, events + ([Timeout(delay)] + (more + [Advance(before, after)])));
            && id < |w.history| && w.history[id].due == Advances(events) + delay
            && (Fired(w, id) <==> Advances(more) + 1 >= delay)
            && (Fired(w, id) ==> FiredAt(w, id, Advances(events) + delay))
  {
    hide Apply, RunAll, Fired, Pending, Advances, Inv, FiredOnlyAt;
    var u := RunAll(START, events);
    var id, tail := |u.history|, more + [Advance(before, after)];
    var all := events + ([Timeout(delay)] + more);
    StartKeeps();
    RunKeeps(START, events);
    RunClock(START, events);
    RegisterOne(u, delay);
    ApplyKeeps(u, Timeout(delay));
    OneEvent(u, Timeout(delay));
    RunOn(START, events, [Timeout(delay)] + tail);
    RunOn(u, [Timeout(delay)], tail);
    RunKeeps(Apply(u, Timeout(delay)), tail);
    assert events + ([Timeout(delay)] + tail) == all + [Advance(before, after)];
    RunOn(START, all, [Advance(before, after)]);
    OneEvent(RunAll(START, all), Advance(before, after));
    FiredIffReached(all, before, after, id);
    CountAdvances(events, [Timeout(delay)] + more);
    CountAdvances([Timeout(delay)], more);
    NoAdvance(delay);
    FiresExactlyOnceOnTime(events + ([Timeout(delay)] + tail), id);
  }

  lemma {:induction false} CountAdvances(a: seq<Event>, b: seq<Event>)
    ensures Advances(a + b) == Advances(a) + Advances(b)
    decreases |a|
  {
    if a == [] {
      assert a + b == b;
    } else {
      assert (a + b)[0] == a[0] && (a + b)[1..] == a[1..] + b;
      CountAdvances(a[1..], b);
    }
  }

  lemma NoAdvance(delay: nat)
    ensures Advances([Timeout(delay)]) == 0
  {
    assert [Timeout(delay)][1..] == [];
  }

  lemma RegisterOne(w: World, delay: nat)
    ensures var v := Apply(w, Timeout(delay));
            |v.history| == |w.history| + 1 && v.history[|w.history|].due == w.clock + delay
  {
  }

  lemma OneEvent(w: World, e: Event)
    ensures RunAll(w, [e]) == Apply(w, e)
  {
    hide Apply;
    assert [e][1..] == [] && RunAll(Apply(w, e), []) == Apply(w, e);
  }
}
