/** The hierarchical timing wheel (src/timer.c): 256 near slots, four levels of 64 far slots,
    cascading when the low bits of the 32-bit time roll over.  Every method is proved to do
    what TimerSpec.dfy says, for all times, including across the wrap of `time`.
 */
module TimerWheel {
  import opened Basics
  import opened TimerSpec

  const TIMER_NEAR := 256
  const TIMER_LEVEL := 64
  const WRAP := 0x1_0000_0000
  const HALF := 0x8000_0000

  /** `id` stands for the user data that follows the node. */
  datatype Node = Node(expire: nat, id: nat)

  datatype Place = Near(slot: nat) | Far(level: nat, slot: nat)

  ghost predicate InWheel(pl: Place) {
    match pl
    case Near(k) => k < TIMER_NEAR
    case Far(i, k) => i < 4 && k < TIMER_LEVEL
  }

  /** x >> (TIMER_NEAR_SHIFT + level * TIMER_LEVEL_SHIFT): the number of the block of that
      level that contains x. */
  function Block(x: nat, level: nat): nat {
    if level == 0 then x / TIMER_NEAR else Block(x, level - 1) / TIMER_LEVEL
  }

  /** Where a timer belongs: near when its deadline is in the current block of 256 ticks,
      otherwise at the lowest level whose next larger block contains clock and deadline. */
  function PlaceOf(due: nat, clock: nat): (pl: Place)
    ensures InWheel(pl)
  {
    if Block(due, 0) == Block(clock, 0) then Near(due % TIMER_NEAR)
    else
      var i := if Block(due, 1) == Block(clock, 1) then 0
               else if Block(due, 2) == Block(clock, 2) then 1
               else if Block(due, 3) == Block(clock, 3) then 2 else 3;
      Far(i, Block(due, i) % TIMER_LEVEL)
  }

  // --------------------------------------------------------------- arithmetic

  ghost predicate Soon(due: nat, clock: nat) { clock <= due < clock + HALF }

  lemma BlockWraps(x: nat)
    ensures Block(x % WRAP, 0) == Block(x, 0) % 0x100_0000
    ensures Block(x % WRAP, 1) == Block(x, 1) % 0x4_0000
    ensures Block(x % WRAP, 2) == Block(x, 2) % 0x1000
    ensures Block(x % WRAP, 3) == Block(x, 3) % 64
  {
    var y, q := x % WRAP, x / WRAP;
    DivStep(x, y, q, 0x100_0000, TIMER_NEAR);
    DivStep(Block(x, 0), Block(y, 0), q, 0x4_0000, TIMER_LEVEL);
    DivStep(Block(x, 1), Block(y, 1), q, 0x1000, TIMER_LEVEL);
    DivStep(Block(x, 2), Block(y, 2), q, 64, TIMER_LEVEL);
  }

  lemma DivStep(x: nat, y: nat, q: nat, m: nat, d: nat)
    requires d > 0 && x == q * (m * d) + y && y < m * d
    ensures x / d == q * m + y / d && y / d < m && x / d % m == y / d
  {
    var b, r := y / d, y % d;
    assert y == b * d + r;
    Products(q, m, d, b);
    QuotientIs(x, d, q * m + b, r);
    MultipleIsLarge(b - m, d);
    assert (b - m) * d == b * d - m * d;
    QuotientIs(q * m + b, m, q, b);
  }

  lemma Products(q: nat, m: nat, d: nat, b: nat)
    ensures (q * m + b) * d == q * (m * d) + b * d
  {
    assert q * (m * d) == (q * m) * d;
  }

  lemma QuotientIs(x: nat, d: nat, q: nat, r: nat)
    requires x == q * d + r && r < d
    ensures x / d == q && x % d == r
  {
    var k: int := x / d - q;
    assert k * d == r - x % d;
    MultipleIsLarge(k, d);
  }

  lemma ModEqual(x: nat, y: nat, m: nat)
    requires y <= x < y + m
    ensures x % m == y % m <==> x == y
  {
    var k: int := x / m - y / m;
    assert x - y == k * m + (x % m - y % m);
    MultipleIsLarge(k, m);
  }

  lemma ModMod(x: nat, k: nat)
    requires k > 0
    ensures x % (64 * k) % 64 == x % 64
  {
    var q, r := x / (64 * k), x % (64 * k);
    assert x == 64 * (k * q) + r;
  }

  lemma WrapKeepsNearSlot(x: nat)
    ensures x % WRAP % TIMER_NEAR == x % TIMER_NEAR
  {
    assert x == x / WRAP * 0x100_0000 * 256 + x % WRAP;
  }

  lemma BlocksSoon(due: nat, clock: nat)
    requires Soon(due, clock)
    ensures Block(clock, 0) <= Block(due, 0) < Block(clock, 0) + 0x100_0000
    ensures Block(clock, 1) <= Block(due, 1) < Block(clock, 1) + 0x4_0000
    ensures Block(clock, 2) <= Block(due, 2) < Block(clock, 2) + 0x1000
    ensures Block(clock, 3) <= Block(due, 3) < Block(clock, 3) + 64
  {
    assert Block(due, 0) <= Block(clock, 0) + 0x80_0000;
    assert Block(due, 1) <= Block(clock, 1) + 0x2_0000;
    assert Block(due, 2) <= Block(clock, 2) + 0x800;
    assert Block(due, 3) <= Block(clock, 3) + 32;
  }

  /** Comparing blocks of the wrapped times is comparing blocks of the unwrapped ones, and
      the wrapped deadline selects the same slots. */
  lemma WrappedBlocks(due: nat, clock: nat, level: nat)
    requires Soon(due, clock) && level <= 3
    ensures Block(due % WRAP, level) == Block(clock % WRAP, level) <==> Block(due, level) == Block(clock, level)
    ensures Block(due % WRAP, level) % TIMER_LEVEL == Block(due, level) % TIMER_LEVEL
    ensures due % WRAP % TIMER_NEAR == due % TIMER_NEAR
  {
    hide Block;
    BlockWraps(due);
    BlockWraps(clock);
    BlocksSoon(due, clock);
    WrapKeepsNearSlot(due);
    match level
    case 0 => ModEqual(Block(due, 0), Block(clock, 0), 0x100_0000); ModMod(Block(due, 0), 0x4_0000);
    case 1 => ModEqual(Block(due, 1), Block(clock, 1), 0x4_0000); ModMod(Block(due, 1), 0x1000);
    case 2 => ModEqual(Block(due, 2), Block(clock, 2), 0x1000); ModMod(Block(due, 2), 64);
    case _ => ModEqual(Block(due, 3), Block(clock, 3), 64); ModMod(Block(due, 3), 1);
  }

  /** The slot that is emptied when the time becomes `clock`, if any: the highest level whose
      block starts there. */
  datatype Cascade = NoCascade | Move(level: nat, slot: nat)

  function CascadeAt(clock: nat): Cascade {
    if clock % TIMER_NEAR != 0 then NoCascade
    else if Block(clock, 0) % TIMER_LEVEL != 0 then Move(0, Block(clock, 0) % TIMER_LEVEL)
    else if Block(clock, 1) % TIMER_LEVEL != 0 then Move(1, Block(clock, 1) % TIMER_LEVEL)
    else if Block(clock, 2) % TIMER_LEVEL != 0 then Move(2, Block(clock, 2) % TIMER_LEVEL)
    else Move(3, Block(clock, 3) % TIMER_LEVEL)
  }

  ghost predicate Moves(due: nat, clock: nat) {
    var c := CascadeAt(clock + 1);
    c.Move? && PlaceOf(due, clock) == Far(c.level, c.slot)
  }

  /** Consecutive block numbers share their enclosing block unless a new one starts. */
  lemma NextBlock(b: nat)
    ensures (b + 1) / TIMER_LEVEL == if (b + 1) % TIMER_LEVEL == 0 then b / TIMER_LEVEL + 1 else b / TIMER_LEVEL
  {
  }

  lemma NextBlocks(clock: nat)
    ensures Block(clock + 1, 0) == Block(clock, 0) + if (clock + 1) % TIMER_NEAR == 0 then 1 else 0
    ensures forall i :: 1 <= i <= 3 ==> Block(clock + 1, i) == Block(clock, i) + Carry(clock, i)
  {
    NextBlock(Block(clock, 0));
    NextBlock(Block(clock, 1));
    NextBlock(Block(clock, 2));
    assert Block(clock + 1, 1) == Block(clock, 1) + Carry(clock, 1);
    assert Block(clock + 1, 2) == Block(clock, 2) + Carry(clock, 2);
    assert Block(clock + 1, 3) == Block(clock, 3) + Carry(clock, 3);
  }

  /** Does a new block of `level` start at clock + 1 because one of the level below did? */
  function Carry(clock: nat, level: nat): nat
    requires 1 <= level <= 3
  {
    var b := Block(clock + 1, level - 1);
    if b == Block(clock, level - 1) + 1 && b % TIMER_LEVEL == 0 then 1 else 0
  }

  lemma BlocksMonotone(x: nat, y: nat)
    requires x <= y
    ensures forall i :: 0 <= i <= 3 ==> Block(x, i) <= Block(y, i)
  {
    assert Block(x, 0) <= Block(y, 0);
    assert Block(x, 1) <= Block(y, 1);
    assert Block(x, 2) <= Block(y, 2);
    assert Block(x, 3) <= Block(y, 3);
  }

  ghost predicate Below(pl: Place, level: nat) { pl.Near? || pl.level < level }

  /** One tick on, a waiting timer that is not in the slot that comes up stays where it is. */
  lemma StaysPut(due: nat, clock: nat)
    requires Soon(due, clock) && due != clock && !Moves(due, clock)
    ensures PlaceOf(due, clock + 1) == PlaceOf(due, clock)
  {
    NextBlocks(clock);
    BlocksMonotone(clock + 1, due);
    BlocksSoon(due, clock);
  }

  /** A timer in the slot that comes up moves down. */
  lemma MovesDown(due: nat, clock: nat)
    requires Soon(due, clock) && due != clock && Moves(due, clock)
    ensures Below(PlaceOf(due, clock + 1), CascadeAt(clock + 1).level)
  {
    NextBlocks(clock);
    BlocksMonotone(clock + 1, due);
    BlocksSoon(due, clock);
  }

  /** Before the tick, no waiting timer was below the level that comes up. */
  lemma NoneBelow(due: nat, clock: nat)
    requires Soon(due, clock) && due != clock && CascadeAt(clock + 1).Move?
    ensures !Below(PlaceOf(due, clock), CascadeAt(clock + 1).level)
  {
    NextBlocks(clock);
    BlocksMonotone(clock + 1, due);
  }

  // -------------------------------------------------------------------- lists

  /** The nodes of the waiting timers that belong in a slot, in registration order. */
  ghost function ListOf(p: seq<Timer>, clock: nat, pl: Place): seq<Node> {
    if p == [] then []
    else
      var t := p[|p| - 1];
      ListOf(p[..|p| - 1], clock, pl) + (if PlaceOf(t.due, clock) == pl then [Node(t.due % WRAP, t.id)] else [])
  }

  ghost predicate AllSoon(p: seq<Timer>, clock: nat) {
    forall k :: 0 <= k < |p| ==> Soon(p[k].due, clock)
  }

  lemma ListOfPush(p: seq<Timer>, t: Timer, clock: nat, pl: Place)
    ensures ListOf(p + [t], clock, pl) ==
            ListOf(p, clock, pl) + (if PlaceOf(t.due, clock) == pl then [Node(t.due % WRAP, t.id)] else [])
  {
    assert (p + [t])[..|p|] == p;
  }

  /** The near slot of the current time holds exactly the timers due now. */
  lemma {:induction false} NearSlotIsDue(p: seq<Timer>, clock: nat)
    requires AllSoon(p, clock)
    ensures ListOf(p, clock, Near(clock % TIMER_NEAR)) == NodesOf(Due(p, clock))
    decreases |p|
  {
    if p != [] {
      var q, t := p[..|p| - 1], p[|p| - 1];
      NearSlotIsDue(q, clock);
      if t.due == clock {
        assert NodesOf(Due(q, clock) + [t]) == NodesOf(Due(q, clock)) + [Node(t.due % WRAP, t.id)];
      } else {
        assert PlaceOf(t.due, clock) != Near(clock % TIMER_NEAR);
      }
    }
  }

  ghost function NodesOf(p: seq<Timer>): seq<Node> {
    seq(|p|, k requires 0 <= k < |p| => Node(p[k].due % WRAP, p[k].id))
  }

  lemma {:induction false} FiringEmptiesOneList(p: seq<Timer>, clock: nat, pl: Place)
    requires AllSoon(p, clock)
    ensures ListOf(NotDue(p, clock), clock, pl) ==
            if pl == Near(clock % TIMER_NEAR) then [] else ListOf(p, clock, pl)
    decreases |p|
  {
    if p != [] {
      var q, t := p[..|p| - 1], p[|p| - 1];
      FiringEmptiesOneList(q, clock, pl);
      if t.due != clock {
        ListOfPush(NotDue(q, clock), t, clock, pl);
        assert PlaceOf(t.due, clock) != Near(clock % TIMER_NEAR);
      } else {
        assert PlaceOf(t.due, clock) == Near(clock % TIMER_NEAR) && NotDue(p, clock) == NotDue(q, clock);
      }
    }
  }

  /** The code places a node by its 32-bit deadline and the 32-bit time; that is the place its
      timer belongs in. */
  lemma PlacedByWrappedTimes(due: nat, clock: nat)
    requires Soon(due, clock)
    ensures PlaceOf(due % WRAP, clock % WRAP) == PlaceOf(due, clock)
  {
    WrappedBlocks(due, clock, 0);
    WrappedBlocks(due, clock, 1);
    WrappedBlocks(due, clock, 2);
    WrappedBlocks(due, clock, 3);
  }

  /** The nodes of a list that go to place `pl` when the time is `time`. */
  ghost function Pick(nodes: seq<Node>, time: nat, pl: Place): seq<Node> {
    if nodes == [] then []
    else
      var n := nodes[|nodes| - 1];
      Pick(nodes[..|nodes| - 1], time, pl) + (if PlaceOf(n.expire, time) == pl then [n] else [])
  }

  lemma PickPush(nodes: seq<Node>, n: Node, time: nat, pl: Place)
    ensures Pick(nodes + [n], time, pl) == Pick(nodes, time, pl) + (if PlaceOf(n.expire, time) == pl then [n] else [])
  {
    assert (nodes + [n])[..|nodes|] == nodes;
  }

  /** The list at a place while the nodes of another list are added. */
  ghost function Growing(before: seq<Node>, nodes: seq<Node>, k: nat, time: nat, pl: Place): seq<Node>
    requires k <= |nodes|
  {
    before + Pick(nodes[..k], time, pl)
  }

  lemma GrowingNext(before: seq<Node>, nodes: seq<Node>, k: nat, time: nat, pl: Place)
    requires k < |nodes|
    ensures Growing(before, nodes, k + 1, time, pl) ==
            if PlaceOf(nodes[k].expire, time) == pl then Growing(before, nodes, k, time, pl) + [nodes[k]]
            else Growing(before, nodes, k, time, pl)
  {
    assert nodes[..k + 1] == nodes[..k] + [nodes[k]];
    PickPush(nodes[..k], nodes[k], time, pl);
  }

  lemma GrowingAll(before: seq<Node>, nodes: seq<Node>, time: nat, pl: Place)
    ensures Growing(before, nodes, 0, time, pl) == before
    ensures Growing(before, nodes, |nodes|, time, pl) == before + Pick(nodes, time, pl)
  {
    assert nodes[..|nodes|] == nodes;
  }

  ghost predicate AllLater(p: seq<Timer>, clock: nat) {
    forall k :: 0 <= k < |p| ==> Soon(p[k].due, clock) && p[k].due != clock
  }

  lemma {:induction false} NothingMoves(p: seq<Timer>, clock: nat, pl: Place)
    requires AllLater(p, clock) && CascadeAt(clock + 1) == NoCascade
    ensures ListOf(p, clock + 1, pl) == ListOf(p, clock, pl)
    decreases |p|
  {
    if p != [] {
      NothingMoves(p[..|p| - 1], clock, pl);
      StaysPut(p[|p| - 1].due, clock);
    }
  }

  /** Re-adding the nodes of the slot that comes up, in order, turns the lists of this tick
      into the lists of the next. */
  lemma {:induction false} CascadeMoves(p: seq<Timer>, clock: nat, pl: Place)
    requires AllLater(p, clock) && CascadeAt(clock + 1).Move?
    ensures var c := CascadeAt(clock + 1);
            var up := Far(c.level, c.slot);
            var picked := Pick(ListOf(p, clock, up), (clock + 1) % WRAP, pl);
            if pl == up then ListOf(p, clock + 1, pl) == [] && picked == []
            else if Below(pl, c.level) then ListOf(p, clock, pl) == [] && ListOf(p, clock + 1, pl) == picked
            else ListOf(p, clock + 1, pl) == ListOf(p, clock, pl) && picked == []
    decreases |p|
  {
    hide PlaceOf, Block, CascadeAt;
    if p != [] {
      var q, t := p[..|p| - 1], p[|p| - 1];
      var c := CascadeAt(clock + 1);
      var up := Far(c.level, c.slot);
      CascadeMoves(q, clock, pl);
      NoneBelow(t.due, clock);
      if Moves(t.due, clock) {
        MovesDown(t.due, clock);
        PlacedByWrappedTimes(t.due, clock + 1);
        assert PlaceOf(t.due, clock + 1) != up;
        PickPush(ListOf(q, clock, up), Node(t.due % WRAP, t.id), (clock + 1) % WRAP, pl);
      } else {
        StaysPut(t.due, clock);
        assert ListOf(p, clock, up) == ListOf(q, clock, up);
      }
    }
  }

  // -------------------------------------------------------------------- wheel

  class Wheel {
    const near: array<seq<Node>>
    const far: array2<seq<Node>>
    var time: nat
    /** The number of registrations so far; it stands for the caller's user data. */
    var count: nat
    ghost var world: World

    ghost predicate Shape()
    {
      near.Length == TIMER_NEAR && far.Length0 == 4 && far.Length1 == TIMER_LEVEL
    }

    /** The timer list at a place (an intrusive list in the source, appended at its tail). */
    ghost function List(pl: Place): seq<Node>
      requires Shape() && InWheel(pl)
      reads near, far
    {
      match pl
      case Near(k) => near[k]
      case Far(i, k) => far[i, k]
    }

    ghost predicate Holds(p: seq<Timer>, clock: nat)
      requires Shape()
      reads near, far
    {
      forall pl :: InWheel(pl) ==> List(pl) == ListOf(p, clock, pl)
    }

    ghost predicate Valid()
      reads this, near, far
    {
      && Shape() && Inv(world) && AllSoon(world.pending, world.clock)
      && time == world.clock % WRAP && count == |world.history|
      && Holds(world.pending, world.clock)
    }

    constructor ()
      ensures Valid() && world == START && fresh(near) && fresh(far)
    {
      near := new seq<Node>[TIMER_NEAR](_ => []);
      far := new seq<Node>[4, TIMER_LEVEL]((_, _) => []);
      time, count := 0, 0;
      world := START;
    }

    method AddNode(node: Node)
      requires Shape()
      modifies near, far
      ensures forall pl :: InWheel(pl) ==>
        List(pl) == if pl == PlaceOf(node.expire, time) then old(List(pl)) + [node] else old(List(pl))
    {
      if node.expire / TIMER_NEAR == time / TIMER_NEAR {
        var k := node.expire % TIMER_NEAR;
        near[k] := near[k] + [node];
      } else {
        var i := 0;
        var e, t := node.expire / TIMER_NEAR, time / TIMER_NEAR;
        while i < 3
          invariant 0 <= i <= 3 && e == Block(node.expire, i) && t == Block(time, i)
          invariant forall k :: 0 <= k <= i ==> Block(node.expire, k) != Block(time, k)
        {
          if e / TIMER_LEVEL == t / TIMER_LEVEL { break; }
          e, t, i := e / TIMER_LEVEL, t / TIMER_LEVEL, i + 1;
        }
        var k := e % TIMER_LEVEL;
        far[i, k] := far[i, k] + [node];
      }
    }

    /** Empties a far slot and adds its nodes again, in order. */
    method MoveList(level: nat, idx: nat)
      requires Shape() && level < 4 && idx < TIMER_LEVEL
      modifies near, far
      ensures forall pl :: InWheel(pl) ==>
        List(pl) == (if pl == Far(level, idx) then [] else old(List(pl))) + Pick(old(far[level, idx]), time, pl)
    {
      hide PlaceOf, Block, InWheel, Growing;
      var nodes := far[level, idx];
      far[level, idx] := [];
      var k := 0;
      forall pl | InWheel(pl) ensures Growing(if pl == Far(level, idx) then [] else old(List(pl)), nodes, 0, time, pl) ==
        if pl == Far(level, idx) then [] else old(List(pl))
      {
        GrowingAll(if pl == Far(level, idx) then [] else old(List(pl)), nodes, time, pl);
      }
      while k < |nodes|
        invariant 0 <= k <= |nodes|
        invariant forall pl :: InWheel(pl) ==>
          List(pl) == Growing(if pl == Far(level, idx) then [] else old(List(pl)), nodes, k, time, pl)
      {
        ghost var before := k;
        AddNode(nodes[k]);
        k := k + 1;
        forall pl | InWheel(pl)
          ensures List(pl) == Growing(if pl == Far(level, idx) then [] else old(List(pl)), nodes, k, time, pl)
        {
          GrowingNext(if pl == Far(level, idx) then [] else old(List(pl)), nodes, before, time, pl);
        }
      }
      forall pl | InWheel(pl)
        ensures List(pl) == (if pl == Far(level, idx) then [] else old(List(pl))) + Pick(nodes, time, pl)
      {
        GrowingAll(if pl == Far(level, idx) then [] else old(List(pl)), nodes, time, pl);
      }
    }

    /** Registers a timer: `delay` ticks from now, a non-negative C int. */
    method Timeout(delay: nat)
      requires Valid() && delay < HALF
      modifies this, near, far
      ensures Valid() && world == Register(old(world), delay)
    {
      hide PlaceOf, Block, Inv, ListOf;
      ghost var w, t := world, Timer(|world.history|, world.clock + delay);
      RegisterKeeps(w, delay);
      world := Register(w, delay);
      assert (time + delay) % WRAP == t.due % WRAP by { AddWrapped(w.clock, delay); }
      PlacedByWrappedTimes(t.due, w.clock);
      AddNode(Node((time + delay) % WRAP, count));
      count := count + 1;
      ListsAfterRegister(w, delay);
    }

    method RegisterMany(delays: seq<nat>)
      requires Valid()
      requires forall j :: 0 <= j < |delays| ==> delays[j] < HALF
      modifies this, near, far
      ensures Valid() && world == RegisterAll(old(world), delays)
    {
      var k := 0;
      while k < |delays|
        invariant 0 <= k <= |delays| && Valid()
        invariant RegisterAll(world, delays[k..]) == RegisterAll(old(world), delays)
      {
        assert delays[k..][1..] == delays[k + 1..];
        Timeout(delays[k]);
        k := k + 1;
      }
    }

    /** Fires what is due until nothing is.  While a batch is dispatched the lock is free, and
        `arrivals` are the registrations of that time.  Returns the dispatched timers. */
    method Execute(arrivals: seq<seq<nat>>) returns (fired: seq<nat>)
      requires Valid() && AllShort(arrivals)
      modifies this, near, far
      ensures Valid() && world == TimerSpec.Execute(old(world), arrivals)
      ensures world.log == old(world.log) + Stamped(fired, world.clock)
    {
      hide PlaceOf, Block, Inv, ListOf, Due, NodesOf, Stamped, Ids, RegisterAll, Firings;
      fired := [];
      StampedNone(world.clock);
      EmptyNodes(world);
      assert arrivals[0..] == arrivals;
      var idx := time % TIMER_NEAR;
      var k := 0;
      NearIsDue(world);
      while near[idx] != []
        invariant Valid() && world.clock == old(world.clock) && idx == time % TIMER_NEAR
        invariant 0 <= k <= |arrivals|
        invariant near[idx] == NodesOf(Due(world.pending, world.clock))
        invariant TimerSpec.Execute(world, arrivals[k..]) == TimerSpec.Execute(old(world), arrivals)
        invariant world.log == old(world.log) + Stamped(fired, world.clock)
        decreases |arrivals| - k, |world.pending|
      {
        var batch := near[idx];
        near[idx] := [];
        ghost var w := world;
        AfterFire(w);
        world := FireDue(w);
        StampedIds(fired, batch, w);
        EmptyNodes(w);
        fired := fired + Ids(batch);
        if k < |arrivals| {
          RegisterMany(arrivals[k]);
          RegisterAllKeeps(FireDue(w), arrivals[k]);
          RegisterAllLog(FireDue(w), arrivals[k]);
          assert arrivals[k..][1..] == arrivals[k + 1..];
          k := k + 1;
        }
        NearIsDue(world);
      }
      EmptyNodes(world);
    }

    /** The next tick. */
    method Shift()
      requires Valid() && Due(world.pending, world.clock) == []
      modifies this, near, far
      ensures Valid() && world == Tick(old(world))
    {
      hide PlaceOf, Block, Inv, ListOf, Pick;
      ghost var w := world;
      TickKeeps(w);
      AllLaterThanNow(w);
      TimeOfTick(w.clock);
      time := (time + 1) % WRAP;
      world := Tick(w);
      BlockDefined(time);
      assert time == (w.clock + 1) % WRAP;
      if time == 0 {
        assert InWheel(Far(3, 0)) && far[3, 0] == List(Far(3, 0)) == ListOf(w.pending, w.clock, Far(3, 0));
        MoveList(3, 0);
        AfterCascade(w);
      } else {
        var i, mask, high := 0, TIMER_NEAR, time / TIMER_NEAR;
        MaskFacts(time);
        while time % mask == 0
          invariant 0 <= i <= 3 && high == Block(time, i) && mask == MaskOf(i)
          invariant LowBlocksZero(time, i)
          invariant unchanged(near) && unchanged(far) && unchanged(`count)
          invariant 0 < time == (w.clock + 1) % WRAP && world == Tick(w)
          decreases 3 - i
        {
          var idx := high % TIMER_LEVEL;
          BlockDefined(time);
          if idx != 0 {
            CascadeFound(time, i);
            assert InWheel(Far(i, idx)) && far[i, idx] == List(Far(i, idx)) == ListOf(w.pending, w.clock, Far(i, idx));
            MoveList(i, idx);
            AfterCascade(w);
            return;
          }
          LastMask(time, i);
          mask, high, i := mask * TIMER_LEVEL, high / TIMER_LEVEL, i + 1;
        }
        NoneFound(time, i);
        AfterPlainTick(w);
      }
    }

    /** One call of timer_update's loop body. */
    method Update(before: seq<seq<nat>>, after: seq<seq<nat>>) returns (late: seq<nat>, now: seq<nat>)
      requires Valid() && AllShort(before) && AllShort(after)
      modifies this, near, far
      ensures Valid() && world == TimerSpec.Update(old(world), before, after)
      ensures world.clock == old(world.clock) + 1
      ensures world.log == old(world.log) + Stamped(late, old(world.clock)) + Stamped(now, world.clock)
    {
      hide Inv, Due, Stamped, Holds, AllSoon, TimerSpec.Execute;
      ghost var w := world;
      late := Execute(before);
      ExecuteKeeps(w, before);
      Shift();
      ExecuteKeeps(world, after);
      now := Execute(after);
    }
  }

  /** Every delay is a non-negative C int. */
  ghost predicate AllInts(events: seq<Event>) {
    forall k :: 0 <= k < |events| ==>
      match events[k]
      case Timeout(delay) => delay < HALF
      case Advance(before, after) => AllShort(before) && AllShort(after)
  }

  /** A whole run of the wheel: the timers dispatched, with the ticks at which they were. */
  method RunWheel(events: seq<Event>) returns (fired: seq<Firing>)
    requires AllInts(events)
    ensures fired == RunAll(START, events).log
  {
    hide Inv, Apply, Stamped;
    var w := new Wheel();
    var clock := 0;
    fired := [];
    for i := 0 to |events|
      invariant w.Valid() && fresh(w) && fresh(w.near) && fresh(w.far)
      invariant RunAll(START, events) == RunAll(w.world, events[i..])
      invariant w.world.log == fired && w.world.clock == clock
    {
      RunFirst(w.world, events, i);
      ApplyIs(w.world, events[i]);
      match events[i]
      case Timeout(delay) => w.Timeout(delay);
      case Advance(before, after) =>
        var late, now := w.Update(before, after);
        fired := fired + Stamped(late, clock) + Stamped(now, clock + 1);
        clock := clock + 1;
    }
    assert events[|events|..] == [];
  }

  lemma RunFirst(w: World, events: seq<Event>, i: nat)
    requires i < |events|
    ensures RunAll(w, events[i..]) == RunAll(Apply(w, events[i]), events[i + 1..])
  {
    assert events[i..][1..] == events[i + 1..];
  }

  lemma ApplyIs(w: World, e: Event)
    ensures e.Timeout? ==> Apply(w, e) == Register(w, e.delay) && Apply(w, e).log == w.log && Apply(w, e).clock == w.clock
    ensures e.Advance? ==> Apply(w, e) == TimerSpec.Update(w, e.before, e.after)
  {
  }

  ghost predicate AllShort(arrivals: seq<seq<nat>>) {
    forall k, j :: 0 <= k < |arrivals| && 0 <= j < |arrivals[k]| ==> arrivals[k][j] < HALF
  }

  function Ids(nodes: seq<Node>): seq<nat> { seq(|nodes|, k requires 0 <= k < |nodes| => nodes[k].id) }

  function Stamped(ids: seq<nat>, clock: nat): seq<Firing> {
    seq(|ids|, k requires 0 <= k < |ids| => Firing(ids[k], clock))
  }

  function MaskOf(i: nat): nat {
    match i
    case 0 => 256
    case 1 => 16384
    case 2 => 1048576
    case _ => 67108864
  }

  lemma StampedNone(clock: nat)
    ensures Stamped([], clock) == []
  {
  }

  lemma {:induction false} RegisterAllLog(w: World, delays: seq<nat>)
    ensures RegisterAll(w, delays).log == w.log
    decreases |delays|
  {
    if delays != [] { RegisterAllLog(Register(w, delays[0]), delays[1..]); }
  }

  lemma EmptyNodes(w: World)
    ensures NodesOf(Due(w.pending, w.clock)) == [] <==> Due(w.pending, w.clock) == []
  {
  }

  lemma BlockDefined(x: nat)
    ensures Block(x, 0) == x / TIMER_NEAR
    ensures forall i :: 0 < i <= 3 ==> Block(x, i) == Block(x, i - 1) / TIMER_LEVEL
    ensures CascadeAt(0) == Move(3, 0)
  {
  }

  lemma AddWrapped(clock: nat, delay: nat)
    ensures (clock % WRAP + delay) % WRAP == (clock + delay) % WRAP
  {
  }

  lemma ListsAfterRegister(w: World, delay: nat)
    ensures forall pl :: InWheel(pl) ==>
      ListOf(Register(w, delay).pending, w.clock, pl) == ListOf(w.pending, w.clock, pl) +
      (if PlaceOf(w.clock + delay, w.clock) == pl then [Node((w.clock + delay) % WRAP, |w.history|)] else [])
  {
    hide ListOf, PlaceOf, Block, InWheel;
    forall pl | InWheel(pl) {
      ListOfPush(w.pending, Timer(|w.history|, w.clock + delay), w.clock, pl);
    }
  }

  lemma NearIsDue(w: World)
    requires AllSoon(w.pending, w.clock)
    ensures ListOf(w.pending, w.clock, Near(w.clock % WRAP % TIMER_NEAR)) == NodesOf(Due(w.pending, w.clock))
  {
    NearSlotIsDue(w.pending, w.clock);
    WrapKeepsNearSlot(w.clock);
  }

  lemma {:induction false} SelectSizes(p: seq<Timer>, clock: nat)
    ensures |Due(p, clock)| + |NotDue(p, clock)| == |p|
    decreases |p|
  {
    if p != [] { SelectSizes(p[..|p| - 1], clock); }
  }

  lemma AfterFire(w: World)
    requires Inv(w) && AllSoon(w.pending, w.clock)
    ensures var v := FireDue(w);
            Inv(v) && AllSoon(v.pending, v.clock) && Due(v.pending, v.clock) == []
    ensures |FireDue(w).pending| == |w.pending| - |Due(w.pending, w.clock)|
    ensures forall pl :: InWheel(pl) ==>
      ListOf(FireDue(w).pending, w.clock, pl) ==
      if pl == Near(w.clock % WRAP % TIMER_NEAR) then [] else ListOf(w.pending, w.clock, pl)
  {
    FireKeeps(w);
    FireShape(w);
    SelectSizes(w.pending, w.clock);
    WrapKeepsNearSlot(w.clock);
    forall pl | InWheel(pl) {
      FiringEmptiesOneList(w.pending, w.clock, pl);
    }
  }

  lemma StampedIds(fired: seq<nat>, batch: seq<Node>, w: World)
    requires batch == NodesOf(Due(w.pending, w.clock))
    ensures Stamped(fired + Ids(batch), w.clock) == Stamped(fired, w.clock) + Firings(Due(w.pending, w.clock), w.clock)
  {
  }

  lemma AllLaterThanNow(w: World)
    requires Inv(w) && AllSoon(w.pending, w.clock) && Due(w.pending, w.clock) == []
    ensures AllLater(w.pending, w.clock) && AllSoon(w.pending, w.clock + 1)
  {
    NoneDueLeft(w.pending, w.clock);
    forall k | 0 <= k < |w.pending| ensures w.pending[k].due != w.clock {
      assert w.pending[k] in w.pending;
    }
  }

  lemma MaskFacts(x: nat)
    ensures x % 16384 == 0 <==> x % 256 == 0 && Block(x, 0) % 64 == 0
    ensures x % 1048576 == 0 <==> x % 16384 == 0 && Block(x, 1) % 64 == 0
    ensures x % 67108864 == 0 <==> x % 1048576 == 0 && Block(x, 2) % 64 == 0
    ensures 0 < x < WRAP && x % 67108864 == 0 ==> Block(x, 3) % 64 != 0
  {
    var b0, b1, b2, b3 := Block(x, 0), Block(x, 1), Block(x, 2), Block(x, 3);
    BlockDefined(x);
    hide Block;
    Mask1(x, b0, b1);
    Mask2(x, b1, b2, b0 % 64 * 256 + x % 256);
    Mask3(x, b2, b3, b1 % 64 * 16384 + b0 % 64 * 256 + x % 256);
  }

  lemma Mask1(x: nat, b0: nat, b1: nat)
    requires b0 == x / 256 && b1 == b0 / 64
    ensures x == b1 * 16384 + (b0 % 64 * 256 + x % 256)
    ensures x % 16384 == b0 % 64 * 256 + x % 256
  {
    assert x == b0 * 256 + x % 256 && b0 == b1 * 64 + b0 % 64;
  }

  lemma Mask2(x: nat, b1: nat, b2: nat, low: nat)
    requires x == b1 * 16384 + low && low < 16384 && b2 == b1 / 64
    ensures x == b2 * 1048576 + (b1 % 64 * 16384 + low)
    ensures x % 1048576 == b1 % 64 * 16384 + low
  {
    assert b1 == b2 * 64 + b1 % 64;
    QuotientIs(x, 1048576, b2, b1 % 64 * 16384 + low);
  }

  lemma Mask3(x: nat, b2: nat, b3: nat, low: nat)
    requires x == b2 * 1048576 + low && low < 1048576 && b3 == b2 / 64
    ensures x == b3 * 67108864 + (b2 % 64 * 1048576 + low)
    ensures x % 67108864 == b2 % 64 * 1048576 + low
    ensures x < WRAP ==> b3 < 64
  {
    assert b2 == b3 * 64 + b2 % 64;
    QuotientIs(x, 67108864, b3, b2 % 64 * 1048576 + low);
  }

  /** The time is a multiple of the slots of every level below `i`. */
  ghost predicate LowBlocksZero(x: nat, i: nat) {
    && (i > 0 ==> x % TIMER_NEAR == 0 && Block(x, 0) % TIMER_LEVEL == 0)
    && (i > 1 ==> Block(x, 1) % TIMER_LEVEL == 0)
    && (i > 2 ==> Block(x, 2) % TIMER_LEVEL == 0)
  }

  lemma CascadeFound(x: nat, i: nat)
    requires i <= 3 && x % MaskOf(i) == 0 && Block(x, i) % TIMER_LEVEL != 0
    requires LowBlocksZero(x, i)
    ensures CascadeAt(x) == Move(i, Block(x, i) % TIMER_LEVEL)
  {
    hide Block;
  }

  /** The search cannot run past the highest level. */
  lemma LastMask(x: nat, i: nat)
    requires 0 < x < WRAP && i <= 3 && x % MaskOf(i) == 0 && Block(x, i) % TIMER_LEVEL == 0
    ensures i < 3 && MaskOf(i + 1) == MaskOf(i) * TIMER_LEVEL
    ensures i == 0 ==> x % TIMER_NEAR == 0
  {
    MaskFacts(x);
    hide Block;
  }

  lemma NoneFound(x: nat, i: nat)
    requires i <= 3 && x % MaskOf(i) != 0
    requires LowBlocksZero(x, i)
    ensures CascadeAt(x) == NoCascade
  {
    MaskFacts(x);
    hide Block;
  }

  /** The 32-bit time of the next tick, and the slot it brings up. */
  lemma TimeOfTick(clock: nat)
    ensures (clock % WRAP + 1) % WRAP == (clock + 1) % WRAP
    ensures CascadeAt((clock + 1) % WRAP) == CascadeAt(clock + 1)
  {
    hide Block;
    var c := clock + 1;
    AddWrapped(clock, 1);
    BlockWraps(c);
    WrapKeepsNearSlot(c);
    ModMod(Block(c, 0), 0x4_0000);
    ModMod(Block(c, 1), 0x1000);
    ModMod(Block(c, 2), 64);
  }

  lemma AfterCascade(w: World)
    requires AllLater(w.pending, w.clock) && CascadeAt(w.clock + 1).Move?
    ensures var c := CascadeAt(w.clock + 1);
            forall pl :: InWheel(pl) ==>
              ListOf(w.pending, w.clock + 1, pl) == (if pl == Far(c.level, c.slot) then [] else ListOf(w.pending, w.clock, pl)) +
              Pick(ListOf(w.pending, w.clock, Far(c.level, c.slot)), (w.clock + 1) % WRAP, pl)
  {
    forall pl | InWheel(pl) {
      CascadeMoves(w.pending, w.clock, pl);
    }
  }

  lemma AfterPlainTick(w: World)
    requires AllLater(w.pending, w.clock) && CascadeAt(w.clock + 1) == NoCascade
    ensures forall pl :: InWheel(pl) ==> ListOf(w.pending, w.clock + 1, pl) == ListOf(w.pending, w.clock, pl)
  {
    forall pl | InWheel(pl) {
      NothingMoves(w.pending, w.clock, pl);
    }
  }
}
