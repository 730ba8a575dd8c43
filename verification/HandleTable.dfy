/** The table of services (src/handle.c): an array of slots, each used again when its service is gone.
    A handle belongs in the slot that its low bits name, and the slot remembers which handle it
    holds, so that an old handle is told from the one that has taken its slot.

    The capacity is a power of two, so `handle & (cap - 1)` is the remainder. A slot without a service
    has the handle 0, and its count keeps its last value. A table that is filling up is doubled, and
    that can lose a service.
 */
module HandleTable {
  import opened Basics

  datatype Slot = Slot(handle: nat, ref: int)

  /** handle & (cap - 1) */
  function Home(h: nat, cap: nat): (i: nat)
    requires cap > 0
    ensures i < cap && (h == 0 ==> i == 0)
  {
    h % cap
  }

  ghost predicate WellPlaced(slots: seq<Slot>) {
    |slots| > 0 && forall i :: 0 <= i < |slots| && slots[i].handle != 0 ==> Home(slots[i].handle, |slots|) == i
  }

  function At(slots: seq<Slot>, h: nat): Slot
    requires |slots| > 0
  {
    slots[Home(h, |slots|)]
  }

  /** slot->handle == handle */
  predicate Found(slots: seq<Slot>, h: nat)
    requires |slots| > 0
  {
    At(slots, h).handle == h
  }

  /** The services and their counts. */
  ghost function TableOf(slots: seq<Slot>): map<nat, int>
    requires WellPlaced(slots)
  {
    map h | h in Handles(slots) :: At(slots, h).ref
  }

  ghost function Handles(slots: seq<Slot>): set<nat> {
    set i | 0 <= i < |slots| && slots[i].handle != 0 :: slots[i].handle
  }

  lemma HandlesHave(slots: seq<Slot>, h: nat)
    requires WellPlaced(slots)
    ensures h in Handles(slots) <==> h != 0 && Found(slots, h)
  {
    if h != 0 && Found(slots, h) { assert slots[Home(h, |slots|)].handle == h; }
  }

  /** The slot test is the search in the table, for live handles and for old ones whose slot is
      empty or belongs to another service; except for handle 0, which every empty slot 0 has. */
  lemma SlotTest(slots: seq<Slot>, h: nat)
    requires WellPlaced(slots)
    ensures (Found(slots, h) <==> h in TableOf(slots)) <==> h != 0 || slots[0].handle != 0
    ensures h in TableOf(slots) ==> Found(slots, h) && TableOf(slots)[h] == At(slots, h).ref
    ensures 0 !in TableOf(slots)
  {
    HandlesHave(slots, h);
    HandlesHave(slots, 0);
  }

  function Put(slots: seq<Slot>, h: nat, x: Slot): (r: seq<Slot>)
    requires |slots| > 0
    ensures |r| == |slots|
  {
    slots[Home(h, |slots|) := x]
  }

  /** What a change of the slot of `h` does to the table: it binds `h` to the new count, or loses it. */
  lemma PutTable(slots: seq<Slot>, h: nat, x: Slot)
    requires WellPlaced(slots) && h != 0 && (Found(slots, h) || At(slots, h).handle == 0) && (x.handle == h || x.handle == 0)
    ensures WellPlaced(Put(slots, h, x))
    ensures TableOf(Put(slots, h, x)) == if x.handle == h then TableOf(slots)[h := x.ref] else TableOf(slots) - {h}
  {
    var after := Put(slots, h, x);
    hide TableOf, Handles;
    assert WellPlaced(after);
    forall g: nat ensures g in TableOf(after) <==> (if g == h then x.handle == h else g in TableOf(slots)) {
      SlotTest(slots, g);
      SlotTest(after, g);
      Elsewhere(slots, h, g, x);
    }
    forall g: nat | g in TableOf(after) ensures TableOf(after)[g] == if g == h then x.ref else TableOf(slots)[g] {
      SlotTest(slots, g);
      SlotTest(after, g);
      Elsewhere(slots, h, g, x);
    }
  }

  /** Another handle is in another slot, or it is not in the table before and after. */
  lemma Elsewhere(slots: seq<Slot>, h: nat, g: nat, x: Slot)
    requires |slots| > 0 && (Found(slots, h) || At(slots, h).handle == 0) && (x.handle == h || x.handle == 0)
    ensures g != h && g != 0 ==> (Found(Put(slots, h, x), g) <==> Found(slots, g))
    ensures g != h && g != 0 && Found(slots, g) ==> At(Put(slots, h, x), g) == At(slots, g)
    ensures At(Put(slots, h, x), h) == x
  {
  }

  // -------------------------------------------------------------- a new handle

  function Occupied(slots: seq<Slot>): (n: nat)
    ensures n <= |slots|
  {
    if slots == [] then 0
    else Occupied(slots[..|slots| - 1]) + if slots[|slots| - 1].handle != 0 then 1 else 0
  }

  lemma {:induction false} OccupiedUpdate(slots: seq<Slot>, i: nat, x: Slot)
    requires i < |slots|
    ensures Occupied(slots[i := x]) ==
            Occupied(slots) - (if slots[i].handle != 0 then 1 else 0) + (if x.handle != 0 then 1 else 0)
  {
    var n := |slots| - 1;
    if i < n {
      OccupiedUpdate(slots[..n], i, x);
      assert slots[i := x][..n] == slots[..n][i := x];
    } else {
      assert slots[i := x][..n] == slots[..n];
    }
  }

  lemma {:induction false} EmptySlot(slots: seq<Slot>) returns (i: nat)
    requires Occupied(slots) < |slots|
    ensures i < |slots| && slots[i].handle == 0
  {
    var n := |slots| - 1;
    if slots[n].handle == 0 { i := n; } else { i := EmptySlot(slots[..n]); }
  }

  /** handle_regist goes on only while a quarter of the slots is empty; otherwise it expands. */
  predicate HasRoom(slots: seq<Slot>) { Occupied(slots) < |slots| * 3 / 4 }

  /** The first handle from `h` on whose slot is empty, among the next `k`. */
  function NextFree(slots: seq<Slot>, h: nat, k: nat): (r: nat)
    requires |slots| > 0
    ensures h <= r <= h + k
    ensures forall g :: h <= g < r ==> At(slots, g).handle != 0
    ensures r < h + k ==> At(slots, r).handle == 0
    decreases k
  {
    if k == 0 || At(slots, h).handle == 0 then h else NextFree(slots, h + 1, k - 1)
  }

  /** As many handles as there are slots try every slot. */
  lemma NextFreeFinds(slots: seq<Slot>, h: nat)
    requires Occupied(slots) < |slots|
    ensures NextFree(slots, h, |slots|) < h + |slots|
  {
    var n := |slots|;
    var i := EmptySlot(slots);
    var d := (i + n - h % n) % n;
    Around(h, i, n);
    assert At(slots, h + d).handle == 0;
  }

  lemma Around(h: nat, i: nat, n: nat)
    requires i < n
    ensures var d := (i + n - h % n) % n; d < n && (h + d) % n == i
  {
    var q, r := h / n, h % n;
    assert h == q * n + r;
    if r <= i {
      Same(1, i - r, n);
      Same(q, i, n);
      assert h + (i - r) == q * n + i;
    } else {
      Same(0, i + n - r, n);
      Same(q + 1, i, n);
      assert h + (i + n - r) == (q + 1) * n + i;
    }
  }

  lemma Same(q: nat, r: nat, n: nat)
    requires r < n
    ensures (q * n + r) % n == r
  {
    var k := (q * n + r) / n - q;
    assert k * n == r - (q * n + r) % n;
    MultipleIsLarge(k, n);
  }

  /** The handle that handle_regist gives when `last` was the last one. */
  function Given(slots: seq<Slot>, last: nat): (h: nat)
    requires |slots| > 0
    ensures h > last
  {
    NextFree(slots, last + 1, |slots|)
  }

  // ------------------------------------------------------------------ expansion

  /** The new table after the first `k` slots of the old one: every slot goes where its handle
      belongs, an empty one, which has the handle 0, to the slot 0. */
  function Moved(slots: seq<Slot>, k: nat): (r: seq<Slot>)
    requires k <= |slots|
    ensures |r| == 2 * |slots|
  {
    if k == 0 then seq(2 * |slots|, _ => Slot(0, 0))
    else Put(Moved(slots, k - 1), slots[k - 1].handle, slots[k - 1])
  }

  /** handle_expand */
  function Expanded(slots: seq<Slot>): (r: seq<Slot>)
    ensures |r| == 2 * |slots|
  {
    Moved(slots, |slots|)
  }

  /** The service in slot 0 stays in slot 0, and a later empty slot is moved over it. */
  predicate Loses(slots: seq<Slot>) {
    LosesBy(slots, |slots|)
  }

  predicate LosesBy(slots: seq<Slot>, k: nat)
    requires k <= |slots|
  {
    && slots != [] && slots[0].handle != 0 && Home(slots[0].handle, 2 * |slots|) == 0
    && exists i :: 0 < i < k && slots[i].handle == 0
  }

  lemma ModTwice(h: nat, n: nat)
    requires n > 0
    ensures Home(Home(h, 2 * n), n) == Home(h, n)
  {
    var m := 2 * n;
    Divided(h, m);
    Twice(h / m, n);
    HalfOf(h, h / m, h % m, n);
  }

  lemma Divided(h: nat, m: nat)
    requires m > 0
    ensures h == m * (h / m) + h % m && 0 <= h % m < m && h / m >= 0
  {
  }

  lemma Twice(q: nat, n: nat)
    ensures (2 * n) * q == (2 * q) * n && (2 * q + 1) * n == (2 * q) * n + n
  {
  }

  lemma HalfOf(h: nat, q: nat, r: nat, n: nat)
    requires n > 0 && r < 2 * n && h == (2 * q) * n + r && (2 * q + 1) * n == (2 * q) * n + n
    ensures r % n == h % n
  {
    if r < n {
      Same(2 * q, r, n);
      Same(0, r, n);
    } else {
      Same(2 * q + 1, r - n, n);
      Same(1, r - n, n);
    }
  }

  /** What is where after the first `k` slots. */
  ghost predicate MovedSo(slots: seq<Slot>, k: nat, after: seq<Slot>)
    requires k <= |slots|
  {
    && |after| == 2 * |slots|
    && (forall j :: 0 <= j < |after| && after[j].handle != 0 ==>
          var i := Home(j, |slots|); i < k && after[j] == slots[i] && Home(after[j].handle, |after|) == j)
    && (forall i :: 0 <= i < k && slots[i].handle != 0 && !(i == 0 && LosesBy(slots, k)) ==> At(after, slots[i].handle) == slots[i])
    && (LosesBy(slots, k) ==> after[0].handle == 0)
  }

  lemma {:induction false} MovedIs(slots: seq<Slot>, k: nat)
    requires WellPlaced(slots) && k <= |slots|
    ensures MovedSo(slots, k, Moved(slots, k))
    ensures Occupied(Moved(slots, k)) == Occupied(slots[..k]) - (if LosesBy(slots, k) then 1 else 0)
  {
    hide MovedSo, LosesBy, Put, Occupied, WellPlaced;
    if k == 0 {
      OccupiedPrefix(slots, 0);
      NothingMoved(slots);
    } else {
      MovedIs(slots, k - 1);
      LosesStays(slots, k);
      MovedOne(slots, k, Moved(slots, k - 1));
      OccupiedPrefix(slots, k);
    }
  }

  lemma OccupiedPrefix(slots: seq<Slot>, k: nat)
    requires k <= |slots|
    ensures Occupied(slots[..k]) == if k == 0 then 0 else Occupied(slots[..k - 1]) + if slots[k - 1].handle != 0 then 1 else 0
  {
    if k > 0 { assert slots[..k][..k - 1] == slots[..k - 1]; }
  }

  lemma LosesStays(slots: seq<Slot>, k: nat)
    requires 0 < k <= |slots|
    ensures LosesBy(slots, k - 1) ==> LosesBy(slots, k)
  {
  }

  lemma NothingMoved(slots: seq<Slot>)
    requires WellPlaced(slots)
    ensures MovedSo(slots, 0, Moved(slots, 0)) && Occupied(Moved(slots, 0)) == 0 && !LosesBy(slots, 0)
  {
    NothingOccupied(Moved(slots, 0));
  }

  /** An empty slot falls on the slot 0, where no other service than that of the old slot 0 is. */
  lemma MovedEmpty(slots: seq<Slot>, k: nat, before: seq<Slot>)
    requires WellPlaced(slots) && 0 < k <= |slots| && MovedSo(slots, k - 1, before) && slots[k - 1].handle == 0
    ensures MovedSo(slots, k, before[0 := slots[k - 1]])
    ensures LosesBy(slots, k) && !LosesBy(slots, k - 1) <==> before[0].handle != 0
  {
    hide Home;
    var n, x := |slots|, slots[k - 1];
    var after := before[0 := x];
    forall i | 0 <= i < k && slots[i].handle != 0 && !(i == 0 && LosesBy(slots, k))
      ensures At(after, slots[i].handle) == slots[i]
    {
      ModTwice(slots[i].handle, n);
      assert Home(slots[i].handle, 2 * n) == 0 ==> i == 0;
    }
    if before[0].handle != 0 {
      assert Home(0, n) == 0;
      assert LosesBy(slots, k);
    }
  }

  /** Slots with a service never meet. */
  lemma MovedFull(slots: seq<Slot>, k: nat, before: seq<Slot>)
    requires WellPlaced(slots) && 0 < k <= |slots| && MovedSo(slots, k - 1, before) && slots[k - 1].handle != 0
    ensures var j := Home(slots[k - 1].handle, 2 * |slots|);
            MovedSo(slots, k, before[j := slots[k - 1]]) && before[j].handle == 0
    ensures LosesBy(slots, k) <==> LosesBy(slots, k - 1)
  {
    hide Home;
    var n, x := |slots|, slots[k - 1];
    var j := Home(x.handle, 2 * n);
    var after := before[j := x];
    ModTwice(x.handle, n);
    assert before[j].handle == 0;
    forall i | 0 <= i < k && slots[i].handle != 0 && !(i == 0 && LosesBy(slots, k))
      ensures At(after, slots[i].handle) == slots[i]
    {
      ModTwice(slots[i].handle, n);
    }
  }

  lemma MovedOne(slots: seq<Slot>, k: nat, before: seq<Slot>)
    requires WellPlaced(slots) && 0 < k <= |slots| && MovedSo(slots, k - 1, before)
    ensures var after := Put(before, slots[k - 1].handle, slots[k - 1]);
            && MovedSo(slots, k, after)
            && Occupied(after) == Occupied(before) + (if slots[k - 1].handle != 0 then 1 else 0)
                 - (if LosesBy(slots, k) && !LosesBy(slots, k - 1) then 1 else 0)
  {
    hide Home, MovedSo, LosesBy, Occupied;
    var x := slots[k - 1];
    assert |before| == 2 * |slots| by { MovedSize(slots, k - 1, before); }
    OccupiedUpdate(before, Home(x.handle, |before|), x);
    if x.handle == 0 { MovedEmpty(slots, k, before); } else { MovedFull(slots, k, before); }
  }

  lemma MovedSize(slots: seq<Slot>, k: nat, after: seq<Slot>)
    requires k <= |slots| && MovedSo(slots, k, after)
    ensures |after| == 2 * |slots|
  {
  }

  /** Expansion keeps the table, unless it loses the service in slot 0. */
  lemma ExpandedTable(slots: seq<Slot>)
    requires WellPlaced(slots)
    ensures WellPlaced(Expanded(slots))
    ensures TableOf(Expanded(slots)) == if Loses(slots) then TableOf(slots) - {slots[0].handle} else TableOf(slots)
    ensures Occupied(Expanded(slots)) == Occupied(slots) - (if Loses(slots) then 1 else 0)
  {
    hide MovedSo, LosesBy, TableOf, Occupied, Moved;
    MovedIs(slots, |slots|);
    assert slots[..|slots|] == slots;
    MovedPlaced(slots, Expanded(slots));
    MovedTable(slots, Expanded(slots));
  }

  lemma MovedPlaced(slots: seq<Slot>, after: seq<Slot>)
    requires WellPlaced(slots) && MovedSo(slots, |slots|, after)
    ensures WellPlaced(after)
  {
  }

  lemma MovedTable(slots: seq<Slot>, after: seq<Slot>)
    requires WellPlaced(slots) && MovedSo(slots, |slots|, after) && WellPlaced(after)
    ensures TableOf(after) == if Loses(slots) then TableOf(slots) - {slots[0].handle} else TableOf(slots)
  {
    hide TableOf, Handles, Home, MovedSo, Found, At;
    forall h: nat
      ensures h in TableOf(after) <==> h in TableOf(slots) && !(Loses(slots) && h == slots[0].handle)
      ensures h in TableOf(after) ==> TableOf(after)[h] == TableOf(slots)[h]
    {
      SlotTest(slots, h);
      SlotTest(after, h);
      HandlesHave(slots, h);
      HandlesHave(after, h);
      if h != 0 { ExpandedFinds(slots, h, after); }
    }
  }

  lemma ExpandedFinds(slots: seq<Slot>, h: nat, after: seq<Slot>)
    requires WellPlaced(slots) && MovedSo(slots, |slots|, after) && h != 0
    ensures Found(after, h) <==> Found(slots, h) && !(Loses(slots) && h == slots[0].handle)
    ensures Found(after, h) ==> At(after, h) == At(slots, h)
  {
    hide Home;
    ModTwice(h, |slots|);
  }

  /** The table in which handle_regist looks for an empty slot. */
  function Roomy(slots: seq<Slot>): (r: seq<Slot>)
    ensures |r| == |slots| || |r| == 2 * |slots|
  {
    if HasRoom(slots) then slots else Expanded(slots)
  }

  /** There is one, and without a loss the services are the same. */
  lemma RoomyTable(slots: seq<Slot>)
    requires WellPlaced(slots) && (HasRoom(slots) || !Loses(slots))
    ensures WellPlaced(Roomy(slots)) && TableOf(Roomy(slots)) == TableOf(slots)
    ensures Occupied(Roomy(slots)) == Occupied(slots) < |Roomy(slots)|
  {
    hide TableOf, Expanded, Loses;
    ExpandedTable(slots);
  }

  /** What a registration keeps of the table. */
  ghost function Kept(slots: seq<Slot>, grow: bool): map<nat, int>
    requires WellPlaced(slots)
  {
    if grow && Loses(slots) then TableOf(slots) - {slots[0].handle} else TableOf(slots)
  }

  /** Handles are given in ascending order. */
  ghost predicate Before(slots: seq<Slot>, last: nat) {
    forall i :: 0 <= i < |slots| ==> slots[i].handle <= last
  }

  lemma NotBefore(slots: seq<Slot>, last: nat)
    requires WellPlaced(slots) && Before(slots, last)
    ensures forall h :: h in TableOf(slots) ==> h <= last
  {
  }

  lemma ExpandedBefore(slots: seq<Slot>, last: nat)
    requires WellPlaced(slots) && Before(slots, last)
    ensures Before(Expanded(slots), last)
  {
    MovedIs(slots, |slots|);
  }

  // ------------------------------------------------------------------ the table

  class Table {
    var slots: array<Slot>
    var lastId: nat
    var n: nat

    /** `n` counts the services, and those that an expansion has lost. */
    ghost predicate Valid()
      reads this, slots
    {
      WellPlaced(slots[..]) && n >= Occupied(slots[..]) && Before(slots[..], lastId)
    }

    constructor (cap: nat)
      requires cap > 0
      ensures Valid() && slots[..] == seq(cap, _ => Slot(0, 0)) && TableOf(slots[..]) == map[]
      ensures n == lastId == 0 && fresh(slots)
    {
      slots := new Slot[cap](_ => Slot(0, 0));
      lastId, n := 0, 0;
      new;
      NothingOccupied(slots[..]);
    }

    /** handle_expand: the services move into a table of twice the size, and one may be lost. */
    method Expand()
      requires Valid()
      modifies this`slots
      ensures Valid() && fresh(slots) && slots[..] == Expanded(old(slots[..]))
      ensures TableOf(slots[..]) == Kept(old(slots[..]), true)
      ensures old(n == Occupied(slots[..])) ==> (n == Occupied(slots[..]) <==> !old(Loses(slots[..])))
    {
      ghost var before := slots[..];
      var cap := slots.Length;
      var more := new Slot[2 * cap](_ => Slot(0, 0));
      assert more[..] == Moved(before, 0);
      for i := 0 to cap
        invariant more.Length == 2 * cap && more[..] == Moved(before, i)
        invariant slots[..] == before && slots.Length == cap && fresh(more)
      {
        more[slots[i].handle % (2 * cap)] := slots[i];
      }
      slots := more;
      ExpandedTable(before);
      ExpandedBefore(before, lastId);
    }

    /** handle_regist: the next handle whose slot is empty, in a table of twice the size if a quarter
        of the slots is not left. */
    method Regist() returns (h: nat)
      requires Valid()
      modifies this, slots
      ensures Valid() && n == old(n) + 1
      ensures if old(n) >= old(slots.Length) * 3 / 4 then fresh(slots) else slots == old(slots)
      ensures var grow := old(n) >= old(slots.Length) * 3 / 4;
              var base := if grow then Expanded(old(slots[..])) else old(slots[..]);
              && lastId == h == Given(base, old(lastId)) && slots[..] == Put(base, h, Slot(h, 1))
              && TableOf(slots[..]) == Kept(old(slots[..]), grow)[h := 1]
      ensures h !in old(TableOf(slots[..]))
    {
      NotBefore(slots[..], lastId);
      if n >= slots.Length * 3 / 4 {
        Expand();
        ExpandedTable(old(slots[..]));
      }
      h := Claim();
    }

    method Claim() returns (h: nat)
      requires Valid() && Occupied(slots[..]) < slots.Length
      modifies this`lastId, this`n, slots
      ensures Valid() && lastId == h == Given(old(slots[..]), old(lastId)) && n == old(n) + 1
      ensures slots[..] == Put(old(slots[..]), h, Slot(h, 1))
      ensures TableOf(slots[..]) == old(TableOf(slots[..]))[h := 1]
    {
      ghost var before, last := slots[..], lastId;
      NextFreeFinds(before, last + 1);
      ghost var k: nat := slots.Length;
      lastId := lastId + 1;
      while slots[lastId % slots.Length].handle != 0
        invariant slots[..] == before && lastId > last && lastId + k == last + 1 + slots.Length && n == old(n)
        invariant NextFree(before, last + 1, slots.Length) == NextFree(before, lastId, k)
        decreases k
      {
        lastId := lastId + 1;
        k := k - 1;
      }
      h := lastId;
      PutTable(before, h, Slot(h, 1));
      OccupiedUpdate(before, h % slots.Length, Slot(h, 1));
      slots[h % slots.Length] := Slot(h, 1);
      n := n + 1;
    }

    /** handle_grab: one reference more, if the handle is live. */
    method Grab(h: nat) returns (found: bool)
      requires Valid() && h != 0
      modifies slots
      ensures Valid() && (found <==> h in old(TableOf(slots[..])))
      ensures slots[..] == if found then Put(old(slots[..]), h, Slot(h, At(old(slots[..]), h).ref + 1)) else old(slots[..])
      ensures TableOf(slots[..]) == var t := old(TableOf(slots[..])); if found then t[h := t[h] + 1] else t
    {
      ghost var before := slots[..];
      SlotTest(before, h);
      var i := h % slots.Length;
      if slots[i].handle != h {
        return false;
      }
      var x := Slot(h, slots[i].ref + 1);
      PutTable(before, h, x);
      OccupiedUpdate(before, i, x);
      slots[i] := x;
      return true;
    }

    /** handle_release_ref: one reference less; is there another one? */
    method ReleaseRef(h: nat) returns (alive: bool)
      requires Valid() && h != 0
      modifies slots
      ensures Valid() && (alive <==> h in TableOf(slots[..]) && TableOf(slots[..])[h] > 0)
      ensures slots[..] == if h in old(TableOf(slots[..])) then Put(old(slots[..]), h, Slot(h, At(old(slots[..]), h).ref - 1)) else old(slots[..])
      ensures TableOf(slots[..]) == var t := old(TableOf(slots[..])); if h in t then t[h := t[h] - 1] else t
    {
      ghost var before := slots[..];
      SlotTest(before, h);
      var i := h % slots.Length;
      if slots[i].handle != h {
        return false;
      }
      var x := Slot(h, slots[i].ref - 1);
      PutTable(before, h, x);
      OccupiedUpdate(before, i, x);
      slots[i] := x;
      return x.ref > 0;
    }

    /** handle_remove: empties the slot of a service without references, which is looked at again
        under the lock. */
    method Remove(h: nat) returns (removed: bool)
      requires Valid() && h != 0
      modifies this`n, slots
      ensures Valid() && n == old(n) - (if removed then 1 else 0)
      ensures (removed <==> h in old(TableOf(slots[..])) && old(TableOf(slots[..]))[h] <= 0)
      ensures slots[..] == if removed then Put(old(slots[..]), h, At(old(slots[..]), h).(handle := 0)) else old(slots[..])
      ensures TableOf(slots[..]) == if removed then old(TableOf(slots[..])) - {h} else old(TableOf(slots[..]))
    {
      ghost var before := slots[..];
      SlotTest(before, h);
      var i := h % slots.Length;
      if slots[i].handle != h || slots[i].ref > 0 {
        return false;
      }
      var x := slots[i].(handle := 0);
      PutTable(before, h, x);
      OccupiedUpdate(before, i, x);
      slots[i] := x;
      n := n - 1;
      return true;
    }
  }

  lemma {:induction false} NothingOccupied(slots: seq<Slot>)
    requires forall i :: 0 <= i < |slots| ==> slots[i].handle == 0
    ensures Occupied(slots) == 0
  {
    if slots != [] { NothingOccupied(slots[..|slots| - 1]); }
  }

  /** The source starts with 16 slots.  31 services come and go, and 13 more are registered and stay:
      the last of them makes the table grow, and 32 is lost. */
  method LostService() returns (t: Table, kept: seq<nat>)
    ensures t.Valid() && |kept| == 13 && kept[0] == 32 && forall i, j :: 0 <= i < j < 13 ==> kept[i] < kept[j]
    ensures TableOf(t.slots[..]).Keys == set i | 0 < i < 13 :: kept[i]
  {
    hide TableOf, Filled, Loses, Expanded, Given, Occupied, Put;
    t := new Table(16);
    NothingYet(t.slots[..]);
    for i := 0 to 31
      invariant fresh(t) && fresh(t.slots) && t.Valid() && t.slots.Length == 16 && t.n == 0 && t.lastId == i
      invariant Filled(t.slots[..], 0)
    {
      ComeAndGo(t);
    }
    kept := Fill(t);
    LosesFilled(t.slots[..]);
    ghost var table := TableOf(t.slots[..]);
    var h := t.Regist();
    assert TableOf(t.slots[..]) == (table - {32})[h := 1];
    kept := AddLast(kept, h, table.Keys, TableOf(t.slots[..]).Keys);
  }

  method AddLast(kept: seq<nat>, h: nat, ghost keys: set<nat>, ghost after: set<nat>) returns (all: seq<nat>)
    requires kept == seq(12, i => 32 + i) && h > 43 && keys == (set i | 0 <= i < 12 :: kept[i])
    requires after == keys - {32} + {h}
    ensures all == kept + [h] && after == set i | 0 < i < 13 :: all[i]
  {
    all := kept + [h];
    assert all[12] == h && all[0] == 32 && forall i :: 0 <= i < 12 ==> all[i] == kept[i] == 32 + i;
  }

  lemma NothingYet(slots: seq<Slot>)
    requires slots == seq(16, _ => Slot(0, 0))
    ensures Filled(slots, 0)
  {
  }

  method Fill(t: Table) returns (kept: seq<nat>)
    requires t.Valid() && t.slots.Length == 16 && t.n == 0 && t.lastId == 31 && Filled(t.slots[..], 0)
    modifies t, t.slots
    ensures t.Valid() && t.slots == old(t.slots) && t.n == 12 && t.lastId == 43 && Filled(t.slots[..], 12)
    ensures kept == seq(12, i => 32 + i)
    ensures TableOf(t.slots[..]).Keys == set i | 0 <= i < 12 :: kept[i]
  {
    hide Filled, TableOf;
    kept := [];
    NothingFilled(t.slots[..]);
    for k := 0 to 12
      invariant t.slots == old(t.slots) && t.Valid() && t.slots.Length == 16 && t.n == k && t.lastId == 31 + k
      invariant Filled(t.slots[..], k) && kept == seq(k, i => 32 + i)
      invariant TableOf(t.slots[..]).Keys == set i | 0 <= i < k :: kept[i]
    {
      ghost var before := kept;
      var h := Next(t, k);
      kept := kept + [h];
      assert kept[k] == h && forall i :: 0 <= i < k ==> kept[i] == before[i];
    }
  }

  lemma NothingFilled(slots: seq<Slot>)
    requires Filled(slots, 0) && WellPlaced(slots)
    ensures TableOf(slots) == map[]
  {
    assert Handles(slots) == {};
  }

  /** The first `k` slots have the handles from 32 on. */
  ghost predicate Filled(slots: seq<Slot>, k: nat) {
    k <= |slots| == 16 && forall j :: 0 <= j < 16 ==> if j < k then slots[j] == Slot(32 + j, 1) else slots[j].handle == 0
  }

  method ComeAndGo(t: Table)
    requires t.Valid() && t.slots.Length == 16 && t.n == 0 && Filled(t.slots[..], 0)
    modifies t, t.slots
    ensures t.Valid() && t.slots == old(t.slots) && t.n == 0 && t.lastId == old(t.lastId) + 1
    ensures Filled(t.slots[..], 0)
  {
    hide TableOf;
    GivenNext(t.slots[..], t.lastId);
    var h := t.Regist();
    var alive := t.ReleaseRef(h);
    var removed := t.Remove(h);
  }

  lemma GivenNext(slots: seq<Slot>, last: nat)
    requires |slots| > 0 && At(slots, last + 1).handle == 0
    ensures Given(slots, last) == last + 1
  {
  }

  method Next(t: Table, k: nat) returns (h: nat)
    requires t.Valid() && k < 12 && Filled(t.slots[..], k) && t.n == k && t.lastId == 31 + k
    modifies t, t.slots
    ensures t.Valid() && t.slots == old(t.slots) && Filled(t.slots[..], k + 1) && t.n == k + 1 && t.lastId == h == 32 + k
    ensures TableOf(t.slots[..]) == old(TableOf(t.slots[..]))[h := 1]
  {
    hide TableOf;
    GivenNext(t.slots[..], t.lastId);
    h := t.Regist();
  }

  lemma LosesFilled(slots: seq<Slot>)
    requires Filled(slots, 12)
    ensures Loses(slots) && slots[0].handle == 32
  {
    assert slots[12].handle == 0;
  }
}
