/** The serialiser of Lua values (src/lserial.c): the byte format, and that unpacking gives back
    what was packed. SerialBuffer.dfy holds the loops and the chunked buffer.
 */
module Serial {
  import opened Basics
  import opened LittleEndian

  const MAX_DEPTH: nat := 32

  /** A Lua value. A float is its eight bytes, light userdata its address. A table lists its
      entries in the order of lua_next; `border` is what lua_rawlen answers for it (for an
      unpacked table, the size of its array part). */
  datatype Value =
    | Nil
    | Bool(b: bool)
    | Integer(n: int)
    | Number(bits: nat)
    | Str(s: seq<Byte>)
    | Pointer(p: nat)
    | Table(border: nat, entries: seq<Pair>)

  datatype Pair = Pair(key: Value, value: Value)

  /** What Lua and the C types guarantee: no nil in a table, different keys, sizes that fit. */
  ghost predicate WellFormed(v: Value)
    decreases v
  {
    match v
    case Integer(n) => -H63 <= n < H63
    case Number(bits) => bits < W64
    case Str(s) => |s| < H31
    case Pointer(p) => p < W64
    case Table(border, entries) =>
      && border < H31
      && (forall i :: 0 <= i < |entries| ==> WellFormedPair(entries[i]))
      && (forall i, j :: 0 <= i < j < |entries| ==> entries[i].key != entries[j].key)
    case _ => true
  }

  ghost predicate WellFormedPair(p: Pair)
    decreases p
  {
    p.key != Nil && p.value != Nil && WellFormed(p.key) && WellFormed(p.value)
  }

  /** Is the key one of the array part? */
  predicate InArray(key: Value, border: nat) { key.Integer? && 0 < key.n <= border }

  /** lua_rawgeti */
  function Get(t: Value, n: int, k: nat): (v: Value)
    requires t.Table? && k <= |t.entries|
    ensures v < t || v == Nil
    decreases |t.entries| - k
  {
    if k == |t.entries| then Nil
    else if t.entries[k].key == Integer(n) then t.entries[k].value
    else Get(t, n, k + 1)
  }

  // -------------------------------------------------------------------- packing

  function Join(a: Option<seq<Byte>>, b: Option<seq<Byte>>): Option<seq<Byte>> {
    if a.None? || b.None? then None else Some(a.value + b.value)
  }

  /** lpack_one. None stands for the error about too deep a table. */
  function Pack(v: Value, depth: nat): Option<seq<Byte>>
    decreases v, 3
  {
    if depth > MAX_DEPTH then None
    else
      match v
      case Nil => Some([0])
      case Bool(b) => Some([1, if b then 1 else 0])
      case Integer(n) => Some([2] + LE(n % W64, 8))
      case Number(bits) => Some([3] + LE(bits, 8))
      case Str(s) => Some([4] + (LE(|s|, 4) + s))
      case Pointer(p) => Some([5] + LE(p, 8))
      case Table(border, _) =>
        Join(Some([6] + LE(border, 8)), Join(PackArray(v, 1, depth + 1), Join(PackHash(v, 0, depth + 1), Some([0]))))
  }

  /** buffer_push_array, from index `i`. */
  function PackArray(t: Value, i: nat, depth: nat): Option<seq<Byte>>
    requires t.Table? && 1 <= i <= t.border + 1
    decreases t, 2, t.border + 1 - i
  {
    if i > t.border then Some([]) else Join(PackItem(t, i, depth), PackArray(t, i + 1, depth))
  }

  function PackItem(t: Value, i: nat, depth: nat): Option<seq<Byte>>
    requires t.Table?
    decreases t, 1
  {
    if Get(t, i, 0) == Nil then (if depth > MAX_DEPTH then None else Some([0])) else Pack(Get(t, i, 0), depth)
  }

  /** buffer_push_hash, from entry `k`: the entries that the array part does not have. */
  function PackHash(t: Value, k: nat, depth: nat): Option<seq<Byte>>
    requires t.Table? && k <= |t.entries|
    decreases t, 2, |t.entries| - k
  {
    if k == |t.entries| then Some([])
    else if InArray(t.entries[k].key, t.border) then PackHash(t, k + 1, depth)
    else Join(Pack(t.entries[k].key, depth), Join(Pack(t.entries[k].value, depth), PackHash(t, k + 1, depth)))
  }

  function PackAll(vs: seq<Value>): Option<seq<Byte>> {
    if vs == [] then Some([]) else Join(Pack(vs[0], 0), PackAll(vs[1..]))
  }

  // ------------------------------------------------------------------ unpacking

  datatype Taken<T> = Taken(value: T, rest: seq<Byte>)

  /** lunpack_one. None stands for input that breaks off or has an unknown type, which the source
      does not handle. */
  function Unpack(s: seq<Byte>): (r: Option<Taken<Value>>)
    ensures r.Some? ==> |r.value.rest| < |s|
    decreases |s|, 0
  {
    if s == [] then None
    else
      var data := s[1..];
      match s[0]
      case 0 => Some(Taken(Nil, data))
      case 1 => if |data| < 1 then None else Some(Taken(Bool(data[0] != 0), data[1..]))
      case 2 => if |data| < 8 then None else Some(Taken(Integer(Signed64(Val(data[..8]))), data[8..]))
      case 3 => if |data| < 8 then None else Some(Taken(Number(Val(data[..8])), data[8..]))
      case 4 =>
        if |data| < 4 then None
        else
          var n := Signed32(Val(data[..4]));
          if n < 0 || |data| - 4 < n then None else Some(Taken(Str(data[4..4 + n]), data[4 + n..]))
      case 5 => if |data| < 8 then None else Some(Taken(Pointer(Val(data[..8])), data[8..]))
      case 6 =>
        if |data| < 8 then None
        else
          var size := Signed32(Val(data[..8]) % W32);
          (match UnpackArray(1, size, data[8..])
           case None => None
           case Some(a) =>
             match UnpackHash(a.rest)
             case None => None
             case Some(h) => Some(Taken(Table(if size < 0 then 0 else size, a.value + h.value), h.rest)))
      case _ => None
  }

  /** The items `i`..`size` of an array part; storing nil stores nothing. */
  function UnpackArray(i: nat, size: int, s: seq<Byte>): (r: Option<Taken<seq<Pair>>>)
    ensures r.Some? ==> |r.value.rest| <= |s|
    decreases |s|, 1, size + 1 - i
  {
    if i > size then Some(Taken([], s))
    else
      match Unpack(s)
      case None => None
      case Some(v) =>
        match UnpackArray(i + 1, size, v.rest)
        case None => None
        case Some(a) => Some(Taken(Stored(Integer(i), v.value) + a.value, a.rest))
  }

  function Stored(key: Value, v: Value): seq<Pair> { if v == Nil then [] else [Pair(key, v)] }

  /** Pairs up to a nil in the place of a key. */
  function UnpackHash(s: seq<Byte>): (r: Option<Taken<seq<Pair>>>)
    ensures r.Some? ==> |r.value.rest| <= |s|
    decreases |s|, 1, 0
  {
    match Unpack(s)
    case None => None
    case Some(k) =>
      if k.value == Nil then Some(Taken([], k.rest))
      else
        match Unpack(k.rest)
        case None => None
        case Some(v) =>
          match UnpackHash(v.rest)
          case None => None
          case Some(h) => Some(Taken(Stored(k.value, v.value) + h.value, h.rest))
  }

  function UnpackAll(s: seq<Byte>): Option<seq<Value>>
    decreases |s|
  {
    if s == [] then Some([])
    else
      match Unpack(s)
      case None => None
      case Some(v) =>
        match UnpackAll(v.rest)
        case None => None
        case Some(vs) => Some([v.value] + vs)
  }

  // ------------------------------------------------------------ what comes back

  /** The same value with the entries of each table in the order in which they are packed. */
  function Normal(v: Value): Value
    decreases v, 3
  {
    if v.Table? then Table(v.border, ArrayPairs(v, 1) + HashPairs(v, 0)) else v
  }

  function ArrayPairs(t: Value, i: nat): seq<Pair>
    requires t.Table? && 1 <= i <= t.border + 1
    decreases t, 2, t.border + 1 - i
  {
    if i > t.border then [] else NormalItem(t, i) + ArrayPairs(t, i + 1)
  }

  function NormalItem(t: Value, i: nat): seq<Pair>
    requires t.Table?
    decreases t, 1
  {
    if Get(t, i, 0) == Nil then [] else [Pair(Integer(i), Normal(Get(t, i, 0)))]
  }

  function NormalPair(p: Pair): Pair
    decreases p, 4
  {
    Pair(Normal(p.key), Normal(p.value))
  }

  function HashPairs(t: Value, k: nat): seq<Pair>
    requires t.Table? && k <= |t.entries|
    decreases t, 2, |t.entries| - k
  {
    if k == |t.entries| then []
    else (if InArray(t.entries[k].key, t.border) then [] else [NormalPair(t.entries[k])]) + HashPairs(t, k + 1)
  }

  /** The entries as they are, only with normal contents. */
  function Entries(t: Value, k: nat): seq<Pair>
    requires t.Table? && k <= |t.entries|
    decreases |t.entries| - k
  {
    if k == |t.entries| then [] else [NormalPair(t.entries[k])] + Entries(t, k + 1)
  }

  /** The entries with an integer key of 1..`n`. */
  function UpTo(t: Value, n: nat, k: nat): seq<Pair>
    requires t.Table? && k <= |t.entries|
    decreases |t.entries| - k
  {
    if k == |t.entries| then []
    else (if InArray(t.entries[k].key, n) then [NormalPair(t.entries[k])] else []) + UpTo(t, n, k + 1)
  }

  lemma {:induction false} Divides(t: Value, k: nat)
    requires t.Table? && k <= |t.entries|
    ensures multiset(Entries(t, k)) == multiset(UpTo(t, t.border, k)) + multiset(HashPairs(t, k))
    decreases |t.entries| - k
  {
    EntriesStep(t, t.border, k);
    hide NormalPair, Entries, UpTo, HashPairs, InArray;
    if k < |t.entries| {
      Divides(t, k + 1);
      OneMore([NormalPair(t.entries[k])], Entries(t, k + 1), UpTo(t, t.border, k + 1), HashPairs(t, k + 1));
    }
  }

  lemma EntriesStep(t: Value, n: nat, k: nat)
    requires t.Table? && k <= |t.entries|
    ensures k == |t.entries| ==> Entries(t, k) == UpTo(t, n, k) == HashPairs(t, k) == []
    ensures k < |t.entries| ==>
      var p := [NormalPair(t.entries[k])];
      && Entries(t, k) == p + Entries(t, k + 1)
      && UpTo(t, n, k) == (if InArray(t.entries[k].key, n) then p else []) + UpTo(t, n, k + 1)
      && HashPairs(t, k) == (if InArray(t.entries[k].key, t.border) then [] else p) + HashPairs(t, k + 1)
  {
    hide NormalPair;
  }

  lemma OneMore(p: seq<Pair>, a: seq<Pair>, b: seq<Pair>, c: seq<Pair>)
    requires multiset(a) == multiset(b) + multiset(c)
    ensures multiset(p + a) == multiset(p + b) + multiset([] + c) == multiset([] + b) + multiset(p + c)
  {
    assert [] + b == b && [] + c == c;
  }

  lemma {:induction false} UpToNext(t: Value, n: nat, k: nat)
    requires t.Table? && k <= |t.entries| && n > 0
    requires forall i, j :: 0 <= i < j < |t.entries| ==> t.entries[i].key != t.entries[j].key
    requires forall i :: 0 <= i < |t.entries| ==> t.entries[i].value != Nil
    ensures multiset(UpTo(t, n, k)) ==
            multiset(UpTo(t, n - 1, k)) +
            (if Get(t, n, k) == Nil then multiset{} else multiset{Pair(Integer(n), Normal(Get(t, n, k)))})
    decreases |t.entries| - k
  {
    hide Normal;
    if k < |t.entries| {
      UpToNext(t, n, k + 1);
      if t.entries[k].key == Integer(n) { AbsentAfter(t, n, k); }
    }
  }

  lemma AbsentAfter(t: Value, n: nat, k: nat)
    requires t.Table? && k < |t.entries| && t.entries[k].key == Integer(n)
    requires forall i, j :: 0 <= i < j < |t.entries| ==> t.entries[i].key != t.entries[j].key
    ensures Get(t, n, k + 1) == Nil && Normal(Integer(n)) == Integer(n)
  {
    NotFrom(t, n, k + 1);
  }

  lemma {:induction false} NotFrom(t: Value, n: nat, k: nat)
    requires t.Table? && k <= |t.entries| && forall i :: k <= i < |t.entries| ==> t.entries[i].key != Integer(n)
    ensures Get(t, n, k) == Nil
    decreases |t.entries| - k
  {
    if k < |t.entries| { NotFrom(t, n, k + 1); }
  }

  lemma {:induction false} ArrayHasAll(t: Value, i: nat)
    requires WellFormed(t) && t.Table? && 1 <= i <= t.border + 1
    ensures multiset(UpTo(t, t.border, 0)) == multiset(UpTo(t, i - 1, 0)) + multiset(ArrayPairs(t, i))
    decreases t.border + 1 - i
  {
    hide Normal, UpTo;
    if i <= t.border {
      ArrayHasAll(t, i + 1);
      assert forall k :: 0 <= k < |t.entries| ==> WellFormedPair(t.entries[k]);
      UpToNext(t, i, 0);
    }
  }

  lemma {:induction false} UpToNone(t: Value, k: nat)
    requires t.Table? && k <= |t.entries|
    ensures UpTo(t, 0, k) == []
    decreases |t.entries| - k
  {
    if k < |t.entries| { UpToNone(t, k + 1); }
  }

  /** Normalising loses no entry of a table and adds none, with any border and with nil holes. */
  lemma NormalKeeps(t: Value)
    requires WellFormed(t) && t.Table?
    ensures Normal(t).Table? && multiset(Normal(t).entries) == multiset(Entries(t, 0))
  {
    Divides(t, 0);
    ArrayHasAll(t, 1);
    UpToNone(t, 0);
  }

  // -------------------------------------------------------------- the round trip

  lemma Assoc(a: seq<Byte>, b: seq<Byte>, c: seq<Byte>)
    ensures (a + b) + c == a + (b + c)
  {
  }

  lemma Cut(a: seq<Byte>, b: seq<Byte>)
    ensures (a + b)[..|a|] == a && (a + b)[|a|..] == b
  {
  }

  /** A type byte in front of other data. */
  lemma First(tag: Byte, data: seq<Byte>, rest: seq<Byte>)
    ensures ([tag] + data) + rest == [tag] + (data + rest)
    ensures ([tag] + (data + rest))[0] == tag && ([tag] + (data + rest))[1..] == data + rest
  {
  }

  lemma Eight(tag: Byte, n: nat, rest: seq<Byte>)
    requires n < W64
    ensures var s := ([tag] + LE(n, 8)) + rest;
            |s| >= 9 && s[0] == tag && Val(s[1..][..8]) == n && s[1..][8..] == rest
  {
    Fits8(n);
    hide LE, Val;
    First(tag, LE(n, 8), rest);
    Cut(LE(n, 8), rest);
  }

  lemma ScalarBack(v: Value, depth: nat, rest: seq<Byte>)
    requires WellFormed(v) && !v.Table? && Pack(v, depth).Some?
    ensures Unpack(Pack(v, depth).value + rest) == Some(Taken(v, rest))
  {
    match v
    case Integer(n) => Eight(2, n % W64, rest); SignedBack(n);
    case Number(bits) => Eight(3, bits, rest);
    case Pointer(p) => Eight(5, p, rest);
    case Str(s) => StringBack(s, rest);
    case Nil => assert ([0] + rest)[1..] == rest;
    case Bool(b) =>
      var x: Byte := if b then 1 else 0;
      assert ([1, x] + rest)[1..] == [x] + rest && ([x] + rest)[1..] == rest;
  }

  lemma StringBack(s: seq<Byte>, rest: seq<Byte>)
    requires |s| < H31
    ensures Unpack(([4] + (LE(|s|, 4) + s)) + rest) == Some(Taken(Str(s), rest))
  {
    var n := |s|;
    Fits4(n);
    hide LE, Val;
    First(4, LE(n, 4) + s, rest);
    Assoc(LE(n, 4), s, rest);
    Cut(LE(n, 4), s + rest);
    Cut(s, rest);
    var data := LE(n, 4) + (s + rest);
    assert data[4..4 + n] == data[4..][..n] && data[4 + n..] == data[4..][n..];
  }

  lemma {:induction false} ArrayBack(t: Value, i: nat, depth: nat, rest: seq<Byte>)
    requires WellFormed(t) && t.Table? && 1 <= i <= t.border + 1 && PackArray(t, i, depth).Some?
    ensures UnpackArray(i, t.border, PackArray(t, i, depth).value + rest) == Some(Taken(ArrayPairs(t, i), rest))
    decreases t, 2, t.border + 1 - i
  {
    hide Pack, Unpack, Normal;
    if i > t.border {
      assert [] + rest == rest;
    } else {
      var head, tail := PackItem(t, i, depth).value, PackArray(t, i + 1, depth).value;
      Assoc(head, tail, rest);
      ItemBack(t, i, depth, tail + rest);
      ArrayBack(t, i + 1, depth, rest);
    }
  }

  lemma {:induction false} GetWellFormed(t: Value, n: int, k: nat)
    requires WellFormed(t) && t.Table? && k <= |t.entries|
    ensures WellFormed(Get(t, n, k))
    decreases |t.entries| - k
  {
    if k < |t.entries| {
      assert WellFormedPair(t.entries[k]);
      GetWellFormed(t, n, k + 1);
    }
  }

  lemma {:induction false} ItemBack(t: Value, i: nat, depth: nat, rest: seq<Byte>)
    requires WellFormed(t) && t.Table? && PackItem(t, i, depth).Some?
    ensures Unpack(PackItem(t, i, depth).value + rest) ==
            Some(Taken(if Get(t, i, 0) == Nil then Nil else Normal(Get(t, i, 0)), rest))
    ensures Stored(Integer(i), if Get(t, i, 0) == Nil then Nil else Normal(Get(t, i, 0))) == NormalItem(t, i)
    decreases t, 1
  {
    GetWellFormed(t, i, 0);
    if Get(t, i, 0) == Nil {
      ScalarBack(Nil, depth, rest);
    } else {
      ValueBack(Get(t, i, 0), depth, rest);
    }
  }

  lemma {:induction false} HashBack(t: Value, k: nat, depth: nat, rest: seq<Byte>)
    requires WellFormed(t) && t.Table? && k <= |t.entries| && PackHash(t, k, depth).Some?
    ensures UnpackHash(PackHash(t, k, depth).value + ([0] + rest)) == Some(Taken(HashPairs(t, k), rest))
    decreases t, 2, |t.entries| - k
  {
    hide Pack, Unpack, Normal;
    if k == |t.entries| {
      assert [] + ([0] + rest) == [0] + rest;
      NilBack(rest);
    } else if InArray(t.entries[k].key, t.border) {
      HashBack(t, k + 1, depth, rest);
      assert [] + HashPairs(t, k + 1) == HashPairs(t, k + 1);
    } else {
      var p := t.entries[k];
      var a, b, c := Pack(p.key, depth).value, Pack(p.value, depth).value, PackHash(t, k + 1, depth).value;
      var end := [0] + rest;
      assert WellFormedPair(p) && p < t;
      Assoc(a, b + c, end);
      Assoc(b, c, end);
      ValueBack(p.key, depth, b + (c + end));
      ValueBack(p.value, depth, c + end);
      NotNil(p.key);
      NotNil(p.value);
      HashBack(t, k + 1, depth, rest);
    }
  }

  lemma NilBack(rest: seq<Byte>)
    ensures Unpack([0] + rest) == Some(Taken(Nil, rest))
  {
    assert ([0] + rest)[1..] == rest;
  }

  lemma NotNil(v: Value)
    ensures Normal(v) == Nil <==> v == Nil
  {
  }

  /** What is packed comes back, whatever follows it: for all nested values that are not too
      deep. */
  lemma {:induction false} ValueBack(v: Value, depth: nat, rest: seq<Byte>)
    requires WellFormed(v) && Pack(v, depth).Some?
    ensures Unpack(Pack(v, depth).value + rest) == Some(Taken(Normal(v), rest))
    decreases v, 3
  {
    if !v.Table? {
      ScalarBack(v, depth, rest);
    } else {
      var head := [6] + LE(v.border, 8);
      var a, h := PackArray(v, 1, depth + 1).value, PackHash(v, 0, depth + 1).value;
      ArrayBack(v, 1, depth + 1, h + ([0] + rest));
      HashBack(v, 0, depth + 1, rest);
      TableBack(v, head, a, h, rest);
    }
  }

  lemma TableBack(v: Value, head: seq<Byte>, a: seq<Byte>, h: seq<Byte>, rest: seq<Byte>)
    requires v.Table? && v.border < H31 && head == [6] + LE(v.border, 8)
    requires UnpackArray(1, v.border, a + (h + ([0] + rest))) == Some(Taken(ArrayPairs(v, 1), h + ([0] + rest)))
    requires UnpackHash(h + ([0] + rest)) == Some(Taken(HashPairs(v, 0), rest))
    ensures Unpack((head + (a + (h + [0]))) + rest) == Some(Taken(Normal(v), rest))
  {
    var body := a + (h + ([0] + rest));
    Eight(6, v.border, body);
    Assoc(head, a + (h + [0]), rest);
    Assoc(a, h + [0], rest);
    Assoc(h, [0], rest);
    hide LE, Val, Unpack, UnpackArray, UnpackHash, ArrayPairs, HashPairs;
    TableShape(head + body, v.border, body, ArrayPairs(v, 1), h + ([0] + rest), HashPairs(v, 0), rest);
  }

  lemma TableShape(s: seq<Byte>, border: nat, body: seq<Byte>, a: seq<Pair>, mid: seq<Byte>, h: seq<Pair>, rest: seq<Byte>)
    requires border < H31 && |s| >= 9 && s[0] == 6 && Val(s[1..][..8]) == border && s[1..][8..] == body
    requires UnpackArray(1, border, body) == Some(Taken(a, mid)) && UnpackHash(mid) == Some(Taken(h, rest))
    ensures Unpack(s) == Some(Taken(Table(border, a + h), rest))
  {
    SmallBorder(border);
    hide Val, UnpackArray, UnpackHash;
  }

  lemma SmallBorder(n: nat)
    requires n < H31
    ensures Signed32(n % W32) == n
  {
  }

  function NormalAll(vs: seq<Value>): seq<Value> {
    if vs == [] then [] else [Normal(vs[0])] + NormalAll(vs[1..])
  }

  /** A whole call: unpack gives back the arguments of pack, nils included. */
  lemma {:induction false} AllBack(vs: seq<Value>)
    requires (forall i :: 0 <= i < |vs| ==> WellFormed(vs[i])) && PackAll(vs).Some?
    ensures UnpackAll(PackAll(vs).value) == Some(NormalAll(vs))
  {
    hide Pack, Unpack, Normal, WellFormed;
    if vs != [] {
      var a, b := Pack(vs[0], 0).value, PackAll(vs[1..]).value;
      ValueBack(vs[0], 0, b);
      AllBack(vs[1..]);
      PackedSome(vs[0], 0);
    }
  }

  lemma PackedSome(v: Value, depth: nat)
    ensures Pack(v, depth).Some? ==> |Pack(v, depth).value| > 0
  {
  }

  // -------------------------------------------------------------------- depth

  function Max(a: nat, b: nat): nat { if a < b then b else a }

  /** How deep a value reaches: the contents of a table are one deeper than the table. */
  function Depth(v: Value): nat
    decreases v, 3
  {
    if v.Table? then Max(ArrayDepth(v, 1), HashDepth(v, 0)) else 0
  }

  function ArrayDepth(t: Value, i: nat): nat
    requires t.Table? && 1 <= i <= t.border + 1
    decreases t, 2, t.border + 1 - i
  {
    if i > t.border then 0 else Max(1 + ItemDepth(t, i), ArrayDepth(t, i + 1))
  }

  function ItemDepth(t: Value, i: nat): nat
    requires t.Table?
    decreases t, 1
  {
    if Get(t, i, 0) == Nil then 0 else Depth(Get(t, i, 0))
  }

  function HashDepth(t: Value, k: nat): nat
    requires t.Table? && k <= |t.entries|
    decreases t, 2, |t.entries| - k
  {
    if k == |t.entries| then 0
    else if InArray(t.entries[k].key, t.border) then HashDepth(t, k + 1)
    else Max(1 + Max(Depth(t.entries[k].key), Depth(t.entries[k].value)), HashDepth(t, k + 1))
  }

  /** Packing fails exactly when the value reaches deeper than 32 tables. */
  lemma {:induction false} TooDeep(v: Value, depth: nat)
    ensures Pack(v, depth).None? <==> depth + Depth(v) > MAX_DEPTH
    decreases v, 3
  {
    if v.Table? {
      ArrayTooDeep(v, 1, depth);
      HashTooDeep(v, 0, depth);
    }
  }

  lemma {:induction false} ArrayTooDeep(t: Value, i: nat, depth: nat)
    requires t.Table? && 1 <= i <= t.border + 1
    ensures PackArray(t, i, depth + 1).None? <==> ArrayDepth(t, i) > 0 && depth + ArrayDepth(t, i) > MAX_DEPTH
    decreases t, 2, t.border + 1 - i
  {
    hide Pack, Depth;
    if i <= t.border {
      if Get(t, i, 0) != Nil { TooDeep(Get(t, i, 0), depth + 1); }
      ArrayTooDeep(t, i + 1, depth);
    }
  }

  lemma {:induction false} HashTooDeep(t: Value, k: nat, depth: nat)
    requires t.Table? && k <= |t.entries|
    ensures PackHash(t, k, depth + 1).None? <==> HashDepth(t, k) > 0 && depth + HashDepth(t, k) > MAX_DEPTH
    decreases t, 2, |t.entries| - k
  {
    hide Pack, Depth;
    if k < |t.entries| {
      TooDeep(t.entries[k].key, depth + 1);
      TooDeep(t.entries[k].value, depth + 1);
      HashTooDeep(t, k + 1, depth);
    }
  }

  // ------------------------------------------------------------------ the bytes

  /** One byte for the type, and the value with its low byte first. */
  lemma ScalarBytes(v: Value)
    requires WellFormed(v) && !v.Table?
    ensures Pack(v, 0).Some?
    ensures var b := Pack(v, 0).value;
            match v
            case Nil => b == [0]
            case Bool(x) => b == [1, if x then 1 else 0]
            case Integer(n) => |b| == 9 && b[0] == 2 && Val(b[1..]) == if n >= 0 then n else n + 0x1_0000_0000_0000_0000
            case Number(bits) => |b| == 9 && b[0] == 3 && Val(b[1..]) == bits
            case Str(s) => |b| == 5 + |s| && b[0] == 4 && Val(b[1..5]) == |s| && b[5..] == s
            case Pointer(p) => |b| == 9 && b[0] == 5 && Val(b[1..]) == p
            case Table(_, _) => true
  {
    hide LE, Val;
    match v
    case Integer(n) => Fits8(n % W64); assert ([2] + LE(n % W64, 8))[1..] == LE(n % W64, 8);
    case Number(bits) => Fits8(bits); assert ([3] + LE(bits, 8))[1..] == LE(bits, 8);
    case Str(s) =>
      Fits4(|s|);
      var size := LE(|s|, 4);
      assert ([4] + (size + s))[1..5] == size && ([4] + (size + s))[5..] == s;
    case Pointer(p) => Fits8(p); assert ([5] + LE(p, 8))[1..] == LE(p, 8);
    case _ =>
  }

  /** { 10, x = true } */
  const EXAMPLE: Value := Table(1, [Pair(Integer(1), Integer(10)), Pair(Str([0x78]), Bool(true))])

  /** The type, the size of the array part, its items, the pairs and a nil. */
  lemma TableBytes()
    ensures Pack(EXAMPLE, 0) == Some([6, 1, 0, 0, 0, 0, 0, 0, 0, 2, 10, 0, 0, 0, 0, 0, 0, 0, 4, 1, 0, 0, 0, 0x78, 1, 1, 0])
  {
    hide LE;
    SmallBytes(1);
    SmallBytes(10);
    assert Get(EXAMPLE, 1, 0) == Integer(10);
    assert PackArray(EXAMPLE, 2, 1) == Some([]);
    assert PackItem(EXAMPLE, 1, 1) == Some([2] + LE(10, 8));
    assert PackArray(EXAMPLE, 1, 1) == Some([2] + LE(10, 8) + []);
    assert InArray(Integer(1), 1) && !InArray(Str([0x78]), 1);
    assert PackHash(EXAMPLE, 2, 1) == Some([]);
    assert PackHash(EXAMPLE, 1, 1) == Some([4] + (LE(1, 4) + [0x78]) + ([1, 1] + []));
    assert PackHash(EXAMPLE, 0, 1) == PackHash(EXAMPLE, 1, 1);
    var start, items, pairs := [6] + LE(1, 8), [2] + LE(10, 8) + [], [4] + (LE(1, 4) + [0x78]) + ([1, 1] + []);
    assert Pack(EXAMPLE, 0) == Some(start + (items + (pairs + [0])));
    Bytes27(start, items, pairs);
  }

  lemma Bytes27(start: seq<Byte>, items: seq<Byte>, pairs: seq<Byte>)
    requires start == [6, 1, 0, 0, 0, 0, 0, 0, 0] && items == [2, 10, 0, 0, 0, 0, 0, 0, 0]
    requires pairs == [4, 1, 0, 0, 0, 0x78, 1, 1]
    ensures start + (items + (pairs + [0])) == [6, 1, 0, 0, 0, 0, 0, 0, 0, 2, 10, 0, 0, 0, 0, 0, 0, 0, 4, 1, 0, 0, 0, 0x78, 1, 1, 0]
  {
  }

  lemma SmallBytes(n: Byte)
    ensures LE(n, 8) == [n, 0, 0, 0, 0, 0, 0, 0] && LE(n, 4) == [n, 0, 0, 0]
  {
    assert LE(0, 1) == [0] && LE(0, 2) == [0] + LE(0, 1) && LE(0, 3) == [0] + LE(0, 2) && LE(0, 4) == [0] + LE(0, 3);
    assert LE(0, 5) == [0] + LE(0, 4) && LE(0, 6) == [0] + LE(0, 5) && LE(0, 7) == [0] + LE(0, 6);
  }
}
