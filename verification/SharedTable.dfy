/** The immutable shared hash table (lualib/lsharedata.c): an array part, and a node array with
    exactly one slot for each other key, filled in two passes over the source table. Colliding
    keys are chained through `next` into slots that no key claims as its own.
 */
module SharedTable {
  import opened Basics

  datatype Key = IntKey(n: int) | StrKey(s: seq<bv8>)

  type Value = int

  datatype Entry = Entry(key: Key, value: Value)

  /** `value` is None in an empty slot (VALUETYPE_NIL). */
  datatype Node = Node(key: Key, value: Option<Value>, next: int, keyhash: nat, nocolliding: bool)

  const EMPTY := Node(IntKey(0), None, -1, 0, false)

  /** The key survives the conversion to a C `int`. */
  predicate Fits(k: Key) { k.IntKey? ==> -0x8000_0000 <= k.n < 0x8000_0000 }

  /** The conversion of a 64-bit integer key to `int`; strings are interned and keep their
      identity. */
  function Narrow(k: Key): (r: Key)
    ensures Fits(r) && (Fits(k) ==> r == k)
    ensures k.IntKey? ==> r.IntKey? && (k.n - r.n) % 0x1_0000_0000 == 0
  {
    if k.IntKey? then IntKey((k.n + 0x8000_0000) % 0x1_0000_0000 - 0x8000_0000) else k
  }

  /** calchash: at most about 32 characters take part. */
  function CalcHash(s: seq<bv8>): nat {
    HashFrom(s, |s|, |s| / 32 + 1, (|s| % 0x1_0000_0000) as bv32) as nat
  }

  function HashFrom(s: seq<bv8>, l1: nat, step: nat, h: bv32): bv32
    requires l1 <= |s| && step >= 1
    decreases l1
  {
    if l1 < step then h
    else HashFrom(s, l1 - step, step, h ^ ((h << 5) + (h >> 2) + (s[l1 - 1] as bv32)))
  }

  function KeyHash(k: Key): nat {
    match k
    case IntKey(n) => n % 0x1_0000_0000
    case StrKey(s) => CalcHash(s)
  }

  function Main(k: Key, size: nat): (m: nat)
    requires size > 0
    ensures m < size
  {
    KeyHash(k) % size
  }

  // ------------------------------------------------------------ source table

  /** The source table, in the order in which lua_next goes through it: no key comes twice. */
  ghost predicate IsTable(entries: seq<Entry>) {
    && (forall i :: 0 <= i < |entries| ==> Fits(entries[i].key))
    && (forall i, j :: 0 <= i < j < |entries| ==> entries[i].key != entries[j].key)
  }

  predicate InArray(k: Key, sizearray: nat) { k.IntKey? && 0 < k.n <= sizearray }

  predicate Binds(entries: seq<Entry>, i: int, k: Key) {
    0 <= i < |entries| && entries[i].key == k
  }

  /** The source table's binding (lua_rawgeti for an integer key). */
  function Find(entries: seq<Entry>, k: Key): (r: Option<Value>)
    ensures r.None? <==> forall i :: !Binds(entries, i, k)
  {
    if entries == [] then None
    else
      var last := |entries| - 1;
      if entries[last].key == k then assert Binds(entries, last, k); Some(entries[last].value)
      else
        var r := Find(entries[..last], k);
        assert r.Some? ==> exists i :: Binds(entries[..last], i, k) && Binds(entries, i, k);
        assert forall i :: Binds(entries, i, k) ==> Binds(entries[..last], i, k);
        r
  }

  lemma {:induction false} FindAt(entries: seq<Entry>, i: nat)
    requires IsTable(entries) && i < |entries|
    ensures Find(entries, entries[i].key) == Some(entries[i].value)
  {
    var last := |entries| - 1;
    if i < last {
      FindAt(entries[..last], i);
    }
  }

  /** The keys of the first `n` entries that go to the hash part. */
  ghost function HashKeys(entries: seq<Entry>, sizearray: nat, n: nat): set<Key>
    requires n <= |entries|
  {
    set i | 0 <= i < n && !InArray(entries[i].key, sizearray) :: entries[i].key
  }

  lemma HashKeysNext(entries: seq<Entry>, sizearray: nat, i: nat)
    requires IsTable(entries) && i < |entries|
    ensures HashKeys(entries, sizearray, i + 1) ==
            HashKeys(entries, sizearray, i) + (if InArray(entries[i].key, sizearray) then {} else {entries[i].key})
    ensures entries[i].key !in HashKeys(entries, sizearray, i)
  {
  }

  lemma HashKeysHave(entries: seq<Entry>, sizearray: nat, i: nat)
    requires i < |entries| && !InArray(entries[i].key, sizearray)
    ensures entries[i].key in HashKeys(entries, sizearray, |entries|)
  {
  }

  /** countsize: one slot for each key outside the array part. */
  method CountSize(entries: seq<Entry>, sizearray: nat) returns (n: nat)
    requires IsTable(entries)
    ensures n == |HashKeys(entries, sizearray, |entries|)|
  {
    n := 0;
    var i := 0;
    while i < |entries|
      invariant 0 <= i <= |entries| && n == |HashKeys(entries, sizearray, i)|
    {
      HashKeysNext(entries, sizearray, i);
      n := n + 1;
      if InArray(entries[i].key, sizearray) {
        n := n - 1;
      }
      i := i + 1;
    }
  }

  // ------------------------------------------------------------------- slots

  ghost predicate Filled(h: seq<Node>, j: int) {
    0 <= j < |h| && h[j].value.Some?
  }

  /** Each filled slot holds a binding of the table under the hash of its key, and no key is in
      two slots. */
  ghost predicate Contents(h: seq<Node>, entries: seq<Entry>, sizearray: nat) {
    && (forall j :: Filled(h, j) ==>
          && h[j].keyhash == KeyHash(h[j].key) && h[j].value == Find(entries, h[j].key)
          && h[j].key in HashKeys(entries, sizearray, |entries|))
    && (forall j, k :: Filled(h, j) && Filled(h, k) && h[j].key == h[k].key ==> j == k)
  }

  ghost predicate Has(h: seq<Node>, k: Key) {
    exists j :: Filled(h, j) && h[j].key == k
  }

  /** The slot that `k` claims holds a key that claims it. */
  ghost predicate Claimed(h: seq<Node>, k: Key) {
    && |h| > 0 && Filled(h, Main(k, |h|))
    && Main(h[Main(k, |h|)].key, |h|) == Main(k, |h|)
  }

  ghost function KeysIn(h: seq<Node>): set<Key> {
    set j | 0 <= j < |h| && h[j].value.Some? :: h[j].key
  }

  /** Counting: different keys in all slots are as many as there are slots, and an empty slot
      means fewer keys than slots. */
  lemma {:induction false} KeysCounted(h: seq<Node>)
    requires forall j, k :: Filled(h, j) && Filled(h, k) && h[j].key == h[k].key ==> j == k
    ensures |KeysIn(h)| <= |h|
    ensures |KeysIn(h)| == |h| <==> forall j :: 0 <= j < |h| ==> Filled(h, j)
  {
    if h == [] {
    } else {
      var last := |h| - 1;
      var g := h[..last];
      assert forall j :: Filled(g, j) <==> Filled(h, j) && j < last;
      KeysCounted(g);
      if h[last].value.Some? {
        assert Filled(h, last);
        assert h[last].key !in KeysIn(g);
        assert KeysIn(h) == KeysIn(g) + {h[last].key};
        assert (forall j :: 0 <= j < |h| ==> Filled(h, j)) <==> (forall j :: 0 <= j < |g| ==> Filled(g, j));
      } else {
        assert KeysIn(h) == KeysIn(g);
        assert !Filled(h, last);
      }
    }
  }

  // ------------------------------------------------------------------ chains

  /** The chain that starts at slot `m`. */
  ghost predicate IsChain(h: seq<Node>, m: nat, c: seq<nat>) {
    && |c| > 0 && c[0] == m
    && (forall i, j :: 0 <= i < j < |c| ==> c[i] != c[j])
    && (forall i :: 0 <= i < |c| ==> Filled(h, c[i]) && Main(h[c[i]].key, |h|) == m)
    && (forall i :: 0 <= i < |c| - 1 ==> h[c[i]].next == c[i + 1])
    && h[c[|c| - 1]].next == -1
  }

  /** `chains[m]` lists the slots of all keys whose main position is `m`, `m` first. */
  ghost predicate Chained(h: seq<Node>, chains: seq<seq<nat>>) {
    && |chains| == |h|
    && (forall m :: 0 <= m < |h| && chains[m] != [] ==> IsChain(h, m, chains[m]))
    && (forall j :: Filled(h, j) ==> j in chains[Main(h[j].key, |h|)])
    && (forall j :: Filled(h, j) && h[j].nocolliding ==> h[j].next == -1 && Main(h[j].key, |h|) == j)
  }

  /** What the first pass leaves: every filled slot is a chain of its own. */
  lemma FirstPassChained(h: seq<Node>) returns (chains: seq<seq<nat>>)
    requires forall j :: Filled(h, j) ==> Main(h[j].key, |h|) == j && h[j].next == -1
    ensures Chained(h, chains)
  {
    chains := seq(|h|, j requires 0 <= j < |h| => if h[j].value.Some? then [j] else []);
  }

  ghost predicate Emptied(h: seq<Node>, j: int) {
    0 <= j < |h| && h[j].value.None?
  }

  /** A new slot `n` for `node` is linked in right after slot `m`. */
  ghost function Linked(h: seq<Node>, m: nat, n: nat, node: Node): (r: seq<Node>)
    requires m < |h| && n < |h| && m != n
    ensures |r| == |h| && r[n] == node && r[m] == h[m].(next := n, nocolliding := false)
    ensures forall j :: 0 <= j < |h| && j != m && j != n ==> r[j] == h[j]
  {
    h[m := h[m].(next := n, nocolliding := false)][n := node]
  }

  ghost predicate Links(h: seq<Node>, m: nat, n: nat, node: Node) {
    && Filled(h, m) && Main(h[m].key, |h|) == m && Emptied(h, n)
    && node.value.Some? && Main(node.key, |h|) == m && node.next == h[m].next && !node.nocolliding
  }

  lemma LinkExtends(h: seq<Node>, m: nat, n: nat, node: Node, c: seq<nat>)
    requires Links(h, m, n, node) && IsChain(h, m, c)
    ensures IsChain(Linked(h, m, n, node), m, [m, n] + c[1..])
  {
    hide CalcHash, Main;
    var d := [m, n] + c[1..];
    forall i | 0 <= i < |c| ensures c[i] != n && (i > 0 ==> c[i] != m) { assert Filled(h, c[i]); }
    assert forall i :: 2 <= i < |d| ==> d[i] == c[i - 1];
  }

  lemma LinkSpares(h: seq<Node>, m: nat, n: nat, node: Node, k: nat, e: seq<nat>)
    requires Links(h, m, n, node) && IsChain(h, k, e) && k != m
    ensures IsChain(Linked(h, m, n, node), k, e)
  {
    hide CalcHash, Main;
    forall i | 0 <= i < |e| ensures e[i] != n && e[i] != m {
      assert Filled(h, e[i]);
    }
  }

  /** A key's slot is linked in right after the slot that the key claims. */
  lemma ChainedLink(h: seq<Node>, chains: seq<seq<nat>>, m: nat, n: nat, node: Node)
    returns (chains': seq<seq<nat>>)
    requires Chained(h, chains) && Links(h, m, n, node)
    ensures Chained(Linked(h, m, n, node), chains')
  {
    hide CalcHash, Main, IsChain;
    var h' := Linked(h, m, n, node);
    var c := chains[m];
    chains' := chains[m := [m, n] + c[1..]];
    assert m in c && IsChain(h, m, c);
    LinkExtends(h, m, n, node, c);
    forall k | 0 <= k < |h| && k != m && chains[k] != [] ensures IsChain(h', k, chains[k]) {
      LinkSpares(h, m, n, node, k, chains[k]);
    }
    forall j | Filled(h', j) ensures j in chains'[Main(h'[j].key, |h'|)] {
      if j == n {
        assert chains'[m][1] == n;
      } else {
        assert Filled(h, j) && h'[j].key == h[j].key;
        if Main(h[j].key, |h|) == m {
          ChainHead(h, m, c);
          StillListed(c, m, n, j);
        }
      }
    }
  }

  lemma ChainHead(h: seq<Node>, m: nat, c: seq<nat>)
    requires IsChain(h, m, c)
    ensures |c| > 0 && c[0] == m
  {
  }

  lemma StillListed(c: seq<nat>, m: nat, n: nat, j: nat)
    requires |c| > 0 && c[0] == m && j in c
    ensures j in [m, n] + c[1..]
  {
    var i :| 0 <= i < |c| && c[i] == j;
    assert ([m, n] + c[1..])[if i == 0 then 0 else i + 1] == j;
  }

  /** Searching from the claimed slot is enough: when no slot of its chain holds the key, no slot
      does; and a slot that nobody claims starts no chain. */
  lemma OnlyInChain(h: seq<Node>, chains: seq<seq<nat>>, k: Key, j: int)
    requires Chained(h, chains)
    requires Filled(h, j) && h[j].key == k
    ensures Claimed(h, k)
    ensures j in chains[Main(k, |h|)]
  {
    var m := Main(k, |h|);
    assert j in chains[m];
    assert IsChain(h, m, chains[m]);
    assert chains[m][0] == m && Filled(h, chains[m][0]);
  }

  // ------------------------------------------------------------------- passes

  /** After the first pass has gone over `n` entries. */
  ghost predicate FirstPass(h: seq<Node>, entries: seq<Entry>, sizearray: nat, n: nat)
    requires n <= |entries|
  {
    && Contents(h, entries, sizearray)
    && (forall j :: Filled(h, j) ==> Main(h[j].key, |h|) == j && h[j].next == -1)
    && (forall k :: k in HashKeys(entries, sizearray, n) ==> Claimed(h, k))
  }

  /** While the second pass has gone over `n` entries: what it has not yet seen is where the first
      pass put it. */
  ghost predicate SecondPass(h: seq<Node>, chains: seq<seq<nat>>, entries: seq<Entry>, sizearray: nat, n: nat)
    requires n <= |entries|
  {
    && Contents(h, entries, sizearray) && Chained(h, chains)
    && (forall k :: k in HashKeys(entries, sizearray, |entries|) ==> Claimed(h, k))
    && (forall k :: k in HashKeys(entries, sizearray, n) ==> Has(h, k))
    && (forall j :: Filled(h, j) ==> Main(h[j].key, |h|) == j || h[j].key in HashKeys(entries, sizearray, n))
  }

  lemma FirstPassClaims(h: seq<Node>, entries: seq<Entry>, sizearray: nat, i: nat, node: Node, h': seq<Node>)
    requires IsTable(entries) && i < |entries| && !InArray(entries[i].key, sizearray)
    requires FirstPass(h, entries, sizearray, i) && |h| > 0
    requires node == Node(entries[i].key, Some(entries[i].value), -1, KeyHash(entries[i].key), true)
    requires var m := Main(entries[i].key, |h|); h' == if h[m].value.None? then h[m := node] else h
    ensures FirstPass(h', entries, sizearray, i + 1)
  {
    hide CalcHash;
    var k := entries[i].key;
    var m := Main(k, |h|);
    HashKeysNext(entries, sizearray, i);
    HashKeysHave(entries, sizearray, i);
    FindAt(entries, i);
    assert forall j :: Filled(h', j) <==> Filled(h, j) || j == m;
    if h[m].value.None? {
      assert forall j :: Filled(h, j) ==> h[j].key != k;
    } else {
      assert Filled(h, m);
    }
    forall k' | k' in HashKeys(entries, sizearray, i + 1) ensures Claimed(h', k') {
      if k' in HashKeys(entries, sizearray, i) {
        assert Claimed(h, k');
      }
    }
  }

  lemma SecondPassStarts(h: seq<Node>, entries: seq<Entry>, sizearray: nat) returns (chains: seq<seq<nat>>)
    requires FirstPass(h, entries, sizearray, |entries|)
    ensures SecondPass(h, chains, entries, sizearray, 0)
  {
    chains := FirstPassChained(h);
  }

  /** The assertion of the second pass: a key that its claimed slot does not hold is in no slot,
      and so, by counting, some slot is empty. */
  lemma EmptySlotLeft(h: seq<Node>, chains: seq<seq<nat>>, entries: seq<Entry>, sizearray: nat, i: nat)
    requires IsTable(entries) && i < |entries| && !InArray(entries[i].key, sizearray)
    requires |h| == |HashKeys(entries, sizearray, |entries|)| && SecondPass(h, chains, entries, sizearray, i)
    requires |h| > 0 && h[Main(entries[i].key, |h|)].key != entries[i].key
    ensures !Has(h, entries[i].key)
    ensures exists j :: Emptied(h, j)
  {
    hide CalcHash;
    var k := entries[i].key;
    HashKeysNext(entries, sizearray, i);
    HashKeysHave(entries, sizearray, i);
    KeysCounted(h);
    if forall j :: 0 <= j < |h| ==> Filled(h, j) {
      AllFilledHasAll(h, entries, sizearray);
    } else {
      var j :| 0 <= j < |h| && !Filled(h, j);
      assert Emptied(h, j);
    }
  }

  lemma AllFilledHasAll(h: seq<Node>, entries: seq<Entry>, sizearray: nat)
    requires Contents(h, entries, sizearray) && |h| == |HashKeys(entries, sizearray, |entries|)|
    requires forall j :: 0 <= j < |h| ==> Filled(h, j)
    ensures forall k :: k in HashKeys(entries, sizearray, |entries|) ==> Has(h, k)
  {
    hide CalcHash;
    var all := HashKeys(entries, sizearray, |entries|);
    KeysCounted(h);
    assert forall k :: k in KeysIn(h) ==> Has(h, k);
    assert KeysIn(h) <= all by {
      forall k | k in KeysIn(h) ensures k in all {
        var j :| 0 <= j < |h| && h[j].value.Some? && h[j].key == k;
        assert Filled(h, j);
      }
    }
    SameSize(KeysIn(h), all);
  }

  lemma SameSize(a: set<Key>, b: set<Key>)
    requires a <= b && |a| == |b|
    ensures a == b
  {
    assert b == a + (b - a);
  }

  lemma SecondPassSkips(h: seq<Node>, chains: seq<seq<nat>>, entries: seq<Entry>, sizearray: nat, i: nat)
    requires IsTable(entries) && i < |entries| && SecondPass(h, chains, entries, sizearray, i)
    requires InArray(entries[i].key, sizearray) || (|h| > 0 && h[Main(entries[i].key, |h|)].key == entries[i].key)
    ensures SecondPass(h, chains, entries, sizearray, i + 1)
  {
    hide CalcHash;
    var k := entries[i].key;
    HashKeysNext(entries, sizearray, i);
    if !InArray(k, sizearray) {
      HashKeysHave(entries, sizearray, i);
      assert Claimed(h, k);
      assert Filled(h, Main(k, |h|));
    }
  }

  lemma SecondPassLinks(h: seq<Node>, chains: seq<seq<nat>>, entries: seq<Entry>, sizearray: nat, i: nat, n: nat, node: Node)
    returns (chains': seq<seq<nat>>)
    requires IsTable(entries) && i < |entries| && SecondPass(h, chains, entries, sizearray, i)
    requires !InArray(entries[i].key, sizearray) && |h| > 0 && !Has(h, entries[i].key) && Emptied(h, n)
    requires node == Node(entries[i].key, Some(entries[i].value), h[Main(entries[i].key, |h|)].next,
                          KeyHash(entries[i].key), false)
    ensures Links(h, Main(entries[i].key, |h|), n, node)
    ensures SecondPass(Linked(h, Main(entries[i].key, |h|), n, node), chains', entries, sizearray, i + 1)
  {
    hide CalcHash, Main, KeyHash, Find, Chained, Contents;
    var k := entries[i].key;
    var m := Main(k, |h|);
    HashKeysNext(entries, sizearray, i);
    HashKeysHave(entries, sizearray, i);
    assert Claimed(h, k);
    var h' := Linked(h, m, n, node);
    chains' := ChainedLink(h, chains, m, n, node);
    LinkKeepsContents(h, entries, sizearray, i, m, n, node);
    assert forall j :: Filled(h', j) <==> Filled(h, j) || j == n;
    assert forall j :: Filled(h, j) ==> h'[j].key == h[j].key;
    forall k' | k' in HashKeys(entries, sizearray, |entries|) ensures Claimed(h', k') {
      assert Claimed(h, k');
    }
    forall k' | k' in HashKeys(entries, sizearray, i + 1) ensures Has(h', k') {
      if k' == k {
        assert Filled(h', n) && h'[n].key == k;
      } else {
        assert Has(h, k');
        var j :| Filled(h, j) && h[j].key == k';
        assert Filled(h', j) && h'[j].key == k';
      }
    }
  }

  lemma LinkKeepsContents(h: seq<Node>, entries: seq<Entry>, sizearray: nat, i: nat, m: nat, n: nat, node: Node)
    requires IsTable(entries) && i < |entries| && Contents(h, entries, sizearray)
    requires !InArray(entries[i].key, sizearray) && !Has(h, entries[i].key) && Links(h, m, n, node)
    requires node.key == entries[i].key && node.value == Some(entries[i].value) && node.keyhash == KeyHash(node.key)
    ensures Contents(Linked(h, m, n, node), entries, sizearray)
  {
    hide CalcHash, Main, KeyHash, Find;
    var h' := Linked(h, m, n, node);
    HashKeysHave(entries, sizearray, i);
    FindAt(entries, i);
    assert forall j :: Filled(h', j) <==> Filled(h, j) || j == n;
    assert forall j :: Filled(h, j) ==> h'[j].key == h[j].key && h'[j].value == h[j].value && h'[j].keyhash == h[j].keyhash;
  }

  // ---------------------------------------------------------------- the table

  /** The keys of the array part that have a value, from index `i` on. */
  function ArrayKeys(a: seq<Option<Value>>, i: nat): (r: seq<Key>)
    requires i <= |a|
    ensures forall q :: 0 <= q < |r| ==> r[q].IntKey? && i < r[q].n <= |a| && a[r[q].n - 1].Some?
    ensures forall p, q :: 0 <= p < q < |r| ==> r[p].n < r[q].n
    decreases |a| - i
  {
    if i == |a| then [] else (if a[i].Some? then [IntKey(i + 1)] else []) + ArrayKeys(a, i + 1)
  }

  lemma {:induction false} ArrayKeysAll(a: seq<Option<Value>>, i: nat, n: int)
    requires 0 <= i < n <= |a| && a[n - 1].Some?
    ensures IntKey(n) in ArrayKeys(a, i)
    decreases |a| - i
  {
    if n != i + 1 {
      ArrayKeysAll(a, i + 1, n);
    }
  }

  /** The keys from `i + 1` on are the end of the list of all array keys. */
  lemma {:induction false} ArrayKeysFrom(a: seq<Option<Value>>, i: nat) returns (p: nat)
    requires i <= |a|
    ensures p <= |ArrayKeys(a, 0)| && ArrayKeys(a, 0)[p..] == ArrayKeys(a, i)
    ensures forall q :: 0 <= q < p ==> ArrayKeys(a, 0)[q].n <= i
  {
    if i == 0 {
      p := 0;
    } else {
      p := ArrayKeysFrom(a, i - 1);
      if a[i - 1].Some? {
        assert ArrayKeys(a, 0)[p] == ArrayKeys(a, i - 1)[0];
        p := p + 1;
      }
    }
  }

  function HashOrder(h: seq<Node>): seq<Key> {
    seq(|h|, j requires 0 <= j < |h| => h[j].key)
  }

  /** The keys in the order in which lnextkey visits them. */
  function Order(a: seq<Option<Value>>, h: seq<Node>): seq<Key> {
    ArrayKeys(a, 0) + HashOrder(h)
  }

  function First(keys: seq<Key>): Option<Key> {
    if keys == [] then None else Some(keys[0])
  }

  class Table {
    const arr: array<Option<Value>>
    const hash: array<Node>
    ghost var chains: seq<seq<nat>>
    ghost var entries: seq<Entry>

    /** The table holds exactly the bindings of `entries`. */
    ghost predicate Valid()
      reads this, arr, hash
    {
      && IsTable(entries) && arr.Length < 0x8000_0000
      && (forall i :: 0 <= i < arr.Length ==> arr[i] == Find(entries, IntKey(i + 1)))
      && Contents(hash[..], entries, arr.Length) && Chained(hash[..], chains)
      && (forall j :: 0 <= j < hash.Length ==> Filled(hash[..], j))
      && (forall k :: k in HashKeys(entries, arr.Length, |entries|) ==> Has(hash[..], k))
    }

    ghost predicate Arrayed(n: nat)
      requires n <= |entries|
      reads this, arr
    {
      forall i :: 0 <= i < arr.Length ==> arr[i] == Find(entries[..n], IntKey(i + 1))
    }

    /** convtable: `sizearray` is what lua_rawlen gives; any border of the table will do. */
    constructor (source: seq<Entry>, sizearray: nat)
      requires IsTable(source) && sizearray < 0x8000_0000
      ensures Valid() && entries == source && arr.Length == sizearray
      ensures fresh(arr) && fresh(hash)
    {
      entries := source;
      arr := new Option<Value>[sizearray](_ => None);
      var sizehash := CountSize(source, sizearray);
      hash := new Node[sizehash](_ => EMPTY);
      new;
      if sizehash > 0 {
        FillNoColliding(source);
        FillColliding(source);
      } else {
        chains := [];
        var i := 1;
        while i <= sizearray
          invariant 1 <= i <= sizearray + 1 && entries == source && chains == []
          invariant forall j :: 0 <= j < i - 1 ==> arr[j] == Find(entries, IntKey(j + 1))
        {
          arr[i - 1] := Find(source, IntKey(i));
          i := i + 1;
        }
        assert HashKeys(entries, sizearray, |entries|) == {};
        assert hash[..] == [];
      }
    }

    method FillNoColliding(source: seq<Entry>)
      requires source == entries && IsTable(entries) && hash.Length > 0
      requires Arrayed(0)
      requires forall j :: 0 <= j < hash.Length ==> hash[j] == EMPTY
      modifies arr, hash
      ensures Arrayed(|entries|)
      ensures FirstPass(hash[..], entries, arr.Length, |entries|)
    {
      var i := 0;
      while i < |source|
        invariant 0 <= i <= |source|
        invariant Arrayed(i)
        invariant FirstPass(hash[..], entries, arr.Length, i)
      {
        hide FirstPass, IsTable, CalcHash;
        var e := source[i];
        ghost var h := hash[..];
        FindNext(entries, i);
        if InArray(e.key, arr.Length) {
          FirstPassSkips(h, entries, arr.Length, i);
          arr[e.key.n - 1] := Some(e.value);
        } else {
          var m := Main(e.key, hash.Length);
          ghost var node := Node(e.key, Some(e.value), -1, KeyHash(e.key), true);
          if hash[m].value.None? {
            hash[m] := Node(e.key, Some(e.value), -1, KeyHash(e.key), true);
          }
          assert hash[..] == if h[m].value.None? then h[m := node] else h;
          FirstPassClaims(h, entries, arr.Length, i, node, hash[..]);
        }
        i := i + 1;
      }
    }

    method FillColliding(source: seq<Entry>)
      requires source == entries && IsTable(entries) && arr.Length < 0x8000_0000
      requires hash.Length == |HashKeys(entries, arr.Length, |entries|)| > 0
      requires Arrayed(|entries|)
      requires FirstPass(hash[..], entries, arr.Length, |entries|)
      modifies hash, `chains
      ensures Valid() && entries == old(entries)
    {
      hide FirstPass, SecondPass, IsTable, CalcHash, Main, HashKeys, Contents, Chained;
      var i := 0;
      chains := SecondPassStarts(hash[..], entries, arr.Length);
      while i < |source|
        invariant 0 <= i <= |source| && entries == source
        invariant SecondPass(hash[..], chains, entries, arr.Length, i)
      {
        var e := source[i];
        ghost var h := hash[..];
        if !InArray(e.key, arr.Length) {
          var m := Main(e.key, hash.Length);
          if hash[m].key != e.key {
            EmptySlotLeft(h, chains, entries, arr.Length, i);
            var n := 0;
            while hash[n].value.Some?
              invariant 0 <= n < hash.Length && hash[..] == h
              invariant exists j :: n <= j && Emptied(h, j)
              decreases hash.Length - n
            {
              n := n + 1;
            }
            var node := Node(e.key, Some(e.value), hash[m].next, KeyHash(e.key), false);
            chains := SecondPassLinks(h, chains, entries, arr.Length, i, n, node);
            hash[m] := hash[m].(next := n, nocolliding := false);
            hash[n] := node;
            assert hash[..] == Linked(h, m, n, node);
          } else {
            SecondPassSkips(h, chains, entries, arr.Length, i);
          }
        } else {
          SecondPassSkips(h, chains, entries, arr.Length, i);
        }
        i := i + 1;
      }
      assert entries[..|entries|] == entries;
      SecondPassEnds(hash[..], chains, entries, arr.Length);
    }

    /** lookup_key: walks one chain. The result is the slot that holds the key, or -1. */
    method LookupKey(k: Key) returns (r: int)
      requires Valid()
      ensures r == -1 || 0 <= r < hash.Length
      ensures r >= 0 ==> hash[r].key == k
      ensures r == -1 ==> !Has(hash[..], k)
    {
      hide CalcHash, Main, KeyHash, Find, Contents, HashKeys, IsTable, Chained;
      if hash.Length == 0 {
        return -1;
      }
      ghost var h := hash[..];
      var n: int := Main(k, hash.Length);
      assert Filled(h, n);
      HashOf(h, entries, arr.Length, n);
      if KeyHash(k) != hash[n].keyhash && hash[n].nocolliding {
        NotInShortChain(h, chains, entries, arr.Length, k, n);
        return -1;
      }
      ghost var m, first := Listed(h, chains, n);
      ghost var i := first;
      while true
        invariant first <= i < |chains[m]| && chains[m][i] == n && Filled(h, n) && hash[..] == h
        invariant forall p :: first <= p < i ==> Filled(h, chains[m][p]) && h[chains[m][p]].key != k
        decreases |chains[m]| - i
      {
        HashOf(h, entries, arr.Length, n);
        ChainStep(h, chains, m, i);
        if KeyHash(k) == hash[n].keyhash && hash[n].key == k {
          return n;
        }
        if hash[n].next < 0 {
          NotInChain(h, chains, k, m, first);
          return -1;
        }
        i := i + 1;
        n := hash[n].next;
      }
    }

    /** lindexconf: the source table's binding of the key, after its conversion to `int`. */
    method Index(key: Key) returns (v: Option<Value>)
      requires Valid()
      ensures v == Find(entries, Narrow(key))
    {
      var k := Narrow(key);
      if InArray(k, arr.Length) {
        return arr[k.n - 1];
      }
      var n := LookupKey(k);
      hide CalcHash, Main, KeyHash, IsTable;
      AbsentMeansUnbound(hash[..], entries, arr.Length, k);
      if n >= 0 {
        assert Filled(hash[..], n);
        return hash[n].value;
      }
      return None;
    }

    /** lnextkey: None (a nil argument) asks for the first key. A key of the array range leads to
        the next one with a value, whether it has one or not; any other absent key to the end. */
    method NextKey(from: Option<Key>) returns (next: Option<Key>)
      requires Valid()
      ensures from.None? ==> next == First(Order(arr[..], hash[..]))
      ensures forall i :: 0 <= i < |Order(arr[..], hash[..])| && from == Some(Order(arr[..], hash[..])[i]) ==>
                next == First(Order(arr[..], hash[..])[i + 1..])
      ensures from.Some? && InArray(Narrow(from.value), arr.Length) ==>
                next == First(ArrayKeys(arr[..], Narrow(from.value).n) + HashOrder(hash[..]))
      ensures from.Some? && Narrow(from.value) !in Order(arr[..], hash[..]) && !InArray(Narrow(from.value), arr.Length) ==> next == None
    {
      hide CalcHash, Main, KeyHash, IsTable, Find, HashKeys, Chained, Contents, ArrayKeys, Order;
      ghost var a, h := arr[..], hash[..];
      OrderIsKeys(a, h, entries);
      if from.Some? && !InArray(Narrow(from.value), arr.Length) {
        var n := LookupKey(Narrow(from.value));
        if n < 0 {
          OrderOutside(a, h, Narrow(from.value));
          return None;
        }
        OrderOfSlot(a, h, n);
        if n + 1 == hash.Length {
          return None;
        }
        return Some(hash[n + 1].key);
      }
      var start := if from.Some? then Narrow(from.value).n else 0;
      var i := start;
      while i < arr.Length && arr[i].None?
        invariant start <= i <= arr.Length && ArrayKeys(a, i) == ArrayKeys(a, start)
      {
        ArrayKeysStep(a, i);
        i := i + 1;
      }
      ArrayKeysStep(a, i);
      OrderAfter(a, h, start);
      if i < arr.Length {
        return Some(IntKey(i + 1));
      } else if hash.Length > 0 {
        return Some(hash[0].key);
      } else {
        return None;
      }
    }
  }

  lemma FirstPassSkips(h: seq<Node>, entries: seq<Entry>, sizearray: nat, i: nat)
    requires IsTable(entries) && i < |entries| && InArray(entries[i].key, sizearray)
    requires FirstPass(h, entries, sizearray, i)
    ensures FirstPass(h, entries, sizearray, i + 1)
  {
    HashKeysNext(entries, sizearray, i);
  }

  lemma FindNext(entries: seq<Entry>, i: nat)
    requires i < |entries|
    ensures forall k :: Find(entries[..i + 1], k) == if entries[i].key == k then Some(entries[i].value) else Find(entries[..i], k)
  {
    var t := entries[..i + 1];
    assert t[..|t| - 1] == entries[..i] && t[|t| - 1] == entries[i];
    forall k ensures Find(t, k) == if entries[i].key == k then Some(entries[i].value) else Find(entries[..i], k) {
    }
  }

  lemma SecondPassEnds(h: seq<Node>, chains: seq<seq<nat>>, entries: seq<Entry>, sizearray: nat)
    requires IsTable(entries) && |h| == |HashKeys(entries, sizearray, |entries|)|
    requires SecondPass(h, chains, entries, sizearray, |entries|)
    ensures Contents(h, entries, sizearray) && Chained(h, chains)
    ensures forall j :: 0 <= j < |h| ==> Filled(h, j)
    ensures forall k :: k in HashKeys(entries, sizearray, |entries|) ==> Has(h, k)
  {
    hide CalcHash, Main, Chained;
    var all := HashKeys(entries, sizearray, |entries|);
    KeysCounted(h);
    forall k | k in all ensures k in KeysIn(h) {
      assert Has(h, k);
    }
    Subset(all, KeysIn(h));
  }

  lemma Subset(a: set<Key>, b: set<Key>)
    requires a <= b
    ensures |a| <= |b|
  {
    assert b == a + (b - a);
  }

  lemma HashOf(h: seq<Node>, entries: seq<Entry>, sizearray: nat, n: nat)
    requires Contents(h, entries, sizearray) && Filled(h, n)
    ensures h[n].keyhash == KeyHash(h[n].key)
  {
  }

  lemma Listed(h: seq<Node>, chains: seq<seq<nat>>, n: nat) returns (m: nat, i: nat)
    requires Chained(h, chains) && Filled(h, n)
    ensures |chains| == |h| && m < |h| && i < |chains[m]| && chains[m][i] == n
  {
    hide CalcHash, Main, IsChain;
    m := Main(h[n].key, |h|);
    assert n in chains[m];
    i :| 0 <= i < |chains[m]| && chains[m][i] == n;
  }

  lemma ChainStep(h: seq<Node>, chains: seq<seq<nat>>, m: nat, i: nat)
    requires Chained(h, chains) && m < |h| && i < |chains[m]|
    ensures Filled(h, chains[m][i])
    ensures h[chains[m][i]].next == if i + 1 < |chains[m]| then chains[m][i + 1] else -1
    ensures i + 1 < |chains[m]| ==> Filled(h, chains[m][i + 1])
  {
    hide CalcHash, Main;
    assert IsChain(h, m, chains[m]);
  }

  /** A key that is in a slot is in the chain of its claimed slot; when that slot has no
      collisions, it is there. */
  lemma InShortChain(h: seq<Node>, chains: seq<seq<nat>>, j: int, n: nat)
    requires Chained(h, chains) && Filled(h, j) && Filled(h, n)
    requires n == Main(h[j].key, |h|) && h[n].nocolliding
    ensures j == n
  {
    hide CalcHash, Main;
    OnlyInChain(h, chains, h[j].key, j);
    ChainStep(h, chains, n, 0);
    assert IsChain(h, n, chains[n]);
    assert |chains[n]| == 1;
  }

  lemma NotInShortChain(h: seq<Node>, chains: seq<seq<nat>>, entries: seq<Entry>, sizearray: nat, k: Key, n: nat)
    requires Contents(h, entries, sizearray) && Chained(h, chains) && |h| > 0
    requires n == Main(k, |h|) && Filled(h, n) && h[n].nocolliding && h[n].keyhash != KeyHash(k)
    ensures !Has(h, k)
  {
    hide CalcHash, Main, KeyHash, Find, Chained, HashKeys;
    if Has(h, k) {
      var j :| Filled(h, j) && h[j].key == k;
      InShortChain(h, chains, j, n);
      assert false;
    }
  }

  /** A search that starts in a slot claimed by the key passes the slot that holds it. */
  lemma PassesSlot(h: seq<Node>, chains: seq<seq<nat>>, m: nat, first: nat, j: int)
    requires Chained(h, chains) && Filled(h, j) && m < |h| && first < |chains[m]|
    requires chains[m][first] == Main(h[j].key, |h|)
    ensures exists p :: first <= p < |chains[m]| && chains[m][p] == j
  {
    hide CalcHash;
    var q := Main(h[j].key, |h|);
    OnlyInChain(h, chains, h[j].key, j);
    ChainStep(h, chains, m, first);
    assert IsChain(h, m, chains[m]);
    assert m == q && first == 0;
  }

  lemma NotInChain(h: seq<Node>, chains: seq<seq<nat>>, k: Key, m: nat, first: nat)
    requires Chained(h, chains) && |h| > 0 && m < |h| && first < |chains[m]|
    requires chains[m][first] == Main(k, |h|)
    requires forall p :: first <= p < |chains[m]| ==> Filled(h, chains[m][p]) && h[chains[m][p]].key != k
    ensures !Has(h, k)
  {
    hide CalcHash, Main, Chained;
    if Has(h, k) {
      var j :| Filled(h, j) && h[j].key == k;
      PassesSlot(h, chains, m, first, j);
      assert false;
    }
  }

  lemma AbsentMeansUnbound(h: seq<Node>, entries: seq<Entry>, sizearray: nat, k: Key)
    requires Contents(h, entries, sizearray) && !InArray(k, sizearray)
    requires forall k' :: k' in HashKeys(entries, sizearray, |entries|) ==> Has(h, k')
    ensures !Has(h, k) ==> Find(entries, k) == None
    ensures forall j :: Filled(h, j) && h[j].key == k ==> h[j].value == Find(entries, k)
  {
    hide CalcHash, KeyHash;
    forall i | Binds(entries, i, k) ensures Has(h, k) {
      HashKeysHave(entries, sizearray, i);
    }
  }

  // -------------------------------------------------------------- enumeration

  /** The enumeration lists exactly the keys that the source table binds, each one once. */
  lemma OrderIsKeys(a: seq<Option<Value>>, h: seq<Node>, entries: seq<Entry>)
    requires IsTable(entries) && |a| < 0x8000_0000
    requires forall i :: 0 <= i < |a| ==> a[i] == Find(entries, IntKey(i + 1))
    requires Contents(h, entries, |a|)
    requires forall j :: 0 <= j < |h| ==> Filled(h, j)
    requires forall k :: k in HashKeys(entries, |a|, |entries|) ==> Has(h, k)
    ensures forall k :: k in Order(a, h) <==> Find(entries, k).Some?
    ensures forall i, j :: 0 <= i < j < |Order(a, h)| ==> Order(a, h)[i] != Order(a, h)[j]
    ensures forall k :: k in Order(a, h) ==> Narrow(k) == k
    ensures forall j :: 0 <= j < |h| ==> !InArray(h[j].key, |a|)
  {
    hide CalcHash, Main, KeyHash, IsTable, Find, HashKeys, Order, ArrayKeys, Narrow;
    forall j | 0 <= j < |h| ensures !InArray(h[j].key, |a|) && Fits(h[j].key) {
      assert Filled(h, j);
      InTable(entries, |a|, h[j].key);
    }
    forall j, k | 0 <= j < k < |h| ensures h[j].key != h[k].key {
      assert Filled(h, j) && Filled(h, k);
    }
    forall k ensures k in Order(a, h) <==> Find(entries, k).Some? {
      if InArray(k, |a|) {
        OrderInside(a, h, entries, k);
      } else {
        OrderOutside(a, h, k);
        AbsentMeansUnbound(h, entries, |a|, k);
      }
    }
    OrderDistinct(a, h);
  }

  lemma OrderDistinct(a: seq<Option<Value>>, h: seq<Node>)
    requires |a| < 0x8000_0000
    requires forall j :: 0 <= j < |h| ==> !InArray(h[j].key, |a|) && Fits(h[j].key)
    requires forall j, k :: 0 <= j < k < |h| ==> h[j].key != h[k].key
    ensures forall i, j :: 0 <= i < j < |Order(a, h)| ==> Order(a, h)[i] != Order(a, h)[j]
    ensures forall k :: k in Order(a, h) ==> Narrow(k) == k
  {
  }

  lemma OrderAt(a: seq<Option<Value>>, h: seq<Node>, i: nat)
    requires i < |Order(a, h)|
    ensures i < |ArrayKeys(a, 0)| ==> InArray(Order(a, h)[i], |a|) && Order(a, h)[i] == ArrayKeys(a, 0)[i]
    ensures i >= |ArrayKeys(a, 0)| ==> exists j :: 0 <= j < |h| && h[j].key == Order(a, h)[i]
  {
    var keys := ArrayKeys(a, 0);
    assert i >= |keys| ==> h[i - |keys|].key == Order(a, h)[i];
  }

  lemma OrderOutside(a: seq<Option<Value>>, h: seq<Node>, k: Key)
    requires !InArray(k, |a|)
    ensures k in Order(a, h) <==> exists j :: 0 <= j < |h| && h[j].key == k
  {
    var keys := ArrayKeys(a, 0);
    if k in Order(a, h) {
      var i :| 0 <= i < |Order(a, h)| && Order(a, h)[i] == k;
      OrderAt(a, h, i);
    }
    if j :| 0 <= j < |h| && h[j].key == k {
      assert Order(a, h)[|keys| + j] == k;
    }
  }

  lemma InTable(entries: seq<Entry>, sizearray: nat, k: Key)
    requires IsTable(entries) && k in HashKeys(entries, sizearray, |entries|)
    ensures Fits(k) && !InArray(k, sizearray)
  {
  }

  lemma OrderInside(a: seq<Option<Value>>, h: seq<Node>, entries: seq<Entry>, k: Key)
    requires InArray(k, |a|) && a[k.n - 1] == Find(entries, k)
    requires forall j :: 0 <= j < |h| ==> !InArray(h[j].key, |a|)
    ensures k in Order(a, h) <==> Find(entries, k).Some?
  {
    hide Find;
    if a[k.n - 1].Some? {
      ArrayKeysAll(a, 0, k.n);
    }
  }

  lemma ArrayKeysStep(a: seq<Option<Value>>, i: nat)
    requires i <= |a|
    ensures i == |a| ==> ArrayKeys(a, i) == []
    ensures i < |a| && a[i].None? ==> ArrayKeys(a, i) == ArrayKeys(a, i + 1)
    ensures i < |a| && a[i].Some? ==> First(ArrayKeys(a, i)) == Some(IntKey(i + 1)) && ArrayKeys(a, i) != []
  {
  }

  /** All that precedes an array key in the enumeration is smaller, all that follows larger. */
  lemma ArrayKeysAfter(a: seq<Option<Value>>, start: nat, i: nat)
    requires 0 < start <= |a| && i < |ArrayKeys(a, 0)| && ArrayKeys(a, 0)[i].n == start
    ensures ArrayKeys(a, 0)[i + 1..] == ArrayKeys(a, start)
  {
    var keys := ArrayKeys(a, 0);
    var p := ArrayKeysFrom(a, start);
    forall q | p <= q < |keys| ensures keys[q].n > start {
      assert keys[p..][q - p] == keys[q];
    }
    forall q | 0 <= q && q + 1 < p ensures keys[q].n < start {
      assert keys[q].n < keys[q + 1].n;
    }
  }

  /** What comes after array key `start` (after nothing, for 0). */
  lemma OrderAfter(a: seq<Option<Value>>, h: seq<Node>, start: nat)
    requires start <= |a| && forall j :: 0 <= j < |h| ==> !InArray(h[j].key, |a|)
    ensures start == 0 ==> Order(a, h) == ArrayKeys(a, start) + HashOrder(h)
    ensures forall i :: 0 <= i < |Order(a, h)| && Order(a, h)[i] == IntKey(start) && start > 0 ==>
              Order(a, h)[i + 1..] == ArrayKeys(a, start) + HashOrder(h)
  {
    var keys, o := ArrayKeys(a, 0), Order(a, h);
    forall i | 0 <= i < |o| && o[i] == IntKey(start) && start > 0
      ensures o[i + 1..] == ArrayKeys(a, start) + HashOrder(h)
    {
      ArrayKeyIndex(a, h, i);
      ArrayKeysAfter(a, start, i);
      assert o[i + 1..] == keys[i + 1..] + HashOrder(h);
    }
  }

  lemma ArrayKeyIndex(a: seq<Option<Value>>, h: seq<Node>, i: nat)
    requires i < |Order(a, h)| && InArray(Order(a, h)[i], |a|)
    requires forall j :: 0 <= j < |h| ==> !InArray(h[j].key, |a|)
    ensures i < |ArrayKeys(a, 0)| && ArrayKeys(a, 0)[i] == Order(a, h)[i]
  {
    var keys := ArrayKeys(a, 0);
    assert i >= |keys| ==> Order(a, h)[i] == h[i - |keys|].key;
  }

  lemma OrderOfSlot(a: seq<Option<Value>>, h: seq<Node>, n: nat)
    requires n < |h|
    ensures |ArrayKeys(a, 0)| + n < |Order(a, h)|
    ensures Order(a, h)[|ArrayKeys(a, 0)| + n] == h[n].key
    ensures First(Order(a, h)[|ArrayKeys(a, 0)| + n + 1..]) == if n + 1 == |h| then None else Some(h[n + 1].key)
  {
  }
}
