/** The flat tree of a pattern (3rd/lpeg-0.12.2/lptree.c): nodes in preorder in one array, the
    second sibling found by its distance. `correctassociativity` rotates it in place, and
    `finalfix` does so for a whole tree; a pattern keeps its meaning.
 */
module PegTree {
  import opened Basics
  import opened Peg

  datatype Tag = TChar | TSet | TAny | TTrue | TFalse | TRep | TSeq | TChoice | TNot | TAnd | TBehind

  /** A tree node: `u` is the distance to the second sibling (u.ps) or a counter (u.n). A set's
      bit map takes the four slots after its node. */
  datatype Slot = Node(tag: Tag, u: int) | Bits(cs: Charset, part: nat)

  const SET_SLOTS: nat := 4

  /** The preorder layout of a pattern. */
  function Flat(p: Pattern): (r: seq<Slot>)
    ensures |r| > 0
  {
    match p
    case Chr(c) => [Node(TChar, c as int)]
    case CharSet(cs) => [Node(TSet, 0), Bits(cs, 0), Bits(cs, 1), Bits(cs, 2), Bits(cs, 3)]
    case Any => [Node(TAny, 0)]
    case True => [Node(TTrue, 0)]
    case False => [Node(TFalse, 0)]
    case Rep(b) => [Node(TRep, 0)] + Flat(b)
    case Seq(a, b) => [Node(TSeq, |Flat(a)| + 1)] + (Flat(a) + Flat(b))
    case Choice(a, b) => [Node(TChoice, |Flat(a)| + 1)] + (Flat(a) + Flat(b))
    case Not(b) => [Node(TNot, 0)] + Flat(b)
    case And(b) => [Node(TAnd, 0)] + Flat(b)
    case Behind(n, b) => [Node(TBehind, n)] + Flat(b)
  }

  predicate Associative(p: Pattern) { p.Seq? || p.Choice? }

  function TagOf(p: Pattern): Tag { if p.Seq? then TSeq else TChoice }

  function Op(tag: Tag, a: Pattern, b: Pattern): Pattern { if tag == TSeq then Seq(a, b) else Choice(a, b) }

  /** Is the first sibling an application of the same operator? */
  predicate LeftNested(p: Pattern)
    requires Associative(p)
  {
    Associative(p.p1) && TagOf(p.p1) == TagOf(p)
  }

  /** (t11 op t12) op t2 becomes t11 op (t12 op t2) until the first sibling is something else. */
  function Rotated(p: Pattern): (r: Pattern)
    requires Associative(p)
    ensures Associative(r) && TagOf(r) == TagOf(p)
    decreases p.p1
  {
    if LeftNested(p) then Rotated(Op(TagOf(p), p.p1.p1, Op(TagOf(p), p.p1.p2, p.p2))) else p
  }

  /** finalfix: the rotation at every node, from the root down. */
  function Fixed(p: Pattern): Pattern
    decreases |Flat(p)|
  {
    match p
    case Rep(b) => Rep(Fixed(b))
    case Not(b) => Not(Fixed(b))
    case And(b) => And(Fixed(b))
    case Behind(n, b) => Behind(n, Fixed(b))
    case Seq(_, _) => RotatedFits(p); var q := Rotated(p); Op(TSeq, Fixed(q.p1), Fixed(q.p2))
    case Choice(_, _) => RotatedFits(p); var q := Rotated(p); Op(TChoice, Fixed(q.p1), Fixed(q.p2))
    case _ => p
  }

  // -------------------------------------------------------------- the rotation

  lemma {:induction false} RotatedFits(p: Pattern)
    requires Associative(p)
    ensures |Flat(Rotated(p))| == |Flat(p)| && !LeftNested(Rotated(p))
    ensures |Flat(Rotated(p).p1)| < |Flat(p)| && |Flat(Rotated(p).p2)| < |Flat(p)|
    decreases p.p1
  {
    if LeftNested(p) {
      RotatedFits(Op(TagOf(p), p.p1.p1, Op(TagOf(p), p.p1.p2, p.p2)));
    }
  }

  /** Both operators are associative, on every subject and at every position. */
  lemma {:induction false} RotatedMeans(s: seq<Byte>, p: Pattern, i: nat)
    requires Associative(p) && i <= |s|
    ensures Eval(s, Rotated(p), i) == Eval(s, p, i)
    decreases p.p1
  {
    if LeftNested(p) {
      var t := TagOf(p);
      var a, b, c := p.p1.p1, p.p1.p2, p.p2;
      RotatedMeans(s, Op(t, a, Op(t, b, c)), i);
      assert p == Op(t, Op(t, a, b), c);
      Associates(s, t, a, b, c, i);
    }
  }

  lemma Associates(s: seq<Byte>, t: Tag, a: Pattern, b: Pattern, c: Pattern, i: nat)
    requires i <= |s|
    ensures Eval(s, Op(t, Op(t, a, b), c), i) == Eval(s, Op(t, a, Op(t, b, c)), i)
  {
    assert Eval(s, Op(t, a, b), i) == if t == TSeq then (if Eval(s, a, i).Some? then Eval(s, b, Eval(s, a, i).value) else None)
                                      else (if Eval(s, a, i).Some? then Eval(s, a, i) else Eval(s, b, i));
  }

  ghost predicate SameMeaning(s: seq<Byte>, p: Pattern, q: Pattern) {
    forall i: nat :: i <= |s| ==> Eval(s, p, i) == Eval(s, q, i)
  }

  /** Replacing parts by parts of the same meaning. */
  lemma {:induction false} Compositional(s: seq<Byte>, p: Pattern, q: Pattern, i: nat)
    requires i <= |s|
    requires match p
             case Rep(b) => q.Rep? && SameMeaning(s, b, q.body)
             case Not(b) => q.Not? && SameMeaning(s, b, q.body)
             case And(b) => q.And? && SameMeaning(s, b, q.body)
             case Behind(n, b) => q.Behind? && q.n == n && SameMeaning(s, b, q.body)
             case Seq(a, b) => q.Seq? && SameMeaning(s, a, q.p1) && SameMeaning(s, b, q.p2)
             case Choice(a, b) => q.Choice? && SameMeaning(s, a, q.p1) && SameMeaning(s, b, q.p2)
             case _ => q == p
    ensures Eval(s, p, i) == Eval(s, q, i)
    decreases |s| - i
  {
    match p
    case Rep(b) =>
      var r := Eval(s, b, i);
      assert r == Eval(s, q.body, i);
      if r.Some? && r.value > i { Compositional(s, p, q, r.value); }
    case Behind(n, b) =>
      if n <= i { assert Eval(s, b, i - n) == Eval(s, q.body, i - n); }
    case Seq(a, b) =>
      var r := Eval(s, a, i);
      assert r == Eval(s, q.p1, i);
      if r.Some? { assert Eval(s, b, r.value) == Eval(s, q.p2, r.value); }
    case Choice(a, b) => assert Eval(s, a, i) == Eval(s, q.p1, i) && Eval(s, b, i) == Eval(s, q.p2, i);
    case Not(b) => assert Eval(s, b, i) == Eval(s, q.body, i);
    case And(b) => assert Eval(s, b, i) == Eval(s, q.body, i);
    case _ =>
  }

  /** The fixed tree matches exactly what the tree matched, on every subject. */
  lemma {:induction false} FixedMeans(s: seq<Byte>, p: Pattern)
    ensures SameMeaning(s, p, Fixed(p))
    decreases |Flat(p)|
  {
    hide Eval;
    if Associative(p) {
      RotatedFits(p);
      var q := Rotated(p);
      FixedMeans(s, q.p1);
      FixedMeans(s, q.p2);
      forall i: nat | i <= |s| ensures Eval(s, p, i) == Eval(s, Fixed(p), i) {
        RotatedMeans(s, p, i);
        Compositional(s, q, Fixed(p), i);
      }
    } else {
      if p.Rep? || p.Not? || p.And? || p.Behind? { FixedMeans(s, p.body); }
      forall i: nat | i <= |s| ensures Eval(s, p, i) == Eval(s, Fixed(p), i) {
        Compositional(s, p, Fixed(p), i);
      }
    }
  }

  /** Nowhere in the tree is the first sibling an application of its parent's operator. */
  predicate RightLeaning(p: Pattern) {
    match p
    case Seq(a, b) => !LeftNested(p) && RightLeaning(a) && RightLeaning(b)
    case Choice(a, b) => !LeftNested(p) && RightLeaning(a) && RightLeaning(b)
    case Rep(b) => RightLeaning(b)
    case Not(b) => RightLeaning(b)
    case And(b) => RightLeaning(b)
    case Behind(_, b) => RightLeaning(b)
    case _ => true
  }

  lemma {:induction false} FixedLeans(p: Pattern)
    ensures RightLeaning(Fixed(p)) && |Flat(Fixed(p))| == |Flat(p)|
    ensures Associative(Fixed(p)) == Associative(p) && (Associative(p) ==> TagOf(Fixed(p)) == TagOf(p))
    decreases |Flat(p)|
  {
    if Associative(p) {
      RotatedFits(p);
      FixedLeans(Rotated(p).p1);
      FixedLeans(Rotated(p).p2);
    } else if p.Rep? || p.Not? || p.And? || p.Behind? {
      FixedLeans(p.body);
    }
  }

  // ------------------------------------------------------------------ in place

  lemma Assoc<T>(a: seq<T>, b: seq<T>, c: seq<T>)
    ensures (a + b) + c == a + (b + c)
  {
  }

  lemma CutThree<T>(a: seq<T>, t: nat, n1: nat, n2: nat)
    requires t + 1 + n1 + n2 <= |a|
    ensures a[t..t + 1 + n1 + n2] == [a[t]] + (a[t + 1..t + 1 + n1] + a[t + 1 + n1..t + 1 + n1 + n2])
  {
  }

  lemma BinaryIs(p: Pattern)
    requires Associative(p)
    ensures Flat(p) == [Node(TagOf(p), |Flat(p.p1)| + 1)] + (Flat(p.p1) + Flat(p.p2))
    ensures |Flat(p)| == 1 + |Flat(p.p1)| + |Flat(p.p2)|
  {
  }

  /** The array holds `b` from `t` on. */
  ghost predicate Lies(a: seq<Slot>, t: nat, b: seq<Slot>): (r: bool)
    ensures r ==> t + |b| <= |a|
  {
    t + |b| <= |a| && a[t..t + |b|] == b
  }

  ghost predicate At(a: seq<Slot>, t: nat, p: Pattern): (r: bool)
    ensures r ==> t + |Flat(p)| <= |a|
  {
    Lies(a, t, Flat(p))
  }

  lemma AtLies(a: seq<Slot>, t: nat, p: Pattern)
    ensures At(a, t, p) <==> Lies(a, t, Flat(p))
  {
  }

  ghost predicate IsNode(f: seq<Slot>, x: Slot, b: seq<Slot>, c: seq<Slot>): (r: bool)
    ensures r ==> |f| == 1 + |b| + |c|
  {
    f == [x] + (b + c)
  }

  lemma Parts(p: Pattern) returns (f: seq<Slot>, x: Slot, b: seq<Slot>, c: seq<Slot>)
    requires Associative(p)
    ensures f == Flat(p) && x == Node(TagOf(p), |Flat(p.p1)| + 1) && b == Flat(p.p1) && c == Flat(p.p2) && IsNode(f, x, b, c)
  {
    f, x, b, c := Flat(p), Node(TagOf(p), |Flat(p.p1)| + 1), Flat(p.p1), Flat(p.p2);
  }

  lemma LiesNode(a: seq<Slot>, t: nat, f: seq<Slot>, x: Slot, b: seq<Slot>, c: seq<Slot>)
    requires t + 1 + |b| + |c| <= |a| && IsNode(f, x, b, c)
    ensures Lies(a, t, f) <==> a[t] == x && Lies(a, t + 1, b) && Lies(a, t + 1 + |b|, c)
  {
    var b', c' := a[t + 1..t + 1 + |b|], a[t + 1 + |b|..t + 1 + |b| + |c|];
    CutThree(a, t, |b|, |c|);
    SplitsSame([a[t]], [x], b', b, c', c);
  }

  /** What a binary node looks like in the array. */
  lemma AtBinary(a: seq<Slot>, t: nat, p: Pattern)
    requires Associative(p) && t + |Flat(p)| <= |a|
    ensures |Flat(p)| == 1 + |Flat(p.p1)| + |Flat(p.p2)|
    ensures At(a, t, p) <==>
            && a[t] == Node(TagOf(p), |Flat(p.p1)| + 1)
            && At(a, t + 1, p.p1) && At(a, t + 1 + |Flat(p.p1)|, p.p2)
  {
    hide Flat, Lies, At, IsNode, TagOf;
    var f, x, b, c := Parts(p);
    LiesNode(a, t, f, x, b, c);
    AtLies(a, t, p);
    AtLies(a, t + 1, p.p1);
    AtLies(a, t + 1 + |b|, p.p2);
  }

  lemma SplitsSame<T>(a: seq<T>, a': seq<T>, b: seq<T>, b': seq<T>, c: seq<T>, c': seq<T>)
    requires |a| == |a'| && |b| == |b'| && |c| == |c'|
    ensures a + (b + c) == a' + (b' + c') <==> a == a' && b == b' && c == c'
  {
    if a + (b + c) == a' + (b' + c') {
      var x, y := a + (b + c), a' + (b' + c');
      assert x[..|a|] == a && y[..|a|] == a';
      assert x[|a|..|a| + |b|] == b && y[|a|..|a| + |b|] == b';
      assert x[|a| + |b|..] == c && y[|a| + |b|..] == c';
    }
  }

  lemma LiesNothing(a: seq<Slot>, t: nat)
    requires t <= |a|
    ensures Lies(a, t, [])
  {
  }

  lemma AtUnary(a: seq<Slot>, t: nat, p: Pattern)
    requires p.Rep? || p.Not? || p.And? || p.Behind?
    requires t + |Flat(p)| <= |a|
    ensures |Flat(p)| == 1 + |Flat(p.body)|
    ensures At(a, t, p) <==> a[t] == Flat(p)[0] && At(a, t + 1, p.body)
  {
    UnaryIs(p);
    LiesNothing(a, t + |Flat(p)|);
    hide Flat, Lies;
    LiesNode(a, t, Flat(p), Flat(p)[0], Flat(p.body), []);
  }

  lemma UnaryIs(p: Pattern)
    requires p.Rep? || p.Not? || p.And? || p.Behind?
    ensures Flat(p) == [Flat(p)[0]] + (Flat(p.body) + []) && |Flat(p)| == 1 + |Flat(p.body)|
  {
  }

  /** A part of the tree outside the touched slots is still there. */
  lemma AtStays(a: seq<Slot>, b: seq<Slot>, t: nat, p: Pattern)
    requires At(a, t, p) && |a| == |b|
    requires forall k :: t <= k < t + |Flat(p)| ==> b[k] == a[k]
    ensures At(b, t, p)
  {
    hide Flat;
    assert b[t..t + |Flat(p)|] == a[t..t + |Flat(p)|];
  }

  lemma AtMoved(a: seq<Slot>, b: seq<Slot>, from: nat, to: nat, p: Pattern)
    requires At(a, from, p) && |a| == |b| && to + |Flat(p)| <= |b|
    requires b[to..to + |Flat(p)|] == a[from..from + |Flat(p)|]
    ensures At(b, to, p)
  {
  }

  lemma Shifted<T>(a: seq<T>, b: seq<T>, to: nat, from: nat, n: nat)
    requires |a| == |b| && to <= from && from + n <= |a|
    requires forall k :: to <= k < to + n ==> a[k] == b[k + (from - to)]
    ensures a[to..to + n] == b[from..from + n]
  {
  }

  /** memmove of `n` nodes to a lower place. */
  method MoveDown(a: array<Slot>, to: nat, from: nat, n: nat)
    requires to <= from && from + n <= a.Length
    modifies a
    ensures a[to..to + n] == old(a[from..from + n])
    ensures forall k :: 0 <= k < to || to + n <= k < a.Length ==> a[k] == old(a[k])
  {
    ghost var b := a[..];
    var d := from - to;
    for i := to to to + n
      invariant forall k :: to <= k < i ==> a[k] == b[k + d]
      invariant forall k :: 0 <= k < to || i <= k < a.Length ==> a[k] == b[k]
    {
      a[i] := a[i + d];
    }
    Shifted(a[..], b, to, from, n);
    assert b == old(a[..]) && b[from..from + n] == old(a[from..from + n]);
  }

  /** correctassociativity: rotates the tree at `t` in place. `p` is the tree that is there. */
  method CorrectAssociativity(a: array<Slot>, t: nat, ghost p: Pattern)
    requires Associative(p) && At(a[..], t, p)
    modifies a
    ensures At(a[..], t, Rotated(p))
    ensures forall k :: 0 <= k < t || t + |Flat(p)| <= k < a.Length ==> a[k] == old(a[k])
  {
    hide Flat, At;
    ghost var q := p;
    AtBinary(a[..], t, q);
    FirstNode(a[..], t + 1, q.p1);
    while a[t + 1].tag == a[t].tag
      invariant Associative(q) && At(a[..], t, q) && TagOf(q) == TagOf(p)
      invariant Rotated(q) == Rotated(p) && |Flat(q)| == |Flat(p)| && t + |Flat(p)| <= a.Length
      invariant a[t] == Node(TagOf(q), |Flat(q.p1)| + 1) && |Flat(q.p1)| > 0 && t + 1 < a.Length
      invariant a[t + 1].Node? && (a[t + 1].tag == TagOf(q) <==> LeftNested(q))
      invariant forall k :: 0 <= k < t || t + |Flat(p)| <= k < a.Length ==> a[k] == old(a[k])
      decreases q.p1
    {
      q := RotateOnce(a, t, q);
      AtBinary(a[..], t, q);
      FirstNode(a[..], t + 1, q.p1);
    }
  }

  /** One turn of the loop. */
  method RotateOnce(a: array<Slot>, t: nat, ghost q: Pattern) returns (ghost q': Pattern)
    requires Associative(q) && LeftNested(q) && At(a[..], t, q)
    modifies a
    ensures q' == Op(TagOf(q), q.p1.p1, Op(TagOf(q), q.p1.p2, q.p2)) && q'.p1 < q.p1
    ensures Rotated(q') == Rotated(q) && |Flat(q')| == |Flat(q)| && At(a[..], t, q')
    ensures forall k :: 0 <= k < t || t + |Flat(q)| <= k < a.Length ==> a[k] == old(a[k])
  {
    hide Flat, At, Rotated;
    ghost var x, y, z := q.p1.p1, q.p1.p2, q.p2;
    ghost var before := a[..];
    q' := Op(TagOf(q), x, Op(TagOf(q), y, z));
    AtBinary(before, t, q);
    AtBinary(before, t + 1, q.p1);
    RotationSizes(q);
    var n1size := a[t].u - 1;
    var n11size := a[t + 1].u - 1;
    var n12size := n1size - n11size - 1;
    MoveDown(a, t + 1, t + 2, n11size);
    a[t] := Node(a[t].tag, n11size + 1);
    a[t + n11size + 1] := Node(a[t].tag, n12size + 1);
    ghost var after := a[..];
    AtMoved(before, after, t + 2, t + 1, x);
    AtStays(before, after, t + n11size + 2, y);
    AtStays(before, after, t + n1size + 1, z);
    BinaryIs(q'.p2);
    AtBinary(after, t + n11size + 1, q'.p2);
    AtBinary(after, t, q');
  }

  lemma RotationSizes(q: Pattern)
    requires Associative(q) && LeftNested(q)
    ensures var q' := Op(TagOf(q), q.p1.p1, Op(TagOf(q), q.p1.p2, q.p2));
            && |Flat(q')| == |Flat(q)| && Rotated(q') == Rotated(q)
            && |Flat(q')| == 2 + |Flat(q.p1.p1)| + |Flat(q.p1.p2)| + |Flat(q.p2)|
  {
  }

  /** The node at the start of a tree tells its operator. */
  lemma FirstNode(a: seq<Slot>, t: nat, p: Pattern)
    requires At(a, t, p)
    ensures t < |a| && a[t] == Flat(p)[0] && a[t].Node?
    ensures Associative(p) ==> a[t].tag == TagOf(p)
    ensures a[t].tag == TSeq <==> p.Seq?
    ensures a[t].tag == TChoice <==> p.Choice?
    ensures a[t].tag in {TRep, TNot, TAnd, TBehind} <==> p.Rep? || p.Not? || p.And? || p.Behind?
    ensures p.Rep? || p.Not? || p.And? || p.Behind? ==> |Flat(p)| == 1 + |Flat(p.body)|
  {
    assert a[t..t + |Flat(p)|][0] == a[t];
  }

  /** finalfix, for a tree without calls, captures and grammars. The source writes the last call of
      each case as a jump back to its start. */
  method FinalFix(a: array<Slot>, t: nat, ghost p: Pattern)
    requires At(a[..], t, p)
    modifies a
    ensures At(a[..], t, Fixed(p))
    ensures forall k :: 0 <= k < t || t + |Flat(p)| <= k < a.Length ==> a[k] == old(a[k])
    decreases |Flat(p)|
  {
    hide Flat, At;
    FirstNode(a[..], t, p);
    FixedLeans(p);
    if a[t].tag == TSeq || a[t].tag == TChoice {
      RotatedFits(p);
      ghost var q := Rotated(p);
      CorrectAssociativity(a, t, p);
      AtBinary(a[..], t, q);
      FixedLeans(q.p1);
      ghost var before := a[..];
      FinalFix(a, t + 1, q.p1);
      AtStays(before, a[..], t + 1 + |Flat(q.p1)|, q.p2);
      ghost var between := a[..];
      FinalFix(a, t + a[t].u, q.p2);
      AtStays(between, a[..], t + 1, Fixed(q.p1));
      AtBinary(a[..], t, Fixed(p));
    } else if a[t].tag == TRep || a[t].tag == TNot || a[t].tag == TAnd || a[t].tag == TBehind {
      AtUnary(a[..], t, p);
      FinalFix(a, t + 1, p.body);
      AtUnary(a[..], t, Fixed(p));
      SameHead(p);
    }
  }

  lemma SameHead(p: Pattern)
    requires p.Rep? || p.Not? || p.And? || p.Behind?
    ensures Flat(Fixed(p))[0] == Flat(p)[0]
  {
  }
}
