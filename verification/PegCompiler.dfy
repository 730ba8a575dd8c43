/** The compiler proper (3rd/lpeg-0.12.2/lpcode.c): methods that append instructions to the
    code under construction and patch jump offsets in place, proved against the
    specification in PegCodegen.dfy.
 */
module PegCompiler {
  import opened Basics
  import opened Peg
  import opened PegMachine
  import opened PegCodegen
  import PegCorrect

  /** No instruction (a test that was not generated). */
  const NOINST: int := -1

  /** The slot reserved for an offset that is not known yet. */
  const HOLE: Slot := Op(IAny, 0)

  /** The dominating test, as `codechar` and `codecharset` read it back from the code. */
  ghost function TestAt(code: seq<Slot>, tt: int): Test {
    if !(0 <= tt < |code|) || !code[tt].Op? then NoTest
    else if code[tt].code == ITestChar && code[tt].aux < 256 then OnChar(code[tt].aux as Byte)
    else if code[tt].code == ITestSet && HasSet(code, tt + 2) then OnSet(code[tt + 2].cs)
    else NoTest
  }

  /** `tt` is no test, or it points at a complete instruction. */
  predicate TestIn(code: seq<Slot>, tt: int) {
    tt < |code| && (tt >= 0 && code[tt].Op? && code[tt].code == ITestSet ==> tt + 2 < |code|)
  }

  /** Concatenation and patching under names of their own: the methods below reason with the
      lemmas about them and not about single slots. */
  ghost function Cat(a: seq<Slot>, b: seq<Slot>): (r: seq<Slot>)
    ensures |r| == |a| + |b|
  {
    a + b
  }

  ghost function Patched(code: seq<Slot>, i: int, off: int): (r: seq<Slot>)
    requires 0 <= i + 1 < |code|
    ensures |r| == |code|
  {
    code[i + 1 := Offset(off)]
  }

  ghost function Open(op: Opcode): (r: seq<Slot>)
    ensures |r| == 2
  {
    [Op(op, 0), HOLE]
  }

  lemma Assoc(a: seq<Slot>, b: seq<Slot>, c: seq<Slot>)
    ensures Cat(Cat(a, b), c) == Cat(a, Cat(b, c))
  {
  }

  lemma JumpLen(op: Opcode, off: int)
    ensures |JumpSlots(op, off)| == 2
  {
  }

  lemma TestLens(f: FirstSet, off: int)
    ensures |TestWith(f, HOLE)| == |TestSlots(f, off)| == TestLen(f)
    ensures !f.empty ==> TestLen(f) >= 2
    ensures !f.empty && Kind(f.cs).Generic? ==> TestLen(f) == 10
    ensures f.empty ==> TestWith(f, HOLE) == TestSlots(f, off)
  {
  }

  /** Filling the hole of a test that was coded on top of `base`. */
  lemma PatchTest(base: seq<Slot>, f: FirstSet, rest: seq<Slot>, off: int)
    requires !f.empty
    ensures TestLen(f) >= 2
    ensures Patched(Cat(Cat(base, TestWith(f, HOLE)), rest), |base|, off) == Cat(base, Cat(TestSlots(f, off), rest))
  {
    TestLens(f, off);
  }

  /** Filling the hole of a jump that was coded on top of `base`. */
  lemma PatchJump(base: seq<Slot>, op: Opcode, rest: seq<Slot>, off: int)
    ensures Patched(Cat(Cat(base, Open(op)), rest), |base|, off) == Cat(base, Cat(JumpSlots(op, off), rest))
  {
  }

  lemma PatchLastJump(base: seq<Slot>, op: Opcode, off: int)
    ensures Patched(Cat(base, Open(op)), |base|, off) == Cat(base, JumpSlots(op, off))
  {
  }

  /** Filling the hole of the jump that precedes `ca`. */
  lemma PatchEnter(base: seq<Slot>, op: Opcode, off: int, ca: seq<Slot>, leave: seq<Slot>)
    ensures Patched(Cat(Cat(Cat(base, Open(op)), ca), leave), |base|, off) == Cat(base, Cat(JumpSlots(op, off), Cat(ca, leave)))
  {
    hide Cat, Patched, Open, JumpSlots;
    Assoc(Cat(base, Open(op)), ca, leave);
    PatchJump(base, op, Cat(ca, leave), off);
  }

  /** Filling the hole of the jump between `ca` and `cb`. */
  lemma PatchLeave(base: seq<Slot>, enter: seq<Slot>, ca: seq<Slot>, op: Opcode, off: int, cb: seq<Slot>)
    ensures Patched(Cat(Cat(base, Cat(enter, Cat(ca, Open(op)))), cb), |base| + |enter| + |ca|, off) ==
            Cat(base, Cat(enter, Cat(ca, Cat(JumpSlots(op, off), cb))))
  {
    hide Cat, Patched, Open, JumpSlots;
    Assoc(base, enter, Cat(ca, Open(op)));
    Assoc(Cat(base, enter), ca, Open(op));
    PatchJump(Cat(Cat(base, enter), ca), op, cb, off);
    Assoc(Cat(base, enter), ca, Cat(JumpSlots(op, off), cb));
    Assoc(base, enter, Cat(ca, Cat(JumpSlots(op, off), cb)));
  }

  lemma TestStays(base: seq<Slot>, tt: int, more: seq<Slot>)
    requires TestIn(base, tt)
    ensures TestIn(Cat(base, more), tt) && TestAt(Cat(base, more), tt) == TestAt(base, tt)
  {
  }

  /** A freshly coded test is a good dominating test for what comes next. */
  lemma TestReady(base: seq<Slot>, f: FirstSet)
    requires !f.empty
    ensures TestIn(Cat(base, TestWith(f, HOLE)), |base|)
    ensures TestAt(Cat(base, TestWith(f, HOLE)), |base|) == TestOf(f)
  {
    TestLens(f, 0);
    var code := Cat(base, TestWith(f, HOLE));
    assert code[|base|] == TestWith(f, HOLE)[0];
    if Kind(f.cs).Generic? { assert code[|base| + 2] == TestWith(f, HOLE)[2]; }
  }

  lemma NoTestAt(code: seq<Slot>)
    ensures TestIn(code, NOINST) && TestAt(code, NOINST) == NoTest
  {
  }

  /** The result of `CodeTestSet` as a dominating test, when there is one. */
  lemma ReadyOrNone(base: seq<Slot>, f: FirstSet, test: int, code: seq<Slot>)
    requires code == Cat(base, TestWith(f, HOLE)) && test == if f.empty then NOINST else |base|
    ensures TestIn(code, test) && TestAt(code, test) == TestOf(f)
  {
    if !f.empty { TestReady(base, f); }
  }

  // The specification's fragments under the same names.

  lemma ByTestChoiceIs(f: FirstSet, a: seq<Slot>, emptyp2: bool, b: seq<Slot>)
    ensures emptyp2 ==> ByTestChoice(f, a, emptyp2, b) == Cat(TestSlots(f, TestLen(f) + |a|), Cat(a, b))
    ensures !emptyp2 ==>
      ByTestChoice(f, a, emptyp2, b) == Cat(TestSlots(f, TestLen(f) + |a| + 2), Cat(a, Cat(JumpSlots(IJmp, 2 + |b|), b)))
  {
    assert [] + b == b;
  }

  lemma PushedChoiceIs(f: FirstSet, a: seq<Slot>, b: seq<Slot>)
    ensures PushedChoice(f, a, b) ==
            Cat(TestSlots(f, TestLen(f) + |a| + 4), Cat(JumpSlots(IChoice, |a| + 4), Cat(a, Cat(JumpSlots(ICommit, 2 + |b|), b))))
  {
  }

  lemma ByTestLoopIs(f: FirstSet, a: seq<Slot>)
    ensures ByTestLoop(f, a) == Cat(TestSlots(f, TestLen(f) + |a| + 2), Cat(a, JumpSlots(IJmp, -(TestLen(f) + |a|))))
  {
  }

  lemma PushedLoopIs(f: FirstSet, opt: bool, a: seq<Slot>)
    ensures PushedLoop(f, opt, a) ==
            Cat(TestSlots(f, TestLen(f) + |a| + 4),
                Cat(if opt then JumpSlots(IPartialCommit, 2) else JumpSlots(IChoice, |a| + 4), Cat(a, JumpSlots(IPartialCommit, -|a|))))
  {
  }

  lemma NotIs(f: FirstSet, a: seq<Slot>)
    ensures ByTestNot(f) == Cat(TestSlots(f, TestLen(f) + 1), [Op(IFail, 0)])
    ensures PushedNot(f, a) == Cat(TestSlots(f, TestLen(f) + |a| + 3), Cat(JumpSlots(IChoice, |a| + 3), Cat(a, [Op(IFailTwice, 0)])))
  {
  }

  lemma PushedAndIs(a: seq<Slot>)
    ensures PushedAnd(a) == Cat(JumpSlots(IChoice, |a| + 4), Cat(a, Cat(JumpSlots(IBackCommit, 3), [Op(IFail, 0)])))
  {
  }

  class CompileState {
    var code: seq<Slot>

    constructor ()
      ensures code == []
    {
      code := [];
    }

    method AddInstruction(op: Opcode, aux: nat) returns (i: int)
      modifies this
      ensures code == Cat(old(code), [Op(op, aux)]) && i == |old(code)|
    {
      i := |code|;
      code := code + [Op(op, aux)];
    }

    /** An instruction and the space for its offset. */
    method AddOffsetInst(op: Opcode) returns (i: int)
      modifies this
      ensures code == Cat(old(code), Open(op)) && i == |old(code)|
    {
      i := AddInstruction(op, 0);
      var hole := AddInstruction(IAny, 0);
    }

    method JumpToThere(instruction: int, target: int)
      requires instruction >= 0 ==> instruction + 1 < |code|
      modifies this
      ensures code == if instruction >= 0 then Patched(old(code), instruction, target - instruction) else old(code)
    {
      if instruction >= 0 {
        code := code[instruction + 1 := Offset(target - instruction)];
      }
    }

    method JumpToHere(instruction: int)
      requires instruction >= 0 ==> instruction + 1 < |code|
      modifies this
      ensures code == if instruction >= 0 then Patched(old(code), instruction, |old(code)| - instruction) else old(code)
    {
      JumpToThere(instruction, |code|);
    }

    method AddCharset(cs: Charset)
      modifies this
      ensures code == Cat(old(code), SetSlots(cs))
    {
      code := code + [Buff(cs)];
      for k := 1 to 8
        invariant code == old(code) + SetSlots(cs)[..k]
      {
        code := code + [Pad];
      }
    }

    method CodeChar(c: Byte, tt: int)
      requires tt < |code|
      modifies this
      ensures code == Cat(old(code), CharSlots(c, TestAt(old(code), tt)))
    {
      if tt >= 0 && code[tt].Op? && code[tt].code == ITestChar && code[tt].aux == c as nat {
        var i := AddInstruction(IAny, 0);
      } else {
        var i := AddInstruction(IChar, c as nat);
      }
    }

    method CodeCharset(cs: Charset, tt: int)
      requires tt < |code|
      modifies this
      ensures code == Cat(old(code), CharsetSlots(cs, TestAt(old(code), tt)))
    {
      match Kind(cs)
      case Singleton(c) => CodeChar(c, tt);
      case Generic =>
        if tt >= 0 && code[tt].Op? && code[tt].code == ITestSet && HasSet(code, tt + 2) && code[tt + 2].cs == cs {
          var i := AddInstruction(IAny, 0);
        } else {
          var i := AddInstruction(ISet, 0);
          AddCharset(cs);
        }
      case EmptySet => var i := AddInstruction(IFail, 0);
      case FullSet => var i := AddInstruction(IAny, 0);
    }

    /** The test instruction for a set, its offset still open. */
    method CodeTestSet(cs: Charset, e: bool) returns (i: int)
      modifies this
      ensures code == Cat(old(code), TestWith(FirstSet(cs, e), HOLE))
      ensures i == if e then NOINST else |old(code)|
    {
      if e { return NOINST; }
      match Kind(cs)
      case EmptySet => i := AddOffsetInst(IJmp);
      case FullSet => i := AddOffsetInst(ITestAny);
      case Singleton(c) =>
        i := AddOffsetInst(ITestChar);
        code := code[i := Op(ITestChar, c as nat)];
      case Generic =>
        i := AddOffsetInst(ITestSet);
        AddCharset(cs);
    }

    /** The main dispatch: appends the code of the tree. */
    method CodeGen(tree: Pattern, opt: bool, tt: int, fl: Charset)
      requires TestIn(code, tt)
      modifies this
      ensures code == Cat(old(code), Gen(tree, opt, TestAt(old(code), tt), fl))
      decreases tree, 2
    {
      hide TestAt, First, FixedLen, HeadFail;
      ghost var base := code;
      match tree
      case Chr(c) => CodeChar(c, tt);
      case Any => var i := AddInstruction(IAny, 0);
      case CharSet(cs) => CodeCharset(cs, tt);
      case True =>
      case False => var i := AddInstruction(IFail, 0);
      case Choice(a, b) => CodeChoice(a, b, opt, fl, TestAt(code, tt));
      case Rep(b) => CodeRep(b, opt, fl, TestAt(code, tt));
      case Behind(n, b) => CodeBehind(n, b);
      case Not(b) => CodeNot(b);
      case And(b) => CodeAnd(b, tt);
      case Seq(a, b) =>
        var tt2 := CodeSeq1(a, b, tt, fl);
        CodeGen(b, opt, tt2, fl);
        ghost var before := TestAt(base, tt);
        Assoc(base, Gen(a, false, before, SeqFollow(a, b, fl)), Gen(b, opt, SeqTest(a, before), fl));
    }

    /** The first child of a sequence, and the test that still protects the second. */
    method CodeSeq1(a: Pattern, b: Pattern, tt: int, fl: Charset) returns (tt2: int)
      requires TestIn(code, tt)
      modifies this
      ensures code == Cat(old(code), Gen(a, false, TestAt(old(code), tt), SeqFollow(a, b, fl)))
      ensures TestIn(code, tt2)
      ensures TestAt(code, tt2) == SeqTest(a, TestAt(old(code), tt))
      decreases a, 3
    {
      hide Gen, First, FixedLen, TestAt, Cat;
      ghost var base := code;
      if NeedFollow(a) {
        CodeGen(a, false, tt, First(b, fl).cs);
      } else {
        CodeGen(a, false, tt, FULL);
      }
      TestStays(base, tt, Gen(a, false, TestAt(base, tt), SeqFollow(a, b, fl)));
      NoTestAt(code);
      tt2 := if FixedLen(a) != 0 then NOINST else tt;
    }

    method CodeBehind(n: nat, b: Pattern)
      modifies this
      ensures code == Cat(old(code), Gen(Behind(n, b), false, NoTest, FULL))
      decreases Behind(n, b), 0
    {
      hide TestAt, Cat, Gen;
      ghost var base := code;
      ghost var back: seq<Slot> := if n > 0 then [Op(IBehind, n)] else [];
      CatNothing(base);
      if n > 0 {
        var i := AddInstruction(IBehind, n);
      }
      NoTestAt(code);
      CodeGen(b, false, NOINST, FULL);
      Assoc(base, back, Gen(b, false, NoTest, FULL));
      BehindParts(n, b);
    }

    method CodeChoice(a: Pattern, b: Pattern, opt: bool, fl: Charset, ghost tt: Test)
      modifies this
      ensures code == Cat(old(code), Gen(Choice(a, b), opt, tt, fl))
      decreases Choice(a, b), 1
    {
      hide Cat, Patched, Open, JumpSlots, TestOf, First, HeadFail, TestAt, TestIn;
      var emptyp2 := b.True?;
      var f1 := First(a, FULL);
      ghost var base := code;
      if HeadFail(a) || (!f1.empty && f1.cs !! First(b, fl).cs) {
        CodeChoiceByTest(a, b, opt, fl);
      } else if opt && emptyp2 {
        var partial := AddOffsetInst(IPartialCommit);
        PatchLastJump(base, IPartialCommit, 2);
        JumpToHere(partial);
        NoTestAt(code);
        CodeGen(a, true, NOINST, FULL);
        Assoc(base, JumpSlots(IPartialCommit, 2), Gen(a, true, NoTest, FULL));
        PlusIsCat(JumpSlots(IPartialCommit, 2), Gen(a, true, NoTest, FULL));
      } else {
        CodeChoicePushed(a, b, opt, fl);
      }
    }

    /** The test jumps to the second alternative; the first one jumps over it. */
    method CodeChoiceByTest(a: Pattern, b: Pattern, opt: bool, fl: Charset)
      modifies this
      ensures code == Cat(old(code),
        ByTestChoice(TestFirst(a), Gen(a, false, TestOf(TestFirst(a)), fl), b.True?, Gen(b, opt, NoTest, fl)))
      decreases Choice(a, b), 0
    {
      hide Cat, Patched, Open, JumpSlots, TestWith, TestSlots, TestLen, TestOf, TestAt, TestIn, First, Gen, ByTestChoice;
      ghost var base, f := code, TestFirst(a);
      ghost var ca, cb := Gen(a, false, TestOf(f), fl), Gen(b, opt, NoTest, fl);
      ghost var off := TestLen(f) + |ca| + if b.True? then 0 else 2;
      TestLens(f, off);
      ByTestChoiceIs(f, ca, b.True?, cb);
      var test := CodeTestSet(First(a, FULL).cs, false);
      ghost var tested := code;
      var jmp := NOINST;
      ReadyOrNone(base, f, test, code);
      CodeGen(a, false, test, fl);
      if !b.True? {
        jmp := AddOffsetInst(IJmp);
        Assoc(tested, ca, Open(IJmp));
        PatchTest(base, f, Cat(ca, Open(IJmp)), off);
        Assoc(base, TestSlots(f, off), Cat(ca, Open(IJmp)));
      } else {
        PatchTest(base, f, ca, off);
      }
      JumpToHere(test);
      NoTestAt(code);
      CodeGen(b, opt, NOINST, fl);
      if b.True? {
        Assoc(base, Cat(TestSlots(f, off), ca), cb);
        Assoc(TestSlots(f, off), ca, cb);
      } else {
        Assoc(base, Cat(TestSlots(f, off), Cat(ca, Open(IJmp))), cb);
        PatchLeave(base, TestSlots(f, off), ca, IJmp, 2 + |cb|, cb);
      }
      JumpToHere(jmp);
    }

    /** The first alternative runs under a choice entry for the second and commits past it. */
    method CodeChoicePushed(a: Pattern, b: Pattern, opt: bool, fl: Charset)
      modifies this
      ensures code == Cat(old(code),
        PushedChoice(First(a, FULL), Gen(a, b.True?, TestOf(First(a, FULL)), FULL), Gen(b, opt, NoTest, fl)))
      decreases Choice(a, b), 0
    {
      hide Cat, Patched, Open, JumpSlots, TestWith, TestSlots, TestLen, TestOf, TestAt, TestIn, First, Gen, PushedChoice;
      var f := First(a, FULL);
      ghost var base := code;
      ghost var ca, cb := Gen(a, b.True?, TestOf(f), FULL), Gen(b, opt, NoTest, fl);
      ghost var n, off := |ca| + 4, TestLen(f) + |ca| + 4;
      ghost var enter := JumpSlots(IChoice, n);
      TestLens(f, off);
      JumpLen(IChoice, n);
      PushedChoiceIs(f, ca, cb);
      var test := CodeTestSet(f.cs, f.empty);
      ghost var tested := code;
      ReadyOrNone(base, f, test, code);
      TestStays(code, test, Open(IChoice));
      var pchoice := AddOffsetInst(IChoice);
      CodeGen(a, b.True?, test, FULL);
      var pcommit := AddOffsetInst(ICommit);
      PatchEnter(tested, IChoice, n, ca, Open(ICommit));
      JumpToHere(pchoice);
      ghost var tail := Cat(enter, Cat(ca, Open(ICommit)));
      FillTest(base, f, tail, off);
      JumpToHere(test);
      NoTestAt(code);
      CodeGen(b, opt, NOINST, fl);
      Assoc(base, TestSlots(f, off), tail);
      PatchLeave(Cat(base, TestSlots(f, off)), enter, ca, ICommit, 2 + |cb|, cb);
      JumpToHere(pcommit);
      Assoc(base, TestSlots(f, off), Cat(enter, Cat(ca, Cat(JumpSlots(ICommit, 2 + |cb|), cb))));
    }

    method CodeAnd(b: Pattern, tt: int)
      requires TestIn(code, tt)
      modifies this
      ensures code == Cat(old(code), Gen(And(b), false, TestAt(old(code), tt), FULL))
      decreases And(b), 1
    {
      hide TestAt, TestIn, FixedLen, First;
      ghost var base := code;
      var n := FixedLen(b);
      if n >= 0 && n <= MAX_BEHIND {
        CodeGen(b, false, tt, FULL);
        if n > 0 {
          var i := AddInstruction(IBehind, n);
        }
        Assoc(base, Gen(b, false, TestAt(base, tt), FULL), if n > 0 then [Op(IBehind, n)] else []);
      } else {
        CodeAndPushed(b, tt);
      }
    }

    /** The body runs under a choice entry; success goes back to where it started, past the fail. */
    method CodeAndPushed(b: Pattern, tt: int)
      requires TestIn(code, tt)
      modifies this
      ensures code == Cat(old(code), PushedAnd(Gen(b, false, TestAt(old(code), tt), FULL)))
      decreases And(b), 0
    {
      hide Cat, Patched, Open, JumpSlots, TestAt, TestIn, First, Gen, PushedAnd;
      ghost var base := code;
      ghost var cb := Gen(b, false, TestAt(base, tt), FULL);
      ghost var n, fail := |cb| + 4, [Op(IFail, 0)];
      ghost var enter := JumpSlots(IChoice, n);
      JumpLen(IChoice, n);
      PushedAndIs(cb);
      TestStays(base, tt, Open(IChoice));
      var pchoice := AddOffsetInst(IChoice);
      CodeGen(b, false, tt, FULL);
      var pcommit := AddOffsetInst(IBackCommit);
      PatchEnter(base, IChoice, n, cb, Open(IBackCommit));
      JumpToHere(pchoice);
      var i := AddInstruction(IFail, 0);
      PatchLeave(base, enter, cb, IBackCommit, 3, fail);
      JumpToHere(pcommit);
    }

    method CodeRep(b: Pattern, opt: bool, fl: Charset, ghost tt: Test)
      modifies this
      ensures code == Cat(old(code), Gen(Rep(b), opt, tt, fl))
      decreases Rep(b), 1
    {
      hide TestOf, First, HeadFail, ByTestLoop, PushedLoop, Cat, SetSlots;
      ghost var base := code;
      var st := ToCharset(b);
      if st.Some? {
        var i := AddInstruction(ISpan, 0);
        AddCharset(st.value);
        Assoc(base, [Op(ISpan, 0)], SetSlots(st.value));
        PlusIsCat([Op(ISpan, 0)], SetSlots(st.value));
      } else {
        var f := First(b, FULL);
        if HeadFail(b) || (!f.empty && f.cs !! fl) {
          CodeLoopByTest(b, opt);
        } else {
          CodeLoopPushed(b, opt);
        }
      }
    }

    /** The test leaves the loop; the body jumps back to the test. */
    method CodeLoopByTest(b: Pattern, opt: bool)
      modifies this
      ensures code == Cat(old(code), ByTestLoop(TestFirst(b), Gen(b, opt, TestOf(TestFirst(b)), FULL)))
      decreases Rep(b), 0
    {
      hide Cat, Patched, Open, JumpSlots, TestWith, TestSlots, TestLen, TestOf, TestAt, TestIn, First, Gen, ByTestLoop;
      ghost var base, f := code, TestFirst(b);
      ghost var cb := Gen(b, opt, TestOf(f), FULL);
      ghost var off, back := TestLen(f) + |cb| + 2, -(TestLen(f) + |cb|);
      TestLens(f, off);
      ByTestLoopIs(f, cb);
      var test := CodeTestSet(First(b, FULL).cs, false);
      ghost var tested := code;
      ReadyOrNone(base, f, test, code);
      CodeGen(b, opt, test, FULL);
      var jmp := AddOffsetInst(IJmp);
      Assoc(tested, cb, Open(IJmp));
      PatchTest(base, f, Cat(cb, Open(IJmp)), off);
      JumpToHere(test);
      Assoc(base, TestSlots(f, off), Cat(cb, Open(IJmp)));
      Assoc(Cat(base, TestSlots(f, off)), cb, Open(IJmp));
      PatchLastJump(Cat(Cat(base, TestSlots(f, off)), cb), IJmp, back);
      JumpToThere(jmp, test);
      Assoc(Cat(base, TestSlots(f, off)), cb, JumpSlots(IJmp, back));
      Assoc(base, TestSlots(f, off), Cat(cb, JumpSlots(IJmp, back)));
    }

    /** One choice entry for the exit, moved along by a partial commit behind each body; with `opt`
        the entry of the optional around the loop is used, after moving it once. */
    method CodeLoopPushed(b: Pattern, opt: bool)
      modifies this
      ensures code == Cat(old(code), PushedLoop(First(b, FULL), opt, Gen(b, false, NoTest, FULL)))
      decreases Rep(b), 0
    {
      hide Cat, Patched, Open, JumpSlots, TestWith, TestSlots, TestLen, TestOf, TestAt, TestIn, First, Gen, PushedLoop;
      var f := First(b, FULL);
      ghost var base, cb := code, Gen(b, false, NoTest, FULL);
      ghost var n, off := |cb| + 4, TestLen(f) + |cb| + 4;
      ghost var enter := if opt then JumpSlots(IPartialCommit, 2) else JumpSlots(IChoice, n);
      ghost var leave := JumpSlots(IPartialCommit, -|cb|);
      TestLens(f, off);
      JumpLen(IPartialCommit, 2);
      JumpLen(IChoice, n);
      JumpLen(IPartialCommit, -|cb|);
      PushedLoopIs(f, opt, cb);
      var test := CodeTestSet(f.cs, f.empty);
      ghost var tested := code;
      var pchoice := NOINST;
      if opt {
        var partial := AddOffsetInst(IPartialCommit);
        PatchLastJump(tested, IPartialCommit, 2);
        JumpToHere(partial);
      } else {
        pchoice := AddOffsetInst(IChoice);
      }
      var l2 := |code|;
      ghost var entered := code;
      NoTestAt(code);
      CodeGen(b, false, NOINST, FULL);
      ghost var body := code;
      var commit := AddOffsetInst(IPartialCommit);
      PatchLastJump(body, IPartialCommit, -|cb|);
      JumpToThere(commit, l2);
      if opt {
        Assoc(entered, cb, leave);
        Assoc(tested, enter, Cat(cb, leave));
      } else {
        PatchEnter(tested, IChoice, n, cb, leave);
      }
      JumpToHere(pchoice);
      FillTest(base, f, Cat(enter, Cat(cb, leave)), off);
      JumpToHere(test);
    }

    method CodeNot(b: Pattern)
      modifies this
      ensures code == Cat(old(code), Gen(Not(b), false, NoTest, FULL))
      decreases Not(b), 0
    {
      hide Cat, Patched, Open, JumpSlots, TestWith, TestSlots, TestLen, TestOf, TestAt, TestIn, First, HeadFail, ByTestNot, PushedNot;
      var f := First(b, FULL);
      ghost var base, cb := code, Gen(b, false, NoTest, FULL);
      ghost var rest: seq<Slot> := [Op(IFail, 0)];
      NotIs(f, cb);
      var test := CodeTestSet(f.cs, f.empty);
      ghost var tested := code;
      if HeadFail(b) {
        var i := AddInstruction(IFail, 0);
      } else {
        var pchoice := AddOffsetInst(IChoice);
        NoTestAt(code);
        CodeGen(b, false, NOINST, FULL);
        var i := AddInstruction(IFailTwice, 0);
        JumpLen(IChoice, |cb| + 3);
        PatchEnter(tested, IChoice, |cb| + 3, cb, [Op(IFailTwice, 0)]);
        JumpToHere(pchoice);
        rest := Cat(JumpSlots(IChoice, |cb| + 3), Cat(cb, [Op(IFailTwice, 0)]));
      }
      TestLens(f, TestLen(f) + |rest|);
      FillTest(base, f, rest, TestLen(f) + |rest|);
      JumpToHere(test);
    }
  }

  lemma PlusIsCat(a: seq<Slot>, b: seq<Slot>)
    ensures a + b == Cat(a, b)
  {
  }

  lemma CatNothing(a: seq<Slot>)
    ensures Cat(a, []) == a
  {
  }

  lemma BehindParts(n: nat, b: Pattern)
    ensures Gen(Behind(n, b), false, NoTest, FULL) == Cat(if n > 0 then [Op(IBehind, n)] else [], Gen(b, false, NoTest, FULL))
  {
  }

  /** Filling the hole of a test that may not have been generated. */
  lemma FillTest(base: seq<Slot>, f: FirstSet, rest: seq<Slot>, off: int)
    ensures f.empty ==> Cat(Cat(base, TestWith(f, HOLE)), rest) == Cat(base, Cat(TestSlots(f, off), rest))
    ensures !f.empty ==> TestLen(f) >= 2
    ensures !f.empty ==>
      Patched(Cat(Cat(base, TestWith(f, HOLE)), rest), |base|, off) == Cat(base, Cat(TestSlots(f, off), rest))
  {
    hide Cat, Patched, TestWith, TestSlots, TestLen;
    TestLens(f, off);
    if f.empty {
      Assoc(base, TestWith(f, HOLE), rest);
    } else {
      PatchTest(base, f, rest, off);
    }
  }

  /** `compile`, up to the jump-threading pass. */
  method Compile(p: Pattern) returns (code: seq<Slot>)
    ensures code == Program(p)
  {
    var state := new CompileState();
    NoTestAt(state.code);
    state.CodeGen(p, false, NOINST, FULL);
    var i := state.AddInstruction(IEnd, 0);
    code := state.code;
  }

  /** Where `match` starts: positions count from 1, negative ones from the end, and those outside the
      subject are cropped. */
  function InitPosition(ii: int, len: nat): (i: nat)
    ensures i <= len
    ensures 0 < ii <= len + 1 ==> i == ii - 1
    ensures ii <= 0 <= len + ii ==> i == len + ii
    ensures (ii > len ==> i == len) && (len + ii < 0 ==> i == 0)
  {
    if ii > 0 then (if ii <= len then ii - 1 else len)
    else if -ii <= len then len + ii else 0
  }

  /** `match`: compiling a pattern and running the machine on a subject, from any initial position,
      gives the PEG result from there. */
  method CompileAndMatch(p: Pattern, s: seq<Byte>, ii: int) returns (r: State)
    requires WellFormed(p) && OptSafe(p, false, FULL)
    ensures r == match Eval(s, p, InitPosition(ii, |s|)) case Some(j) => Accept(j) case None => Reject
  {
    var code := Compile(p);
    var i := InitPosition(ii, |s|);
    ghost var n := PegCorrect.CompilerCorrect(s, p, i);
    r := Match(code, s, i, n);
  }
}
