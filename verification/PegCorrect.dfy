/** Compiled patterns mean what the pattern means: running the generated code on the
    backtracking machine agrees with `Eval`, relative to the follow set. */
module PegCorrect {
  import opened Basics
  import opened Peg
  import opened PegMachine
  import opened PegCodegen

  /** The run of the code of `p` from position `i` over the frames `stk` has come to `st`:
      past the code where `p` matches, or back to the last alternative where `p` fails.
      Code may also give up on a match that leaves a character outside the follow set, since
      whatever follows fails there anyway. */
  ghost predicate Exact(s: seq<Byte>, p: Pattern, fl: Charset, i: nat, stk: Stack, end: int, st: State)
    requires i <= |s|
  {
    match Eval(s, p, i)
    case None => st == Backtrack(stk)
    case Some(j) => st == Run(end, j, stk) || (j < |s| && s[j] !in fl && st == Backtrack(stk))
  }

  /** The run of the code of `p` under the frame (`exit`, `i0`): a match may end past the
      code, with the frame moved, or directly at `exit`; a failure resumes at `exit`. */
  ghost predicate Optional(s: seq<Byte>, p: Pattern, i: nat, exit: Frame, rest: Stack, end: int, st: State)
    requires i <= |s|
  {
    match Eval(s, p, i)
    case None => st == Run(exit.pc, exit.pos, rest)
    case Some(j) =>
      || st == Run(exit.pc, j, rest)
      || (st.Run? && st.pc == end && st.pos == j && st.stack.Push? && st.stack.rest == rest && st.stack.top.pc == exit.pc)
  }

  // ------------------------------------------------------------- instructions

  lemma KindFacts(cs: Charset)
    ensures Kind(cs).EmptySet? ==> cs == {}
    ensures Kind(cs).FullSet? ==> cs == FULL
    ensures Kind(cs).Singleton? ==> cs == {Kind(cs).c}
  {
  }

  lemma TestLenAny(f: FirstSet, off: int)
    ensures |TestSlots(f, off)| == TestLen(f)
  {
  }

  /** A test instruction goes on when the next character is in the set (or when there is no
      test at all), and jumps otherwise. */
  lemma RunTest(code: seq<Slot>, s: seq<Byte>, pc: int, f: FirstSet, off: int, i: nat, stk: Stack) returns (n: nat)
    requires At(code, pc, TestSlots(f, off)) && i <= |s|
    ensures Steps(code, s, Run(pc, i, stk), n) ==
            Run(if f.empty || In(s, i, f.cs) then pc + TestLen(f) else pc + off, i, stk)
    ensures f.empty || In(s, i, f.cs) ==> TestHolds(TestOf(f), s, i)
  {
    KindFacts(f.cs);
    if f.empty {
      n := 0;
    } else {
      var frag := TestSlots(f, off);
      assert code[pc + 0] == frag[0] && code[pc + 1] == frag[1];
      assert Kind(f.cs).Generic? ==> code[pc + 2] == frag[2];
      assert i < |s| ==> s[i] in FULL;
      n := 1;
      assert Steps(code, s, Run(pc, i, stk), 1) == Step(code, s, Run(pc, i, stk));
    }
  }

  lemma RunNone(code: seq<Slot>, s: seq<Byte>, st: State) returns (n: nat)
    ensures n == 0 && Steps(code, s, st, n) == st
  {
    n := 0;
  }

  lemma RunOne(code: seq<Slot>, s: seq<Byte>, st: State)
    ensures Steps(code, s, st, 1) == Step(code, s, st)
  {
    assert Steps(code, s, st, 1) == Steps(code, s, Step(code, s, st), 0);
  }

  lemma RunGiveup(code: seq<Slot>, s: seq<Byte>, i: nat)
    ensures Steps(code, s, Run(GIVEUP, i, Nil), 1) == Reject
  {
    RunOne(code, s, Run(GIVEUP, i, Nil));
  }

  /** The effect of an instruction with a jump offset. */
  ghost function Jump(op: Opcode, pc: int, off: int, i: nat, stk: Stack): State
    requires op in {IJmp, IChoice} || stk.Push?
  {
    match op
    case IChoice => Run(pc + 2, i, Push(Frame(pc + off, i), stk))
    case ICommit => Run(pc + off, i, stk.rest)
    case IPartialCommit => Run(pc + off, i, Push(Frame(stk.top.pc, i), stk.rest))
    case IBackCommit => Run(pc + off, stk.top.pos, stk.rest)
    case _ => Run(pc + off, i, stk)
  }

  lemma RunJump(code: seq<Slot>, s: seq<Byte>, pc: int, op: Opcode, off: int, i: nat, stk: Stack)
    requires At(code, pc, JumpSlots(op, off)) && i <= |s|
    requires op in {IJmp, IChoice} || (stk.Push? && op in {ICommit, IPartialCommit, IBackCommit})
    ensures Steps(code, s, Run(pc, i, stk), 1) == Jump(op, pc, off, i, stk)
  {
    assert code[pc + 0] == JumpSlots(op, off)[0];
    assert code[pc + 1] == JumpSlots(op, off)[1];
    RunOne(code, s, Run(pc, i, stk));
  }

  /** The effect of an instruction of one slot. */
  ghost function Plain(s: seq<Byte>, op: Opcode, aux: nat, pc: int, i: nat, stk: Stack): State
    requires i <= |s|
  {
    match op
    case IAny => if i < |s| then Run(pc + 1, i + 1, stk) else Backtrack(stk)
    case IChar => if i < |s| && s[i] as int == aux then Run(pc + 1, i + 1, stk) else Backtrack(stk)
    case IBehind => if aux > i then Backtrack(stk) else Run(pc + 1, i - aux, stk)
    case IFailTwice => if stk.Nil? then Stuck else Backtrack(stk.rest)
    case IEnd => Accept(i)
    case _ => Backtrack(stk)
  }

  lemma RunPlain(code: seq<Slot>, s: seq<Byte>, pc: int, op: Opcode, aux: nat, i: nat, stk: Stack)
    requires At(code, pc, [Op(op, aux)]) && i <= |s|
    requires op in {IAny, IChar, IBehind, IFailTwice, IEnd, IFail}
    ensures Steps(code, s, Run(pc, i, stk), 1) == Plain(s, op, aux, pc, i, stk)
  {
    assert code[pc + 0] == [Op(op, aux)][0];
    RunOne(code, s, Run(pc, i, stk));
  }

  lemma {:induction false} SpanIsRep(s: seq<Byte>, b: Pattern, i: nat)
    requires i <= |s| && ToCharset(b).Some?
    ensures Eval(s, Rep(b), i) == Some(Span(s, ToCharset(b).value, i))
    decreases |s| - i
  {
    if In(s, i, ToCharset(b).value) {
      assert Eval(s, b, i) == Some(i + 1);
      SpanIsRep(s, b, i + 1);
    } else if b.Any? {
      assert forall c: Byte :: c in FULL;
    }
  }

  // ------------------------------------------------------------------- leaves

  lemma CodeChar(code: seq<Slot>, s: seq<Byte>, pc: int, c: Byte, tt: Test, i: nat, stk: Stack)
    requires At(code, pc, CharSlots(c, tt)) && i <= |s| && TestHolds(tt, s, i)
    ensures Steps(code, s, Run(pc, i, stk), 1) ==
            if In(s, i, {c}) then Run(pc + 1, i + 1, stk) else Backtrack(stk)
  {
    if tt == OnChar(c) {
      RunPlain(code, s, pc, IAny, 0, i, stk);
    } else {
      RunPlain(code, s, pc, IChar, c as nat, i, stk);
    }
  }

  lemma CodeCharset(code: seq<Slot>, s: seq<Byte>, pc: int, cs: Charset, tt: Test, i: nat, stk: Stack)
    requires At(code, pc, CharsetSlots(cs, tt)) && i <= |s| && TestHolds(tt, s, i)
    ensures Steps(code, s, Run(pc, i, stk), 1) ==
            if In(s, i, cs) then Run(pc + |CharsetSlots(cs, tt)|, i + 1, stk) else Backtrack(stk)
  {
    KindFacts(cs);
    match Kind(cs)
    case EmptySet => RunPlain(code, s, pc, IFail, 0, i, stk);
    case FullSet =>
      RunPlain(code, s, pc, IAny, 0, i, stk);
      if i < |s| { assert s[i] in FULL; }
    case Singleton(c) => CodeChar(code, s, pc, c, tt, i, stk);
    case Generic =>
      if tt == OnSet(cs) {
        RunPlain(code, s, pc, IAny, 0, i, stk);
      } else {
        assert code[pc + 0] == CharsetSlots(cs, tt)[0];
        assert code[pc + 1] == CharsetSlots(cs, tt)[1];
        RunOne(code, s, Run(pc, i, stk));
      }
  }

  lemma CodeSpan(code: seq<Slot>, s: seq<Byte>, pc: int, b: Pattern, i: nat, stk: Stack)
    requires ToCharset(b).Some? && At(code, pc, [Op(ISpan, 0)] + SetSlots(ToCharset(b).value)) && i <= |s|
    ensures Eval(s, Rep(b), i).Some?
    ensures Steps(code, s, Run(pc, i, stk), 1) == Run(pc + CHARSET_INST_SIZE, Eval(s, Rep(b), i).value, stk)
  {
    var frag := [Op(ISpan, 0)] + SetSlots(ToCharset(b).value);
    assert code[pc + 0] == frag[0] && code[pc + 1] == frag[1];
    RunOne(code, s, Run(pc, i, stk));
    SpanIsRep(s, b, i);
  }

  // ------------------------------------------------------------------ patterns

  /** Compiler correctness, code that stands alone. */
  lemma {:induction false} Code(code: seq<Slot>, s: seq<Byte>, pc: int, p: Pattern, tt: Test, fl: Charset, i: nat, stk: Stack)
    returns (n: nat)
    requires At(code, pc, Gen(p, false, tt, fl)) && i <= |s|
    requires WellFormed(p) && OptSafe(p, false, fl) && TestHolds(tt, s, i)
    ensures Exact(s, p, fl, i, stk, pc + |Gen(p, false, tt, fl)|, Steps(code, s, Run(pc, i, stk), n))
    decreases p, |s| + 1
  {
    hide Step, Steps, At, Span, Kind, TestSlots, TestLen, TestOf, First, ChoiceByTest, LoopByTest;
    match p
    case Chr(c) => CodeChar(code, s, pc, c, tt, i, stk); n := 1;
    case Any => RunPlain(code, s, pc, IAny, 0, i, stk); n := 1;
    case CharSet(cs) => CodeCharset(code, s, pc, cs, tt, i, stk); n := 1;
    case True => n := RunNone(code, s, Run(pc, i, stk));
    case False => RunPlain(code, s, pc, IFail, 0, i, stk); n := 1;
    case Seq(a, b) => n := CodeSeq(code, s, pc, p, tt, fl, i, stk);
    case Choice(a, b) =>
      if ChoiceByTest(a, b, fl) {
        n := CodeChoiceByTest(code, s, pc, p, tt, fl, i, stk);
      } else if b.True? {
        n := CodeOption(code, s, pc, p, tt, fl, i, stk);
      } else {
        n := CodeChoicePushed(code, s, pc, p, tt, fl, i, stk);
      }
    case Rep(b) =>
      if ToCharset(b).Some? {
        CodeSpan(code, s, pc, b, i, stk);
        n := 1;
      } else if LoopByTest(b, fl) {
        n := CodeLoopByTest(code, s, pc, p, fl, i, stk);
      } else {
        n := CodeLoopPushed(code, s, pc, p, tt, fl, i, stk);
      }
    case Not(b) => n := CodeNot(code, s, pc, p, tt, fl, i, stk);
    case And(b) =>
      if 0 <= FixedLen(b) <= MAX_BEHIND {
        n := CodeAndFixed(code, s, pc, p, tt, fl, i, stk);
      } else {
        n := CodeAndPushed(code, s, pc, p, tt, fl, i, stk);
      }
    case Behind(k, b) => n := CodeBehind(code, s, pc, p, tt, fl, i, stk);
  }

  lemma {:induction false} CodeSeq(code: seq<Slot>, s: seq<Byte>, pc: int, p: Pattern, tt: Test, fl: Charset, i: nat, stk: Stack)
    returns (n: nat)
    requires At(code, pc, Gen(p, false, tt, fl)) && i <= |s| && p.Seq?
    requires WellFormed(p) && OptSafe(p, false, fl) && TestHolds(tt, s, i)
    ensures Exact(s, p, fl, i, stk, pc + |Gen(p, false, tt, fl)|, Steps(code, s, Run(pc, i, stk), n))
    decreases p, |s|
  {
    hide Step, Steps, At, Span, Kind, TestSlots, TestLen, TestOf, First, ChoiceByTest, LoopByTest, Gen, WellFormed, OptSafe, FixedLen, Eval;
    SeqParts(s, p, false, tt, fl, i);
    var a, b := p.p1, p.p2;
    var fl1, tt2 := SeqFollow(a, b, fl), SeqTest(a, tt);
    var ca, cb := Gen(a, false, tt, fl1), Gen(b, false, tt2, fl);
    AtSplit(code, pc, ca, cb);
    n := Code(code, s, pc, a, tt, fl1, i, stk);
    if Eval(s, a, i).Some? {
      var j := Eval(s, a, i).value;
      if FixedLen(a) == 0 { FixedLenSound(s, a, i); }
      if Steps(code, s, Run(pc, i, stk), n) == Run(pc + |ca|, j, stk) {
        var m := Code(code, s, pc + |ca|, b, tt2, fl, j, stk);
        StepsAdd(code, s, Run(pc, i, stk), n, m);
        n := n + m;
      } else {
        assert s[j] in FULL;
        FirstSound(s, b, fl, j);
      }
    }
  }

  lemma SeqParts(s: seq<Byte>, p: Pattern, opt: bool, tt: Test, fl: Charset, i: nat)
    requires p.Seq? && i <= |s| && WellFormed(p) && OptSafe(p, opt, fl)
    ensures var a, b := p.p1, p.p2;
            && WellFormed(a) && WellFormed(b) && OptSafe(a, false, SeqFollow(a, b, fl)) && OptSafe(b, opt, fl)
            && Gen(p, opt, tt, fl) == Gen(a, false, tt, SeqFollow(a, b, fl)) + Gen(b, opt, SeqTest(a, tt), fl)
            && Eval(s, p, i) == (if Eval(s, a, i).Some? then Eval(s, b, Eval(s, a, i).value) else None)
  {
  }

  lemma AndParts(s: seq<Byte>, p: Pattern, tt: Test, fl: Charset, i: nat)
    requires p.And? && i <= |s| && WellFormed(p) && OptSafe(p, false, fl) && !(0 <= FixedLen(p.body) <= MAX_BEHIND)
    ensures WellFormed(p.body) && OptSafe(p.body, false, FULL)
    ensures Gen(p, false, tt, fl) == PushedAnd(Gen(p.body, false, tt, FULL))
    ensures Eval(s, p, i) == if Eval(s, p.body, i).Some? then Some(i) else None
  {
  }

  lemma NotParts(s: seq<Byte>, p: Pattern, tt: Test, fl: Charset, i: nat)
    requires p.Not? && i <= |s| && WellFormed(p) && OptSafe(p, false, fl)
    ensures WellFormed(p.body) && OptSafe(p.body, false, FULL)
    ensures Gen(p, false, tt, fl) ==
            if HeadFail(p.body) then ByTestNot(First(p.body, FULL))
            else PushedNot(First(p.body, FULL), Gen(p.body, false, NoTest, FULL))
    ensures Eval(s, p, i) == if Eval(s, p.body, i).Some? then None else Some(i)
  {
  }

  /** The parts of a choice that is coded with a frame of its own. */
  lemma PushedParts(p: Pattern, opt: bool, fl: Charset)
    requires p.Choice? && !p.p2.True? && !ChoiceByTest(p.p1, p.p2, fl) && WellFormed(p)
    ensures WellFormed(p.p1) && WellFormed(p.p2)
    ensures Gen(p, opt, NoTest, fl) ==
            PushedChoice(First(p.p1, FULL), Gen(p.p1, false, TestOf(First(p.p1, FULL)), FULL), Gen(p.p2, opt, NoTest, fl))
  {
  }

  lemma TestParts(p: Pattern, opt: bool, fl: Charset)
    requires p.Choice? && ChoiceByTest(p.p1, p.p2, fl) && WellFormed(p)
    ensures WellFormed(p.p1) && WellFormed(p.p2)
    ensures Gen(p, opt, NoTest, fl) ==
            ByTestChoice(TestFirst(p.p1), Gen(p.p1, false, TestOf(TestFirst(p.p1)), fl), p.p2.True?, Gen(p.p2, opt, NoTest, fl))
    ensures p.p2.True? ==> Gen(p.p2, opt, NoTest, fl) == []
  {
  }

  /** What the test in front of a choice by test decides. */
  lemma ChoiceDecision(s: seq<Byte>, a: Pattern, b: Pattern, fl: Charset, i: nat)
    requires i <= |s| && WellFormed(a) && WellFormed(b) && ChoiceByTest(a, b, fl)
    ensures !In(s, i, First(a, FULL).cs) ==> Eval(s, a, i) == None
    ensures In(s, i, First(a, FULL).cs) && Eval(s, a, i) == None ==>
              Eval(s, b, i) == None || (Eval(s, b, i) == Some(i) && s[i] !in fl)
  {
    FailsOutsideFirst(s, a, i);
    if HeadFail(a) {
      HeadFailExact(s, a, i);
    } else if In(s, i, First(a, FULL).cs) {
      FirstSound(s, b, fl, i);
    }
  }

  lemma FailsOutsideFirst(s: seq<Byte>, a: Pattern, i: nat)
    requires i <= |s| && WellFormed(a) && (HeadFail(a) || !First(a, FULL).empty)
    ensures !In(s, i, First(a, FULL).cs) ==> Eval(s, a, i) == None
  {
    if HeadFail(a) { HeadFailNotEmpty(a, FULL); }
    if i == |s| {
      FirstEmptySound(s, a, FULL);
    } else if s[i] !in First(a, FULL).cs {
      assert s[i] in FULL;
      FirstSound(s, a, FULL, i);
    }
  }

  lemma {:induction false} CodeChoiceByTest(code: seq<Slot>, s: seq<Byte>, pc: int, p: Pattern, tt: Test, fl: Charset, i: nat, stk: Stack)
    returns (n: nat)
    requires At(code, pc, Gen(p, false, tt, fl)) && i <= |s| && p.Choice? && ChoiceByTest(p.p1, p.p2, fl)
    requires WellFormed(p) && OptSafe(p, false, fl)
    ensures Exact(s, p, fl, i, stk, pc + |Gen(p, false, tt, fl)|, Steps(code, s, Run(pc, i, stk), n))
    decreases p, |s|
  {
    hide Step, Steps, At, Span, Kind, TestSlots, TestLen, TestOf, First, ChoiceByTest, LoopByTest, Gen;
    ChoiceIgnoresTest(p, false, tt, fl);
    var a, b := p.p1, p.p2;
    var cb := Gen(b, false, NoTest, fl);
    ChoiceDecision(s, a, b, fl, i);
    n := FirstAlternative(code, s, pc, p, false, fl, i, stk);
    if !In(s, i, First(a, FULL).cs) {
      AtSecond(code, pc, p, false, fl);
      var m := Code(code, s, pc + |Gen(p, false, tt, fl)| - |cb|, b, NoTest, fl, i, stk);
      StepsAdd(code, s, Run(pc, i, stk), n, m);
      n := n + m;
    }
  }

  lemma ChoiceIgnoresTest(p: Pattern, opt: bool, tt: Test, fl: Charset)
    requires p.Choice?
    ensures Gen(p, opt, tt, fl) == Gen(p, opt, NoTest, fl)
  {
  }

  /** Where the second alternative sits. */
  lemma AtSecond(code: seq<Slot>, pc: int, p: Pattern, opt: bool, fl: Charset)
    requires p.Choice? && ChoiceByTest(p.p1, p.p2, fl) && At(code, pc, Gen(p, opt, NoTest, fl))
    ensures |Gen(p, opt, NoTest, fl)| >= |Gen(p.p2, opt, NoTest, fl)|
    ensures At(code, pc + |Gen(p, opt, NoTest, fl)| - |Gen(p.p2, opt, NoTest, fl)|, Gen(p.p2, opt, NoTest, fl))
  {
    hide Step, Steps, At, Span, Kind, TestSlots, TestLen, TestOf, First, ChoiceByTest, LoopByTest;
    var f := TestFirst(p.p1);
    var ca, cb := Gen(p.p1, false, TestOf(f), fl), Gen(p.p2, opt, NoTest, fl);
    var jmp := if p.p2.True? then [] else JumpSlots(IJmp, 2 + |cb|);
    var off := TestLen(f) + |ca| + |jmp|;
    TestLenAny(f, off);
    AtSplit(code, pc, TestSlots(f, off), ca + (jmp + cb));
    AtSplit(code, pc + TestLen(f), ca, jmp + cb);
    AtSplit(code, pc + TestLen(f) + |ca|, jmp, cb);
  }

  /** The test and the first alternative of a choice by test: to the second alternative when
      the next character is not in its first set, otherwise through the first one. */
  lemma {:induction false} FirstAlternative(code: seq<Slot>, s: seq<Byte>, pc: int, p: Pattern, opt: bool, fl: Charset, i: nat, stk: Stack)
    returns (n: nat)
    requires At(code, pc, Gen(p, opt, NoTest, fl)) && i <= |s| && p.Choice? && ChoiceByTest(p.p1, p.p2, fl)
    requires WellFormed(p) && OptSafe(p.p1, false, fl)
    ensures var end := pc + |Gen(p, opt, NoTest, fl)|;
            var st := Steps(code, s, Run(pc, i, stk), n);
            if In(s, i, First(p.p1, FULL).cs)
            then Exact(s, p.p1, fl, i, stk, end, st)
            else st == Run(end - |Gen(p.p2, opt, NoTest, fl)|, i, stk)
    decreases p, |s| - 1
  {
    hide Step, Steps, At, Span, Kind, TestSlots, TestLen, TestOf, First, ChoiceByTest, LoopByTest, Gen, WellFormed, OptSafe, FixedLen, Eval;
    TestParts(p, opt, fl);
    var a, b := p.p1, p.p2;
    var f := TestFirst(a);
    var ca, cb := Gen(a, false, TestOf(f), fl), Gen(b, opt, NoTest, fl);
    var jmp := if b.True? then [] else JumpSlots(IJmp, 2 + |cb|);
    var off := TestLen(f) + |ca| + |jmp|;
    TestLenAny(f, off);
    AtSplit(code, pc, TestSlots(f, off), ca + (jmp + cb));
    n := RunTest(code, s, pc, f, off, i, stk);
    if In(s, i, f.cs) {
      var pa := pc + TestLen(f);
      AtSplit(code, pa, ca, jmp + cb);
      var m := Code(code, s, pa, a, TestOf(f), fl, i, stk);
      StepsAdd(code, s, Run(pc, i, stk), n, m);
      n := n + m;
      var st := Steps(code, s, Run(pc, i, stk), n);
      if !b.True? && st.Run? && Eval(s, a, i).Some? && st == Run(pa + |ca|, Eval(s, a, i).value, stk) {
        AtSplit(code, pa + |ca|, jmp, cb);
        RunJump(code, s, pa + |ca|, IJmp, 2 + |cb|, st.pos, stk);
        StepsAdd(code, s, Run(pc, i, stk), n, 1);
        n := n + 1;
      }
    }
  }

  /** test -> L1; choice L1; ... : either the frame is pushed, or the first pattern is known
      to fail and control is at L1. */
  lemma EnterPushed(code: seq<Slot>, s: seq<Byte>, pc: int, a: Pattern, off: int, rest: seq<Slot>, i: nat, stk: Stack)
    returns (n: nat)
    requires i <= |s| && WellFormed(a)
    requires var f := First(a, FULL);
             At(code, pc, TestSlots(f, TestLen(f) + off) + (JumpSlots(IChoice, off) + rest))
    ensures var f := First(a, FULL);
            var body := pc + TestLen(f) + 2;
            var exit := pc + TestLen(f) + off;
            At(code, body, rest) &&
            if f.empty || In(s, i, f.cs)
            then Steps(code, s, Run(pc, i, stk), n) == Run(body, i, Push(Frame(exit, i), stk)) && TestHolds(TestOf(f), s, i)
            else Steps(code, s, Run(pc, i, stk), n) == Run(exit, i, stk) && Eval(s, a, i) == None
  {
    hide Step, Steps, At, Span, Kind, TestSlots, TestLen, TestOf, First, ChoiceByTest, LoopByTest;
    var f := First(a, FULL);
    TestLenAny(f, TestLen(f) + off);
    AtSplit(code, pc, TestSlots(f, TestLen(f) + off), JumpSlots(IChoice, off) + rest);
    AtSplit(code, pc + TestLen(f), JumpSlots(IChoice, off), rest);
    n := RunTest(code, s, pc, f, TestLen(f) + off, i, stk);
    if f.empty || In(s, i, f.cs) {
      RunJump(code, s, pc + TestLen(f), IChoice, off, i, stk);
      StepsAdd(code, s, Run(pc, i, stk), n, 1);
      n := n + 1;
    } else {
      FailsOutsideFirst(s, a, i);
    }
  }

  lemma {:induction false} CodeChoicePushed(code: seq<Slot>, s: seq<Byte>, pc: int, p: Pattern, tt: Test, fl: Charset, i: nat, stk: Stack)
    returns (n: nat)
    requires At(code, pc, Gen(p, false, tt, fl)) && i <= |s| && p.Choice? && !p.p2.True? && !ChoiceByTest(p.p1, p.p2, fl)
    requires WellFormed(p) && OptSafe(p, false, fl)
    ensures Exact(s, p, fl, i, stk, pc + |Gen(p, false, tt, fl)|, Steps(code, s, Run(pc, i, stk), n))
    decreases p, |s|
  {
    hide Step, Steps, At, Span, Kind, TestSlots, TestLen, TestOf, First, ChoiceByTest, LoopByTest, Gen;
    ChoiceIgnoresTest(p, false, tt, fl);
    n := PushedFirst(code, s, pc, p, false, fl, i, stk);
    if Eval(s, p.p1, i) == None {
      var cb := Gen(p.p2, false, NoTest, fl);
      var m := Code(code, s, pc + |Gen(p, false, tt, fl)| - |cb|, p.p2, NoTest, fl, i, stk);
      StepsAdd(code, s, Run(pc, i, stk), n, m);
      n := n + m;
    }
  }

  /** The first alternative under a pushed frame. */
  lemma {:induction false} PushedFirst(code: seq<Slot>, s: seq<Byte>, pc: int, p: Pattern, opt: bool, fl: Charset, i: nat, stk: Stack)
    returns (n: nat)
    requires At(code, pc, Gen(p, opt, NoTest, fl)) && i <= |s| && p.Choice? && !p.p2.True? && !ChoiceByTest(p.p1, p.p2, fl)
    requires WellFormed(p) && OptSafe(p.p1, false, FULL)
    ensures var cb := Gen(p.p2, opt, NoTest, fl);
            var end := pc + |Gen(p, opt, NoTest, fl)|;
            At(code, end - |cb|, cb) &&
            Steps(code, s, Run(pc, i, stk), n) ==
              match Eval(s, p.p1, i)
              case Some(j) => Run(end, j, stk)
              case None => Run(end - |cb|, i, stk)
    decreases p, |s| - 1
  {
    hide Step, Steps, At, Span, Kind, TestSlots, TestLen, TestOf, First, ChoiceByTest, LoopByTest, Gen, WellFormed, OptSafe, FixedLen, Eval;
    PushedParts(p, opt, fl);
    var a, b := p.p1, p.p2;
    var f := First(a, FULL);
    var ca, cb := Gen(a, false, TestOf(f), FULL), Gen(b, opt, NoTest, fl);
    var tail := JumpSlots(ICommit, 2 + |cb|) + cb;
    var body := pc + TestLen(f) + 2;
    TestLenAny(f, TestLen(f) + |ca| + 4);
    n := EnterPushed(code, s, pc, a, |ca| + 4, ca + tail, i, stk);
    AtSplit(code, body, ca, tail);
    AtSplit(code, body + |ca|, JumpSlots(ICommit, 2 + |cb|), cb);
    if f.empty || In(s, i, f.cs) {
      var framed := Push(Frame(body + |ca| + 2, i), stk);
      var m := Code(code, s, body, a, TestOf(f), FULL, i, framed);
      StepsAdd(code, s, Run(pc, i, stk), n, m);
      n := n + m;
      if Eval(s, a, i).Some? {
        var j := Eval(s, a, i).value;
        assert j < |s| ==> s[j] in FULL;
        RunJump(code, s, body + |ca|, ICommit, 2 + |cb|, j, framed);
        StepsAdd(code, s, Run(pc, i, stk), n, 1);
        n := n + 1;
      }
    }
  }

  /** p? under a frame of its own. */
  lemma {:induction false} CodeOption(code: seq<Slot>, s: seq<Byte>, pc: int, p: Pattern, tt: Test, fl: Charset, i: nat, stk: Stack)
    returns (n: nat)
    requires At(code, pc, Gen(p, false, tt, fl)) && i <= |s| && p.Choice? && p.p2.True? && !ChoiceByTest(p.p1, p.p2, fl)
    requires WellFormed(p) && OptSafe(p, false, fl)
    ensures Exact(s, p, fl, i, stk, pc + |Gen(p, false, tt, fl)|, Steps(code, s, Run(pc, i, stk), n))
    decreases p, |s|
  {
    hide Step, Steps, At, Span, Kind, TestSlots, TestLen, TestOf, First, ChoiceByTest, LoopByTest;
    var a := p.p1;
    var f := First(a, FULL);
    var ca := Gen(a, true, TestOf(f), FULL);
    var tail := JumpSlots(ICommit, 2) + [];
    assert Gen(p.p2, false, NoTest, fl) == [] && Eval(s, p.p2, i) == Some(i);
    var body := pc + TestLen(f) + 2;
    var exit := body + |ca| + 2;
    TestLenAny(f, TestLen(f) + |ca| + 4);
    assert |Gen(p, false, tt, fl)| == TestLen(f) + |ca| + 4;
    n := EnterPushed(code, s, pc, a, |ca| + 4, ca + tail, i, stk);
    AtSplit(code, body, ca, tail);
    AtSplit(code, body + |ca|, JumpSlots(ICommit, 2), []);
    if f.empty || In(s, i, f.cs) {
      var m := CodeOpt(code, s, body, a, TestOf(f), i, Frame(exit, i), stk);
      StepsAdd(code, s, Run(pc, i, stk), n, m);
      n := n + m;
      var st := Steps(code, s, Run(pc, i, stk), n);
      if Eval(s, a, i).Some? && st != Run(exit, Eval(s, a, i).value, stk) {
        RunJump(code, s, body + |ca|, ICommit, 2, st.pos, st.stack);
        StepsAdd(code, s, Run(pc, i, stk), n, 1);
        n := n + 1;
      }
    }
  }

  lemma LoopParts(s: seq<Byte>, p: Pattern, opt: bool, tt: Test, fl: Charset, i: nat)
    requires p.Rep? && ToCharset(p.body).None? && !LoopByTest(p.body, fl) && i <= |s|
    requires WellFormed(p) && OptSafe(p, opt, fl)
    ensures WellFormed(p.body) && OptSafe(p.body, false, FULL)
    ensures Gen(p, opt, tt, fl) == PushedLoop(First(p.body, FULL), opt, Gen(p.body, false, NoTest, FULL))
    ensures Eval(s, p.body, i) == None ==> Eval(s, p, i) == Some(i)
  {
  }

  /** What the test at the head of a loop by test decides. */
  lemma LoopDecision(s: seq<Byte>, b: Pattern, fl: Charset, i: nat)
    requires i <= |s| && WellFormed(b) && LoopByTest(b, fl)
    ensures !In(s, i, First(b, FULL).cs) ==> Eval(s, b, i) == None
    ensures In(s, i, First(b, FULL).cs) && Eval(s, b, i) == None ==> s[i] !in fl
  {
    FailsOutsideFirst(s, b, i);
    if HeadFail(b) { HeadFailExact(s, b, i); }
  }

  lemma {:induction false} CodeLoopByTest(code: seq<Slot>, s: seq<Byte>, pc: int, p: Pattern, fl: Charset, i: nat, stk: Stack)
    returns (n: nat)
    requires p.Rep? && ToCharset(p.body).None? && LoopByTest(p.body, fl)
    requires At(code, pc, ByTestLoop(TestFirst(p.body), Gen(p.body, false, TestOf(TestFirst(p.body)), FULL))) && i <= |s|
    requires WellFormed(p) && OptSafe(p.body, false, FULL)
    ensures Exact(s, p, fl, i, stk,
              pc + |ByTestLoop(TestFirst(p.body), Gen(p.body, false, TestOf(TestFirst(p.body)), FULL))|,
              Steps(code, s, Run(pc, i, stk), n))
    decreases p, |s| - i
  {
    hide Step, Steps, At, Span, Kind, TestSlots, TestLen, TestOf, First, ChoiceByTest, LoopByTest;
    var b := p.body;
    var f := TestFirst(b);
    var cb := Gen(b, false, TestOf(f), FULL);
    var back := JumpSlots(IJmp, -(TestLen(f) + |cb|));
    TestLenAny(f, TestLen(f) + |cb| + 2);
    AtSplit(code, pc, TestSlots(f, TestLen(f) + |cb| + 2), cb + back);
    AtSplit(code, pc + TestLen(f), cb, back);
    LoopDecision(s, b, fl, i);
    Progress(s, b, i);
    n := RunTest(code, s, pc, f, TestLen(f) + |cb| + 2, i, stk);
    if In(s, i, f.cs) {
      var m := Code(code, s, pc + TestLen(f), b, TestOf(f), FULL, i, stk);
      StepsAdd(code, s, Run(pc, i, stk), n, m);
      n := n + m;
      if Eval(s, b, i).Some? {
        var j := Eval(s, b, i).value;
        assert j < |s| ==> s[j] in FULL;
        RunJump(code, s, pc + TestLen(f) + |cb|, IJmp, -(TestLen(f) + |cb|), j, stk);
        StepsAdd(code, s, Run(pc, i, stk), n, 1);
        var k := CodeLoopByTest(code, s, pc, p, fl, j, stk);
        StepsAdd(code, s, Run(pc, i, stk), n + 1, k);
        n := n + 1 + k;
      }
    }
  }

  /** The body and the closing partial commit of a loop under the frame (`exit`, `i`): the
      loop ends, by its body failing, at `exit`. */
  lemma {:induction false} LoopUnderFrame(code: seq<Slot>, s: seq<Byte>, pc: int, p: Pattern, exit: int, i: nat, stk: Stack)
    returns (n: nat)
    requires p.Rep? && i <= |s| && WellFormed(p) && OptSafe(p.body, false, FULL)
    requires var cb := Gen(p.body, false, NoTest, FULL); At(code, pc, cb + JumpSlots(IPartialCommit, -|cb|))
    ensures Eval(s, p, i).Some?
    ensures Steps(code, s, Run(pc, i, Push(Frame(exit, i), stk)), n) == Run(exit, Eval(s, p, i).value, stk)
    decreases p, |s| - i
  {
    hide Step, Steps, At, Span, Kind, TestSlots, TestLen, TestOf, First, ChoiceByTest, LoopByTest;
    var b := p.body;
    var cb := Gen(b, false, NoTest, FULL);
    AtSplit(code, pc, cb, JumpSlots(IPartialCommit, -|cb|));
    Progress(s, b, i);
    var st := Run(pc, i, Push(Frame(exit, i), stk));
    n := Code(code, s, pc, b, NoTest, FULL, i, st.stack);
    if Eval(s, b, i).Some? {
      var j := Eval(s, b, i).value;
      assert j < |s| ==> s[j] in FULL;
      RunJump(code, s, pc + |cb|, IPartialCommit, -|cb|, j, st.stack);
      StepsAdd(code, s, st, n, 1);
      var k := LoopUnderFrame(code, s, pc, p, exit, j, stk);
      StepsAdd(code, s, st, n + 1, k);
      n := n + 1 + k;
    }
  }

  lemma {:induction false} CodeLoopPushed(code: seq<Slot>, s: seq<Byte>, pc: int, p: Pattern, tt: Test, fl: Charset, i: nat, stk: Stack)
    returns (n: nat)
    requires p.Rep? && ToCharset(p.body).None? && !LoopByTest(p.body, fl)
    requires At(code, pc, Gen(p, false, tt, fl)) && i <= |s| && WellFormed(p) && OptSafe(p, false, fl)
    ensures Exact(s, p, fl, i, stk, pc + |Gen(p, false, tt, fl)|, Steps(code, s, Run(pc, i, stk), n))
    decreases p, |s| + 1, 0
  {
    hide Step, Steps, At, Span, Kind, TestSlots, TestLen, TestOf, First, ChoiceByTest, LoopByTest, Gen, WellFormed, OptSafe, Eval;
    LoopParts(s, p, false, tt, fl, i);
    var b := p.body;
    var f := First(b, FULL);
    var cb := Gen(b, false, NoTest, FULL);
    var tail := cb + JumpSlots(IPartialCommit, -|cb|);
    TestLenAny(f, TestLen(f) + |cb| + 4);
    n := EnterPushed(code, s, pc, b, |cb| + 4, tail, i, stk);
    var body := pc + TestLen(f) + 2;
    if f.empty || In(s, i, f.cs) {
      var k := LoopUnderFrame(code, s, body, p, body + |cb| + 2, i, stk);
      StepsAdd(code, s, Run(pc, i, stk), n, k);
      n := n + k;
    }
  }

  lemma {:induction false} CodeNot(code: seq<Slot>, s: seq<Byte>, pc: int, p: Pattern, tt: Test, fl: Charset, i: nat, stk: Stack)
    returns (n: nat)
    requires At(code, pc, Gen(p, false, tt, fl)) && i <= |s| && p.Not?
    requires WellFormed(p) && OptSafe(p, false, fl)
    ensures Exact(s, p, fl, i, stk, pc + |Gen(p, false, tt, fl)|, Steps(code, s, Run(pc, i, stk), n))
    decreases p, |s|
  {
    hide Step, Steps, At, Span, Kind, TestSlots, TestLen, TestOf, First, ChoiceByTest, LoopByTest, Gen, WellFormed, OptSafe, HeadFail, Eval;
    NotParts(s, p, tt, fl, i);
    var b := p.body;
    var f := First(b, FULL);
    if HeadFail(b) {
      HeadFailExact(s, b, i);
      TestLenAny(f, TestLen(f) + 1);
      AtSplit(code, pc, TestSlots(f, TestLen(f) + 1), [Op(IFail, 0)]);
      n := RunTest(code, s, pc, f, TestLen(f) + 1, i, stk);
      if In(s, i, f.cs) {
        RunPlain(code, s, pc + TestLen(f), IFail, 0, i, stk);
        StepsAdd(code, s, Run(pc, i, stk), n, 1);
        n := n + 1;
      }
    } else {
      var cb := Gen(b, false, NoTest, FULL);
      var body := pc + TestLen(f) + 2;
      TestLenAny(f, TestLen(f) + |cb| + 3);
      n := EnterPushed(code, s, pc, b, |cb| + 3, cb + [Op(IFailTwice, 0)], i, stk);
      if f.empty || In(s, i, f.cs) {
        AtSplit(code, body, cb, [Op(IFailTwice, 0)]);
        var framed := Push(Frame(body + |cb| + 1, i), stk);
        var m := Code(code, s, body, b, NoTest, FULL, i, framed);
        StepsAdd(code, s, Run(pc, i, stk), n, m);
        n := n + m;
        if Eval(s, b, i).Some? {
          var j := Eval(s, b, i).value;
          assert j < |s| ==> s[j] in FULL;
          RunPlain(code, s, body + |cb|, IFailTwice, 0, j, framed);
          StepsAdd(code, s, Run(pc, i, stk), n, 1);
          n := n + 1;
        }
      }
    }
  }

  /** &p with a short fixed length: run p, then walk back. */
  lemma {:induction false} CodeAndFixed(code: seq<Slot>, s: seq<Byte>, pc: int, p: Pattern, tt: Test, fl: Charset, i: nat, stk: Stack)
    returns (n: nat)
    requires At(code, pc, Gen(p, false, tt, fl)) && i <= |s| && p.And? && 0 <= FixedLen(p.body) <= MAX_BEHIND
    requires WellFormed(p) && OptSafe(p, false, fl) && TestHolds(tt, s, i)
    ensures Exact(s, p, fl, i, stk, pc + |Gen(p, false, tt, fl)|, Steps(code, s, Run(pc, i, stk), n))
    decreases p, |s|
  {
    hide Step, Steps, At, Span, Kind, TestSlots, TestLen, TestOf, First, ChoiceByTest, LoopByTest;
    var b := p.body;
    var cb := Gen(b, false, tt, FULL);
    var back := if FixedLen(b) > 0 then [Op(IBehind, FixedLen(b))] else [];
    AtSplit(code, pc, cb, back);
    n := Code(code, s, pc, b, tt, FULL, i, stk);
    if Eval(s, b, i).Some? {
      var j := Eval(s, b, i).value;
      assert j < |s| ==> s[j] in FULL;
      FixedLenSound(s, b, i);
      if FixedLen(b) > 0 {
        RunPlain(code, s, pc + |cb|, IBehind, FixedLen(b), j, stk);
        StepsAdd(code, s, Run(pc, i, stk), n, 1);
        n := n + 1;
      }
    }
  }

  /** &p in general: run p under a frame that a back commit takes off again. */
  lemma {:induction false} CodeAndPushed(code: seq<Slot>, s: seq<Byte>, pc: int, p: Pattern, tt: Test, fl: Charset, i: nat, stk: Stack)
    returns (n: nat)
    requires At(code, pc, Gen(p, false, tt, fl)) && i <= |s| && p.And? && !(0 <= FixedLen(p.body) <= MAX_BEHIND)
    requires WellFormed(p) && OptSafe(p, false, fl) && TestHolds(tt, s, i)
    ensures Exact(s, p, fl, i, stk, pc + |Gen(p, false, tt, fl)|, Steps(code, s, Run(pc, i, stk), n))
    decreases p, |s|
  {
    hide Step, Steps, At, Span, Kind, TestSlots, TestLen, TestOf, First, ChoiceByTest, LoopByTest, Gen, WellFormed, OptSafe, FixedLen, Eval;
    AndParts(s, p, tt, fl, i);
    var b := p.body;
    var cb := Gen(b, false, tt, FULL);
    var st := Run(pc, i, stk);
    var tail := JumpSlots(IBackCommit, 3) + [Op(IFail, 0)];
    AtSplit(code, pc, JumpSlots(IChoice, |cb| + 4), cb + tail);
    AtSplit(code, pc + 2, cb, tail);
    AtSplit(code, pc + 2 + |cb|, JumpSlots(IBackCommit, 3), [Op(IFail, 0)]);
    RunJump(code, s, pc, IChoice, |cb| + 4, i, stk);
    var framed := Push(Frame(pc + |cb| + 4, i), stk);
    var m := Code(code, s, pc + 2, b, tt, FULL, i, framed);
    StepsAdd(code, s, st, 1, m);
    n := 1 + m;
    if Eval(s, b, i).Some? {
      var j := Eval(s, b, i).value;
      assert j < |s| ==> s[j] in FULL;
      RunJump(code, s, pc + 2 + |cb|, IBackCommit, 3, j, framed);
    } else {
      RunPlain(code, s, pc + |cb| + 4, IFail, 0, i, stk);
    }
    StepsAdd(code, s, st, n, 1);
    n := n + 1;
  }

  lemma {:induction false} CodeBehind(code: seq<Slot>, s: seq<Byte>, pc: int, p: Pattern, tt: Test, fl: Charset, i: nat, stk: Stack)
    returns (n: nat)
    requires At(code, pc, Gen(p, false, tt, fl)) && i <= |s| && p.Behind?
    requires WellFormed(p) && OptSafe(p, false, fl)
    ensures Exact(s, p, fl, i, stk, pc + |Gen(p, false, tt, fl)|, Steps(code, s, Run(pc, i, stk), n))
    decreases p, |s|
  {
    hide Step, Steps, At, Span, Kind, TestSlots, TestLen, TestOf, First, ChoiceByTest, LoopByTest;
    var b := p.body;
    var cb := Gen(b, false, NoTest, FULL);
    AtSplit(code, pc, [Op(IBehind, p.n)], cb);
    RunPlain(code, s, pc, IBehind, p.n, i, stk);
    n := 1;
    if p.n <= i {
      var j := i - p.n;
      var m := Code(code, s, pc + 1, b, NoTest, FULL, j, stk);
      StepsAdd(code, s, Run(pc, i, stk), 1, m);
      n := 1 + m;
      FixedLenSound(s, b, j);
      assert i < |s| ==> s[i] in FULL;
    }
  }

  // --------------------------------------------------- code under a known frame

  /** Compiler correctness, code under a choice frame that resumes at the end of the
      optional pattern it belongs to. */
  lemma {:induction false} CodeOpt(code: seq<Slot>, s: seq<Byte>, pc: int, p: Pattern, tt: Test, i: nat, exit: Frame, rest: Stack)
    returns (n: nat)
    requires At(code, pc, Gen(p, true, tt, FULL)) && i <= |s|
    requires WellFormed(p) && OptSafe(p, true, FULL) && TestHolds(tt, s, i)
    ensures Optional(s, p, i, exit, rest, pc + |Gen(p, true, tt, FULL)|,
                     Steps(code, s, Run(pc, i, Push(exit, rest)), n))
    decreases p, |s| + 3
  {
    hide Step, Steps, At, Span, Kind, TestSlots, TestLen, TestOf, First, ChoiceByTest, LoopByTest, Gen;
    match p
    case Seq(a, b) => n := OptSeq(code, s, pc, p, tt, i, exit, rest);
    case Choice(a, b) =>
      if ChoiceByTest(a, b, FULL) {
        n := OptChoiceByTest(code, s, pc, p, tt, i, exit, rest);
      } else if b.True? {
        n := OptOption(code, s, pc, p, tt, i, exit, rest);
      } else {
        n := OptChoicePushed(code, s, pc, p, tt, i, exit, rest);
      }
    case Rep(b) =>
      if ToCharset(b).None? && !LoopByTest(b, FULL) {
        n := OptLoopPushed(code, s, pc, p, tt, i, exit, rest);
      } else {
        n := OptPlain(code, s, pc, p, tt, i, exit, rest);
      }
    case _ => n := OptPlain(code, s, pc, p, tt, i, exit, rest);
  }

  /** Code that does not touch the frame. */
  lemma {:induction false} OptPlain(code: seq<Slot>, s: seq<Byte>, pc: int, p: Pattern, tt: Test, i: nat, exit: Frame, rest: Stack)
    returns (n: nat)
    requires At(code, pc, Gen(p, true, tt, FULL)) && i <= |s|
    requires !p.Seq? && !p.Choice? && (p.Rep? ==> ToCharset(p.body).Some? || LoopByTest(p.body, FULL))
    requires WellFormed(p) && OptSafe(p, true, FULL) && TestHolds(tt, s, i)
    ensures Optional(s, p, i, exit, rest, pc + |Gen(p, true, tt, FULL)|,
                     Steps(code, s, Run(pc, i, Push(exit, rest)), n))
    decreases p, |s| + 2
  {
    hide Step, Steps, At, Span, Kind, TestSlots, TestLen, TestOf, First, ChoiceByTest, LoopByTest, Gen;
    PlainIgnoresOpt(p, tt);
    n := Code(code, s, pc, p, tt, FULL, i, Push(exit, rest));
    ExactIsOptional(s, p, i, exit, rest, pc + |Gen(p, true, tt, FULL)|, Steps(code, s, Run(pc, i, Push(exit, rest)), n));
  }

  lemma PlainIgnoresOpt(p: Pattern, tt: Test)
    requires !p.Seq? && !p.Choice? && (p.Rep? ==> ToCharset(p.body).Some? || LoopByTest(p.body, FULL))
    requires OptSafe(p, true, FULL)
    ensures Gen(p, true, tt, FULL) == Gen(p, false, tt, FULL)
    ensures OptSafe(p, false, FULL)
  {
    if p.Rep? && ToCharset(p.body).None? { OptIgnored(p.body, TestOf(TestFirst(p.body))); }
  }

  lemma ExactIsOptional(s: seq<Byte>, p: Pattern, i: nat, exit: Frame, rest: Stack, end: int, st: State)
    requires i <= |s| && Exact(s, p, FULL, i, Push(exit, rest), end, st)
    ensures Optional(s, p, i, exit, rest, end, st)
  {
    hide Step, Steps, At, Span, Kind, TestSlots, TestLen, TestOf, First, ChoiceByTest, LoopByTest;
    if Eval(s, p, i).Some? {
      var j := Eval(s, p, i).value;
      assert j < |s| ==> s[j] in FULL;
    }
  }

  lemma {:induction false} OptSeq(code: seq<Slot>, s: seq<Byte>, pc: int, p: Pattern, tt: Test, i: nat, exit: Frame, rest: Stack)
    returns (n: nat)
    requires At(code, pc, Gen(p, true, tt, FULL)) && i <= |s| && p.Seq?
    requires WellFormed(p) && OptSafe(p, true, FULL) && TestHolds(tt, s, i)
    ensures Optional(s, p, i, exit, rest, pc + |Gen(p, true, tt, FULL)|,
                     Steps(code, s, Run(pc, i, Push(exit, rest)), n))
    decreases p, |s|
  {
    hide Step, Steps, At, Span, Kind, TestSlots, TestLen, TestOf, First, ChoiceByTest, LoopByTest, Gen, WellFormed, OptSafe, FixedLen, Eval;
    SeqParts(s, p, true, tt, FULL, i);
    var a, b := p.p1, p.p2;
    var fl1, tt2 := SeqFollow(a, b, FULL), SeqTest(a, tt);
    var ca, cb := Gen(a, false, tt, fl1), Gen(b, true, tt2, FULL);
    var st := Run(pc, i, Push(exit, rest));
    AtSplit(code, pc, ca, cb);
    n := Code(code, s, pc, a, tt, fl1, i, st.stack);
    if Eval(s, a, i).Some? {
      var j := Eval(s, a, i).value;
      if FixedLen(a) == 0 { FixedLenSound(s, a, i); }
      if Steps(code, s, st, n) == Run(pc + |ca|, j, st.stack) {
        var m := CodeOpt(code, s, pc + |ca|, b, tt2, j, exit, rest);
        StepsAdd(code, s, st, n, m);
        n := n + m;
      } else {
        assert s[j] in FULL;
        FirstSound(s, b, FULL, j);
      }
    }
  }

  lemma {:induction false} OptChoiceByTest(code: seq<Slot>, s: seq<Byte>, pc: int, p: Pattern, tt: Test, i: nat, exit: Frame, rest: Stack)
    returns (n: nat)
    requires At(code, pc, Gen(p, true, tt, FULL)) && i <= |s| && p.Choice? && ChoiceByTest(p.p1, p.p2, FULL)
    requires WellFormed(p) && OptSafe(p, true, FULL)
    ensures Optional(s, p, i, exit, rest, pc + |Gen(p, true, tt, FULL)|,
                     Steps(code, s, Run(pc, i, Push(exit, rest)), n))
    decreases p, |s|
  {
    hide Step, Steps, At, Span, Kind, TestSlots, TestLen, TestOf, First, ChoiceByTest, LoopByTest, Gen;
    ChoiceIgnoresTest(p, true, tt, FULL);
    var a, b := p.p1, p.p2;
    var cb := Gen(b, true, NoTest, FULL);
    var st := Run(pc, i, Push(exit, rest));
    var end := pc + |Gen(p, true, tt, FULL)|;
    ChoiceDecision(s, a, b, FULL, i);
    n := FirstAlternative(code, s, pc, p, true, FULL, i, st.stack);
    if In(s, i, First(a, FULL).cs) {
      ExactIsOptional(s, a, i, exit, rest, end, Steps(code, s, st, n));
      assert s[i] in FULL;
    } else {
      AtSecond(code, pc, p, true, FULL);
      var m := CodeOpt(code, s, end - |cb|, b, NoTest, i, exit, rest);
      StepsAdd(code, s, st, n, m);
      n := n + m;
    }
  }

  /** p? reusing the frame: a partial commit moves it here. */
  lemma {:induction false} OptOption(code: seq<Slot>, s: seq<Byte>, pc: int, p: Pattern, tt: Test, i: nat, exit: Frame, rest: Stack)
    returns (n: nat)
    requires At(code, pc, Gen(p, true, tt, FULL)) && i <= |s| && p.Choice? && p.p2.True? && !ChoiceByTest(p.p1, p.p2, FULL)
    requires WellFormed(p) && OptSafe(p, true, FULL)
    ensures Optional(s, p, i, exit, rest, pc + |Gen(p, true, tt, FULL)|,
                     Steps(code, s, Run(pc, i, Push(exit, rest)), n))
    decreases p, |s|
  {
    hide Step, Steps, At, Span, Kind, TestSlots, TestLen, TestOf, First, ChoiceByTest, LoopByTest;
    var ca := Gen(p.p1, true, NoTest, FULL);
    var st := Run(pc, i, Push(exit, rest));
    assert Eval(s, p.p2, i) == Some(i);
    AtSplit(code, pc, JumpSlots(IPartialCommit, 2), ca);
    RunJump(code, s, pc, IPartialCommit, 2, i, st.stack);
    var m := CodeOpt(code, s, pc + 2, p.p1, NoTest, i, Frame(exit.pc, i), rest);
    StepsAdd(code, s, st, 1, m);
    n := 1 + m;
  }

  lemma {:induction false} OptChoicePushed(code: seq<Slot>, s: seq<Byte>, pc: int, p: Pattern, tt: Test, i: nat, exit: Frame, rest: Stack)
    returns (n: nat)
    requires At(code, pc, Gen(p, true, tt, FULL)) && i <= |s| && p.Choice? && !p.p2.True? && !ChoiceByTest(p.p1, p.p2, FULL)
    requires WellFormed(p) && OptSafe(p, true, FULL)
    ensures Optional(s, p, i, exit, rest, pc + |Gen(p, true, tt, FULL)|,
                     Steps(code, s, Run(pc, i, Push(exit, rest)), n))
    decreases p, |s|
  {
    hide Step, Steps, At, Span, Kind, TestSlots, TestLen, TestOf, First, ChoiceByTest, LoopByTest, Gen;
    ChoiceIgnoresTest(p, true, tt, FULL);
    var st := Run(pc, i, Push(exit, rest));
    n := PushedFirst(code, s, pc, p, true, FULL, i, st.stack);
    if Eval(s, p.p1, i) == None {
      var cb := Gen(p.p2, true, NoTest, FULL);
      var m := CodeOpt(code, s, pc + |Gen(p, true, tt, FULL)| - |cb|, p.p2, NoTest, i, exit, rest);
      StepsAdd(code, s, st, n, m);
      n := n + m;
    }
  }

  lemma {:induction false} OptLoopPushed(code: seq<Slot>, s: seq<Byte>, pc: int, p: Pattern, tt: Test, i: nat, exit: Frame, rest: Stack)
    returns (n: nat)
    requires p.Rep? && ToCharset(p.body).None? && !LoopByTest(p.body, FULL)
    requires At(code, pc, Gen(p, true, tt, FULL)) && i <= |s| && WellFormed(p) && OptSafe(p, true, FULL)
    ensures Optional(s, p, i, exit, rest, pc + |Gen(p, true, tt, FULL)|,
                     Steps(code, s, Run(pc, i, Push(exit, rest)), n))
    decreases p, |s| + 1, 0
  {
    hide Step, Steps, At, Span, Kind, TestSlots, TestLen, TestOf, First, ChoiceByTest, LoopByTest, Gen, WellFormed, OptSafe, Eval;
    LoopParts(s, p, true, tt, FULL, i);
    var b := p.body;
    var f := First(b, FULL);
    var cb := Gen(b, false, NoTest, FULL);
    var off := TestLen(f) + |cb| + 4;
    var tail := cb + JumpSlots(IPartialCommit, -|cb|);
    var st := Run(pc, i, Push(exit, rest));
    TestLenAny(f, off);
    AtSplit(code, pc, TestSlots(f, off), JumpSlots(IPartialCommit, 2) + tail);
    AtSplit(code, pc + TestLen(f), JumpSlots(IPartialCommit, 2), tail);
    n := RunTest(code, s, pc, f, off, i, st.stack);
    if f.empty || In(s, i, f.cs) {
      RunJump(code, s, pc + TestLen(f), IPartialCommit, 2, i, st.stack);
      StepsAdd(code, s, st, n, 1);
      var k := LoopUnderFrame(code, s, pc + TestLen(f) + 2, p, exit.pc, i, rest);
      StepsAdd(code, s, st, n + 1, k);
      n := n + 1 + k;
    } else {
      FailsOutsideFirst(s, b, i);
    }
  }

  // ------------------------------------------------------------- main theorem

  /** What a match of the whole pattern from position `i` amounts to. */
  ghost function Result(s: seq<Byte>, p: Pattern, i: nat): State
    requires i <= |s|
  {
    match Eval(s, p, i)
    case Some(j) => Accept(j)
    case None => Reject
  }

  /** Compiler correctness: the compiled program stops, with exactly the PEG result, from
      whatever position the match starts. */
  lemma CompilerCorrect(s: seq<Byte>, p: Pattern, i: nat) returns (n: nat)
    requires WellFormed(p) && OptSafe(p, false, FULL) && i <= |s|
    ensures Steps(Program(p), s, Initial(i), n) == Result(s, p, i)
  {
    hide Step, Steps, At, Span, Kind, TestSlots, TestLen, TestOf, First, ChoiceByTest, LoopByTest, Gen, WellFormed, OptSafe, Eval;
    var code, g := Program(p), Gen(p, false, NoTest, FULL);
    var stk := Push(Frame(GIVEUP, i), Nil);
    AtWhole(code);
    AtSplit(code, 0, g, [Op(IEnd, 0)]);
    n := Code(code, s, 0, p, NoTest, FULL, i, stk);
    StepsAdd(code, s, Initial(i), n, 1);
    match Eval(s, p, i) {
      case Some(j) =>
        assert j < |s| ==> s[j] in FULL;
        RunPlain(code, s, |g|, IEnd, 0, j, stk);
      case None =>
        RunGiveup(code, s, i);
    }
    n := n + 1;
  }
}
