/** Why the compiler theorem carries the condition OptSafe: an optional at the end of a loop
    body, in a loop at the end of an optional, makes the compiled loop stop too early.
 */
module PegOptional {
  import opened Basics
  import opened Peg
  import opened PegMachine
  import opened PegCodegen

  function Body(a: Byte, b: Byte): Pattern {
    Seq(Chr(a), Choice(Seq(Chr(a), Chr(b)), True))
  }

  /** ((a (a b)?)*)? */
  function NestedOptional(a: Byte, b: Byte): Pattern {
    Choice(Rep(Body(a, b)), True)
  }

  lemma KindOfSingleton(c: Byte)
    ensures Kind({c}) == Singleton(c)
  {
    assert 0 in FULL && 1 in FULL;
    assert c in {c} && {c} == {c};
  }

  /** The inner optional moves the frame of the outer one, so its failure leaves the loop. */
  function BodyCode(a: Byte, b: Byte): seq<Slot> {
    [Op(IAny, 0), Op(IPartialCommit, 0), Offset(2), Op(IChar, a as nat), Op(IChar, b as nat)]
  }

  lemma BodyIs(a: Byte, b: Byte)
    ensures Gen(Body(a, b), true, OnChar(a), FULL) == BodyCode(a, b)
  {
    var o := Choice(Seq(Chr(a), Chr(b)), True);
    assert a in First(o.p1, FULL).cs && a in First(o.p2, FULL).cs;
    assert !ChoiceByTest(o.p1, o.p2, FULL);
    assert Gen(o.p1, true, NoTest, FULL) == [Op(IChar, a as nat), Op(IChar, b as nat)];
  }

  function ProgramCode(a: Byte, b: Byte): seq<Slot> {
    [Op(IChoice, 0), Offset(13),
     Op(ITestChar, a as nat), Offset(9)] + BodyCode(a, b) + [Op(IJmp, 0), Offset(-7),
     Op(ICommit, 0), Offset(2),
     Op(IEnd, 0)]
  }

  lemma BodyFirst(a: Byte, b: Byte)
    ensures First(Body(a, b), FULL) == FirstSet({a}, false)
    ensures LoopByTest(Body(a, b), FULL) && ToCharset(Body(a, b)).None?
  {
    var chr: Pattern, o: Pattern := Chr(a), Choice(Seq(Chr(a), Chr(b)), True);
    assert Body(a, b) == Seq(chr, o) && !Nullable(chr) && First(chr, FULL) == FirstSet({a}, false);
    assert NoFail(o) && HeadFail(chr);
  }

  lemma LoopIs(a: Byte, b: Byte)
    ensures Gen(Rep(Body(a, b)), true, NoTest, FULL) == ByTestLoop(FirstSet({a}, false), BodyCode(a, b))
  {
    hide First, LoopByTest, ToCharset, Body, BodyCode, ByTestLoop;
    KindOfSingleton(a);
    BodyIs(a, b);
    BodyFirst(a, b);
  }

  lemma ProgramIs(a: Byte, b: Byte)
    ensures Program(NestedOptional(a, b)) == ProgramCode(a, b)
  {
    var loop: Pattern, empty: Pattern := Rep(Body(a, b)), True;
    LoopIs(a, b);
    KindOfSingleton(a);
    assert First(loop, FULL).empty && !HeadFail(loop) && !ChoiceByTest(loop, empty, FULL);
    hide First, Body, Kind;
    assert NestedOptional(a, b) == Choice(loop, empty);
    assert Gen(Choice(loop, empty), false, NoTest, FULL) ==
           PushedChoice(First(loop, FULL), Gen(loop, true, NoTest, FULL), []);
  }

  lemma PegResult(a: Byte, b: Byte)
    ensures Eval([a, a], NestedOptional(a, b), 0) == Some(2)
  {
    var s, body := [a, a], Body(a, b);
    assert Eval(s, Seq(Chr(a), Chr(b)), 1) == None;
    assert Eval(s, body.p2, 1) == Some(1);
    assert Eval(s, body, 0) == Some(1);
    assert Eval(s, Seq(Chr(a), Chr(b)), 2) == None;
    assert Eval(s, body.p2, 2) == Some(2);
    assert Eval(s, body, 1) == Some(2);
    assert Eval(s, body, 2) == None;
    assert Eval(s, Rep(body), 2) == Some(2);
    assert Eval(s, Rep(body), 1) == Some(2);
  }

  /** For all a and b, the well-formed pattern ((a (a b)?)*)? matches both characters of the
      subject "aa", but its compiled program stops after the first.  It is not OptSafe. */
  lemma LoopLeftTooEarly(a: Byte, b: Byte)
    ensures WellFormed(NestedOptional(a, b)) && !OptSafe(NestedOptional(a, b), false, FULL)
    ensures Eval([a, a], NestedOptional(a, b), 0) == Some(2)
    ensures Steps(Program(NestedOptional(a, b)), [a, a], Initial(0), 7) == Accept(1)
  {
    PegResult(a, b);
    ProgramIs(a, b);
    NotSafe(a, b);
    var code, s := ProgramCode(a, b), [a, a];
    var outer := Push(Frame(GIVEUP, 0), Nil);
    var s1 := Step(code, s, Initial(0));
    assert s1 == Run(2, 0, Push(Frame(13, 0), outer));
    var s2 := Step(code, s, s1);
    assert s2 == Run(4, 0, Push(Frame(13, 0), outer));
    var s3 := Step(code, s, s2);
    assert s3 == Run(5, 1, Push(Frame(13, 0), outer));
    var s4 := Step(code, s, s3);
    assert s4 == Run(7, 1, Push(Frame(13, 1), outer));
    var s5 := Step(code, s, s4);
    assert s5 == Run(8, 2, Push(Frame(13, 1), outer));
    var s6 := Step(code, s, s5);
    assert s6 == Run(13, 1, outer);
    assert Step(code, s, s6) == Accept(1);
    assert Steps(code, s, s5, 2) == Steps(code, s, s6, 1) == Steps(code, s, Accept(1), 0);
    assert Steps(code, s, s3, 4) == Steps(code, s, s4, 3) == Steps(code, s, s5, 2);
    assert Steps(code, s, s1, 6) == Steps(code, s, s2, 5) == Steps(code, s, s3, 4);
  }

  lemma NotSafe(a: Byte, b: Byte)
    ensures WellFormed(NestedOptional(a, b)) && !OptSafe(NestedOptional(a, b), false, FULL)
  {
    var chr, two: Pattern, empty := Chr(a), Seq(Chr(a), Chr(b)), Pattern.True;
    var o: Pattern := Choice(two, empty);
    var body: Pattern := Seq(chr, o);
    var loop: Pattern := Rep(body);
    assert WellFormed(chr) && WellFormed(two) && WellFormed(empty) && !Nullable(chr);
    assert WellFormed(o) && !Nullable(body);
    assert WellFormed(body) && WellFormed(loop);
    assert NoFail(empty) && HeadFail(chr);
    assert NoFail(o) && HeadFail(body) && LoopByTest(body, FULL);
    assert First(two, FULL).cs == {a} && First(empty, FULL).cs == FULL && a in FULL;
    assert !HeadFail(two) && !ChoiceByTest(two, empty, FULL);
    assert UsesOpt(o) && UsesOpt(body);
    assert First(loop, FULL).empty && !HeadFail(loop) && !ChoiceByTest(loop, empty, FULL);
    assert ToCharset(body).None? && !OptSafe(loop, true, FULL);
    assert NestedOptional(a, b) == Choice(loop, empty);
  }
}
