/** Code generation (3rd/lpeg-0.12.2/lpcode.c) as a specification: the slots that
    `codegen` appends for a pattern.  All jumps are relative, so the fragment does not
    depend on where it is placed.  PegCompiler.dfy holds the code that appends and patches
    these slots in place.
 */
module PegCodegen {
  import opened Basics
  import opened Peg
  import opened PegMachine

  /** What `charsettype` finds out about a set. */
  datatype SetKind = EmptySet | Singleton(c: Byte) | FullSet | Generic

  function Kind(cs: Charset): SetKind {
    if cs == {} then EmptySet
    else if cs == FULL then FullSet
    else if exists c :: c in cs && cs == {c} then (var c :| c in cs && cs == {c}; Singleton(c))
    else Generic
  }

  /** The test instruction that dominates a piece of code, as far as `codechar` and
      `codecharset` look at it. */
  datatype Test = NoTest | OnChar(c: Byte) | OnSet(cs: Charset)

  ghost predicate TestHolds(tt: Test, s: seq<Byte>, i: nat) {
    match tt
    case NoTest => true
    case OnChar(c) => In(s, i, {c})
    case OnSet(cs) => In(s, i, cs)
  }

  function SetSlots(cs: Charset): seq<Slot> {
    [Buff(cs), Pad, Pad, Pad, Pad, Pad, Pad, Pad]
  }

  function JumpSlots(op: Opcode, off: int): seq<Slot> {
    [Op(op, 0), Offset(off)]
  }

  /** `codetestset`: no instruction when end of input is to be accepted.  `offset` is the
      slot of the jump offset. */
  ghost function TestWith(f: FirstSet, offset: Slot): seq<Slot> {
    if f.empty then []
    else
      match Kind(f.cs)
      case EmptySet => [Op(IJmp, 0), offset]
      case FullSet => [Op(ITestAny, 0), offset]
      case Singleton(c) => [Op(ITestChar, c as nat), offset]
      case Generic => [Op(ITestSet, 0), offset] + SetSlots(f.cs)
  }

  ghost function TestSlots(f: FirstSet, off: int): seq<Slot> { TestWith(f, Offset(off)) }

  ghost function TestLen(f: FirstSet): nat { |TestSlots(f, 0)| }

  ghost function TestOf(f: FirstSet): Test {
    if f.empty then NoTest
    else
      match Kind(f.cs)
      case Singleton(c) => OnChar(c)
      case Generic => OnSet(f.cs)
      case _ => NoTest
  }

  ghost function CharSlots(c: Byte, tt: Test): seq<Slot> {
    if tt == OnChar(c) then [Op(IAny, 0)] else [Op(IChar, c as nat)]
  }

  ghost function CharsetSlots(cs: Charset, tt: Test): seq<Slot> {
    match Kind(cs)
    case EmptySet => [Op(IFail, 0)]
    case FullSet => [Op(IAny, 0)]
    case Singleton(c) => CharSlots(c, tt)
    case Generic => if tt == OnSet(cs) then [Op(IAny, 0)] else [Op(ISet, 0)] + SetSlots(cs)
  }

  /** A plain test on the next character is enough to decide between the alternatives. */
  ghost predicate ChoiceByTest(a: Pattern, b: Pattern, fl: Charset) {
    var f1 := First(a, FULL);
    HeadFail(a) || (!f1.empty && f1.cs !! First(b, fl).cs)
  }

  /** A plain test on the next character is enough to leave the loop. */
  ghost predicate LoopByTest(b: Pattern, fl: Charset) {
    var f := First(b, FULL);
    HeadFail(b) || (!f.empty && f.cs !! fl)
  }

  ghost function TestFirst(p: Pattern): FirstSet {
    FirstSet(First(p, FULL).cs, false)
  }

  /** `codegen`.  `opt` says that the code runs under a choice frame that resumes at its
      own end, `tt` is the test dominating the code and `fl` the follow set. */
  ghost function Gen(p: Pattern, opt: bool, tt: Test, fl: Charset): seq<Slot>
    decreases p
  {
    match p
    case Chr(c) => CharSlots(c, tt)
    case Any => [Op(IAny, 0)]
    case CharSet(cs) => CharsetSlots(cs, tt)
    case True => []
    case False => [Op(IFail, 0)]
    case Choice(a, b) =>
      if ChoiceByTest(a, b, fl) then
        ByTestChoice(TestFirst(a), Gen(a, false, TestOf(TestFirst(a)), fl), b.True?, Gen(b, opt, NoTest, fl))
      else if opt && b.True? then
        JumpSlots(IPartialCommit, 2) + Gen(a, true, NoTest, FULL)
      else
        PushedChoice(First(a, FULL), Gen(a, b.True?, TestOf(First(a, FULL)), FULL), Gen(b, opt, NoTest, fl))
    case Rep(b) =>
      if ToCharset(b).Some? then [Op(ISpan, 0)] + SetSlots(ToCharset(b).value)
      else if LoopByTest(b, fl) then
        ByTestLoop(TestFirst(b), Gen(b, opt, TestOf(TestFirst(b)), FULL))
      else
        PushedLoop(First(b, FULL), opt, Gen(b, false, NoTest, FULL))
    case Behind(n, b) => (if n > 0 then [Op(IBehind, n)] else []) + Gen(b, false, NoTest, FULL)
    case Not(b) =>
      if HeadFail(b) then ByTestNot(First(b, FULL))
      else PushedNot(First(b, FULL), Gen(b, false, NoTest, FULL))
    case And(b) =>
      if 0 <= FixedLen(b) <= MAX_BEHIND then
        Gen(b, false, tt, FULL) + (if FixedLen(b) > 0 then [Op(IBehind, FixedLen(b))] else [])
      else
        PushedAnd(Gen(b, false, tt, FULL))
    case Seq(a, b) =>
      Gen(a, false, tt, SeqFollow(a, b, fl)) + Gen(b, opt, SeqTest(a, tt), fl)
  }

  ghost function SeqFollow(a: Pattern, b: Pattern, fl: Charset): Charset {
    if NeedFollow(a) then First(b, fl).cs else FULL
  }

  function SeqTest(a: Pattern, tt: Test): Test {
    if FixedLen(a) != 0 then NoTest else tt
  }

  /** test -> L1; a; jmp L2; L1: b; L2: */
  ghost function ByTestChoice(f: FirstSet, a: seq<Slot>, emptyp2: bool, b: seq<Slot>): seq<Slot> {
    var jmp := if emptyp2 then [] else JumpSlots(IJmp, 2 + |b|);
    TestSlots(f, TestLen(f) + |a| + |jmp|) + (a + (jmp + b))
  }

  /** test -> L1; choice L1; a; commit L2; L1: b; L2: */
  ghost function PushedChoice(f: FirstSet, a: seq<Slot>, b: seq<Slot>): seq<Slot> {
    TestSlots(f, TestLen(f) + |a| + 4) +
    (JumpSlots(IChoice, |a| + 4) + (a + (JumpSlots(ICommit, 2 + |b|) + b)))
  }

  /** L1: test -> L2; a; jmp L1; L2: */
  ghost function ByTestLoop(f: FirstSet, a: seq<Slot>): seq<Slot> {
    TestSlots(f, TestLen(f) + |a| + 2) + (a + JumpSlots(IJmp, -(TestLen(f) + |a|)))
  }

  /** test -> L2; choice L2 (or partialcommit L1); L1: a; partialcommit L1; L2: */
  ghost function PushedLoop(f: FirstSet, opt: bool, a: seq<Slot>): seq<Slot> {
    var enter := if opt then JumpSlots(IPartialCommit, 2) else JumpSlots(IChoice, |a| + 4);
    TestSlots(f, TestLen(f) + |a| + 4) + (enter + (a + JumpSlots(IPartialCommit, -|a|)))
  }

  /** test -> L1; fail; L1: */
  ghost function ByTestNot(f: FirstSet): seq<Slot> {
    TestSlots(f, TestLen(f) + 1) + [Op(IFail, 0)]
  }

  /** test -> L1; choice L1; a; failtwice; L1: */
  ghost function PushedNot(f: FirstSet, a: seq<Slot>): seq<Slot> {
    TestSlots(f, TestLen(f) + |a| + 3) + (JumpSlots(IChoice, |a| + 3) + (a + [Op(IFailTwice, 0)]))
  }

  /** choice L1; a; backcommit L2; L1: fail; L2: */
  ghost function PushedAnd(a: seq<Slot>): seq<Slot> {
    JumpSlots(IChoice, |a| + 4) + (a + (JumpSlots(IBackCommit, 3) + [Op(IFail, 0)]))
  }

  /** The whole program: the pattern under the full follow set, then the end instruction. */
  ghost function Program(p: Pattern): seq<Slot> {
    Gen(p, false, NoTest, FULL) + [Op(IEnd, 0)]
  }

  /** Does the code of `p` touch the choice frame it was told about? */
  ghost predicate UsesOpt(p: Pattern) {
    match p
    case Seq(_, b) => UsesOpt(b)
    case Choice(a, b) => if ChoiceByTest(a, b, FULL) then UsesOpt(b) else b.True? || UsesOpt(b)
    case Rep(b) => ToCharset(b).None? && (LoopByTest(b, FULL) ==> UsesOpt(b))
    case _ => false
  }

  /** `coderep` hands `opt` on to the body of a loop that it codes with a plain test.  The
      body then takes the end of the whole loop for its own end.  OptSafe excludes exactly
      the patterns in which such a body makes use of it. */
  ghost predicate OptSafe(p: Pattern, opt: bool, fl: Charset)
    decreases p
  {
    match p
    case Choice(a, b) =>
      if ChoiceByTest(a, b, fl) then OptSafe(a, false, fl) && OptSafe(b, opt, fl)
      else if opt && b.True? then OptSafe(a, true, FULL)
      else OptSafe(a, b.True?, FULL) && OptSafe(b, opt, fl)
    case Rep(b) =>
      if LoopByTest(b, fl) && ToCharset(b).None? then OptSafe(b, false, FULL) && (opt ==> !UsesOpt(b))
      else OptSafe(b, false, FULL)
    case Seq(a, b) => OptSafe(a, false, SeqFollow(a, b, fl)) && OptSafe(b, opt, fl)
    case Not(b) => OptSafe(b, false, FULL)
    case And(b) => OptSafe(b, false, FULL)
    case Behind(_, b) => OptSafe(b, false, FULL)
    case _ => true
  }

  /** No choice anywhere has the empty pattern as its second alternative. */
  predicate NoOptional(p: Pattern) {
    match p
    case Choice(a, b) => !b.True? && NoOptional(a) && NoOptional(b)
    case Seq(a, b) => NoOptional(a) && NoOptional(b)
    case Rep(b) => NoOptional(b)
    case Not(b) => NoOptional(b)
    case And(b) => NoOptional(b)
    case Behind(_, b) => NoOptional(b)
    case _ => true
  }

  lemma {:induction false} NoOptionalIsSafe(p: Pattern, fl: Charset)
    requires NoOptional(p)
    ensures OptSafe(p, false, fl)
    decreases p
  {
    match p
    case Choice(a, b) =>
      NoOptionalIsSafe(a, FULL);
      NoOptionalIsSafe(a, fl);
      NoOptionalIsSafe(b, fl);
    case Seq(a, b) =>
      NoOptionalIsSafe(a, SeqFollow(a, b, fl));
      NoOptionalIsSafe(b, fl);
    case Rep(b) => NoOptionalIsSafe(b, FULL);
    case Not(b) => NoOptionalIsSafe(b, FULL);
    case And(b) => NoOptionalIsSafe(b, FULL);
    case Behind(_, b) => NoOptionalIsSafe(b, FULL);
    case _ =>
  }

  lemma {:induction false} OptIgnored(p: Pattern, tt: Test)
    requires !UsesOpt(p)
    ensures Gen(p, true, tt, FULL) == Gen(p, false, tt, FULL)
    decreases p
  {
    match p
    case Seq(a, b) => OptIgnored(b, SeqTest(a, tt));
    case Choice(a, b) => OptIgnored(b, NoTest);
    case Rep(b) =>
      if ToCharset(b).None? { OptIgnored(b, TestOf(TestFirst(b))); }
    case _ =>
  }
}
