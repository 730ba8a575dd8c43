/** The backtracking machine that runs compiled patterns (3rd/lpeg-0.12.2/lpvm.c),
    restricted to the opcodes that a capture-free, call-free pattern compiles to.

    Code is a sequence of 4-byte slots, as in the C union `Instruction`: an opcode with its
    `aux` byte, a jump offset, or the slots of a 32-byte character set (the first of the
    eight holds the set, the other seven are padding).
 */
module PegMachine {
  import opened Peg

  datatype Opcode =
    | IAny | IChar | ISet
    | ITestAny | ITestChar | ITestSet
    | ISpan | IBehind | IEnd
    | IChoice | IJmp | ICommit | IPartialCommit | IBackCommit
    | IFailTwice | IFail

  datatype Slot =
    | Op(code: Opcode, aux: nat)
    | Offset(off: int)
    | Buff(cs: Charset)
    | Pad

  /** A saved alternative: resume at `pc` with the subject position `pos`. */
  datatype Frame = Frame(pc: int, pos: nat)

  datatype Stack = Nil | Push(top: Frame, rest: Stack)

  datatype State =
    | Run(pc: int, pos: nat, stack: Stack)
    | Accept(pos: nat)
    | Reject
    | Stuck

  /** The address of the `giveup` instruction under the bottom frame. */
  const GIVEUP: int := -1

  /** The fail label: resume the most recent alternative. */
  function Backtrack(stack: Stack): State {
    match stack
    case Nil => Stuck
    case Push(f, rest) => Run(f.pc, f.pos, rest)
  }

  /** The end of the longest run of characters of `cs` from `i` (opcode ISpan). */
  function Span(s: seq<Byte>, cs: Charset, i: nat): (j: nat)
    requires i <= |s|
    ensures i <= j <= |s|
    decreases |s| - i
  {
    if i < |s| && s[i] in cs then Span(s, cs, i + 1) else i
  }

  predicate HasOffset(code: seq<Slot>, pc: int) {
    0 <= pc && pc + 1 < |code| && code[pc + 1].Offset?
  }

  function Target(code: seq<Slot>, pc: int): int
    requires HasOffset(code, pc)
  {
    pc + code[pc + 1].off
  }

  predicate HasSet(code: seq<Slot>, at: int) {
    0 <= at < |code| && code[at].Buff?
  }

  /** The number of slots of a character-set instruction: the opcode and eight data slots. */
  const CHARSET_INST_SIZE: int := 9

  /** One turn of the interpreter loop on subject `s`. */
  function Step(code: seq<Slot>, s: seq<Byte>, st: State): State
  {
    if !st.Run? then st
    else
      var pc, i, stk := st.pc, st.pos, st.stack;
      if pc == GIVEUP then (if stk.Nil? then Reject else Stuck)
      else if !(0 <= pc < |code|) || !code[pc].Op? || i > |s| then Stuck
      else
        var aux := code[pc].aux;
        match code[pc].code
        case IEnd => Accept(i)
        case IAny => if i < |s| then Run(pc + 1, i + 1, stk) else Backtrack(stk)
        case IChar => if i < |s| && s[i] as int == aux then Run(pc + 1, i + 1, stk) else Backtrack(stk)
        case ISet =>
          if !HasSet(code, pc + 1) then Stuck
          else if i < |s| && s[i] in code[pc + 1].cs then Run(pc + CHARSET_INST_SIZE, i + 1, stk)
          else Backtrack(stk)
        case ITestAny =>
          if !HasOffset(code, pc) then Stuck
          else Run(if i < |s| then pc + 2 else Target(code, pc), i, stk)
        case ITestChar =>
          if !HasOffset(code, pc) then Stuck
          else Run(if i < |s| && s[i] as int == aux then pc + 2 else Target(code, pc), i, stk)
        case ITestSet =>
          if !HasOffset(code, pc) || !HasSet(code, pc + 2) then Stuck
          else Run(if i < |s| && s[i] in code[pc + 2].cs then pc + 1 + CHARSET_INST_SIZE
                   else Target(code, pc), i, stk)
        case IBehind => if aux > i then Backtrack(stk) else Run(pc + 1, i - aux, stk)
        case ISpan =>
          if !HasSet(code, pc + 1) then Stuck
          else Run(pc + CHARSET_INST_SIZE, Span(s, code[pc + 1].cs, i), stk)
        case IJmp => if !HasOffset(code, pc) then Stuck else Run(Target(code, pc), i, stk)
        case IChoice =>
          if !HasOffset(code, pc) then Stuck
          else Run(pc + 2, i, Push(Frame(Target(code, pc), i), stk))
        case ICommit =>
          if !HasOffset(code, pc) || stk.Nil? then Stuck
          else Run(Target(code, pc), i, stk.rest)
        case IPartialCommit =>
          if !HasOffset(code, pc) || stk.Nil? then Stuck
          else Run(Target(code, pc), i, Push(stk.top.(pos := i), stk.rest))
        case IBackCommit =>
          if !HasOffset(code, pc) || stk.Nil? then Stuck
          else Run(Target(code, pc), stk.top.pos, stk.rest)
        case IFailTwice => if stk.Nil? then Stuck else Backtrack(stk.rest)
        case IFail => Backtrack(stk)
  }

  /** `n` turns of the interpreter loop. */
  function Steps(code: seq<Slot>, s: seq<Byte>, st: State, n: nat): State
    decreases n
  {
    if n == 0 then st else Steps(code, s, Step(code, s, st), n - 1)
  }

  lemma {:induction false} StepsAdd(code: seq<Slot>, s: seq<Byte>, st: State, m: nat, n: nat)
    ensures Steps(code, s, st, m + n) == Steps(code, s, Steps(code, s, st, m), n)
    decreases m
  {
    if m > 0 { StepsAdd(code, s, Step(code, s, st), m - 1, n); }
  }

  /** The machine at the start of a match from position `i`. */
  function Initial(i: nat): State { Run(0, i, Push(Frame(GIVEUP, i), Nil)) }

  /** The interpreter loop.  The machine stops by itself; `bound` is any number of turns
      after which that has happened. */
  method Match(code: seq<Slot>, s: seq<Byte>, from: nat, ghost bound: nat) returns (r: State)
    requires !Steps(code, s, Initial(from), bound).Run?
    ensures r == Steps(code, s, Initial(from), bound)
  {
    var pc: int, i: nat, stack := 0, from, Push(Frame(GIVEUP, from), Nil);
    ghost var left := bound;
    while true
      invariant Steps(code, s, Run(pc, i, stack), left) == Steps(code, s, Initial(from), bound)
      decreases left
    {
      ghost var next := Step(code, s, Run(pc, i, stack));
      if !next.Run? { Settled(code, s, next, left - 1); }
      left := left - 1;
      var fail := false;
      if pc == GIVEUP { return if stack.Nil? then Reject else Stuck; }
      if !(0 <= pc < |code|) || !code[pc].Op? || i > |s| { return Stuck; }
      match code[pc].code {
        case IEnd =>
          return Accept(i);
        case IAny =>
          if i < |s| { pc, i := pc + 1, i + 1; } else { fail := true; }
        case IChar =>
          if i < |s| && s[i] as int == code[pc].aux { pc, i := pc + 1, i + 1; } else { fail := true; }
        case ISet =>
          if !HasSet(code, pc + 1) { return Stuck; }
          if i < |s| && s[i] in code[pc + 1].cs { pc, i := pc + CHARSET_INST_SIZE, i + 1; } else { fail := true; }
        case ITestAny =>
          if !HasOffset(code, pc) { return Stuck; }
          if i < |s| { pc := pc + 2; } else { pc := Target(code, pc); }
        case ITestChar =>
          if !HasOffset(code, pc) { return Stuck; }
          if i < |s| && s[i] as int == code[pc].aux { pc := pc + 2; } else { pc := Target(code, pc); }
        case ITestSet =>
          if !HasOffset(code, pc) || !HasSet(code, pc + 2) { return Stuck; }
          if i < |s| && s[i] in code[pc + 2].cs { pc := pc + 1 + CHARSET_INST_SIZE; } else { pc := Target(code, pc); }
        case IBehind =>
          if code[pc].aux > i { fail := true; } else { pc, i := pc + 1, i - code[pc].aux; }
        case ISpan =>
          if !HasSet(code, pc + 1) { return Stuck; }
          ghost var first := i;
          while i < |s| && s[i] in code[pc + 1].cs
            invariant i <= |s| && Span(s, code[pc + 1].cs, i) == Span(s, code[pc + 1].cs, first)
          {
            i := i + 1;
          }
          pc := pc + CHARSET_INST_SIZE;
        case IJmp =>
          if !HasOffset(code, pc) { return Stuck; }
          pc := Target(code, pc);
        case IChoice =>
          if !HasOffset(code, pc) { return Stuck; }
          stack, pc := Push(Frame(Target(code, pc), i), stack), pc + 2;
        case ICommit =>
          if !HasOffset(code, pc) || stack.Nil? { return Stuck; }
          stack, pc := stack.rest, Target(code, pc);
        case IPartialCommit =>
          if !HasOffset(code, pc) || stack.Nil? { return Stuck; }
          stack, pc := Push(stack.top.(pos := i), stack.rest), Target(code, pc);
        case IBackCommit =>
          if !HasOffset(code, pc) || stack.Nil? { return Stuck; }
          stack, i, pc := stack.rest, stack.top.pos, Target(code, pc);
        case IFailTwice =>
          if stack.Nil? { return Stuck; }
          stack, fail := stack.rest, true;
        case IFail =>
          fail := true;
      }
      if fail {
        if stack.Nil? { return Stuck; }
        pc, i, stack := stack.top.pc, stack.top.pos, stack.rest;
      }
    }
  }

  lemma {:induction false} Settled(code: seq<Slot>, s: seq<Byte>, st: State, n: nat)
    requires !st.Run?
    ensures Steps(code, s, st, n) == st
    decreases n
  {
    if n > 0 { Settled(code, s, st, n - 1); }
  }

  /** `frag` is the code at position `pc`. */
  ghost predicate At(code: seq<Slot>, pc: int, frag: seq<Slot>) {
    && 0 <= pc && pc + |frag| <= |code|
    && forall k :: 0 <= k < |frag| ==> code[pc + k] == frag[k]
  }

  lemma AtWhole(code: seq<Slot>)
    ensures At(code, 0, code)
  {
  }

  lemma AtSplit(code: seq<Slot>, pc: int, a: seq<Slot>, b: seq<Slot>)
    requires At(code, pc, a + b)
    ensures At(code, pc, a) && At(code, pc + |a|, b)
  {
    assert forall k :: 0 <= k < |a| ==> (a + b)[k] == a[k];
    forall k | 0 <= k < |b| ensures code[pc + |a| + k] == b[k] {
      assert (a + b)[|a| + k] == b[k];
    }
  }
}
