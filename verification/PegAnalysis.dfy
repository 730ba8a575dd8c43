/** Parsing expressions, their meaning, and the static analyses that drive code
    generation (3rd/lpeg-0.12.2/lpcode.c).

    Patterns are the capture-free, call-free trees of LPeg.  `Eval` is the textbook
    meaning of a parsing expression; everything the compiler assumes about a pattern
    (nullable, cannot fail, fixed length, first set, fails on its head only) is proved
    here against that meaning.
 */
module Peg {
  import opened Basics

  newtype Byte = x: int | 0 <= x < 256

  /** A character set; the C code stores it as a 32-byte bit map. */
  type Charset = set<Byte>

  const FULL: Charset := set b: Byte | 0 <= b

  datatype Pattern =
    | Chr(c: Byte)
    | CharSet(cs: Charset)
    | Any
    | True
    | False
    | Rep(body: Pattern)
    | Seq(p1: Pattern, p2: Pattern)
    | Choice(p1: Pattern, p2: Pattern)
    | Not(body: Pattern)
    | And(body: Pattern)
    | Behind(n: nat, body: Pattern)

  // ------------------------------------------------------------------ meaning

  ghost predicate In(s: seq<Byte>, i: nat, cs: Charset) {
    i < |s| && s[i] in cs
  }

  /** The PEG meaning: where matching `p` at position `i` of the subject `s` ends, or
      `None` when it fails.  A repetition stops when its body fails (or, in a pattern the
      library would reject, when its body consumes nothing). */
  ghost function Eval(s: seq<Byte>, p: Pattern, i: nat): (r: Option<nat>)
    requires i <= |s|
    ensures r.Some? ==> i <= r.value <= |s|
    decreases p, |s| - i
  {
    match p
    case Chr(c) => if In(s, i, {c}) then Some(i + 1) else None
    case CharSet(cs) => if In(s, i, cs) then Some(i + 1) else None
    case Any => if i < |s| then Some(i + 1) else None
    case True => Some(i)
    case False => None
    case Rep(b) =>
      var r := Eval(s, b, i);
      if r.Some? && r.value > i then Eval(s, p, r.value) else Some(i)
    case Seq(a, b) =>
      var r := Eval(s, a, i);
      if r.Some? then Eval(s, b, r.value) else None
    case Choice(a, b) =>
      var r := Eval(s, a, i);
      if r.Some? then r else Eval(s, b, i)
    case Not(b) => if Eval(s, b, i).Some? then None else Some(i)
    case And(b) => if Eval(s, b, i).Some? then Some(i) else None
    case Behind(n, b) => if n <= i && Eval(s, b, i - n).Some? then Some(i) else None
  }

  // ----------------------------------------------------------------- analyses

  datatype Pred = PEnullable | PEnofail

  predicate CheckAux(p: Pattern, pred: Pred) {
    match p
    case Chr(_) => false
    case CharSet(_) => false
    case Any => false
    case False => false
    case Rep(_) => true
    case True => true
    case Not(_) => pred == PEnullable
    case Behind(_, _) => pred == PEnullable
    case And(b) => pred == PEnullable || CheckAux(b, pred)
    case Seq(a, b) => CheckAux(a, pred) && CheckAux(b, pred)
    case Choice(a, b) => CheckAux(b, pred) || CheckAux(a, pred)
  }

  predicate Nullable(p: Pattern) { CheckAux(p, PEnullable) }

  predicate NoFail(p: Pattern) { CheckAux(p, PEnofail) }

  /** `fixedlenx`: the accumulated length, or -1 when it varies. */
  function FixedLenX(p: Pattern, len: nat): int {
    match p
    case Chr(_) => len + 1
    case CharSet(_) => len + 1
    case Any => len + 1
    case False => len
    case True => len
    case Not(_) => len
    case And(_) => len
    case Behind(_, _) => len
    case Rep(_) => -1
    case Seq(a, b) =>
      var l := FixedLenX(a, len);
      if l < 0 then -1 else FixedLenX(b, l)
    case Choice(a, b) =>
      var n1 := FixedLenX(a, len);
      if n1 < 0 then -1 else if n1 == FixedLenX(b, len) then n1 else -1
  }

  function FixedLen(p: Pattern): int { FixedLenX(p, 0) }

  const MAX_BEHIND := 255

  /** What the pattern constructors enforce: loop bodies are not nullable (lp_star) and a
      look-behind carries the fixed, positive, not too big length of its body (lp_behind). */
  predicate WellFormed(p: Pattern) {
    match p
    case Rep(b) => WellFormed(b) && !Nullable(b)
    case Seq(a, b) => WellFormed(a) && WellFormed(b)
    case Choice(a, b) => WellFormed(a) && WellFormed(b)
    case Not(b) => WellFormed(b)
    case And(b) => WellFormed(b)
    case Behind(n, b) => WellFormed(b) && FixedLen(b) == n && 0 < n <= MAX_BEHIND
    case _ => true
  }

  function ToCharset(p: Pattern): Option<Charset> {
    match p
    case CharSet(cs) => Some(cs)
    case Chr(c) => Some({c})
    case Any => Some(FULL)
    case _ => None
  }

  datatype FirstSet = FirstSet(cs: Charset, empty: bool)

  /** `getfirst`: a superset of the characters that can start `p` followed by something
      whose first set is `follow`, and whether end of input may be accepted. */
  function First(p: Pattern, follow: Charset): FirstSet {
    match p
    case Chr(c) => FirstSet({c}, false)
    case CharSet(cs) => FirstSet(cs, false)
    case Any => FirstSet(FULL, false)
    case True => FirstSet(follow, true)
    case False => FirstSet({}, false)
    case Choice(a, b) =>
      var f1 := First(a, follow);
      var f2 := First(b, follow);
      FirstSet(f1.cs + f2.cs, f1.empty || f2.empty)
    case Seq(a, b) =>
      if !Nullable(a) then First(a, FULL)
      else
        var f2 := First(b, follow);
        var f1 := First(a, f2.cs);
        FirstSet(f1.cs, f1.empty && f2.empty)
    case Rep(b) => FirstSet(First(b, follow).cs + follow, true)
    case And(b) =>
      var f := First(b, follow);
      FirstSet(f.cs * follow, f.empty)
    case Not(b) =>
      (match ToCharset(b)
       case Some(cs) => FirstSet(FULL - cs, true)
       case None => FirstSet(follow, true))
    case Behind(_, _) => FirstSet(follow, true)
  }

  predicate HeadFail(p: Pattern) {
    match p
    case Chr(_) => true
    case CharSet(_) => true
    case Any => true
    case False => true
    case True => false
    case Rep(_) => false
    case Not(_) => false
    case Behind(_, _) => false
    case And(b) => HeadFail(b)
    case Seq(a, b) => NoFail(b) && HeadFail(a)
    case Choice(a, b) => HeadFail(a) && HeadFail(b)
  }

  predicate NeedFollow(p: Pattern) {
    match p
    case Choice(_, _) => true
    case Rep(_) => true
    case Seq(_, b) => NeedFollow(b)
    case _ => false
  }

  // ---------------------------------------------------------------- soundness

  /** nofail(p) ==> p cannot fail. */
  lemma {:induction false} NoFailSound(s: seq<Byte>, p: Pattern, i: nat)
    requires i <= |s| && NoFail(p)
    ensures Eval(s, p, i).Some?
    decreases p, |s| - i
  {
    match p
    case And(b) => NoFailSound(s, b, i);
    case Seq(a, b) =>
      NoFailSound(s, a, i);
      NoFailSound(s, b, Eval(s, a, i).value);
    case Choice(a, b) =>
      if NoFail(b) { NoFailSound(s, b, i); } else { NoFailSound(s, a, i); }
    case Rep(b) =>
      var r := Eval(s, b, i);
      if r.Some? && r.value > i { NoFailSound(s, p, r.value); }
    case _ =>
  }

  /** A match that consumes nothing ==> nullable(p). */
  lemma {:induction false} NullableSound(s: seq<Byte>, p: Pattern, i: nat)
    requires i <= |s| && Eval(s, p, i) == Some(i)
    ensures Nullable(p)
    decreases p
  {
    match p
    case Seq(a, b) =>
      NullableSound(s, a, i);
      NullableSound(s, b, i);
    case Choice(a, b) =>
      if Eval(s, a, i).Some? { NullableSound(s, a, i); } else { NullableSound(s, b, i); }
    case _ =>
  }

  /** The accumulator of `fixedlenx` only shifts the answer. */
  lemma {:induction false} FixedLenShift(p: Pattern, len: nat)
    ensures FixedLenX(p, len) == if FixedLen(p) < 0 then -1 else len + FixedLen(p)
    decreases p
  {
    match p
    case Seq(a, b) =>
      FixedLenShift(a, len);
      if FixedLen(a) >= 0 {
        FixedLenShift(b, len + FixedLen(a));
        FixedLenShift(b, FixedLen(a));
      }
    case Choice(a, b) =>
      FixedLenShift(a, len);
      FixedLenShift(b, len);
    case _ =>
  }

  /** fixedlen(p) == n >= 0 ==> every successful match consumes exactly n characters. */
  lemma {:induction false} FixedLenSound(s: seq<Byte>, p: Pattern, i: nat)
    requires i <= |s| && FixedLen(p) >= 0
    ensures Eval(s, p, i).Some? ==> Eval(s, p, i).value == i + FixedLen(p)
    decreases p
  {
    match p
    case Seq(a, b) =>
      FixedLenSound(s, a, i);
      FixedLenShift(b, FixedLen(a));
      if Eval(s, a, i).Some? { FixedLenSound(s, b, Eval(s, a, i).value); }
    case Choice(a, b) =>
      FixedLenSound(s, a, i);
      FixedLenSound(s, b, i);
    case _ =>
  }

  /** A loop body that succeeds makes progress. */
  lemma Progress(s: seq<Byte>, b: Pattern, i: nat)
    requires i <= |s| && !Nullable(b)
    ensures Eval(s, b, i).Some? ==> Eval(s, b, i).value > i
  {
    if Eval(s, b, i) == Some(i) { NullableSound(s, b, i); }
  }

  /** The first set is conservative: on a character outside first(p, follow), `p` fails, or
      it consumes nothing and leaves a character that is not in `follow` either (so that
      whatever follows fails on it). */
  lemma {:induction false} FirstSound(s: seq<Byte>, p: Pattern, follow: Charset, i: nat)
    requires i < |s| && WellFormed(p) && s[i] !in First(p, follow).cs
    ensures Eval(s, p, i) == None || (Eval(s, p, i) == Some(i) && s[i] !in follow)
    decreases p
  {
    match p
    case Choice(a, b) =>
      FirstSound(s, a, follow, i);
      FirstSound(s, b, follow, i);
    case Seq(a, b) =>
      if !Nullable(a) {
        FirstSound(s, a, FULL, i);
      } else {
        FirstSound(s, a, First(b, follow).cs, i);
        if Eval(s, a, i).Some? { FirstSound(s, b, follow, i); }
      }
    case Rep(b) => FirstSound(s, b, follow, i);
    case And(b) =>
      if s[i] !in First(b, follow).cs { FirstSound(s, b, follow, i); }
    case _ =>
  }

  /** A zero return from `getfirst` means that the pattern fails at the end of the input. */
  lemma {:induction false} FirstEmptySound(s: seq<Byte>, p: Pattern, follow: Charset)
    requires WellFormed(p) && !First(p, follow).empty
    ensures Eval(s, p, |s|) == None
    decreases p
  {
    match p
    case Choice(a, b) =>
      FirstEmptySound(s, a, follow);
      FirstEmptySound(s, b, follow);
    case Seq(a, b) =>
      if !Nullable(a) {
        FirstEmptySound(s, a, FULL);
      } else if First(a, First(b, follow).cs).empty {
        FirstEmptySound(s, b, follow);
      } else {
        FirstEmptySound(s, a, First(b, follow).cs);
      }
    case And(b) => FirstEmptySound(s, b, follow);
    case _ =>
  }

  lemma {:induction false} FirstMonotone(p: Pattern, small: Charset, big: Charset)
    requires small <= big
    ensures First(p, small).cs <= First(p, big).cs
    decreases p
  {
    match p
    case Choice(a, b) =>
      FirstMonotone(a, small, big);
      FirstMonotone(b, small, big);
    case Seq(a, b) =>
      if Nullable(a) {
        FirstMonotone(b, small, big);
        FirstMonotone(a, First(b, small).cs, First(b, big).cs);
      }
    case Rep(b) => FirstMonotone(b, small, big);
    case And(b) => FirstMonotone(b, small, big);
    case _ =>
  }

  /** headfail(p) ==> first(p, full) is exact: `p` succeeds precisely when the next
      character is in it (so, in particular, it fails at the end of the input). */
  lemma {:induction false} HeadFailExact(s: seq<Byte>, p: Pattern, i: nat)
    requires i <= |s| && WellFormed(p) && HeadFail(p)
    ensures !First(p, FULL).empty
    ensures Eval(s, p, i).Some? <==> In(s, i, First(p, FULL).cs)
    decreases p
  {
    HeadFailNotEmpty(p, FULL);
    if i == |s| {
      FirstEmptySound(s, p, FULL);
    } else if s[i] !in First(p, FULL).cs {
      FirstSound(s, p, FULL, i);
    } else {
      HeadFailSucceeds(s, p, i);
    }
  }

  lemma {:induction false} HeadFailNotEmpty(p: Pattern, follow: Charset)
    requires HeadFail(p)
    ensures !First(p, follow).empty
    decreases p
  {
    match p
    case And(b) => HeadFailNotEmpty(b, follow);
    case Seq(a, b) =>
      HeadFailNotEmpty(a, FULL);
      HeadFailNotEmpty(a, First(b, follow).cs);
    case Choice(a, b) =>
      HeadFailNotEmpty(a, follow);
      HeadFailNotEmpty(b, follow);
    case _ =>
  }

  lemma {:induction false} HeadFailSucceeds(s: seq<Byte>, p: Pattern, i: nat)
    requires i < |s| && HeadFail(p) && s[i] in First(p, FULL).cs
    ensures Eval(s, p, i).Some?
    decreases p
  {
    match p
    case And(b) => HeadFailSucceeds(s, b, i);
    case Seq(a, b) =>
      if Nullable(a) { FirstMonotone(a, First(b, FULL).cs, FULL); }
      HeadFailSucceeds(s, a, i);
      NoFailSound(s, b, Eval(s, a, i).value);
    case Choice(a, b) =>
      if s[i] in First(a, FULL).cs { HeadFailSucceeds(s, a, i); } else { HeadFailSucceeds(s, b, i); }
    case _ =>
  }
}
