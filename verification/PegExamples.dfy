/** The meaning of parsing expressions on examples of the library's own tests
    (3rd/lpeg-0.12.2/test.lua). There a match ends at a position that counts from 1.
 */
module PegExamples {
  import opened Basics
  import opened Peg

  const A: Pattern := Chr(0x61)
  const B: Pattern := Chr(0x62)
  const C: Pattern := Chr(0x63)
  const X: Pattern := Chr(0x78)

  const SUBJECT_A: seq<Byte> := [0x61]
  const SUBJECT_B: seq<Byte> := [0x62]
  const SUBJECT_AB: seq<Byte> := [0x61, 0x62]
  const SUBJECT_AX: seq<Byte> := [0x61, 0x78]
  const SUBJECT_AAA: seq<Byte> := [0x61, 0x61, 0x61]

  /** Choices, sequences and look-aheads with the constants. */
  lemma Constants()
    ensures Eval(SUBJECT_A, Choice(False, A), 0) == Some(1) && Eval(SUBJECT_A, Choice(True, A), 0) == Some(0)
    ensures Eval(SUBJECT_B, Choice(A, False), 0) == None && Eval(SUBJECT_B, Choice(A, True), 0) == Some(0)
    ensures Eval(SUBJECT_A, Seq(False, A), 0) == None && Eval(SUBJECT_A, Seq(True, A), 0) == Some(1)
    ensures Eval(SUBJECT_A, Seq(A, False), 0) == None && Eval(SUBJECT_A, Seq(A, True), 0) == Some(1)
    ensures Eval(SUBJECT_A, Seq(And(False), A), 0) == None && Eval(SUBJECT_A, Seq(And(True), A), 0) == Some(1)
    ensures Eval(SUBJECT_A, Seq(A, And(False)), 0) == None && Eval(SUBJECT_A, Seq(A, And(True)), 0) == Some(1)
  {
  }

  /** Three characters, and not three characters. */
  lemma Counting()
    ensures Eval(SUBJECT_AAA, Seq(Any, Seq(Any, Any)), 0) == Some(3)
    ensures Eval(SUBJECT_AAA, Not(Seq(Any, Seq(Any, Any))), 0) == None
    ensures Eval(SUBJECT_AB, Not(Seq(Any, Seq(Any, Any))), 0) == Some(0)
  {
    assert Eval(SUBJECT_AAA, Any, 2) == Some(3) && Eval(SUBJECT_AAA, Seq(Any, Any), 1) == Some(3);
    assert Eval(SUBJECT_AB, Any, 2) == None && Eval(SUBJECT_AB, Seq(Any, Any), 1) == None;
    assert Eval(SUBJECT_AB, Seq(Any, Seq(Any, Any)), 0) == None;
  }

  /** The first alternative that matches is taken, although a later one is longer. */
  lemma FirstMatch()
    ensures Eval(SUBJECT_AB, Choice(Seq(A, Rep(A)), Choice(Seq(A, B), Rep(X))), 0) == Some(1)
    ensures Eval(SUBJECT_AX, Choice(Seq(A, Seq(Rep(B), C)), Seq(A, X)), 0) == Some(2)
  {
    assert Eval(SUBJECT_AB, A, 1) == None && Eval(SUBJECT_AB, Rep(A), 1) == Some(1);
    assert Eval(SUBJECT_AB, Seq(A, Rep(A)), 0) == Some(1);
    assert Eval(SUBJECT_AX, B, 1) == None && Eval(SUBJECT_AX, Rep(B), 1) == Some(1) && Eval(SUBJECT_AX, C, 1) == None;
    assert Eval(SUBJECT_AX, Seq(Rep(B), C), 1) == None && Eval(SUBJECT_AX, Seq(A, Seq(Rep(B), C)), 0) == None;
  }

  /** A repetition takes all that it can, and gives nothing back. */
  lemma Possessive()
    ensures Eval(SUBJECT_AAA, Rep(A), 0) == Some(3) && Eval(SUBJECT_AAA, Seq(Rep(A), A), 0) == None
    ensures Eval(SUBJECT_AX, Rep(Choice(Seq(A, B), Seq(A, X))), 0) == Some(2)
  {
    assert Eval(SUBJECT_AAA, A, 3) == None && Eval(SUBJECT_AAA, Rep(A), 3) == Some(3);
    assert Eval(SUBJECT_AAA, Rep(A), 2) == Some(3) && Eval(SUBJECT_AAA, Rep(A), 1) == Some(3);
    var p := Choice(Seq(A, B), Seq(A, X));
    assert Eval(SUBJECT_AX, Seq(A, B), 0) == None && Eval(SUBJECT_AX, p, 0) == Some(2);
    assert Eval(SUBJECT_AX, A, 2) == None && Eval(SUBJECT_AX, p, 2) == None;
    assert Eval(SUBJECT_AX, Rep(p), 2) == Some(2);
  }

  /** A look-behind sees what comes before, and takes nothing. */
  lemma Behindhand()
    ensures Eval(SUBJECT_AB, Behind(1, A), 1) == Some(1) && Eval(SUBJECT_AB, Behind(1, B), 1) == None
    ensures Eval(SUBJECT_AB, Behind(1, A), 0) == None && Eval(SUBJECT_AB, Seq(A, Seq(Behind(1, A), B)), 0) == Some(2)
  {
    assert Eval(SUBJECT_AB, Seq(Behind(1, A), B), 1) == Some(2);
  }
}
