/** What the other modules share. */
module Basics {

  datatype Option<+T> = None | Some(value: T)

  /** Multiples of `m` other than 0 are at least `m` away from it. */
  lemma MultipleIsLarge(k: int, m: nat)
    ensures k >= 1 ==> k * m >= m
    ensures k <= -1 ==> k * m + m <= 0
  {
  }
}
