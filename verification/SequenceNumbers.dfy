/** 16-bit RTP sequence-number arithmetic shared by the jitter buffer and the FEC handler. */
module SequenceNumbers {

  const MODULUS := 65536
  const HALF := 32768

  type Seq16 = x: int | 0 <= x < 65536

  /** How far `b` lies ahead of `a`, counting forward modulo 2^16. */
  function Ahead(a: Seq16, b: Seq16): Seq16 {
    if b >= a then b - a else b - a + MODULUS
  }

  lemma AheadIsModular(a: Seq16, b: Seq16)
    ensures Ahead(a, b) == (b - a) % MODULUS
  {}

  /** The successor with 16-bit wrap-around. */
  function Next(a: Seq16): Seq16 {
    if a == 65535 then 0 else a + 1
  }

  /** `int16(a - b) < 0`: the wrapped difference has its top bit set. */
  predicate SeqLess(a: Seq16, b: Seq16) {
    Ahead(b, a) >= HALF
  }

  /** SeqLess alone is no order: it cycles through three points spread around the circle. */
  lemma SeqLessIsNotTransitive()
    ensures SeqLess(0, 30000) && SeqLess(30000, 60000) && SeqLess(60000, 0)
  {}

  /** Within half the circle ahead of `base`, SeqLess is the order of the distances from `base`. */
  lemma SeqLessByRank(base: Seq16, a: Seq16, b: Seq16)
    requires Ahead(base, a) < HALF && Ahead(base, b) < HALF
    ensures SeqLess(a, b) <==> Ahead(base, a) < Ahead(base, b)
    ensures a == b <==> Ahead(base, a) == Ahead(base, b)
  {}

  /** Moving the base forward by no more than the distance shortens the distance by the move. */
  lemma AheadRebase(base: Seq16, base': Seq16, a: Seq16)
    requires Ahead(base, base') <= Ahead(base, a)
    ensures Ahead(base', a) == Ahead(base, a) - Ahead(base, base')
  {}
}
