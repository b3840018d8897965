// 32-bit TCP sequence numbers (RFC 9293 section 3.4) unwrapped to absolute positions
// (serial-number arithmetic, RFC 1982 section 3.2).
module SequenceNumbers {

  const TCP_SEQUENCE_MODULUS: int := 0x1_0000_0000
  const TCP_SEQUENCE_HALF_RANGE: int := 0x8000_0000

  function Raw(sequence: int): (raw: int)
    ensures 0 <= raw < TCP_SEQUENCE_MODULUS
  {
    sequence % TCP_SEQUENCE_MODULUS
  }

  /** Map a 32-bit sequence number to the absolute position nearest `reference`. */
  function Unwrap(sequence: int, reference: int): (position: int)
  {
    // `reference & ~(modulus - 1)` clears the low 32 bits, so the two parts cannot overlap.
    var candidate := (reference / TCP_SEQUENCE_MODULUS) * TCP_SEQUENCE_MODULUS + Raw(sequence);
    if candidate - reference > TCP_SEQUENCE_HALF_RANGE then candidate - TCP_SEQUENCE_MODULUS
    else if reference - candidate > TCP_SEQUENCE_HALF_RANGE then candidate + TCP_SEQUENCE_MODULUS
    else candidate
  }

  /** Two integers name the same 32-bit sequence number. */
  predicate Congruent(a: int, b: int) {
    (a - b) % TCP_SEQUENCE_MODULUS == 0
  }

  lemma RawIsCongruent(sequence: int)
    ensures Congruent(Raw(sequence), sequence)
  {
    var m := TCP_SEQUENCE_MODULUS;
    assert sequence == (sequence / m) * m + Raw(sequence);
    MultiplesAreCongruent(Raw(sequence), sequence, -(sequence / m));
  }

  lemma MultiplesAreCongruent(a: int, b: int, k: int)
    requires a - b == k * TCP_SEQUENCE_MODULUS
    ensures Congruent(a, b)
  {
  }

  lemma CongruentTransitive(a: int, b: int, c: int)
    requires Congruent(a, b) && Congruent(b, c)
    ensures Congruent(a, c) && Congruent(b, a)
  {
  }

  lemma CongruentShift(a: int, b: int, d: int)
    requires Congruent(a, b)
    ensures Congruent(a + d, b + d)
  {
  }

  lemma CongruentRaw(a: int, b: int)
    requires Congruent(a, b)
    ensures Raw(a) == Raw(b)
  {
    var k := (a - b) / TCP_SEQUENCE_MODULUS;
    assert a == b + k * TCP_SEQUENCE_MODULUS;
  }

  /** The result names the same sequence number and is never further than half the range away. */
  lemma UnwrapIsNearest(sequence: int, reference: int)
    ensures Congruent(Unwrap(sequence, reference), sequence)
    ensures -TCP_SEQUENCE_HALF_RANGE <= Unwrap(sequence, reference) - reference <= TCP_SEQUENCE_HALF_RANGE
  {
    var m := TCP_SEQUENCE_MODULUS;
    var q := reference / m;
    assert reference == q * m + Raw(reference);
    RawIsCongruent(sequence);
    var candidate := q * m + Raw(sequence);
    MultiplesAreCongruent(candidate, Raw(sequence), q);
    var k := if candidate - reference > TCP_SEQUENCE_HALF_RANGE then -1
             else if reference - candidate > TCP_SEQUENCE_HALF_RANGE then 1 else 0;
    MultiplesAreCongruent(candidate + k * m, candidate, k);
    CongruentTransitive(candidate + k * m, candidate, Raw(sequence));
    CongruentTransitive(candidate + k * m, Raw(sequence), sequence);
  }

  /** Unwrapping recovers the true position of anything strictly closer than half the range,
      across every 32-bit wrap. */
  lemma UnwrapRecovers(sequence: int, reference: int, position: int)
    requires Congruent(position, sequence)
    requires -TCP_SEQUENCE_HALF_RANGE < position - reference < TCP_SEQUENCE_HALF_RANGE
    ensures Unwrap(sequence, reference) == position
  {
    var m := TCP_SEQUENCE_MODULUS;
    UnwrapIsNearest(sequence, reference);
    var u := Unwrap(sequence, reference);
    CongruentTransitive(position, sequence, sequence);
    CongruentTransitive(u, sequence, position);
    var k := (u - position) / m;
    assert u - position == k * m;
    assert -m < u - position < m;
  }

  /** At a distance of exactly half the range the answer is a convention, not a recovery: the two
      positions there share a sequence number, and the low half of the reference picks one. */
  lemma HalfRangeIsAmbiguous(reference: int)
    ensures var above, below := reference + TCP_SEQUENCE_HALF_RANGE, reference - TCP_SEQUENCE_HALF_RANGE;
            && Congruent(above, below)
            && Unwrap(above, reference) == Unwrap(below, reference)
            && Unwrap(above, reference) == if Raw(reference) < TCP_SEQUENCE_HALF_RANGE then above else below
  {
    var m, h := TCP_SEQUENCE_MODULUS, TCP_SEQUENCE_HALF_RANGE;
    var q, low := reference / m, Raw(reference);
    assert reference == q * m + low;
    CongruentRaw(reference + h, reference - h) by { MultiplesAreCongruent(reference + h, reference - h, 1); }
    if low < h {
      CongruentRaw(reference + h, low + h) by { MultiplesAreCongruent(reference + h, low + h, q); }
    } else {
      CongruentRaw(reference - h, low - h) by { MultiplesAreCongruent(reference - h, low - h, q); }
    }
  }
}
