/** Wrapped 32-bit sequence numbers and the order `seq_diff` and `seq_compare` put on them.
    The other modules keep the true, unbounded number of a packet and hand the comparison
    functions its 32-bit projection. */
module SeqArith {

  const TWO_31: int := 0x8000_0000
  const TWO_32: int := 0x1_0000_0000

  type uint32 = x: int | 0 <= x < TWO_32

  /** The conversion C makes when a value is stored in a `uint32_t`. */
  function U32(x: int): uint32 {
    x % TWO_32
  }

  /** The conversion C makes when a `uint32_t` is stored in an `int32_t`. */
  function I32(x: uint32): int {
    if x < TWO_31 then x else x - TWO_32
  }

  function SeqDiff(a: uint32, b: uint32): int {
    I32(U32(a - b))
  }

  function SeqCompare(a: uint32, b: uint32): int {
    var d := SeqDiff(a, b);
    if d < 0 then -1 else if d > 0 then 1 else 0
  }

  /** `rack_sent_after`: later send time first, then the later sequence number. */
  predicate RackSentAfter(t1: nat, seq1: uint32, t2: nat, seq2: uint32) {
    t1 > t2 || (t1 == t2 && SeqCompare(seq2, seq1) < 0)
  }

  /** Two true numbers whose difference an `int32_t` can hold. */
  predicate Near(a: int, b: int) {
    -TWO_31 <= a - b < TWO_31
  }

  /** Two true numbers less than half a turn apart. */
  predicate Within(a: int, b: int) {
    -TWO_31 < a - b < TWO_31
  }

  /** The wrapped difference of two projections is the true difference exactly for near numbers. */
  lemma SeqDiffExact(a: int, b: int)
    ensures SeqDiff(U32(a), U32(b)) == a - b <==> Near(a, b)
  {
    ProjectionDifference(a, b);
  }

  lemma ProjectionDifference(a: int, b: int)
    ensures U32(U32(a) - U32(b)) == U32(a - b)
  {
    var qa, qb := a / TWO_32, b / TWO_32;
    assert U32(a) == a - qa * TWO_32;
    assert U32(b) == b - qb * TWO_32;
    ModShift(a - b, qb - qa);
    assert U32(a) - U32(b) == (a - b) + (qb - qa) * TWO_32;
  }

  lemma ModShift(x: int, k: int)
    ensures U32(x + k * TWO_32) == U32(x)
  {
    var y := x + k * TWO_32;
    var q, r := x / TWO_32, x % TWO_32;
    assert y == (q + k) * TWO_32 + r;
    DivUnique(y, q + k, r);
  }

  lemma DivUnique(y: int, q: int, r: int)
    requires y == q * TWO_32 + r && 0 <= r < TWO_32
    ensures y % TWO_32 == r
  {
    var q', r' := y / TWO_32, y % TWO_32;
    assert (q - q') * TWO_32 == r' - r;
    assert -TWO_32 < (q - q') * TWO_32 < TWO_32;
    assert q == q';
  }

  /** Inside the window the comparison on the wire is the true comparison, all three ways. */
  lemma SeqCompareTrue(a: int, b: int)
    requires Near(a, b)
    ensures SeqCompare(U32(a), U32(b)) < 0 <==> a < b
    ensures SeqCompare(U32(a), U32(b)) > 0 <==> a > b
    ensures SeqCompare(U32(a), U32(b)) == 0 <==> a == b
    ensures U32(a) == U32(b) <==> a == b
  {
    SeqDiffExact(a, b);
    SeqDiffExact(a, a);
  }

  /** Outside the window nothing remains of the order: one full half-turn ahead reads as behind. */
  lemma HalfTurnReadsAsBehind(b: int)
    ensures SeqCompare(U32(b + TWO_31), U32(b)) < 0
    ensures SeqCompare(U32(b), U32(b + TWO_31)) < 0
  {
    ProjectionDifference(b + TWO_31, b);
    ProjectionDifference(b, b + TWO_31);
  }

  /** Projections of numbers less than a full turn apart collide only if the numbers are equal. */
  lemma ProjectionInjective(a: int, b: int)
    requires -TWO_32 < a - b < TWO_32
    ensures U32(a) == U32(b) <==> a == b
  {
    ProjectionDifference(a, b);
  }

  /** Incrementing the wire number is projecting the incremented true number. */
  lemma IncrementProjects(a: int)
    ensures U32(U32(a) + 1) == U32(a + 1)
  {
    ModShift(U32(a) + 1, a / TWO_32);
    assert U32(a) + 1 + (a / TWO_32) * TWO_32 == a + 1;
  }
}
