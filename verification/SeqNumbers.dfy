/** Wrapping 16-bit sequence numbers and 32-bit timestamps (src/csp_rdp.c:82-112).

    Sequence numbers on the wire live in Z/2^16.  Every theorem about a run is
    stated over unbounded indices; the lemmas at the end say exactly how far two
    indices may drift apart before the 16-bit comparisons stop agreeing with them. */
module SeqNumbers {

  type u16 = x: int | 0 <= x < 0x1_0000
  type u32 = x: int | 0 <= x < 0x1_0000_0000

  /** Conversion of any integer to uint16_t. */
  function Wrap(x: int): u16 {
    x % 0x1_0000
  }

  /** csp_rdp_seq_between: nr lies in start..end, both inclusive, going upward. */
  predicate SeqBetween(nr: int, start: int, end: int) {
    Wrap(end - start) >= Wrap(nr - start)
  }

  /** csp_rdp_seq_before: the signed 16-bit difference is negative. */
  predicate SeqBefore(nr: int, cmp: int) {
    Wrap(nr - cmp) >= 0x8000
  }

  predicate SeqAfter(nr: int, cmp: int) {
    SeqBefore(cmp, nr)
  }

  /** csp_rdp_time_after: the signed 32-bit difference cmp - time is negative. */
  predicate TimeAfter(time: int, cmp: int) {
    (cmp - time) % 0x1_0000_0000 >= 0x8000_0000
  }

  /** Two indices less than 2^16 apart share a wire number only when equal. */
  lemma WrapInjective(a: int, b: int)
    requires Wrap(a) == Wrap(b)
    requires -0x1_0000 < a - b < 0x1_0000
    ensures a == b
  {
  }

  lemma WrapShift(a: int, b: int)
    ensures Wrap(Wrap(a) + b) == Wrap(a + b)
    ensures Wrap(b + Wrap(a)) == Wrap(a + b)
    ensures Wrap(Wrap(a) - b) == Wrap(a - b)
  {
  }

  lemma WrapDiff(a: int, b: int)
    ensures Wrap(Wrap(a) - Wrap(b)) == Wrap(a - b)
  {
  }

  lemma WrapSum(a: int, k: int, b: int)
    ensures Wrap(Wrap(a) + k - Wrap(b)) == Wrap(a + k - b)
  {
    WrapShift(a, k - Wrap(b));
    WrapDiff(a + k, b);
  }

  /** A number not after another, read back from the wire. */
  lemma NotAfter(a: int, b: int, k: int)
    requires !SeqAfter(Wrap(a), Wrap(b) + k)
    requires a - (b + k) <= 0x8000
    ensures a <= b + k
  {
    WrapSum(b, k, a);
  }

  /** The 16-bit "before" agrees with the unbounded order exactly on differences in
      [-2^15, 2^15). */
  lemma BeforeExact(a: int, b: int)
    requires -0x1_0000 < a - b < 0x1_0000
    ensures (SeqBefore(a, b) <==> a < b) <==> -0x8000 <= a - b < 0x8000
    ensures SeqBefore(Wrap(a), Wrap(b)) <==> SeqBefore(a, b)
  {
    WrapDiff(a, b);
  }

  /** A receive window of width w starting at lo accepts n, when n is younger than
      2^16 - w, exactly when n really lies in lo .. lo + w - 1. */
  lemma BetweenExact(n: int, lo: int, w: int)
    requires 0 < w <= 0x1_0000
    requires lo - (0x1_0000 - w) <= n < lo + 0x1_0000
    ensures SeqBetween(n, lo, lo + w - 1) <==> lo <= n < lo + w
  {
  }
}
