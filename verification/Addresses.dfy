/** Addresses as numbers: what the bit masks of subnets and routes select. */
module Addresses {

  /** The value of an address, by counting up to it. */
  function Number(x: bv16): nat
    decreases x
  {
    if x == 0 then 0 else Number(Before(x)) + 1
  }

  function Before(x: bv16): bv16 {
    x - 1
  }

  function Half(x: bv16): bv16 {
    x >> 1
  }

  function Double(x: bv16): bv16 {
    x << 1
  }

  function And(x: bv16, y: bv16): bv16 {
    x & y
  }

  predicate Odd(x: bv16) {
    x & 1 == 1
  }

  function Pow2(k: nat): (r: nat)
    ensures r > 0
  {
    if k == 0 then 1 else 2 * Pow2(k - 1)
  }

  // ---- halving ----

  lemma OddBits(x: bv16)
    requires x & 1 == 1
    ensures (x - 1) >> 1 == x >> 1 && (x - 1) & 1 == 0
  {
  }

  lemma EvenBits(x: bv16)
    requires x != 0 && x & 1 == 0
    ensures (x - 1) >> 1 == (x >> 1) - 1 && (x - 1) & 1 == 1 && x >> 1 != 0
  {
  }

  lemma LowBit(x: bv16)
    ensures x & 1 == 0 || x & 1 == 1
  {
  }

  lemma OddBefore(x: bv16)
    requires Odd(x)
    ensures Half(Before(x)) == Half(x) && !Odd(Before(x)) && x != 0
  {
    OddBits(x);
  }

  lemma EvenBefore(x: bv16)
    requires x != 0 && !Odd(x)
    ensures Half(Before(x)) == Before(Half(x)) && Odd(Before(x)) && Half(x) != 0
  {
    LowBit(x);
    EvenBits(x);
  }

  lemma NumberNext(x: bv16)
    requires x != 0
    ensures Number(x) == Number(Before(x)) + 1
  {
  }

  lemma BeforeLess(x: bv16)
    requires x != 0
    ensures Before(x) < x
  {
  }

  lemma BeforeInjective(x: bv16, y: bv16)
    requires Before(x) == Before(y)
    ensures x == y
  {
    assert x == x - 1 + 1 && y == y - 1 + 1;
  }

  lemma ZeroNumber()
    ensures Number(0) == 0 && Half(0) == 0 && !Odd(0)
  {
  }

  lemma {:induction false} HalfNumber(x: bv16)
    ensures Number(x) == 2 * Number(Half(x)) + if Odd(x) then 1 else 0
    decreases x
  {
    hide Number, Half, Odd, Before;
    ZeroNumber();
    if x != 0 {
      BeforeLess(x);
      HalfNumber(Before(x));
      NumberNext(x);
      if Odd(x) {
        OddBefore(x);
      } else {
        EvenBefore(x);
        NumberNext(Half(x));
      }
    }
  }

  /** Different addresses have different numbers. */
  lemma {:induction false} NumberInjective(x: bv16, y: bv16)
    requires Number(x) == Number(y)
    ensures x == y
    decreases x
  {
    hide Number, Before;
    ZeroNumber();
    if x != 0 { NumberNext(x); }
    if y != 0 { NumberNext(y); }
    if x != 0 {
      BeforeLess(x);
      NumberInjective(Before(x), Before(y));
      BeforeInjective(x, y);
    }
  }

  /** x without its lowest k bits. */
  function Down(x: bv16, k: nat): bv16 {
    if k == 0 then x else Down(Half(x), k - 1)
  }

  lemma {:induction false} DownNumber(x: bv16, k: nat)
    ensures Number(Down(x, k)) == Number(x) / Pow2(k)
    decreases k
  {
    hide Number, Half, Odd;
    if k > 0 {
      HalfNumber(x);
      DownNumber(Half(x), k - 1);
      DivideTwice(Number(x), Pow2(k - 1));
      assert Number(x) / 2 == Number(Half(x));
    }
  }

  lemma DivideTwice(n: nat, p: nat)
    requires p > 0
    ensures n / 2 / p == n / (2 * p)
  {
    var q, r := n / (2 * p), n % (2 * p);
    assert n == 2 * p * q + r;
    assert n / 2 == p * q + r / 2;
    assert 0 <= r / 2 < p;
    Quotient(p, q, r / 2);
  }

  lemma Quotient(p: nat, q: nat, r: nat)
    requires r < p
    ensures (p * q + r) / p == q
  {
    var d := (p * q + r) / p;
    assert p * d <= p * q + r < p * d + p;
    Between(p, q, r, d);
  }

  lemma Between(p: nat, q: nat, r: nat, d: int)
    requires r < p && p * d <= p * q + r < p * d + p
    ensures d == q
  {
    Multiple(p, d - q);
    assert p * (d - q) == p * d - p * q;
  }

  lemma Multiple(p: nat, e: int)
    ensures (e >= 1 ==> p * e >= p) && (e <= -1 ==> p * e <= 0 - p)
  {
  }

  // ---- masks ----

  /** m one bits. */
  function Low(m: nat): bv16 {
    if m == 0 then 0 else Ones(Low(m - 1))
  }

  function Ones(s: bv16): bv16 {
    (s << 1) | 1
  }

  /** s moved up k places. */
  function Moved(s: bv16, k: nat): bv16 {
    if k == 0 then s else Double(Moved(s, k - 1))
  }

  /** The mask of k host bits. */
  function HostMask(k: nat): bv16
    requires k <= 14
  {
    (1 << k) - 1
  }

  lemma LowIs(m: nat)
    requires m <= 14
    ensures HostMask(m) == Low(m)
  {
    LowBits();
  }

  lemma LowBits()
    ensures Low(0) == 0 && Low(1) == 1 && Low(2) == 3 && Low(3) == 7 && Low(4) == 15 && Low(5) == 31
    ensures Low(6) == 63 && Low(7) == 127 && Low(8) == 255 && Low(9) == 511 && Low(10) == 1023
    ensures Low(11) == 2047 && Low(12) == 4095 && Low(13) == 8191 && Low(14) == 16383 && Low(15) == 32767
    ensures Low(16) == 65535
  {
  }

  function ShiftUp(s: bv16, k: nat): bv16
    requires k <= 14
  {
    s << k
  }

  lemma MovedIs(s: bv16, k: nat)
    requires k <= 14
    ensures ShiftUp(s, k) == Moved(s, k)
  {
    hide Moved;
    MovedBits(s, k);
  }

  lemma MovedBits(s: bv16, k: nat)
    requires k <= 14
    ensures s << k == Moved(s, k)
  {
    if k == 0 {
    } else if k == 1 {
    } else if k == 2 {
    } else if k == 3 {
    } else if k == 4 {
    } else if k == 5 {
    } else if k == 6 {
    } else if k == 7 {
    } else if k == 8 {
    } else if k == 9 {
    } else if k == 10 {
    } else if k == 11 {
    } else if k == 12 {
    } else if k == 13 {
    } else {
      assert k == 14;
    }
  }

  lemma AndDouble(a: bv16, s: bv16)
    ensures a & (s << 1) == ((a >> 1) & s) << 1
  {
  }

  lemma HalfAndDouble(a: bv16, s: bv16)
    ensures (a & (s << 1)) >> 1 == (a >> 1) & s
  {
  }

  lemma AndDoubled(a: bv16, s: bv16)
    ensures And(a, Double(s)) == Double(And(Half(a), s))
  {
    AndDouble(a, s);
  }

  lemma AndHalved(a: bv16, s: bv16)
    ensures Half(And(a, Double(s))) == And(Half(a), s)
  {
    HalfAndDouble(a, s);
  }

  /** Comparing under a mask moved up is comparing what is above under the mask itself. */
  lemma {:induction false} SameMoved(a: bv16, b: bv16, s: bv16, k: nat)
    ensures And(a, Moved(s, k)) == And(b, Moved(s, k)) <==> And(Down(a, k), s) == And(Down(b, k), s)
    decreases k
  {
    hide And, Half, Double;
    if k > 0 {
      AndDoubled(a, Moved(s, k - 1));
      AndHalved(a, Moved(s, k - 1));
      AndDoubled(b, Moved(s, k - 1));
      AndHalved(b, Moved(s, k - 1));
      SameMoved(Half(a), Half(b), s, k - 1);
    }
  }

  lemma HalfAnd(x: bv16, s: bv16)
    ensures (x & ((s << 1) | 1)) >> 1 == (x >> 1) & s
    ensures (x & ((s << 1) | 1)) & 1 == x & 1
  {
  }

  lemma HalfUnder(x: bv16, s: bv16)
    ensures Half(And(x, Ones(s))) == And(Half(x), s) && Odd(And(x, Ones(s))) == Odd(x)
  {
    HalfAnd(x, s);
  }

  /** The lowest m bits are the remainder. */
  lemma {:induction false} LowNumber(x: bv16, m: nat)
    ensures Number(And(x, Low(m))) == Number(x) % Pow2(m)
    decreases m
  {
    hide Number, Half, Odd, And, Ones;
    if m == 0 {
      NothingUnder(x);
      ZeroNumber();
    } else {
      HalfUnder(x, Low(m - 1));
      HalfNumber(x);
      HalfNumber(And(x, Low(m)));
      LowNumber(Half(x), m - 1);
      RemainderTwice(Number(Half(x)), if Odd(x) then 1 else 0, Pow2(m - 1));
    }
  }

  lemma NothingUnder(x: bv16)
    ensures And(x, 0) == 0
  {
  }

  lemma RemainderTwice(n: nat, bit: nat, p: nat)
    requires p > 0 && bit <= 1
    ensures (2 * n + bit) % (2 * p) == 2 * (n % p) + bit
  {
    var q, r := n / p, n % p;
    assert n == p * q + r;
    assert 2 * n + bit == 2 * p * q + (2 * r + bit);
    assert 2 * r + bit < 2 * p;
    Quotient(2 * p, q, 2 * r + bit);
  }

  // ---- subnets ----

  /** The addresses that agree with a except in the lowest k bits: a block of 2^k consecutive numbers. */
  predicate SameBlock(a: bv16, b: bv16, k: nat) {
    Number(a) / Pow2(k) == Number(b) / Pow2(k)
  }

  lemma AllOnes(x: bv16)
    ensures And(x, 0xFFFF) == x
  {
  }

  function Not(x: bv16): bv16 {
    !x
  }

  lemma ComplementBits(s: bv16)
    ensures (!s) << 1 == !((s << 1) | 1)
  {
  }

  lemma NotOnes(s: bv16)
    ensures Double(Not(s)) == Not(Ones(s))
  {
    ComplementBits(s);
  }

  lemma NotNothing()
    ensures Not(0) == 0xFFFF
  {
  }

  lemma {:induction false} HighIs(k: nat)
    ensures Not(Low(k)) == Moved(0xFFFF, k)
    decreases k
  {
    hide Not, Double, Ones;
    if k == 0 {
      NotNothing();
    } else {
      HighIs(k - 1);
      NotOnes(Low(k - 1));
    }
  }

  /** Equal without the lowest k bits. */
  predicate AgreeAbove(a: bv16, b: bv16, k: nat)
    requires k <= 14
  {
    var hostbits: bv16 := HostMask(k);
    And(a, Not(hostbits)) == And(b, Not(hostbits))
  }

  /** What is left of two addresses without their host bits is equal exactly in one block. */
  lemma AgreeAboveExactly(a: bv16, b: bv16, k: nat)
    requires k <= 14
    ensures AgreeAbove(a, b, k) <==> SameBlock(a, b, k)
  {
    hide And, Not, HostMask, Number, Down, Moved, Low, Pow2;
    LowIs(k);
    HighIs(k);
    SameMoved(a, b, 0xFFFF, k);
    AllOnes(Down(a, k));
    AllOnes(Down(b, k));
    DownNumber(a, k);
    DownNumber(b, k);
    if Number(Down(a, k)) == Number(Down(b, k)) { NumberInjective(Down(a, k), Down(b, k)); }
  }

  /** The same with m network bits above the k host bits, and whatever is above those ignored. */
  predicate SameSubnet(a: bv16, b: bv16, m: nat, k: nat) {
    Number(a) / Pow2(k) % Pow2(m) == Number(b) / Pow2(k) % Pow2(m)
  }

  function SubnetMask(m: nat, k: nat): bv16
    requires m <= 14 && k <= 14
  {
    ShiftUp(HostMask(m), k)
  }

  predicate AgreeUnder(a: bv16, b: bv16, mask: bv16) {
    And(a, mask) == And(b, mask)
  }

  lemma SubnetMaskIs(m: nat, k: nat)
    requires m <= 14 && k <= 14
    ensures SubnetMask(m, k) == Moved(Low(m), k)
  {
    hide Low, HostMask, Moved, ShiftUp;
    LowIs(m);
    MovedIs(Low(m), k);
  }

  lemma AgreeUnderExactly(a: bv16, b: bv16, m: nat, k: nat)
    requires m <= 14 && k <= 14
    ensures AgreeUnder(a, b, SubnetMask(m, k)) <==> SameSubnet(a, b, m, k)
  {
    hide And, HostMask, SubnetMask, Number, Down, Moved, Low, Pow2;
    SubnetMaskIs(m, k);
    SameMoved(a, b, Low(m), k);
    DownNumber(a, k);
    DownNumber(b, k);
    LowNumber(Down(a, k), m);
    LowNumber(Down(b, k), m);
    var x, y := And(Down(a, k), Low(m)), And(Down(b, k), Low(m));
    if Number(x) == Number(y) { NumberInjective(x, y); }
  }

  // ---- blocks of consecutive numbers ----

  /** The first number of the block of a. */
  function First(a: bv16, k: nat): int {
    Number(a) - Number(a) % Pow2(k)
  }

  lemma SameQuotient(x: nat, y: nat, p: nat)
    requires p > 0
    ensures x / p == y / p <==> x - x % p <= y < x - x % p + p
  {
    var q, e := x / p, y / p;
    assert x == p * q + x % p && y == p * e + y % p;
    if x - x % p <= y < x - x % p + p { Between(p, q, y - p * q, e); }
  }

  /** A block is 2^k consecutive numbers; without host bits it is the address itself. */
  lemma BlockExactly(a: bv16, b: bv16, k: nat)
    ensures SameBlock(a, b, k) <==> First(a, k) <= Number(b) < First(a, k) + Pow2(k)
    ensures k == 0 ==> (SameBlock(a, b, k) <==> a == b)
  {
    hide Number, Pow2;
    SameQuotient(Number(a), Number(b), Pow2(k));
    OnePow();
    if k == 0 && SameBlock(a, b, k) { NumberInjective(a, b); }
  }

  /** All addresses of k bits are one block. */
  lemma WholeBlock(a: bv16, b: bv16, k: nat)
    requires Number(a) < Pow2(k) && Number(b) < Pow2(k)
    ensures SameBlock(a, b, k)
  {
    hide Number, Pow2;
  }

  lemma OnePow()
    ensures Pow2(0) == 1
  {
  }

  lemma {:induction false} PowSum(m: nat, k: nat)
    ensures Pow2(m + k) == Pow2(m) * Pow2(k)
    decreases m
  {
    if m > 0 { PowSum(m - 1, k); }
  }

  lemma SmallQuotient(n: nat, p: nat, q: nat)
    requires p > 0 && q > 0 && n < q * p
    ensures n / p < q && n / p % q == n / p
  {
    var d := n / p;
    assert p * d <= n;
    LessFactor(p, d, q);
  }

  lemma LessFactor(p: nat, d: nat, q: nat)
    requires p * d < q * p
    ensures d < q
  {
    Multiple(p, d - q);
    assert p * (d - q) == p * d - p * q;
  }

  /** For addresses of m + k bits a subnet is a block. */
  lemma SubnetIsBlock(a: bv16, b: bv16, m: nat, k: nat)
    requires Number(a) < Pow2(m + k) && Number(b) < Pow2(m + k)
    ensures SameSubnet(a, b, m, k) <==> SameBlock(a, b, k)
  {
    hide Number, Pow2;
    PowSum(m, k);
    SmallQuotient(Number(a), Pow2(k), Pow2(m));
    SmallQuotient(Number(b), Pow2(k), Pow2(m));
  }

  // ---- the last address of a block ----

  lemma {:induction false} LowIsLast(k: nat)
    requires k <= 16
    ensures Number(Low(k)) == Pow2(k) - 1
    decreases k
  {
    hide Number, Half, Odd, Ones;
    if k == 0 {
      ZeroNumber();
    } else {
      LowIsLast(k - 1);
      OnesHalf(Low(k - 1), k - 1);
      HalfNumber(Low(k));
    }
  }

  lemma OnesHalf(s: bv16, k: nat)
    requires s == Low(k) && k < 16
    ensures Half(Ones(s)) == s && Odd(Ones(s))
  {
    LowBits();
  }

  function Minus(a: bv16, b: bv16): bv16 {
    a - b
  }

  lemma ShortDifference(k: nat)
    requires k <= 5
    ensures Minus(HostMask(5), HostMask(k)) == SubnetMask(5 - k, k)
  {
    if k == 0 {
    } else if k == 1 {
    } else if k == 2 {
    } else if k == 3 {
    } else if k == 4 {
    } else {
      assert k == 5;
    }
  }

  lemma LongDifference(k: nat)
    requires k <= 14
    ensures Minus(HostMask(14), HostMask(k)) == SubnetMask(14 - k, k)
  {
    if k == 0 {
    } else if k == 1 {
    } else if k == 2 {
    } else if k == 3 {
    } else if k == 4 {
    } else if k == 5 {
    } else if k == 6 {
    } else if k == 7 {
    } else if k == 8 {
    } else if k == 9 {
    } else if k == 10 {
    } else if k == 11 {
    } else if k == 12 {
    } else if k == 13 {
    } else {
      assert k == 14;
    }
  }

  /** All host bits are set exactly in the last address of a block. */
  lemma LastExactly(a: bv16, k: nat)
    requires k <= 14
    ensures And(a, HostMask(k)) == HostMask(k) <==> Number(a) == First(a, k) + Pow2(k) - 1
  {
    hide And, HostMask, Number, Low, Pow2;
    LowIs(k);
    LowNumber(a, k);
    LowIsLast(k);
    var x := And(a, Low(k));
    if Number(x) == Number(Low(k)) { NumberInjective(x, Low(k)); }
  }

  lemma SameRemainder(x: nat, y: nat, p: nat)
    requires p > 0
    ensures x / p == y / p <==> x - x % p == y - y % p
  {
    assert x == p * (x / p) + x % p && y == p * (y / p) + y % p;
    SameQuotient(x, y, p);
  }

  lemma LastInBlock(a: bv16, b: bv16, k: nat)
    ensures Number(b) == First(b, k) + Pow2(k) - 1 && First(a, k) <= Number(b) < First(a, k) + Pow2(k)
            <==> Number(b) == First(a, k) + Pow2(k) - 1
  {
    hide Number, Pow2;
    SameQuotient(Number(a), Number(b), Pow2(k));
    SameRemainder(Number(a), Number(b), Pow2(k));
  }

  // ---- all numbers below 2^16 ----

  lemma NothingLeft(x: bv16)
    ensures Down(x, 16) == 0
  {
    FourDown(x);
    FourDown(Down(x, 4));
    FourDown(Down(Down(x, 4), 4));
    FourDown(Down(Down(Down(x, 4), 4), 4));
    DownTwice(x, 4, 12);
    DownTwice(Down(x, 4), 4, 8);
    DownTwice(Down(Down(x, 4), 4), 4, 4);
    hide Down;
    AllShifted(x);
  }

  lemma FourDown(x: bv16)
    ensures Down(x, 4) == x >> 4
  {
    hide Half;
    var y := Half(Half(x));
    assert Down(x, 3 + 1) == Down(Half(x), 3) == Down(y, 2) == Down(Half(y), 1) == Down(Half(Half(y)), 0);
    FourHalves(x);
  }

  lemma FourHalves(x: bv16)
    ensures Half(Half(Half(Half(x)))) == x >> 4
  {
    FourShifts(x);
  }

  lemma FourShifts(x: bv16)
    ensures (((x >> 1) >> 1) >> 1) >> 1 == x >> 4
  {
  }

  lemma AllShifted(x: bv16)
    ensures (((x >> 4) >> 4) >> 4) >> 4 == 0
  {
  }

  lemma {:induction false} DownTwice(x: bv16, a: nat, b: nat)
    ensures Down(Down(x, a), b) == Down(x, a + b)
    decreases a
  {
    if a > 0 { DownTwice(Half(x), a - 1, b); }
  }

  lemma SixteenBits()
    ensures Pow2(16) == 0x1_0000
  {
    PowSum(8, 8);
    PowSum(4, 4);
    assert Pow2(4) == 16;
  }

  lemma NumberBound(x: bv16)
    ensures Number(x) < 0x1_0000
  {
    hide Number, Down, Pow2;
    NothingLeft(x);
    ZeroNumber();
    DownNumber(x, 16);
    SixteenBits();
  }

  /** The address with a given number. */
  function Address(n: nat): bv16
    requires n < 0x1_0000
  {
    if n == 0 then 0 else Address(n - 1) + 1
  }

  lemma NextBits(x: bv16)
    requires x != 0xFFFF
    ensures x + 1 != 0 && Before(x + 1) == x
  {
  }

  lemma LastNumber()
    ensures Number(0xFFFF) == 0xFFFF
  {
    hide Number, Pow2, Low;
    LowBits();
    LowIsLast(16);
    SixteenBits();
  }

  lemma {:induction false} NumberAddress(n: nat)
    requires n < 0x1_0000
    ensures Number(Address(n)) == n
  {
    hide Number, Before;
    ZeroNumber();
    if n > 0 {
      NumberAddress(n - 1);
      LastNumber();
      NextBits(Address(n - 1));
      NumberNext(Address(n - 1) + 1);
    }
  }

  lemma AddressNumber(x: bv16)
    ensures Number(x) < 0x1_0000 && Address(Number(x)) == x
  {
    hide Number, Address;
    NumberBound(x);
    NumberAddress(Number(x));
    NumberInjective(Address(Number(x)), x);
  }
}
