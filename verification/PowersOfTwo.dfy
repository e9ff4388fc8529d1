/** Powers of two, the split point k of RFC 6962, and the 32-bit shifts the code uses to find it. */
module PowersOfTwo {

  function Pow2(e: nat): (p: nat)
    ensures p >= 1
  {
    if e == 0 then 1 else 2 * Pow2(e - 1)
  }

  /** `x` shifted right by `e` bits. */
  function Shr(x: nat, e: nat): nat {
    if e == 0 then x else Shr(x / 2, e - 1)
  }

  predicate IsPow2(m: nat) {
    m == 1 || (m > 1 && m % 2 == 0 && IsPow2(m / 2))
  }

  lemma Pow2Step(e: nat)
    ensures Pow2(e) == if e == 0 then 1 else 2 * Pow2(e - 1)
  {
  }

  lemma {:induction false} IsPow2Exponent(m: nat) returns (e: nat)
    requires IsPow2(m)
    ensures m == Pow2(e)
  {
    if m == 1 {
      e := 0;
    } else {
      var d := IsPow2Exponent(m / 2);
      e := d + 1;
    }
  }

  lemma {:induction false} Pow2IsPow2(e: nat)
    ensures IsPow2(Pow2(e))
  {
    if e > 0 {
      Pow2IsPow2(e - 1);
    }
  }

  lemma {:induction false} Pow2Monotone(d: nat, e: nat)
    requires d <= e
    ensures Pow2(d) <= Pow2(e)
    ensures d < e ==> 2 * Pow2(d) <= Pow2(e)
  {
    if d < e {
      Pow2Monotone(d, e - 1);
    }
  }

  /** The exponent of the split point: the one e with 2^e < n <= 2^(e+1). */
  function SplitExp(n: nat): (e: nat)
    requires n >= 2
    ensures Pow2(e) < n <= Pow2(e + 1)
  {
    if n == 2 then 0 else SplitExp((n + 1) / 2) + 1
  }

  /** The largest power of two strictly below n (section 2.1 of RFC 6962). */
  function Split(n: nat): (k: nat)
    requires n >= 2
    ensures 0 < k < n <= 2 * k
  {
    Pow2(SplitExp(n))
  }

  lemma SplitUnique(n: nat, e: nat)
    requires n >= 2 && Pow2(e) < n <= Pow2(e + 1)
    ensures SplitExp(n) == e && Split(n) == Pow2(e)
  {
    var d := SplitExp(n);
    if d < e {
      Pow2Monotone(d + 1, e);
    } else if e < d {
      Pow2Monotone(e + 1, d);
    }
  }

  /** The split point really is the largest power of two below n. */
  lemma SplitIsLargest(n: nat, p: nat)
    requires n >= 2 && IsPow2(p) && p < n
    ensures IsPow2(Split(n)) && p <= Split(n) < n
  {
    Pow2IsPow2(SplitExp(n));
    var e := IsPow2Exponent(p);
    if SplitExp(n) < e {
      Pow2Monotone(SplitExp(n) + 1, e);
    } else {
      Pow2Monotone(e, SplitExp(n));
    }
  }

  lemma {:induction false} ShrSmall(x: nat, e: nat)
    ensures Shr(x, e) == 0 <==> x < Pow2(e)
    ensures Shr(x, e) == 1 <==> Pow2(e) <= x < 2 * Pow2(e)
  {
    if e > 0 {
      ShrSmall(x / 2, e - 1);
    }
  }

  lemma {:induction false} ShrStep(x: nat, e: nat)
    ensures Shr(x, e + 1) == Shr(x, e) / 2
  {
    if e > 0 {
      ShrStep(x / 2, e - 1);
    }
  }

  // ---------- JavaScript's 32-bit integer operators ----------

  const TWO_31: int := 0x8000_0000
  const TWO_32: int := 0x1_0000_0000

  /** The signed 32-bit value a number is reduced to before a bit operation. */
  function ToInt32(x: int): (r: int)
    ensures -TWO_31 <= x < TWO_31 ==> r == x
    ensures -TWO_31 <= r < TWO_31
    ensures r % 2 == x % 2
  {
    var u := x % TWO_32;
    assert x == 2 * (TWO_31 * (x / TWO_32)) + u;
    if u >= TWO_31 then u - TWO_32 else u
  }

  /** `x << 1` */
  function ShiftLeft1(x: int): int {
    ToInt32(2 * ToInt32(x))
  }

  /** `x >> 1`, which keeps the sign: Dafny's division by two rounds down, as that shift does. */
  function ShiftRight1(x: int): (r: int)
    ensures -TWO_31 <= x < TWO_31 ==> r == x / 2
  {
    ToInt32(x) / 2
  }

  /** `x >>> 1`, which does not. */
  function UnsignedShiftRight1(x: int): (r: int)
    ensures 0 <= x < TWO_32 ==> r == x / 2
  {
    (x % TWO_32) / 2
  }

  /** `x & 1` */
  function LowBit(x: int): (r: int)
    ensures r == x % 2
  {
    ToInt32(x) % 2
  }

  /** Bitwise and of two numbers without sign bit, bit by bit from the lowest. */
  function And(a: nat, b: nat): nat {
    if a == 0 || b == 0 then 0 else (a % 2) * (b % 2) + 2 * And(a / 2, b / 2)
  }

  /** The 32 bits of `x & y`, for numbers of any sign. */
  function BitAnd(x: int, y: int): nat {
    And(x % TWO_32, y % TWO_32)
  }

  lemma {:induction false} AndSelf(a: nat)
    ensures And(a, a) == a
  {
    if a > 0 {
      AndSelf(a / 2);
      if a % 2 == 1 {
        assert (a % 2) * (a % 2) == 1;
      }
    }
  }

  /** The power-of-two test of both verifiers: m & (m - 1) is zero. */
  lemma {:induction false} PowerOfTwoTest(m: nat)
    requires m > 0
    ensures And(m, m - 1) == 0 <==> IsPow2(m)
  {
    if m > 1 {
      if m % 2 == 0 {
        assert (m - 1) / 2 == m / 2 - 1;
        assert (m % 2) * ((m - 1) % 2) == 0;
        PowerOfTwoTest(m / 2);
      } else {
        assert (m - 1) / 2 == m / 2;
        AndSelf(m / 2);
        assert (m % 2) * ((m - 1) % 2) == 0;
      }
    }
  }

  /** The same test on a negative number: only -2^31 has a single bit. */
  lemma PowerOfTwoTestBelowZero(m: int)
    requires -TWO_31 <= m < 0
    ensures BitAnd(m, m - 1) == 0 <==> m == -TWO_31
  {
    hide And, IsPow2;
    var u := m + TWO_32;
    assert m % TWO_32 == u && (m - 1) % TWO_32 == u - 1;
    PowerOfTwoTest(u);
    Pow2ThirtyOne();
    Pow2IsPow2(31);
    if IsPow2(u) {
      var e := IsPow2Exponent(u);
      if e < 31 {
        Pow2Monotone(e, 31);
      } else if e > 31 {
        Pow2Monotone(31, e);
      }
    }
  }

  lemma Pow2Thirty()
    ensures Pow2(30) == 0x4000_0000
  {
    assert Pow2(10) == 1024;
    assert Pow2(20) == 1024 * Pow2(10);
    assert Pow2(30) == 1024 * Pow2(20);
  }

  lemma Pow2ThirtyOne()
    ensures Pow2(31) == TWO_31
  {
    Pow2Thirty();
  }

  // ---------- the k loop of the transparency log ----------

  datatype KResult = Undefined | Found(k: nat)

  /** The loop of the source. Above 2^30 it does not end: see KLoopEnds. */
  method LargestPowerOfTwoSmallerThan(n: int) returns (r: KResult)
    requires n <= 0x4000_0000
    ensures n < 2 ==> r == Undefined
    ensures n >= 2 ==> r == Found(Split(n))
  {
    if n < 2 {
      return Undefined;
    }
    var k := 1;
    ghost var e := 0;
    while ShiftLeft1(k) < n
      invariant k == Pow2(e) && 1 <= k < n
      decreases n - k
    {
      k := ShiftLeft1(k);
      e := e + 1;
    }
    SplitUnique(n, e);
    return Found(k);
  }

  /** The value of k after i rounds of that loop. */
  function KAfter(i: nat): int {
    if i == 0 then 1 else ShiftLeft1(KAfter(i - 1))
  }

  lemma {:induction false} KAfterDoubles(i: nat)
    requires i <= 30
    ensures KAfter(i) == Pow2(i) <= 0x4000_0000
  {
    Pow2Thirty();
    Pow2Monotone(i, 30);
    if i > 0 {
      KAfterDoubles(i - 1);
    }
  }

  lemma ShiftLeftOverflows()
    ensures ShiftLeft1(0x4000_0000) == -TWO_31
    ensures ShiftLeft1(-TWO_31) == 0
    ensures ShiftLeft1(0) == 0
  {
  }

  lemma {:induction false} KAfterOverflows(i: nat)
    requires i > 30
    ensures KAfter(i) == if i == 31 then -TWO_31 else 0
  {
    ShiftLeftOverflows();
    if i == 31 {
      KAfterLast(i - 1);
    } else {
      KAfterOverflows(i - 1);
    }
  }

  lemma KAfterLast(i: nat)
    requires i == 30
    ensures KAfter(i) == 0x4000_0000
  {
    KAfterDoubles(i);
    Pow2Thirty();
  }

  /** The loop guard ever turns false exactly for n up to 2^30. */
  lemma KLoopEnds(n: int)
    ensures (exists i: nat :: ShiftLeft1(KAfter(i)) >= n) <==> n <= 0x4000_0000
  {
    forall i: nat
      ensures ShiftLeft1(KAfter(i)) <= 0x4000_0000
    {
      assert KAfter(i + 1) == ShiftLeft1(KAfter(i));
      if i + 1 <= 30 {
        KAfterDoubles(i + 1);
      } else {
        KAfterOverflows(i + 1);
      }
    }
    KAfterLast(30);
    assert ShiftLeft1(KAfter(29)) == KAfter(30);
  }
}
