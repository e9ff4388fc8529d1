/** The tables of the console's Keccak are the ones FIPS 202 computes. */
module KeccakTables {
  import opened KeccakWords
  import opened KeccakSpec
  import opened PowersOfTwo

  /** The table RNDC: the lower and the upper half. */
  function Rndc(r: nat): (nat, nat)
    requires r < 24
  {
    match r
    case 0 => (0x00000001, 0x00000000)
    case 1 => (0x00008082, 0x00000000)
    case 2 => (0x0000808a, 0x80000000)
    case 3 => (0x80008000, 0x80000000)
    case 4 => (0x0000808b, 0x00000000)
    case 5 => (0x80000001, 0x00000000)
    case 6 => (0x80008081, 0x80000000)
    case 7 => (0x00008009, 0x80000000)
    case 8 => (0x0000008a, 0x00000000)
    case 9 => (0x00000088, 0x00000000)
    case 10 => (0x80008009, 0x00000000)
    case 11 => (0x8000000a, 0x00000000)
    case 12 => (0x8000808b, 0x00000000)
    case 13 => (0x0000008b, 0x80000000)
    case 14 => (0x00008089, 0x80000000)
    case 15 => (0x00008003, 0x80000000)
    case 16 => (0x00008002, 0x80000000)
    case 17 => (0x00000080, 0x80000000)
    case 18 => (0x0000800a, 0x00000000)
    case 19 => (0x8000000a, 0x80000000)
    case 20 => (0x80008081, 0x80000000)
    case 21 => (0x00008080, 0x80000000)
    case 22 => (0x80000001, 0x00000000)
    case _ => (0x80008008, 0x80000000)
  }

  /** Bit i of a number. */
  function Digit(n: nat, i: nat): bool {
    if i == 0 then n % 2 == 1 else Digit(n / 2, i - 1)
  }

  /** The 32-bit pattern of a number. */
  function Pattern(n: nat): Word {
    seq(32, (i: nat) requires i < 32 => Digit(n, i))
  }

  // ---------- offsets ----------

  lemma WalkPositions()
    ensures Walk(0) == (1, 0) && Walk(1) == (0, 2) && Walk(2) == (2, 1) && Walk(3) == (1, 2)
    ensures Walk(4) == (2, 3) && Walk(5) == (3, 3) && Walk(6) == (3, 0) && Walk(7) == (0, 1)
    ensures Walk(8) == (1, 3) && Walk(9) == (3, 1) && Walk(10) == (1, 4) && Walk(11) == (4, 4)
    ensures Walk(12) == (4, 0) && Walk(13) == (0, 3) && Walk(14) == (3, 4) && Walk(15) == (4, 3)
    ensures Walk(16) == (3, 2) && Walk(17) == (2, 2) && Walk(18) == (2, 0) && Walk(19) == (0, 4)
    ensures Walk(20) == (4, 2) && Walk(21) == (2, 4) && Walk(22) == (4, 1) && Walk(23) == (1, 1)
  {
  }

  /** Algorithm 2 gives each lane it reaches the offset of the table. */
  lemma OffsetsFollowWalk(t: nat)
    requires t < 24
    ensures Position(t) < 25 && Offset(Position(t)) == (t + 1) * (t + 2) / 2 % 64
  {
    WalkPositions();
  }

  /** ... and it reaches every lane but lane 0, whose offset is 0. */
  lemma WalkReachesLane(i: nat) returns (t: nat)
    requires 0 < i < 25
    ensures t < 24 && Position(t) == i
  {
    WalkPositions();
    t := match i
      case 1 => 0 case 2 => 18 case 3 => 6 case 4 => 12 case 5 => 7 case 6 => 23
      case 7 => 2 case 8 => 9 case 9 => 22 case 10 => 1 case 11 => 3 case 12 => 17
      case 13 => 16 case 14 => 20 case 15 => 13 case 16 => 8 case 17 => 4 case 18 => 5
      case 19 => 15 case 20 => 19 case 21 => 10 case 22 => 21 case 23 => 14 case _ => 11;
  }

  // ---------- round constants ----------

  /** The register before each round. */
  function RegisterAt(r: nat): Register {
    match r
    case 0 => Register(true, false, false, false, false, false, false, false)
    case 1 => Register(false, false, false, false, false, false, false, true)
    case 2 => Register(false, false, false, true, true, false, true, true)
    case 3 => Register(false, true, false, true, true, false, false, false)
    case 4 => Register(true, true, true, true, true, false, true, true)
    case 5 => Register(true, false, false, true, false, false, false, false)
    case 6 => Register(true, false, true, false, true, true, false, false)
    case 7 => Register(true, true, true, true, false, false, true, false)
    case 8 => Register(false, true, false, true, false, false, true, true)
    case 9 => Register(false, false, false, false, true, true, true, false)
    case 10 => Register(true, false, false, false, false, false, true, false)
    case 11 => Register(false, false, true, true, false, true, true, true)
    case 12 => Register(true, false, true, false, true, false, true, true)
    case 13 => Register(true, false, true, true, false, false, true, true)
    case 14 => Register(true, true, false, false, false, true, true, false)
    case 15 => Register(true, true, false, true, false, true, false, true)
    case 16 => Register(false, true, false, true, false, true, false, true)
    case 17 => Register(false, true, false, true, false, true, false, false)
    case 18 => Register(false, true, false, false, true, true, true, true)
    case 19 => Register(false, false, false, true, false, true, true, true)
    case 20 => Register(true, true, true, false, true, true, false, false)
    case 21 => Register(false, true, true, true, true, true, false, false)
    case 22 => Register(true, true, false, true, false, false, false, false)
    case 23 => Register(false, false, true, false, false, false, true, false)
    case _ => Register(false, true, true, true, false, false, false, true)
  }

  function Value(b: bool): nat {
    if b then 1 else 0
  }

  /** Seven turns of the register take one round to the next and give the bits of the constant. */
  predicate Fits(x0: Register, after: Register, lo: nat, hi: nat) {
    var x1 := x0.Next();
    var x2 := x1.Next();
    var x3 := x2.Next();
    var x4 := x3.Next();
    var x5 := x4.Next();
    var x6 := x5.Next();
    && x6.Next() == after
    && lo == Value(x0.b0) + 2 * Value(x1.b0) + 8 * Value(x2.b0) + 128 * Value(x3.b0) + 0x8000 * Value(x4.b0)
             + 0x8000_0000 * Value(x5.b0)
    && hi == 0x8000_0000 * Value(x6.b0)
  }

  predicate RoundFits(r: nat)
    requires r < 24
  {
    Fits(RegisterAt(r), RegisterAt(r + 1), Rndc(r).0, Rndc(r).1)
  }

  lemma FirstRoundsFit(r: nat)
    requires 0 <= r < 6
    ensures RoundFits(r)
  {
    if r == 0 {
    } else if r == 1 {
    } else if r == 2 {
    } else if r == 3 {
    } else if r == 4 {
    } else {
    }
  }

  lemma SecondRoundsFit(r: nat)
    requires 6 <= r < 12
    ensures RoundFits(r)
  {
    if r == 6 {
    } else if r == 7 {
    } else if r == 8 {
    } else if r == 9 {
    } else if r == 10 {
    } else {
    }
  }

  lemma ThirdRoundsFit(r: nat)
    requires 12 <= r < 18
    ensures RoundFits(r)
  {
    if r == 12 {
    } else if r == 13 {
    } else if r == 14 {
    } else if r == 15 {
    } else if r == 16 {
    } else {
    }
  }

  lemma LastRoundsFit(r: nat)
    requires 18 <= r < 24
    ensures RoundFits(r)
  {
    if r == 18 {
    } else if r == 19 {
    } else if r == 20 {
    } else if r == 21 {
    } else if r == 22 {
    } else {
    }
  }

  lemma EveryRoundFits(r: nat)
    requires r < 24
    ensures RoundFits(r)
  {
    hide RoundFits;
    if r < 6 {
      FirstRoundsFit(r);
    } else if r < 12 {
      SecondRoundsFit(r);
    } else if r < 18 {
      ThirdRoundsFit(r);
    } else {
      LastRoundsFit(r);
    }
  }

  /** Seven turns, one by one. */
  lemma SevenTurns(t: nat)
    ensures Lfsr(t + 1) == Lfsr(t).Next() && Lfsr(t + 2) == Lfsr(t + 1).Next() && Lfsr(t + 3) == Lfsr(t + 2).Next()
    ensures Lfsr(t + 4) == Lfsr(t + 3).Next() && Lfsr(t + 5) == Lfsr(t + 4).Next() && Lfsr(t + 6) == Lfsr(t + 5).Next()
    ensures Lfsr(t + 7) == Lfsr(t + 6).Next()
  {
  }

  lemma {:induction false} RegistersFollowLfsr(r: nat)
    requires r <= 24
    ensures RegisterAt(r) == Lfsr(7 * r)
  {
    hide Rndc;
    if r > 0 {
      RegistersFollowLfsr(r - 1);
      EveryRoundFits(r - 1);
      SevenTurns(7 * (r - 1));
      hide RegisterAt, Lfsr;
    }
  }

  /** A low bit, then zeros up to position k, then the bits of m. */
  lemma {:induction false} DigitOfSum(b: bool, k: nat, p: nat, m: nat, z: nat)
    requires k > 0 && p == Pow2(k)
    ensures Digit(Value(b) + p * m, z) == if z == 0 then b else z >= k && Digit(m, z - k)
  {
    var q := Pow2(k - 1);
    assert p * m == 2 * (q * m);
    if z == 0 {
    } else if k == 1 {
      assert (Value(b) + p * m) / 2 == m;
    } else {
      assert (Value(b) + p * m) / 2 == Value(false) + q * m;
      DigitOfSum(false, k - 1, q, m, z - 1);
    }
  }

  lemma {:induction false} OneDigit(b: bool, z: nat)
    ensures Digit(Value(b), z) == (z == 0 && b)
  {
    DigitOfSum(b, z + 1, Pow2(z + 1), 0, z);
  }

  lemma UpperBit(b7: bool, b15: bool, b31: bool, z: nat)
    ensures Digit(Value(b7) + 256 * (Value(b15) + 65536 * Value(b31)), z)
         == if z == 0 then b7 else if z == 8 then b15 else z == 24 && b31
  {
    assert Pow2(8) == 256 && Pow2(16) == 65536;
    hide Digit, Value, Pow2;
    DigitOfSum(b7, 8, 256, Value(b15) + 65536 * Value(b31), z);
    if z >= 8 {
      DigitOfSum(b15, 16, 65536, Value(b31), z - 8);
    }
    if z >= 24 {
      OneDigit(b31, z - 24);
    }
  }

  lemma LowerBit(b0: bool, b1: bool, b3: bool, m: nat, z: nat)
    ensures Digit(Value(b0) + 2 * (Value(b1) + 4 * (Value(b3) + 16 * m)), z)
         == if z == 0 then b0 else if z == 1 then b1 else if z == 3 then b3 else z >= 7 && Digit(m, z - 7)
  {
    assert Pow2(1) == 2 && Pow2(2) == 4 && Pow2(4) == 16;
    hide Digit, Value, Pow2;
    DigitOfSum(b0, 1, 2, Value(b1) + 4 * (Value(b3) + 16 * m), z);
    if z >= 1 {
      DigitOfSum(b1, 2, 4, Value(b3) + 16 * m, z - 1);
    }
    if z >= 3 {
      DigitOfSum(b3, 4, 16, m, z - 3);
    }
  }

  /** The bits of a number that is a sum of the powers a round constant is made of. */
  lemma SparseBit(n: nat, b0: bool, b1: bool, b3: bool, b7: bool, b15: bool, b31: bool, z: nat)
    requires n == Value(b0) + 2 * Value(b1) + 8 * Value(b3) + 128 * Value(b7) + 0x8000 * Value(b15)
                  + 0x8000_0000 * Value(b31)
    ensures Digit(n, z) == if z == 0 then b0 else if z == 1 then b1 else if z == 3 then b3 else if z == 7 then b7
                           else if z == 15 then b15 else z == 31 && b31
  {
    hide Digit, Value;
    LowerBit(b0, b1, b3, Value(b7) + 256 * (Value(b15) + 65536 * Value(b31)), z);
    if z >= 7 {
      UpperBit(b7, b15, b31, z - 7);
    }
  }

  lemma HalvesFromLfsr(r: nat)
    requires r < 24
    ensures var t := 7 * r;
            && Rndc(r).0 == Value(Lfsr(t).b0) + 2 * Value(Lfsr(t + 1).b0) + 8 * Value(Lfsr(t + 2).b0)
                            + 128 * Value(Lfsr(t + 3).b0) + 0x8000 * Value(Lfsr(t + 4).b0)
                            + 0x8000_0000 * Value(Lfsr(t + 5).b0)
            && Rndc(r).1 == 0x8000_0000 * Value(Lfsr(t + 6).b0)
  {
    hide Rndc, RegisterAt, Lfsr, Value;
    EveryRoundFits(r);
    RegistersFollowLfsr(r);
    SevenTurns(7 * r);
  }

  /** Each entry of RNDC is the round constant of algorithm 5, split in two. */
  lemma RoundConstantsFollowLfsr(r: nat)
    requires r < 24
    ensures Join(Pattern(Rndc(r).0), Pattern(Rndc(r).1)) == RoundConstant(r)
  {
    hide Digit, Rndc, RoundConstant;
    forall z: nat | z < 32
      ensures Digit(Rndc(r).0, z) == RoundConstant(r)[z] && Digit(Rndc(r).1, z) == RoundConstant(r)[z + 32]
    {
      ConstantBits(r, z);
    }
  }

  lemma ConstantBits(r: nat, z: nat)
    requires r < 24 && z < 32
    ensures Digit(Rndc(r).0, z) == RoundConstant(r)[z] && Digit(Rndc(r).1, z) == RoundConstant(r)[z + 32]
  {
    hide Digit, Rndc, Lfsr, Value;
    var t := 7 * r;
    HalvesFromLfsr(r);
    NoBit();
    SparseBit(Rndc(r).0, Lfsr(t).b0, Lfsr(t + 1).b0, Lfsr(t + 2).b0, Lfsr(t + 3).b0, Lfsr(t + 4).b0, Lfsr(t + 5).b0, z);
    SparseBit(Rndc(r).1, false, false, false, false, false, Lfsr(t + 6).b0, z);
  }

  lemma NoBit()
    ensures Value(false) == 0
  {
  }
}
