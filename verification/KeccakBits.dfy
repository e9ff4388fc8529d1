/** What the steps of Keccak-f[1600] do to single bits, and that together they are a permutation. */
module KeccakBits {
  import opened KeccakWords
  import opened KeccakSpec

  /** The bit (x, y, z) of a state. */
  function Bit(a: Lanes, x: nat, y: nat, z: nat): bool
    requires x < 5 && y < 5 && z < 64
  {
    a[x + 5 * y][z]
  }

  ghost predicate SameBits(a: Lanes, b: Lanes) {
    forall x: nat, y: nat, z: nat | x < 5 && y < 5 && z < 64 :: Bit(a, x, y, z) == Bit(b, x, y, z)
  }

  lemma SameBitsSameState(a: Lanes, b: Lanes)
    requires SameBits(a, b)
    ensures a == b
  {
    forall i: nat | i < 25
      ensures a[i] == b[i]
    {
      forall z: nat | z < 64
        ensures a[i][z] == b[i][z]
      {
        assert Bit(a, i % 5, i / 5, z) == Bit(b, i % 5, i / 5, z);
      }
    }
  }

  // ---------- theta ----------

  /** The sum of the five bits of a column. */
  function Parity(a: Lanes, x: nat, z: nat): bool
    requires x < 5 && z < 64
  {
    (Bit(a, x, 0, z) != Bit(a, x, 1, z)) != (Bit(a, x, 2, z) != (Bit(a, x, 3, z) != Bit(a, x, 4, z)))
  }

  /** What theta adds to the bits of a column: the sums of the column before it and of the one after it and one
      place down. */
  function Neighbours(a: Lanes, x: nat, z: nat): bool
    requires x < 5 && z < 64
  {
    Parity(a, (x + 4) % 5, z) != Parity(a, (x + 1) % 5, (z + 63) % 64)
  }

  lemma ColumnBit(a: Lanes, x: nat, z: nat)
    requires x < 5 && z < 64
    ensures Column(a, x)[z] == Parity(a, x, z)
  {
  }

  lemma EffectBit(a: Lanes, x: nat, z: nat)
    requires x < 5 && z < 64
    ensures ThetaEffect(a, x)[z] == Neighbours(a, x, z)
  {
    hide Column, Parity;
    ColumnBit(a, (x + 4) % 5, z);
    ColumnBit(a, (x + 1) % 5, (z + 63) % 64);
    assert (z - 1) % 64 == (z + 63) % 64;
  }

  lemma ThetaBit(a: Lanes, x: nat, y: nat, z: nat)
    requires x < 5 && y < 5 && z < 64
    ensures Bit(Theta(a), x, y, z) == (Bit(a, x, y, z) != Neighbours(a, x, z))
  {
    hide ThetaEffect, Neighbours;
    EffectBit(a, x, z);
    assert (x + 5 * y) % 5 == x;
  }

  /** The states differ in exactly this bit. */
  ghost predicate DifferAt(a: Lanes, b: Lanes, x: nat, y: nat, z: nat) {
    forall u: nat, v: nat, w: nat | u < 5 && v < 5 && w < 64 ::
      Bit(a, u, v, w) != Bit(b, u, v, w) <==> u == x && v == y && w == z
  }

  lemma ParityFlips(a: Lanes, b: Lanes, x: nat, y: nat, z: nat, u: nat, w: nat)
    requires x < 5 && y < 5 && z < 64 && DifferAt(a, b, x, y, z) && u < 5 && w < 64
    ensures Parity(a, u, w) != Parity(b, u, w) <==> u == x && w == z
  {
    hide Bit;
  }

  /** Theta leaves the zero state alone. */
  lemma ThetaOfZero()
    ensures Theta(Start()) == Start()
  {
    hide Theta, Neighbours;
    forall x: nat, y: nat, z: nat | x < 5 && y < 5 && z < 64
      ensures Bit(Theta(Start()), x, y, z) == Bit(Start(), x, y, z)
    {
      ThetaBit(Start(), x, y, z);
      NoNeighbours(x, z);
    }
    SameBitsSameState(Theta(Start()), Start());
  }

  lemma NoNeighbours(x: nat, z: nat)
    requires x < 5 && z < 64
    ensures !Neighbours(Start(), x, z)
  {
  }

  /** Flipping one bit before theta flips after it exactly that bit, the five bits of the next column and the
      five of the column before and one place up. With the zero state this fixes theta. */
  lemma ThetaFlips(a: Lanes, b: Lanes, x: nat, y: nat, z: nat)
    requires x < 5 && y < 5 && z < 64 && DifferAt(a, b, x, y, z)
    ensures forall u: nat, v: nat, w: nat | u < 5 && v < 5 && w < 64 ::
              (Bit(Theta(a), u, v, w) != Bit(Theta(b), u, v, w)
               <==> || (u == x && v == y && w == z)
                    || (u == (x + 1) % 5 && w == z)
                    || (u == (x + 4) % 5 && w == (z + 1) % 64))
  {
    hide Theta, Bit, Parity, DifferAt;
    forall u: nat, v: nat, w: nat | u < 5 && v < 5 && w < 64
      ensures Bit(Theta(a), u, v, w) != Bit(Theta(b), u, v, w)
         <==> || (u == x && v == y && w == z)
              || (u == (x + 1) % 5 && w == z)
              || (u == (x + 4) % 5 && w == (z + 1) % 64)
    {
      ThetaBit(a, u, v, w);
      ThetaBit(b, u, v, w);
      ParityFlips(a, b, x, y, z, (u + 4) % 5, w);
      ParityFlips(a, b, x, y, z, (u + 1) % 5, (w + 63) % 64);
      OneBit(a, b, x, y, z, u, v, w);
    }
  }

  lemma OneBit(a: Lanes, b: Lanes, x: nat, y: nat, z: nat, u: nat, v: nat, w: nat)
    requires DifferAt(a, b, x, y, z) && u < 5 && v < 5 && w < 64
    ensures Bit(a, u, v, w) != Bit(b, u, v, w) <==> u == x && v == y && w == z
  {
    hide Bit;
  }

  // ---------- the other steps ----------

  lemma RhoBit(a: Lanes, x: nat, y: nat, z: nat)
    requires x < 5 && y < 5 && z < 64
    ensures Bit(Rho(a), x, y, (z + Offset(x + 5 * y)) % 64) == Bit(a, x, y, z)
  {
    hide Offset;
    var n := Offset(x + 5 * y);
    assert ((z + n) % 64 - n) % 64 == z;
  }

  /** The lane at (x, y) moves to (y, 2 * x + 3 * y). */
  lemma PiBit(a: Lanes, x: nat, y: nat, z: nat)
    requires x < 5 && y < 5 && z < 64
    ensures Bit(Pi(a), y, (2 * x + 3 * y) % 5, z) == Bit(a, x, y, z)
  {
    TargetLane(x, y);
  }

  lemma TargetLane(x: nat, y: nat)
    requires x < 5 && y < 5
    ensures var row := (2 * x + 3 * y) % 5;
            (y + 5 * row) % 5 == y && (y + 5 * row) / 5 == row && (y + 3 * row) % 5 == x
  {
    var q, row := (2 * x + 3 * y) / 5, (2 * x + 3 * y) % 5;
    assert y + 3 * row == 5 * (x + 2 * y - 3 * q) + x;
  }

  lemma ChiBit(a: Lanes, x: nat, y: nat, z: nat)
    requires x < 5 && y < 5 && z < 64
    ensures Bit(Chi(a), x, y, z)
         == (Bit(a, x, y, z) != (!Bit(a, (x + 1) % 5, y, z) && Bit(a, (x + 2) % 5, y, z)))
  {
    assert (x + 5 * y) % 5 == x && (x + 5 * y) / 5 == y;
  }

  lemma IotaBit(a: Lanes, round: nat, x: nat, y: nat, z: nat)
    requires x < 5 && y < 5 && z < 64
    ensures Bit(Iota(a, round), x, y, z) == (Bit(a, x, y, z) != (x == 0 && y == 0 && RoundConstant(round)[z]))
  {
    hide RoundConstant;
  }

  // ---------- one round ----------

  /** The bit that rho and pi bring to (x, y, z), after theta. */
  function Brought(a: Lanes, x: nat, y: nat, z: nat): bool
    requires x < 5 && y < 5 && z < 64
  {
    var u := (x + 3 * y) % 5;
    var w := (z - Offset(u + 5 * x)) % 64;
    Bit(a, u, x, w) != Neighbours(a, u, w)
  }

  lemma BroughtIsPiRhoTheta(a: Lanes, x: nat, y: nat, z: nat)
    requires x < 5 && y < 5 && z < 64
    ensures Bit(Pi(Rho(Theta(a))), x, y, z) == Brought(a, x, y, z)
  {
    hide Theta, Bit, Rho, Pi, Offset, Neighbours;
    var u := (x + 3 * y) % 5;
    var n := Offset(u + 5 * x);
    var w := (z - n) % 64;
    BackToRow(x, y);
    Modulo64(z - n, n);
    ThetaBit(a, u, x, w);
    RhoBit(Theta(a), u, x, w);
    PiBit(Rho(Theta(a)), u, x, z);
  }

  lemma BackToRow(x: nat, y: nat)
    requires y < 5
    ensures (2 * ((x + 3 * y) % 5) + 3 * x) % 5 == y
  {
    var q := (x + 3 * y) / 5;
    assert 2 * ((x + 3 * y) % 5) + 3 * x == 5 * (x + y - 2 * q) + y;
  }

  /** A whole round on bits. */
  lemma RoundBit(a: Lanes, round: nat, x: nat, y: nat, z: nat)
    requires x < 5 && y < 5 && z < 64
    ensures Bit(Round(a, round), x, y, z)
         == ((Brought(a, x, y, z) != (!Brought(a, (x + 1) % 5, y, z) && Brought(a, (x + 2) % 5, y, z)))
             != (x == 0 && y == 0 && RoundConstant(round)[z]))
  {
    hide Theta, Rho, Pi, Chi, Iota, Bit, Brought, RoundConstant;
    var b := Pi(Rho(Theta(a)));
    BroughtIsPiRhoTheta(a, x, y, z);
    BroughtIsPiRhoTheta(a, (x + 1) % 5, y, z);
    BroughtIsPiRhoTheta(a, (x + 2) % 5, y, z);
    ChiBit(b, x, y, z);
    IotaBit(Chi(b), round, x, y, z);
  }

  /** Keccak-f is the rounds 0 to 23 in this order. */
  lemma TwentyFourRounds(a: Lanes) returns (states: seq<Lanes>)
    ensures |states| == 25 && states[0] == a && states[24] == KeccakF(a)
    ensures forall r | 0 <= r < 24 :: states[r + 1] == Round(states[r], r)
  {
    hide Round;
    states := [a];
    for r := 0 to 24
      invariant |states| == r + 1 && states[0] == a && states[r] == Rounds(a, r)
      invariant forall q | 0 <= q < r :: states[q + 1] == Round(states[q], q)
    {
      states := states + [Round(states[r], r)];
    }
  }

  // ---------- Keccak-f is a permutation ----------

  /** The sums of column (x, z) in both states differ. */
  predicate Delta(a: Lanes, b: Lanes, x: nat, z: nat)
    requires x < 5 && z < 64
  {
    Parity(a, x, z) != Parity(b, x, z)
  }

  /** If theta takes both states to one, the difference of their column sums is what the neighbours add, ... */
  lemma DeltaOfNeighbours(a: Lanes, b: Lanes, x: nat, z: nat)
    requires Theta(a) == Theta(b) && x < 5 && z < 64
    ensures Delta(a, b, x, z) == (Delta(a, b, (x + 4) % 5, z) != Delta(a, b, (x + 1) % 5, (z + 63) % 64))
  {
    hide Theta, Bit, Neighbours;
    forall y: nat | y < 5
      ensures (Bit(a, x, y, z) != Bit(b, x, y, z)) == (Neighbours(a, x, z) != Neighbours(b, x, z))
    {
      ThetaBit(a, x, y, z);
      ThetaBit(b, x, y, z);
    }
    SumOfFive(a, b, x, z, Neighbours(a, x, z) != Neighbours(b, x, z));
    NeighboursDiffer(a, b, x, z);
  }

  lemma SumOfFive(a: Lanes, b: Lanes, x: nat, z: nat, d: bool)
    requires x < 5 && z < 64
    requires forall y: nat | y < 5 :: (Bit(a, x, y, z) != Bit(b, x, y, z)) == d
    ensures Delta(a, b, x, z) == d
  {
    hide Bit;
  }

  lemma NeighboursDiffer(a: Lanes, b: Lanes, x: nat, z: nat)
    requires x < 5 && z < 64
    ensures (Neighbours(a, x, z) != Neighbours(b, x, z))
         == (Delta(a, b, (x + 4) % 5, z) != Delta(a, b, (x + 1) % 5, (z + 63) % 64))
  {
    hide Parity;
  }

  /** The same on columns and places counted around. */
  predicate Around(a: Lanes, b: Lanes, x: int, z: int) {
    Delta(a, b, x % 5, z % 64)
  }

  /** ... and so over any power of two of columns and places, by adding the equation to itself. */
  lemma {:induction false} DeltaOfDistant(a: Lanes, b: Lanes, k: nat, x: int, z: int)
    requires Theta(a) == Theta(b) && k in {1, 2, 4, 8, 16, 32, 64}
    ensures Around(a, b, x, z) == (Around(a, b, x - k, z) != Around(a, b, x + k, z - k))
    decreases k
  {
    hide Theta, Delta, Around;
    if k == 1 {
      DeltaAround(a, b, x, z);
    } else {
      var h := k / 2;
      DeltaOfDistant(a, b, h, x, z);
      DeltaOfDistant(a, b, h, x - h, z);
      DeltaOfDistant(a, b, h, x + h, z - h);
    }
  }

  lemma DeltaAround(a: Lanes, b: Lanes, x: int, z: int)
    requires Theta(a) == Theta(b)
    ensures Around(a, b, x, z) == (Around(a, b, x - 1, z) != Around(a, b, x + 1, z - 1))
  {
    hide Theta, Delta;
    DeltaOfNeighbours(a, b, x % 5, z % 64);
    Modulo5(x, 4);
    Modulo5(x, 1);
    Modulo64(z, 63);
    assert (x + 4) % 5 == (x - 1) % 5 && (z + 63) % 64 == (z - 1) % 64;
  }

  lemma Modulo5(m: int, n: int)
    ensures (m % 5 + n) % 5 == (m + n) % 5
  {
  }

  lemma Modulo64(m: int, n: int)
    ensures (m % 64 + n) % 64 == (m + n) % 64
  {
  }

  /** After 64 places one is back, so the difference is the sum of those of both neighbours at the same place. */
  lemma DeltaOfBoth(a: Lanes, b: Lanes, x: nat, z: nat)
    requires Theta(a) == Theta(b) && x < 5 && z < 64
    ensures Delta(a, b, x, z) == (Delta(a, b, (x + 1) % 5, z) != Delta(a, b, (x + 4) % 5, z))
  {
    hide Theta, Delta;
    DeltaOfDistant(a, b, 64, x, z);
    SixtyFour(x, z);
    assert x % 5 == x && z % 64 == z;
  }

  lemma SixtyFour(x: nat, z: nat)
    requires z < 64
    ensures (x - 64) % 5 == (x + 1) % 5 && (x + 64) % 5 == (x + 4) % 5 && (z - 64) % 64 == z
  {
  }

  /** Only zero solves the five equations of one place. */
  lemma NoDelta(a: Lanes, b: Lanes, x: nat, z: nat)
    requires Theta(a) == Theta(b) && x < 5 && z < 64
    ensures !Delta(a, b, x, z)
  {
    hide Theta, Delta;
    DeltaOfBoth(a, b, 0, z);
    DeltaOfBoth(a, b, 1, z);
    DeltaOfBoth(a, b, 2, z);
    DeltaOfBoth(a, b, 3, z);
    DeltaOfBoth(a, b, 4, z);
    FiveEquations(Delta(a, b, 0, z), Delta(a, b, 1, z), Delta(a, b, 2, z), Delta(a, b, 3, z), Delta(a, b, 4, z));
  }

  lemma FiveEquations(d0: bool, d1: bool, d2: bool, d3: bool, d4: bool)
    requires d0 == (d1 != d4) && d1 == (d2 != d0) && d2 == (d3 != d1) && d3 == (d4 != d2) && d4 == (d0 != d3)
    ensures !d0 && !d1 && !d2 && !d3 && !d4
  {
  }

  lemma ThetaInjective(a: Lanes, b: Lanes)
    requires Theta(a) == Theta(b)
    ensures a == b
  {
    hide Theta, Bit, Neighbours, Delta;
    forall x: nat, y: nat, z: nat | x < 5 && y < 5 && z < 64
      ensures Bit(a, x, y, z) == Bit(b, x, y, z)
    {
      ThetaBit(a, x, y, z);
      ThetaBit(b, x, y, z);
      NeighboursDiffer(a, b, x, z);
      NoDelta(a, b, (x + 4) % 5, z);
      NoDelta(a, b, (x + 1) % 5, (z + 63) % 64);
    }
    SameBitsSameState(a, b);
  }

  lemma RhoInjective(a: Lanes, b: Lanes)
    requires Rho(a) == Rho(b)
    ensures a == b
  {
    hide Rho, Bit, Offset;
    forall x: nat, y: nat, z: nat | x < 5 && y < 5 && z < 64
      ensures Bit(a, x, y, z) == Bit(b, x, y, z)
    {
      RhoBit(a, x, y, z);
      RhoBit(b, x, y, z);
    }
    SameBitsSameState(a, b);
  }

  lemma PiInjective(a: Lanes, b: Lanes)
    requires Pi(a) == Pi(b)
    ensures a == b
  {
    hide Pi, Bit;
    forall x: nat, y: nat, z: nat | x < 5 && y < 5 && z < 64
      ensures Bit(a, x, y, z) == Bit(b, x, y, z)
    {
      PiBit(a, x, y, z);
      PiBit(b, x, y, z);
    }
    SameBitsSameState(a, b);
  }

  lemma ChiInjective(a: Lanes, b: Lanes)
    requires Chi(a) == Chi(b)
    ensures a == b
  {
    hide Chi, Bit;
    forall x: nat, y: nat, z: nat | x < 5 && y < 5 && z < 64
      ensures Bit(a, x, y, z) == Bit(b, x, y, z)
    {
      ChiRow(a, b, y, z);
    }
    SameBitsSameState(a, b);
  }

  /** The five equations of one row have one solution. */
  lemma ChiRow(a: Lanes, b: Lanes, y: nat, z: nat)
    requires Chi(a) == Chi(b) && y < 5 && z < 64
    ensures forall x: nat | x < 5 :: Bit(a, x, y, z) == Bit(b, x, y, z)
  {
    hide Chi, Bit;
    ChiBit(a, 0, y, z);
    ChiBit(a, 1, y, z);
    ChiBit(a, 2, y, z);
    ChiBit(a, 3, y, z);
    ChiBit(a, 4, y, z);
    ChiBit(b, 0, y, z);
    ChiBit(b, 1, y, z);
    ChiBit(b, 2, y, z);
    ChiBit(b, 3, y, z);
    ChiBit(b, 4, y, z);
  }

  lemma IotaInjective(a: Lanes, b: Lanes, round: nat)
    requires Iota(a, round) == Iota(b, round)
    ensures a == b
  {
    hide Iota, Bit, RoundConstant;
    forall x: nat, y: nat, z: nat | x < 5 && y < 5 && z < 64
      ensures Bit(a, x, y, z) == Bit(b, x, y, z)
    {
      IotaBit(a, round, x, y, z);
      IotaBit(b, round, x, y, z);
    }
    SameBitsSameState(a, b);
  }

  lemma RoundInjective(a: Lanes, b: Lanes, round: nat)
    requires Round(a, round) == Round(b, round)
    ensures a == b
  {
    hide Theta, Rho, Pi, Chi, Iota;
    IotaInjective(Chi(Pi(Rho(Theta(a)))), Chi(Pi(Rho(Theta(b)))), round);
    ChiInjective(Pi(Rho(Theta(a))), Pi(Rho(Theta(b))));
    PiInjective(Rho(Theta(a)), Rho(Theta(b)));
    RhoInjective(Theta(a), Theta(b));
    ThetaInjective(a, b);
  }

  lemma {:induction false} RoundsInjective(a: Lanes, b: Lanes, n: nat)
    requires Rounds(a, n) == Rounds(b, n)
    ensures a == b
  {
    hide Round;
    if n > 0 {
      RoundInjective(Rounds(a, n - 1), Rounds(b, n - 1), n - 1);
      RoundsInjective(a, b, n - 1);
    }
  }

  /** Keccak-f never takes two states to one; as there are finitely many, it is a permutation of them. */
  lemma KeccakFIsPermutation(a: Lanes, b: Lanes)
    requires KeccakF(a) == KeccakF(b)
    ensures a == b
  {
    RoundsInjective(a, b, 24);
  }

  // ---------- padding and sponge ----------

  /** The message, a one, zeros and a one, in the least number of whole blocks that it takes. */
  lemma PadShape(m: Bits)
    ensures var p := Pad(m);
            && |p| % 1088 == 0 && |m| + 2 <= |p| < |m| + 2 + 1088
            && p[..|m|] == m && p[|m|] && p[|p| - 1] && forall i | |m| < i < |p| - 1 :: !p[i]
  {
  }

  /** Absorbing one block flips the bits of the state at the ones of the block, lane after lane, and then
      permutes; blocks are absorbed one after the other. */
  lemma AbsorbFirst(f: Lanes -> Lanes, a: Lanes, p: Bits, q: Bits, b: Lanes)
    requires |p| == 1088 && |q| % 1088 == 0
    requires forall x: nat, y: nat, z: nat | x < 5 && y < 5 && z < 64 ::
               var k := 64 * (x + 5 * y) + z;
               Bit(b, x, y, z) == (Bit(a, x, y, z) != (k < 1088 && p[k]))
    ensures Absorb(f, a, []) == a && Absorb(f, a, p + q) == Absorb(f, f(b), q)
  {
    assert (p + q)[..1088] == p && (p + q)[1088..] == q;
    forall x: nat, y: nat, z: nat | x < 5 && y < 5 && z < 64
      ensures Bit(XorBlock(a, p), x, y, z) == Bit(b, x, y, z)
    {
      BlockBit(a, p, x, y, z);
    }
    SameBitsSameState(XorBlock(a, p), b);
  }

  lemma BlockBit(a: Lanes, p: Bits, x: nat, y: nat, z: nat)
    requires |p| == 1088 && x < 5 && y < 5 && z < 64
    ensures var k := 64 * (x + 5 * y) + z;
            Bit(XorBlock(a, p), x, y, z) == (Bit(a, x, y, z) != (k < 1088 && p[k]))
  {
  }

  /** The digest starts from the zero state and is read off the first lanes. */
  lemma DigestBits(f: Lanes -> Lanes, p: Bits, k: nat)
    requires |p| % 1088 == 0 && k < 256
    ensures forall x: nat, y: nat, z: nat | x < 5 && y < 5 && z < 64 :: !Bit(Start(), x, y, z)
    ensures |Sponge(f, p)| == 256 && Sponge(f, p)[k] == Bit(Absorb(f, Start(), p), k / 64, 0, k % 64)
  {
    hide Absorb, Start;
    StartBits();
    var a: seq<Bits> := Absorb(f, Start(), p);
    assert Sponge(f, p) == a[0] + a[1] + a[2] + a[3];
  }

  lemma StartBits()
    ensures forall x: nat, y: nat, z: nat | x < 5 && y < 5 && z < 64 :: !Bit(Start(), x, y, z)
  {
  }
}
