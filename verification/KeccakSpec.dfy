/** Keccak-f[1600] and the sponge with rate 1088, on bit strings, as sections 3 to 5 of FIPS 202 give them. */
module KeccakSpec {
  import opened KeccakWords

  /** Lane x + 5 * y is the lane at (x, y). */
  type Lanes = a: seq<Lane> | |a| == 25 witness seq(25, (i: nat) => Zeros(64))

  // ---------- the five steps, section 3.2 ----------

  function Column(a: Lanes, x: nat): Lane
    requires x < 5
  {
    Xor(Xor(Xor(Xor(a[x], a[x + 5]), a[x + 10]), a[x + 15]), a[x + 20])
  }

  function Theta(a: Lanes): Lanes {
    seq(25, (i: nat) requires i < 25 => ThetaLane(a, i))
  }

  function ThetaLane(a: Lanes, i: nat): Lane
    requires i < 25
  {
    Xor(a[i], ThetaEffect(a, i % 5))
  }

  function ThetaEffect(a: Lanes, x: nat): Lane
    requires x < 5
  {
    Xor(Column(a, (x + 4) % 5), Rot(Column(a, (x + 1) % 5), 1))
  }

  function Offset(i: nat): (n: nat)
    requires i < 25
    ensures n < 64
  {
    match i
    case 0 => 0
    case 1 => 1
    case 2 => 62
    case 3 => 28
    case 4 => 27
    case 5 => 36
    case 6 => 44
    case 7 => 6
    case 8 => 55
    case 9 => 20
    case 10 => 3
    case 11 => 10
    case 12 => 43
    case 13 => 25
    case 14 => 39
    case 15 => 41
    case 16 => 45
    case 17 => 15
    case 18 => 21
    case 19 => 8
    case 20 => 18
    case 21 => 2
    case 22 => 61
    case 23 => 56
    case _ => 14
  }

  function Rho(a: Lanes): Lanes {
    seq(25, (i: nat) requires i < 25 => Rot(a[i], Offset(i)))
  }

  function Pi(a: Lanes): Lanes {
    seq(25, (i: nat) requires i < 25 => a[(i % 5 + 3 * (i / 5)) % 5 + 5 * (i % 5)])
  }

  function ChiLane(a: Lanes, x: nat, y: nat): Lane
    requires x < 5 && y < 5
  {
    Xor(a[x + 5 * y], And(Not(a[(x + 1) % 5 + 5 * y]), a[(x + 2) % 5 + 5 * y]))
  }

  function Chi(a: Lanes): Lanes {
    seq(25, (i: nat) requires i < 25 => ChiLane(a, i % 5, i / 5))
  }

  function Iota(a: Lanes, round: nat): Lanes {
    a[0 := Xor(a[0], RoundConstant(round))]
  }

  function Round(a: Lanes, round: nat): Lanes {
    Iota(Chi(Pi(Rho(Theta(a)))), round)
  }

  function Rounds(a: Lanes, n: nat): Lanes {
    if n == 0 then a else Round(Rounds(a, n - 1), n - 1)
  }

  function KeccakF(a: Lanes): Lanes {
    Rounds(a, 24)
  }

  // ---------- the offsets of rho are those of algorithm 2 ----------

  /** The position after t steps of algorithm 2. */
  function Walk(t: nat): (nat, nat) {
    if t == 0 then (1, 0)
    else
      var (x, y) := Walk(t - 1);
      (y, (2 * x + 3 * y) % 5)
  }

  function Position(t: nat): nat {
    Walk(t).0 + 5 * Walk(t).1
  }

  // ---------- the round constants are those of algorithm 5 ----------

  datatype Register = Register(b0: bool, b1: bool, b2: bool, b3: bool, b4: bool, b5: bool, b6: bool, b7: bool) {
    /** One turn of the loop of algorithm 5. */
    function Next(): Register {
      Register(b7, b0, b1, b2, b3 != b7, b4 != b7, b5 != b7, b6)
    }
  }

  function Lfsr(t: nat): Register {
    if t == 0 then Register(true, false, false, false, false, false, false, false) else Lfsr(t - 1).Next()
  }

  /** Bit 2^j - 1 of the constant of a round is rc(j + 7 * round); the other bits are zero. */
  function RoundConstant(round: nat): Lane {
    seq(64, (z: nat) requires z < 64 =>
          if z == 0 then Lfsr(7 * round).b0
          else if z == 1 then Lfsr(7 * round + 1).b0
          else if z == 3 then Lfsr(7 * round + 2).b0
          else if z == 7 then Lfsr(7 * round + 3).b0
          else if z == 15 then Lfsr(7 * round + 4).b0
          else if z == 31 then Lfsr(7 * round + 5).b0
          else if z == 63 then Lfsr(7 * round + 6).b0
          else false)
  }

  // ---------- padding and sponge, sections 4 and 5 ----------

  const RATE: nat := 1088

  /** The message with pad10*1: a one, as few zeros as possible, a one, up to a multiple of the rate. */
  function Pad(m: Bits): (p: Bits)
    ensures |p| % RATE == 0
  {
    m + [true] + Zeros((-|m| - 2) % RATE) + [true]
  }

  /** The absorbing phase of the sponge over the permutation f. */
  function Absorb(f: Lanes -> Lanes, a: Lanes, p: Bits): Lanes
    requires |p| % RATE == 0
    decreases |p|
  {
    if p == [] then a else Absorb(f, f(XorBlock(a, p[..RATE])), p[RATE..])
  }

  function XorBlock(a: Lanes, block: Bits): Lanes
    requires |block| == RATE
  {
    seq(25, (i: nat) requires i < 25 => if i < 17 then Xor(a[i], block[64 * i..64 * i + 64]) else a[i])
  }

  function Start(): Lanes {
    seq(25, (i: nat) => Zeros(64))
  }

  /** 256 bits of output. With KeccakF for f this is the original Keccak-256, which adds no suffix to
      the message. */
  function Sponge(f: Lanes -> Lanes, p: Bits): Bits
    requires |p| % RATE == 0
  {
    var a: seq<Bits> := Absorb(f, Start(), p);
    a[0] + a[1] + a[2] + a[3]
  }

  /** Different messages have different paddings. */
  lemma PadInjective(m: Bits, n: Bits)
    requires Pad(m) == Pad(n)
    ensures m == n
  {
    LastOneBeforeTheEnd(m);
    LastOneBeforeTheEnd(n);
    assert m == Pad(m)[..|m|] && n == Pad(n)[..|n|];
  }

  lemma LastOneBeforeTheEnd(m: Bits)
    ensures |m| < |Pad(m)| - 1 && Pad(m)[|m|]
    ensures forall i | |m| < i < |Pad(m)| - 1 :: !Pad(m)[i]
  {
  }
}
