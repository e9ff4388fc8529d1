/** Bit strings, and 64-bit lanes kept as two 32-bit halves. A word is its bits, lowest first; JavaScript's
    signed and unsigned reading of a 32-bit pattern make no difference to any operation here. */
module KeccakWords {
  type Bits = seq<bool>

  type Octet = b: Bits | |b| == 8 witness seq(8, (i: nat) => false)
  type Word = w: Bits | |w| == 32 witness seq(32, (i: nat) => false)
  type Lane = l: Bits | |l| == 64 witness seq(64, (i: nat) => false)

  function Zeros(n: nat): (r: Bits)
    ensures |r| == n
  {
    seq(n, (i: nat) => false)
  }

  function Xor(a: Bits, b: Bits): (r: Bits)
    requires |a| == |b|
    ensures |r| == |a|
  {
    seq(|a|, (i: nat) requires i < |a| => a[i] != b[i])
  }

  function And(a: Bits, b: Bits): (r: Bits)
    requires |a| == |b|
    ensures |r| == |a|
  {
    seq(|a|, (i: nat) requires i < |a| => a[i] && b[i])
  }

  function Or(a: Bits, b: Bits): (r: Bits)
    requires |a| == |b|
    ensures |r| == |a|
  {
    seq(|a|, (i: nat) requires i < |a| => a[i] || b[i])
  }

  function Not(a: Bits): (r: Bits)
    ensures |r| == |a|
  {
    seq(|a|, (i: nat) requires i < |a| => !a[i])
  }

  /** `<<` */
  function Shl(a: Bits, n: nat): (r: Bits)
    ensures |r| == |a|
  {
    seq(|a|, (i: nat) requires i < |a| => i >= n && a[i - n])
  }

  /** `>>>` */
  function Shr(a: Bits, n: nat): (r: Bits)
    ensures |r| == |a|
  {
    seq(|a|, (i: nat) requires i < |a| => i + n < |a| && a[i + n])
  }

  /** The bit at z moves to z + n, around the end. */
  function Rot(v: Lane, n: nat): Lane {
    seq(64, (z: nat) requires z < 64 => v[(z - n) % 64])
  }

  function Rotl(lo: Word, hi: Word, n: nat): (Word, Word)
    requires n < 64
  {
    if n == 0 then (lo, hi)
    else if n < 32 then (Or(Shl(lo, n), Shr(hi, 32 - n)), Or(Shl(hi, n), Shr(lo, 32 - n)))
    else
      var k := n - 32;
      if k == 0 then (hi, lo)
      else (Or(Shl(hi, k), Shr(lo, 32 - k)), Or(Shl(lo, k), Shr(hi, 32 - k)))
  }

  function Join(lo: Word, hi: Word): Lane {
    lo + hi
  }

  /** `rotl` on the halves rotates the lane, for every distance. */
  lemma RotlIsRot(lo: Word, hi: Word, n: nat)
    requires n < 64
    ensures Join(Rotl(lo, hi, n).0, Rotl(lo, hi, n).1) == Rot(Join(lo, hi), n)
  {
    var r, v := Join(Rotl(lo, hi, n).0, Rotl(lo, hi, n).1), Join(lo, hi);
    forall z: nat | z < 64
      ensures r[z] == v[(z - n) % 64]
    {
      assert (z - n) % 64 == if z >= n then z - n else z - n + 64;
    }
  }

  lemma JoinXor(a: Word, b: Word, c: Word, d: Word)
    ensures Join(Xor(a, c), Xor(b, d)) == Xor(Join(a, b), Join(c, d))
  {
  }

  lemma JoinAnd(a: Word, b: Word, c: Word, d: Word)
    ensures Join(And(a, c), And(b, d)) == And(Join(a, b), Join(c, d))
  {
  }

  lemma JoinNot(a: Word, b: Word)
    ensures Join(Not(a), Not(b)) == Not(Join(a, b))
  {
  }

  // ---------- bytes of words ----------

  /** The 32-bit pattern of a byte. */
  function Widen(b: Octet): Word {
    b + Zeros(24)
  }

  /** `b0 | (b1 << 8) | (b2 << 16) | (b3 << 24)` */
  function FourBytes(b0: Octet, b1: Octet, b2: Octet, b3: Octet): Word {
    Or(Or(Or(Widen(b0), Shl(Widen(b1), 8)), Shl(Widen(b2), 16)), Shl(Widen(b3), 24))
  }

  lemma FourBytesConcatenate(b0: Octet, b1: Octet, b2: Octet, b3: Octet)
    ensures FourBytes(b0, b1, b2, b3) == b0 + b1 + b2 + b3
  {
  }

  /** `(w >>> 8 * k) & 0xff` */
  function ByteOf(w: Word, k: nat): Octet
    requires k < 4
  {
    Shr(w, 8 * k)[..8]
  }

  lemma ByteOfIsSlice(w: Word, k: nat)
    requires k < 4
    ensures ByteOf(w, k) == w[8 * k..8 * k + 8]
  {
  }
}
