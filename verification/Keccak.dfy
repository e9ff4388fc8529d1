/** The console's Keccak-256 on an array of 50 half lanes, against the bit strings of FIPS 202. */
module Keccak {
  import opened KeccakWords
  import opened KeccakTables
  import Spec = KeccakSpec

  /** The 25 lanes of 50 halves. */
  function View(s: seq<Word>): Spec.Lanes
    requires |s| == 50
  {
    seq(25, (i: nat) requires i < 25 => Join(s[2 * i], s[2 * i + 1]))
  }

  // ---------- one lane at a time ----------

  method SetLane(s: array<Word>, i: nat, lo: Word, hi: Word)
    requires s.Length == 50 && i < 25
    modifies s
    ensures View(s[..]) == old(View(s[..]))[i := Join(lo, hi)]
  {
    hide Join;
    s[2 * i] := lo;
    s[2 * i + 1] := hi;
  }

  method XorLane(s: array<Word>, i: nat, lo: Word, hi: Word)
    requires s.Length == 50 && i < 25
    modifies s
    ensures View(s[..]) == old(View(s[..]))[i := Xor(old(View(s[..])[i]), Join(lo, hi))]
  {
    hide Join, Xor;
    JoinXor(s[2 * i], s[2 * i + 1], lo, hi);
    SetLane(s, i, Xor(s[2 * i], lo), Xor(s[2 * i + 1], hi));
  }

  // ---------- theta ----------

  function Xor5(a: Word, b: Word, c: Word, d: Word, e: Word): Word {
    Xor(Xor(Xor(Xor(a, b), c), d), e)
  }

  lemma ColumnOfHalves(s: seq<Word>, x: nat)
    requires |s| == 50 && x < 5
    ensures Join(Xor5(s[2 * x], s[2 * (x + 5)], s[2 * (x + 10)], s[2 * (x + 15)], s[2 * (x + 20)]),
                 Xor5(s[2 * x + 1], s[2 * (x + 5) + 1], s[2 * (x + 10) + 1], s[2 * (x + 15) + 1], s[2 * (x + 20) + 1]))
         == Spec.Column(View(s), x)
  {
  }

  method ColumnParities(s: array<Word>) returns (c: array<Word>)
    requires s.Length == 50
    ensures fresh(c) && c.Length == 10 && Parities(c[..], View(s[..]))
  {
    hide Join, Xor5, Spec.Column, View;
    c := new Word[10];
    for x := 0 to 5
      invariant forall k | 0 <= k < x :: Join(c[2 * k], c[2 * k + 1]) == Spec.Column(View(s[..]), k)
    {
      ColumnOfHalves(s[..], x);
      c[2 * x] := Xor5(s[2 * x], s[2 * (x + 5)], s[2 * (x + 10)], s[2 * (x + 15)], s[2 * (x + 20)]);
      c[2 * x + 1] :=
        Xor5(s[2 * x + 1], s[2 * (x + 5) + 1], s[2 * (x + 10) + 1], s[2 * (x + 15) + 1], s[2 * (x + 20) + 1]);
    }
  }

  ghost predicate Parities(c: seq<Word>, a: Spec.Lanes) {
    |c| == 10 && forall x | 0 <= x < 5 :: Join(c[2 * x], c[2 * x + 1]) == Spec.Column(a, x)
  }

  method Theta(s: array<Word>)
    requires s.Length == 50
    modifies s
    ensures View(s[..]) == Spec.Theta(old(View(s[..])))
  {
    hide Parities, Join, Xor, View, Spec.ThetaEffect;
    ghost var a := View(s[..]);
    var c := ColumnParities(s);
    for x := 0 to 5
      invariant Parities(c[..], a)
      invariant forall i | 0 <= i < 25 ::
                  View(s[..])[i] == if i % 5 < x then Xor(a[i], Spec.ThetaEffect(a, i % 5)) else a[i]
    {
      var dlo, dhi := Effect(c, x, a);
      XorColumn(s, x, dlo, dhi);
    }
  }

  method XorColumn(s: array<Word>, x: nat, dlo: Word, dhi: Word)
    requires s.Length == 50 && x < 5
    modifies s
    ensures forall i | 0 <= i < 25 ::
              View(s[..])[i] == if i % 5 == x then Xor(old(View(s[..]))[i], Join(dlo, dhi)) else old(View(s[..]))[i]
  {
    hide Join, Xor, View;
    var y := 0;
    while y < 25
      invariant y % 5 == 0 && y <= 25
      invariant forall i | 0 <= i < 25 ::
                  View(s[..])[i] == if i % 5 == x && i < x + y then Xor(old(View(s[..]))[i], Join(dlo, dhi))
                                    else old(View(s[..]))[i]
    {
      XorLane(s, x + y, dlo, dhi);
      y := y + 5;
    }
  }

  method Effect(c: array<Word>, x: nat, ghost a: Spec.Lanes) returns (dlo: Word, dhi: Word)
    requires x < 5 && c.Length == 10 && Parities(c[..], a)
    ensures Join(dlo, dhi) == Spec.ThetaEffect(a, x)
  {
    hide Join, Xor, Spec.Column, Rotl, Rot;
    var up, down := (x + 1) % 5, (x + 4) % 5;
    var (rlo, rhi) := Rotl(c[2 * up], c[2 * up + 1], 1);
    RotlIsRot(c[2 * up], c[2 * up + 1], 1);
    JoinXor(c[2 * down], c[2 * down + 1], rlo, rhi);
    return Xor(c[2 * down], rlo), Xor(c[2 * down + 1], rhi);
  }

  // ---------- rho and pi ----------

  /** Where the lane at (x, y) goes. */
  function Target(x: nat, y: nat): (t: nat)
    requires x < 5 && y < 5
    ensures t < 25
  {
    y + (2 * x + 3 * y) % 5 * 5
  }

  /** Where the lane that goes to t comes from. */
  function Source(t: nat): (nat, nat) {
    ((t % 5 + 3 * (t / 5)) % 5, t % 5)
  }

  lemma SourceOfTarget(x: nat, y: nat)
    requires x < 5 && y < 5
    ensures Source(Target(x, y)) == (x, y)
  {
    var p, row := (2 * x + 3 * y) / 5, (2 * x + 3 * y) % 5;
    assert Target(x, y) / 5 == row && Target(x, y) % 5 == y;
    RemainderBy5(y + 3 * row, x + 2 * y - 3 * p, x);
  }

  lemma TargetOfSource(t: nat)
    requires t < 25
    ensures var (x, y) := Source(t); x < 5 && y < 5 && Target(x, y) == t
  {
    var column, row := t % 5, t / 5;
    var p := (column + 3 * row) / 5;
    var x := column + 3 * row - 5 * p;
    RemainderBy5(2 * x + 3 * column, column + row - 2 * p, row);
  }

  lemma RemainderBy5(n: int, q: int, r: nat)
    requires r < 5 && n == 5 * q + r
    ensures n % 5 == r
  {
  }

  predicate Done(x: nat, y: nat, u: nat, v: nat) {
    u < x || (u == x && v < y)
  }

  ghost predicate Moved(a: Spec.Lanes, b: Spec.Lanes, x: nat, y: nat) {
    forall u: nat, v: nat | u < 5 && v < 5 && Done(x, y, u, v) ::
      b[Target(u, v)] == Rot(a[u + 5 * v], Spec.Offset(u + 5 * v))
  }

  lemma MoveOne(a: Spec.Lanes, b: Spec.Lanes, x: nat, y: nat)
    requires x < 5 && y < 5 && Moved(a, b, x, y)
    ensures Moved(a, b[Target(x, y) := Rot(a[x + 5 * y], Spec.Offset(x + 5 * y))], x, y + 1)
  {
    hide Rot, Spec.Offset, Target, Source;
    forall u: nat, v: nat | u < 5 && v < 5 && Done(x, y, u, v)
      ensures Target(u, v) != Target(x, y)
    {
      SourceOfTarget(u, v);
      SourceOfTarget(x, y);
    }
  }

  lemma AllMoved(a: Spec.Lanes, b: Spec.Lanes)
    requires Moved(a, b, 5, 0)
    ensures b == Spec.Pi(Spec.Rho(a))
  {
    hide Rot, Spec.Offset, Target;
    forall i: nat | i < 25
      ensures b[i] == Spec.Pi(Spec.Rho(a))[i]
    {
      TargetOfSource(i);
      assert Done(5, 0, Source(i).0, Source(i).1);
    }
  }

  method RhoPi(s: array<Word>) returns (b: array<Word>)
    requires s.Length == 50
    ensures fresh(b) && b.Length == 50
    ensures View(b[..]) == Spec.Pi(Spec.Rho(View(s[..])))
  {
    hide Join, Rot, Rotl, Spec.Offset, Target, Moved, Spec.Pi, Spec.Rho;
    b := new Word[50];
    ghost var a := View(s[..]);
    NothingMoved(a, View(b[..]));
    for x := 0 to 5
      invariant Moved(a, View(b[..]), x, 0)
    {
      for y := 0 to 5
        invariant Moved(a, View(b[..]), x, y)
      {
        var idx := x + y * 5;
        var (rlo, rhi) := Rotl(s[2 * idx], s[2 * idx + 1], Spec.Offset(idx));
        RotlIsRot(s[2 * idx], s[2 * idx + 1], Spec.Offset(idx));
        MoveOne(a, View(b[..]), x, y);
        SetLane(b, Target(x, y), rlo, rhi);
      }
      RowMoved(a, View(b[..]), x);
    }
    AllMoved(a, View(b[..]));
  }

  lemma NothingMoved(a: Spec.Lanes, b: Spec.Lanes)
    ensures Moved(a, b, 0, 0)
  {
  }

  lemma RowMoved(a: Spec.Lanes, b: Spec.Lanes, x: nat)
    requires Moved(a, b, x, 5)
    ensures Moved(a, b, x + 1, 0)
  {
    hide Rot, Spec.Offset, Target;
    forall u: nat, v: nat | u < 5 && v < 5 && Done(x + 1, 0, u, v)
      ensures b[Target(u, v)] == Rot(a[u + 5 * v], Spec.Offset(u + 5 * v))
    {
      assert Done(x, 5, u, v);
    }
  }

  // ---------- chi ----------

  ghost predicate Mixed(a: Spec.Lanes, b: Spec.Lanes, x: nat, y: nat) {
    forall i | 0 <= i < 25 && Done(x, y, i % 5, i / 5) :: a[i] == Spec.Chi(b)[i]
  }

  lemma RowMixed(a: Spec.Lanes, b: Spec.Lanes, x: nat)
    requires Mixed(a, b, x, 5)
    ensures Mixed(a, b, x + 1, 0)
  {
    hide Spec.Chi;
    forall i | 0 <= i < 25 && Done(x + 1, 0, i % 5, i / 5)
      ensures a[i] == Spec.Chi(b)[i]
    {
      assert Done(x, 5, i % 5, i / 5);
    }
  }

  lemma MixOne(a: Spec.Lanes, b: Spec.Lanes, x: nat, y: nat)
    requires x < 5 && y < 5 && Mixed(a, b, x, y)
    ensures Mixed(a[x + 5 * y := Spec.Chi(b)[x + 5 * y]], b, x, y + 1)
  {
    hide Spec.Chi;
    forall i | 0 <= i < 25 && i != x + 5 * y && Done(x, y + 1, i % 5, i / 5)
      ensures a[i] == Spec.Chi(b)[i]
    {
      assert Done(x, y, i % 5, i / 5);
    }
  }

  lemma AllMixed(a: Spec.Lanes, b: Spec.Lanes)
    requires Mixed(a, b, 5, 0)
    ensures a == Spec.Chi(b)
  {
    hide Spec.Chi;
    forall i: nat | i < 25
      ensures a[i] == Spec.Chi(b)[i]
    {
      assert Done(5, 0, i % 5, i / 5);
    }
  }

  lemma NothingMixed(a: Spec.Lanes, b: Spec.Lanes)
    ensures Mixed(a, b, 0, 0)
  {
  }

  lemma MixHalves(p0: Word, p1: Word, q0: Word, q1: Word, r0: Word, r1: Word)
    ensures Join(Xor(p0, And(Not(q0), r0)), Xor(p1, And(Not(q1), r1)))
         == Xor(Join(p0, p1), And(Not(Join(q0, q1)), Join(r0, r1)))
  {
    hide Join, Xor, And, Not;
    JoinNot(q0, q1);
    JoinAnd(Not(q0), Not(q1), r0, r1);
    JoinXor(p0, p1, And(Not(q0), r0), And(Not(q1), r1));
  }

  /** The new lane at (x, y), half by half. */
  lemma ChiOfHalves(b: seq<Word>, x: nat, y: nat)
    requires |b| == 50 && x < 5 && y < 5
    ensures var i, i1, i2 := (x + y * 5) * 2, ((x + 1) % 5 + y * 5) * 2, ((x + 2) % 5 + y * 5) * 2;
            Join(Xor(b[i], And(Not(b[i1]), b[i2])), Xor(b[i + 1], And(Not(b[i1 + 1]), b[i2 + 1])))
            == Spec.Chi(View(b))[x + 5 * y]
  {
    hide Join, Xor, And, Not, Spec.Chi;
    ChiAt(View(b), x, y);
    var p, q, r := x + 5 * y, (x + 1) % 5 + 5 * y, (x + 2) % 5 + 5 * y;
    MixHalves(b[2 * p], b[2 * p + 1], b[2 * q], b[2 * q + 1], b[2 * r], b[2 * r + 1]);
  }

  lemma ChiAt(a: Spec.Lanes, x: nat, y: nat)
    requires x < 5 && y < 5
    ensures Spec.Chi(a)[x + 5 * y] == Spec.ChiLane(a, x, y)
  {
    hide Spec.ChiLane;
    assert (x + 5 * y) % 5 == x && (x + 5 * y) / 5 == y;
  }

  method Chi(s: array<Word>, b: array<Word>)
    requires s.Length == 50 && b.Length == 50 && s != b
    modifies s
    ensures View(s[..]) == Spec.Chi(View(b[..]))
  {
    hide Join, Xor, And, Not, View, Mixed, Spec.Chi;
    NothingMixed(View(s[..]), View(b[..]));
    for x := 0 to 5
      invariant Mixed(View(s[..]), View(b[..]), x, 0)
    {
      for y := 0 to 5
        invariant Mixed(View(s[..]), View(b[..]), x, y)
      {
        var i, i1, i2 := (x + y * 5) * 2, ((x + 1) % 5 + y * 5) * 2, ((x + 2) % 5 + y * 5) * 2;
        ChiOfHalves(b[..], x, y);
        MixOne(View(s[..]), View(b[..]), x, y);
        SetLane(s, x + 5 * y, Xor(b[i], And(Not(b[i1]), b[i2])), Xor(b[i + 1], And(Not(b[i1 + 1]), b[i2 + 1])));
      }
      RowMixed(View(s[..]), View(b[..]), x);
    }
    AllMixed(View(s[..]), View(b[..]));
  }

  // ---------- iota, and all rounds ----------

  method Iota(s: array<Word>, r: nat)
    requires s.Length == 50 && r < 24
    modifies s
    ensures View(s[..]) == Spec.Iota(old(View(s[..])), r)
  {
    hide Join, Xor, View, Pattern, Rndc, Spec.RoundConstant;
    RoundConstantsFollowLfsr(r);
    XorLane(s, 0, Pattern(Rndc(r).0), Pattern(Rndc(r).1));
  }

  /** keccakF, in place. */
  method KeccakF(s: array<Word>)
    requires s.Length == 50
    modifies s
    ensures View(s[..]) == Spec.KeccakF(old(View(s[..])))
  {
    hide View, Spec.Theta, Spec.Rho, Spec.Pi, Spec.Chi, Spec.Iota;
    ghost var a := View(s[..]);
    for r := 0 to 24
      invariant View(s[..]) == Spec.Rounds(a, r)
    {
      Theta(s);
      var b := RhoPi(s);
      Chi(s, b);
      Iota(s, r);
    }
  }

  // ---------- messages ----------

  /** The bits of a list of bytes. */
  function Concat(bytes: seq<Octet>): (r: Bits)
    ensures |r| == 8 * |bytes|
  {
    if bytes == [] then [] else Concat(bytes[..|bytes| - 1]) + bytes[|bytes| - 1]
  }

  lemma ConcatSnoc(bytes: seq<Octet>, b: Octet)
    ensures Concat(bytes + [b]) == Concat(bytes) + b
  {
    assert (bytes + [b])[..|bytes|] == bytes;
  }

  lemma {:induction false} ConcatSlice(bytes: seq<Octet>, k: nat)
    requires k < |bytes|
    ensures Concat(bytes)[8 * k..8 * k + 8] == bytes[k]
  {
    if k < |bytes| - 1 {
      ConcatSlice(bytes[..|bytes| - 1], k);
      assert Concat(bytes)[8 * k..8 * k + 8] == Concat(bytes[..|bytes| - 1])[8 * k..8 * k + 8];
    }
  }

  const BYTE_01: Octet := [true, false, false, false, false, false, false, false]
  const BYTE_80: Octet := [false, false, false, false, false, false, false, true]
  const BYTE_00: Octet := [false, false, false, false, false, false, false, false]

  /** The padding loop: a byte 0x01, zero bytes up to a multiple of the rate, then 0x80 into the last byte. */
  method PadBytes(bytes: seq<Octet>) returns (msg: seq<Octet>)
    ensures |msg| % 136 == 0 && Concat(msg) == Spec.Pad(Concat(bytes))
  {
    hide Concat, Xor, Spec.Pad;
    msg := bytes + [BYTE_01];
    FirstPaddingByte(bytes);
    ghost var full := |bytes| / 136 + 1;
    while |msg| % 136 != 0
      invariant |bytes| < |msg| <= 136 * full && OneThenZeros(bytes, msg)
      decreases 136 * full - |msg|
    {
      NextPaddingByte(bytes, msg);
      msg := msg + [BYTE_00];
    }
    LastPaddingByte(bytes, msg);
    msg := msg[|msg| - 1 := Xor(msg[|msg| - 1], BYTE_80)];
  }

  ghost predicate OneThenZeros(bytes: seq<Octet>, msg: seq<Octet>)
    requires |bytes| < |msg|
  {
    Concat(msg) == Concat(bytes) + [true] + Zeros(8 * |msg| - 8 * |bytes| - 1)
  }

  lemma FirstPaddingByte(bytes: seq<Octet>)
    ensures OneThenZeros(bytes, bytes + [BYTE_01])
  {
    ConcatSnoc(bytes, BYTE_01);
    hide Concat;
  }

  lemma NextPaddingByte(bytes: seq<Octet>, msg: seq<Octet>)
    requires |bytes| < |msg| && OneThenZeros(bytes, msg)
    ensures OneThenZeros(bytes, msg + [BYTE_00])
  {
    ConcatSnoc(msg, BYTE_00);
    hide Concat;
  }

  lemma LastPaddingByte(bytes: seq<Octet>, msg: seq<Octet>)
    requires |msg| % 136 == 0 && |bytes| < |msg| <= |bytes| + 136 && OneThenZeros(bytes, msg)
    ensures Concat(msg[|msg| - 1 := Xor(msg[|msg| - 1], BYTE_80)]) == Spec.Pad(Concat(bytes))
  {
    hide Concat, Spec.Pad, Xor;
    LastBitFlips(msg);
    PaddedBits(Concat(bytes), |msg|, Concat(msg), Concat(msg[|msg| - 1 := Xor(msg[|msg| - 1], BYTE_80)]));
  }

  lemma LastBitFlips(msg: seq<Octet>)
    requires msg != []
    ensures var n := |msg|;
            var before, after := Concat(msg), Concat(msg[n - 1 := Xor(msg[n - 1], BYTE_80)]);
            && |before| == |after| == 8 * n
            && after[..8 * n - 1] == before[..8 * n - 1] && after[8 * n - 1] == !before[8 * n - 1]
  {
    hide Concat, Xor;
    var n := |msg|;
    var front, last := msg[..n - 1], msg[n - 1];
    assert msg == front + [last] && msg[n - 1 := Xor(last, BYTE_80)] == front + [Xor(last, BYTE_80)];
    ConcatSnoc(front, last);
    ConcatSnoc(front, Xor(last, BYTE_80));
    FlipLastBit(Concat(front), last);
  }

  lemma FlipLastBit(front: Bits, last: Octet)
    ensures var before, after, n := front + last, front + Xor(last, BYTE_80), |front| + 7;
            after[..n] == before[..n] && after[n] == !before[n]
  {
  }

  lemma PaddedBits(m: Bits, n: nat, before: Bits, after: Bits)
    requires n % 136 == 0 && |m| % 8 == 0 && |m| + 8 <= 8 * n <= |m| + 1088
    requires before == m + [true] + Zeros(8 * n - |m| - 1)
    requires |after| == 8 * n && after[..8 * n - 1] == before[..8 * n - 1] && after[8 * n - 1] == !before[8 * n - 1]
    ensures after == Spec.Pad(m)
  {
    RemainderBy1088(-|m| - 2, -(n / 136), 8 * n - |m| - 2);
    var zeros := 8 * n - |m| - 2;
    hide Spec.Pad;
    assert Spec.Pad(m) == m + [true] + Zeros(zeros) + [true] by {
      PadOfLength(m, zeros);
    }
  }

  lemma RemainderBy1088(n: int, q: int, r: nat)
    requires r < 1088 && n == 1088 * q + r
    ensures n % 1088 == r
  {
  }

  lemma PadOfLength(m: Bits, zeros: nat)
    requires (-|m| - 2) % 1088 == zeros
    ensures Spec.Pad(m) == m + [true] + Zeros(zeros) + [true]
  {
  }

  // ---------- absorbing and squeezing ----------

  /** Eight bytes as the two halves of a lane. */
  lemma LaneOfBytes(msg: seq<Octet>, b: nat)
    requires b + 8 <= |msg|
    ensures Join(FourBytes(msg[b], msg[b + 1], msg[b + 2], msg[b + 3]),
                 FourBytes(msg[b + 4], msg[b + 5], msg[b + 6], msg[b + 7]))
         == Concat(msg)[8 * b..8 * b + 64]
  {
    hide FourBytes, Concat;
    WordOfBytes(msg, b);
    WordOfBytes(msg, b + 4);
    SliceInTwo(Concat(msg), 8 * b, 32, 32);
  }

  lemma WordOfBytes(msg: seq<Octet>, b: nat)
    requires b + 4 <= |msg|
    ensures FourBytes(msg[b], msg[b + 1], msg[b + 2], msg[b + 3]) == Concat(msg)[8 * b..8 * b + 32]
  {
    hide FourBytes, Concat;
    ConcatSlice(msg, b);
    ConcatSlice(msg, b + 1);
    ConcatSlice(msg, b + 2);
    ConcatSlice(msg, b + 3);
    FourSlices(Concat(msg), 8 * b, msg[b], msg[b + 1], msg[b + 2], msg[b + 3]);
  }

  lemma FourSlices(s: Bits, at: nat, b0: Octet, b1: Octet, b2: Octet, b3: Octet)
    requires at + 32 <= |s|
    requires s[at..at + 8] == b0 && s[at + 8..at + 16] == b1 && s[at + 16..at + 24] == b2 && s[at + 24..at + 32] == b3
    ensures FourBytes(b0, b1, b2, b3) == s[at..at + 32]
  {
    FourBytesConcatenate(b0, b1, b2, b3);
    hide FourBytes;
    SliceInTwo(s, at, 8, 8);
    SliceInTwo(s, at, 16, 8);
    SliceInTwo(s, at, 24, 8);
  }

  lemma SliceInTwo(s: Bits, at: nat, m: nat, n: nat)
    requires at + m + n <= |s|
    ensures s[at..at + m + n] == s[at..at + m] + s[at + m..at + m + n]
  {
  }

  /** One block of the absorbing loop. */
  method AbsorbBlock(s: array<Word>, msg: seq<Octet>, off: nat)
    requires s.Length == 50 && off + 136 <= |msg|
    modifies s
    ensures View(s[..]) == Spec.XorBlock(old(View(s[..])), Concat(msg)[8 * off..8 * off + 1088])
  {
    hide Join, Xor, View, Concat, FourBytes;
    ghost var a, p := View(s[..]), Concat(msg);
    for i := 0 to 17
      invariant forall k | 0 <= k < 25 ::
                  View(s[..])[k] == if k < i then Xor(a[k], p[8 * off + 64 * k..8 * off + 64 * k + 64]) else a[k]
    {
      var b := off + i * 8;
      LaneOfBytes(msg, b);
      var lo := FourBytes(msg[b], msg[b + 1], msg[b + 2], msg[b + 3]);
      var hi := FourBytes(msg[b + 4], msg[b + 5], msg[b + 6], msg[b + 7]);
      XorLane(s, i, lo, hi);
    }
    forall k | 0 <= k < 17
      ensures p[8 * off..8 * off + 1088][64 * k..64 * k + 64] == p[8 * off + 64 * k..8 * off + 64 * k + 64]
    {
    }
  }

  method Squeeze(s: array<Word>) returns (out: seq<Octet>)
    requires s.Length == 50
    ensures |out| == 32
    ensures var a: seq<Bits> := View(s[..]); Concat(out) == a[0] + a[1] + a[2] + a[3]
  {
    hide Concat, ByteOf, View;
    out := [];
    for i := 0 to 4
      invariant |out| == 8 * i && Concat(out) == FirstLanes(View(s[..]), i)
    {
      var lo, hi := s[2 * i], s[2 * i + 1];
      LaneBytes(out, lo, hi);
      LaneOf(s[..], i);
      out := out + WordBytes(lo) + WordBytes(hi);
    }
    FirstFourLanes(View(s[..]));
  }

  function WordBytes(w: Word): (r: seq<Octet>)
    ensures |r| == 4
  {
    [ByteOf(w, 0), ByteOf(w, 1), ByteOf(w, 2), ByteOf(w, 3)]
  }

  function FirstLanes(a: Spec.Lanes, i: nat): Bits
    requires i <= 25
  {
    if i == 0 then [] else FirstLanes(a, i - 1) + a[i - 1]
  }

  lemma FirstFourLanes(l: Spec.Lanes)
    ensures var a: seq<Bits> := l; FirstLanes(l, 4) == a[0] + a[1] + a[2] + a[3]
  {
    assert FirstLanes(l, 1) == l[0];
    assert FirstLanes(l, 2) == FirstLanes(l, 1) + l[1];
  }

  lemma LaneOf(s: seq<Word>, i: nat)
    requires |s| == 50 && i < 25
    ensures View(s)[i] == Join(s[2 * i], s[2 * i + 1])
  {
  }

  lemma WordBytesConcatenate(out: seq<Octet>, w: Word)
    ensures Concat(out + WordBytes(w)) == Concat(out) + w
  {
    hide Concat, ByteOf;
    var b0, b1, b2, b3 := ByteOf(w, 0), ByteOf(w, 1), ByteOf(w, 2), ByteOf(w, 3);
    ByteOfIsSlice(w, 0);
    ByteOfIsSlice(w, 1);
    ByteOfIsSlice(w, 2);
    ByteOfIsSlice(w, 3);
    ConcatSnoc(out, b0);
    ConcatSnoc(out + [b0], b1);
    ConcatSnoc(out + [b0] + [b1], b2);
    ConcatSnoc(out + [b0] + [b1] + [b2], b3);
    assert out + WordBytes(w) == out + [b0] + [b1] + [b2] + [b3];
    assert w == w[0..8] + w[8..16] + w[16..24] + w[24..32];
  }

  lemma LaneBytes(out: seq<Octet>, lo: Word, hi: Word)
    ensures Concat(out + WordBytes(lo) + WordBytes(hi)) == Concat(out) + Join(lo, hi)
  {
    hide Concat, WordBytes;
    WordBytesConcatenate(out, lo);
    WordBytesConcatenate(out + WordBytes(lo), hi);
    assert Concat(out) + lo + hi == Concat(out) + (lo + hi);
  }

  /** keccak256 is the sponge over Keccak-f[1600], for a message of any length. */
  method Keccak256(bytes: seq<Octet>) returns (out: seq<Octet>)
    ensures |out| == 32 && Concat(out) == Spec.Sponge(Spec.KeccakF, Spec.Pad(Concat(bytes)))
  {
    hide Concat, View, Spec.KeccakF, Spec.Pad, Spec.XorBlock, Spec.Absorb;
    var s := new Word[50](_ => Zeros(32));
    StartOfZeros(s[..]);
    var msg := PadBytes(bytes);
    ghost var p: Bits := Concat(msg);
    var off := 0;
    assert p[0..] == p;
    while off < |msg|
      invariant off % 136 == 0 && off <= |msg|
      invariant Spec.Absorb(Spec.KeccakF, View(s[..]), p[8 * off..]) == Spec.Absorb(Spec.KeccakF, Spec.Start(), p)
    {
      ghost var a := View(s[..]);
      AbsorbBlock(s, msg, off);
      KeccakF(s);
      NextBlock(Spec.KeccakF, a, p, off);
      off := off + 136;
    }
    assert p[8 * off..] == [];
    NothingLeft(Spec.KeccakF, View(s[..]));
    out := Squeeze(s);
  }

  lemma NothingLeft(f: Spec.Lanes -> Spec.Lanes, a: Spec.Lanes)
    ensures Spec.Absorb(f, a, []) == a
  {
  }

  lemma StartOfZeros(s: seq<Word>)
    requires |s| == 50 && forall i | 0 <= i < 50 :: s[i] == Zeros(32)
    ensures View(s) == Spec.Start()
  {
    assert forall i | 0 <= i < 25 :: Join(s[2 * i], s[2 * i + 1]) == Zeros(64);
  }

  lemma NextBlock(f: Spec.Lanes -> Spec.Lanes, a: Spec.Lanes, p: Bits, off: nat)
    requires |p| % 1088 == 0 && off % 136 == 0 && 8 * off < |p|
    ensures 8 * off + 1088 <= |p|
    ensures Spec.Absorb(f, a, p[8 * off..])
         == Spec.Absorb(f, f(Spec.XorBlock(a, p[8 * off..8 * off + 1088])), p[8 * off + 1088..])
  {
    hide Spec.XorBlock;
    var rest := p[8 * off..];
    assert rest[..1088] == p[8 * off..8 * off + 1088];
    assert rest[1088..] == p[8 * off + 1088..];
  }
}
