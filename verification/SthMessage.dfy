/** The byte layout that is signed for a signed tree head, and the parser that undoes it. */
module SthMessage {
  import opened Hashing
  import opened Encoding
  import opened Texts

  const MAX_U16: nat := 0xFFFF
  const MAX_U64: nat := 0xFFFF_FFFF_FFFF_FFFF

  /** Length-prefixed bytes: two bytes of length, then the bytes. */
  function Prefixed(b: Bytes): Bytes {
    BigEndian(|b|, 2) + b
  }

  function U64(v: nat): Bytes {
    BigEndian(v, 8)
  }

  datatype Fields = Fields(algorithm: Bytes, logId: Bytes, treeSize: nat, rootHash: Bytes, timestampMs: nat)

  /** The signed message; None where a field does not fit its place and the source throws. */
  function CanonicalSth(algorithm: Text, logId: Text, treeSize: int, rootHash: Bytes, timestampMs: int): Option<Bytes> {
    var algo, log := Utf8(algorithm), Utf8(logId);
    if |algo| > MAX_U16 || |log| > MAX_U16 || |rootHash| != 32 then None
    else if !(0 <= treeSize <= MAX_U64 && 0 <= timestampMs <= MAX_U64) then None
    else Some(Prefixed(algo) + Prefixed(log) + U64(treeSize) + rootHash + U64(timestampMs))
  }

  /** A length-prefixed part and what follows it. */
  function ReadPrefixed(b: Bytes): Option<(Bytes, Bytes)> {
    if |b| < 2 then None
    else
      var n := FromBigEndian(b[..2]);
      if |b| < 2 + n then None else Some((b[2..2 + n], b[2 + n..]))
  }

  function Parse(b: Bytes): Option<Fields> {
    match ReadPrefixed(b)
    case None => None
    case Some((algo, afterAlgo)) =>
      match ReadPrefixed(afterAlgo)
      case None => None
      case Some((log, rest)) =>
        if |rest| != 48 then None
        else Some(Fields(algo, log, FromBigEndian(rest[..8]), rest[8..40], FromBigEndian(rest[40..])))
  }

  lemma PrefixedRoundTrip(b: Bytes, rest: Bytes)
    requires |b| <= MAX_U16
    ensures ReadPrefixed(Prefixed(b) + rest) == Some((b, rest))
  {
    var t := Prefixed(b) + rest;
    assert Pow256(2) == 65536;
    BigEndianRoundTrip(|b|, 2);
    assert t[..2] == BigEndian(|b|, 2);
    assert t[2..2 + |b|] == b;
    assert t[2 + |b|..] == rest;
  }

  lemma U64RoundTrip(v: nat)
    requires v <= MAX_U64
    ensures FromBigEndian(U64(v)) == v
  {
    assert Pow256(4) == 0x1_0000_0000;
    assert Pow256(8) == MAX_U64 + 1;
    BigEndianRoundTrip(v, 8);
  }

  /** The parser gives back every field of every message that can be built. */
  lemma SthRoundTrip(algorithm: Text, logId: Text, treeSize: int, rootHash: Bytes, timestampMs: int)
    requires CanonicalSth(algorithm, logId, treeSize, rootHash, timestampMs).Some?
    ensures Parse(CanonicalSth(algorithm, logId, treeSize, rootHash, timestampMs).value)
         == Some(Fields(Utf8(algorithm), Utf8(logId), treeSize, rootHash, timestampMs))
  {
    hide BigEndian, FromBigEndian, Utf8, ReadPrefixed, Prefixed;
    var algo, log := Utf8(algorithm), Utf8(logId);
    var rest := U64(treeSize) + rootHash + U64(timestampMs);
    var afterAlgo := Prefixed(log) + rest;
    assert CanonicalSth(algorithm, logId, treeSize, rootHash, timestampMs).value == Prefixed(algo) + afterAlgo;
    PrefixedRoundTrip(algo, afterAlgo);
    PrefixedRoundTrip(log, rest);
    U64RoundTrip(treeSize);
    U64RoundTrip(timestampMs);
    assert rest[..8] == U64(treeSize) && rest[8..40] == rootHash && rest[40..] == U64(timestampMs);
  }

  /** Hence one signed message stands for one tree head; texts count up to lone surrogates. */
  lemma SthInjective(algorithm: Text, logId: Text, treeSize: int, rootHash: Bytes, timestampMs: int,
                     algorithm': Text, logId': Text, treeSize': int, rootHash': Bytes, timestampMs': int)
    requires CanonicalSth(algorithm, logId, treeSize, rootHash, timestampMs).Some?
    ensures CanonicalSth(algorithm, logId, treeSize, rootHash, timestampMs)
         == CanonicalSth(algorithm', logId', treeSize', rootHash', timestampMs')
       <==> && Repaired(algorithm) == Repaired(algorithm') && Repaired(logId) == Repaired(logId')
            && treeSize == treeSize' && rootHash == rootHash' && timestampMs == timestampMs'
  {
    hide Parse, Utf8, Repaired, Prefixed, U64;
    Utf8Exact(algorithm, algorithm');
    Utf8Exact(logId, logId');
    SthRoundTrip(algorithm, logId, treeSize, rootHash, timestampMs);
    if CanonicalSth(algorithm', logId', treeSize', rootHash', timestampMs').Some? {
      SthRoundTrip(algorithm', logId', treeSize', rootHash', timestampMs');
    }
  }

  /** The layout of the message: length and algorithm, length and log, size, root, time. */
  lemma SthLayout(algorithm: Text, logId: Text, treeSize: int, rootHash: Bytes, timestampMs: int)
    requires CanonicalSth(algorithm, logId, treeSize, rootHash, timestampMs).Some?
    ensures var m := CanonicalSth(algorithm, logId, treeSize, rootHash, timestampMs).value;
            var a, l := |Utf8(algorithm)|, |Utf8(logId)|;
            && |m| == a + l + 52
            && m[0] == a / 256 && m[1] == a % 256 && m[2..2 + a] == Utf8(algorithm)
            && m[2 + a] == l / 256 && m[3 + a] == l % 256 && m[4 + a..4 + a + l] == Utf8(logId)
            && m[4 + a + l..12 + a + l] == BigEndian(treeSize, 8) && m[12 + a + l..44 + a + l] == rootHash
            && m[44 + a + l..] == BigEndian(timestampMs, 8)
  {
    hide Utf8, BigEndian;
    var m := CanonicalSth(algorithm, logId, treeSize, rootHash, timestampMs).value;
    TwoBytes(|Utf8(algorithm)|);
    TwoBytes(|Utf8(logId)|);
    assert m == BigEndian(|Utf8(algorithm)|, 2) + Utf8(algorithm) + (BigEndian(|Utf8(logId)|, 2) + Utf8(logId))
             + BigEndian(treeSize, 8) + rootHash + BigEndian(timestampMs, 8);
  }

  lemma TwoBytes(n: nat)
    requires n <= MAX_U16
    ensures BigEndian(n, 2) == [n / 256, n % 256]
  {
    assert BigEndian(n / 256, 1) == [n / 256];
  }
}
