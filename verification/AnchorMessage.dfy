/** The message the anchor worker signs for a slice of events, and what that message binds. */
module AnchorMessage {
  import opened Hashing
  import opened Encoding
  import opened Texts
  import opened PowersOfTwo
  import opened SthMessage
  import opened AnchorTree

  /** One row of the event table as the worker reads it. */
  datatype EventRow = EventRow(blockNumber: nat, txHash: Hash, logIndex: nat)

  /** None where a field does not fit its place and the source throws. */
  function CanonicalMessage(algorithm: Text, merkleRoot: Hash, blockFrom: nat, blockTo: nat, eventCount: nat,
                            anchorChain: Hash): Option<Bytes> {
    var algo := Utf8(algorithm);
    if |algo| > MAX_U16 || blockFrom > MAX_U64 || blockTo > MAX_U64 || eventCount > MAX_U64 then None
    else Some(Prefixed(algo) + merkleRoot + U64(blockFrom) + U64(blockTo) + U64(eventCount) + anchorChain)
  }

  datatype AnchorFields = AnchorFields(algorithm: Bytes, merkleRoot: Bytes, blockFrom: nat, blockTo: nat,
                                       eventCount: nat, anchorChain: Bytes)

  function ParseMessage(b: Bytes): Option<AnchorFields> {
    match ReadPrefixed(b)
    case None => None
    case Some((algo, rest)) =>
      if |rest| != 88 then None
      else Some(AnchorFields(algo, rest[..32], FromBigEndian(rest[32..40]), FromBigEndian(rest[40..48]),
                             FromBigEndian(rest[48..56]), rest[56..]))
  }

  lemma MessageRoundTrip(algorithm: Text, merkleRoot: Hash, blockFrom: nat, blockTo: nat, eventCount: nat,
                         anchorChain: Hash)
    requires CanonicalMessage(algorithm, merkleRoot, blockFrom, blockTo, eventCount, anchorChain).Some?
    ensures ParseMessage(CanonicalMessage(algorithm, merkleRoot, blockFrom, blockTo, eventCount, anchorChain).value)
         == Some(AnchorFields(Utf8(algorithm), merkleRoot, blockFrom, blockTo, eventCount, anchorChain))
  {
    hide BigEndian, FromBigEndian, Utf8, ReadPrefixed, Prefixed, U64;
    var algo := Utf8(algorithm);
    var rest := merkleRoot + U64(blockFrom) + U64(blockTo) + U64(eventCount) + anchorChain;
    assert CanonicalMessage(algorithm, merkleRoot, blockFrom, blockTo, eventCount, anchorChain).value
        == Prefixed(algo) + rest;
    PrefixedRoundTrip(algo, rest);
    U64Length(blockFrom);
    U64Length(blockTo);
    U64Length(eventCount);
    U64RoundTrip(blockFrom);
    U64RoundTrip(blockTo);
    U64RoundTrip(eventCount);
    assert rest[..32] == merkleRoot;
    assert rest[32..40] == U64(blockFrom);
    assert rest[40..48] == U64(blockTo);
    assert rest[48..56] == U64(eventCount);
    assert rest[56..] == anchorChain;
  }

  lemma U64Length(v: nat)
    ensures |U64(v)| == 8
  {
  }

  function EventLeaves(keccak: Keccak, events: seq<EventRow>): (leaves: seq<Bytes>)
    ensures |leaves| == |events|
  {
    seq(|events|, (i: nat) requires i < |events| => LeafFromEvent(keccak, events[i].txHash, events[i].logIndex))
  }

  /** The nodes the worker's tree is built over: leaves of events are 32 bytes long already. */
  function EventNodes(keccak: Keccak, events: seq<EventRow>): (level: seq<Hash>)
    ensures |level| == |events|
  {
    LeafNodes(keccak, EventLeaves(keccak, events))
  }

  /** The message of one anchor cycle. */
  function SliceMessage(keccak: Keccak, algorithm: Text, events: seq<EventRow>, anchorChain: Hash): Option<Bytes>
    requires events != []
  {
    CanonicalMessage(algorithm, Root(keccak, EventNodes(keccak, events)), events[0].blockNumber,
                     events[|events| - 1].blockNumber, |events|, anchorChain)
  }

  /** No event of one slice has the leaf of a different event of the other. */
  ghost predicate LeavesCollisionFree(keccak: Keccak, a: seq<EventRow>, b: seq<EventRow>) {
    forall x, y | x in a && y in b ::
      LeafFromEvent(keccak, x.txHash, x.logIndex) == LeafFromEvent(keccak, y.txHash, y.logIndex)
      ==> EventBytes(x.txHash, x.logIndex) == EventBytes(y.txHash, y.logIndex)
  }

  ghost predicate IndexesFit(events: seq<EventRow>) {
    forall x | x in events :: x.logIndex < TWO_32
  }

  /** Equal signed messages mean the same events in the same order, the same block range, chain tag and,
      up to lone surrogates, algorithm, unless keccak256 collides on something hashed for the two slices. */
  lemma MessageBindsEvents(keccak: Keccak, algorithm: Text, a: seq<EventRow>, chain: Hash,
                           algorithm': Text, b: seq<EventRow>, chain': Hash)
    requires a != [] && b != [] && IndexesFit(a) && IndexesFit(b)
    requires SliceMessage(keccak, algorithm, a, chain).Some?
    requires SliceMessage(keccak, algorithm, a, chain) == SliceMessage(keccak, algorithm', b, chain')
    requires CollisionFree(NodeHash(keccak), RootPairs(keccak, EventNodes(keccak, a)),
                           RootPairs(keccak, EventNodes(keccak, b)))
    requires LeavesCollisionFree(keccak, a, b)
    ensures |a| == |b| && Repaired(algorithm) == Repaired(algorithm') && chain == chain'
    ensures forall i | 0 <= i < |a| :: a[i].txHash == b[i].txHash && a[i].logIndex == b[i].logIndex
    ensures a[0].blockNumber == b[0].blockNumber && a[|a| - 1].blockNumber == b[|a| - 1].blockNumber
  {
    hide CanonicalMessage, ParseMessage, Utf8, Repaired, Root, RootPairs, EventNodes;
    var u, v := EventNodes(keccak, a), EventNodes(keccak, b);
    MessageRoundTrip(algorithm, Root(keccak, u), a[0].blockNumber, a[|a| - 1].blockNumber, |a|, chain);
    MessageRoundTrip(algorithm', Root(keccak, v), b[0].blockNumber, b[|b| - 1].blockNumber, |b|, chain');
    Utf8Exact(algorithm, algorithm');
    RootBindsListsOfOneLength(keccak, u, v);
    forall i | 0 <= i < |a|
      ensures a[i].txHash == b[i].txHash && a[i].logIndex == b[i].logIndex
    {
      EventNode(keccak, a, i);
      EventNode(keccak, b, i);
      assert a[i] in a && b[i] in b;
      EventBytesInjective(a[i].txHash, a[i].logIndex, b[i].txHash, b[i].logIndex);
    }
  }

  lemma EventNode(keccak: Keccak, events: seq<EventRow>, i: nat)
    requires i < |events|
    ensures EventNodes(keccak, events)[i] == LeafFromEvent(keccak, events[i].txHash, events[i].logIndex)
  {
  }

  /** The layout of the message: length and algorithm, root, first and last block, count, chain tag. */
  lemma MessageLayout(algorithm: Text, merkleRoot: Hash, blockFrom: nat, blockTo: nat, eventCount: nat,
                      anchorChain: Hash)
    requires CanonicalMessage(algorithm, merkleRoot, blockFrom, blockTo, eventCount, anchorChain).Some?
    ensures var m, a := CanonicalMessage(algorithm, merkleRoot, blockFrom, blockTo, eventCount, anchorChain).value,
                        |Utf8(algorithm)|;
            && |m| == a + 90
            && m[0] == a / 256 && m[1] == a % 256 && m[2..2 + a] == Utf8(algorithm)
            && m[2 + a..34 + a] == merkleRoot && m[34 + a..42 + a] == BigEndian(blockFrom, 8)
            && m[42 + a..50 + a] == BigEndian(blockTo, 8) && m[50 + a..58 + a] == BigEndian(eventCount, 8)
            && m[58 + a..] == anchorChain
  {
    hide Utf8, BigEndian;
    TwoBytes(|Utf8(algorithm)|);
  }

  /** What a slice signs: the root of its events, the blocks of its first and last event, and their number. */
  lemma SliceFields(keccak: Keccak, algorithm: Text, events: seq<EventRow>, anchorChain: Hash)
    requires events != [] && SliceMessage(keccak, algorithm, events, anchorChain).Some?
    ensures ParseMessage(SliceMessage(keccak, algorithm, events, anchorChain).value)
         == Some(AnchorFields(Utf8(algorithm), Root(keccak, EventNodes(keccak, events)), events[0].blockNumber,
                              events[|events| - 1].blockNumber, |events|, anchorChain))
  {
    hide CanonicalMessage, ParseMessage, Utf8, Root, EventNodes;
    MessageRoundTrip(algorithm, Root(keccak, EventNodes(keccak, events)), events[0].blockNumber,
                     events[|events| - 1].blockNumber, |events|, anchorChain);
  }

  /** The node of an event is keccak256 of its transaction hash and its log index in four bytes, hashed once. */
  lemma NodeOfEvent(keccak: Keccak, events: seq<EventRow>, i: nat)
    requires i < |events| && events[i].logIndex < TWO_32
    ensures EventNodes(keccak, events)[i] == keccak(events[i].txHash + BigEndian(events[i].logIndex, 4))
  {
    EventNode(keccak, events, i);
  }

  /** Two events are signed under the hash of both, in the order of the slice. */
  lemma RootOfTwoEvents(keccak: Keccak, a: EventRow, b: EventRow)
    requires a.logIndex < TWO_32 && b.logIndex < TWO_32
    ensures Root(keccak, EventNodes(keccak, [a, b]))
         == keccak(keccak(a.txHash + BigEndian(a.logIndex, 4)) + keccak(b.txHash + BigEndian(b.logIndex, 4)))
  {
    hide EventNodes, BigEndian, Root;
    var nodes := EventNodes(keccak, [a, b]);
    NodeOfEvent(keccak, [a, b], 0);
    NodeOfEvent(keccak, [a, b], 1);
    assert nodes == [nodes[0], nodes[1]];
    RootOfFew(keccak, nodes[0], nodes[1]);
  }
}
