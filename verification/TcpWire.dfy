/** What one fragment looks like on the byte stream
    (contrib/build-mca-comps-outside-of-tree/btl_tcp2_hdr.h, btl_tcp2.c). */
module TcpWire {
  import opened Bytes

  const HEADER_SIZE: nat := 8
  const SEGMENT_SIZE: nat := 16

  /** MCA_BTL_TCP_HDR_TYPE_SEND and MCA_BTL_TCP_HDR_TYPE_PUT. */
  const TYPE_SEND: byte := 1
  const TYPE_PUT: byte := 2

  /** MCA_BTL_TAG_BTL. */
  const TAG_BTL: byte := 0x20

  datatype Header = Header(tag: byte, kind: byte, count: nat, size: nat)

  /** A destination of a PUT: where the peer stores how many bytes. */
  datatype Segment = Segment(addr: nat, len: nat)

  datatype Message =
    | Send(tag: byte, payload: seq<byte>)
    | Put(segments: seq<Segment>, data: seq<byte>)

  /** Byte orders of the two hosts, whether headers travel in network order, and how many
      bytes lie behind a receive fragment: the larger of the eager limit and the largest
      send size. */
  datatype Link = Link(senderBig: bool, receiverBig: bool, nbo: bool, room: nat)

  predicate ValidLink(k: Link) {
    k.nbo || k.senderBig == k.receiverBig
  }

  function Flatten(parts: seq<seq<byte>>): seq<byte> {
    if parts == [] then [] else parts[0] + Flatten(parts[1..])
  }

  function Total(segments: seq<Segment>): nat {
    if segments == [] then 0 else segments[0].len + Total(segments[1..])
  }

  /** The header in the sender's memory, after conversion to network order if asked for. */
  function HeaderImage(k: Link, h: Header): (s: seq<byte>)
    ensures |s| == HEADER_SIZE
  {
    var big := k.nbo || k.senderBig;
    [h.tag, h.kind] + Image(big, h.count, 2) + Image(big, h.size, 4)
  }

  /** The header as the receiver understands the same bytes. */
  function ReadHeader(k: Link, s: seq<byte>): Header
    requires |s| == HEADER_SIZE
  {
    var big := k.nbo || k.receiverBig;
    Header(s[0], s[1], Value(big, s[2..4]), Value(big, s[4..8]))
  }

  function SegmentsImage(k: Link, segments: seq<Segment>): (s: seq<byte>)
    ensures |s| == SEGMENT_SIZE * |segments|
  {
    if segments == [] then []
    else Image(k.senderBig, segments[0].addr, 8) + Image(k.senderBig, segments[0].len, 8) + SegmentsImage(k, segments[1..])
  }

  function ReadSegments(k: Link, s: seq<byte>, count: nat): (r: seq<Segment>)
    requires |s| == SEGMENT_SIZE * count
    ensures |r| == count
  {
    if count == 0 then []
    else [Segment(Value(k.receiverBig, s[..8]), Value(k.receiverBig, s[8..16]))] + ReadSegments(k, s[16..], count - 1)
  }

  /** The data of a PUT cut at the lengths of its destinations. */
  function Cut(segments: seq<Segment>, data: seq<byte>): (r: seq<seq<byte>>)
    requires Total(segments) == |data|
    ensures |r| == |segments|
    ensures forall i :: 0 <= i < |r| ==> |r[i]| == segments[i].len
  {
    if segments == [] then [] else [data[..segments[0].len]] + Cut(segments[1..], data[segments[0].len..])
  }

  /** Segment lists are not converted, so they read back between hosts of one byte order,
      or when their numbers look the same in both. */
  predicate Readable(k: Link, segments: seq<Segment>) {
    k.senderBig == k.receiverBig || forall i :: 0 <= i < |segments| ==> Symmetric(segments[i].addr, 8) && Symmetric(segments[i].len, 8)
  }

  /** The fragments the protocol is meant for: a SEND fits behind a receive fragment, a PUT
      has one or two destinations that can be read and take exactly its data, sizes fit
      their header fields, and no buffer on the receiving side reaches 2 GiB. */
  predicate WellFormed(k: Link, m: Message) {
    match m
    case Send(_, payload) => |payload| <= k.room && |payload| <= INT_MAX
    case Put(segments, data) =>
      && 1 <= |segments| <= 2 && Total(segments) == |data| < Pow256(4)
      && (forall i :: 0 <= i < |segments| ==> segments[i].addr < Pow256(8) && segments[i].len <= INT_MAX)
      && Readable(k, segments)
  }

  function HeaderOf(m: Message): Header {
    match m
    case Send(tag, payload) => Header(tag, TYPE_SEND, 0, |payload|)
    case Put(segments, data) => Header(TAG_BTL, TYPE_PUT, |segments|, |data|)
  }

  /** The buffers a receiver fills for a message, in order. */
  function Parts(k: Link, m: Message): (r: seq<seq<byte>>)
    requires WellFormed(k, m)
    ensures 1 <= |r| <= 4 && |r[0]| == HEADER_SIZE
  {
    match m
    case Send(_, payload) =>
      [HeaderImage(k, HeaderOf(m))] + if payload == [] then [] else [payload]
    case Put(segments, data) =>
      [HeaderImage(k, HeaderOf(m)), SegmentsImage(k, segments)] + Cut(segments, data)
  }

  function Wire(k: Link, m: Message): (r: seq<byte>)
    requires WellFormed(k, m)
    ensures |r| >= HEADER_SIZE
  {
    Flatten(Parts(k, m))
  }

  ghost predicate AllWellFormed(k: Link, ms: seq<Message>) {
    forall i :: 0 <= i < |ms| ==> WellFormed(k, ms[i])
  }

  function Images(k: Link, ms: seq<Message>): (r: seq<seq<byte>>)
    requires AllWellFormed(k, ms)
    ensures |r| == |ms|
  {
    seq(|ms|, i requires 0 <= i < |ms| => Wire(k, ms[i]))
  }

  function Wires(k: Link, ms: seq<Message>): seq<byte>
    requires AllWellFormed(k, ms)
  {
    Flatten(Images(k, ms))
  }

  // ----------------------------------------------------------------- lemmas

  /** A header as numbers in eight bytes. */
  ghost predicate HeaderInBytes(s: seq<byte>, h: Header, bigEndian: bool)
    requires |s| == HEADER_SIZE
  {
    && s[0] == h.tag && s[1] == h.kind
    && if bigEndian then Digits2(s[2], s[3]) == h.count && Digits4(s[4], s[5], s[6], s[7]) == h.size
       else Digits2(s[3], s[2]) == h.count && Digits4(s[7], s[6], s[5], s[4]) == h.size
  }

  /** What the peer sees: the most significant byte first when headers travel in network
      order or the sender is big-endian, and the least significant one first otherwise. */
  lemma HeaderBytes(k: Link, h: Header)
    requires h.count < Pow256(2) && h.size < Pow256(4)
    ensures HeaderInBytes(HeaderImage(k, h), h, k.nbo || k.senderBig)
  {
    var big, s := k.nbo || k.senderBig, HeaderImage(k, h);
    assert s[2..4] == Image(big, h.count, 2) && s[4..8] == Image(big, h.size, 4);
    ImageRoundTrip(big, h.count, 2);
    ImageRoundTrip(big, h.size, 4);
    TwoDigits(s[2..4]);
    FourDigits(s[4..8]);
  }

  /** What is made of eight bytes: the same, with the receiver's byte order. */
  lemma ReadHeaderBytes(k: Link, s: seq<byte>)
    requires |s| == HEADER_SIZE
    ensures HeaderInBytes(s, ReadHeader(k, s), k.nbo || k.receiverBig)
  {
    TwoDigits(s[2..4]);
    FourDigits(s[4..8]);
  }

  lemma OnlyLast(a: nat, b: nat, c: nat, d: nat, n: nat)
    requires Digits4(a, b, c, d) == n < 0x100
    ensures a == 0 && b == 0 && c == 0 && d == n
  {
  }

  /** Five bytes sent with tag 9 in network order: the header is 09 01 00 00 00 00 00 05. */
  lemma FiveBytesHeader(k: Link, h: Header, s: seq<byte>)
    requires k.nbo && h == Header(9, TYPE_SEND, 0, 5) && s == HeaderImage(k, h)
    ensures s[0] == 9 && s[1] == 1 && s[2] == 0 && s[3] == 0 && s[4] == 0 && s[5] == 0 && s[6] == 0 && s[7] == 5
  {
    FourBytes();
    assert Pow256(2) == 0x1_0000;
    HeaderBytes(k, h);
    OnlyLast(0, 0, s[2], s[3], 0);
    OnlyLast(s[4], s[5], s[6], s[7], 5);
  }

  lemma Slice16(s: seq<byte>, t: seq<byte>, q: nat)
    requires 16 + q + 16 <= |s| && t == s[16..]
    ensures t[q..q + 16] == s[16 + q..16 + q + 16]
  {
  }

  /** Segment number `i` of a list: the bytes of its address and then of its length, in the
      sender's order. */
  lemma {:induction false} SegmentImageAt(k: Link, segments: seq<Segment>, i: nat, p: nat)
    requires i < |segments| && p == 16 * i
    ensures p + 16 <= |SegmentsImage(k, segments)|
    ensures SegmentsImage(k, segments)[p..p + 16] == Image(k.senderBig, segments[i].addr, 8) + Image(k.senderBig, segments[i].len, 8)
  {
    var s := SegmentsImage(k, segments);
    if i > 0 {
      SegmentImageAt(k, segments[1..], i - 1, p - 16);
      assert s[16..] == SegmentsImage(k, segments[1..]);
      Slice16(s, s[16..], p - 16);
    } else {
      assert s[0..16] == Image(k.senderBig, segments[0].addr, 8) + Image(k.senderBig, segments[0].len, 8);
    }
  }

  /** What is made of a list: address and length of each segment in the receiver's order. */
  lemma {:induction false} ReadSegmentAt(k: Link, s: seq<byte>, count: nat, i: nat, p: nat)
    requires |s| == SEGMENT_SIZE * count && i < count && p == 16 * i
    ensures p + 16 <= |s|
    ensures ReadSegments(k, s, count)[i] == Segment(Value(k.receiverBig, s[p..p + 16][..8]), Value(k.receiverBig, s[p..p + 16][8..]))
  {
    if i > 0 {
      ReadSegmentAt(k, s[16..], count - 1, i - 1, p - 16);
      Slice16(s, s[16..], p - 16);
    } else {
      assert s[0..16][..8] == s[..8] && s[0..16][8..] == s[8..16];
    }
  }

  lemma HeaderRoundTrip(k: Link, h: Header)
    requires ValidLink(k) && h.count < Pow256(2) && h.size < Pow256(4)
    ensures ReadHeader(k, HeaderImage(k, h)) == h
  {
    var big := k.nbo || k.senderBig;
    var s := HeaderImage(k, h);
    assert s[2..4] == Image(big, h.count, 2);
    assert s[4..8] == Image(big, h.size, 4);
    ImageRoundTrip(big, h.count, 2);
    ImageRoundTrip(big, h.size, 4);
  }

  lemma OneSegment(k: Link, g: Segment)
    requires g.addr < Pow256(8) && g.len < Pow256(8)
    ensures (Value(k.receiverBig, Image(k.senderBig, g.addr, 8)) == g.addr && Value(k.receiverBig, Image(k.senderBig, g.len, 8)) == g.len)
            <==> k.senderBig == k.receiverBig || (Symmetric(g.addr, 8) && Symmetric(g.len, 8))
  {
    ImageRoundTrip(k.senderBig, g.addr, 8);
    ImageRoundTrip(k.senderBig, g.len, 8);
    SwappedReadsBack(k.senderBig, g.addr, 8);
    SwappedReadsBack(k.senderBig, g.len, 8);
  }

  lemma ReadableNext(k: Link, segments: seq<Segment>)
    requires segments != []
    ensures Readable(k, segments) <==>
              Readable(k, segments[1..])
              && (k.senderBig == k.receiverBig || (Symmetric(segments[0].addr, 8) && Symmetric(segments[0].len, 8)))
  {
    assert forall i :: 1 <= i < |segments| ==> segments[i] == segments[1..][i - 1];
    assert forall i :: 0 <= i < |segments[1..]| ==> segments[1..][i] == segments[i + 1];
  }

  lemma ReadFirst(k: Link, segments: seq<Segment>)
    requires segments != []
    ensures var g := segments[0];
            ReadSegments(k, SegmentsImage(k, segments), |segments|)
            == [Segment(Value(k.receiverBig, Image(k.senderBig, g.addr, 8)), Value(k.receiverBig, Image(k.senderBig, g.len, 8)))]
               + ReadSegments(k, SegmentsImage(k, segments[1..]), |segments| - 1)
  {
    var s, big := SegmentsImage(k, segments), k.senderBig;
    assert s[..8] == Image(big, segments[0].addr, 8);
    assert s[8..16] == Image(big, segments[0].len, 8);
    assert s[16..] == SegmentsImage(k, segments[1..]);
  }

  lemma SameList(x: Segment, xs: seq<Segment>, y: Segment, ys: seq<Segment>)
    ensures [x] + xs == [y] + ys <==> x == y && xs == ys
  {
    assert ([x] + xs)[0] == x && ([x] + xs)[1..] == xs && ([y] + ys)[0] == y && ([y] + ys)[1..] == ys;
  }

  /** A segment list reads back as it was written exactly when it is readable. */
  lemma {:induction false} SegmentsRoundTrip(k: Link, segments: seq<Segment>)
    requires forall i :: 0 <= i < |segments| ==> segments[i].addr < Pow256(8) && segments[i].len < Pow256(8)
    ensures ReadSegments(k, SegmentsImage(k, segments), |segments|) == segments <==> Readable(k, segments)
  {
    if segments != [] {
      var g := segments[0];
      SegmentsRoundTrip(k, segments[1..]);
      ReadFirst(k, segments);
      OneSegment(k, g);
      ReadableNext(k, segments);
      assert segments == [g] + segments[1..];
      SameList(Segment(Value(k.receiverBig, Image(k.senderBig, g.addr, 8)), Value(k.receiverBig, Image(k.senderBig, g.len, 8))),
               ReadSegments(k, SegmentsImage(k, segments[1..]), |segments| - 1), g, segments[1..]);
    }
  }

  /** One byte for a host of the other byte order is not read back as one byte. */
  lemma OneByteIsMisread(k: Link)
    requires k.senderBig != k.receiverBig
    ensures ReadSegments(k, SegmentsImage(k, [Segment(0, 1)]), 1) != [Segment(0, 1)]
  {
    var segments := [Segment(0, 1)];
    var s := ToLittle(1, 8);
    EightBytes();
    assert s[0] == 1 && s[7] == 0 by {
      LittleByte(1, 8, 0);
      LittleByte(1, 8, 7);
    }
    assert Reversed(s)[0] != s[0];
    assert !Symmetric(segments[0].len, 8);
    SegmentsRoundTrip(k, segments);
  }

  lemma {:induction false} FlattenCut(segments: seq<Segment>, data: seq<byte>)
    requires Total(segments) == |data|
    ensures Flatten(Cut(segments, data)) == data
  {
    if segments != [] {
      FlattenCut(segments[1..], data[segments[0].len..]);
      assert Cut(segments, data)[1..] == Cut(segments[1..], data[segments[0].len..]);
    }
  }

  lemma FlattenCons(x: seq<byte>, parts: seq<seq<byte>>)
    ensures Flatten([x] + parts) == x + Flatten(parts)
  {
    assert ([x] + parts)[1..] == parts;
  }

  lemma {:induction false} FlattenAppend(a: seq<seq<byte>>, b: seq<seq<byte>>)
    ensures Flatten(a + b) == Flatten(a) + Flatten(b)
  {
    if a == [] {
      assert a + b == b;
    } else {
      FlattenAppend(a[1..], b);
      assert (a + b)[1..] == a[1..] + b;
    }
  }

  lemma UnfoldWires(k: Link, ms: seq<Message>, tail: seq<Message>)
    requires AllWellFormed(k, ms) && ms != [] && tail == ms[1..]
    ensures Wires(k, ms) == Wire(k, ms[0]) + Wires(k, tail)
  {
    assert Images(k, ms)[1..] == Images(k, tail);
  }

  lemma ImagesAppend(k: Link, a: seq<Message>, b: seq<Message>)
    requires AllWellFormed(k, a) && AllWellFormed(k, b)
    ensures AllWellFormed(k, a + b) && Images(k, a + b) == Images(k, a) + Images(k, b)
  {
  }

  lemma WiresAppend(k: Link, a: seq<Message>, b: seq<Message>)
    requires AllWellFormed(k, a) && AllWellFormed(k, b)
    ensures AllWellFormed(k, a + b) && Wires(k, a + b) == Wires(k, a) + Wires(k, b)
  {
    ImagesAppend(k, a, b);
    FlattenAppend(Images(k, a), Images(k, b));
  }
}
