/** The sending half: how a descriptor becomes a header and iovecs
    (contrib/build-mca-comps-outside-of-tree/btl_tcp2.c) and how the endpoint
    writes queued fragments piece by piece (btl_tcp2_frag.c, btl_tcp2_endpoint.c). */
module TcpSender {
  import opened Basics
  import opened Bytes
  import opened TcpWire
  import opened TcpScatter
  import opened TcpCount

  /** A fragment to send: its buffers, what is left of each, and the position among them. */
  datatype SendFrag = SendFrag(iov: seq<seq<byte>>, vec: seq<Vec>, idx: nat, cnt: nat, priority: bool)

  predicate Within(iov: seq<seq<byte>>, vec: seq<Vec>, i: nat)
    requires |iov| == |vec|
  {
    forall j :: i <= j < |vec| ==> 0 <= vec[j].base && vec[j].base + vec[j].len <= |iov[j]|
  }

  function Piece(buffer: seq<byte>, v: Vec): (r: seq<byte>)
    requires 0 <= v.base && v.base + v.len <= |buffer|
    ensures |r| == v.len
  {
    buffer[v.base..v.base + v.len]
  }

  /** The bytes the iovecs from `i` on stand for. */
  function Pieces(iov: seq<seq<byte>>, vec: seq<Vec>, i: nat): (r: seq<byte>)
    requires |iov| == |vec| && i <= |vec| && Within(iov, vec, i)
    ensures |r| == Room(vec, i, |vec| - i)
    decreases |vec| - i
  {
    if i == |vec| then [] else Piece(iov[i], vec[i]) + Pieces(iov, vec, i + 1)
  }

  predicate ValidFrag(f: SendFrag) {
    f.idx + f.cnt == |f.vec| == |f.iov| && Within(f.iov, f.vec, f.idx)
  }

  function Remaining(f: SendFrag): seq<byte>
    requires ValidFrag(f)
  {
    Pieces(f.iov, f.vec, f.idx)
  }

  /** A fragment that waits has a byte to send in its first iovec. */
  predicate Ready(f: SendFrag) {
    ValidFrag(f) && f.cnt > 0 && f.vec[f.idx].len > 0
  }

  /** None of its iovecs reaches 2 GiB. */
  predicate Sound(f: SendFrag) {
    Ready(f) && Below(f.vec, f.idx, f.cnt)
  }

  // ------------------------------------------------------------ building fragments

  lemma FlattenSnoc(a: seq<seq<byte>>, x: seq<byte>)
    ensures Flatten(a + [x]) == Flatten(a) + x
  {
    FlattenAppend(a, [x]);
    FlattenCons(x, []);
  }

  /** The iovecs of buffers none of which has been written yet. */
  function Whole(iov: seq<seq<byte>>): (r: seq<Vec>)
    ensures |r| == |iov| && Within(iov, r, 0)
  {
    seq(|iov|, i requires 0 <= i < |iov| => Vec(0, |iov[i]|))
  }

  lemma {:induction false} WholePieces(iov: seq<seq<byte>>, i: nat)
    requires i <= |iov|
    ensures Pieces(iov, Whole(iov), i) == Flatten(iov[i..])
    decreases |iov| - i
  {
    if i < |iov| {
      WholePieces(iov, i + 1);
      assert iov[i..][1..] == iov[i + 1..] && iov[i][0..|iov[i]|] == iov[i];
    }
  }

  predicate ShortSegments(segments: seq<seq<byte>>) {
    forall i :: 0 <= i < |segments| ==> |segments[i]| <= INT_MAX
  }

  /** mca_btl_tcp2_send. The size field wraps around like the 32-bit field it is. */
  method PrepareSend(k: Link, tag: byte, segments: seq<seq<byte>>, priority: bool) returns (f: SendFrag)
    ensures Ready(f) && (ShortSegments(segments) ==> Sound(f))
    ensures Remaining(f) == HeaderImage(k, Header(tag, TYPE_SEND, 0, |Flatten(segments)| % TWO32)) + Flatten(segments)
  {
    var iov: seq<seq<byte>> := [];
    var size, i := 0, 0;
    while i < |segments|
      invariant 0 <= i <= |segments| && iov == segments[..i]
      invariant size == |Flatten(segments[..i])| % TWO32
    {
      FlattenSnoc(segments[..i], segments[i]);
      assert segments[..i + 1] == segments[..i] + [segments[i]];
      size := (size + |segments[i]|) % TWO32;
      iov := iov + [segments[i]];
      i := i + 1;
    }
    assert segments[..|segments|] == segments;
    var header := HeaderImage(k, Header(tag, TYPE_SEND, 0, size));
    f := SendFrag([header] + iov, Whole([header] + iov), 0, 1 + |iov|, priority);
    WholePieces(f.iov, 0);
    assert f.iov[0..] == [header] + segments;
    FlattenCons(header, segments);
  }

  /** mca_btl_tcp2_put. */
  method PreparePut(k: Link, destinations: seq<Segment>, segments: seq<seq<byte>>, priority: bool) returns (f: SendFrag)
    ensures Ready(f) && (ShortSegments(segments) && |destinations| <= INT_MAX / SEGMENT_SIZE ==> Sound(f))
    ensures Remaining(f) == HeaderImage(k, Header(TAG_BTL, TYPE_PUT, |destinations|, |Flatten(segments)| % TWO32))
                            + (SegmentsImage(k, destinations) + Flatten(segments))
    ensures f.iov == [HeaderImage(k, Header(TAG_BTL, TYPE_PUT, |destinations|, |Flatten(segments)| % TWO32)), SegmentsImage(k, destinations)] + segments
    ensures f.vec == Whole(f.iov) && f.idx == 0
  {
    var iov: seq<seq<byte>> := [];
    var size, i := 0, 0;
    while i < |segments|
      invariant 0 <= i <= |segments| && iov == segments[..i]
      invariant size == |Flatten(segments[..i])| % TWO32
    {
      FlattenSnoc(segments[..i], segments[i]);
      assert segments[..i + 1] == segments[..i] + [segments[i]];
      size := (size + |segments[i]|) % TWO32;
      iov := iov + [segments[i]];
      i := i + 1;
    }
    assert segments[..|segments|] == segments;
    var header, list := HeaderImage(k, Header(TAG_BTL, TYPE_PUT, |destinations|, size)), SegmentsImage(k, destinations);
    f := SendFrag([header, list] + iov, Whole([header, list] + iov), 0, 2 + |iov|, priority);
    WholePieces(f.iov, 0);
    assert f.iov[0..] == [header] + ([list] + segments);
    FlattenCons(header, [list] + segments);
    FlattenCons(list, segments);
  }

  /** A well-formed SEND goes out as its wire image. */
  lemma SendIsWire(k: Link, m: Message)
    requires WellFormed(k, m) && m.Send?
    ensures HeaderImage(k, Header(m.tag, TYPE_SEND, 0, |m.payload| % TWO32)) + m.payload == Wire(k, m)
  {
    FourBytes();
    var header := HeaderImage(k, HeaderOf(m));
    if m.payload == [] {
      assert Parts(k, m) == [header] + [];
      FlattenCons(header, []);
    } else {
      assert Parts(k, m) == [header] + ([m.payload] + []);
      FlattenCons(header, [m.payload] + []);
      FlattenCons(m.payload, []);
    }
  }

  lemma PutParts(k: Link, m: Message, header: seq<byte>, list: seq<byte>)
    requires WellFormed(k, m) && m.Put? && header == HeaderImage(k, HeaderOf(m)) && list == SegmentsImage(k, m.segments)
    ensures Wire(k, m) == header + (list + m.data)
  {
    var cut := Cut(m.segments, m.data);
    FlattenCut(m.segments, m.data);
    assert Parts(k, m) == [header] + ([list] + cut);
    FlattenCons(header, [list] + cut);
    FlattenCons(list, cut);
  }

  /** A well-formed PUT goes out as its wire image. */
  lemma PutIsWire(k: Link, m: Message)
    requires WellFormed(k, m) && m.Put?
    ensures HeaderImage(k, Header(TAG_BTL, TYPE_PUT, |m.segments|, |m.data| % TWO32)) + (SegmentsImage(k, m.segments) + m.data)
            == Wire(k, m)
  {
    FourBytes();
    assert HeaderOf(m) == Header(TAG_BTL, TYPE_PUT, |m.segments|, |m.data| % TWO32);
    PutParts(k, m, HeaderImage(k, HeaderOf(m)), SegmentsImage(k, m.segments));
  }

  lemma {:induction false} SegmentsWithin(segments: seq<seq<byte>>)
    ensures forall i :: 0 <= i < |segments| ==> |segments[i]| <= |Flatten(segments)|
  {
    if segments != [] {
      SegmentsWithin(segments[1..]);
      assert forall i :: 1 <= i < |segments| ==> segments[i] == segments[1..][i - 1];
    }
  }

  /** The fragment of a well-formed SEND. */
  method SendFragment(k: Link, tag: byte, segments: seq<seq<byte>>, priority: bool, ghost m: Message) returns (f: SendFrag)
    requires m == Send(tag, Flatten(segments)) && WellFormed(k, m)
    ensures Sound(f) && Remaining(f) == Wire(k, m)
  {
    SendIsWire(k, m);
    SegmentsWithin(segments);
    f := PrepareSend(k, tag, segments, priority);
  }

  /** The fragment of a well-formed PUT. */
  method PutFragment(k: Link, destinations: seq<Segment>, segments: seq<seq<byte>>, priority: bool, ghost m: Message)
    returns (f: SendFrag)
    requires m == Put(destinations, Flatten(segments)) && WellFormed(k, m) && ShortSegments(segments)
    ensures Sound(f) && Remaining(f) == Wire(k, m)
  {
    PutIsWire(k, m);
    f := PreparePut(k, destinations, segments, priority);
  }

  // -------------------------------------------------------------- writing fragments

  /** writev on the sending end: the socket has room for so many bytes, none when it would
      block, and reports no more than an int can count. */
  method Writev(data: seq<byte>, room: nat) returns (n: nat)
    ensures n == Least(room, Least(|data|, INT_MAX))
  {
    n := Least(room, Least(|data|, INT_MAX));
  }

  lemma {:induction false} SamePieces(iov: seq<seq<byte>>, vec: seq<Vec>, vec': seq<Vec>, i: nat)
    requires |iov| == |vec| == |vec'| && i <= |vec| && Within(iov, vec, i) && forall j :: i <= j < |vec| ==> vec'[j] == vec[j]
    ensures Within(iov, vec', i) && Pieces(iov, vec', i) == Pieces(iov, vec, i)
    decreases |vec| - i
  {
    if i < |vec| {
      SamePieces(iov, vec, vec', i + 1);
    }
  }

  lemma SplitPiece(buffer: seq<byte>, v: Vec, n: nat)
    requires 0 <= v.base && v.base + v.len <= |buffer| && n < v.len
    ensures Piece(buffer, v) == Piece(buffer, Vec(v.base, n)) + Piece(buffer, Vec(v.base + n, v.len - n))
  {
  }

  lemma FirstPiece(iov: seq<seq<byte>>, vec: seq<Vec>, idx: nat, v: Vec, rest: seq<byte>)
    requires |iov| == |vec| && idx < |vec| && v == vec[idx] && 0 <= v.base && v.base + v.len <= |iov[idx]|
    requires Within(iov, vec, idx + 1) && rest == Pieces(iov, vec, idx + 1)
    ensures Within(iov, vec, idx) && Pieces(iov, vec, idx) == Piece(iov[idx], v) + rest
  {
  }

  lemma SplitsFirst(iov: seq<seq<byte>>, vec: seq<Vec>, idx: nat, n: nat, vec': seq<Vec>, v: Vec, v': Vec) returns (taken: seq<byte>)
    requires |iov| == |vec| == |vec'| && idx < |vec| && Within(iov, vec, idx) && v == vec[idx] && n < v.len
    requires vec'[idx] == v' == Vec(v.base + n, v.len - n) && forall j :: idx < j < |vec| ==> vec'[j] == vec[j]
    ensures Within(iov, vec', idx) && |taken| == n && Pieces(iov, vec, idx) == taken + Pieces(iov, vec', idx)
  {
    var rest := Pieces(iov, vec, idx + 1);
    SamePieces(iov, vec, vec', idx + 1);
    FirstPiece(iov, vec, idx, v, rest);
    FirstPiece(iov, vec', idx, v', rest);
    SplitPiece(iov[idx], v, n);
    taken := Piece(iov[idx], Vec(v.base, n));
    Associative(taken, Piece(iov[idx], v'), rest);
  }

  /** Moving past `n` bytes takes the first `n` off what remains. */
  lemma {:induction false} AdvanceTakes(iov: seq<seq<byte>>, vec: seq<Vec>, idx: nat, cnt: nat, n: nat) returns (taken: seq<byte>)
    requires |iov| == |vec| == idx + cnt && Within(iov, vec, idx) && n <= Room(vec, idx, cnt)
    ensures var c := Advance(vec, idx, cnt, n);
            Within(iov, c.vec, c.idx) && |taken| == n && Pieces(iov, vec, idx) == taken + Pieces(iov, c.vec, c.idx)
    decreases cnt
  {
    if cnt == 0 {
      taken := [];
    } else if n < vec[idx].len {
      var v := vec[idx];
      taken := SplitsFirst(iov, vec, idx, n, Advance(vec, idx, cnt, n).vec, v, Vec(v.base + n, v.len - n));
    } else {
      var c := Advance(vec, idx, cnt, n);
      var rest := AdvanceTakes(iov, vec, idx + 1, cnt - 1, n - vec[idx].len);
      taken := Piece(iov[idx], vec[idx]) + rest;
      Associative(Piece(iov[idx], vec[idx]), rest, Pieces(iov, c.vec, c.idx));
    }
  }

  /** The fragment after `n` bytes of it have been written, as the machine counts. */
  function After(f: SendFrag, n: nat): SendFrag
    requires ValidFrag(f)
  {
    var c := Advance32(f.vec, f.idx, f.cnt, n);
    f.(vec := c.vec, idx := c.idx, cnt := c.cnt)
  }

  /** Below 2 GiB exactly the written bytes go. */
  lemma SoundAfter(f: SendFrag, n: nat)
    requires Sound(f) && n <= |Remaining(f)| && n <= INT_MAX
    ensures ValidFrag(After(f, n)) && Remaining(f) == Remaining(f)[..n] + Remaining(After(f, n))
    ensures After(f, n).cnt > 0 ==> Sound(After(f, n))
  {
    NoWrap(f.vec, f.idx, f.cnt, n);
    StaysBelow(f.vec, f.idx, f.cnt, n);
    var taken := AdvanceTakes(f.iov, f.vec, f.idx, f.cnt, n);
    assert Remaining(f)[..n] == taken;
  }

  lemma TwoGigabyteShape(f: SendFrag)
    requires ValidFrag(f) && f.idx == 0 && f.vec == [Vec(0, 8), Vec(0, 16), Vec(0, 0x8000_0000)]
    ensures |Remaining(f)| == 0x8000_0018 && After(f, 25).cnt == 0
  {
    TwoGigabytes();
    assert Room(f.vec, 1, 2) == 16 + Room(f.vec, 2, 1);
  }

  /** A PUT of 2 GiB from one segment to one destination: when its header, its destination
      and one byte of data have gone out, the fragment counts as complete. */
  method TwoGigabytePut(k: Link, destination: Segment, segment: seq<byte>, priority: bool) returns (f: SendFrag)
    requires |segment| == 0x8000_0000
    ensures Ready(f) && |Remaining(f)| == 0x8000_0018 && After(f, 25).cnt == 0
  {
    f := PreparePut(k, [destination], [segment], priority);
    assert f.vec == [Vec(0, 8), Vec(0, 16), Vec(0, 0x8000_0000)];
    TwoGigabyteShape(f);
  }

  /** The loop of mca_btl_tcp2_frag_send, with its casts to int. */
  method MovePast(f0: SendFrag, n: nat) returns (f: SendFrag)
    requires ValidFrag(f0)
    ensures f == After(f0, n)
  {
    f := f0;
    var cnt: int, i := n, 0;
    while i < f0.cnt
      invariant 0 <= i <= f0.cnt && f == f0.(idx := f0.idx + i, cnt := f0.cnt - i)
      invariant Advance32(f0.vec, f0.idx, f0.cnt, n) == Advance32(f.vec, f.idx, f.cnt, cnt)
    {
      if cnt >= Int32(f.vec[f.idx].len) {
        cnt := Int32(cnt - f.vec[f.idx].len);
        f := f.(idx := f.idx + 1, cnt := f.cnt - 1);
      } else {
        BelowLength(cnt, f.vec[f.idx].len);
        f := f.(vec := f.vec[f.idx := Vec(f.vec[f.idx].base + cnt, f.vec[f.idx].len - cnt)]);
        break;
      }
      i := i + 1;
    }
  }

  /** mca_btl_tcp2_frag_send: true when the fragment counts as written. */
  method FragSend(f0: SendFrag, room: nat) returns (done: bool, f: SendFrag, written: seq<byte>)
    requires Ready(f0)
    ensures written == Remaining(f0)[..Least(room, Least(|Remaining(f0)|, INT_MAX))]
    ensures f == (if written == [] then f0 else After(f0, |written|)) && (done <==> f.cnt == 0)
    ensures Sound(f0) ==> ValidFrag(f) && written + Remaining(f) == Remaining(f0) && (done <==> written == Remaining(f0))
    ensures Sound(f0) && !done ==> Sound(f)
  {
    var cnt := Writev(Remaining(f0), room);
    written := Remaining(f0)[..cnt];
    f := f0;
    if cnt > 0 {
      f := MovePast(f0, cnt);
      if Sound(f0) {
        SoundAfter(f0, cnt);
      }
    }
    done := f.cnt == 0;
  }

  // ------------------------------------------------------------------ the endpoint

  datatype EndpointState = Connecting | ConnectAck | Closed | Failed | Connected

  predicate AllSound(queue: seq<SendFrag>) {
    forall i :: 0 <= i < |queue| ==> Sound(queue[i])
  }

  function QueueBytes(queue: seq<SendFrag>): seq<byte>
    requires AllSound(queue)
  {
    if queue == [] then [] else Remaining(queue[0]) + QueueBytes(queue[1..])
  }

  lemma {:induction false} QueueAppend(queue: seq<SendFrag>, f: SendFrag)
    requires AllSound(queue) && Sound(f)
    ensures AllSound(queue + [f]) && QueueBytes(queue + [f]) == QueueBytes(queue) + Remaining(f)
  {
    if queue == [] {
      assert (queue + [f])[1..] == [];
    } else {
      QueueAppend(queue[1..], f);
      assert (queue + [f])[1..] == queue[1..] + [f];
      Associative(Remaining(queue[0]), QueueBytes(queue[1..]), Remaining(f));
    }
  }

  /** A connected endpoint with nothing to send writes a fragment that asks for it at once. */
  predicate SendsAtOnce(state: EndpointState, current: Option<SendFrag>, f: SendFrag) {
    state == Connected && current.None? && f.priority
  }

  /** The sending half of an endpoint. */
  class Sender {
    var state: EndpointState
    /** endpoint_send_frag. */
    var current: Option<SendFrag>
    /** endpoint_frags. */
    var queue: seq<SendFrag>

    constructor ()
      ensures Valid() && Backlog() == [] && state == Closed
    {
      state, current, queue := Closed, None, [];
    }

    /** Only a connected endpoint has a current fragment, and it has none only if nothing waits. */
    ghost predicate Valid()
      reads this
    {
      && AllSound(queue)
      && (current.Some? ==> Sound(current.value))
      && (state == Connected && current.None? ==> queue == [])
      && (state != Connected ==> current.None?)
    }

    /** The bytes accepted for sending and not written yet, in order. */
    ghost function Backlog(): seq<byte>
      requires Valid()
      reads this
    {
      (if current.Some? then Remaining(current.value) else []) + QueueBytes(queue)
    }

    /** mca_btl_tcp2_endpoint_send. `rc` is 1 when the fragment went out at once,
        0 when it waits and negative when the endpoint has failed. */
    method EndpointSend(f: SendFrag, room: nat) returns (rc: int, written: seq<byte>)
      requires Valid() && Sound(f)
      modifies this
      ensures Valid() && state == (if old(state) == Closed then Connecting else old(state))
      ensures rc < 0 <==> old(state) == Failed
      ensures rc == 1 <==> SendsAtOnce(old(state), old(current), f) && written == Remaining(f)
      ensures rc <= 1 && (rc < 0 || rc == 0 || rc == 1)
      ensures written == if SendsAtOnce(old(state), old(current), f) then Remaining(f)[..Least(room, Least(|Remaining(f)|, INT_MAX))] else []
      ensures rc < 0 ==> Backlog() == old(Backlog()) && written == []
      ensures rc >= 0 ==> written + Backlog() == old(Backlog()) + Remaining(f)
    {
      rc, written := 0, [];
      QueueAppend(queue, f);
      Associative(if current.Some? then Remaining(current.value) else [], QueueBytes(queue), Remaining(f));
      if state == Failed {
        rc := -1;
      } else if state == Connected {
        if current.None? {
          var done, f' := false, f;
          if f.priority {
            done, f', written := FragSend(f, room);
          }
          if done {
            assert Remaining(f') == [];
            rc := 1;
          } else {
            current := Some(f');
          }
        } else {
          queue := queue + [f];
        }
      } else {
        queue := queue + [f];
        if state == Closed {
          state := Connecting;
        }
      }
    }

    /** mca_btl_tcp2_endpoint_connected. */
    method EndpointConnected()
      requires Valid()
      modifies this
      ensures Valid() && state == Connected && Backlog() == old(Backlog())
    {
      state := Connected;
      if |queue| > 0 && current.None? {
        assert queue == [queue[0]] + queue[1..];
        current := Some(queue[0]);
        queue := queue[1..];
      }
    }

    /** One iteration of the loop in mca_btl_tcp2_endpoint_send_handler. */
    method SendCurrent(room: nat) returns (done: bool, written: seq<byte>)
      requires Valid() && current.Some?
      modifies this
      ensures Valid() && state == old(state)
      ensures |written| == Least(room, Least(|old(Remaining(current.value))|, INT_MAX))
      ensures written + Backlog() == old(Backlog())
      ensures done <==> written == old(Remaining(current.value))
      ensures done ==> current == (if old(queue) == [] then None else Some(old(queue)[0]))
      ensures done ==> queue == (if old(queue) == [] then [] else old(queue)[1..])
      ensures !done ==> current.Some? && current.value.iov == old(current.value.iov) && queue == old(queue)
      ensures current.None? ==> Backlog() == []
    {
      var f;
      done, f, written := FragSend(current.value, room);
      Associative(written, Remaining(f), QueueBytes(queue));
      if !done {
        current := Some(f);
        return;
      }
      assert Remaining(f) == [];
      if queue == [] {
        current := None;
      } else {
        current := Some(queue[0]);
        queue := queue[1..];
      }
    }
  }
}
