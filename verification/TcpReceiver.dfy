/** The receiving endpoint as an object: its fragment, iovecs and cache change in place. */
module TcpReceiver {
  import opened Basics
  import opened Bytes
  import opened TcpWire
  import opened TcpScatter
  import opened TcpCount

  /** readv on the receiving end of the connection: of the bytes in flight the network has
      so many to give now, none when it would block; they come in order, and no more than
      the buffers have room for and an int can count. */
  method Readv(pending: seq<byte>, room: nat, avail: nat) returns (data: seq<byte>, rest: seq<byte>)
    ensures data + rest == pending && |data| == Least(avail, Least(|pending|, Least(room, INT_MAX)))
  {
    var n := Least(avail, Least(|pending|, Least(room, INT_MAX)));
    data, rest := pending[..n], pending[n..];
  }

  /** What the network has for the next readv; `avail` lists it for this one and those after it. */
  function Offer(avail: seq<nat>): nat {
    if avail == [] then 0 else avail[0]
  }

  function LaterOffers(avail: seq<nat>): seq<nat> {
    if avail == [] then [] else avail[1..]
  }

  /** With nothing cached, bytes that the network has are read. */
  predicate Reads(cached: nat, avail: seq<nat>, pending0: seq<byte>, pending: seq<byte>) {
    |pending| <= |pending0| && (cached == 0 && Offer(avail) > 0 && pending0 != [] ==> |pending| < |pending0|)
  }

  /** Where a SEND payload is: behind the fragment, or still in the cache. */
  datatype Place = InFragment | InCache(pos: nat)

  /** The message that complete buffers stand for. */
  function Assemble(k: Link, header: seq<byte>, body: seq<byte>, targets: seq<seq<byte>>): Message
    requires |header| == HEADER_SIZE
  {
    var h := ReadHeader(k, header);
    if h.kind == TYPE_PUT && |body| == SEGMENT_SIZE * h.count then Put(ReadSegments(k, body, h.count), Flatten(targets))
    else Send(h.tag, body)
  }

  /** A message that is only delivered once bytes of a later one have arrived. */
  predicate Stalls(m: Message) {
    m.Put? && m.data == []
  }

  /** How far the receiver can be into a message. Only iovecs that a completed
      header or segment list has announced are pending, and the first of them
      wants at least one byte unless it was announced just now. */
  ghost predicate Stage(parts: seq<seq<byte>>, mem: seq<seq<byte>>, vec: seq<Vec>, idx: nat, cnt: nat)
    requires |mem| == |vec| == IOVECS && idx + cnt < IOVECS
  {
    && cnt > 0
    && (if idx < 2 then cnt == 1 && vec[idx].len > 0 else idx + cnt == |parts|)
    && (idx == 2 ==> vec[2].len > 0 || mem[2] == [])
    && (idx == 3 ==> vec[3].len > 0)
  }

  lemma HeaderOfParts(k: Link, m: Message)
    requires ValidLink(k) && WellFormed(k, m)
    ensures ReadHeader(k, Parts(k, m)[0]) == HeaderOf(m)
  {
    FourBytes();
    HeaderRoundTrip(k, HeaderOf(m));
  }

  lemma SegmentsOfParts(k: Link, m: Message)
    requires ValidLink(k) && WellFormed(k, m) && m.Put?
    ensures |Parts(k, m)| == 2 + |m.segments| && |Parts(k, m)[1]| == SEGMENT_SIZE * |m.segments|
    ensures ReadSegments(k, Parts(k, m)[1], |m.segments|) == m.segments
    ensures forall i :: 0 <= i < |m.segments| ==> |Parts(k, m)[2 + i]| == m.segments[i].len
    ensures Flatten(Parts(k, m)[2..]) == m.data
  {
    EightBytes();
    SegmentsRoundTrip(k, m.segments);
    FlattenCut(m.segments, m.data);
    assert Parts(k, m)[2..] == Cut(m.segments, m.data);
  }

  lemma PartsAreShort(k: Link, m: Message)
    requires WellFormed(k, m)
    ensures forall i :: 0 <= i < |Parts(k, m)| ==> |Parts(k, m)[i]| <= INT_MAX
  {
  }

  lemma AssembleParts(k: Link, m: Message, body: seq<byte>, targets: seq<seq<byte>>)
    requires ValidLink(k) && WellFormed(k, m)
    requires body == if |Parts(k, m)| >= 2 then Parts(k, m)[1] else []
    requires targets == if |Parts(k, m)| >= 2 then Parts(k, m)[2..] else []
    ensures Assemble(k, Parts(k, m)[0], body, targets) == m
  {
    HeaderOfParts(k, m);
    if m.Put? {
      SegmentsOfParts(k, m);
    }
  }

  /** One iovec of that branch: copied, or lent in place when the caller allows
      it and the cache holds all of it. */
  method CopyOne(buffer: seq<byte>, v: Vec, cache: seq<byte>, pos: nat, length: nat, dontCopy: bool)
    returns (filled: seq<byte>, place: Place, take: nat)
    requires pos + length <= |cache| && v.base == |buffer|
    ensures take == Least(v.len, length) && filled == Store(buffer, v.base, cache[pos..pos + length][..take])
    ensures place == if dontCopy && v.len <= length then InCache(pos) else InFragment
  {
    take := length;
    if take > v.len {
      take := v.len;
    }
    place := if !dontCopy || take < v.len then InFragment else InCache(pos);
    assert cache[pos..pos + length][..take] == cache[pos..pos + take];
    filled := Store(buffer, v.base, cache[pos..pos + take]);
  }

  /** Serving one iovec leaves the others to be served from the rest. */
  lemma CopyStep(mem: seq<seq<byte>>, vec: seq<Vec>, i: nat, n: nat, cache: seq<byte>, pos: nat, length: nat, take: nat, mem': seq<seq<byte>>)
    requires |mem| == |vec| && i + n <= |vec| && n > 0 && pos + length <= |cache| && take == Least(vec[i].len, length)
    requires forall j :: i <= j < i + n ==> vec[j].base == |mem[j]|
    requires mem' == mem[i := Store(mem[i], vec[i].base, cache[pos..pos + length][..take])]
    ensures Spread(mem, vec, i, n, cache[pos..pos + length])
            == Spread(mem', vec, i + 1, n - 1, cache[pos + take..pos + take + (length - take)])
    ensures Excess(vec, i, n, length) == Excess(vec, i + 1, n - 1, length - take)
  {
    SpreadStep(mem, vec, i, n, cache[pos..pos + length], take, mem');
    DropFromSlice(cache, pos, length, take);
  }

  /** btl_tcp2_frag.c, the branch that serves the iovecs from the cache. */
  method CopyFromCache(mem0: seq<seq<byte>>, vec: seq<Vec>, idx: nat, cnt: nat, cache: seq<byte>, pos0: nat, length0: nat, dontCopy: bool)
    returns (mem: seq<seq<byte>>, place: Place, pos: nat, length: nat)
    requires |mem0| == |vec| && idx + cnt <= |vec| && pos0 + length0 <= |cache| && length0 > 0
    requires forall j :: idx <= j < idx + cnt ==> vec[j].base == |mem0[j]|
    requires dontCopy ==> cnt == 1
    ensures mem == Spread(mem0, vec, idx, cnt, cache[pos0..pos0 + length0])
    ensures length == Excess(vec, idx, cnt, length0)
    ensures pos == if length == 0 then 0 else pos0 + (length0 - length)
    ensures place == if dontCopy && vec[idx].len <= length0 then InCache(pos0) else InFragment
  {
    mem, place, pos, length := mem0, InFragment, pos0, length0;
    var i := 0;
    ghost var goal := Spread(mem0, vec, idx, cnt, cache[pos0..pos0 + length0]);
    while i < cnt && length != 0
      invariant 0 <= i <= cnt && |mem| == |vec| && length <= length0 && pos == pos0 + (length0 - length)
      invariant i == 0 ==> length == length0
      invariant place == if i > 0 && dontCopy && vec[idx].len <= length0 then InCache(pos0) else InFragment
      invariant forall j :: idx + i <= j < idx + cnt ==> vec[j].base == |mem[j]|
      invariant goal == Spread(mem, vec, idx + i, cnt - i, cache[pos..pos + length])
      invariant Excess(vec, idx, cnt, length0) == Excess(vec, idx + i, cnt - i, length)
    {
      var filled, where, take := CopyOne(mem[idx + i], vec[idx + i], cache, pos, length, dontCopy);
      CopyStep(mem, vec, idx + i, cnt - i, cache, pos, length, take, mem[idx + i := filled]);
      mem := mem[idx + i := filled];
      place := where;
      pos := pos + take;
      length := length - take;
      i := i + 1;
    }
    if length == 0 {
      pos := 0;
    }
  }

  /** btl_tcp2_frag.c, advance_iov_position, with its casts to int. */
  method AdvancePosition(vec0: seq<Vec>, idx0: nat, cnt0: nat, n: nat) returns (vec: seq<Vec>, idx: nat, cnt: nat, left: int)
    requires idx0 + cnt0 <= |vec0|
    ensures Cursor32(vec, idx, cnt, left) == Advance32(vec0, idx0, cnt0, n)
    ensures Below(vec0, idx0, cnt0) && n <= INT_MAX ==> left >= 0 && Cursor(vec, idx, cnt, left) == Advance(vec0, idx0, cnt0, n)
  {
    if Below(vec0, idx0, cnt0) && n <= INT_MAX {
      NoWrap(vec0, idx0, cnt0, n);
    }
    vec, idx, cnt, left := vec0, idx0, cnt0, n;
    var i := 0;
    while i < cnt0
      invariant 0 <= i <= cnt0 && vec == vec0 && idx == idx0 + i && cnt == cnt0 - i
      invariant Advance32(vec0, idx0, cnt0, n) == Advance32(vec, idx, cnt, left)
    {
      if left < Int32(vec[idx].len) {
        BelowLength(left, vec[idx].len);
        vec := vec[idx := Vec(vec[idx].base + left, vec[idx].len - left)];
        left := 0;
        return;
      }
      left := Int32(left - vec[idx].len);
      idx := idx + 1;
      cnt := cnt - 1;
      i := i + 1;
    }
  }

  // ------------------------------------------------- inside and after a message

  /** The receiver is inside the message with buffers `parts`; `coming` goes on
      from there and `later` follows the message. */
  ghost predicate InMessage(parts: seq<seq<byte>>, later: seq<byte>, mem: seq<seq<byte>>, vec: seq<Vec>, idx: nat, cnt: nat, coming: seq<byte>) {
    && Filling(parts, mem, vec, idx, cnt) && Stage(parts, mem, vec, idx, cnt)
    && coming == ToCome(parts, mem, idx) + later
  }

  /** Every buffer of the message that has been announced so far is complete. */
  ghost predicate Announced(parts: seq<seq<byte>>, later: seq<byte>, mem: seq<seq<byte>>, vec: seq<Vec>, idx: nat, coming: seq<byte>) {
    && Filling(parts, mem, vec, idx, 0) && coming == ToCome(parts, mem, idx) + later
    && (idx == 1 || idx == 2 || idx == |parts|)
  }

  lemma FreshIsInMessage(parts: seq<seq<byte>>, later: seq<byte>, vec: seq<Vec>)
    requires 1 <= |parts| < IOVECS && |parts[0]| == HEADER_SIZE && |vec| == IOVECS && vec[0] == Vec(0, HEADER_SIZE)
    ensures InMessage(parts, later, seq(IOVECS, i => []), vec, 0, 1, Flatten(parts) + later)
  {
  }

  /** The stage after an advance. */
  lemma StageAfter(parts: seq<seq<byte>>, mem: seq<seq<byte>>, vec: seq<Vec>, idx: nat, cnt: nat, mem': seq<seq<byte>>, c: Cursor, n: nat)
    requires Filling(parts, mem, vec, idx, cnt) && Stage(parts, mem, vec, idx, cnt)
    requires c == Advance(vec, idx, cnt, n) && Filling(parts, mem', c.vec, c.idx, c.cnt)
    ensures c.cnt > 0 ==> Stage(parts, mem', c.vec, c.idx, c.cnt)
    ensures c.cnt == 0 ==> c.idx == 1 || c.idx == 2 || c.idx == |parts|
    ensures idx < 2 && c.cnt == 0 ==> c.idx == idx + 1
  {
  }

  /** One fetch: the bytes were scattered and the position advanced. */
  lemma Fetched(parts: seq<seq<byte>>, later: seq<byte>, mem: seq<seq<byte>>, vec: seq<Vec>, idx: nat, cnt: nat, data: seq<byte>, tail: seq<byte>,
      c: Cursor, mem': seq<seq<byte>>, coming: seq<byte>)
    requires InMessage(parts, later, mem, vec, idx, cnt, data + tail)
    requires c == Advance(vec, idx, cnt, |data|) && mem' == Spread(mem, vec, idx, cnt, data)
    requires c.left <= |data| ==> coming == data[|data| - c.left..] + tail
    ensures c.cnt > 0 ==> InMessage(parts, later, mem', c.vec, c.idx, c.cnt, coming)
    ensures c.cnt == 0 ==> Announced(parts, later, mem', c.vec, c.idx, coming)
  {
    SpreadAdvances(parts, mem, vec, idx, cnt, data, tail, later);
    assert Continues(parts, mem', c, data, tail, later);
    StageAfter(parts, mem, vec, idx, cnt, mem', c, |data|);
  }

  /** A completed buffer announces the next one. */
  lemma AnnounceOne(parts: seq<seq<byte>>, later: seq<byte>, mem: seq<seq<byte>>, vec: seq<Vec>, coming: seq<byte>)
    requires Announced(parts, later, mem, vec, 1, coming) && |parts| >= 2 && parts[1] != []
    ensures InMessage(parts, later, mem, vec[1 := Vec(0, |parts[1]|)], 1, 1, coming)
  {
  }

  /** A segment list announces the targets of a PUT. */
  lemma AnnounceTargets(parts: seq<seq<byte>>, later: seq<byte>, mem: seq<seq<byte>>, vec: seq<Vec>, vec': seq<Vec>, coming: seq<byte>)
    requires Announced(parts, later, mem, vec, 2, coming) && |parts| > 2 && |vec'| == IOVECS
    requires forall i :: 2 <= i < |parts| ==> vec'[i] == Vec(0, |parts[i]|)
    ensures InMessage(parts, later, mem, vec', 2, |parts| - 2, coming)
  {
  }

  /** A payload lent from the cache is what was scattered. */
  lemma LentPayload(mem: seq<seq<byte>>, vec: seq<Vec>, cache: seq<byte>, pos: nat, length: nat)
    requires |mem| == |vec| == IOVECS && mem[1] == [] && vec[1].base == 0 && pos + length <= |cache| && vec[1].len <= length
    ensures var payload := Spread(mem, vec, 1, 1, cache[pos..pos + length])[1];
            |payload| == vec[1].len && payload == cache[pos..pos + |payload|]
  {
    var data := cache[pos..pos + length];
    assert data[..vec[1].len] == cache[pos..pos + vec[1].len];
    assert Store(mem[1], 0, data[..vec[1].len]) == data[..vec[1].len];
  }

  // ------------------------------------------------------ fragment and cache

  /** The receive fragment: its iovecs, the current position among them, and the
      bytes stored for each so far, wherever `place` says they are. */
  datatype RecvFrag = RecvFrag(vec: seq<Vec>, idx: nat, cnt: nat, mem: seq<seq<byte>>, place: Place)

  /** endpoint_cache with its position and length. */
  datatype Cache = Cache(bytes: seq<byte>, pos: nat, len: nat)

  predicate ValidFrag(f: RecvFrag) {
    |f.mem| == |f.vec| == IOVECS && f.idx + f.cnt < IOVECS
  }

  predicate ValidCache(c: Cache) {
    0 < |c.bytes| <= INT_MAX && c.pos + c.len <= |c.bytes| && (c.len == 0 ==> c.pos == 0)
  }

  function Cached(c: Cache): (r: seq<byte>)
    requires ValidCache(c)
    ensures |r| == c.len
  {
    c.bytes[c.pos..c.pos + c.len]
  }

  /** MCA_BTL_TCP_FRAG_INIT_DST. */
  function InitDst(f: RecvFrag): (r: RecvFrag)
    requires ValidFrag(f)
    ensures ValidFrag(r)
  {
    RecvFrag(f.vec[0 := Vec(0, HEADER_SIZE)], 0, 1, seq(IOVECS, i => []), InFragment)
  }

  /** The iovecs point just past what their buffers hold. */
  ghost predicate Pointing(f: RecvFrag, dontCopy: bool)
    requires ValidFrag(f)
  {
    && f.place.InFragment? && (forall j :: f.idx <= j < f.idx + f.cnt ==> f.vec[j].base == |f.mem[j]|)
    && (dontCopy ==> f.idx == 1 && f.cnt == 1 && f.mem[1] == [])
  }

  /** A payload that was not copied is still in the cache. */
  ghost predicate Lent(f: RecvFrag, c: Cache)
    requires ValidFrag(f) && ValidCache(c)
  {
    f.place.InCache? ==>
      f.place.pos + |f.mem[1]| <= |c.bytes| && f.mem[1] == c.bytes[f.place.pos..f.place.pos + |f.mem[1]|]
  }

  /** `data` has been scattered over the pending iovecs and the rest of it cached. */
  ghost predicate Holding(f: RecvFrag, f': RecvFrag, c': Cache, data: seq<byte>)
    requires ValidFrag(f) && ValidCache(c') && Pointing(f, false)
  {
    && f'.vec == f.vec && f'.idx == f.idx && f'.cnt == f.cnt
    && f'.mem == Spread(f.mem, f.vec, f.idx, f.cnt, data)
    && c'.len == Excess(f.vec, f.idx, f.cnt, |data|) && Cached(c') == data[|data| - c'.len..]
  }

  lemma KeepRest(c: Cache, c': Cache)
    requires ValidCache(c) && c'.bytes == c.bytes && c'.len <= c.len
    requires c'.pos == if c'.len == 0 then 0 else c.pos + (c.len - c'.len)
    ensures ValidCache(c') && Cached(c') == Cached(c)[c.len - c'.len..]
  {
    Remainder(c.bytes, c.pos, c.len, c'.len, c'.pos);
  }

  /** A payload left in the cache is lent. */
  lemma LendsPayload(f: RecvFrag, c: Cache, f': RecvFrag, c': Cache)
    requires ValidFrag(f) && ValidCache(c) && ValidFrag(f') && ValidCache(c') && c'.bytes == c.bytes && Pointing(f, true)
    requires f.vec[1].len <= c.len && f'.place == InCache(c.pos) && f'.mem == Spread(f.mem, f.vec, 1, 1, Cached(c))
    ensures Lent(f', c')
  {
    LentPayload(f.mem, f.vec, c.bytes, c.pos, c.len);
  }

  /** Serve the pending iovecs from the cache. */
  method FetchFromCache(f: RecvFrag, c: Cache, dontCopy: bool) returns (f': RecvFrag, c': Cache)
    requires ValidFrag(f) && ValidCache(c) && Pointing(f, dontCopy) && c.len > 0
    ensures ValidFrag(f') && ValidCache(c') && Holding(f, f', c', Cached(c))
    ensures Lent(f', c') && (f'.place.InCache? <==> dontCopy && f.vec[1].len <= c.len)
  {
    var mem, place, pos, len := CopyFromCache(f.mem, f.vec, f.idx, f.cnt, c.bytes, c.pos, c.len, dontCopy);
    f', c' := f.(mem := mem, place := place), c.(pos := pos, len := len);
    KeepRest(c, c');
    if place.InCache? {
      LendsPayload(f, c, f', c');
    }
  }

  /** What readv did: the bytes went to the iovecs, and past them into the cache. */
  method ReadvInto(f: RecvFrag, c: Cache, data: seq<byte>) returns (f': RecvFrag, c': Cache)
    requires ValidFrag(f) && ValidCache(c) && Pointing(f, false) && c.len == 0
    requires |data| <= Room(f.vec, f.idx, f.cnt) + |c.bytes|
    ensures ValidFrag(f') && ValidCache(c') && Holding(f, f', c', data) && f'.place.InFragment?
  {
    var left := Excess(f.vec, f.idx, f.cnt, |data|);
    f' := f.(mem := Spread(f.mem, f.vec, f.idx, f.cnt, data));
    c' := Cache(data[|data| - left..] + c.bytes[left..], 0, left);
    assert c'.bytes[..left] == data[|data| - left..];
  }

  /** The message a complete fragment is handed up as. */
  function MessageOf(k: Link, f: RecvFrag, c: Cache): Message
    requires ValidFrag(f) && ValidCache(c) && |f.mem[0]| == HEADER_SIZE
    requires f.place.InCache? ==> f.place.pos + |f.mem[1]| <= |c.bytes|
  {
    var body := if f.place.InCache? then c.bytes[f.place.pos..f.place.pos + |f.mem[1]|] else f.mem[1];
    Assemble(k, f.mem[0], body, if f.idx < 2 then [] else f.mem[2..f.idx])
  }

  // ------------------------------------------------------------- mca_btl_tcp2_frag_recv

  /** What the stream holds next: nothing, or a message with these buffers and
      then the bytes of later messages. */
  datatype Next = Nothing | Next(parts: seq<seq<byte>>, later: seq<byte>)

  ghost predicate Expecting(next: Next, f: RecvFrag, coming: seq<byte>)
    requires ValidFrag(f)
  {
    && f.place.InFragment?
    && match next
       case Nothing => coming == [] && f == InitDst(f)
       case Next(parts, later) => InMessage(parts, later, f.mem, f.vec, f.idx, f.cnt, coming)
  }

  /** How many bytes the buffer of an iovec holds: the header, what lies behind the fragment,
      the two segments in the fragment, or what a destination names. */
  function Capacity(k: Link, m: Message, i: nat): nat {
    if i == 0 then HEADER_SIZE
    else if m.Send? then k.room
    else if i == 1 then 2 * SEGMENT_SIZE
    else if i - 2 < |m.segments| then m.segments[i - 2].len
    else 0
  }

  /** Every pending iovec lies inside its buffer. */
  ghost predicate Inside(k: Link, m: Message, f: RecvFrag)
    requires ValidFrag(f)
  {
    forall i {:trigger f.vec[i]} :: f.idx <= i < f.idx + f.cnt ==> 0 <= f.vec[i].base && f.vec[i].base + f.vec[i].len <= Capacity(k, m, i)
  }

  lemma PartsFit(k: Link, m: Message)
    requires WellFormed(k, m)
    ensures forall i :: 0 <= i < |Parts(k, m)| ==> |Parts(k, m)[i]| <= Capacity(k, m, i)
  {
  }

  /** What is announced for a message lies inside its buffers. */
  lemma InMessageInside(k: Link, m: Message, parts: seq<seq<byte>>, later: seq<byte>, f: RecvFrag, coming: seq<byte>)
    requires WellFormed(k, m) && parts == Parts(k, m) && ValidFrag(f) && InMessage(parts, later, f.mem, f.vec, f.idx, f.cnt, coming)
    ensures Inside(k, m, f)
  {
    PartsFit(k, m);
  }

  /** A payload is announced behind the fragment, whatever its length. */
  function PayloadNext(f: RecvFrag, size: nat): (r: RecvFrag)
    requires ValidFrag(f)
  {
    f.(vec := f.vec[1 := Vec(0, size)], cnt := 1)
  }

  /** It lies inside the buffer exactly when it is no longer than what lies behind the fragment. */
  lemma PayloadInsideIff(k: Link, m: Message, f: RecvFrag)
    requires ValidFrag(f) && f.idx == 1 && m.Send?
    ensures Inside(k, m, PayloadNext(f, |m.payload|)) <==> |m.payload| <= k.room
  {
    var f' := PayloadNext(f, |m.payload|);
    assert f'.vec[1] == Vec(0, |m.payload|) && f'.idx == 1 && f'.cnt == 1;
  }

  lemma ExpectingInside(k: Link, m: Message, next: Next, f: RecvFrag, coming: seq<byte>)
    requires WellFormed(k, m) && (next.Next? ==> next.parts == Parts(k, m)) && ValidFrag(f) && Expecting(next, f, coming)
    ensures Inside(k, m, f)
  {
    if next.Next? {
      InMessageInside(k, m, next.parts, next.later, f, coming);
    }
  }

  /** The targets of the message take no bytes. */
  ghost predicate NoData(parts: seq<seq<byte>>) {
    |parts| > 2 && forall i :: 2 <= i < |parts| ==> parts[i] == []
  }

  /** All announced buffers of the next message are complete. A payload is lent
      from the cache only as the last buffer of a message of two, and a message
      without data is complete only because more than it has arrived. */
  ghost predicate AllAnnounced(next: Next, f: RecvFrag, c: Cache, incoming: seq<byte>)
    requires ValidFrag(f) && ValidCache(c)
  {
    && next.Next? && f.cnt == 0 && Lent(f, c)
    && Announced(next.parts, next.later, f.mem, f.vec, f.idx, Cached(c) + incoming)
    && (f.place.InCache? ==> |next.parts| == f.idx == 2)
    && (f.idx > 2 && NoData(next.parts) ==> c.len > 0)
  }

  /** The payload of a message of two buffers may stay in the cache. */
  ghost predicate MayLend(next: Next, f: RecvFrag, dontCopy: bool)
    requires ValidFrag(f)
  {
    dontCopy ==> next.Next? && |next.parts| == 2 && f.idx == 1 && f.cnt == 1 && f.mem[1] == []
  }

  lemma ExpectingPoints(next: Next, f: RecvFrag, coming: seq<byte>)
    requires ValidFrag(f) && Expecting(next, f, coming)
    ensures Pointing(f, false)
  {
  }

  lemma {:induction false} NoRoom(vec: seq<Vec>, idx: nat, cnt: nat)
    requires idx + cnt <= |vec| && forall i :: idx <= i < idx + cnt ==> vec[i].len == 0
    ensures Room(vec, idx, cnt) == 0
    decreases cnt
  {
    if cnt > 0 {
      NoRoom(vec, idx + 1, cnt - 1);
    }
  }

  /** Whatever arrives for a message without data is left over. */
  lemma NoDataLeavesBytes(parts: seq<seq<byte>>, later: seq<byte>, f: RecvFrag, coming: seq<byte>, n: nat)
    requires ValidFrag(f) && n > 0 && NoData(parts) && f.idx >= 2
    requires InMessage(parts, later, f.mem, f.vec, f.idx, f.cnt, coming)
    ensures Excess(f.vec, f.idx, f.cnt, n) > 0
  {
    NoRoom(f.vec, f.idx, f.cnt);
  }

  /** The bytes of a fetch, from the cache if it holds any and else from the network. */
  method Fetch(f: RecvFrag, c: Cache, pending: seq<byte>, avail: seq<nat>, dontCopy: bool, ghost future: seq<byte>)
    returns (f': RecvFrag, c': Cache, rest: seq<byte>, avail': seq<nat>, n: nat, ghost data: seq<byte>)
    requires ValidFrag(f) && ValidCache(c) && Pointing(f, dontCopy)
    ensures ValidFrag(f') && ValidCache(c') && n == |data| <= INT_MAX
    ensures n == 0 ==> f' == f && c' == c && rest == pending && c.len == 0
    ensures avail' == (if c.len == 0 then LaterOffers(avail) else avail) && Reads(c.len, avail, pending, rest)
    ensures n == if c.len == 0 then Least(Offer(avail), Least(|pending|, Least(Room(f.vec, f.idx, f.cnt) + |c.bytes|, INT_MAX))) else c.len
    ensures n > 0 ==> Holding(f, f', c', data) && Lent(f', c')
    ensures data + (rest + future) == Cached(c) + (pending + future)
    ensures f'.place.InCache? ==> dontCopy && f.vec[1].len <= n
  {
    if c.len != 0 {
      f', c' := FetchFromCache(f, c, dontCopy);
      rest, avail', n, data := pending, avail, c.len, Cached(c);
    } else {
      var bytes;
      avail' := LaterOffers(avail);
      bytes, rest := Readv(pending, Room(f.vec, f.idx, f.cnt) + |c.bytes|, Offer(avail));
      n, data := |bytes|, bytes;
      Associative(data, rest, future);
      assert Cached(c) + (pending + future) == pending + future;
      if n == 0 {
        f', c' := f, c;
        assert rest == pending;
        return;
      }
      f', c' := ReadvInto(f, c, bytes);
    }
  }

  /** Every buffer of the next message is shorter than 2 GiB. */
  ghost predicate Short(next: Next) {
    next.Next? ==> forall i :: 0 <= i < |next.parts| ==> |next.parts[i]| <= INT_MAX
  }

  lemma PendingBelow(next: Next, f: RecvFrag, coming: seq<byte>)
    requires ValidFrag(f) && Expecting(next, f, coming) && Short(next)
    ensures Below(f.vec, f.idx, f.cnt)
  {
  }

  lemma RoundedIn(parts: seq<seq<byte>>, later: seq<byte>, f0: RecvFrag, f1: RecvFrag, c: Cache, data: seq<byte>, tail: seq<byte>, at: Cursor)
    requires ValidFrag(f0) && ValidFrag(f1) && ValidCache(c) && Pointing(f0, false)
    requires InMessage(parts, later, f0.mem, f0.vec, f0.idx, f0.cnt, data + tail) && Holding(f0, f1, c, data)
    requires at == Advance(f0.vec, f0.idx, f0.cnt, |data|)
    ensures at.left == c.len
    ensures at.cnt > 0 ==> InMessage(parts, later, f1.mem, at.vec, at.idx, at.cnt, Cached(c) + tail)
    ensures at.cnt == 0 ==> Announced(parts, later, f1.mem, at.vec, at.idx, Cached(c) + tail)
  {
    LeftOver(f0.vec, f0.idx, f0.cnt, |data|);
    assert Cached(c) == data[|data| - at.left..];
    Fetched(parts, later, f0.mem, f0.vec, f0.idx, f0.cnt, data, tail, at, f1.mem, Cached(c) + tail);
  }

  /** A fetch followed by the advance either leaves the message in progress with
      nothing cached, or completes all announced buffers. */
  lemma Rounded(next: Next, f0: RecvFrag, f1: RecvFrag, c: Cache, dontCopy: bool, data: seq<byte>, tail: seq<byte>,
      at: Cursor, f: RecvFrag)
    requires ValidFrag(f0) && ValidFrag(f1) && ValidCache(c) && Pointing(f0, false) && MayLend(next, f0, dontCopy)
    requires data != [] && Expecting(next, f0, data + tail) && Holding(f0, f1, c, data) && Lent(f1, c)
    requires f1.place.InCache? ==> dontCopy && f0.vec[1].len <= |data|
    requires at == Advance(f0.vec, f0.idx, f0.cnt, |data|)
    requires f == f1.(vec := at.vec, idx := at.idx, cnt := at.cnt)
    ensures at.left == c.len
    ensures f.cnt > 0 ==> c.len == 0 && Expecting(next, f, Cached(c) + tail)
    ensures f.cnt == 0 ==> AllAnnounced(next, f, c, tail)
  {
    assert |data + tail| > 0;
    RoundedIn(next.parts, next.later, f0, f1, c, data, tail, at);
    if f0.idx >= 2 && NoData(next.parts) {
      NoDataLeavesBytes(next.parts, next.later, f0, data + tail, |data|);
    }
  }

  /** One round of the receive: fetch bytes and advance past them. */
  method Round(f0: RecvFrag, c0: Cache, pending0: seq<byte>, avail0: seq<nat>, dontCopy: bool, ghost next: Next, ghost future: seq<byte>)
    returns (blocked: bool, f: RecvFrag, c: Cache, pending: seq<byte>, avail: seq<nat>)
    requires ValidFrag(f0) && ValidCache(c0) && MayLend(next, f0, dontCopy)
    requires Expecting(next, f0, Cached(c0) + (pending0 + future)) && Short(next)
    ensures ValidFrag(f) && ValidCache(c)
    ensures blocked || f.cnt != 0 ==> c.len == 0 && Expecting(next, f, Cached(c) + (pending + future))
    ensures Reads(c0.len, avail0, pending0, pending) && (blocked ==> c0.len == 0 && (Offer(avail0) == 0 || pending0 == []))
    ensures !blocked ==> f.idx + f.cnt == f0.idx + f0.cnt
    ensures !blocked && f.cnt == 0 ==> AllAnnounced(next, f, c, pending + future)
  {
    ExpectingPoints(next, f0, Cached(c0) + (pending0 + future));
    PendingBelow(next, f0, Cached(c0) + (pending0 + future));
    var n;
    ghost var data;
    f, c, pending, avail, n, data := Fetch(f0, c0, pending0, avail0, dontCopy, future);
    blocked := n == 0;
    if !blocked {
      var vec, idx, cnt, left := AdvancePosition(f.vec, f.idx, f.cnt, n);
      var f1 := f.(vec := vec, idx := idx, cnt := cnt);
      Rounded(next, f0, f, c, dontCopy, data, pending + future, Cursor(vec, idx, cnt, left), f1);
      f, c := f1, c.(len := left);
    }
  }

  /** btl_tcp2_frag.c, "read header": complete buffers announce further ones or end the message. */
  method Announce(k: Link, f: RecvFrag, ghost m: Message, ghost parts: seq<seq<byte>>, ghost later: seq<byte>, ghost coming: seq<byte>)
    returns (more: bool, f': RecvFrag, dontCopy: bool)
    requires ValidLink(k) && WellFormed(k, m) && parts == Parts(k, m) && ValidFrag(f) && f.cnt == 0
    requires Announced(parts, later, f.mem, f.vec, f.idx, coming)
    ensures ValidFrag(f') && f'.mem == f.mem && f'.place == f.place
    ensures more ==> InMessage(parts, later, f'.mem, f'.vec, f'.idx, f'.cnt, coming) && f'.idx + f'.cnt > f.idx && f.idx < |parts|
    ensures more ==> Inside(k, m, f')
    ensures dontCopy == (more && m.Send?)
    ensures more && dontCopy ==> |parts| == 2 && f'.idx == 1 && f'.cnt == 1 && f'.mem[1] == []
    ensures !more ==> f' == f && f.idx == |parts|
  {
    HeaderOfParts(k, m);
    var h := ReadHeader(k, f.mem[0]);
    more, f', dontCopy := false, f, false;
    if h.kind == TYPE_SEND {
      if f.idx == 1 && h.size != 0 {
        more, dontCopy := true, true;
        f' := PayloadNext(f, h.size);
        AnnounceOne(parts, later, f.mem, f.vec, coming);
      }
    } else if h.kind == TYPE_PUT {
      if f.idx == 1 {
        more := true;
        f' := f.(vec := f.vec[1 := Vec(0, h.count * SEGMENT_SIZE)], cnt := 1);
        AnnounceOne(parts, later, f.mem, f.vec, coming);
      } else if f.idx == 2 {
        more := true;
        SegmentsOfParts(k, m);
        var segments := ReadSegments(k, f.mem[1], h.count);
        var vec, i := f.vec, 0;
        while i < h.count
          invariant 0 <= i <= h.count && |vec| == IOVECS
          invariant forall j :: 0 <= j < i ==> vec[2 + j] == Vec(0, segments[j].len)
        {
          vec := vec[2 + i := Vec(0, segments[i].len)];
          i := i + 1;
        }
        f' := f.(vec := vec, cnt := h.count);
        forall j | 2 <= j < |parts|
          ensures vec[j] == Vec(0, |parts[j]|)
        {
          var t := j - 2;
          assert vec[2 + t] == Vec(0, segments[t].len);
        }
        AnnounceTargets(parts, later, f.mem, f.vec, vec, coming);
      }
    }
    if more {
      InMessageInside(k, m, parts, later, f', coming);
    }
  }

  /** The fragment holds all of message `m` and the stream goes on behind it. A
      message that stalls is complete only because more than it has arrived. */
  ghost predicate Completed(k: Link, m: Message, later: seq<byte>, f: RecvFrag, c: Cache, incoming: seq<byte>)
    requires ValidFrag(f) && ValidCache(c)
  {
    && |f.mem[0]| == HEADER_SIZE && Lent(f, c)
    && MessageOf(k, f, c) == m && Cached(c) + incoming == later
    && (Stalls(m) ==> c.len > 0)
  }

  lemma {:induction false} FlattenEmpty(parts: seq<seq<byte>>)
    requires Flatten(parts) == []
    ensures forall i :: 0 <= i < |parts| ==> parts[i] == []
  {
    if parts != [] {
      assert |parts[0]| + |Flatten(parts[1..])| == 0;
      FlattenEmpty(parts[1..]);
      assert forall i :: 1 <= i < |parts| ==> parts[i] == parts[1..][i - 1];
    }
  }

  lemma StallsHasNoData(k: Link, m: Message)
    requires ValidLink(k) && WellFormed(k, m) && Stalls(m)
    ensures NoData(Parts(k, m))
  {
    SegmentsOfParts(k, m);
    var targets := Parts(k, m)[2..];
    FlattenEmpty(targets);
    assert forall i :: 2 <= i < |Parts(k, m)| ==> Parts(k, m)[i] == targets[i - 2];
  }

  lemma AllComplete(k: Link, m: Message, parts: seq<seq<byte>>, later: seq<byte>, f: RecvFrag, c: Cache, incoming: seq<byte>)
    requires ValidLink(k) && WellFormed(k, m) && parts == Parts(k, m)
    requires ValidFrag(f) && ValidCache(c) && AllAnnounced(Next(parts, later), f, c, incoming) && f.idx == |parts|
    ensures Completed(k, m, later, f, c, incoming)
  {
    AssembleParts(k, m, f.mem[1], if f.idx < 2 then [] else f.mem[2..f.idx]);
    assert f.idx >= 2 ==> f.mem[2..f.idx] == parts[2..];
    assert [] + later == later;
    if Stalls(m) {
      StallsHasNoData(k, m);
    }
  }

  /** mca_btl_tcp2_frag_recv: true when the fragment is complete. It gives up only
      with an empty cache whose position is back at its start. */
  method FragRecv(k: Link, f0: RecvFrag, c0: Cache, pending0: seq<byte>, avail0: seq<nat>, ghost next: Next, ghost m: Message, ghost future: seq<byte>)
    returns (done: bool, f: RecvFrag, c: Cache, pending: seq<byte>, avail: seq<nat>)
    requires ValidLink(k) && ValidFrag(f0) && ValidCache(c0) && WellFormed(k, m) && (next.Next? ==> next.parts == Parts(k, m))
    requires Expecting(next, f0, Cached(c0) + (pending0 + future))
    ensures ValidFrag(f) && ValidCache(c)
    ensures !done ==> c.len == 0 && c.pos == 0 && Expecting(next, f, Cached(c) + (pending + future)) && Inside(k, m, f)
    ensures done ==> next.Next? && Completed(k, m, next.later, f, c, pending + future)
    ensures Reads(c0.len, avail0, pending0, pending)
  {
    f, c, pending, avail := f0, c0, pending0, avail0;
    ghost var first := true;
    PartsAreShort(k, m);
    ExpectingInside(k, m, next, f, Cached(c) + (pending + future));
    var dontCopy := false;
    while true
      invariant ValidFrag(f) && ValidCache(c) && Expecting(next, f, Cached(c) + (pending + future)) && MayLend(next, f, dontCopy)
      invariant Inside(k, m, f) && if first then c == c0 && pending == pending0 && avail == avail0 else Reads(c0.len, avail0, pending0, pending)
      decreases IOVECS - f.idx - f.cnt
    {
      var blocked, more;
      blocked, f, c, pending, avail := Round(f, c, pending, avail, dontCopy, next, future);
      first := false;
      if blocked || f.cnt != 0 {
        ExpectingInside(k, m, next, f, Cached(c) + (pending + future));
        return false, f, c, pending, avail;
      }
      more, f, dontCopy := Announce(k, f, m, next.parts, next.later, Cached(c) + (pending + future));
      if !more {
        AllComplete(k, m, next.parts, next.later, f, c, pending + future);
        return true, f, c, pending, avail;
      }
    }
  }

  // ------------------------------------------------------------------- the endpoint

  ghost function NextOf(k: Link, msgs: seq<Message>): Next
    requires AllWellFormed(k, msgs)
  {
    if msgs == [] then Nothing else Next(Parts(k, msgs[0]), Wires(k, msgs[1..]))
  }

  lemma FreshExpects(k: Link, msgs: seq<Message>, f: RecvFrag)
    requires AllWellFormed(k, msgs) && ValidFrag(f)
    ensures Expecting(NextOf(k, msgs), InitDst(f), Wires(k, msgs))
  {
    if msgs != [] {
      UnfoldWires(k, msgs, msgs[1..]);
      FreshIsInMessage(Parts(k, msgs[0]), Wires(k, msgs[1..]), InitDst(f).vec);
    }
  }

  lemma MoreComes(parts: seq<seq<byte>>, later: seq<byte>, f: RecvFrag, coming: seq<byte>, more: seq<byte>)
    requires ValidFrag(f) && InMessage(parts, later, f.mem, f.vec, f.idx, f.cnt, coming)
    ensures InMessage(parts, later + more, f.mem, f.vec, f.idx, f.cnt, coming + more)
  {
    Associative(ToCome(parts, f.mem, f.idx), later, more);
  }

  lemma NextOfMore(k: Link, msgs: seq<Message>, more: seq<Message>)
    requires AllWellFormed(k, msgs) && AllWellFormed(k, more) && msgs != []
    ensures AllWellFormed(k, msgs + more)
    ensures NextOf(k, msgs + more) == Next(Parts(k, msgs[0]), Wires(k, msgs[1..]) + Wires(k, more))
  {
    assert (msgs + more)[1..] == msgs[1..] + more;
    WiresAppend(k, msgs[1..], more);
  }

  /** A fragment that waits for a message accepts the messages queued later as well. */
  lemma ExpectsMore(k: Link, msgs: seq<Message>, more: seq<Message>, f: RecvFrag, coming: seq<byte>)
    requires AllWellFormed(k, msgs) && AllWellFormed(k, more) && ValidFrag(f) && Expecting(NextOf(k, msgs), f, coming)
    ensures AllWellFormed(k, msgs + more) && Expecting(NextOf(k, msgs + more), f, coming + Wires(k, more))
  {
    if msgs == [] {
      assert msgs + more == more && coming + Wires(k, more) == Wires(k, more);
      FreshExpects(k, more, f);
    } else {
      NextOfMore(k, msgs, more);
      MoreComes(Parts(k, msgs[0]), Wires(k, msgs[1..]), f, coming, Wires(k, more));
    }
  }

  lemma WiresNonEmpty(k: Link, msgs: seq<Message>)
    requires AllWellFormed(k, msgs)
    ensures msgs != [] ==> |Wires(k, msgs)| > 0
  {
    if msgs != [] {
      UnfoldWires(k, msgs, msgs[1..]);
    }
  }

  /** Every byte of every message has been stored: then at most a message without data is missing. */
  lemma NothingComes(k: Link, msgs: seq<Message>, f: RecvFrag)
    requires ValidLink(k) && AllWellFormed(k, msgs) && ValidFrag(f) && Expecting(NextOf(k, msgs), f, [])
    ensures msgs == [] || (|msgs| == 1 && Stalls(msgs[0]))
  {
    if msgs != [] {
      var parts, m := Parts(k, msgs[0]), msgs[0];
      assert |ToCome(parts, f.mem, f.idx)| + |Wires(k, msgs[1..])| == 0;
      WiresNonEmpty(k, msgs[1..]);
      assert f.idx < |parts| && parts[f.idx][|f.mem[f.idx]|..] == [] && f.vec[f.idx].len == 0;
      assert f.idx == 2 && f.mem[2] == [] && parts[2] == [] && Flatten(parts[3..]) == [];
      SegmentsOfParts(k, m);
      assert parts[2..][1..] == parts[3..];
    }
  }

  /** `todo` are the messages not delivered yet; the cache and then `incoming` are
      the bytes of them that have not been stored in the fragment. */
  ghost predicate Tracking(k: Link, active: bool, f: RecvFrag, c: Cache, todo: seq<Message>, incoming: seq<byte>)
    requires ValidFrag(f) && ValidCache(c)
  {
    && AllWellFormed(k, todo)
    && if active then Expecting(NextOf(k, todo), f, Cached(c) + incoming) else Cached(c) + incoming == Wires(k, todo)
  }

  lemma StartsFragment(k: Link, f: RecvFrag, c: Cache, todo: seq<Message>, incoming: seq<byte>)
    requires ValidFrag(f) && ValidCache(c) && Tracking(k, false, f, c, todo, incoming)
    ensures Tracking(k, true, InitDst(f), c, todo, incoming)
  {
    FreshExpects(k, todo, f);
  }

  /** A message that stalls is delivered only when another one follows. */
  ghost predicate NotLast(delivered: seq<Message>, todo: seq<Message>) {
    delivered != [] && Stalls(delivered[|delivered| - 1]) ==> todo != []
  }

  /** Behind a complete message the stream holds the messages that follow. */
  lemma GoesOn(k: Link, todo: seq<Message>, f: RecvFrag, c: Cache, incoming: seq<byte>)
    requires AllWellFormed(k, todo) && todo != [] && ValidFrag(f) && ValidCache(c)
    requires Completed(k, todo[0], Wires(k, todo[1..]), f, c, incoming)
    ensures Tracking(k, false, f, c, todo[1..], incoming) && (Stalls(todo[0]) ==> todo[1..] != [])
  {
    assert |Cached(c) + incoming| >= c.len;
    assert todo[1..] == [] ==> Wires(k, todo[1..]) == [];
  }

  /** One receive on the current fragment; when it completes, the next message is in it. */
  method ReceiveOne(k: Link, f0: RecvFrag, c0: Cache, pending0: seq<byte>, avail0: seq<nat>, ghost todo: seq<Message>, ghost future: seq<byte>)
    returns (done: bool, f: RecvFrag, c: Cache, pending: seq<byte>, avail: seq<nat>)
    requires ValidLink(k) && ValidFrag(f0) && ValidCache(c0) && Tracking(k, true, f0, c0, todo, pending0 + future)
    ensures ValidFrag(f) && ValidCache(c)
    ensures !done ==> c.len == 0 && Tracking(k, true, f, c, todo, pending + future)
    ensures done ==> todo != [] && Tracking(k, false, f, c, todo[1..], pending + future)
    ensures done ==> |f.mem[0]| == HEADER_SIZE && Lent(f, c) && MessageOf(k, f, c) == todo[0]
    ensures done && Stalls(todo[0]) ==> todo[1..] != []
    ensures Reads(c0.len, avail0, pending0, pending)
  {
    ghost var m := if todo == [] then Send(0, []) else todo[0];
    done, f, c, pending, avail := FragRecv(k, f0, c0, pending0, avail0, NextOf(k, todo), m, future);
    if done {
      GoesOn(k, todo, f, c, pending + future);
    }
  }

  lemma MoveFirst(a: seq<Message>, b: seq<Message>)
    requires b != []
    ensures (a + [b[0]]) + b[1..] == a + b
  {
  }

  /** The loop of the receive handler: message after message until the cache is empty. */
  method Drain(k: Link, f0: RecvFrag, c0: Cache, delivered0: seq<Message>, pending0: seq<byte>, avail0: seq<nat>, ghost todo0: seq<Message>, ghost future: seq<byte>)
    returns (active: bool, f: RecvFrag, c: Cache, delivered: seq<Message>, pending: seq<byte>, ghost todo: seq<Message>)
    requires ValidLink(k) && ValidFrag(f0) && ValidCache(c0) && Tracking(k, true, f0, c0, todo0, pending0 + future)
    requires NotLast(delivered0, todo0)
    ensures ValidFrag(f) && ValidCache(c) && c.len == 0 && Tracking(k, active, f, c, todo, pending + future)
    ensures delivered + todo == delivered0 + todo0 && delivered0 <= delivered && NotLast(delivered, todo)
    ensures Reads(c0.len, avail0, pending0, pending)
  {
    active, f, c, delivered, pending, todo := true, f0, c0, delivered0, pending0, todo0;
    var avail := avail0;
    ghost var first := true;
    while true
      invariant ValidFrag(f) && ValidCache(c) && Tracking(k, true, f, c, todo, pending + future)
      invariant delivered + todo == delivered0 + todo0 && delivered0 <= delivered && NotLast(delivered, todo)
      invariant if first then c == c0 && pending == pending0 && avail == avail0 else Reads(c0.len, avail0, pending0, pending)
      decreases |todo|
    {
      var done;
      done, f, c, pending, avail := ReceiveOne(k, f, c, pending, avail, todo, future);
      first := false;
      if !done {
        return;
      }
      active := false;
      MoveFirst(delivered, todo);
      delivered := delivered + [MessageOf(k, f, c)];
      todo := todo[1..];
      if c.len == 0 {
        return;
      }
      StartsFragment(k, f, c, todo, pending + future);
      active, f := true, InitDst(f);
    }
  }

  /** The fragment to receive into: a new one unless one is under way. */
  method Current(k: Link, active: bool, f0: RecvFrag, c: Cache, ghost todo: seq<Message>, ghost incoming: seq<byte>) returns (f: RecvFrag)
    requires ValidFrag(f0) && ValidCache(c) && Tracking(k, active, f0, c, todo, incoming)
    ensures ValidFrag(f) && Tracking(k, true, f, c, todo, incoming)
  {
    f := f0;
    if !active {
      StartsFragment(k, f0, c, todo, incoming);
      f := InitDst(f0);
    }
  }

  /** The receiving half of an endpoint. */
  class Receiver {
    const link: Link
    /** endpoint_recv_frag is set. */
    var active: bool
    var frag: RecvFrag
    var cache: Cache
    /** The messages handed to the callbacks, in order. */
    var delivered: seq<Message>

    constructor (link: Link, cacheSize: nat)
      requires ValidLink(link) && 0 < cacheSize <= INT_MAX
      ensures Valid() && this.link == link && Tracks([], []) && delivered == []
    {
      this.link := link;
      active, delivered := false, [];
      frag := RecvFrag(seq(IOVECS, i => Vec(0, 0)), 0, 0, seq(IOVECS, i => []), InFragment);
      cache := Cache(seq(cacheSize, i => 0), 0, 0);
    }

    /** Between events the cache is empty: the assertion at the end of the handler. */
    ghost predicate Valid()
      reads this
    {
      ValidLink(link) && ValidFrag(frag) && ValidCache(cache) && cache.len == 0
    }

    /** The receiver waits for the messages `todo`, of which `incoming` is still to come. */
    ghost predicate Tracks(todo: seq<Message>, incoming: seq<byte>)
      requires Valid()
      reads this
    {
      Tracking(link, active, frag, cache, todo, incoming) && NotLast(delivered, todo)
    }

    /** mca_btl_tcp2_endpoint_recv_handler in the CONNECTED state. */
    method RecvHandler(pending0: seq<byte>, avail: seq<nat>, ghost todo0: seq<Message>, ghost future: seq<byte>)
      returns (pending: seq<byte>, ghost todo: seq<Message>)
      requires Valid() && Tracks(todo0, pending0 + future)
      modifies this
      ensures Valid() && Tracks(todo, pending + future)
      ensures delivered + todo == old(delivered) + todo0 && old(delivered) <= delivered
      ensures Reads(0, avail, pending0, pending)
    {
      var f := Current(link, active, frag, cache, todo0, pending0 + future);
      active, frag, cache, delivered, pending, todo := Drain(link, f, cache, delivered, pending0, avail, todo0, future);
    }
  }
}
