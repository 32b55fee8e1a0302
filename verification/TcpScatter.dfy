/** The resumable receiver of contrib/build-mca-comps-outside-of-tree/btl_tcp2_frag.c
    and btl_tcp2_endpoint.c: scatter what arrives over the pending iovecs, keep
    what was read too much in the endpoint cache, and let each completed header
    decide which iovecs come next. */
module TcpScatter {
  import opened Bytes
  import opened TcpWire

  /** An iovec that still wants `len` bytes at offset `base` of its buffer. */
  datatype Vec = Vec(base: int, len: nat)

  /** MCA_BTL_TCP_FRAG_IOVEC_NUMBER + 1: the last one is lent to the cache. */
  const IOVECS: nat := 5

  function Least(a: nat, b: nat): nat {
    if a < b then a else b
  }

  function Store(buffer: seq<byte>, base: nat, data: seq<byte>): seq<byte>
    requires base <= |buffer|
  {
    buffer[..base] + data
  }

  /** Buffers after `data` is scattered over `n` iovecs from `i` on. */
  function Spread(mem: seq<seq<byte>>, vec: seq<Vec>, i: nat, n: nat, data: seq<byte>): (r: seq<seq<byte>>)
    requires |mem| == |vec| && i + n <= |vec|
    requires forall j :: i <= j < i + n ==> 0 <= vec[j].base <= |mem[j]|
    ensures |r| == |mem|
    decreases n
  {
    if n == 0 || data == [] then mem
    else
      var w := Least(vec[i].len, |data|);
      Spread(mem[i := Store(mem[i], vec[i].base, data[..w])], vec, i + 1, n - 1, data[w..])
  }

  /** The iovec position after `left` bytes have been consumed. */
  datatype Cursor = Cursor(vec: seq<Vec>, idx: nat, cnt: nat, left: nat)

  function Advance(vec: seq<Vec>, idx: nat, cnt: nat, left: nat): (c: Cursor)
    requires idx + cnt <= |vec|
    ensures |c.vec| == |vec| && c.idx + c.cnt == idx + cnt && idx <= c.idx
    ensures c.cnt > 0 ==> c.left == 0 && c.vec[c.idx].len > 0
    ensures left == 0 ==> c.left == 0
    decreases cnt
  {
    if cnt == 0 then Cursor(vec, idx, 0, left)
    else if left < vec[idx].len then
      Cursor(vec[idx := Vec(vec[idx].base + left, vec[idx].len - left)], idx, cnt, 0)
    else Advance(vec, idx + 1, cnt - 1, left - vec[idx].len)
  }

  /** Buffers before `idx` are complete, `idx` is being filled, later ones are empty. */
  ghost predicate Filling(parts: seq<seq<byte>>, mem: seq<seq<byte>>, vec: seq<Vec>, idx: nat, cnt: nat) {
    && |mem| == |vec| == IOVECS && idx + cnt <= |parts| < IOVECS
    && (forall i :: 0 <= i < idx ==> mem[i] == parts[i])
    && (cnt > 0 ==> mem[idx] <= parts[idx] && vec[idx] == Vec(|mem[idx]|, |parts[idx]| - |mem[idx]|))
    && (forall i :: idx < i < idx + cnt ==> mem[i] == [] && vec[i] == Vec(0, |parts[i]|))
    && (forall i :: idx + cnt <= i < IOVECS ==> mem[i] == [])
  }

  /** The bytes of the message that are still to come. */
  function ToCome(parts: seq<seq<byte>>, mem: seq<seq<byte>>, idx: nat): seq<byte>
    requires |parts| < |mem|
  {
    if idx < |parts| && |mem[idx]| <= |parts[idx]| then parts[idx][|mem[idx]|..] + Flatten(parts[idx + 1..]) else []
  }

  /** Taking `w` bytes from both sides of two descriptions of the same stream. */
  lemma TakeBoth(data: seq<byte>, tail: seq<byte>, coming: seq<byte>, rest: seq<byte>, w: nat)
    requires data + tail == coming + rest && w <= |data| && w <= |coming|
    ensures data[..w] == coming[..w] && data[w..] + tail == coming[w..] + rest
  {
    assert data[..w] == (data + tail)[..w] == coming[..w];
    assert data[w..] + tail == (data + tail)[w..] == coming[w..] + rest;
  }

  lemma NextPart(parts: seq<seq<byte>>, mem: seq<seq<byte>>, idx: nat)
    requires |parts| < |mem| && idx < |parts| && mem[idx] == parts[idx]
    requires idx + 1 < |parts| ==> mem[idx + 1] == []
    ensures ToCome(parts, mem, idx) == ToCome(parts, mem, idx + 1)
  {
    if idx + 1 < |parts| {
      assert parts[idx + 1..][1..] == parts[idx + 2..];
    }
  }

  lemma TakePart(part: seq<byte>, got: nat, w: nat, after: seq<byte>)
    requires got + w <= |part|
    ensures (part[got..] + after)[..w] == part[got..got + w] && (part[got..] + after)[w..] == part[got + w..] + after
  {
  }

  lemma StorePart(part: seq<byte>, buffer: seq<byte>, piece: seq<byte>)
    requires |buffer| + |piece| <= |part| && buffer <= part && piece == part[|buffer|..|buffer| + |piece|]
    ensures Store(buffer, |buffer|, piece) == part[..|buffer| + |piece|]
  {
  }

  /** Storing the next `w` bytes into the buffer being filled. */
  lemma FillOne(parts: seq<seq<byte>>, mem: seq<seq<byte>>, idx: nat, data: seq<byte>, tail: seq<byte>, rest: seq<byte>,
      w: nat, mem': seq<seq<byte>>)
    requires idx < |parts| < |mem| && mem[idx] <= parts[idx] && |mem[idx]| + w <= |parts[idx]| && w <= |data|
    requires data + tail == ToCome(parts, mem, idx) + rest
    requires mem' == mem[idx := Store(mem[idx], |mem[idx]|, data[..w])]
    ensures mem'[idx] == parts[idx][..|mem[idx]| + w]
    ensures data[w..] + tail == ToCome(parts, mem', idx) + rest
  {
    var part, got := parts[idx], |mem[idx]|;
    TakeBoth(data, tail, ToCome(parts, mem, idx), rest, w);
    TakePart(part, got, w, Flatten(parts[idx + 1..]));
    StorePart(part, mem[idx], data[..w]);
  }

  lemma SpreadStep(mem: seq<seq<byte>>, vec: seq<Vec>, i: nat, n: nat, data: seq<byte>, w: nat, mem': seq<seq<byte>>)
    requires |mem| == |vec| && i + n <= |vec| && n > 0
    requires forall j :: i <= j < i + n ==> vec[j].base == |mem[j]|
    requires w == Least(vec[i].len, |data|) && mem' == mem[i := Store(mem[i], vec[i].base, data[..w])]
    ensures Spread(mem, vec, i, n, data) == Spread(mem', vec, i + 1, n - 1, data[w..])
  {
    if data == [] {
      assert Store(mem[i], vec[i].base, data[..w]) == mem[i];
      assert mem' == mem;
    }
  }

  /** The scattered bytes end inside the iovec being filled. */
  lemma SpreadStops(parts: seq<seq<byte>>, mem: seq<seq<byte>>, vec: seq<Vec>, idx: nat, cnt: nat,
      data: seq<byte>, tail: seq<byte>, rest: seq<byte>)
    requires Filling(parts, mem, vec, idx, cnt) && cnt > 0 && |data| < vec[idx].len
    requires data + tail == ToCome(parts, mem, idx) + rest
    ensures var mem' := Spread(mem, vec, idx, cnt, data);
            && Filling(parts, mem', vec[idx := Vec(vec[idx].base + |data|, vec[idx].len - |data|)], idx, cnt)
            && tail == ToCome(parts, mem', idx) + rest
  {
    var w := |data|;
    var mem' := mem[idx := Store(mem[idx], vec[idx].base, data[..w])];
    SpreadStep(mem, vec, idx, cnt, data, w, mem');
    FillOne(parts, mem, idx, data, tail, rest, w, mem');
    assert data[w..] + tail == tail;
  }

  /** The message goes on in `mem` at cursor `c`, and the bytes of `data` that
      were left over go on in the stream. */
  ghost predicate Continues(parts: seq<seq<byte>>, mem: seq<seq<byte>>, c: Cursor, data: seq<byte>, tail: seq<byte>, rest: seq<byte>) {
    && Filling(parts, mem, c.vec, c.idx, c.cnt)
    && c.left <= |data|
    && data[|data| - c.left..] + tail == ToCome(parts, mem, c.idx) + rest
  }

  ghost predicate Lands(parts: seq<seq<byte>>, mem: seq<seq<byte>>, vec: seq<Vec>, idx: nat, cnt: nat,
      data: seq<byte>, tail: seq<byte>, rest: seq<byte>)
    requires Filling(parts, mem, vec, idx, cnt)
  {
    Continues(parts, Spread(mem, vec, idx, cnt, data), Advance(vec, idx, cnt, |data|), data, tail, rest)
  }

  lemma ContinuesInside(parts: seq<seq<byte>>, mem: seq<seq<byte>>, c: Cursor, data: seq<byte>, w: nat, tail: seq<byte>, rest: seq<byte>)
    requires w <= |data| && Continues(parts, mem, c, data[w..], tail, rest)
    ensures Continues(parts, mem, c, data, tail, rest)
  {
    assert data[w..][|data[w..]| - c.left..] == data[|data| - c.left..];
  }

  lemma ContinuesAfter(parts: seq<seq<byte>>, mem: seq<seq<byte>>, vec: seq<Vec>, idx: nat, data: seq<byte>, tail: seq<byte>, rest: seq<byte>)
    requires Filling(parts, mem, vec, idx, 0)
    requires data + tail == ToCome(parts, mem, idx) + rest
    ensures Lands(parts, mem, vec, idx, 0, data, tail, rest)
  {
    assert data[0..] == data;
  }

  lemma ContinuesWithin(parts: seq<seq<byte>>, mem: seq<seq<byte>>, vec: seq<Vec>, idx: nat, cnt: nat,
      data: seq<byte>, tail: seq<byte>, rest: seq<byte>)
    requires Filling(parts, mem, vec, idx, cnt) && cnt > 0 && |data| < vec[idx].len
    requires data + tail == ToCome(parts, mem, idx) + rest
    ensures Lands(parts, mem, vec, idx, cnt, data, tail, rest)
  {
    SpreadStops(parts, mem, vec, idx, cnt, data, tail, rest);
    assert data[|data|..] + tail == tail;
  }

  lemma LandsOn(parts: seq<seq<byte>>, mem: seq<seq<byte>>, vec: seq<Vec>, idx: nat, cnt: nat,
      data: seq<byte>, tail: seq<byte>, rest: seq<byte>, w: nat, mem': seq<seq<byte>>)
    requires Filling(parts, mem, vec, idx, cnt) && cnt > 0
    requires w == vec[idx].len <= |data| && mem' == mem[idx := Store(mem[idx], vec[idx].base, data[..w])]
    requires Filling(parts, mem', vec, idx + 1, cnt - 1)
    requires Lands(parts, mem', vec, idx + 1, cnt - 1, data[w..], tail, rest)
    ensures Lands(parts, mem, vec, idx, cnt, data, tail, rest)
  {
    SpreadStep(mem, vec, idx, cnt, data, w, mem');
    ContinuesInside(parts, Spread(mem, vec, idx, cnt, data), Advance(vec, idx, cnt, |data|), data, w, tail, rest);
  }

  lemma FillWhole(parts: seq<seq<byte>>, mem: seq<seq<byte>>, vec: seq<Vec>, idx: nat, cnt: nat,
      data: seq<byte>, tail: seq<byte>, rest: seq<byte>, w: nat, mem': seq<seq<byte>>)
    requires Filling(parts, mem, vec, idx, cnt) && cnt > 0 && w == vec[idx].len <= |data|
    requires data + tail == ToCome(parts, mem, idx) + rest
    requires mem' == mem[idx := Store(mem[idx], vec[idx].base, data[..w])]
    ensures Filling(parts, mem', vec, idx + 1, cnt - 1)
    ensures data[w..] + tail == ToCome(parts, mem', idx + 1) + rest
  {
    FillOne(parts, mem, idx, data, tail, rest, w, mem');
    NextPart(parts, mem', idx);
  }

  /** The iovec being filled becomes complete. */
  lemma CompleteOne(parts: seq<seq<byte>>, mem: seq<seq<byte>>, vec: seq<Vec>, idx: nat, cnt: nat,
      data: seq<byte>, tail: seq<byte>, rest: seq<byte>, w: nat) returns (mem': seq<seq<byte>>)
    requires Filling(parts, mem, vec, idx, cnt) && cnt > 0 && w == vec[idx].len <= |data|
    requires data + tail == ToCome(parts, mem, idx) + rest
    ensures Filling(parts, mem', vec, idx + 1, cnt - 1)
    ensures data[w..] + tail == ToCome(parts, mem', idx + 1) + rest
    ensures Lands(parts, mem', vec, idx + 1, cnt - 1, data[w..], tail, rest) ==> Lands(parts, mem, vec, idx, cnt, data, tail, rest)
  {
    mem' := mem[idx := Store(mem[idx], vec[idx].base, data[..w])];
    FillWhole(parts, mem, vec, idx, cnt, data, tail, rest, w, mem');
    if Lands(parts, mem', vec, idx + 1, cnt - 1, data[w..], tail, rest) {
      LandsOn(parts, mem, vec, idx, cnt, data, tail, rest, w, mem');
    }
  }

  lemma LandsHere(parts: seq<seq<byte>>, mem: seq<seq<byte>>, vec: seq<Vec>, idx: nat, cnt: nat,
      data: seq<byte>, tail: seq<byte>, rest: seq<byte>)
    requires Filling(parts, mem, vec, idx, cnt) && (cnt > 0 ==> |data| < vec[idx].len)
    requires data + tail == ToCome(parts, mem, idx) + rest
    ensures Lands(parts, mem, vec, idx, cnt, data, tail, rest)
  {
    if cnt == 0 {
      ContinuesAfter(parts, mem, vec, idx, data, tail, rest);
    } else {
      ContinuesWithin(parts, mem, vec, idx, cnt, data, tail, rest);
    }
  }

  /** Scattering the next bytes of the stream and advancing past them continues
      the same message; what is left over continues the stream. */
  lemma {:induction false} SpreadAdvances(parts: seq<seq<byte>>, mem: seq<seq<byte>>, vec: seq<Vec>, idx: nat, cnt: nat,
      data: seq<byte>, tail: seq<byte>, rest: seq<byte>)
    requires Filling(parts, mem, vec, idx, cnt)
    requires data + tail == ToCome(parts, mem, idx) + rest
    ensures Lands(parts, mem, vec, idx, cnt, data, tail, rest)
    decreases cnt
  {
    if cnt > 0 && vec[idx].len <= |data| {
      var mem' := CompleteOne(parts, mem, vec, idx, cnt, data, tail, rest, vec[idx].len);
      SpreadAdvances(parts, mem', vec, idx + 1, cnt - 1, data[vec[idx].len..], tail, rest);
    } else {
      LandsHere(parts, mem, vec, idx, cnt, data, tail, rest);
    }
  }

  /** Bytes the pending iovecs can take. */
  function Room(vec: seq<Vec>, idx: nat, cnt: nat): nat
    requires idx + cnt <= |vec|
    decreases cnt
  {
    if cnt == 0 then 0 else vec[idx].len + Room(vec, idx + 1, cnt - 1)
  }

  /** What `n` bytes leave over once the pending iovecs are full. */
  function Excess(vec: seq<Vec>, idx: nat, cnt: nat, n: nat): nat
    requires idx + cnt <= |vec|
  {
    if n < Room(vec, idx, cnt) then 0 else n - Room(vec, idx, cnt)
  }

  lemma {:induction false} LeftOver(vec: seq<Vec>, idx: nat, cnt: nat, n: nat)
    requires idx + cnt <= |vec|
    ensures Advance(vec, idx, cnt, n).left == Excess(vec, idx, cnt, n)
    decreases cnt
  {
    if cnt > 0 && n >= vec[idx].len {
      LeftOver(vec, idx + 1, cnt - 1, n - vec[idx].len);
    }
  }

  lemma DropFromSlice(s: seq<byte>, from: nat, length: nat, skip: nat)
    requires from + length <= |s| && skip <= length
    ensures s[from..from + length][skip..] == s[from + skip..from + skip + (length - skip)]
  {
  }

  /** The last `left` bytes of a slice, found at its end or, when there are none, at the start. */
  lemma Remainder(s: seq<byte>, from: nat, length: nat, left: nat, at: nat)
    requires from + length <= |s| && left <= length && at == if left == 0 then 0 else from + (length - left)
    ensures at + left <= |s| && s[at..at + left] == s[from..from + length][length - left..]
  {
  }
}
