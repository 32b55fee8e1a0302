/** The byte count of contrib/build-mca-comps-outside-of-tree/btl_tcp2_frag.c. Both
    loops that move past transferred bytes keep the count in an int and compare it
    with an iovec length cast to int. */
module TcpCount {
  import opened Bytes
  import opened TcpScatter

  /** A position, and the count when the loop ends. */
  datatype Cursor32 = Cursor32(vec: seq<Vec>, idx: nat, cnt: nat, left: int)

  /** The loop as the machine executes it. */
  function Advance32(vec: seq<Vec>, idx: nat, cnt: nat, left: int): (c: Cursor32)
    requires idx + cnt <= |vec|
    ensures |c.vec| == |vec| && c.idx + c.cnt == idx + cnt && idx <= c.idx
    decreases cnt
  {
    if cnt == 0 then Cursor32(vec, idx, 0, left)
    else if left < Int32(vec[idx].len) then
      BelowLength(left, vec[idx].len);
      Cursor32(vec[idx := Vec(vec[idx].base + left, vec[idx].len - left)], idx, cnt, 0)
    else Advance32(vec, idx + 1, cnt - 1, Int32(left - vec[idx].len))
  }

  lemma BelowLength(left: int, len: nat)
    requires left < Int32(len)
    ensures left < len
  {
  }

  predicate Below(vec: seq<Vec>, idx: nat, cnt: nat)
    requires idx + cnt <= |vec|
  {
    forall i :: idx <= i < idx + cnt ==> vec[i].len <= INT_MAX
  }

  function Widened(c: Cursor): Cursor32 {
    Cursor32(c.vec, c.idx, c.cnt, c.left)
  }

  /** Below 2 to the power 31 the casts change nothing. */
  lemma {:induction false} NoWrap(vec: seq<Vec>, idx: nat, cnt: nat, n: nat)
    requires idx + cnt <= |vec| && Below(vec, idx, cnt) && n <= INT_MAX
    ensures Advance32(vec, idx, cnt, n) == Widened(Advance(vec, idx, cnt, n))
    decreases cnt
  {
    if cnt > 0 && n >= vec[idx].len {
      NoWrap(vec, idx + 1, cnt - 1, n - vec[idx].len);
    }
  }

  lemma {:induction false} StaysBelow(vec: seq<Vec>, idx: nat, cnt: nat, n: nat)
    requires idx + cnt <= |vec| && Below(vec, idx, cnt)
    ensures var c := Advance(vec, idx, cnt, n); Below(c.vec, c.idx, c.cnt)
    decreases cnt
  {
    if cnt > 0 && n >= vec[idx].len {
      StaysBelow(vec, idx + 1, cnt - 1, n - vec[idx].len);
    }
  }

  // ------------------------------------------------- exactly when the position is right

  /** What writev or readv may report: some bytes, no more than fit the pending
      iovecs and `extra` bytes of cache, and no more than an int holds. */
  predicate Possible(vec: seq<Vec>, idx: nat, cnt: nat, n: nat, extra: nat)
    requires idx + cnt <= |vec|
  {
    1 <= n <= INT_MAX && n <= Room(vec, idx, cnt) + extra
  }

  /** However the transfer is split up, the position is right after the bytes transferred. */
  ghost predicate OnTrack(vec: seq<Vec>, idx: nat, cnt: nat, counts: seq<nat>, extra: nat)
    requires idx + cnt <= |vec|
    decreases |counts|
  {
    counts != [] && Possible(vec, idx, cnt, counts[0], extra) ==>
      var c := Advance(vec, idx, cnt, counts[0]);
      Advance32(vec, idx, cnt, counts[0]) == Widened(c) && OnTrack(c.vec, c.idx, c.cnt, counts[1..], extra)
  }

  lemma {:induction false} BelowIsOnTrack(vec: seq<Vec>, idx: nat, cnt: nat, counts: seq<nat>, extra: nat)
    requires idx + cnt <= |vec| && Below(vec, idx, cnt)
    ensures OnTrack(vec, idx, cnt, counts, extra)
    decreases |counts|
  {
    if counts != [] && Possible(vec, idx, cnt, counts[0], extra) {
      var c := Advance(vec, idx, cnt, counts[0]);
      NoWrap(vec, idx, cnt, counts[0]);
      StaysBelow(vec, idx, cnt, counts[0]);
      BelowIsOnTrack(c.vec, c.idx, c.cnt, counts[1..], extra);
    }
  }

  /** With nothing to transfer, the position moves past empty iovecs only. */
  lemma {:induction false} AdvanceNothing(vec: seq<Vec>, idx: nat, cnt: nat)
    requires idx + cnt <= |vec|
    ensures var c := Advance(vec, idx, cnt, 0);
            c.vec == vec && c.left == 0 && forall i :: idx <= i < c.idx ==> vec[i].len == 0
    decreases cnt
  {
    if cnt > 0 {
      if vec[idx].len == 0 {
        AdvanceNothing(vec, idx + 1, cnt - 1);
      } else {
        assert vec[idx := Vec(vec[idx].base + 0, vec[idx].len - 0)] == vec;
      }
    }
  }

  /** An iovec of 2 GiB or more throws the position off for some counts. */
  lemma {:induction false} ThrownOff(vec: seq<Vec>, idx: nat, cnt: nat, extra: nat) returns (counts: seq<nat>)
    requires idx + cnt <= |vec| && !Below(vec, idx, cnt)
    ensures !OnTrack(vec, idx, cnt, counts, extra)
    decreases cnt
  {
    if vec[idx].len > INT_MAX {
      counts := [INT_MAX];
      assert Possible(vec, idx, cnt, counts[0], extra);
      assert Advance(vec, idx, cnt, INT_MAX).idx == idx;
    } else if vec[idx].len == 0 {
      counts := ThrownOff(vec, idx + 1, cnt - 1, extra);
      assert Int32(counts[0]) == counts[0];
    } else {
      var c := Advance(vec, idx, cnt, vec[idx].len);
      assert c == Advance(vec, idx + 1, cnt - 1, 0);
      AdvanceNothing(vec, idx + 1, cnt - 1);
      var rest := ThrownOff(vec, c.idx, c.cnt, extra);
      counts := [vec[idx].len] + rest;
      assert counts[1..] == rest;
      assert Possible(vec, idx, cnt, counts[0], extra);
    }
  }

  /** The position is right for every series of counts exactly when every pending iovec is shorter than 2 GiB. */
  lemma OnTrackIffBelow(vec: seq<Vec>, idx: nat, cnt: nat, extra: nat)
    requires idx + cnt <= |vec|
    ensures (forall counts :: OnTrack(vec, idx, cnt, counts, extra)) <==> Below(vec, idx, cnt)
  {
    if Below(vec, idx, cnt) {
      forall counts: seq<nat>
        ensures OnTrack(vec, idx, cnt, counts, extra)
      {
        BelowIsOnTrack(vec, idx, cnt, counts, extra);
      }
    } else {
      var counts := ThrownOff(vec, idx, cnt, extra);
    }
  }

  /** A PUT of 2 GiB: when its header, its segment and one byte of data have gone out,
      the fragment counts as complete. */
  lemma TwoGigabytes()
    ensures var vec := [Vec(0, 8), Vec(0, 16), Vec(0, 0x8000_0000)];
            Advance32(vec, 0, 3, 25).cnt == 0 && Advance(vec, 0, 3, 25).vec[2] == Vec(1, 0x7fff_ffff)
  {
    var vec := [Vec(0, 8), Vec(0, 16), Vec(0, 0x8000_0000)];
    assert Int32(0x8000_0000) == -0x8000_0000;
    assert Advance32(vec, 0, 3, 25) == Advance32(vec, 1, 2, 17) == Advance32(vec, 2, 1, 1);
    assert Advance32(vec, 2, 1, 1) == Advance32(vec, 3, 0, Int32(1 - 0x8000_0000));
    assert Advance(vec, 0, 3, 25) == Advance(vec, 1, 2, 17) == Advance(vec, 2, 1, 1);
  }
}
