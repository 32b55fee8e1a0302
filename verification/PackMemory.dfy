/** Signed integers, and lists of them, stored in and loaded from a byte buffer. */
module PackMemory {
  import opened Bytes

  /** The integers a `w`-byte two's complement word can hold. */
  predicate Fits(v: int, w: nat) {
    var m: int := Pow256(w);
    -m <= 2 * v < m
  }

  function Word(v: int, w: nat, big: bool): (s: seq<byte>)
    ensures |s| == w
  {
    Image(big, v % Pow256(w), w)
  }

  /** The number congruent to `u` in the range around zero. */
  function Centred(u: int, m: int): int {
    if 2 * u < m then u else u - m
  }

  function Signed(s: seq<byte>, big: bool): int {
    Centred(Value(big, s), Pow256(|s|))
  }

  lemma Wrap(v: int, m: int)
    requires m > 0 && -m <= 2 * v < m
    ensures v % m == if v >= 0 then v else v + m
  {
    assert v >= 0 ==> 0 <= v < m;
    if v < 0 {
      assert 0 <= v + m < m;
    }
  }

  lemma WordRoundTrip(v: int, w: nat, big: bool)
    requires Fits(v, w)
    ensures Signed(Word(v, w, big), big) == v
  {
    Wrap(v, Pow256(w));
    ImageRoundTrip(big, v % Pow256(w), w);
  }

  /** A word as the machine with byte order `local` reads it, swapping first when
      the writer has the other order. */
  function Read(s: seq<byte>, local: bool, remote: bool): int {
    Signed(if local != remote then Reversed(s) else s, local)
  }

  lemma ReadIsSigned(s: seq<byte>, local: bool, remote: bool)
    ensures Read(s, local, remote) == Signed(s, remote)
  {
    ReversedTwice(s);
  }

  function Words(vs: seq<int>, w: nat, big: bool): (s: seq<byte>)
    ensures |s| == w * |vs|
  {
    if vs == [] then [] else
      var rest := Words(vs[1..], w, big);
      assert w * |vs| == w + w * (|vs| - 1);
      Word(vs[0], w, big) + rest
  }

  predicate AllFit(vs: seq<int>, w: nat) {
    forall i :: 0 <= i < |vs| ==> Fits(vs[i], w)
  }

  // --------------------------------------------------------------------- the buffer

  /** `img` copied over the bytes from `p` on. */
  function Store(buf: seq<byte>, p: nat, img: seq<byte>): (r: seq<byte>)
    requires p + |img| <= |buf|
    ensures |r| == |buf|
  {
    buf[..p] + img + buf[p + |img|..]
  }

  function Load(buf: seq<byte>, p: nat, n: nat): (r: seq<byte>)
    requires p + n <= |buf|
    ensures |r| == n
  {
    buf[p..p + n]
  }

  ghost predicate Same(buf: seq<byte>, buf': seq<byte>, lo: nat, hi: nat) {
    |buf| == |buf'| && forall i :: lo <= i < hi && i < |buf| ==> buf[i] == buf'[i]
  }

  lemma LoadStored(buf: seq<byte>, p: nat, img: seq<byte>)
    requires p + |img| <= |buf|
    ensures Load(Store(buf, p, img), p, |img|) == img
  {
  }

  lemma StoreSame(buf: seq<byte>, p: nat, img: seq<byte>, lo: nat, hi: nat)
    requires p + |img| <= |buf| && (hi <= p || p + |img| <= lo)
    ensures Same(buf, Store(buf, p, img), lo, hi)
  {
  }

  lemma LoadSame(buf: seq<byte>, buf': seq<byte>, lo: nat, hi: nat, p: nat, n: nat)
    requires Same(buf, buf', lo, hi) && lo <= p && p + n <= hi && p + n <= |buf|
    ensures Load(buf, p, n) == Load(buf', p, n)
  {
  }

  /** `p` is where the image of `vs` starts. */
  ghost predicate WordsAt(buf: seq<byte>, p: nat, vs: seq<int>, w: nat, big: bool) {
    var img := Words(vs, w, big);
    p + |img| <= |buf| && Load(buf, p, |img|) == img
  }

  lemma FirstWord(buf: seq<byte>, q: nat, vs: seq<int>, w: nat, local: bool, remote: bool)
    requires vs != [] && AllFit(vs, w) && WordsAt(buf, q, vs, w, remote)
    ensures q + w <= |buf| && Read(Load(buf, q, w), local, remote) == vs[0]
    ensures WordsAt(buf, q + w, vs[1..], w, remote)
  {
    var all, rest := Words(vs, w, remote), Words(vs[1..], w, remote);
    assert all[..w] == Word(vs[0], w, remote) && all[w..] == rest;
    assert Load(buf, q, w) == all[..w];
    assert Load(buf, q + w, |rest|) == all[w..];
    ReadIsSigned(Load(buf, q, w), local, remote);
    WordRoundTrip(vs[0], w, remote);
  }

  /** The list of words read from `p` on, one after the other. */
  method ReadWords(buf: seq<byte>, p: nat, n: nat, w: nat, local: bool, remote: bool, ghost vs: seq<int>) returns (r: seq<int>)
    requires n == |vs| && AllFit(vs, w) && WordsAt(buf, p, vs, w, remote)
    ensures r == vs
  {
    var i, q := 0, p;
    ghost var todo := vs;
    r := [];
    while i < n
      invariant 0 <= i && i + |todo| == n && q >= 0
      invariant r + todo == vs && AllFit(todo, w) && WordsAt(buf, q, todo, w, remote)
    {
      FirstWord(buf, q, todo, w, local, remote);
      assert r + todo == (r + [todo[0]]) + todo[1..];
      r := r + [Read(Load(buf, q, w), local, remote)];
      i, q, todo := i + 1, q + w, todo[1..];
    }
  }
}
