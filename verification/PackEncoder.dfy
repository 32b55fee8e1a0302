/** __ompi_datatype_pack_description. */
module PackEncoder {
  import opened Bytes
  import opened PackMemory
  import opened PackLayout

  lemma WordsStored(buf: seq<byte>, p: nat, vs: seq<int>, w: nat, big: bool)
    requires p + |Words(vs, w, big)| <= |buf|
    ensures WordsAt(Store(buf, p, Words(vs, w, big)), p, vs, w, big)
  {
    LoadStored(buf, p, Words(vs, w, big));
  }

  /** A store keeps the words beside it. */
  lemma WordsBeside(buf: seq<byte>, p: nat, img: seq<byte>, q: nat, vs: seq<int>, w: nat, big: bool)
    requires p + |img| <= |buf| && WordsAt(buf, q, vs, w, big) && (q + w * |vs| <= p || p + |img| <= q)
    ensures WordsAt(Store(buf, p, img), q, vs, w, big)
  {
    StoreSame(buf, p, img, q, q + w * |vs|);
    WordsAtSame(buf, Store(buf, p, img), q, q + w * |vs|, q, vs, w, big);
  }

  /** Only the bytes from `lo` to `hi` may differ. */
  ghost predicate Outside(buf: seq<byte>, buf': seq<byte>, lo: nat, hi: nat) {
    Same(buf, buf', 0, lo) && Same(buf, buf', hi, |buf|)
  }

  lemma OutsideTwice(a: seq<byte>, b: seq<byte>, c: seq<byte>, lo: nat, hi: nat, lo': nat, hi': nat)
    requires Outside(a, b, lo, hi) && Outside(b, c, lo', hi') && lo <= lo' && hi' <= hi
    ensures Outside(a, c, lo, hi)
  {
  }

  lemma StoreOutside(buf: seq<byte>, p: nat, img: seq<byte>, lo: nat, hi: nat)
    requires lo <= p && p + |img| <= hi && p + |img| <= |buf|
    ensures Outside(buf, Store(buf, p, img), lo, hi)
  {
    StoreSame(buf, p, img, 0, lo);
    StoreSame(buf, p, img, hi, |buf|);
  }

  /** The header, the displacements at the next aligned place, and the integers. */
  method WriteHead(d: Desc, buf: seq<byte>, pos: nat, big: bool, align: bool) returns (r: seq<byte>)
    requires d.Node? && KidsPos(d, pos, align) <= |buf|
    ensures HeadAt(r, pos, d, big, align) && Outside(buf, r, pos, KidsPos(d, pos, align))
  {
    var disps, ints := DispsPos(d, pos, align), IntsPos(d, pos, align);
    ghost var hi := KidsPos(d, pos, align);
    var head := Words(Header(d), 4, big);
    r := Store(buf, pos, head);
    WordsStored(buf, pos, Header(d), 4, big);
    StoreOutside(buf, pos, head, pos, hi);
    if 0 < |d.disps| {
      var img := Words(d.disps, 8, big);
      WordsBeside(r, disps, img, pos, Header(d), 4, big);
      WordsStored(r, disps, d.disps, 8, big);
      StoreOutside(r, disps, img, pos, hi);
      OutsideTwice(buf, r, Store(r, disps, img), pos, hi, pos, hi);
      r := Store(r, disps, img);
    }
    var img := Words(d.ints, 4, big);
    WordsBeside(r, ints, img, pos, Header(d), 4, big);
    WordsBeside(r, ints, img, disps, d.disps, 8, big);
    WordsStored(r, ints, d.ints, 4, big);
    StoreOutside(r, ints, img, pos, hi);
    OutsideTwice(buf, r, Store(r, ints, img), pos, hi, pos, hi);
    r := Store(r, ints, img);
  }

  /** The head, the entries of the first `m` children and the descriptions of the first `n`. */
  ghost predicate PartAt(buf: seq<byte>, pos: nat, d: Desc, m: nat, n: nat, big: bool, align: bool)
    requires d.Node? && m <= |d.kids| && n <= |d.kids|
  {
    && HeadAt(buf, pos, d, big, align)
    && SlotsAt(buf, SlotsPos(d, pos, align), d.kids, m, big)
    && KidsAt(buf, d.kids, n, KidsPos(d, pos, align), big, align)
  }

  lemma SlotValue(buf: seq<byte>, p: nat, v: int, kid: Desc, big: bool)
    requires p + 4 <= |buf| && 0 <= v <= INT_MAX && if kid.Named? then v == kid.id else v >= MAX_PREDEFINED
    ensures SlotAt(Store(buf, p, Word(v, 4, big)), p, kid, big)
  {
    FourBytes();
    LoadStored(buf, p, Word(v, 4, big));
    WordRoundTrip(v, 4, big);
  }

  lemma HeadBesideSlot(buf: seq<byte>, pos: nat, d: Desc, p: nat, img: seq<byte>, big: bool, align: bool)
    requires d.Node? && HeadAt(buf, pos, d, big, align) && p + |img| <= |buf|
    requires SlotsPos(d, pos, align) <= p && p + |img| <= IntsPos(d, pos, align)
    ensures HeadAt(Store(buf, p, img), pos, d, big, align)
  {
    WordsBeside(buf, p, img, pos, Header(d), 4, big);
    WordsBeside(buf, p, img, DispsPos(d, pos, align), d.disps, 8, big);
    WordsBeside(buf, p, img, IntsPos(d, pos, align), d.ints, 4, big);
  }

  lemma SlotsBeside(buf: seq<byte>, p: nat, img: seq<byte>, slots: nat, kids: seq<Desc>, i: nat, big: bool)
    requires i < |kids| && p == slots + 4 * i && |img| == 4 && p + 4 <= |buf|
    requires SlotsAt(buf, slots, kids, i, big) && SlotAt(Store(buf, p, img), p, kids[i], big)
    ensures SlotsAt(Store(buf, p, img), slots, kids, i + 1, big)
  {
    StoreSame(buf, p, img, 0, p);
    SlotsSame(buf, Store(buf, p, img), 0, p, slots, kids, i, big);
  }

  /** One more entry. */
  lemma SlotStored(buf: seq<byte>, pos: nat, d: Desc, i: nat, p: nat, img: seq<byte>, big: bool, align: bool)
    requires d.Node? && i < |d.kids| && PartAt(buf, pos, d, i, i, big, align) && |img| == 4
    requires p == SlotsPos(d, pos, align) + 4 * i && p + 4 <= |buf| && SlotAt(Store(buf, p, img), p, d.kids[i], big)
    ensures PartAt(Store(buf, p, img), pos, d, i + 1, i, big, align)
  {
    HeadBesideSlot(buf, pos, d, p, img, big, align);
    SlotsBeside(buf, p, img, SlotsPos(d, pos, align), d.kids, i, big);
    var body := KidsPos(d, pos, align);
    StoreSame(buf, p, img, body, KidsEnd(d.kids, i, body, align));
    KidsSame(buf, Store(buf, p, img), body, d.kids, i, body, big, align);
  }

  /** One more description. */
  lemma KidPacked(buf: seq<byte>, buf': seq<byte>, pos: nat, d: Desc, i: nat, p: nat, big: bool, align: bool)
    requires d.Node? && i < |d.kids| && PartAt(buf, pos, d, i + 1, i, big, align)
    requires p == KidsEnd(d.kids, i, KidsPos(d, pos, align), align) && Same(buf, buf', 0, p)
    requires d.kids[i].Named? || DescAt(buf', p, d.kids[i], big, align)
    ensures PartAt(buf', pos, d, i + 1, i + 1, big, align)
  {
    HeadSame(buf, buf', 0, pos, d, big, align);
    SlotsSame(buf, buf', 0, p, SlotsPos(d, pos, align), d.kids, i + 1, big);
    KidsSame(buf, buf', 0, d.kids, i, KidsPos(d, pos, align), big, align);
  }

  lemma {:induction false} KidsEndGrows(kids: seq<Desc>, m: nat, n: nat, pos: nat, align: bool)
    requires m <= n <= |kids|
    ensures KidsEnd(kids, m, pos, align) <= KidsEnd(kids, n, pos, align)
  {
    if m < n {
      KidsEndGrows(kids, m, n - 1, pos, align);
    }
  }

  /** How many numbers the description of a datatype uses up for the children described in it. */
  function Count(d: Desc): nat
    decreases d
  {
    match d
    case Named(_) => 0
    case Dup(of) => Count(of)
    case Node(_, _, _, kids) => CountKids(kids, |kids|)
  }

  function CountKids(kids: seq<Desc>, n: nat): nat
    requires n <= |kids|
    decreases kids, n
  {
    if n == 0 then 0 else CountKids(kids, n - 1) + if kids[n - 1].Named? then 0 else 1 + Count(kids[n - 1])
  }

  /** The entry of a child: its id or the next number. */
  method PackSlot(d: Desc, i: nat, buf: seq<byte>, pos: nat, p: nat, next: nat, big: bool, align: bool) returns (buf': seq<byte>)
    requires d.Node? && i < |d.kids| && WellFormed(d) && PartAt(buf, pos, d, i, i, big, align)
    requires p == KidsEnd(d.kids, i, KidsPos(d, pos, align), align) <= |buf| && MAX_PREDEFINED <= next <= INT_MAX
    ensures PartAt(buf', pos, d, i + 1, i, big, align) && Outside(buf, buf', pos, p)
    ensures var slot := SlotsPos(d, pos, align) + 4 * i;
            slot + 4 <= p && Load(buf', slot, 4) == Word(if d.kids[i].Named? then d.kids[i].id else next, 4, big)
  {
    var kid, slot := d.kids[i], SlotsPos(d, pos, align) + 4 * i;
    var id := if kid.Named? then kid.id else next;
    KidsEndGrows(d.kids, 0, i, KidsPos(d, pos, align), align);
    SlotValue(buf, slot, id, kid, big);
    SlotStored(buf, pos, d, i, slot, Word(id, 4, big), big, align);
    StoreOutside(buf, slot, Word(id, 4, big), pos, p);
    buf' := Store(buf, slot, Word(id, 4, big));
    LoadStored(buf, slot, Word(id, 4, big));
  }

  /** The entry of a child and its description unless it is predefined. */
  method PackOne(d: Desc, i: nat, buf: seq<byte>, pos: nat, p: nat, next: nat, big: bool, align: bool)
    returns (buf': seq<byte>, p': nat, next': nat)
    requires d.Node? && i < |d.kids| && WellFormed(d) && PartAt(buf, pos, d, i, i, big, align)
    requires p == KidsEnd(d.kids, i, KidsPos(d, pos, align), align) && KidsEnd(d.kids, i + 1, KidsPos(d, pos, align), align) <= |buf|
    requires MAX_PREDEFINED <= next
    requires next + 4 + KidsEnd(d.kids, i + 1, KidsPos(d, pos, align), align) - p <= INT_MAX
    ensures p' == KidsEnd(d.kids, i + 1, KidsPos(d, pos, align), align) && next <= next' <= next + 4 + (p' - p)
    ensures PartAt(buf', pos, d, i + 1, i + 1, big, align) && Outside(buf, buf', pos, p')
    ensures next' == next + if d.kids[i].Named? then 0 else 1 + Count(d.kids[i])
    ensures var slot := SlotsPos(d, pos, align) + 4 * i;
            slot + 4 <= p && Load(buf', slot, 4) == Word(if d.kids[i].Named? then d.kids[i].id else next, 4, big)
    decreases d, 0, 0
  {
    var kid := d.kids[i];
    KidsEndGrows(d.kids, i, i + 1, KidsPos(d, pos, align), align);
    buf' := PackSlot(d, i, buf, pos, p, next, big, align);
    if kid.Named? {
      p', next' := p, next;
      KidPacked(buf', buf', pos, d, i, p, big, align);
    } else {
      ghost var mid := buf';
      buf', p', next' := Pack(kid, buf', p, next + 1, big, align);
      KidPacked(mid, buf', pos, d, i, p, big, align);
      LoadSame(mid, buf', 0, p, SlotsPos(d, pos, align) + 4 * i, 4);
      OutsideTwice(buf, mid, buf', pos, p', p, p');
    }
  }

  /** What the loop has done after `i` children. */
  ghost predicate Underway(d: Desc, i: nat, orig: seq<byte>, buf: seq<byte>, pos: nat, p: nat, first: nat, next: nat, big: bool, align: bool)
    requires d.Node?
  {
    && i <= |d.kids| && p == KidsEnd(d.kids, i, KidsPos(d, pos, align), align) <= End(d, pos, align)
    && first <= next <= first + 4 * i + (p - KidsPos(d, pos, align))
    && PartAt(buf, pos, d, i, i, big, align) && Outside(orig, buf, pos, End(d, pos, align))
  }

  lemma Starting(d: Desc, orig: seq<byte>, buf: seq<byte>, pos: nat, next: nat, big: bool, align: bool)
    requires d.Node? && HeadAt(buf, pos, d, big, align) && Outside(orig, buf, pos, KidsPos(d, pos, align))
    ensures Underway(d, 0, orig, buf, pos, KidsPos(d, pos, align), next, next, big, align)
  {
    KidsEndGrows(d.kids, 0, |d.kids|, KidsPos(d, pos, align), align);
    OutsideTwice(orig, buf, buf, pos, End(d, pos, align), pos, pos);
  }

  lemma Finished(d: Desc, orig: seq<byte>, buf: seq<byte>, pos: nat, p: nat, first: nat, next: nat, big: bool, align: bool)
    requires d.Node? && Underway(d, |d.kids|, orig, buf, pos, p, first, next, big, align)
    ensures p == End(d, pos, align) && first <= next <= first + (p - pos)
    ensures DescAt(buf, pos, d, big, align) && Outside(orig, buf, pos, p)
  {
  }

  /** One turn of the loop over the children. */
  method PackKid(d: Desc, i: nat, ghost orig: seq<byte>, buf: seq<byte>, pos: nat, p: nat, ghost first: nat, next: nat, big: bool, align: bool)
    returns (buf': seq<byte>, p': nat, next': nat)
    requires d.Node? && WellFormed(d) && i < |d.kids| && End(d, pos, align) <= |buf|
    requires MAX_PREDEFINED <= first && first + (End(d, pos, align) - pos) <= INT_MAX
    requires Underway(d, i, orig, buf, pos, p, first, next, big, align)
    ensures Underway(d, i + 1, orig, buf', pos, p', first, next', big, align)
    ensures next' == next + if d.kids[i].Named? then 0 else 1 + Count(d.kids[i])
    decreases d, 0, 1
  {
    KidsEndGrows(d.kids, i + 1, |d.kids|, KidsPos(d, pos, align), align);
    buf', p', next' := PackOne(d, i, buf, pos, p, next, big, align);
    OutsideTwice(orig, buf, buf', pos, End(d, pos, align), pos, p');
  }

  /** The description of a combiner. */
  method PackNode(d: Desc, buf: seq<byte>, pos: nat, next: nat, big: bool, align: bool)
    returns (buf': seq<byte>, pos': nat, next': nat)
    requires d.Node? && WellFormed(d) && End(d, pos, align) <= |buf|
    requires MAX_PREDEFINED <= next && next + (End(d, pos, align) - pos) <= INT_MAX
    ensures pos' == End(d, pos, align) && next <= next' <= next + (pos' - pos) && next' == next + Count(d)
    ensures DescAt(buf', pos, d, big, align) && Outside(buf, buf', pos, pos')
    decreases d, 1
  {
    buf' := WriteHead(d, buf, pos, big, align);
    pos', next' := KidsPos(d, pos, align), next;
    Starting(d, buf, buf', pos, next, big, align);
    var i := 0;
    while i < |d.kids|
      invariant 0 <= i <= |d.kids| && pos' >= 0 && next' == next + CountKids(d.kids, i) && Underway(d, i, buf, buf', pos, pos', next, next', big, align)
    {
      buf', pos', next' := PackKid(d, i, buf, buf', pos, pos', next, next', big, align);
      i := i + 1;
    }
    Finished(d, buf, buf', pos, pos', next, next', big, align);
  }

  /** __ompi_datatype_pack_description: it writes a description of `d` at `pos`, and
      nothing outside it. */
  method Pack(d: Desc, buf: seq<byte>, pos: nat, next: nat, big: bool, align: bool)
    returns (buf': seq<byte>, pos': nat, next': nat)
    requires WellFormed(d) && End(d, pos, align) <= |buf|
    requires MAX_PREDEFINED <= next && next + (End(d, pos, align) - pos) <= INT_MAX
    ensures pos' == End(d, pos, align) && next <= next' <= next + (pos' - pos) && next' == next + Count(d)
    ensures DescAt(buf', pos, d, big, align) && Outside(buf, buf', pos, pos')
    decreases d, 2
  {
    match d
    case Named(id) =>
      var img := Words([NAMED, id], 4, big);
      WordsStored(buf, pos, [NAMED, id], 4, big);
      StoreOutside(buf, pos, img, pos, pos + 8);
      buf', pos', next' := Store(buf, pos, img), pos + 8, next;
    case Dup(of) =>
      buf', pos', next' := Pack(of, buf, pos, next, big, align);
    case Node(_, _, _, kids) =>
      buf', pos', next' := PackNode(d, buf, pos, next, big, align);
  }
}
