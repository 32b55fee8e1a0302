/** How long packed descriptions get: the length depends on where one starts only
    through its place between two multiples of 8. */
module PackSize {
  import opened PackLayout

  lemma {:induction false} EndPeriodic(d: Desc, p: nat, align: bool)
    ensures End(d, p + 8, align) == End(d, p, align) + 8
    decreases d
  {
    match d
    case Named(_) =>
    case Dup(of) => EndPeriodic(of, p, align);
    case Node(_, _, _, kids) => KidsPeriodic(kids, |kids|, KidsPos(d, p, align), align);
  }

  lemma {:induction false} KidsPeriodic(kids: seq<Desc>, n: nat, p: nat, align: bool)
    requires n <= |kids|
    ensures KidsEnd(kids, n, p + 8, align) == KidsEnd(kids, n, p, align) + 8
    decreases kids, n
  {
    if n > 0 {
      KidsPeriodic(kids, n - 1, p, align);
      if !kids[n - 1].Named? {
        EndPeriodic(kids[n - 1], KidsEnd(kids, n - 1, p, align), align);
      }
    }
  }

  lemma {:induction false} EndAt(d: Desc, k: nat, r: nat, align: bool)
    ensures End(d, 8 * k + r, align) == 8 * k + End(d, r, align)
    decreases k
  {
    if k > 0 {
      EndAt(d, k - 1, r, align);
      EndPeriodic(d, 8 * (k - 1) + r, align);
    }
  }

  /** How far apart two ends may be: the same place, or 4 or 8 bytes later. */
  predicate Apart(e: int, e': int) {
    e % 4 == 0 && (e' == e || e' == e + 4 || e' == e + 8)
  }

  /** Starting 4 bytes later ends at most 8 bytes later. */
  lemma {:induction false} EndApart(d: Desc, p: nat, align: bool)
    requires p % 4 == 0
    ensures Apart(End(d, p, align), End(d, p + 4, align))
    decreases d
  {
    match d
    case Named(_) =>
    case Dup(of) => EndApart(of, p, align);
    case Node(_, _, _, kids) => KidsApart(kids, |kids|, KidsPos(d, p, align), KidsPos(d, p + 4, align), align);
  }

  lemma {:induction false} KidsApart(kids: seq<Desc>, n: nat, p: nat, p': nat, align: bool)
    requires n <= |kids| && Apart(p, p')
    ensures Apart(KidsEnd(kids, n, p, align), KidsEnd(kids, n, p', align))
    decreases kids, n
  {
    if n > 0 {
      KidsApart(kids, n - 1, p, p', align);
      if !kids[n - 1].Named? {
        var q, q' := KidsEnd(kids, n - 1, p, align), KidsEnd(kids, n - 1, p', align);
        EndApart(kids[n - 1], q, align);
        EndPeriodic(kids[n - 1], q, align);
      }
    }
  }

  /** `size` is enough for a description of `d`, and 4 bytes more are enough for one
      that does not start at a multiple of 8. */
  predicate Enough(d: Desc, size: nat, align: bool) {
    End(d, 0, align) <= size && End(d, 4, align) <= size + 8
  }

  /** The exact length is always enough. */
  lemma ExactIsEnough(d: Desc, align: bool)
    ensures Enough(d, End(d, 0, align), align)
  {
    EndApart(d, 0, align);
  }

  lemma EnoughAnywhere(d: Desc, size: nat, p: nat, align: bool)
    requires Enough(d, size, align) && p % 4 == 0
    ensures End(d, p, align) <= p + size + 4
  {
    EndAt(d, p / 8, p % 8, align);
    assert p % 8 == 0 || p % 8 == 4;
  }

  /** What set_args counts for the first `n` children, given the size it finds for each derived one. */
  function Counted(kids: seq<Desc>, sizes: seq<nat>, n: nat): nat
    requires n <= |kids| == |sizes|
  {
    if n == 0 then 0 else Counted(kids, sizes, n - 1) + (if kids[n - 1].Named? then 4 else sizes[n - 1]) + 4
  }

  ghost predicate AllEnough(kids: seq<Desc>, sizes: seq<nat>, align: bool) {
    |kids| == |sizes| && forall i :: 0 <= i < |kids| && !kids[i].Named? ==> Enough(kids[i], sizes[i], align)
  }

  lemma {:induction false} KidsFit(kids: seq<Desc>, sizes: seq<nat>, n: nat, p: nat, align: bool)
    requires AllEnough(kids, sizes, align) && n <= |kids| && p % 4 == 0
    ensures KidsEnd(kids, n, p, align) <= p + Counted(kids, sizes, n) && KidsEnd(kids, n, p, align) % 4 == 0
  {
    if n > 0 {
      KidsFit(kids, sizes, n - 1, p, align);
      if !kids[n - 1].Named? {
        var q := KidsEnd(kids, n - 1, p, align);
        EnoughAnywhere(kids[n - 1], sizes[n - 1], q, align);
        EndApart(kids[n - 1], q, align);
      }
    }
  }

  /** What set_args computes is enough, whatever sizes that are enough it finds in the children. */
  lemma NodeFits(d: Desc, sizes: seq<nat>, align: bool)
    requires d.Node? && AllEnough(d.kids, sizes, align)
    ensures Enough(d, (4 + |d.ints| + |d.kids|) * 4 + |d.disps| * 8 + Counted(d.kids, sizes, |d.kids|), align)
  {
    KidsFit(d.kids, sizes, |d.kids|, KidsPos(d, 0, align), align);
    KidsFit(d.kids, sizes, |d.kids|, KidsPos(d, 4, align), align);
  }

  lemma DupFits(of: Desc, size: nat, align: bool)
    requires of.Named? || Enough(of, size, align)
    ensures Enough(Dup(of), Counted([of], [size], 1), align)
  {
    assert Counted([of], [size], 0) == 0;
  }
}
