/** The local part of ompi_comm_split (ompi/communicator/comm.c): every process works
    out, from the colors and keys of all, the ranks of its new communicator. */
module CommSplit {

  datatype Entry = Entry(rank: nat, key: int)

  datatype Result = Ranks(ranks: seq<nat>) | BadParam

  /** rankkeycompare: by key, then by old rank. */
  function RankKeyCompare(a: Entry, b: Entry): int {
    if a.key < b.key then -1
    else if a.key > b.key then 1
    else if a.rank < b.rank then -1
    else if a.rank == b.rank then 0
    else 1
  }

  // ------------------------------------------------------------------------- sorting

  ghost predicate Sorted(entries: seq<Entry>) {
    forall i, j :: 0 <= i < j < |entries| ==> RankKeyCompare(entries[i], entries[j]) <= 0
  }

  /** Where `e` goes among sorted entries. */
  method Place(entries: seq<Entry>, e: Entry) returns (p: nat)
    requires Sorted(entries)
    ensures p <= |entries|
    ensures forall i :: 0 <= i < p ==> RankKeyCompare(entries[i], e) <= 0
    ensures forall i :: p <= i < |entries| ==> RankKeyCompare(e, entries[i]) <= 0
  {
    p := |entries|;
    while p > 0 && RankKeyCompare(entries[p - 1], e) > 0
      invariant p <= |entries| && forall i :: p <= i < |entries| ==> RankKeyCompare(e, entries[i]) <= 0
    {
      p := p - 1;
    }
  }

  /** qsort(): all that is known of the result is that it is sorted and has the same entries. */
  method Sort(entries: seq<Entry>) returns (r: seq<Entry>)
    ensures Sorted(r) && multiset(r) == multiset(entries)
  {
    r := [];
    var i := 0;
    while i < |entries|
      invariant 0 <= i <= |entries| && Sorted(r) && multiset(r) == multiset(entries[..i])
    {
      var p := Place(r, entries[i]);
      Inserted(r, p, entries[i]);
      assert entries[..i + 1] == entries[..i] + [entries[i]];
      r := r[..p] + [entries[i]] + r[p..];
      i := i + 1;
    }
    assert entries[..|entries|] == entries;
  }

  lemma Inserted(r: seq<Entry>, p: nat, e: Entry)
    requires p <= |r| && Sorted(r)
    requires forall i :: 0 <= i < p ==> RankKeyCompare(r[i], e) <= 0
    requires forall i :: p <= i < |r| ==> RankKeyCompare(e, r[i]) <= 0
    ensures Sorted(r[..p] + [e] + r[p..]) && multiset(r[..p] + [e] + r[p..]) == multiset(r) + multiset{e}
  {
    assert r == r[..p] + r[p..];
  }

  // ----------------------------------------------------------------- what must come out

  /** Rank `a` comes before rank `b`. */
  predicate Before(keys: seq<int>, a: nat, b: nat) {
    a < |keys| && b < |keys| && (keys[a] < keys[b] || (keys[a] == keys[b] && a < b))
  }

  /** Exactly the ranks of a color, in the order of section 6.4.2 of MPI-3.1: by
      key, and by old rank where the keys are equal. Each comes once, since the order is strict. */
  ghost predicate IsGroup(colors: seq<int>, keys: seq<int>, color: int, ranks: seq<nat>)
    requires |colors| == |keys|
  {
    && (forall rank: nat :: rank in ranks <==> rank < |colors| && colors[rank] == color)
    && (forall i, j :: 0 <= i < j < |ranks| ==> Before(keys, ranks[i], ranks[j]))
  }

  /** There is only one such list, whatever sorted it. */
  lemma {:induction false} GroupIsUnique(keys: seq<int>, a: seq<nat>, b: seq<nat>)
    requires forall i, j :: 0 <= i < j < |a| ==> Before(keys, a[i], a[j])
    requires forall i, j :: 0 <= i < j < |b| ==> Before(keys, b[i], b[j])
    requires forall rank: nat :: rank in a <==> rank in b
    ensures a == b
  {
    if a == [] || b == [] {
      SameEmpty(a, b);
    } else {
      SameFirst(keys, a, b);
      forall rank: nat
        ensures rank in a[1..] <==> rank in b[1..]
      {
        InTail(keys, a, rank);
        InTail(keys, b, rank);
      }
      GroupIsUnique(keys, a[1..], b[1..]);
      assert a == [a[0]] + a[1..] && b == [b[0]] + b[1..];
    }
  }

  lemma SameEmpty(a: seq<nat>, b: seq<nat>)
    requires (a == [] || b == []) && forall rank: nat :: rank in a <==> rank in b
    ensures a == b
  {
    SomeMember(a);
    SomeMember(b);
  }

  lemma SomeMember(a: seq<nat>)
    ensures a != [] ==> exists rank: nat :: rank in a
  {
    if a != [] {
      var rank: nat := a[0];
      assert rank in a;
    }
  }

  lemma SameFirst(keys: seq<int>, a: seq<nat>, b: seq<nat>)
    requires a != [] && b != []
    requires forall i, j :: 0 <= i < j < |a| ==> Before(keys, a[i], a[j])
    requires forall i, j :: 0 <= i < j < |b| ==> Before(keys, b[i], b[j])
    requires forall rank: nat :: rank in a <==> rank in b
    ensures a[0] == b[0]
  {
    var x: nat, y: nat := a[0], b[0];
    assert x in a && y in b;
    assert x in b && y in a;
    var i :| 0 <= i < |b| && b[i] == x;
    var j :| 0 <= j < |a| && a[j] == y;
    assert i > 0 ==> Before(keys, b[0], b[i]);
    assert j > 0 ==> Before(keys, a[0], a[j]);
  }

  lemma InTail(keys: seq<int>, a: seq<nat>, rank: nat)
    requires a != [] && forall i, j :: 0 <= i < j < |a| ==> Before(keys, a[i], a[j])
    ensures rank in a[1..] <==> rank in a && rank != a[0]
  {
    if rank in a && rank != a[0] {
      var i :| 0 <= i < |a| && a[i] == rank;
      assert a[1..][i - 1] == rank;
    }
    if rank in a[1..] {
      var i :| 0 <= i < |a[1..]| && a[1..][i] == rank;
      assert Before(keys, a[0], a[i + 1]);
    }
  }

  // ---------------------------------------------------------------------- the program

  /** The entries of the processes of a color, in rank order. */
  function Chosen(colors: seq<int>, keys: seq<int>, color: int, n: nat): seq<Entry>
    requires n <= |colors| == |keys|
  {
    if n == 0 then []
    else Chosen(colors, keys, color, n - 1) + if colors[n - 1] == color then [Entry(n - 1, keys[n - 1])] else []
  }

  lemma {:induction false} ChosenEntries(colors: seq<int>, keys: seq<int>, color: int, n: nat, e: Entry)
    requires n <= |colors| == |keys|
    ensures multiset(Chosen(colors, keys, color, n))[e]
            == if e.rank < n && colors[e.rank] == color && e.key == keys[e.rank] then 1 else 0
  {
    if n > 0 {
      ChosenEntries(colors, keys, color, n - 1, e);
    }
  }

  /** The ranks of the sorted entries are the group. */
  lemma SortedIsGroup(colors: seq<int>, keys: seq<int>, color: int, sorted: seq<Entry>, ranks: seq<nat>)
    requires |colors| == |keys| && Sorted(sorted) && multiset(sorted) == multiset(Chosen(colors, keys, color, |colors|))
    requires |ranks| == |sorted| && forall i :: 0 <= i < |ranks| ==> ranks[i] == sorted[i].rank
    ensures IsGroup(colors, keys, color, ranks)
  {
    forall i | 0 <= i < |sorted|
      ensures sorted[i].rank < |colors| && colors[sorted[i].rank] == color && sorted[i].key == keys[sorted[i].rank]
    {
      assert sorted[i] in multiset(sorted);
      ChosenEntries(colors, keys, color, |colors|, sorted[i]);
    }
    forall rank: nat
      ensures rank in ranks <==> rank < |colors| && colors[rank] == color
    {
      RankIsThere(colors, keys, color, sorted, ranks, rank);
    }
    forall i, j | 0 <= i < j < |ranks|
      ensures Before(keys, ranks[i], ranks[j])
    {
      if sorted[i] == sorted[j] {
        TwiceCounts(sorted, i, j);
        ChosenEntries(colors, keys, color, |colors|, sorted[i]);
        assert false;
      }
    }
  }

  lemma RankIsThere(colors: seq<int>, keys: seq<int>, color: int, sorted: seq<Entry>, ranks: seq<nat>, rank: nat)
    requires |colors| == |keys| && multiset(sorted) == multiset(Chosen(colors, keys, color, |colors|))
    requires |ranks| == |sorted| && forall i :: 0 <= i < |ranks| ==> ranks[i] == sorted[i].rank
    requires forall i :: 0 <= i < |sorted| ==> sorted[i].rank < |colors| && colors[sorted[i].rank] == color
    ensures rank in ranks <==> rank < |colors| && colors[rank] == color
  {
    if rank < |colors| && colors[rank] == color {
      var e := Entry(rank, keys[rank]);
      ChosenEntries(colors, keys, color, |colors|, e);
      assert e in multiset(sorted);
      assert e in sorted;
      var i :| 0 <= i < |sorted| && sorted[i] == e;
      assert ranks[i] == rank;
    }
  }

  lemma TwiceCounts(s: seq<Entry>, i: nat, j: nat)
    requires i < j < |s| && s[i] == s[j]
    ensures multiset(s)[s[i]] >= 2
  {
    assert s == s[..i] + [s[i]] + s[i + 1..j] + [s[j]] + s[j + 1..];
  }

  /** The first part of ompi_comm_split on one process: count, fill, sort, and take
      the ranks. It never fails on a process that has the color. */
  method LocalRanks(colors: seq<int>, keys: seq<int>, color: int) returns (r: Result)
    requires |colors| == |keys|
    ensures r.BadParam? <==> color !in colors
    ensures r.Ranks? ==> IsGroup(colors, keys, color, r.ranks)
  {
    var mySize, i := 0, 0;
    while i < |colors|
      invariant 0 <= i <= |colors| && mySize == |Chosen(colors, keys, color, i)|
      invariant mySize == 0 <==> color !in colors[..i]
    {
      if colors[i] == color {
        mySize := mySize + 1;
      }
      assert colors[..i + 1] == colors[..i] + [colors[i]];
      i := i + 1;
    }
    assert colors[..|colors|] == colors;
    if mySize == 0 {
      return BadParam;
    }
    var sorted: seq<Entry> := [];
    i := 0;
    while i < |colors|
      invariant 0 <= i <= |colors| && sorted == Chosen(colors, keys, color, i)
    {
      if colors[i] == color {
        sorted := sorted + [Entry(i, keys[i])];
      }
      i := i + 1;
    }
    if mySize > 1 {
      sorted := Sort(sorted);
    }
    var ranks := seq(mySize, k requires 0 <= k < |sorted| => sorted[k].rank);
    SortedIsGroup(colors, keys, color, sorted, ranks);
    r := Ranks(ranks);
  }

  /** All processes of a color come to the same list, and each process is in the list
      of its own color and in no other. */
  lemma SplitConsistent(colors: seq<int>, keys: seq<int>, color: int, color': int, ranks: seq<nat>, ranks': seq<nat>)
    requires |colors| == |keys| && IsGroup(colors, keys, color, ranks) && IsGroup(colors, keys, color', ranks')
    ensures color == color' ==> ranks == ranks'
    ensures color != color' ==> forall rank: nat :: !(rank in ranks && rank in ranks')
    ensures forall rank: nat :: rank < |colors| && colors[rank] == color ==> rank in ranks
  {
    if color == color' {
      GroupIsUnique(keys, ranks, ranks');
    }
  }
}
