/** Context-id agreement (ompi/communicator/comm_cid.c).

    Every member of a parent communicator runs three handlers in turn.
    `GetNext` reserves a locally free id and starts a MAX allreduce,
    `CheckCid` swaps that reservation for the maximum and starts a MIN allreduce,
    `CheckFlag` commits the id or releases it and starts over.
    A handler holds the id lock while it runs, so a run of the system is an
    arbitrary interleaving of whole handlers; an allreduce is a vote table whose
    result can be read once every member has voted. */
module CidLocal {

  /** A slot of the table of communicators. `Foreign` entries belong to
      communicators that no modelled allocation made. A temporary reservation
      stores the parent communicator, a commit stores the new one. */
  datatype Entry = Foreign(handle: nat) | Reserved(comm: nat) | Owner(alloc: nat)

  type Table = map<nat, Entry>

  datatype Stage = Idle | Getting | Checking | Deciding | Done | Freed | Failed

  /** The fields of the allocation context that the handlers use. */
  datatype Context = Context(stage: Stage, start: nat, nextLocal: nat, nextCid: nat, flag: bool, iter: nat)

  const IDLE := Context(Idle, 0, 0, 0, false, 0)

  /** One allocation as one process sees it. */
  datatype Role = Role(alloc: nat, comm: nat, participates: bool, maxId: nat)

  /** The first free slot at or after `i`, or `maxId` when there is none below it. */
  function FirstFree(t: Table, i: nat, maxId: nat): (r: nat)
    ensures r <= maxId
    ensures r < maxId ==> i <= r && r !in t
    ensures forall j :: i <= j < r ==> j in t
    decreases maxId - i
  {
    if i >= maxId then maxId
    else if i !in t then i
    else FirstFree(t, i + 1, maxId)
  }

  datatype Local = Local(t: Table, c: Context)

  /** ompi_comm_nextcid_nb: a new context remembers where to search from. */
  function Begin(l: Local, start: nat): Local {
    l.(c := Context(Getting, start, 0, 0, false, 0))
  }

  /** ompi_comm_allreduce_getnextcid, past the lock. */
  function GetNext(r: Role, l: Local): Local {
    if !r.participates then
      l.(c := l.c.(nextLocal := 0, stage := Checking))
    else
      var n := FirstFree(l.t, l.c.start, r.maxId);
      if n < r.maxId then
        Local(l.t[n := Reserved(r.comm)], l.c.(nextLocal := n, stage := Checking))
      else
        l.(c := l.c.(nextLocal := n, stage := Failed))
  }

  /** ompi_comm_checkcid; `candidate` is the result of the MAX allreduce. */
  function CheckCid(r: Role, l: Local, candidate: nat): Local {
    var c := l.c.(nextCid := candidate, stage := Deciding, iter := l.c.iter + 1);
    if !r.participates || candidate == l.c.nextLocal then
      Local(l.t, c.(flag := true))
    else
      var released := l.t - {l.c.nextLocal};
      if candidate in released then
        Local(released, c.(flag := false))
      else
        Local(released[candidate := Reserved(r.comm)], c.(flag := true))
  }

  /** ompi_comm_nextcid_check_flag; `agreed` is the result of the MIN allreduce. */
  function CheckFlag(r: Role, l: Local, agreed: bool): Local {
    if agreed then
      var id := if r.participates then l.c.nextCid else FirstFree(l.t, l.c.start, r.maxId);
      var local := if r.participates then l.c.nextLocal else id;
      Local(l.t[id := Owner(r.alloc)], l.c.(nextCid := id, nextLocal := local, stage := Done))
    else if r.participates && l.c.flag then
      Local(l.t - {l.c.nextCid}, l.c.(start := l.c.nextCid + 1, stage := Getting, iter := l.c.iter + 1))
    else
      l.(c := l.c.(stage := Getting, iter := l.c.iter + 1))
  }

  /** ompi_comm_destruct: the committed id goes back to the table. */
  function Release(l: Local): Local {
    Local(l.t - {l.c.nextCid}, l.c.(stage := Freed))
  }

  /** The slot an allocation occupies on a process, read off its context alone. */
  predicate Holds(r: Role, c: Context, i: nat) {
    match c.stage
    case Checking => r.participates && i == c.nextLocal
    case Deciding => r.participates && c.flag && i == c.nextCid
    case Done => i == c.nextCid
    case _ => false
  }

  /** What an occupied slot stores. */
  function Stored(r: Role, c: Context): Entry {
    if c.stage == Done then Owner(r.alloc) else Reserved(r.comm)
  }

  /** A handler takes only free slots, clears every slot it stops occupying and
      leaves all others alone. */
  ghost predicate Careful(r: Role, l: Local, l': Local) {
    forall i: nat ::
      && (Holds(r, l'.c, i) ==> i in l'.t && l'.t[i] == Stored(r, l'.c) && (i !in l.t || Holds(r, l.c, i)))
      && (Holds(r, l.c, i) && !Holds(r, l'.c, i) ==> i !in l'.t)
      && (!Holds(r, l.c, i) && !Holds(r, l'.c, i) ==>
            (i in l'.t <==> i in l.t) && (i in l.t ==> l'.t[i] == l.t[i]))
  }

  ghost predicate Occupies(r: Role, l: Local) {
    forall i: nat :: Holds(r, l.c, i) ==> i in l.t && l.t[i] == Stored(r, l.c)
  }

  lemma BeginIsCareful(r: Role, l: Local, start: nat)
    requires l.c.stage == Idle
    ensures Careful(r, l, Begin(l, start))
  {
  }

  lemma GetNextIsCareful(r: Role, l: Local)
    requires l.c.stage == Getting
    ensures Careful(r, l, GetNext(r, l))
  {
  }

  lemma CheckCidIsCareful(r: Role, l: Local, candidate: nat)
    requires l.c.stage == Checking && Occupies(r, l)
    ensures Careful(r, l, CheckCid(r, l, candidate))
  {
  }

  /** Some id at or after `start` and below the limit is free, or the limit itself is. */
  predicate IdLeft(t: Table, start: nat, maxId: nat) {
    maxId !in t || exists i: nat :: start <= i < maxId && i !in t
  }

  lemma FreeIffIdLeft(t: Table, start: nat, maxId: nat)
    ensures FirstFree(t, start, maxId) !in t <==> IdLeft(t, start, maxId)
  {
    var id := FirstFree(t, start, maxId);
    if id == maxId && maxId in t {
      assert forall i :: start <= i < maxId ==> i in t;
    }
  }

  /** The commit of a process outside the new group takes the first free id, or
      the id `maxId` when none is left; that overwrites another communicator
      exactly when no id is left for it. */
  lemma CheckFlagIsCareful(r: Role, l: Local, agreed: bool)
    requires l.c.stage == Deciding && Occupies(r, l)
    requires agreed && r.participates ==> l.c.flag
    ensures Careful(r, l, CheckFlag(r, l, agreed)) <==> (agreed && !r.participates ==> IdLeft(l.t, l.c.start, r.maxId))
  {
    FreeIffIdLeft(l.t, l.c.start, r.maxId);
    if agreed && !r.participates {
      var id := FirstFree(l.t, l.c.start, r.maxId);
      assert Holds(r, CheckFlag(r, l, agreed).c, id) && !Holds(r, l.c, id);
    }
  }

  /** What a commit takes: the candidate in the new group, and outside it the least free id
      from the start of the search on, or the limit when there is none below it. */
  lemma CommitsLeast(r: Role, l: Local)
    requires l.c.stage == Deciding
    ensures var after := CheckFlag(r, l, true);
            var id := after.c.nextCid;
            && after.c.stage == Done && after.t == l.t[id := Owner(r.alloc)]
            && if r.participates then id == l.c.nextCid
               else
                 && id <= r.maxId && (forall i :: l.c.start <= i < id ==> i in l.t)
                 && (id < r.maxId ==> l.c.start <= id && id !in l.t)
                 && (id == r.maxId ==> forall i :: l.c.start <= i < r.maxId ==> i in l.t)
  {
  }

  /** With the only id taken, the commit of a process outside the group overwrites the slot at the limit. */
  lemma FullTableIsOverwritten()
    ensures var r := Role(5, 0, false, 1);
            var l := Local(map[0 := Foreign(8), 1 := Foreign(9)], Context(Deciding, 0, 0, 0, true, 1));
            CheckFlag(r, l, true).t[1] == Owner(5) && !Careful(r, l, CheckFlag(r, l, true))
  {
    var r := Role(5, 0, false, 1);
    var l := Local(map[0 := Foreign(8), 1 := Foreign(9)], Context(Deciding, 0, 0, 0, true, 1));
    assert FirstFree(l.t, 0, 1) == FirstFree(l.t, 1, 1) == 1;
    CheckFlagIsCareful(r, l, true);
  }

  lemma ReleaseIsCareful(r: Role, l: Local)
    requires l.c.stage == Done && Occupies(r, l)
    ensures Careful(r, l, Release(l))
  {
  }
}
