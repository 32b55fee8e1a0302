/** The distributed system: any number of processes and concurrent allocations. */
module CidProtocol {
  import opened CidLocal

  /** For every allocation: the processes that vote, those among them that will
      belong to the new communicator, and the parent communicator. */
  datatype Config = Config(maxId: nat, members: map<nat, set<nat>>, parts: map<nat, set<nat>>, comm: map<nat, nat>)

  ghost predicate ValidConfig(cfg: Config) {
    && cfg.maxId > 0
    && cfg.parts.Keys == cfg.members.Keys == cfg.comm.Keys
    && forall a :: a in cfg.members ==> cfg.parts[a] <= cfg.members[a] && cfg.parts[a] != {}
  }

  type Votes = map<nat, int>

  /** `votes[(a, k)]` is the k-th allreduce of allocation `a`; even ones compute
      the maximum, odd ones the minimum. */
  datatype State = State(tables: map<nat, Table>, contexts: map<(nat, nat), Context>, votes: map<(nat, nat), Votes>)

  predicate Member(cfg: Config, p: nat, a: nat) {
    a in cfg.members && p in cfg.members[a]
  }

  function RoleOf(cfg: Config, p: nat, a: nat): Role
    requires ValidConfig(cfg) && Member(cfg, p, a)
  {
    Role(a, cfg.comm[a], p in cfg.parts[a], cfg.maxId)
  }

  function TableOf(s: State, p: nat): Table {
    if p in s.tables then s.tables[p] else map[]
  }

  function ContextOf(s: State, p: nat, a: nat): Context {
    if (p, a) in s.contexts then s.contexts[(p, a)] else IDLE
  }

  function LocalOf(s: State, p: nat, a: nat): Local {
    Local(TableOf(s, p), ContextOf(s, p, a))
  }

  function VotesOf(s: State, a: nat, k: nat): Votes {
    if (a, k) in s.votes then s.votes[(a, k)] else map[]
  }

  ghost predicate Complete(cfg: Config, v: Votes, a: nat)
    requires a in cfg.members
  {
    cfg.members[a] <= v.Keys
  }

  ghost predicate IsMax(v: Votes, m: int) {
    (forall p :: p in v ==> v[p] <= m) && (exists p :: p in v && v[p] == m)
  }

  ghost predicate IsMin(v: Votes, m: int) {
    (forall p :: p in v ==> m <= v[p]) && (exists p :: p in v && v[p] == m)
  }

  function Put(s: State, p: nat, a: nat, l: Local): State {
    s.(tables := s.tables[p := l.t], contexts := s.contexts[(p, a) := l.c])
  }

  function Vote(s: State, a: nat, k: nat, p: nat, value: int): State {
    s.(votes := s.votes[(a, k) := VotesOf(s, a, k)[p := value]])
  }

  datatype Step =
    | BeginStep(p: nat, a: nat, start: nat)
    | GetStep(p: nat, a: nat)
    | CheckStep(p: nat, a: nat, candidate: nat)
    | DecideStep(p: nat, a: nat, minimum: int)
    | FreeStep(p: nat, a: nat)
    | ForeignFreeStep(p: nat, i: nat)

  /** When a handler may run. The MAX and MIN results exist only once every
      member has voted. A process outside the new group commits an id of its own,
      which has to be free (see CheckFlagIsCareful). */
  ghost predicate Enabled(cfg: Config, s: State, step: Step)
    requires ValidConfig(cfg)
  {
    match step
    case BeginStep(p, a, start) =>
      Member(cfg, p, a) && ContextOf(s, p, a).stage == Idle
    case GetStep(p, a) =>
      Member(cfg, p, a) && ContextOf(s, p, a).stage == Getting
    case CheckStep(p, a, candidate) =>
      && Member(cfg, p, a)
      && var c := ContextOf(s, p, a);
         var v := VotesOf(s, a, c.iter);
         c.stage == Checking && Complete(cfg, v, a) && IsMax(v, candidate)
    case DecideStep(p, a, minimum) =>
      && Member(cfg, p, a)
      && var l := LocalOf(s, p, a);
         var v := VotesOf(s, a, l.c.iter);
         && l.c.stage == Deciding && Complete(cfg, v, a) && IsMin(v, minimum)
         && (minimum == 1 && p !in cfg.parts[a] ==> IdLeft(l.t, l.c.start, cfg.maxId))
    case FreeStep(p, a) =>
      Member(cfg, p, a) && ContextOf(s, p, a).stage == Done
    case ForeignFreeStep(p, i) =>
      i in TableOf(s, p) && TableOf(s, p)[i].Foreign?
  }

  /** The state after a handler that may run. */
  ghost function After(cfg: Config, s: State, step: Step): State
    requires ValidConfig(cfg) && Enabled(cfg, s, step)
  {
    match step
    case BeginStep(p, a, start) =>
      Put(s, p, a, Begin(LocalOf(s, p, a), start))
    case GetStep(p, a) =>
      var l := GetNext(RoleOf(cfg, p, a), LocalOf(s, p, a));
      Vote(Put(s, p, a, l), a, l.c.iter, p, l.c.nextLocal)
    case CheckStep(p, a, candidate) =>
      var l := CheckCid(RoleOf(cfg, p, a), LocalOf(s, p, a), candidate);
      Vote(Put(s, p, a, l), a, l.c.iter, p, if l.c.flag then 1 else 0)
    case DecideStep(p, a, minimum) =>
      Put(s, p, a, CheckFlag(RoleOf(cfg, p, a), LocalOf(s, p, a), minimum == 1))
    case FreeStep(p, a) =>
      Put(s, p, a, Release(LocalOf(s, p, a)))
    case ForeignFreeStep(p, i) =>
      s.(tables := s.tables[p := TableOf(s, p) - {i}])
  }

  ghost predicate Init(s: State) {
    && s.contexts == map[] && s.votes == map[]
    && forall p, i :: p in s.tables && i in s.tables[p] ==> s.tables[p][i].Foreign?
  }

  ghost predicate Next(cfg: Config, s: State, s': State)
    requires ValidConfig(cfg)
  {
    exists step :: Enabled(cfg, s, step) && s' == After(cfg, s, step)
  }

  // ---------------------------------------------------------------- invariants

  /** Number of allreduces a process has voted in. */
  function Cast(c: Context): nat {
    match c.stage
    case Idle => 0
    case Getting => c.iter
    case _ => c.iter + 1
  }

  ghost predicate AllAgree(v: Votes) {
    forall p :: p in v ==> 1 <= v[p]
  }

  /** Exactly the members that have reached the k-th allreduce have voted in it. */
  ghost predicate VotesInStep(cfg: Config, s: State) {
    forall a, k: nat, p {:trigger p in VotesOf(s, a, k)} :: a in cfg.members ==>
      (p in VotesOf(s, a, k) <==> Member(cfg, p, a) && k < Cast(ContextOf(s, p, a)))
  }

  /** Each allreduce that a process has already left was complete, and each MIN
      it left by retrying had a vote below 1. */
  ghost predicate Passed(cfg: Config, s: State, a: nat, c: Context)
    requires a in cfg.members
  {
    forall k: nat :: k < c.iter ==>
      Complete(cfg, VotesOf(s, a, k), a) && (k % 2 == 1 ==> !AllAgree(VotesOf(s, a, k)))
  }

  /** The context agrees with the votes of this and the previous allreduce. */
  ghost predicate Current(cfg: Config, s: State, p: nat, a: nat)
    requires ValidConfig(cfg) && Member(cfg, p, a)
  {
    var c := ContextOf(s, p, a);
    var v := VotesOf(s, a, c.iter);
    match c.stage
    case Idle => true
    case Getting => c.iter % 2 == 0
    case Failed => c.iter % 2 == 0
    case Checking =>
      && c.iter % 2 == 0 && p in v && v[p] == c.nextLocal
      && (p in cfg.parts[a] ==> c.start <= c.nextLocal)
    case Deciding =>
      && c.iter % 2 == 1 && p in v && v[p] == (if c.flag then 1 else 0)
      && IsMax(VotesOf(s, a, c.iter - 1), c.nextCid)
    case _ =>
      && c.iter % 2 == 1 && Complete(cfg, v, a) && AllAgree(v)
      && (p in cfg.parts[a] ==> IsMax(VotesOf(s, a, c.iter - 1), c.nextCid))
  }

  ghost predicate Synchronised(cfg: Config, s: State)
    requires ValidConfig(cfg)
  {
    forall p, a :: Member(cfg, p, a) ==>
      Passed(cfg, s, a, ContextOf(s, p, a)) && Current(cfg, s, p, a)
  }

  ghost predicate HoldsIn(cfg: Config, s: State, p: nat, a: nat, i: nat)
    requires ValidConfig(cfg)
  {
    Member(cfg, p, a) && Holds(RoleOf(cfg, p, a), ContextOf(s, p, a), i)
  }

  /** An occupied slot stores its occupant's mark. */
  ghost predicate Marked(cfg: Config, s: State)
    requires ValidConfig(cfg)
  {
    forall p, a :: Member(cfg, p, a) ==> Occupies(RoleOf(cfg, p, a), LocalOf(s, p, a))
  }

  /** No slot has two occupants. */
  ghost predicate Exclusive(cfg: Config, s: State)
    requires ValidConfig(cfg)
  {
    forall p, a, b, i :: HoldsIn(cfg, s, p, a, i) && HoldsIn(cfg, s, p, b, i) ==> a == b
  }

  /** Every slot that stores an allocation's mark is still occupied by one. */
  ghost predicate NoLeak(cfg: Config, s: State)
    requires ValidConfig(cfg)
  {
    forall p, i :: i in TableOf(s, p) && !TableOf(s, p)[i].Foreign? ==> exists a: nat :: HoldsIn(cfg, s, p, a, i)
  }

  ghost predicate Inv(cfg: Config, s: State)
    requires ValidConfig(cfg)
  {
    VotesInStep(cfg, s) && Synchronised(cfg, s) && Marked(cfg, s) && Exclusive(cfg, s) && NoLeak(cfg, s)
  }

  // ------------------------------------------------------------ table invariants

  /** A careful change of one allocation on one process keeps the table invariants. */
  lemma CarefulKeepsTables(cfg: Config, s: State, s': State, p: nat, a: nat)
    requires ValidConfig(cfg) && Member(cfg, p, a)
    requires Marked(cfg, s) && Exclusive(cfg, s) && NoLeak(cfg, s)
    requires Careful(RoleOf(cfg, p, a), LocalOf(s, p, a), LocalOf(s', p, a))
    requires forall q: nat :: q != p ==> TableOf(s', q) == TableOf(s, q)
    requires forall q: nat, b: nat :: (q, b) != (p, a) ==> ContextOf(s', q, b) == ContextOf(s, q, b)
    ensures Marked(cfg, s') && Exclusive(cfg, s') && NoLeak(cfg, s')
  {
    var r := RoleOf(cfg, p, a);
    forall b, i | b != a && HoldsIn(cfg, s, p, b, i)
      ensures !Holds(r, ContextOf(s', p, a), i)
      ensures i in TableOf(s', p) && TableOf(s', p)[i] == TableOf(s, p)[i]
    {
      assert !HoldsIn(cfg, s, p, a, i);
      assert Occupies(RoleOf(cfg, p, b), LocalOf(s, p, b));
    }
    forall q, b | Member(cfg, q, b)
      ensures Occupies(RoleOf(cfg, q, b), LocalOf(s', q, b))
    {
      assert Occupies(RoleOf(cfg, q, b), LocalOf(s, q, b));
      if q == p && b != a {
        forall i: nat | Holds(RoleOf(cfg, p, b), ContextOf(s', p, b), i)
          ensures i in TableOf(s', p) && TableOf(s', p)[i] == Stored(RoleOf(cfg, p, b), ContextOf(s', p, b))
        {
          assert HoldsIn(cfg, s, p, b, i);
        }
      }
    }
    forall q, b, b', i | HoldsIn(cfg, s', q, b, i) && HoldsIn(cfg, s', q, b', i)
      ensures b == b'
    {
      if q != p || (b != a && b' != a) {
        assert HoldsIn(cfg, s, q, b, i) && HoldsIn(cfg, s, q, b', i);
      } else if b != a {
        assert HoldsIn(cfg, s, p, b, i);
      } else if b' != a {
        assert HoldsIn(cfg, s, p, b', i);
      }
    }
    forall q, i | i in TableOf(s', q) && !TableOf(s', q)[i].Foreign?
      ensures exists b :: HoldsIn(cfg, s', q, b, i)
    {
      if q == p && Holds(r, ContextOf(s', p, a), i) {
        assert HoldsIn(cfg, s', p, a, i);
      } else {
        assert i in TableOf(s, q) && TableOf(s, q)[i] == TableOf(s', q)[i];
        var b: nat :| HoldsIn(cfg, s, q, b, i);
        assert (q, b) != (p, a);
        assert HoldsIn(cfg, s', q, b, i);
      }
    }
  }

  lemma StepIsCareful(cfg: Config, s: State, step: Step)
    requires ValidConfig(cfg) && Inv(cfg, s) && Enabled(cfg, s, step)
    requires !step.ForeignFreeStep?
    ensures Careful(RoleOf(cfg, step.p, step.a), LocalOf(s, step.p, step.a), LocalOf(After(cfg, s, step), step.p, step.a))
  {
    var r := RoleOf(cfg, step.p, step.a);
    var l := LocalOf(s, step.p, step.a);
    assert Occupies(r, l) && Current(cfg, s, step.p, step.a);
    match step
    case BeginStep(p, a, start) => BeginIsCareful(r, l, start);
    case GetStep(p, a) => GetNextIsCareful(r, l);
    case CheckStep(p, a, candidate) => CheckCidIsCareful(r, l, candidate);
    case DecideStep(p, a, minimum) => CheckFlagIsCareful(r, l, minimum == 1);
    case FreeStep(p, a) => ReleaseIsCareful(r, l);
  }

  lemma ForeignFreeKeepsTables(cfg: Config, s: State, p: nat, i: nat)
    requires ValidConfig(cfg) && Marked(cfg, s) && Exclusive(cfg, s) && NoLeak(cfg, s)
    requires i in TableOf(s, p) && TableOf(s, p)[i].Foreign?
    ensures var s' := s.(tables := s.tables[p := TableOf(s, p) - {i}]);
            Marked(cfg, s') && Exclusive(cfg, s') && NoLeak(cfg, s')
  {
    var s' := s.(tables := s.tables[p := TableOf(s, p) - {i}]);
    forall q, b | Member(cfg, q, b)
      ensures Occupies(RoleOf(cfg, q, b), LocalOf(s', q, b))
    {
      assert Occupies(RoleOf(cfg, q, b), LocalOf(s, q, b));
    }
    forall q, b, j
      ensures HoldsIn(cfg, s', q, b, j) <==> HoldsIn(cfg, s, q, b, j)
    {
    }
    forall q, j | j in TableOf(s', q) && !TableOf(s', q)[j].Foreign?
      ensures exists a: nat :: HoldsIn(cfg, s', q, a, j)
    {
      assert j in TableOf(s, q) && TableOf(s, q)[j] == TableOf(s', q)[j];
      var a: nat :| HoldsIn(cfg, s, q, a, j);
      assert HoldsIn(cfg, s', q, a, j);
    }
  }

  /** A handler touches the table of one process and the context of one allocation on it. */
  lemma OthersUntouched(cfg: Config, s: State, step: Step)
    requires ValidConfig(cfg) && Enabled(cfg, s, step) && !step.ForeignFreeStep?
    ensures Member(cfg, step.p, step.a)
    ensures forall q: nat :: q != step.p ==> TableOf(After(cfg, s, step), q) == TableOf(s, q)
    ensures forall q: nat, b: nat :: (q, b) != (step.p, step.a) ==> ContextOf(After(cfg, s, step), q, b) == ContextOf(s, q, b)
  {
  }

  lemma NextKeepsTables(cfg: Config, s: State, step: Step)
    requires ValidConfig(cfg) && Inv(cfg, s) && Enabled(cfg, s, step)
    ensures Marked(cfg, After(cfg, s, step)) && Exclusive(cfg, After(cfg, s, step)) && NoLeak(cfg, After(cfg, s, step))
  {
    if step.ForeignFreeStep? {
      ForeignFreeKeepsTables(cfg, s, step.p, step.i);
    } else {
      StepIsCareful(cfg, s, step);
      OthersUntouched(cfg, s, step);
      CarefulKeepsTables(cfg, s, After(cfg, s, step), step.p, step.a);
    }
  }

  // ------------------------------------------------------------- vote invariants

  /** A complete allreduce never changes again. */
  ghost predicate CompleteIsFinal(cfg: Config, s: State, s': State) {
    forall b, k: nat :: b in cfg.members && Complete(cfg, VotesOf(s, b, k), b) ==> VotesOf(s', b, k) == VotesOf(s, b, k)
  }

  /** Votes are only added. */
  ghost predicate VotesGrow(s: State, s': State) {
    forall b: nat, k: nat, q: nat :: q in VotesOf(s, b, k) ==> q in VotesOf(s', b, k) && VotesOf(s', b, k)[q] == VotesOf(s, b, k)[q]
  }

  predicate Ballots(step: Step) {
    step.GetStep? || step.CheckStep?
  }

  /** A handler adds at most the actor's vote, in the next allreduce it has not voted in. */
  lemma VotesAfter(cfg: Config, s: State, step: Step, b: nat, k: nat)
    requires ValidConfig(cfg) && Enabled(cfg, s, step)
    requires !step.ForeignFreeStep? ==> Current(cfg, s, step.p, step.a)
    ensures var s' := After(cfg, s, step);
            if Ballots(step) && b == step.a && k == Cast(ContextOf(s, step.p, step.a))
            then VotesOf(s', b, k).Keys == VotesOf(s, b, k).Keys + {step.p}
                 && (forall q :: q in VotesOf(s, b, k) && q != step.p ==> VotesOf(s', b, k)[q] == VotesOf(s, b, k)[q])
            else VotesOf(s', b, k) == VotesOf(s, b, k)
    ensures var s' := After(cfg, s, step);
            !step.ForeignFreeStep? ==>
              Cast(ContextOf(s', step.p, step.a)) == Cast(ContextOf(s, step.p, step.a)) + (if Ballots(step) then 1 else 0)
  {
  }

  lemma NextKeepsVotes(cfg: Config, s: State, step: Step)
    requires ValidConfig(cfg) && VotesInStep(cfg, s) && Synchronised(cfg, s) && Enabled(cfg, s, step)
    ensures VotesInStep(cfg, After(cfg, s, step))
    ensures CompleteIsFinal(cfg, s, After(cfg, s, step)) && VotesGrow(s, After(cfg, s, step))
  {
    var s' := After(cfg, s, step);
    assert !step.ForeignFreeStep? ==> Current(cfg, s, step.p, step.a);
    forall b: nat, k: nat, q: nat
      ensures b in cfg.members ==> (q in VotesOf(s', b, k) <==> Member(cfg, q, b) && k < Cast(ContextOf(s', q, b)))
      ensures q in VotesOf(s, b, k) ==> q in VotesOf(s', b, k) && VotesOf(s', b, k)[q] == VotesOf(s, b, k)[q]
    {
      VotesAfter(cfg, s, step, b, k);
    }
    forall b, k: nat | b in cfg.members && Complete(cfg, VotesOf(s, b, k), b)
      ensures VotesOf(s', b, k) == VotesOf(s, b, k)
    {
      VotesAfter(cfg, s, step, b, k);
      assert !step.ForeignFreeStep? && b == step.a ==> step.p in VotesOf(s, b, k);
    }
  }

  /** Handlers of other processes and allocations do not disturb a context. */
  lemma OthersStaySynchronised(cfg: Config, s: State, s': State, q: nat, b: nat)
    requires ValidConfig(cfg) && Member(cfg, q, b)
    requires CompleteIsFinal(cfg, s, s') && VotesGrow(s, s')
    requires ContextOf(s', q, b) == ContextOf(s, q, b)
    requires Passed(cfg, s, b, ContextOf(s, q, b)) && Current(cfg, s, q, b)
    ensures Passed(cfg, s', b, ContextOf(s', q, b)) && Current(cfg, s', q, b)
  {
  }

  lemma GetStaysSynchronised(cfg: Config, s: State, step: Step)
    requires ValidConfig(cfg) && Enabled(cfg, s, step)
    requires step.BeginStep? || step.GetStep?
    requires CompleteIsFinal(cfg, s, After(cfg, s, step))
    requires Passed(cfg, s, step.a, ContextOf(s, step.p, step.a)) && Current(cfg, s, step.p, step.a)
    ensures var s' := After(cfg, s, step);
            Passed(cfg, s', step.a, ContextOf(s', step.p, step.a)) && Current(cfg, s', step.p, step.a)
  {
  }

  lemma CheckStaysSynchronised(cfg: Config, s: State, step: Step)
    requires ValidConfig(cfg) && Enabled(cfg, s, step)
    requires step.CheckStep?
    requires CompleteIsFinal(cfg, s, After(cfg, s, step))
    requires Passed(cfg, s, step.a, ContextOf(s, step.p, step.a)) && Current(cfg, s, step.p, step.a)
    ensures var s' := After(cfg, s, step);
            Passed(cfg, s', step.a, ContextOf(s', step.p, step.a)) && Current(cfg, s', step.p, step.a)
  {
    var s' := After(cfg, s, step);
    var c, c' := ContextOf(s, step.p, step.a), ContextOf(s', step.p, step.a);
    assert c'.iter == c.iter + 1;
    assert VotesOf(s', step.a, c.iter) == VotesOf(s, step.a, c.iter);
  }

  lemma DecideStaysSynchronised(cfg: Config, s: State, step: Step)
    requires ValidConfig(cfg) && Enabled(cfg, s, step)
    requires step.DecideStep? || step.FreeStep?
    requires Passed(cfg, s, step.a, ContextOf(s, step.p, step.a)) && Current(cfg, s, step.p, step.a)
    ensures var s' := After(cfg, s, step);
            Passed(cfg, s', step.a, ContextOf(s', step.p, step.a)) && Current(cfg, s', step.p, step.a)
  {
    var s' := After(cfg, s, step);
    assert forall k: nat :: VotesOf(s', step.a, k) == VotesOf(s, step.a, k);
  }

  lemma NextKeepsSynchronised(cfg: Config, s: State, step: Step)
    requires ValidConfig(cfg) && VotesInStep(cfg, s) && Synchronised(cfg, s) && Enabled(cfg, s, step)
    ensures Synchronised(cfg, After(cfg, s, step))
  {
    var s' := After(cfg, s, step);
    NextKeepsVotes(cfg, s, step);
    forall q: nat, b: nat | Member(cfg, q, b)
      ensures Passed(cfg, s', b, ContextOf(s', q, b)) && Current(cfg, s', q, b)
    {
      if !step.ForeignFreeStep? && (q, b) == (step.p, step.a) {
        match step
        case BeginStep(_, _, _) => GetStaysSynchronised(cfg, s, step);
        case GetStep(_, _) => GetStaysSynchronised(cfg, s, step);
        case CheckStep(_, _, _) => CheckStaysSynchronised(cfg, s, step);
        case _ => DecideStaysSynchronised(cfg, s, step);
      } else {
        OthersStaySynchronised(cfg, s, s', q, b);
      }
    }
  }

  // --------------------------------------------------------------- whole runs

  ghost predicate IsRun(cfg: Config, run: seq<State>)
    requires ValidConfig(cfg)
  {
    && |run| > 0 && Init(run[0])
    && forall n :: 0 <= n < |run| - 1 ==> Next(cfg, run[n], run[n + 1])
  }

  lemma NextKeepsInv(cfg: Config, s: State, step: Step)
    requires ValidConfig(cfg) && Inv(cfg, s) && Enabled(cfg, s, step)
    ensures Inv(cfg, After(cfg, s, step))
  {
    NextKeepsVotes(cfg, s, step);
    NextKeepsSynchronised(cfg, s, step);
    NextKeepsTables(cfg, s, step);
  }

  lemma {:induction false} RunKeepsInv(cfg: Config, run: seq<State>, n: nat)
    requires ValidConfig(cfg) && IsRun(cfg, run) && n < |run|
    ensures Inv(cfg, run[n])
  {
    if n > 0 {
      RunKeepsInv(cfg, run, n - 1);
      assert Next(cfg, run[n - 1], run[n - 1 + 1]);
      var step :| Enabled(cfg, run[n - 1], step) && run[n] == After(cfg, run[n - 1], step);
      NextKeepsInv(cfg, run[n - 1], step);
    }
  }

  /** The process has committed an id for the allocation (and may have freed it since). */
  predicate Committed(c: Context) {
    c.stage == Done || c.stage == Freed
  }

  /** All commits of an allocation happen at the same allreduce. */
  lemma SameRound(cfg: Config, s: State, p: nat, q: nat, a: nat)
    requires ValidConfig(cfg) && Inv(cfg, s) && Member(cfg, p, a) && Member(cfg, q, a)
    requires Committed(ContextOf(s, p, a))
    ensures var c, d := ContextOf(s, p, a), ContextOf(s, q, a);
            d.iter == c.iter && (Committed(d) || (d.stage == Deciding && d.flag))
  {
    var c, d := ContextOf(s, p, a), ContextOf(s, q, a);
    assert Passed(cfg, s, a, c) && Current(cfg, s, p, a);
    assert Passed(cfg, s, a, d) && Current(cfg, s, q, a);
    assert AllAgree(VotesOf(s, a, c.iter)) && q in VotesOf(s, a, c.iter);
    assert c.iter < Cast(d);
    assert !(d.iter > c.iter);
  }

  lemma MaxIsUnique(v: Votes, m: int, n: int)
    requires IsMax(v, m) && IsMax(v, n)
    ensures m == n
  {
  }

  lemma SameCandidate(cfg: Config, s: State, p: nat, q: nat, a: nat)
    requires ValidConfig(cfg) && a in cfg.members && p in cfg.parts[a] && q in cfg.parts[a]
    requires Current(cfg, s, p, a) && Current(cfg, s, q, a)
    requires ContextOf(s, p, a).iter == ContextOf(s, q, a).iter
    requires Committed(ContextOf(s, p, a))
    requires Committed(ContextOf(s, q, a)) || ContextOf(s, q, a).stage == Deciding
    ensures ContextOf(s, q, a).nextCid == ContextOf(s, p, a).nextCid
  {
    var c, d := ContextOf(s, p, a), ContextOf(s, q, a);
    MaxIsUnique(VotesOf(s, a, c.iter - 1), c.nextCid, d.nextCid);
  }

  /** In every reachable state, once one participant has committed an id, every
      other participant has committed the same id or holds exactly that id and
      can do nothing but commit it. */
  lemma Agreement(cfg: Config, run: seq<State>, n: nat, p: nat, q: nat, a: nat)
    requires ValidConfig(cfg) && IsRun(cfg, run) && n < |run|
    requires a in cfg.members && p in cfg.parts[a] && q in cfg.parts[a]
    requires Committed(ContextOf(run[n], p, a))
    ensures ContextOf(run[n], q, a).nextCid == ContextOf(run[n], p, a).nextCid
    ensures Committed(ContextOf(run[n], q, a)) || ContextOf(run[n], q, a).stage == Deciding
    ensures ContextOf(run[n], q, a).stage != Freed ==> HoldsIn(cfg, run[n], q, a, ContextOf(run[n], p, a).nextCid)
  {
    var s := run[n];
    RunKeepsInv(cfg, run, n);
    SameRound(cfg, s, p, q, a);
    assert Current(cfg, s, p, a) && Current(cfg, s, q, a);
    SameCandidate(cfg, s, p, q, a);
  }

  /** In every reachable state a slot has at most one owner: a slot that does not
      hold a foreign communicator is occupied by exactly one allocation, and an
      occupied slot stores that allocation's mark. So an allocation that has
      committed keeps no other slot. */
  lemma SlotOwnership(cfg: Config, run: seq<State>, n: nat, p: nat, i: nat)
    requires ValidConfig(cfg) && IsRun(cfg, run) && n < |run|
    ensures i in TableOf(run[n], p) && !TableOf(run[n], p)[i].Foreign? ==> exists a: nat :: HoldsIn(cfg, run[n], p, a, i)
    ensures forall a: nat, b: nat :: HoldsIn(cfg, run[n], p, a, i) && HoldsIn(cfg, run[n], p, b, i) ==> a == b
    ensures forall a: nat :: HoldsIn(cfg, run[n], p, a, i) ==>
              i in TableOf(run[n], p) && TableOf(run[n], p)[i] == Stored(RoleOf(cfg, p, a), ContextOf(run[n], p, a))
    ensures forall a: nat, j: nat :: HoldsIn(cfg, run[n], p, a, i) && HoldsIn(cfg, run[n], p, a, j) ==> i == j
  {
    RunKeepsInv(cfg, run, n);
    forall a: nat | HoldsIn(cfg, run[n], p, a, i)
      ensures i in TableOf(run[n], p) && TableOf(run[n], p)[i] == Stored(RoleOf(cfg, p, a), ContextOf(run[n], p, a))
    {
      assert Occupies(RoleOf(cfg, p, a), LocalOf(run[n], p, a));
    }
  }

  /** Two communicators alive on the same process never share an id, whatever
      other processes belong to them. */
  lemma CommittedIdsDiffer(cfg: Config, run: seq<State>, n: nat, p: nat, a: nat, b: nat)
    requires ValidConfig(cfg) && IsRun(cfg, run) && n < |run|
    requires Member(cfg, p, a) && Member(cfg, p, b) && a != b
    requires ContextOf(run[n], p, a).stage == Done && ContextOf(run[n], p, b).stage == Done
    ensures ContextOf(run[n], p, a).nextCid != ContextOf(run[n], p, b).nextCid
  {
    var i := ContextOf(run[n], p, a).nextCid;
    SlotOwnership(cfg, run, n, p, i);
    assert HoldsIn(cfg, run[n], p, a, i);
    assert i == ContextOf(run[n], p, b).nextCid ==> HoldsIn(cfg, run[n], p, b, i);
  }
}
