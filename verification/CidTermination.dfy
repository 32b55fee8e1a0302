/** One allocation running while every other table entry stays as it is: it
    commits exactly the least id that is free everywhere, after a bounded number
    of handler runs. */
module CidTermination {
  import opened CidLocal
  import opened CidProtocol
  import opened CidExactness
  import opened FiniteSums

  /** Allocation `a` starts from state `origin`; `starts` are the ids at which
      its members begin their search. */
  datatype Goal = Goal(a: nat, starts: map<nat, nat>, origin: State, target: nat)

  /** The id is free on every participant and at or above every search start. */
  ghost predicate Common(cfg: Config, g: Goal, i: nat)
    requires ValidConfig(cfg) && g.a in cfg.members && cfg.members[g.a] <= g.starts.Keys
  {
    && i < cfg.maxId
    && forall p :: p in cfg.parts[g.a] ==> g.starts[p] <= i && i !in TableOf(g.origin, p)
  }

  /** `target` is the least common id. */
  ghost predicate ValidGoal(cfg: Config, g: Goal) {
    && ValidConfig(cfg) && g.a in cfg.members && cfg.members[g.a] <= g.starts.Keys
    && Common(cfg, g, g.target) && (forall i: nat :: i < g.target ==> !Common(cfg, g, i))
  }

  /** Only allocation `a` moves. */
  predicate OfGoal(g: Goal, step: Step) {
    match step
    case BeginStep(p, a, start) => a == g.a && p in g.starts && start == g.starts[p]
    case GetStep(_, a) => a == g.a
    case CheckStep(_, a, _) => a == g.a
    case DecideStep(_, a, _) => a == g.a
    case _ => false
  }

  // ------------------------------------------------------------- invariant

  /** A proposal lies between the process's own start and the target. */
  ghost predicate ProposalInRange(cfg: Config, g: Goal, s: State, p: nat, k: nat)
    requires ValidGoal(cfg, g) && Member(cfg, p, g.a)
  {
    if p in cfg.parts[g.a] then g.starts[p] <= VoteAt(s, g.a, k, p) <= g.target
    else VoteAt(s, g.a, k, p) == 0
  }

  /** A process agrees exactly to candidates that were free on it to begin with. */
  ghost predicate HonestFlag(cfg: Config, g: Goal, s: State, p: nat, k: nat)
    requires ValidGoal(cfg, g) && Member(cfg, p, g.a) && k > 0
  {
    && 0 <= VoteAt(s, g.a, k, p) <= 1
    && (p !in cfg.parts[g.a] ==> VoteAt(s, g.a, k, p) == 1)
    && (p in cfg.parts[g.a] ==> forall m: nat {:trigger IsMax(VotesOf(s, g.a, k - 1), m)} :: IsMax(VotesOf(s, g.a, k - 1), m) ==>
          (VoteAt(s, g.a, k, p) == 1 <==> m !in TableOf(g.origin, p)))
  }

  ghost predicate QuietVotes(cfg: Config, g: Goal, s: State, p: nat)
    requires ValidGoal(cfg, g) && Member(cfg, p, g.a)
  {
    var c := ContextOf(s, p, g.a);
    && (forall k: nat :: k % 2 == 0 && k < Cast(c) ==> ProposalInRange(cfg, g, s, p, k))
    && (forall k: nat :: k % 2 == 1 && k < Cast(c) ==> HonestFlag(cfg, g, s, p, k))
  }

  /** The table holds what it held at the origin, plus the allocation's own slot. */
  ghost predicate QuietTable(cfg: Config, g: Goal, s: State, p: nat)
    requires ValidGoal(cfg, g) && Member(cfg, p, g.a)
  {
    forall i: nat ::
      && (i in TableOf(s, p) <==> i in TableOf(g.origin, p) || HoldsIn(cfg, s, p, g.a, i))
      && (HoldsIn(cfg, s, p, g.a, i) ==> i !in TableOf(g.origin, p))
  }

  ghost predicate QuietContext(cfg: Config, g: Goal, s: State, p: nat)
    requires ValidGoal(cfg, g) && Member(cfg, p, g.a)
  {
    var c := ContextOf(s, p, g.a);
    && c.stage != Failed && c.stage != Freed
    && (c.stage != Idle && p in cfg.parts[g.a] ==> g.starts[p] <= c.start <= g.target)
    && (c.stage != Idle && p !in cfg.parts[g.a] ==> c.start == g.starts[p])
  }

  ghost predicate Quiet(cfg: Config, g: Goal, s: State)
    requires ValidGoal(cfg, g)
  {
    forall p: nat :: Member(cfg, p, g.a) ==>
      QuietVotes(cfg, g, s, p) && QuietTable(cfg, g, s, p) && QuietContext(cfg, g, s, p)
  }

  lemma PastKeepsQuietVotes(cfg: Config, g: Goal, s: State, s': State, p: nat, n: nat)
    requires ValidGoal(cfg, g) && Member(cfg, p, g.a)
    requires PastKept(s, s', p, g.a) && QuietVotes(cfg, g, s, p) && n <= Cast(ContextOf(s, p, g.a))
    requires Cast(ContextOf(s, p, g.a)) <= ContextOf(s, p, g.a).iter + 1
    ensures forall k: nat :: k % 2 == 0 && k < n ==> ProposalInRange(cfg, g, s', p, k)
    ensures forall k: nat :: k % 2 == 1 && k < n ==> HonestFlag(cfg, g, s', p, k)
  {
    forall k: nat | k % 2 == 0 && k < n
      ensures ProposalInRange(cfg, g, s', p, k)
    {
      assert ProposalInRange(cfg, g, s, p, k);
    }
    forall k: nat | k % 2 == 1 && k < n
      ensures HonestFlag(cfg, g, s', p, k)
    {
      assert HonestFlag(cfg, g, s, p, k);
      assert VotesOf(s', g.a, k - 1) == VotesOf(s, g.a, k - 1);
    }
  }

  lemma GetKeepsQuiet(cfg: Config, g: Goal, s: State, step: Step)
    requires ValidGoal(cfg, g) && Enabled(cfg, s, step) && OfGoal(g, step)
    requires step.BeginStep? || step.GetStep?
    requires Current(cfg, s, step.p, g.a) && PastKept(s, After(cfg, s, step), step.p, g.a)
    requires QuietVotes(cfg, g, s, step.p) && QuietTable(cfg, g, s, step.p) && QuietContext(cfg, g, s, step.p)
    ensures var s' := After(cfg, s, step);
            QuietVotes(cfg, g, s', step.p) && QuietTable(cfg, g, s', step.p) && QuietContext(cfg, g, s', step.p)
  {
    var s', p := After(cfg, s, step), step.p;
    var c, c' := ContextOf(s, p, g.a), ContextOf(s', p, g.a);
    PastKeepsQuietVotes(cfg, g, s, s', p, Cast(c));
    if step.GetStep? {
      assert forall i: nat :: i in TableOf(s, p) <==> i in TableOf(g.origin, p);
      assert p in cfg.parts[g.a] ==> FirstFree(TableOf(s, p), c.start, cfg.maxId) <= g.target;
      assert VoteAt(s', g.a, c.iter, p) == c'.nextLocal;
      assert ProposalInRange(cfg, g, s', p, c.iter);
    }
  }

  lemma CheckKeepsQuiet(cfg: Config, g: Goal, s: State, step: Step)
    requires ValidGoal(cfg, g) && Enabled(cfg, s, step) && OfGoal(g, step)
    requires step.CheckStep?
    requires Current(cfg, s, step.p, g.a) && PastKept(s, After(cfg, s, step), step.p, g.a)
    requires VotesOf(After(cfg, s, step), g.a, ContextOf(s, step.p, g.a).iter) == VotesOf(s, g.a, ContextOf(s, step.p, g.a).iter)
    requires QuietVotes(cfg, g, s, step.p) && QuietTable(cfg, g, s, step.p) && QuietContext(cfg, g, s, step.p)
    ensures var s' := After(cfg, s, step);
            QuietVotes(cfg, g, s', step.p) && QuietTable(cfg, g, s', step.p) && QuietContext(cfg, g, s', step.p)
  {
    var s', p := After(cfg, s, step), step.p;
    var c, c' := ContextOf(s, p, g.a), ContextOf(s', p, g.a);
    PastKeepsQuietVotes(cfg, g, s, s', p, Cast(c));
    assert p in cfg.parts[g.a] ==> HoldsIn(cfg, s, p, g.a, c.nextLocal);
    assert VoteAt(s', g.a, c'.iter, p) == if c'.flag then 1 else 0;
    assert HonestFlag(cfg, g, s', p, c'.iter) by {
      if p in cfg.parts[g.a] {
        assert c'.flag <==> step.candidate !in TableOf(g.origin, p);
        var v := VotesOf(s', g.a, c.iter);
        forall m: nat | IsMax(v, m)
          ensures m == step.candidate
        {
          MaxIsUnique(VotesOf(s, g.a, c.iter), m, step.candidate);
        }
      }
    }
  }

  lemma CandidateInRange(cfg: Config, g: Goal, s: State, k: nat, m: int)
    requires ValidGoal(cfg, g) && Quiet(cfg, g, s) && VotesInStep(cfg, s)
    requires k % 2 == 0 && IsMax(VotesOf(s, g.a, k), m)
    ensures m <= g.target
  {
    var q :| q in VotesOf(s, g.a, k) && VotesOf(s, g.a, k)[q] == m;
    assert Member(cfg, q, g.a) && k < Cast(ContextOf(s, q, g.a));
    assert QuietVotes(cfg, g, s, q);
    assert ProposalInRange(cfg, g, s, q, k);
  }

  /** Everybody agrees to the target, so a round that fails had a smaller candidate. */
  lemma DeclinedBelowTarget(cfg: Config, g: Goal, s: State, k: nat, m: nat, minimum: int)
    requires ValidGoal(cfg, g) && Quiet(cfg, g, s) && VotesInStep(cfg, s)
    requires k % 2 == 1 && IsMax(VotesOf(s, g.a, k - 1), m) && IsMin(VotesOf(s, g.a, k), minimum) && minimum != 1
    ensures m < g.target
  {
    CandidateInRange(cfg, g, s, k - 1, m);
    var r :| r in VotesOf(s, g.a, k) && VotesOf(s, g.a, k)[r] == minimum;
    assert Member(cfg, r, g.a) && k < Cast(ContextOf(s, r, g.a));
    assert QuietVotes(cfg, g, s, r);
    assert HonestFlag(cfg, g, s, r, k);
  }

  lemma DecideKeepsQuiet(cfg: Config, g: Goal, s: State, step: Step)
    requires ValidGoal(cfg, g) && Enabled(cfg, s, step) && OfGoal(g, step)
    requires step.DecideStep?
    requires Current(cfg, s, step.p, g.a) && PastKept(s, After(cfg, s, step), step.p, g.a)
    requires QuietVotes(cfg, g, s, step.p) && QuietTable(cfg, g, s, step.p) && QuietContext(cfg, g, s, step.p)
    requires step.minimum != 1 ==> ContextOf(s, step.p, g.a).nextCid < g.target
    requires Complete(cfg, VotesOf(s, g.a, ContextOf(s, step.p, g.a).iter - 1), g.a)
    ensures var s' := After(cfg, s, step);
            QuietVotes(cfg, g, s', step.p) && QuietTable(cfg, g, s', step.p) && QuietContext(cfg, g, s', step.p)
  {
    var s', p := After(cfg, s, step), step.p;
    var c, c' := ContextOf(s, p, g.a), ContextOf(s', p, g.a);
    PastKeepsQuietVotes(cfg, g, s, s', p, Cast(c));
    assert Cast(c') == Cast(c);
    assert p in cfg.parts[g.a] && c.flag ==> HoldsIn(cfg, s, p, g.a, c.nextCid);
    assert ProposalInRange(cfg, g, s, p, c.iter - 1);
    assert p in VotesOf(s, g.a, c.iter - 1);
  }

  lemma ActorStaysQuiet(cfg: Config, g: Goal, s: State, step: Step)
    requires ValidGoal(cfg, g) && VotesInStep(cfg, s) && Synchronised(cfg, s) && Quiet(cfg, g, s)
    requires Enabled(cfg, s, step) && OfGoal(g, step)
    ensures var s' := After(cfg, s, step);
            QuietVotes(cfg, g, s', step.p) && QuietTable(cfg, g, s', step.p) && QuietContext(cfg, g, s', step.p)
  {
    NextKeepsPast(cfg, s, step, step.p, g.a);
    assert Current(cfg, s, step.p, g.a);
    if step.CheckStep? {
      NextKeepsVotes(cfg, s, step);
      CheckKeepsQuiet(cfg, g, s, step);
    } else if step.DecideStep? {
      assert Passed(cfg, s, g.a, ContextOf(s, step.p, g.a));
      FailedBelowTarget(cfg, g, s, step.p, step.minimum, ContextOf(s, step.p, g.a).iter, ContextOf(s, step.p, g.a).nextCid);
      DecideKeepsQuiet(cfg, g, s, step);
    } else {
      GetKeepsQuiet(cfg, g, s, step);
    }
  }

  lemma OtherStaysQuiet(cfg: Config, g: Goal, s: State, step: Step, p: nat)
    requires ValidGoal(cfg, g) && VotesInStep(cfg, s) && Synchronised(cfg, s)
    requires Enabled(cfg, s, step) && OfGoal(g, step) && Member(cfg, p, g.a) && p != step.p
    requires QuietVotes(cfg, g, s, p) && QuietTable(cfg, g, s, p) && QuietContext(cfg, g, s, p)
    ensures var s' := After(cfg, s, step);
            QuietVotes(cfg, g, s', p) && QuietTable(cfg, g, s', p) && QuietContext(cfg, g, s', p)
  {
    OthersUntouched(cfg, s, step);
    NextKeepsPast(cfg, s, step, p, g.a);
    UntouchedStaysQuiet(cfg, g, s, After(cfg, s, step), p);
  }

  lemma NextKeepsQuiet(cfg: Config, g: Goal, s: State, step: Step)
    requires ValidGoal(cfg, g) && VotesInStep(cfg, s) && Synchronised(cfg, s) && Quiet(cfg, g, s)
    requires Enabled(cfg, s, step) && OfGoal(g, step)
    ensures Quiet(cfg, g, After(cfg, s, step))
  {
    var s' := After(cfg, s, step);
    forall p: nat | Member(cfg, p, g.a)
      ensures QuietVotes(cfg, g, s', p) && QuietTable(cfg, g, s', p) && QuietContext(cfg, g, s', p)
    {
      if p == step.p {
        ActorStaysQuiet(cfg, g, s, step);
      } else {
        OtherStaysQuiet(cfg, g, s, step, p);
      }
    }
  }

  lemma FailedBelowTarget(cfg: Config, g: Goal, s: State, p: nat, minimum: int, k: nat, m: nat)
    requires ValidGoal(cfg, g) && Quiet(cfg, g, s) && VotesInStep(cfg, s)
    requires Member(cfg, p, g.a) && ContextOf(s, p, g.a).stage == Deciding && Current(cfg, s, p, g.a)
    requires k == ContextOf(s, p, g.a).iter && m == ContextOf(s, p, g.a).nextCid
    requires IsMin(VotesOf(s, g.a, k), minimum)
    ensures minimum != 1 ==> m < g.target
  {
    if minimum != 1 {
      DeclinedBelowTarget(cfg, g, s, k, m, minimum);
    }
  }

  lemma UntouchedStaysQuiet(cfg: Config, g: Goal, s: State, s': State, p: nat)
    requires ValidGoal(cfg, g) && Member(cfg, p, g.a)
    requires PastKept(s, s', p, g.a) && ContextOf(s', p, g.a) == ContextOf(s, p, g.a) && TableOf(s', p) == TableOf(s, p)
    requires QuietVotes(cfg, g, s, p) && QuietTable(cfg, g, s, p) && QuietContext(cfg, g, s, p)
    ensures QuietVotes(cfg, g, s', p) && QuietTable(cfg, g, s', p) && QuietContext(cfg, g, s', p)
  {
    PastKeepsQuietVotes(cfg, g, s, s', p, Cast(ContextOf(s, p, g.a)));
    forall i: nat
      ensures HoldsIn(cfg, s', p, g.a, i) <==> HoldsIn(cfg, s, p, g.a, i)
    {
    }
  }

  /** An agreed candidate was free on the participant and not below its start. */
  lemma AgreedIsFree(cfg: Config, g: Goal, s: State, k: nat, m: nat, q: nat)
    requires ValidGoal(cfg, g) && Quiet(cfg, g, s) && VotesInStep(cfg, s)
    requires k % 2 == 1 && IsMax(VotesOf(s, g.a, k - 1), m) && q in cfg.parts[g.a]
    requires q in VotesOf(s, g.a, k) && 1 <= VotesOf(s, g.a, k)[q] && q in VotesOf(s, g.a, k - 1)
    ensures g.starts[q] <= m && m !in TableOf(g.origin, q)
  {
    assert Member(cfg, q, g.a) && k < Cast(ContextOf(s, q, g.a));
    assert QuietVotes(cfg, g, s, q);
    assert HonestFlag(cfg, g, s, q, k) && ProposalInRange(cfg, g, s, q, k - 1);
  }

  lemma AgreedIsTarget(cfg: Config, g: Goal, s: State, k: nat, m: nat)
    requires ValidGoal(cfg, g) && Quiet(cfg, g, s) && VotesInStep(cfg, s)
    requires k % 2 == 1 && IsMax(VotesOf(s, g.a, k - 1), m)
    requires Complete(cfg, VotesOf(s, g.a, k - 1), g.a) && Complete(cfg, VotesOf(s, g.a, k), g.a)
    requires AllAgree(VotesOf(s, g.a, k))
    ensures m == g.target
  {
    CandidateInRange(cfg, g, s, k - 1, m);
    forall q | q in cfg.parts[g.a]
      ensures g.starts[q] <= m && m !in TableOf(g.origin, q)
    {
      AgreedIsFree(cfg, g, s, k, m, q);
    }
    assert Common(cfg, g, m);
  }

  lemma DoneAgreed(cfg: Config, s: State, a: nat, p: nat, k: nat, m: nat)
    requires ValidConfig(cfg) && Member(cfg, p, a) && p in cfg.parts[a] && ContextOf(s, p, a).stage == Done && Current(cfg, s, p, a)
    requires k == ContextOf(s, p, a).iter && m == ContextOf(s, p, a).nextCid
    ensures k % 2 == 1 && Complete(cfg, VotesOf(s, a, k), a) && AllAgree(VotesOf(s, a, k)) && IsMax(VotesOf(s, a, k - 1), m)
  {
  }

  /** Whoever commits, commits the target. */
  lemma CommitsTarget(cfg: Config, g: Goal, s: State, p: nat, k: nat, m: nat)
    requires ValidGoal(cfg, g) && VotesInStep(cfg, s) && Quiet(cfg, g, s) && Member(cfg, p, g.a)
    requires p in cfg.parts[g.a] && ContextOf(s, p, g.a).stage == Done && Current(cfg, s, p, g.a)
    requires k == ContextOf(s, p, g.a).iter && m == ContextOf(s, p, g.a).nextCid
    requires k >= 1 && Complete(cfg, VotesOf(s, g.a, k - 1), g.a)
    ensures m == g.target
  {
    DoneAgreed(cfg, s, g.a, p, k, m);
    AgreedIsTarget(cfg, g, s, k, m);
  }

  // ------------------------------------------------------------- bounded runs

  /** Nobody has begun, and a member outside the new group has some free id for its own use. */
  ghost predicate Ready(cfg: Config, g: Goal)
    requires ValidGoal(cfg, g)
  {
    && Inv(cfg, g.origin) && AllGrow(cfg, g.origin)
    && (forall p: nat :: Member(cfg, p, g.a) ==> ContextOf(g.origin, p, g.a) == IDLE)
    && (forall p: nat :: Member(cfg, p, g.a) && p !in cfg.parts[g.a] ==>
          FirstFree(TableOf(g.origin, p), g.starts[p], cfg.maxId) < cfg.maxId)
  }

  ghost predicate QuietNext(cfg: Config, g: Goal, s: State, s': State)
    requires ValidGoal(cfg, g)
  {
    exists step :: Enabled(cfg, s, step) && OfGoal(g, step) && s' == After(cfg, s, step)
  }

  ghost predicate Stuck(cfg: Config, g: Goal, s: State)
    requires ValidGoal(cfg, g)
  {
    !exists s' :: QuietNext(cfg, g, s, s')
  }

  ghost predicate QuietRun(cfg: Config, g: Goal, run: seq<State>)
    requires ValidGoal(cfg, g)
  {
    && |run| > 0 && run[0] == g.origin
    && forall n :: 0 <= n < |run| - 1 ==> QuietNext(cfg, g, run[n], run[n + 1])
  }

  ghost predicate Good(cfg: Config, g: Goal, s: State)
    requires ValidGoal(cfg, g)
  {
    Inv(cfg, s) && AllGrow(cfg, s) && Quiet(cfg, g, s)
  }

  lemma OriginIsGood(cfg: Config, g: Goal)
    requires ValidGoal(cfg, g) && Ready(cfg, g)
    ensures Good(cfg, g, g.origin)
  {
    forall p: nat | Member(cfg, p, g.a)
      ensures QuietVotes(cfg, g, g.origin, p) && QuietTable(cfg, g, g.origin, p) && QuietContext(cfg, g, g.origin, p)
    {
      assert ContextOf(g.origin, p, g.a) == IDLE;
    }
  }

  lemma NextKeepsGood(cfg: Config, g: Goal, s: State, step: Step)
    requires ValidGoal(cfg, g) && Good(cfg, g, s) && Enabled(cfg, s, step) && OfGoal(g, step)
    ensures Good(cfg, g, After(cfg, s, step))
  {
    NextKeepsInv(cfg, s, step);
    NextKeepsGrowth(cfg, s, step);
    NextKeepsQuiet(cfg, g, s, step);
  }

  /** Handler runs a process has behind it. */
  function Work(c: Context): nat {
    match c.stage
    case Idle => 0
    case Getting => 3 * (c.iter / 2) + 1
    case Checking => 3 * (c.iter / 2) + 2
    case Deciding => 3 * (c.iter / 2) + 3
    case _ => 3 * (c.iter / 2) + 4
  }

  lemma StepIsWork(cfg: Config, g: Goal, s: State, step: Step)
    requires ValidGoal(cfg, g) && Enabled(cfg, s, step) && OfGoal(g, step)
    requires Current(cfg, s, step.p, g.a) && QuietContext(cfg, g, After(cfg, s, step), step.p)
    ensures Work(ContextOf(After(cfg, s, step), step.p, g.a)) == Work(ContextOf(s, step.p, g.a)) + 1
  {
  }

  ghost function WorkMap(cfg: Config, g: Goal, s: State): map<nat, nat>
    requires ValidGoal(cfg, g)
  {
    map p | p in cfg.members[g.a] :: Work(ContextOf(s, p, g.a))
  }

  ghost function Total(cfg: Config, g: Goal, s: State): nat
    requires ValidGoal(cfg, g)
  {
    Sum(cfg.members[g.a], WorkMap(cfg, g, s))
  }

  lemma OneWorksMore(cfg: Config, g: Goal, s: State, s': State, p: nat)
    requires ValidGoal(cfg, g) && Member(cfg, p, g.a)
    requires Work(ContextOf(s', p, g.a)) == Work(ContextOf(s, p, g.a)) + 1
    requires forall q: nat :: q != p ==> ContextOf(s', q, g.a) == ContextOf(s, q, g.a)
    ensures Total(cfg, g, s') == Total(cfg, g, s) + 1
  {
    var keys, f, f' := cfg.members[g.a], WorkMap(cfg, g, s), WorkMap(cfg, g, s');
    SumSplit(keys, f, p);
    SumSplit(keys, f', p);
    SumSame(keys - {p}, f, f');
  }

  lemma StepAddsOne(cfg: Config, g: Goal, s: State, step: Step)
    requires ValidGoal(cfg, g) && Enabled(cfg, s, step) && OfGoal(g, step)
    requires Current(cfg, s, step.p, g.a) && QuietContext(cfg, g, After(cfg, s, step), step.p)
    ensures Total(cfg, g, After(cfg, s, step)) == Total(cfg, g, s) + 1
  {
    StepIsWork(cfg, g, s, step);
    OthersUntouched(cfg, s, step);
    OneWorksMore(cfg, g, s, After(cfg, s, step), step.p);
  }

  lemma {:induction false} MaxExists(v: Votes) returns (m: int)
    requires v != map[]
    ensures IsMax(v, m)
    decreases |v|
  {
    var p :| p in v;
    m := v[p];
    var rest := v - {p};
    if rest != map[] {
      var n := MaxExists(rest);
      if n > m {
        m := n;
      }
      assert forall q :: q in v && q != p ==> q in rest;
      var w :| w in rest && rest[w] == n;
      assert w in v && v[w] == n;
    } else {
      assert forall q :: q in v ==> q == p || q in rest;
    }
  }

  lemma MinExists(v: Votes) returns (m: int)
    requires v != map[]
    ensures IsMin(v, m)
  {
    var mirrored: Votes := map p | p in v :: -v[p];
    var p :| p in v;
    assert p in mirrored;
    var n := MaxExists(mirrored);
    m := -n;
    var q :| q in mirrored && mirrored[q] == n;
    assert q in v && v[q] == m;
    assert forall r :: r in v ==> r in mirrored;
  }

  lemma EarlierComplete(cfg: Config, s: State, a: nat, j: nat, k: nat)
    requires ValidConfig(cfg) && VotesInStep(cfg, s) && a in cfg.members && j <= k
    requires Complete(cfg, VotesOf(s, a, k), a)
    ensures Complete(cfg, VotesOf(s, a, j), a) && VotesOf(s, a, j) != map[]
  {
    forall p | p in cfg.members[a]
      ensures p in VotesOf(s, a, j)
    {
      assert p in VotesOf(s, a, k) && Member(cfg, p, a);
    }
    var p :| p in cfg.parts[a];
    assert p in VotesOf(s, a, j);
  }

  lemma CandidateIsId(cfg: Config, s: State, a: nat, m: int)
    requires ValidConfig(cfg) && VotesInStep(cfg, s) && AllGrow(cfg, s) && a in cfg.members
    requires Complete(cfg, VotesOf(s, a, 0), a) && IsMax(VotesOf(s, a, 0), m)
    ensures 0 <= m
  {
    var p := ProposerExists(cfg, s, a, 0, m);
    assert Member(cfg, p, a) && p in VotesOf(s, a, 0);
    assert Grows(cfg, s, p, a);
    assert Proposes(cfg, s, a, 0, p);
  }

  ghost predicate NobodyFailed(cfg: Config, s: State, a: nat)
    requires ValidConfig(cfg) && a in cfg.members
  {
    forall p :: p in cfg.parts[a] ==> ContextOf(s, p, a).stage != Failed
  }

  lemma PreviousCandidate(cfg: Config, s: State, a: nat, k: nat) returns (n: int)
    requires ValidConfig(cfg) && VotesInStep(cfg, s) && a in cfg.members
    requires Complete(cfg, VotesOf(s, a, k + 2), a)
    ensures Complete(cfg, VotesOf(s, a, k), a) && IsMax(VotesOf(s, a, k), n)
  {
    EarlierComplete(cfg, s, a, k, k + 2);
    n := MaxExists(VotesOf(s, a, k));
  }

  /** The candidate of the r-th round is at least r. */
  lemma {:induction false} CandidateAtLeast(cfg: Config, s: State, a: nat, k: nat, m: int)
    requires ValidConfig(cfg) && VotesInStep(cfg, s) && AllGrow(cfg, s) && a in cfg.members && NobodyFailed(cfg, s, a)
    requires k % 2 == 0
    requires Complete(cfg, VotesOf(s, a, k), a) && IsMax(VotesOf(s, a, k), m)
    ensures k <= 2 * m
  {
    if k == 0 {
      CandidateIsId(cfg, s, a, m);
    } else {
      var j := k - 2;
      var n := PreviousCandidate(cfg, s, a, j);
      CandidatesIncrease(cfg, s, a, j, n, m);
      CandidateAtLeast(cfg, s, a, j, n);
    }
  }

  lemma QuietNobodyFailed(cfg: Config, g: Goal, s: State)
    requires ValidGoal(cfg, g) && Quiet(cfg, g, s)
    ensures NobodyFailed(cfg, s, g.a)
  {
    forall q | q in cfg.parts[g.a]
      ensures ContextOf(s, q, g.a).stage != Failed
    {
      assert Member(cfg, q, g.a) && QuietContext(cfg, g, s, q);
    }
  }

  lemma RoundIsBounded(cfg: Config, g: Goal, s: State, k: nat)
    requires ValidGoal(cfg, g) && VotesInStep(cfg, s) && AllGrow(cfg, s) && Quiet(cfg, g, s)
    requires k % 2 == 0 && Complete(cfg, VotesOf(s, g.a, k), g.a)
    ensures k <= 2 * g.target
  {
    EarlierComplete(cfg, s, g.a, k, k);
    var m := MaxExists(VotesOf(s, g.a, k));
    QuietNobodyFailed(cfg, g, s);
    CandidateAtLeast(cfg, s, g.a, k, m);
    CandidateInRange(cfg, g, s, k, m);
  }

  lemma WorkIsBounded(cfg: Config, g: Goal, s: State, p: nat)
    requires ValidGoal(cfg, g) && VotesInStep(cfg, s) && AllGrow(cfg, s) && Quiet(cfg, g, s)
    requires Member(cfg, p, g.a) && Passed(cfg, s, g.a, ContextOf(s, p, g.a))
    ensures Work(ContextOf(s, p, g.a)) <= 3 * g.target + 7
  {
    var r := ContextOf(s, p, g.a).iter / 2;
    if r >= 1 {
      var k: nat := 2 * r - 2;
      assert k < ContextOf(s, p, g.a).iter && k % 2 == 0;
      RoundIsBounded(cfg, g, s, k);
    }
  }

  lemma TotalIsBounded(cfg: Config, g: Goal, s: State)
    requires ValidGoal(cfg, g) && Good(cfg, g, s)
    ensures Total(cfg, g, s) <= |cfg.members[g.a]| * (3 * g.target + 7)
  {
    forall p | p in cfg.members[g.a]
      ensures WorkMap(cfg, g, s)[p] <= 3 * g.target + 7
    {
      assert Member(cfg, p, g.a) && Passed(cfg, s, g.a, ContextOf(s, p, g.a));
      WorkIsBounded(cfg, g, s, p);
    }
    SumBound(cfg.members[g.a], WorkMap(cfg, g, s), 3 * g.target + 7);
  }

  // ------------------------------------------------------------------ progress

  lemma LeastWorkerMoves(cfg: Config, g: Goal, s: State, p: nat) returns (step: Step)
    requires ValidGoal(cfg, g) && VotesInStep(cfg, s) && Member(cfg, p, g.a)
    requires forall q: nat :: Member(cfg, q, g.a) ==> Current(cfg, s, q, g.a) && QuietContext(cfg, g, s, q)
    requires forall q: nat :: Member(cfg, q, g.a) ==> Work(ContextOf(s, p, g.a)) <= Work(ContextOf(s, q, g.a))
    requires QuietTable(cfg, g, s, p)
    requires p !in cfg.parts[g.a] ==> FirstFree(TableOf(g.origin, p), g.starts[p], cfg.maxId) < cfg.maxId
    requires ContextOf(s, p, g.a).stage != Done
    requires forall k: nat, m: int :: k % 2 == 0 && Complete(cfg, VotesOf(s, g.a, k), g.a) && IsMax(VotesOf(s, g.a, k), m) ==> 0 <= m
    ensures Enabled(cfg, s, step) && OfGoal(g, step)
  {
    var c := ContextOf(s, p, g.a);
    var v := VotesOf(s, g.a, c.iter);
    if c.stage == Idle {
      step := BeginStep(p, g.a, g.starts[p]);
    } else if c.stage == Getting {
      step := GetStep(p, g.a);
    } else {
      forall q | q in cfg.members[g.a]
        ensures q in v
      {
        assert Member(cfg, q, g.a) && Current(cfg, s, q, g.a) && Current(cfg, s, p, g.a);
        assert c.iter < Cast(ContextOf(s, q, g.a));
      }
      assert p in v && Current(cfg, s, p, g.a);
      if c.stage == Checking {
        var m := MaxExists(v);
        step := CheckStep(p, g.a, m);
      } else {
        var m := MinExists(v);
        step := DecideStep(p, g.a, m);
        if p !in cfg.parts[g.a] {
          var i := FirstFree(TableOf(g.origin, p), g.starts[p], cfg.maxId);
          assert !HoldsIn(cfg, s, p, g.a, i);
          assert i !in TableOf(s, p);
        }
      }
    }
  }

  lemma DoneTogether(cfg: Config, g: Goal, s: State, p: nat, q: nat)
    requires ValidGoal(cfg, g) && Inv(cfg, s) && Member(cfg, p, g.a) && Member(cfg, q, g.a)
    requires ContextOf(s, p, g.a).stage == Done && QuietContext(cfg, g, s, q)
    requires Work(ContextOf(s, p, g.a)) <= Work(ContextOf(s, q, g.a))
    ensures ContextOf(s, q, g.a).stage == Done
  {
    SameRound(cfg, s, p, q, g.a);
  }

  lemma CandidatesAreIds(cfg: Config, g: Goal, s: State)
    requires ValidGoal(cfg, g) && VotesInStep(cfg, s) && AllGrow(cfg, s) && Quiet(cfg, g, s)
    ensures forall k: nat, m: int :: k % 2 == 0 && Complete(cfg, VotesOf(s, g.a, k), g.a) && IsMax(VotesOf(s, g.a, k), m) ==> 0 <= m
  {
    QuietNobodyFailed(cfg, g, s);
    forall k: nat, m: int | k % 2 == 0 && Complete(cfg, VotesOf(s, g.a, k), g.a) && IsMax(VotesOf(s, g.a, k), m)
      ensures 0 <= m
    {
      CandidateAtLeast(cfg, s, g.a, k, m);
    }
  }

  /** Unless every member is done, some handler of the allocation can run. */
  lemma Progress(cfg: Config, g: Goal, s: State, q: nat)
    requires ValidGoal(cfg, g) && Ready(cfg, g) && Good(cfg, g, s)
    requires Member(cfg, q, g.a) && ContextOf(s, q, g.a).stage != Done
    ensures exists step :: Enabled(cfg, s, step) && OfGoal(g, step)
  {
    var f := WorkMap(cfg, g, s);
    var p := LeastKey(cfg.members[g.a], f);
    forall r: nat | Member(cfg, r, g.a)
      ensures Current(cfg, s, r, g.a) && QuietContext(cfg, g, s, r)
      ensures Work(ContextOf(s, p, g.a)) <= Work(ContextOf(s, r, g.a))
    {
      assert f[p] <= f[r];
    }
    if ContextOf(s, p, g.a).stage == Done {
      DoneTogether(cfg, g, s, p, q);
    } else {
      CandidatesAreIds(cfg, g, s);
      assert Member(cfg, p, g.a) && QuietTable(cfg, g, s, p);
      var step := LeastWorkerMoves(cfg, g, s, p);
    }
  }

  lemma OriginIsIdle(cfg: Config, g: Goal)
    requires ValidGoal(cfg, g) && Ready(cfg, g)
    ensures Total(cfg, g, g.origin) == 0
  {
    forall p | p in cfg.members[g.a]
      ensures WorkMap(cfg, g, g.origin)[p] <= 0
    {
      assert Member(cfg, p, g.a);
    }
    SumBound(cfg.members[g.a], WorkMap(cfg, g, g.origin), 0);
  }

  lemma StepKeepsGoodAndWorks(cfg: Config, g: Goal, s: State, step: Step)
    requires ValidGoal(cfg, g) && Good(cfg, g, s) && Enabled(cfg, s, step) && OfGoal(g, step)
    ensures Good(cfg, g, After(cfg, s, step)) && Total(cfg, g, After(cfg, s, step)) == Total(cfg, g, s) + 1
  {
    NextKeepsGood(cfg, g, s, step);
    assert Member(cfg, step.p, g.a) && Current(cfg, s, step.p, g.a) && QuietContext(cfg, g, After(cfg, s, step), step.p);
    StepAddsOne(cfg, g, s, step);
  }

  lemma {:induction false} QuietRunIsGood(cfg: Config, g: Goal, run: seq<State>, n: nat)
    requires ValidGoal(cfg, g) && Ready(cfg, g) && QuietRun(cfg, g, run) && n < |run|
    ensures Good(cfg, g, run[n]) && Total(cfg, g, run[n]) == n
  {
    if n == 0 {
      OriginIsGood(cfg, g);
      OriginIsIdle(cfg, g);
    } else {
      QuietRunIsGood(cfg, g, run, n - 1);
      assert QuietNext(cfg, g, run[n - 1], run[n - 1 + 1]);
      var step :| Enabled(cfg, run[n - 1], step) && OfGoal(g, step) && run[n] == After(cfg, run[n - 1], step);
      StepKeepsGoodAndWorks(cfg, g, run[n - 1], step);
    }
  }

  lemma GoodCommitsTarget(cfg: Config, g: Goal, s: State, p: nat, k: nat, m: nat)
    requires ValidGoal(cfg, g) && Good(cfg, g, s)
    requires p in cfg.parts[g.a] && ContextOf(s, p, g.a).stage == Done
    requires k == ContextOf(s, p, g.a).iter && m == ContextOf(s, p, g.a).nextCid
    ensures m == g.target
  {
    assert Member(cfg, p, g.a) && Current(cfg, s, p, g.a) && Passed(cfg, s, g.a, ContextOf(s, p, g.a));
    CommitsTarget(cfg, g, s, p, k, m);
  }

  /** Exactness: in every interleaving of its members' handlers, with all other
      table entries fixed, a participant that commits has committed the least id
      that was free on all participants and at or above all their starts. */
  lemma Exactness(cfg: Config, g: Goal, run: seq<State>, n: nat, p: nat)
    requires ValidGoal(cfg, g) && Ready(cfg, g) && QuietRun(cfg, g, run) && n < |run|
    requires p in cfg.parts[g.a] && ContextOf(run[n], p, g.a).stage == Done
    ensures ContextOf(run[n], p, g.a).nextCid == g.target
  {
    QuietRunIsGood(cfg, g, run, n);
    GoodCommitsTarget(cfg, g, run[n], p, ContextOf(run[n], p, g.a).iter, ContextOf(run[n], p, g.a).nextCid);
  }

  /** Termination: no such run is longer than the bound, and a run that cannot
      continue has committed the target on every participant. */
  lemma Termination(cfg: Config, g: Goal, run: seq<State>)
    requires ValidGoal(cfg, g) && Ready(cfg, g) && QuietRun(cfg, g, run)
    ensures |run| - 1 <= |cfg.members[g.a]| * (3 * g.target + 7)
    ensures Stuck(cfg, g, run[|run| - 1]) ==>
              forall p :: p in cfg.parts[g.a] ==>
                ContextOf(run[|run| - 1], p, g.a).stage == Done && ContextOf(run[|run| - 1], p, g.a).nextCid == g.target
  {
    var last := run[|run| - 1];
    QuietRunIsGood(cfg, g, run, |run| - 1);
    TotalIsBounded(cfg, g, last);
    if Stuck(cfg, g, last) {
      forall p | p in cfg.parts[g.a]
        ensures ContextOf(last, p, g.a).stage == Done && ContextOf(last, p, g.a).nextCid == g.target
      {
        if ContextOf(last, p, g.a).stage != Done {
          Progress(cfg, g, last, p);
          var step :| Enabled(cfg, last, step) && OfGoal(g, step);
          assert QuietNext(cfg, g, last, After(cfg, last, step));
        }
        Exactness(cfg, g, run, |run| - 1, p);
      }
    }
  }
}
