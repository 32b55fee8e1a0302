/** Which id an allocation commits, and why its retry loop ends. */
module CidExactness {
  import opened CidLocal
  import opened CidProtocol

  /** The vote of `p` in the k-th allreduce of `a`, or -1 before it votes. */
  function VoteAt(s: State, a: nat, k: nat, p: nat): int {
    if p in VotesOf(s, a, k) then VotesOf(s, a, k)[p] else -1
  }

  // --------------------------------------------------------- candidates grow

  /** Whoever proposed the winning candidate of one round proposes a larger id in the next. */
  ghost predicate RoundGrows(s: State, a: nat, k: nat, p: nat) {
    IsMax(VotesOf(s, a, k), VoteAt(s, a, k, p)) ==> VoteAt(s, a, k, p) < VoteAt(s, a, k + 2, p)
  }

  /** Proposals are ids, and processes outside the new group propose 0. */
  ghost predicate Proposes(cfg: Config, s: State, a: nat, k: nat, p: nat)
    requires ValidConfig(cfg) && a in cfg.members
  {
    0 <= VoteAt(s, a, k, p) && (p !in cfg.parts[a] ==> VoteAt(s, a, k, p) == 0)
  }

  /** Number of votes cast, not counting that of a process that ran out of ids. */
  function Settled(c: Context): nat {
    if c.stage == Failed then c.iter else Cast(c)
  }

  ghost predicate Grows(cfg: Config, s: State, p: nat, a: nat)
    requires ValidConfig(cfg) && Member(cfg, p, a)
  {
    var c := ContextOf(s, p, a);
    && (forall k: nat :: k % 2 == 0 && k < Cast(c) ==> Proposes(cfg, s, a, k, p))
    && (p in cfg.parts[a] ==>
          && (forall k: nat :: k % 2 == 0 && k + 2 < Settled(c) ==> RoundGrows(s, a, k, p))
          && (c.stage == Getting && c.iter >= 2 && IsMax(VotesOf(s, a, c.iter - 2), VoteAt(s, a, c.iter - 2, p)) ==>
                VoteAt(s, a, c.iter - 2, p) < c.start)
          && (c.stage == Deciding && c.iter >= 1 && VoteAt(s, a, c.iter - 1, p) == c.nextCid ==> c.flag))
  }

  ghost predicate AllGrow(cfg: Config, s: State)
    requires ValidConfig(cfg)
  {
    forall p, a :: Member(cfg, p, a) ==> Grows(cfg, s, p, a)
  }

  /** What a process has cast, and every allreduce it has left, stay as they are. */
  ghost predicate PastKept(s: State, s': State, p: nat, a: nat) {
    && (forall k: nat :: k < Cast(ContextOf(s, p, a)) ==> VoteAt(s', a, k, p) == VoteAt(s, a, k, p))
    && (forall k: nat :: k < ContextOf(s, p, a).iter ==> VotesOf(s', a, k) == VotesOf(s, a, k))
  }

  lemma NextKeepsPast(cfg: Config, s: State, step: Step, q: nat, b: nat)
    requires ValidConfig(cfg) && Enabled(cfg, s, step) && Member(cfg, q, b)
    requires VotesInStep(cfg, s) && Synchronised(cfg, s)
    ensures PastKept(s, After(cfg, s, step), q, b)
  {
    NextKeepsVotes(cfg, s, step);
    var s' := After(cfg, s, step);
    var c := ContextOf(s, q, b);
    assert Passed(cfg, s, b, c);
    forall k: nat | k < Cast(c)
      ensures VoteAt(s', b, k, q) == VoteAt(s, b, k, q)
    {
      assert q in VotesOf(s, b, k);
    }
    forall k: nat | k < c.iter
      ensures VotesOf(s', b, k) == VotesOf(s, b, k)
    {
      assert Complete(cfg, VotesOf(s, b, k), b);
    }
  }

  lemma OthersGrow(cfg: Config, s: State, s': State, q: nat, b: nat)
    requires ValidConfig(cfg) && Member(cfg, q, b)
    requires PastKept(s, s', q, b) && Grows(cfg, s, q, b)
    requires ContextOf(s', q, b) == ContextOf(s, q, b)
    ensures Grows(cfg, s', q, b)
  {
    var c := ContextOf(s, q, b);
    forall k: nat | k % 2 == 0 && k < Cast(c)
      ensures Proposes(cfg, s', b, k, q)
    {
      assert Proposes(cfg, s, b, k, q);
    }
    if q in cfg.parts[b] {
      forall k: nat | k % 2 == 0 && k + 2 < Settled(c)
        ensures RoundGrows(s', b, k, q)
      {
        assert RoundGrows(s, b, k, q);
      }
    }
  }

  // The handlers keep the growth facts of the process that runs them.

  lemma BeginGrows(cfg: Config, s: State, step: Step)
    requires ValidConfig(cfg) && Enabled(cfg, s, step) && step.BeginStep?
    requires Current(cfg, s, step.p, step.a)
    requires PastKept(s, After(cfg, s, step), step.p, step.a)
    requires Grows(cfg, s, step.p, step.a)
    ensures Grows(cfg, After(cfg, s, step), step.p, step.a)
  {
  }

  lemma GetGrows(cfg: Config, s: State, step: Step)
    requires ValidConfig(cfg) && Enabled(cfg, s, step) && step.GetStep?
    requires Current(cfg, s, step.p, step.a)
    requires PastKept(s, After(cfg, s, step), step.p, step.a)
    requires Grows(cfg, s, step.p, step.a)
    ensures Grows(cfg, After(cfg, s, step), step.p, step.a)
  {
    var s' := After(cfg, s, step);
    var p, a, c, c' := step.p, step.a, ContextOf(s, step.p, step.a), ContextOf(s', step.p, step.a);
    assert VoteAt(s', a, c.iter, p) == c'.nextLocal;
    forall k: nat | k % 2 == 0 && k < Cast(c')
      ensures Proposes(cfg, s', a, k, p)
    {
      assert k < c.iter ==> Proposes(cfg, s, a, k, p);
    }
    if p in cfg.parts[a] {
      forall k: nat | k % 2 == 0 && k + 2 < Settled(c')
        ensures RoundGrows(s', a, k, p)
      {
        assert k + 2 < c.iter ==> RoundGrows(s, a, k, p);
        assert VotesOf(s', a, k) == VotesOf(s, a, k) && VoteAt(s', a, k, p) == VoteAt(s, a, k, p);
      }
    }
  }

  lemma CheckGrows(cfg: Config, s: State, step: Step)
    requires ValidConfig(cfg) && Enabled(cfg, s, step) && step.CheckStep?
    requires Current(cfg, s, step.p, step.a)
    requires PastKept(s, After(cfg, s, step), step.p, step.a)
    requires Grows(cfg, s, step.p, step.a)
    ensures Grows(cfg, After(cfg, s, step), step.p, step.a)
  {
    var s' := After(cfg, s, step);
    var p, a, c, c' := step.p, step.a, ContextOf(s, step.p, step.a), ContextOf(s', step.p, step.a);
    forall k: nat | k % 2 == 0 && k < Cast(c')
      ensures Proposes(cfg, s', a, k, p)
    {
      assert Proposes(cfg, s, a, k, p);
    }
    if p in cfg.parts[a] {
      forall k: nat | k % 2 == 0 && k + 2 < Settled(c')
        ensures RoundGrows(s', a, k, p)
      {
        assert RoundGrows(s, a, k, p);
        assert VotesOf(s', a, k) == VotesOf(s, a, k) && VoteAt(s', a, k, p) == VoteAt(s, a, k, p);
      }
    }
  }

  lemma DecideGrows(cfg: Config, s: State, step: Step)
    requires ValidConfig(cfg) && Enabled(cfg, s, step) && (step.DecideStep? || step.FreeStep?)
    requires Current(cfg, s, step.p, step.a)
    requires PastKept(s, After(cfg, s, step), step.p, step.a)
    requires Grows(cfg, s, step.p, step.a)
    ensures Grows(cfg, After(cfg, s, step), step.p, step.a)
  {
    var s' := After(cfg, s, step);
    var p, a, c, c' := step.p, step.a, ContextOf(s, step.p, step.a), ContextOf(s', step.p, step.a);
    forall k: nat | k % 2 == 0 && k < Cast(c')
      ensures Proposes(cfg, s', a, k, p)
    {
      assert Proposes(cfg, s, a, k, p);
    }
    if p in cfg.parts[a] {
      forall k: nat | k % 2 == 0 && k + 2 < Settled(c')
        ensures RoundGrows(s', a, k, p)
      {
        assert RoundGrows(s, a, k, p);
        assert VotesOf(s', a, k) == VotesOf(s, a, k) && VoteAt(s', a, k, p) == VoteAt(s, a, k, p);
      }
    }
  }

  lemma NextKeepsGrowth(cfg: Config, s: State, step: Step)
    requires ValidConfig(cfg) && Inv(cfg, s) && AllGrow(cfg, s) && Enabled(cfg, s, step)
    ensures AllGrow(cfg, After(cfg, s, step))
  {
    var s' := After(cfg, s, step);
    forall q: nat, b: nat | Member(cfg, q, b)
      ensures Grows(cfg, s', q, b)
    {
      NextKeepsPast(cfg, s, step, q, b);
      if !step.ForeignFreeStep? && (q, b) == (step.p, step.a) {
        assert Current(cfg, s, q, b);
        match step
        case BeginStep(_, _, _) => BeginGrows(cfg, s, step);
        case GetStep(_, _) => GetGrows(cfg, s, step);
        case CheckStep(_, _, _) => CheckGrows(cfg, s, step);
        case _ => DecideGrows(cfg, s, step);
      } else {
        OthersGrow(cfg, s, s', q, b);
      }
    }
  }

  /** Some participant proposed the candidate. */
  lemma ProposerExists(cfg: Config, s: State, a: nat, k: nat, m: int) returns (p: nat)
    requires ValidConfig(cfg) && VotesInStep(cfg, s) && AllGrow(cfg, s) && a in cfg.members && k % 2 == 0
    requires Complete(cfg, VotesOf(s, a, k), a) && IsMax(VotesOf(s, a, k), m)
    ensures p in cfg.parts[a] && VoteAt(s, a, k, p) == m
  {
    var q :| q in VotesOf(s, a, k) && VotesOf(s, a, k)[q] == m;
    assert Member(cfg, q, a) && Grows(cfg, s, q, a) && Proposes(cfg, s, a, k, q);
    if q in cfg.parts[a] {
      p := q;
    } else {
      p :| p in cfg.parts[a];
      assert p in VotesOf(s, a, k);
      assert Member(cfg, p, a) && Grows(cfg, s, p, a) && Proposes(cfg, s, a, k, p);
    }
  }

  /** Successive candidates of an allocation strictly increase, although only
      those processes that could reserve a candidate move their search start. */
  lemma CandidatesIncrease(cfg: Config, s: State, a: nat, k: nat, m: int, m': int)
    requires ValidConfig(cfg) && VotesInStep(cfg, s) && AllGrow(cfg, s) && a in cfg.members && k % 2 == 0
    requires forall p :: p in cfg.parts[a] ==> ContextOf(s, p, a).stage != Failed
    requires Complete(cfg, VotesOf(s, a, k), a) && IsMax(VotesOf(s, a, k), m)
    requires Complete(cfg, VotesOf(s, a, k + 2), a) && IsMax(VotesOf(s, a, k + 2), m')
    ensures m < m'
  {
    var p := ProposerExists(cfg, s, a, k, m);
    assert p in VotesOf(s, a, k + 2);
    assert Member(cfg, p, a) && Grows(cfg, s, p, a) && RoundGrows(s, a, k, p);
  }

  lemma {:induction false} RunKeepsGrowth(cfg: Config, run: seq<State>, n: nat)
    requires ValidConfig(cfg) && IsRun(cfg, run) && n < |run|
    ensures AllGrow(cfg, run[n])
  {
    if n > 0 {
      RunKeepsGrowth(cfg, run, n - 1);
      RunKeepsInv(cfg, run, n - 1);
      assert Next(cfg, run[n - 1], run[n - 1 + 1]);
      var step :| Enabled(cfg, run[n - 1], step) && run[n] == After(cfg, run[n - 1], step);
      NextKeepsGrowth(cfg, run[n - 1], step);
    }
  }

  /** In every reachable state, with any number of concurrent allocations, the
      candidates of an allocation's successive rounds strictly increase. */
  lemma RoundsIncrease(cfg: Config, run: seq<State>, n: nat, a: nat, k: nat, m: int, m': int)
    requires ValidConfig(cfg) && IsRun(cfg, run) && n < |run| && a in cfg.members && k % 2 == 0
    requires forall p :: p in cfg.parts[a] ==> ContextOf(run[n], p, a).stage != Failed
    requires Complete(cfg, VotesOf(run[n], a, k), a) && IsMax(VotesOf(run[n], a, k), m)
    requires Complete(cfg, VotesOf(run[n], a, k + 2), a) && IsMax(VotesOf(run[n], a, k + 2), m')
    ensures m < m'
  {
    RunKeepsInv(cfg, run, n);
    RunKeepsGrowth(cfg, run, n);
    CandidatesIncrease(cfg, run[n], a, k, m, m');
  }
}
