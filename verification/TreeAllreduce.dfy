/** The allreduce of a group over a binary tree (ompi/communicator/comm_cid.c): every
    member reduces its children's buffers into its own, sends it up, receives the
    result into the same buffer and sends that down. */
module TreeAllreduce {

  datatype Op = Max | Min

  predicate NoBetter(op: Op, a: int, b: int) {
    if op == Max then a <= b else b <= a
  }

  /** ompi_op_reduce: `y` op= `x`, element by element. */
  function Reduce(op: Op, x: seq<int>, y: seq<int>): (r: seq<int>)
    requires |x| == |y|
    ensures |r| == |y|
  {
    seq(|y|, k requires 0 <= k < |y| => if NoBetter(op, x[k], y[k]) then y[k] else x[k])
  }

  /** What a member is waiting for: its children's values, or the result. */
  datatype Phase = Gather | Sent | Done

  /** A member's phase and `outbuf`, and the traffic between it and its parent:
      whether its value has arrived in the parent's `tmpbuf`, as what, and whether
      the result has arrived here. A message carries what is in the sender's buffer
      when it arrives. */
  datatype Member = Member(phase: Phase, out: seq<int>, up: bool, arrived: seq<int>, down: bool)

  type State = seq<Member>

  datatype Group = Group(op: Op, count: nat, inputs: seq<seq<int>>)

  predicate ValidGroup(g: Group) {
    |g.inputs| >= 1 && forall r :: 0 <= r < |g.inputs| ==> |g.inputs[r]| == g.count
  }

  function Parent(r: nat): nat
    requires r > 0
  {
    (r - 1) / 2
  }

  // ---------------------------------------------------------------------- the steps

  datatype Step =
    | ArriveUp(c: nat)       // a member's value arrives at its parent
    | RecvComplete(r: nat)   // all children's values are here
    | ArriveDown(c: nat)     // the parent's result arrives
    | Broadcast(c: nat)      // both messages with the parent are complete

  function Init(g: Group): (s: State)
    requires ValidGroup(g)
    ensures Sized(g, s)
  {
    seq(|g.inputs|, r requires 0 <= r < |g.inputs| => Member(Gather, g.inputs[r], false, [], false))
  }

  predicate ChildrenHere(s: State, r: nat) {
    (2 * r + 1 < |s| ==> s[2 * r + 1].up) && (2 * r + 2 < |s| ==> s[2 * r + 2].up)
  }

  predicate Enabled(s: State, step: Step) {
    match step
    case ArriveUp(c) => 0 < c < |s| && s[c].phase == Sent && !s[c].up
    case RecvComplete(r) => r < |s| && s[r].phase == Gather && ChildrenHere(s, r)
    case ArriveDown(c) => 0 < c < |s| && s[Parent(c)].phase == Done && s[c].phase == Sent && !s[c].down
    case Broadcast(c) => 0 < c < |s| && s[c].phase == Sent && s[c].up && s[c].down
  }

  /** ompi_comm_allreduce_group_recv_complete: both children, in order. */
  function ReduceChildren(g: Group, s: State, r: nat): seq<int>
    requires r < |s| && Sized(g, s) && ChildrenHere(s, r)
  {
    var one := if 2 * r + 1 < |s| then Reduce(g.op, s[2 * r + 1].arrived, s[r].out) else s[r].out;
    if 2 * r + 2 < |s| then Reduce(g.op, s[2 * r + 2].arrived, one) else one
  }

  function After(g: Group, s: State, step: Step): (t: State)
    requires Sized(g, s) && Enabled(s, step)
    ensures Sized(g, t)
  {
    match step
    case ArriveUp(c) => s[c := s[c].(up := true, arrived := s[c].out)]
    case RecvComplete(r) => s[r := s[r].(out := ReduceChildren(g, s, r), phase := if r == 0 then Done else Sent)]
    case ArriveDown(c) => s[c := s[c].(down := true, out := s[Parent(c)].out)]
    case Broadcast(c) => s[c := s[c].(phase := Done)]
  }

  predicate Sized(g: Group, s: State) {
    && |s| == |g.inputs|
    && forall r :: 0 <= r < |s| ==> |s[r].out| == g.count && (s[r].up ==> |s[r].arrived| == g.count)
  }

  // ------------------------------------------------------------------- what it computes

  /** `r` is `m` or below it in the tree. */
  predicate Under(r: nat, m: nat)
    decreases r
  {
    r == m || (r > m && Under(Parent(r), m))
  }

  lemma {:induction false} UnderRoot(r: nat)
    ensures Under(r, 0)
  {
    if r > 0 {
      UnderRoot(Parent(r));
    }
  }

  /** Below `m` is below one of its children, or `m`. */
  lemma {:induction false} UnderChildren(r: nat, m: nat)
    ensures Under(r, m) <==> r == m || Under(r, 2 * m + 1) || Under(r, 2 * m + 2)
    decreases r
  {
    if r > m {
      UnderChildren(Parent(r), m);
    }
  }

  ghost function Below(g: Group, m: nat): set<nat> {
    set r: nat | r < |g.inputs| && Under(r, m)
  }

  /** `x` is one of the inputs at place `k` of the members in `who`, and the greatest or the least of them. */
  ghost predicate BestAt(g: Group, who: set<nat>, k: nat, x: int)
    requires ValidGroup(g) && k < g.count
  {
    && (forall r :: r in who && r < |g.inputs| ==> if g.op == Max then g.inputs[r][k] <= x else x <= g.inputs[r][k])
    && (exists r :: r in who && r < |g.inputs| && g.inputs[r][k] == x)
  }

  /** `v` is the reduction of the inputs of the members in `who`. */
  ghost predicate Reduced(g: Group, who: set<nat>, v: seq<int>)
    requires ValidGroup(g)
  {
    |v| == g.count && forall k :: 0 <= k < g.count ==> BestAt(g, who, k, v[k])
  }

  lemma ReduceBoth(g: Group, a: set<nat>, b: set<nat>, x: seq<int>, y: seq<int>)
    requires ValidGroup(g) && Reduced(g, a, x) && Reduced(g, b, y)
    ensures Reduced(g, a + b, Reduce(g.op, x, y))
  {
    var v := Reduce(g.op, x, y);
    forall k | 0 <= k < g.count
      ensures BestAt(g, a + b, k, v[k])
    {
      BestOfBoth(g, a, b, k, x[k], y[k]);
    }
  }

  lemma BestOfBoth(g: Group, a: set<nat>, b: set<nat>, k: nat, x: int, y: int)
    requires ValidGroup(g) && k < g.count && BestAt(g, a, k, x) && BestAt(g, b, k, y)
    ensures BestAt(g, a + b, k, if NoBetter(g.op, x, y) then y else x)
  {
    var r :| r in a && r < |g.inputs| && g.inputs[r][k] == x;
    var r' :| r' in b && r' < |g.inputs| && g.inputs[r'][k] == y;
    assert r in a + b && r' in a + b;
  }

  lemma ReduceOne(g: Group, r: nat)
    requires ValidGroup(g) && r < |g.inputs|
    ensures Reduced(g, {r}, g.inputs[r])
  {
    assert r in {r};
  }

  lemma BelowSplits(g: Group, m: nat)
    requires m < |g.inputs|
    ensures Below(g, m) == {m} + Below(g, 2 * m + 1) + Below(g, 2 * m + 2)
    ensures forall c: nat :: c >= |g.inputs| ==> Below(g, c) == {}
  {
    forall r: nat
      ensures r in Below(g, m) <==> r in {m} + Below(g, 2 * m + 1) + Below(g, 2 * m + 2)
    {
      UnderChildren(r, m);
    }
    forall c: nat | c >= |g.inputs|
      ensures Below(g, c) == {}
    {
    }
  }

  /** The reduction of a member and its children is the reduction of all below it. */
  lemma ChildrenReduced(g: Group, s: State, r: nat)
    requires ValidGroup(g) && Sized(g, s) && r < |s| && ChildrenHere(s, r) && s[r].out == g.inputs[r]
    requires forall c :: 0 < c < |s| && s[c].up ==> Reduced(g, Below(g, c), s[c].arrived)
    ensures Reduced(g, Below(g, r), ReduceChildren(g, s, r))
  {
    var c, c' := 2 * r + 1, 2 * r + 2;
    BelowSplits(g, r);
    ReduceOne(g, r);
    if c < |s| {
      ReduceBoth(g, Below(g, c), {r}, s[c].arrived, s[r].out);
      var one := Reduce(g.op, s[c].arrived, s[r].out);
      if c' < |s| {
        ReduceBoth(g, Below(g, c'), Below(g, c) + {r}, s[c'].arrived, one);
        assert Below(g, c') + (Below(g, c) + {r}) == Below(g, r);
      } else {
        assert Below(g, c) + {r} == Below(g, r);
      }
    } else {
      assert {r} == Below(g, r);
    }
  }

  // --------------------------------------------------------------------- the invariant

  /** What is true of one member. */
  ghost predicate MemberInv(g: Group, s: State, r: nat)
    requires ValidGroup(g) && r < |s| == |g.inputs|
  {
    var m := s[r];
    && (m.phase == Gather ==> m.out == g.inputs[r] && !m.up && !m.down)
    && (m.phase == Sent && !m.down ==> Reduced(g, Below(g, r), m.out))
    && (m.phase == Done && r > 0 ==> m.down)
    && (m.phase == Done || m.down ==> Reduced(g, Below(g, 0), m.out))
    && (m.up ==> Reduced(g, Below(g, r), m.arrived))
    && (r == 0 ==> m.phase != Sent && !m.up && !m.down)
    && (m.phase != Gather ==> ChildrenHere(s, r))
    && (m.down ==> m.up)
    && (m.down && r > 0 ==> s[Parent(r)].phase == Done)
  }

  ghost predicate Inv(g: Group, s: State) {
    ValidGroup(g) && Sized(g, s) && forall r :: 0 <= r < |s| ==> MemberInv(g, s, r)
  }

  lemma InitInv(g: Group)
    requires ValidGroup(g)
    ensures Inv(g, Init(g))
  {
  }

  lemma ParentSeesChild(s: State, c: nat)
    requires 0 < c < |s| && ChildrenHere(s, Parent(c))
    ensures s[c].up
  {
    assert c == 2 * Parent(c) + 1 || c == 2 * Parent(c) + 2;
  }

  /** A value arrives before anything else is put in the buffer it is sent from. */
  lemma ArrivalInv(g: Group, s: State, c: nat)
    requires Inv(g, s) && Enabled(s, ArriveUp(c))
    ensures Inv(g, After(g, s, ArriveUp(c)))
  {
    var s' := After(g, s, ArriveUp(c));
    assert MemberInv(g, s, c);
    forall r | 0 <= r < |s'|
      ensures MemberInv(g, s', r)
    {
      assert MemberInv(g, s, r);
    }
  }

  lemma RecvCompleteInv(g: Group, s: State, r: nat)
    requires Inv(g, s) && Enabled(s, RecvComplete(r))
    ensures Inv(g, After(g, s, RecvComplete(r)))
  {
    var s' := After(g, s, RecvComplete(r));
    assert MemberInv(g, s, r);
    forall c | 0 < c < |s| && s[c].up
      ensures Reduced(g, Below(g, c), s[c].arrived)
    {
      assert MemberInv(g, s, c);
    }
    ChildrenReduced(g, s, r);
    forall m | 0 <= m < |s'|
      ensures MemberInv(g, s', m)
    {
      assert MemberInv(g, s, m);
    }
  }

  lemma ArriveDownInv(g: Group, s: State, c: nat)
    requires Inv(g, s) && Enabled(s, ArriveDown(c))
    ensures Inv(g, After(g, s, ArriveDown(c)))
  {
    var s' := After(g, s, ArriveDown(c));
    assert MemberInv(g, s, c) && MemberInv(g, s, Parent(c));
    ParentSeesChild(s, c);
    forall m | 0 <= m < |s'|
      ensures MemberInv(g, s', m)
    {
      assert MemberInv(g, s, m);
    }
  }

  lemma BroadcastInv(g: Group, s: State, c: nat)
    requires Inv(g, s) && Enabled(s, Broadcast(c))
    ensures Inv(g, After(g, s, Broadcast(c)))
  {
    var s' := After(g, s, Broadcast(c));
    assert MemberInv(g, s, c);
    forall m | 0 <= m < |s'|
      ensures MemberInv(g, s', m)
    {
      assert MemberInv(g, s, m);
    }
  }

  lemma StepInv(g: Group, s: State, step: Step)
    requires Inv(g, s) && Enabled(s, step)
    ensures Inv(g, After(g, s, step))
  {
    match step
    case ArriveUp(c) => ArrivalInv(g, s, c);
    case RecvComplete(r) => RecvCompleteInv(g, s, r);
    case ArriveDown(c) => ArriveDownInv(g, s, c);
    case Broadcast(c) => BroadcastInv(g, s, c);
  }

  // --------------------------------------------------------------------------- runs

  ghost predicate Reaches(g: Group, s: State, steps: seq<Step>, t: State)
    requires Sized(g, s)
    decreases |steps|
  {
    if steps == [] then s == t else Enabled(s, steps[0]) && Reaches(g, After(g, s, steps[0]), steps[1..], t)
  }

  lemma {:induction false} RunInv(g: Group, s: State, steps: seq<Step>, t: State)
    requires Inv(g, s) && Reaches(g, s, steps, t)
    ensures Inv(g, t) && Work(t, |t|) == Work(s, |s|) + |steps|
    decreases |steps|
  {
    if steps != [] {
      StepInv(g, s, steps[0]);
      StepWorks(g, s, steps[0]);
      RunInv(g, After(g, s, steps[0]), steps[1..], t);
    }
  }

  /** How many steps the first `n` members have made. */
  function Work(s: State, n: nat): nat
    requires n <= |s|
  {
    if n == 0 then 0 else Work(s, n - 1) + WorkOf(s[n - 1], n - 1)
  }

  function WorkOf(m: Member, r: nat): nat {
    (if m.phase == Gather then 0 else 1) + (if m.phase == Done && r > 0 then 1 else 0)
    + (if m.up then 1 else 0) + if m.down then 1 else 0
  }

  lemma {:induction false} WorkUpdate(s: State, r: nat, m: Member, n: nat)
    requires r < |s| && n <= |s|
    ensures Work(s[r := m], n) == Work(s, n) + if r < n then WorkOf(m, r) - WorkOf(s[r], r) else 0
  {
    if n > 0 {
      WorkUpdate(s, r, m, n - 1);
    }
  }

  lemma StepWorks(g: Group, s: State, step: Step)
    requires Inv(g, s) && Enabled(s, step)
    ensures Work(After(g, s, step), |s|) == Work(s, |s|) + 1
  {
    var r := match step case ArriveUp(c) => c case RecvComplete(r) => r case ArriveDown(c) => c case Broadcast(c) => c;
    assert MemberInv(g, s, r);
    WorkUpdate(s, r, After(g, s, step)[r], |s|);
    assert After(g, s, step) == s[r := After(g, s, step)[r]];
  }

  lemma {:induction false} NoWork(g: Group, n: nat)
    requires ValidGroup(g) && n <= |g.inputs|
    ensures Work(Init(g), n) == 0
  {
    if n > 0 {
      NoWork(g, n - 1);
    }
  }

  lemma {:induction false} WorkBound(g: Group, s: State, n: nat)
    requires Inv(g, s) && 1 <= n <= |s|
    ensures Work(s, n) <= 4 * n - 3
    ensures Work(s, n) == 4 * n - 3 <==> forall r :: 0 <= r < n ==> s[r].phase == Done && (r > 0 ==> s[r].up && s[r].down)
  {
    assert MemberInv(g, s, n - 1);
    if n > 1 {
      WorkBound(g, s, n - 1);
    } else {
      assert Work(s, 0) == 0;
    }
  }

  // ------------------------------------------------------------------------ theorems

  lemma Unique(g: Group, who: set<nat>, v: seq<int>, v': seq<int>)
    requires ValidGroup(g) && Reduced(g, who, v) && Reduced(g, who, v')
    ensures v == v'
  {
    forall k | 0 <= k < g.count
      ensures v[k] == v'[k]
    {
      assert BestAt(g, who, k, v[k]) && BestAt(g, who, k, v'[k]);
    }
  }

  predicate IsMember(g: Group, r: nat) {
    r < |g.inputs|
  }

  ghost function Everyone(g: Group): set<nat> {
    set r: nat | r < |g.inputs| && IsMember(g, r)
  }

  lemma BelowRoot(g: Group)
    ensures Below(g, 0) == Everyone(g)
  {
    forall r: nat
      ensures r in Below(g, 0) <==> r in Everyone(g)
    {
      UnderRoot(r);
    }
  }

  /** In every run, a member that is done holds the reduction of all inputs. */
  lemma Correct(g: Group, steps: seq<Step>, t: State, r: nat)
    requires ValidGroup(g) && Reaches(g, Init(g), steps, t) && r < |t| && t[r].phase == Done
    ensures Reduced(g, Everyone(g), t[r].out)
  {
    InitInv(g);
    RunInv(g, Init(g), steps, t);
    assert MemberInv(g, t, r);
    BelowRoot(g);
  }

  /** All members that are done hold the same. */
  lemma SameResult(g: Group, steps: seq<Step>, t: State, r: nat, r': nat)
    requires ValidGroup(g) && Reaches(g, Init(g), steps, t)
    requires r < |t| && t[r].phase == Done && r' < |t| && t[r'].phase == Done
    ensures t[r].out == t[r'].out
  {
    Correct(g, steps, t, r);
    Correct(g, steps, t, r');
    Unique(g, Everyone(g), t[r].out, t[r'].out);
  }

  /** A member that cannot go on, on the way up. */
  lemma {:induction false} AllSent(g: Group, s: State, r: nat)
    requires Inv(g, s) && r <= |s| && forall step :: !Enabled(s, step)
    ensures forall c :: r <= c < |s| ==> s[c].phase != Gather
    decreases |s| - r
  {
    if r < |s| {
      AllSent(g, s, r + 1);
      assert MemberInv(g, s, r);
      assert !Enabled(s, RecvComplete(r));
      if 2 * r + 1 < |s| {
        assert !Enabled(s, ArriveUp(2 * r + 1)) && MemberInv(g, s, 2 * r + 1);
      }
      if 2 * r + 2 < |s| {
        assert !Enabled(s, ArriveUp(2 * r + 2)) && MemberInv(g, s, 2 * r + 2);
      }
    }
  }

  /** A member that cannot go on, on the way down. */
  lemma {:induction false} AllDone(g: Group, s: State, r: nat)
    requires Inv(g, s) && r <= |s| && (forall step :: !Enabled(s, step)) && forall c :: 0 <= c < |s| ==> s[c].phase != Gather
    ensures forall c :: 0 <= c < r ==> s[c].phase == Done
  {
    if r > 0 {
      AllDone(g, s, r - 1);
      var c := r - 1;
      assert MemberInv(g, s, c);
      if c > 0 {
        assert MemberInv(g, s, Parent(c));
        ParentSeesChild(s, c);
        assert !Enabled(s, ArriveDown(c)) && !Enabled(s, Broadcast(c));
      }
    }
  }

  /** No run takes more than four steps a member, and one that cannot go on has taken
      every step: all members are done and each edge has carried one message up and one down. */
  lemma Complete(g: Group, steps: seq<Step>, t: State)
    requires ValidGroup(g) && Reaches(g, Init(g), steps, t)
    ensures |steps| <= 4 * |g.inputs| - 3
    ensures (forall step :: !Enabled(t, step)) ==>
              && |steps| == 4 * |g.inputs| - 3
              && forall r :: 0 <= r < |t| ==> t[r].phase == Done && (r > 0 ==> t[r].up && t[r].down)
  {
    InitInv(g);
    RunInv(g, Init(g), steps, t);
    NoWork(g, |g.inputs|);
    WorkBound(g, t, |t|);
    if forall step :: !Enabled(t, step) {
      AllSent(g, t, 0);
      AllDone(g, t, |t|);
      forall r | 0 <= r < |t|
        ensures t[r].phase == Done && (r > 0 ==> t[r].up && t[r].down)
      {
        assert MemberInv(g, t, r);
      }
    }
  }
}
