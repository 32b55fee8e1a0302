/** One reduction after the other over the same tree, on the same tag
    (ompi/communicator/comm_cid.c). Nothing in a message says which reduction it
    belongs to: a receive takes the oldest message from the peer. */
module TreeRounds {
  import opened TreeAllreduce

  /** A message; its round is for the proofs, no step looks at it. */
  datatype Msg = Msg(round: nat, value: seq<int>)

  /** Between two reductions, waiting for the children, waiting for the result. */
  datatype Stage = Idle | Gathering | Waiting

  /** A member: the number of its reduction, `outbuf`, the inputs it has given and the
      results it has got so far, what is on the way from it to its parent and from its
      parent to it, and whether its value is in the parent's `tmpbuf`, and as what. */
  datatype Node = Node(round: nat, stage: Stage, out: seq<int>, ins: seq<seq<int>>, results: seq<seq<int>>,
                       up: seq<Msg>, here: bool, arrived: seq<int>, down: seq<Msg>)

  type Net = seq<Node>

  /** The length of the vectors, and the operation of each reduction. */
  datatype Config = Config(count: nat, ops: nat -> Op)

  // ---------------------------------------------------------------------- the moves

  datatype Move =
    | Enter(r: nat, input: seq<int>)   // a member starts its next reduction
    | TakeUp(c: nat)                   // its parent receives a message of `c`
    | Combine(r: nat)                  // all children's values are here
    | TakeDown(c: nat)                 // `c` receives a message of its parent

  function Zeros(n: nat): (z: seq<int>)
    ensures |z| == n
  {
    seq(n, i => 0)
  }

  function Start(cfg: Config, n: nat): (s: Net)
    ensures |s| == n && (n >= 1 ==> NetSized(cfg, s))
  {
    seq(n, r => Node(0, Idle, Zeros(cfg.count), [], [], [], false, Zeros(cfg.count), []))
  }

  predicate NodeSized(cfg: Config, n: Node) {
    && |n.out| == |n.arrived| == cfg.count
    && (forall k :: 0 <= k < |n.ins| ==> |n.ins[k]| == cfg.count)
    && (forall k :: 0 <= k < |n.up| ==> |n.up[k].value| == cfg.count)
    && (forall k :: 0 <= k < |n.down| ==> |n.down[k].value| == cfg.count)
  }

  predicate NetSized(cfg: Config, s: Net) {
    |s| >= 1 && forall r :: 0 <= r < |s| ==> NodeSized(cfg, s[r])
  }

  predicate IsChild(c: nat, r: nat) {
    c > 0 && Parent(c) == r
  }

  predicate ValuesHere(s: Net, r: nat) {
    (2 * r + 1 < |s| ==> s[2 * r + 1].here) && (2 * r + 2 < |s| ==> s[2 * r + 2].here)
  }

  predicate Allowed(cfg: Config, s: Net, move: Move) {
    match move
    case Enter(r, input) => r < |s| && s[r].stage == Idle && |input| == cfg.count
    case TakeUp(c) => 0 < c < |s| && s[Parent(c)].stage == Gathering && !s[c].here && s[c].up != []
    case Combine(r) => r < |s| && s[r].stage == Gathering && ValuesHere(s, r)
    case TakeDown(c) => 0 < c < |s| && s[c].stage == Waiting && s[c].down != []
  }

  function Combined(cfg: Config, s: Net, r: nat): (v: seq<int>)
    requires NetSized(cfg, s) && r < |s|
    ensures |v| == cfg.count
  {
    var op := cfg.ops(s[r].round);
    var one := if 2 * r + 1 < |s| then Reduce(op, s[2 * r + 1].arrived, s[r].out) else s[r].out;
    if 2 * r + 2 < |s| then Reduce(op, s[2 * r + 2].arrived, one) else one
  }

  /** A new reduction: the receives from the children are posted. */
  function Entered(s: Net, r: nat, input: seq<int>): (t: Net)
    requires r < |s|
    ensures |t| == |s|
  {
    seq(|s|, i requires 0 <= i < |s| =>
      if i == r then s[r].(stage := Gathering, out := input, ins := s[r].ins + [input])
      else if IsChild(i, r) then s[i].(here := false)
      else s[i])
  }

  /** The result is here and goes to the children. */
  function Finished(s: Net, r: nat, v: seq<int>): (t: Net)
    requires r < |s|
    ensures |t| == |s|
  {
    seq(|s|, i requires 0 <= i < |s| =>
      if i == r then s[r].(round := s[r].round + 1, stage := Idle, out := v, results := s[r].results + [v], down := Rest(s[r].down))
      else if IsChild(i, r) then s[i].(down := s[i].down + [Msg(s[r].round, v)])
      else s[i])
  }

  function Rest(queue: seq<Msg>): seq<Msg> {
    if queue == [] then [] else queue[1..]
  }

  function Following(cfg: Config, s: Net, move: Move): (t: Net)
    requires NetSized(cfg, s) && Allowed(cfg, s, move)
    ensures |t| == |s| && NetSized(cfg, t)
  {
    match move
    case Enter(r, input) => Entered(s, r, input)
    case TakeUp(c) => s[c := s[c].(here := true, arrived := s[c].up[0].value, up := s[c].up[1..])]
    case Combine(r) =>
      var v := Combined(cfg, s, r);
      if r == 0 then Finished(s, r, v)
      else s[r := s[r].(stage := Waiting, out := v, up := s[r].up + [Msg(s[r].round, v)])]
    case TakeDown(c) => Finished(s, c, s[c].down[0].value)
  }

  // ------------------------------------------------------- which messages are on the way

  ghost predicate Shaped(n: Node) {
    && |n.results| == n.round && |n.ins| == n.round + (if n.stage == Idle then 0 else 1)
    && (n.stage == Gathering ==> n.out == n.ins[n.round])
  }

  /** What is between a member and its parent: at most one message, and that of the
      reduction its receiver is in. */
  ghost predicate Linked(p: Node, c: Node) {
    if p.stage == Waiting || (p.stage == Gathering && c.here) then
      c.round == p.round && c.stage == Waiting && c.up == [] && c.down == []
    else
      || (c.round == p.round && c.stage != Waiting && c.up == [] && c.down == [])
      || (c.round == p.round && c.stage == Waiting && c.down == [] && |c.up| == 1 && c.up[0].round == p.round)
      || (c.round + 1 == p.round && c.stage == Waiting && c.up == [] && |c.down| == 1 && c.down[0].round == c.round)
  }

  ghost predicate EdgeOk(s: Net, c: nat)
    requires 0 < c < |s|
  {
    Linked(s[Parent(c)], s[c])
  }

  ghost predicate Orderly(s: Net) {
    && |s| >= 1 && s[0].stage != Waiting && s[0].up == [] && s[0].down == []
    && (forall r :: 0 <= r < |s| ==> Shaped(s[r]))
    && (forall c :: 0 < c < |s| ==> EdgeOk(s, c))
  }

  lemma ChildEdges(s: Net, r: nat)
    requires r < |s| && forall c :: 0 < c < |s| ==> EdgeOk(s, c)
    ensures forall i :: 0 < i < |s| && IsChild(i, r) ==> Linked(s[r], s[i])
  {
    forall i | 0 < i < |s| && IsChild(i, r)
      ensures Linked(s[r], s[i])
    {
      assert EdgeOk(s, i);
    }
  }

  lemma EnterOrderly(cfg: Config, s: Net, r: nat, input: seq<int>)
    requires NetSized(cfg, s) && Orderly(s) && Allowed(cfg, s, Enter(r, input))
    ensures Orderly(Entered(s, r, input))
  {
    var t := Entered(s, r, input);
    forall c | 0 < c < |t|
      ensures EdgeOk(t, c)
    {
      assert EdgeOk(s, c);
    }
  }

  lemma TakeUpOrderly(cfg: Config, s: Net, c: nat)
    requires NetSized(cfg, s) && Orderly(s) && Allowed(cfg, s, TakeUp(c))
    ensures Orderly(Following(cfg, s, TakeUp(c)))
    ensures s[c].up[0].round == s[Parent(c)].round
  {
    var t := Following(cfg, s, TakeUp(c));
    assert EdgeOk(s, c);
    forall i | 0 < i < |t|
      ensures EdgeOk(t, i)
    {
      assert EdgeOk(s, i);
    }
  }

  lemma RootOrderly(cfg: Config, s: Net)
    requires NetSized(cfg, s) && Orderly(s) && Allowed(cfg, s, Combine(0))
    ensures Orderly(Following(cfg, s, Combine(0)))
  {
    var t := Following(cfg, s, Combine(0));
    forall i | 0 < i < |t|
      ensures EdgeOk(t, i)
    {
      assert EdgeOk(s, i);
      assert IsChild(i, 0) ==> i == 1 || i == 2;
    }
  }

  lemma InteriorOrderly(cfg: Config, s: Net, r: nat)
    requires NetSized(cfg, s) && Orderly(s) && Allowed(cfg, s, Combine(r)) && r > 0
    ensures Orderly(Following(cfg, s, Combine(r)))
  {
    var t := Following(cfg, s, Combine(r));
    assert EdgeOk(s, r);
    forall i | 0 < i < |t|
      ensures EdgeOk(t, i)
    {
      assert EdgeOk(s, i);
      assert IsChild(i, r) ==> i == 2 * r + 1 || i == 2 * r + 2;
    }
  }

  lemma TakeDownOrderly(cfg: Config, s: Net, c: nat)
    requires NetSized(cfg, s) && Orderly(s) && Allowed(cfg, s, TakeDown(c))
    ensures Orderly(Following(cfg, s, TakeDown(c)))
    ensures s[c].down[0].round == s[c].round
  {
    var t := Following(cfg, s, TakeDown(c));
    assert EdgeOk(s, c);
    ChildEdges(s, c);
    forall i | 0 < i < |t|
      ensures EdgeOk(t, i)
    {
      assert EdgeOk(s, i);
    }
  }

  // ---------------------------------------------------------------- what they carry

  /** Reduction number `k`, with the inputs given for it so far. */
  ghost function Round(cfg: Config, s: Net, k: nat): (g: Group)
    requires NetSized(cfg, s)
    ensures ValidGroup(g) && |g.inputs| == |s|
  {
    Group(cfg.ops(k), cfg.count, seq(|s|, r requires 0 <= r < |s| => if k < |s[r].ins| then s[r].ins[k] else Zeros(cfg.count)))
  }

  /** All members below `m` have given their input for reduction `k`, and `v` reduces these. */
  ghost predicate Contributed(cfg: Config, s: Net, m: nat, k: nat, v: seq<int>)
    requires NetSized(cfg, s)
  {
    var g := Round(cfg, s, k);
    (forall r :: r in Below(g, m) ==> k < |s[r].ins|) && Reduced(g, Below(g, m), v)
  }

  ghost predicate UpValues(cfg: Config, s: Net, r: nat)
    requires NetSized(cfg, s) && r < |s|
  {
    && (forall i :: 0 <= i < |s[r].up| ==> Contributed(cfg, s, r, s[r].up[i].round, s[r].up[i].value))
    && (r > 0 && s[r].here && s[Parent(r)].stage == Gathering ==> Contributed(cfg, s, r, s[Parent(r)].round, s[r].arrived))
  }

  ghost predicate DownValues(cfg: Config, s: Net, r: nat)
    requires NetSized(cfg, s) && r < |s|
  {
    && (forall i :: 0 <= i < |s[r].down| ==> Contributed(cfg, s, 0, s[r].down[i].round, s[r].down[i].value))
    && (forall k :: 0 <= k < |s[r].results| ==> Contributed(cfg, s, 0, k, s[r].results[k]))
  }

  ghost predicate Truthful(cfg: Config, s: Net)
    requires NetSized(cfg, s)
  {
    forall r :: 0 <= r < |s| ==> UpValues(cfg, s, r) && DownValues(cfg, s, r)
  }

  ghost predicate MoreInputs(s: Net, t: Net) {
    |s| == |t| && forall r :: 0 <= r < |s| ==> s[r].ins <= t[r].ins
  }

  lemma StaysContributed(cfg: Config, s: Net, t: Net, m: nat, k: nat, v: seq<int>)
    requires NetSized(cfg, s) && NetSized(cfg, t) && MoreInputs(s, t) && Contributed(cfg, s, m, k, v)
    ensures Contributed(cfg, t, m, k, v)
  {
    var g, g' := Round(cfg, s, k), Round(cfg, t, k);
    assert Below(g, m) == Below(g', m);
    assert forall r :: r in Below(g, m) ==> g'.inputs[r] == g.inputs[r];
    forall i | 0 <= i < cfg.count
      ensures BestAt(g', Below(g', m), i, v[i])
    {
      assert BestAt(g, Below(g, m), i, v[i]);
      var r :| r in Below(g, m) && r < |g.inputs| && g.inputs[r][i] == v[i];
      assert g'.inputs[r][i] == v[i];
    }
  }

  lemma AllStayContributed(cfg: Config, s: Net, t: Net)
    requires NetSized(cfg, s) && NetSized(cfg, t) && MoreInputs(s, t)
    ensures forall m, k, v :: Contributed(cfg, s, m, k, v) ==> Contributed(cfg, t, m, k, v)
  {
    forall m, k, v | Contributed(cfg, s, m, k, v)
      ensures Contributed(cfg, t, m, k, v)
    {
      StaysContributed(cfg, s, t, m, k, v);
    }
  }

  /** A member's input, reduced with the values of its children, is that of all below it. */
  lemma FoldChildren(g: Group, r: nat, out: seq<int>, x: seq<int>, y: seq<int>, one: seq<int>, v: seq<int>)
    requires ValidGroup(g) && r < |g.inputs| && out == g.inputs[r]
    requires 2 * r + 1 < |g.inputs| ==> Reduced(g, Below(g, 2 * r + 1), x)
    requires 2 * r + 2 < |g.inputs| ==> Reduced(g, Below(g, 2 * r + 2), y)
    requires one == if 2 * r + 1 < |g.inputs| then Reduce(g.op, x, out) else out
    requires v == if 2 * r + 2 < |g.inputs| then Reduce(g.op, y, one) else one
    ensures Reduced(g, Below(g, r), v)
  {
    var c, c' := 2 * r + 1, 2 * r + 2;
    BelowSplits(g, r);
    ReduceOne(g, r);
    if c < |g.inputs| {
      ReduceBoth(g, Below(g, c), {r}, x, out);
      if c' < |g.inputs| {
        ReduceBoth(g, Below(g, c'), Below(g, c) + {r}, y, one);
        assert Below(g, c') + (Below(g, c) + {r}) == Below(g, r);
      } else {
        assert Below(g, c) + {r} == Below(g, r);
      }
    } else {
      assert {r} == Below(g, r);
    }
  }

  lemma ChildContributed(cfg: Config, s: Net, r: nat, c: nat)
    requires NetSized(cfg, s) && Truthful(cfg, s) && r < |s| && s[r].stage == Gathering && 0 < c < |s| && Parent(c) == r && s[c].here
    ensures Contributed(cfg, s, c, s[r].round, s[c].arrived)
  {
    assert UpValues(cfg, s, c);
  }

  lemma AllGiven(cfg: Config, s: Net, r: nat, k: nat, g: Group)
    requires NetSized(cfg, s) && g == Round(cfg, s, k) && r < |s| && k < |s[r].ins|
    requires forall c :: c == 2 * r + 1 || c == 2 * r + 2 ==> forall m :: m in Below(g, c) ==> k < |s[m].ins|
    ensures forall m :: m in Below(g, r) ==> k < |s[m].ins|
  {
    BelowSplits(g, r);
  }

  /** A member and its children together are all below it. */
  lemma CombinedRight(cfg: Config, s: Net, r: nat)
    requires NetSized(cfg, s) && Orderly(s) && Truthful(cfg, s) && Allowed(cfg, s, Combine(r))
    ensures Contributed(cfg, s, r, s[r].round, Combined(cfg, s, r))
  {
    var k, c, c', x, y := s[r].round, 2 * r + 1, 2 * r + 2, [], [];
    var g := Round(cfg, s, k);
    assert Shaped(s[r]);
    BelowSplits(g, r);
    if c < |s| {
      ChildContributed(cfg, s, r, c);
      x := s[c].arrived;
    }
    if c' < |s| {
      ChildContributed(cfg, s, r, c');
      y := s[c'].arrived;
    }
    AllGiven(cfg, s, r, k, g);
    FoldChildren(g, r, s[r].out, x, y, if c < |s| then Reduce(g.op, x, s[r].out) else s[r].out, Combined(cfg, s, r));
  }

  lemma EnterTruthful(cfg: Config, s: Net, r: nat, input: seq<int>, t: Net)
    requires NetSized(cfg, s) && Truthful(cfg, s) && Allowed(cfg, s, Enter(r, input)) && t == Entered(s, r, input) && NetSized(cfg, t)
    ensures Truthful(cfg, t)
  {
    AllStayContributed(cfg, s, t);
    forall i | 0 <= i < |t|
      ensures UpValues(cfg, t, i) && DownValues(cfg, t, i)
    {
      assert UpValues(cfg, s, i) && DownValues(cfg, s, i);
    }
  }

  lemma TakeUpTruthful(cfg: Config, s: Net, c: nat, t: Net)
    requires NetSized(cfg, s) && Orderly(s) && Truthful(cfg, s) && Allowed(cfg, s, TakeUp(c))
    requires t == Following(cfg, s, TakeUp(c)) && NetSized(cfg, t)
    ensures Truthful(cfg, t)
  {
    AllStayContributed(cfg, s, t);
    TakeUpOrderly(cfg, s, c);
    forall i | 0 <= i < |t|
      ensures UpValues(cfg, t, i) && DownValues(cfg, t, i)
    {
      assert UpValues(cfg, s, i) && DownValues(cfg, s, i);
    }
  }

  lemma SendUpTruthful(cfg: Config, s: Net, r: nat, t: Net)
    requires NetSized(cfg, s) && Orderly(s) && Truthful(cfg, s) && Allowed(cfg, s, Combine(r)) && r > 0
    requires t == Following(cfg, s, Combine(r)) && NetSized(cfg, t)
    ensures Truthful(cfg, t)
  {
    AllStayContributed(cfg, s, t);
    CombinedRight(cfg, s, r);
    forall i | 0 <= i < |t|
      ensures UpValues(cfg, t, i) && DownValues(cfg, t, i)
    {
      assert UpValues(cfg, s, i) && DownValues(cfg, s, i);
    }
  }

  lemma FinishUp(cfg: Config, s: Net, r: nat, v: seq<int>, t: Net, i: nat)
    requires NetSized(cfg, s) && Truthful(cfg, s) && r < |s| && i < |s|
    requires t == Finished(s, r, v) && NetSized(cfg, t)
    requires forall m, k, v :: Contributed(cfg, s, m, k, v) ==> Contributed(cfg, t, m, k, v)
    ensures UpValues(cfg, t, i)
  {
    assert UpValues(cfg, s, i);
    assert t[i].up == s[i].up && t[i].here == s[i].here && t[i].arrived == s[i].arrived;
    if i > 0 {
      assert t[Parent(i)].stage == Gathering ==> t[Parent(i)].stage == s[Parent(i)].stage && t[Parent(i)].round == s[Parent(i)].round;
    }
  }

  lemma FinishDown(cfg: Config, s: Net, r: nat, v: seq<int>, t: Net, i: nat)
    requires NetSized(cfg, s) && Truthful(cfg, s) && r < |s| && i < |s| && Shaped(s[r]) && Contributed(cfg, s, 0, s[r].round, v)
    requires t == Finished(s, r, v) && NetSized(cfg, t)
    requires forall m, k, v :: Contributed(cfg, s, m, k, v) ==> Contributed(cfg, t, m, k, v)
    ensures DownValues(cfg, t, i)
  {
    assert DownValues(cfg, s, i);
    var n, n' := s[i], t[i];
    forall j | 0 <= j < |n'.down|
      ensures Contributed(cfg, t, 0, n'.down[j].round, n'.down[j].value)
    {
      var from := if i == r then j + 1 else j;
      if from < |n.down| {
        assert n'.down[j] == n.down[from];
        assert Contributed(cfg, s, 0, n.down[from].round, n.down[from].value);
      } else {
        assert n'.down[j] == Msg(s[r].round, v);
      }
    }
    forall k | 0 <= k < |n'.results|
      ensures Contributed(cfg, t, 0, k, n'.results[k])
    {
      if k < |n.results| {
        assert n'.results[k] == n.results[k];
        assert Contributed(cfg, s, 0, k, n.results[k]);
      } else {
        assert k == s[r].round && n'.results[k] == v;
      }
    }
  }

  /** The result of a reduction goes down. */
  lemma FinishTruthful(cfg: Config, s: Net, r: nat, v: seq<int>, t: Net)
    requires NetSized(cfg, s) && Orderly(s) && Truthful(cfg, s) && r < |s| && Contributed(cfg, s, 0, s[r].round, v)
    requires t == Finished(s, r, v) && NetSized(cfg, t)
    ensures Truthful(cfg, t)
  {
    AllStayContributed(cfg, s, t);
    assert Shaped(s[r]);
    forall i | 0 <= i < |t|
      ensures UpValues(cfg, t, i) && DownValues(cfg, t, i)
    {
      FinishUp(cfg, s, r, v, t, i);
      FinishDown(cfg, s, r, v, t, i);
    }
  }

  // ------------------------------------------------------------------------ theorems

  ghost predicate Steady(cfg: Config, s: Net) {
    NetSized(cfg, s) && Orderly(s) && Truthful(cfg, s)
  }

  lemma StartSteady(cfg: Config, n: nat)
    requires n >= 1
    ensures Steady(cfg, Start(cfg, n))
  {
  }

  lemma MoveSteady(cfg: Config, s: Net, move: Move)
    requires Steady(cfg, s) && Allowed(cfg, s, move)
    ensures Steady(cfg, Following(cfg, s, move))
  {
    var t := Following(cfg, s, move);
    match move
    case Enter(r, input) =>
      EnterOrderly(cfg, s, r, input);
      EnterTruthful(cfg, s, r, input, t);
    case TakeUp(c) =>
      TakeUpOrderly(cfg, s, c);
      TakeUpTruthful(cfg, s, c, t);
    case Combine(r) =>
      if r == 0 {
        RootOrderly(cfg, s);
        CombinedRight(cfg, s, r);
        FinishTruthful(cfg, s, r, Combined(cfg, s, r), t);
      } else {
        InteriorOrderly(cfg, s, r);
        SendUpTruthful(cfg, s, r, t);
      }
    case TakeDown(c) =>
      TakeDownOrderly(cfg, s, c);
      assert DownValues(cfg, s, c);
      FinishTruthful(cfg, s, c, s[c].down[0].value, t);
  }

  ghost predicate Leads(cfg: Config, s: Net, moves: seq<Move>, t: Net)
    requires NetSized(cfg, s)
    decreases |moves|
  {
    if moves == [] then s == t else Allowed(cfg, s, moves[0]) && Leads(cfg, Following(cfg, s, moves[0]), moves[1..], t)
  }

  lemma {:induction false} RunSteady(cfg: Config, s: Net, moves: seq<Move>, t: Net)
    requires Steady(cfg, s) && Leads(cfg, s, moves, t)
    ensures Steady(cfg, t)
    decreases |moves|
  {
    if moves != [] {
      MoveSteady(cfg, s, moves[0]);
      RunSteady(cfg, Following(cfg, s, moves[0]), moves[1..], t);
    }
  }

  /** In every run of any number of reductions, the result number `k` of every member is
      the reduction of the inputs number `k` of all members. */
  lemma EachCorrect(cfg: Config, n: nat, moves: seq<Move>, t: Net, r: nat, k: nat)
    requires n >= 1 && Leads(cfg, Start(cfg, n), moves, t)
    requires r < |t| && k < |t[r].results|
    ensures NetSized(cfg, t) && (forall m :: 0 <= m < |t| ==> k < |t[m].ins|)
    ensures var g := Round(cfg, t, k); Reduced(g, Everyone(g), t[r].results[k])
  {
    StartSteady(cfg, n);
    RunSteady(cfg, Start(cfg, n), moves, t);
    assert DownValues(cfg, t, r);
    var g := Round(cfg, t, k);
    BelowRoot(g);
    assert Contributed(cfg, t, 0, k, t[r].results[k]);
    assert forall m :: 0 <= m < |t| ==> IsMember(g, m);
  }

  /** In every run, there is at most one message on the way between a member and its
      parent, and whoever receives it is in the reduction it was sent in. */
  lemma NeverMixed(cfg: Config, n: nat, moves: seq<Move>, t: Net, c: nat)
    requires n >= 1 && Leads(cfg, Start(cfg, n), moves, t) && 0 < c < |t|
    ensures |t[c].up| + |t[c].down| <= 1
    ensures Allowed(cfg, t, TakeUp(c)) ==> t[c].up[0].round == t[Parent(c)].round
    ensures Allowed(cfg, t, TakeDown(c)) ==> t[c].down[0].round == t[c].round
  {
    StartSteady(cfg, n);
    RunSteady(cfg, Start(cfg, n), moves, t);
    assert EdgeOk(t, c);
  }

  // ------------------------------------------------------------------------- progress

  /** A move that no member's own caller makes. */
  ghost predicate CanGoOn(cfg: Config, s: Net) {
    exists move: Move :: !move.Enter? && Allowed(cfg, s, move)
  }

  /** A member in reduction `k` that waits for its children, the last one of these. */
  ghost predicate LastGathering(s: Net, k: nat, r: nat) {
    && r < |s| && s[r].round == k && s[r].stage == Gathering
    && forall c :: r < c < |s| ==> !(s[c].round == k && s[c].stage == Gathering)
  }

  lemma {:induction false} FindLast(s: Net, k: nat, n: nat) returns (r: nat)
    requires n <= |s| && exists c :: 0 <= c < n && s[c].round == k && s[c].stage == Gathering
    requires forall c :: n <= c < |s| ==> !(s[c].round == k && s[c].stage == Gathering)
    ensures LastGathering(s, k, r)
  {
    if s[n - 1].round == k && s[n - 1].stage == Gathering {
      r := n - 1;
    } else {
      r := FindLast(s, k, n - 1);
    }
  }

  /** Everybody has given the input number `k`. */
  predicate AllIn(s: Net, k: nat) {
    forall r :: 0 <= r < |s| ==> k < |s[r].ins|
  }

  lemma BeyondOrAt(s: Net, k: nat, r: nat)
    requires Orderly(s) && AllIn(s, k) && r < |s|
    ensures s[r].round > k || (s[r].round == k && s[r].stage != Idle)
  {
    assert Shaped(s[r]);
  }

  /** A child of the last member that gathers is here, or its value can be received. */
  lemma ChildReady(cfg: Config, s: Net, k: nat, r: nat, c: nat)
    requires NetSized(cfg, s) && Orderly(s) && AllIn(s, k) && LastGathering(s, k, r) && r < c < |s| && Parent(c) == r
    ensures s[c].here || Allowed(cfg, s, TakeUp(c))
  {
    BeyondOrAt(s, k, c);
    assert EdgeOk(s, c);
  }

  lemma GathererGoesOn(cfg: Config, s: Net, k: nat, r: nat)
    requires NetSized(cfg, s) && Orderly(s) && AllIn(s, k) && LastGathering(s, k, r)
    ensures CanGoOn(cfg, s)
  {
    var c, c' := 2 * r + 1, 2 * r + 2;
    if c < |s| {
      ChildReady(cfg, s, k, r, c);
    }
    if c' < |s| {
      ChildReady(cfg, s, k, r, c');
    }
    if ValuesHere(s, r) {
      assert Allowed(cfg, s, Combine(r));
    } else if c < |s| && !s[c].here {
      assert Allowed(cfg, s, TakeUp(c));
    } else {
      assert Allowed(cfg, s, TakeUp(c'));
    }
  }

  /** A member in reduction `k` that waits for the result, when nobody gathers: the message
      has come, or its parent waits too. */
  lemma {:induction false} WaiterGoesOn(cfg: Config, s: Net, k: nat, r: nat)
    requires NetSized(cfg, s) && Orderly(s) && AllIn(s, k) && r < |s| && s[r].round == k
    requires forall c :: 0 <= c < |s| ==> !(s[c].round == k && s[c].stage == Gathering)
    ensures CanGoOn(cfg, s)
    decreases r
  {
    BeyondOrAt(s, k, r);
    assert r > 0 && EdgeOk(s, r);
    BeyondOrAt(s, k, Parent(r));
    if s[Parent(r)].round == k {
      WaiterGoesOn(cfg, s, k, Parent(r));
    } else {
      assert Allowed(cfg, s, TakeDown(r));
    }
  }

  lemma StateGoesOn(cfg: Config, s: Net, k: nat, r: nat)
    requires NetSized(cfg, s) && Orderly(s) && AllIn(s, k) && r < |s| && |s[r].results| <= k
    ensures CanGoOn(cfg, s)
  {
    BeyondOrAt(s, k, r);
    assert Shaped(s[r]);
    if exists c :: 0 <= c < |s| && s[c].round == k && s[c].stage == Gathering {
      var last := FindLast(s, k, |s|);
      GathererGoesOn(cfg, s, k, last);
    } else {
      WaiterGoesOn(cfg, s, k, r);
    }
  }

  /** Once all members have started reduction `k`, no run gets stuck before all of them
      have its result. */
  lemma NeverStuck(cfg: Config, n: nat, moves: seq<Move>, t: Net, k: nat)
    requires n >= 1 && Leads(cfg, Start(cfg, n), moves, t) && AllIn(t, k) && !CanGoOn(cfg, t)
    ensures forall r :: 0 <= r < |t| ==> k < |t[r].results|
  {
    StartSteady(cfg, n);
    RunSteady(cfg, Start(cfg, n), moves, t);
    forall r | 0 <= r < |t|
      ensures k < |t[r].results|
    {
      if |t[r].results| <= k {
        StateGoesOn(cfg, t, k, r);
      }
    }
  }

  // ------------------------------------------------------------------------ termination

  /** How far a member has come: four moves a reduction. */
  function Steps(n: Node): nat {
    4 * n.round + match n.stage case Idle => 0 case Gathering => 1 case Waiting => if n.up == [] then 3 else 2
  }

  function AllSteps(s: Net): nat {
    if s == [] then 0 else AllSteps(s[..|s| - 1]) + Steps(s[|s| - 1])
  }

  /** The inputs given so far. */
  function AllInputs(s: Net): nat {
    if s == [] then 0 else AllInputs(s[..|s| - 1]) + |s[|s| - 1].ins|
  }

  lemma {:induction false} StepsGrow(s: Net, t: Net, r: nat)
    requires |s| == |t| && r < |s| && (forall i :: 0 <= i < |s| ==> Steps(s[i]) <= Steps(t[i])) && Steps(s[r]) < Steps(t[r])
    ensures AllSteps(s) < AllSteps(t)
  {
    var n := |s| - 1;
    if r < n {
      StepsGrow(s[..n], t[..n], r);
    } else {
      StepsKeep(s[..n], t[..n]);
    }
  }

  lemma {:induction false} StepsKeep(s: Net, t: Net)
    requires |s| == |t| && forall i :: 0 <= i < |s| ==> Steps(s[i]) <= Steps(t[i])
    ensures AllSteps(s) <= AllSteps(t)
  {
    if s != [] {
      StepsKeep(s[..|s| - 1], t[..|t| - 1]);
    }
  }

  lemma {:induction false} StepsBelowInputs(s: Net)
    requires forall r :: 0 <= r < |s| ==> Shaped(s[r])
    ensures AllSteps(s) <= 4 * AllInputs(s)
  {
    if s != [] {
      StepsBelowInputs(s[..|s| - 1]);
      assert Shaped(s[|s| - 1]);
    }
  }

  lemma EnterSteps(s: Net, r: nat, input: seq<int>)
    requires r < |s| && s[r].stage == Idle
    ensures AllSteps(s) < AllSteps(Entered(s, r, input))
  {
    StepsGrow(s, Entered(s, r, input), r);
  }

  lemma FinishedKeeps(s: Net, r: nat, v: seq<int>, i: nat)
    requires r < |s| && i < |s|
    ensures Steps(s[i]) <= Steps(Finished(s, r, v)[i])
  {
    assert i != r ==> Finished(s, r, v)[i] == s[i].(down := Finished(s, r, v)[i].down);
  }

  lemma FinishSteps(s: Net, r: nat, v: seq<int>)
    requires r < |s|
    ensures AllSteps(s) < AllSteps(Finished(s, r, v))
  {
    var t := Finished(s, r, v);
    forall i | 0 <= i < |s|
      ensures Steps(s[i]) <= Steps(t[i])
    {
      FinishedKeeps(s, r, v, i);
    }
    assert t[r].round == s[r].round + 1;
    StepsGrow(s, t, r);
  }

  lemma OneSteps(s: Net, r: nat, n: Node)
    requires r < |s| && Steps(s[r]) < Steps(n)
    ensures AllSteps(s) < AllSteps(s[r := n])
  {
    StepsGrow(s, s[r := n], r);
  }

  lemma MoveSteps(cfg: Config, s: Net, move: Move)
    requires NetSized(cfg, s) && Orderly(s) && Allowed(cfg, s, move)
    ensures AllSteps(s) < AllSteps(Following(cfg, s, move))
  {
    match move
    case Enter(r, input) =>
      EnterSteps(s, r, input);
    case TakeUp(c) =>
      assert EdgeOk(s, c);
      OneSteps(s, c, Following(cfg, s, move)[c]);
    case Combine(r) =>
      if r == 0 {
        FinishSteps(s, r, Combined(cfg, s, r));
      } else {
        OneSteps(s, r, Following(cfg, s, move)[r]);
      }
    case TakeDown(c) =>
      FinishSteps(s, c, s[c].down[0].value);
  }

  lemma {:induction false} RunSteps(cfg: Config, s: Net, moves: seq<Move>, t: Net)
    requires Steady(cfg, s) && Leads(cfg, s, moves, t)
    ensures AllSteps(s) + |moves| <= AllSteps(t)
    decreases |moves|
  {
    if moves != [] {
      MoveSteady(cfg, s, moves[0]);
      MoveSteps(cfg, s, moves[0]);
      RunSteps(cfg, Following(cfg, s, moves[0]), moves[1..], t);
    }
  }

  /** No run takes more than four moves for each input given. */
  lemma RunsEnd(cfg: Config, n: nat, moves: seq<Move>, t: Net)
    requires n >= 1 && Leads(cfg, Start(cfg, n), moves, t)
    ensures |moves| <= 4 * AllInputs(t)
  {
    StartSteady(cfg, n);
    RunSteady(cfg, Start(cfg, n), moves, t);
    RunSteps(cfg, Start(cfg, n), moves, t);
    StepsBelowInputs(t);
  }
}
