/** ompi/communicator/comm_request.c: requests made of a schedule of items, each a set
    of subrequests to wait for and a callback to call then. */
module CommRequest {

  const MAX_SUBREQ := 2

  /** A callback, or none, once all of `subreqs` are complete. */
  datatype Item = Item(callback: bool, subreqs: seq<nat>)

  datatype Ret = Success | BadParam

  /** What a callback does: append to schedules and start requests. A call of the
      progress function from inside it returns at once. */
  datatype Action = Append(request: nat, item: Item) | Start(request: nat)

  /** The actions of one call of a callback, and whether it succeeds. */
  datatype Reaction = Reaction(actions: seq<Action>, ok: bool)

  /** What the library calls, in any order. */
  datatype Call =
    | GetRequest(request: nat)
    | AppendItem(request: nat, item: Item)
    | StartRequest(request: nat)
    | Pass(complete: set<nat>, news: seq<set<nat>>, script: seq<Reaction>)

  // ------------------------------------------------------------- what has been done so far

  function Reversed(s: seq<nat>): (r: seq<nat>)
    ensures |r| == |s|
  {
    if s == [] then [] else Reversed(s[1..]) + [s[0]]
  }

  /** The subrequests of the first `n` items, in the order they are freed. */
  function FreedBy(items: seq<Item>, n: nat): seq<nat>
    requires n <= |items|
  {
    if n == 0 then [] else FreedBy(items, n - 1) + Reversed(items[n - 1].subreqs)
  }

  /** Those of the first `n` items that have a callback, in order. */
  function CalledBy(items: seq<Item>, n: nat): seq<nat>
    requires n <= |items|
  {
    if n == 0 then [] else CalledBy(items, n - 1) + if items[n - 1].callback then [n - 1] else []
  }

  /** A request's life: all items ever appended, how many are finished, the
      subrequests freed and the items whose callback was called. */
  datatype Life = Life(items: seq<Item>, finished: nat, freed: seq<nat>, called: seq<nat>)

  const UNBORN := Life([], 0, [], [])

  /** The schedule holds what is not finished, in the order appended; of its first item
      some of the last subrequests may be gone already. What was freed and called is
      exactly what belongs to the finished items and that part of the first. */
  ghost predicate Tracks(schedule: seq<Item>, life: Life) {
    && life.finished <= |life.items| && |schedule| == |life.items| - life.finished
    && life.called == CalledBy(life.items, life.finished)
    && if schedule == [] then life.freed == FreedBy(life.items, life.finished)
       else
         var first := life.items[life.finished];
         && schedule[1..] == life.items[life.finished + 1..]
         && schedule[0].callback == first.callback && schedule[0].subreqs <= first.subreqs
         && life.freed == FreedBy(life.items, life.finished) + Reversed(first.subreqs[|schedule[0].subreqs|..])
  }

  /** Callbacks are called in the order of their items, none twice. */
  lemma {:induction false} CalledInOrder(items: seq<Item>, n: nat)
    requires n <= |items|
    ensures var called := CalledBy(items, n);
            && (forall i :: 0 <= i < |called| ==> called[i] < n && items[called[i]].callback)
            && (forall i, j :: 0 <= i < j < |called| ==> called[i] < called[j])
            && forall k :: 0 <= k < n && items[k].callback ==> k in called
  {
    if n > 0 {
      CalledInOrder(items, n - 1);
    }
  }

  lemma {:induction false} ReversedSame(s: seq<nat>)
    ensures multiset(Reversed(s)) == multiset(s)
  {
    if s != [] {
      ReversedSame(s[1..]);
      assert s == [s[0]] + s[1..];
    }
  }

  lemma FreedOnce(items: seq<Item>, n: nat, sub: nat)
    requires n < |items|
    ensures multiset(FreedBy(items, n + 1))[sub] == multiset(FreedBy(items, n))[sub] + multiset(items[n].subreqs)[sub]
  {
    ReversedSame(items[n].subreqs);
    var a, b := FreedBy(items, n), Reversed(items[n].subreqs);
    assert FreedBy(items, n + 1) == a + b && multiset(a + b) == multiset(a) + multiset(b);
  }

  /** How often the items have a subrequest. */
  function Uses(items: seq<Item>, n: nat, sub: nat): nat
    requires n <= |items|
  {
    if n == 0 then 0 else Uses(items, n - 1, sub) + multiset(items[n - 1].subreqs)[sub]
  }

  lemma {:induction false} FreedAsOften(items: seq<Item>, n: nat, sub: nat)
    requires n <= |items|
    ensures multiset(FreedBy(items, n))[sub] == Uses(items, n, sub)
  {
    if n > 0 {
      FreedAsOften(items, n - 1, sub);
      FreedOnce(items, n - 1, sub);
    }
  }

  lemma {:induction false} UsesOf(items: seq<Item>, n: nat, k: nat, sub: nat)
    requires k < n <= |items|
    ensures multiset(items[k].subreqs)[sub] <= Uses(items, n, sub)
    decreases n
  {
    if k < n - 1 {
      UsesOf(items, n - 1, k, sub);
    }
  }

  /** A callback has been called only if every subrequest of its item was freed. */
  lemma CalledAfterFreed(schedule: seq<Item>, life: Life, k: nat, sub: nat)
    requires Tracks(schedule, life) && k in life.called
    ensures k < life.finished && life.items[k].callback
    ensures sub in life.items[k].subreqs ==> sub in life.freed
  {
    CalledInOrder(life.items, life.finished);
    var i :| 0 <= i < |life.called| && life.called[i] == k;
    UsesOf(life.items, life.finished, k, sub);
    FreedAsOften(life.items, life.finished, sub);
    if sub in life.items[k].subreqs {
      assert sub in multiset(life.items[k].subreqs);
      assert sub in multiset(FreedBy(life.items, life.finished));
      assert sub in FreedBy(life.items, life.finished);
    }
  }

  /** A callback has been called only if every subrequest of its item was complete. */
  lemma CalledAfterDone(schedule: seq<Item>, life: Life, done: set<nat>, k: nat, sub: nat)
    requires Tracks(schedule, life) && FreedAre(life, done) && k in life.called
    ensures k < life.finished && life.items[k].callback
    ensures sub in life.items[k].subreqs ==> sub in done
  {
    CalledAfterFreed(schedule, life, k, sub);
    if sub in life.items[k].subreqs {
      var i :| 0 <= i < |life.freed| && life.freed[i] == sub;
    }
  }

  /** When the schedule is empty, each subrequest was freed exactly as often as it was
      appended, and each callback called exactly once. */
  lemma EmptyScheduleDone(life: Life, k: nat, sub: nat)
    requires Tracks([], life)
    ensures multiset(life.freed)[sub] == Uses(life.items, |life.items|, sub)
    ensures k < |life.items| && life.items[k].callback ==> multiset(life.called)[k] == 1
  {
    FreedAsOften(life.items, |life.items|, sub);
    CalledInOrder(life.items, |life.items|);
    if k < |life.items| && life.items[k].callback {
      OnceIn(life.called, k);
    }
  }

  lemma {:induction false} OnceIn(s: seq<nat>, x: nat)
    requires forall i, j :: 0 <= i < j < |s| ==> s[i] < s[j]
    ensures multiset(s)[x] == if x in s then 1 else 0
  {
    if s != [] {
      OnceIn(s[1..], x);
      assert s == [s[0]] + s[1..];
    }
  }

  lemma {:induction false} PrefixDone(items: seq<Item>, item: Item, n: nat)
    requires n <= |items|
    ensures FreedBy(items + [item], n) == FreedBy(items, n) && CalledBy(items + [item], n) == CalledBy(items, n)
  {
    if n > 0 {
      PrefixDone(items, item, n - 1);
    }
  }

  lemma TracksAppend(schedule: seq<Item>, life: Life, item: Item)
    requires Tracks(schedule, life)
    ensures Tracks(schedule + [item], life.(items := life.items + [item]))
  {
    PrefixDone(life.items, item, life.finished);
    var more := life.items + [item];
    if schedule == [] {
      assert more[life.finished] == item && more[life.finished + 1..] == [];
      assert item.subreqs[|item.subreqs|..] == [];
      assert (schedule + [item])[1..] == [];
    } else {
      assert (schedule + [item])[1..] == schedule[1..] + [item];
      assert more[life.finished + 1..] == life.items[life.finished + 1..] + [item];
    }
  }

  lemma ReversedAppend(s: seq<nat>, x: nat)
    ensures Reversed([x] + s) == Reversed(s) + [x]
  {
    assert ([x] + s)[1..] == s;
  }

  /** The schedule without the last subrequest of its first item. */
  function AfterFree(schedule: seq<Item>): (r: seq<Item>)
    requires schedule != [] && schedule[0].subreqs != []
    ensures r != [] && |r[0].subreqs| == |schedule[0].subreqs| - 1
  {
    var subs := schedule[0].subreqs;
    [Item(schedule[0].callback, subs[..|subs| - 1])] + schedule[1..]
  }

  function Last(schedule: seq<Item>): nat
    requires schedule != [] && schedule[0].subreqs != []
  {
    schedule[0].subreqs[|schedule[0].subreqs| - 1]
  }

  /** What is left of the subrequests once the last ones that are complete are freed. */
  function Left(subreqs: seq<nat>, complete: set<nat>): seq<nat> {
    if subreqs == [] || subreqs[|subreqs| - 1] !in complete then subreqs else Left(subreqs[..|subreqs| - 1], complete)
  }

  /** The first item can be finished. */
  predicate Due(schedule: seq<Item>, complete: set<nat>) {
    schedule != [] && Left(schedule[0].subreqs, complete) == []
  }

  /** It can exactly when all its subrequests are complete. */
  lemma {:induction false} LeftNothing(subreqs: seq<nat>, complete: set<nat>)
    ensures Left(subreqs, complete) == [] <==> forall i :: 0 <= i < |subreqs| ==> subreqs[i] in complete
  {
    if subreqs != [] {
      LeftNothing(subreqs[..|subreqs| - 1], complete);
    }
  }

  function LifeFree(life: Life, sub: nat): Life {
    life.(freed := life.freed + [sub])
  }

  /** The last subrequest of the first item is freed. */
  lemma TracksFree(schedule: seq<Item>, life: Life)
    requires Tracks(schedule, life) && schedule != [] && schedule[0].subreqs != []
    ensures Tracks(AfterFree(schedule), LifeFree(life, Last(schedule)))
  {
    var subs := schedule[0].subreqs;
    var k := |subs| - 1;
    var first := life.items[life.finished].subreqs;
    assert first[k..] == [first[k]] + first[k + 1..];
    ReversedAppend(first[k + 1..], first[k]);
    assert AfterFree(schedule)[1..] == schedule[1..];
  }

  function LifeFinish(life: Life, callback: bool): Life {
    life.(finished := life.finished + 1, called := life.called + if callback then [life.finished] else [])
  }

  /** An item without subrequests left is finished, and its callback called. */
  lemma TracksFinish(schedule: seq<Item>, life: Life)
    requires Tracks(schedule, life) && schedule != [] && schedule[0].subreqs == []
    ensures Tracks(schedule[1..], LifeFinish(life, schedule[0].callback))
  {
    var n := life.finished;
    assert life.items[n].subreqs[0..] == life.items[n].subreqs;
    if |schedule| > 1 {
      var first := life.items[n + 1].subreqs;
      assert schedule[1] == schedule[1..][0] == life.items[n + 1..][0];
      assert first[|first|..] == [];
      assert schedule[1..][1..] == life.items[n + 1..][1..] == life.items[n + 2..];
    }
  }

  ghost predicate GrowsLife(a: Life, b: Life) {
    a.items <= b.items && a.finished <= b.finished && a.freed <= b.freed && a.called <= b.called
  }

  lemma FreeGrows(life: Life, sub: nat, done: set<nat>)
    requires FreedAre(life, done) && sub in done
    ensures GrowsLife(life, LifeFree(life, sub)) && FreedAre(LifeFree(life, sub), done)
  {
  }

  lemma FinishGrows(life: Life, callback: bool, done: set<nat>)
    requires FreedAre(life, done)
    ensures GrowsLife(life, LifeFinish(life, callback)) && FreedAre(LifeFinish(life, callback), done)
  {
  }

  /** All schedules fit the lives of their requests, and only completed subrequests were freed. */
  ghost predicate AllTrack(schedules: map<nat, seq<Item>>, lives: map<nat, Life>, done: set<nat>) {
    && schedules.Keys == lives.Keys
    && forall r {:trigger RequestTracks(schedules, lives, done, r)} :: r in schedules ==> RequestTracks(schedules, lives, done, r)
  }

  ghost predicate RequestTracks(schedules: map<nat, seq<Item>>, lives: map<nat, Life>, done: set<nat>, r: nat) {
    r in schedules && r in lives && Tracks(schedules[r], lives[r]) && FreedAre(lives[r], done)
  }

  ghost predicate FreedAre(life: Life, done: set<nat>) {
    forall i :: 0 <= i < |life.freed| ==> life.freed[i] in done
  }

  lemma TrackOne(schedules: map<nat, seq<Item>>, lives: map<nat, Life>, done: set<nat>, r: nat, schedule: seq<Item>, life: Life)
    requires AllTrack(schedules, lives, done) && Tracks(schedule, life) && FreedAre(life, done)
    ensures AllTrack(schedules[r := schedule], lives[r := life], done)
  {
    var schedules', lives' := schedules[r := schedule], lives[r := life];
    forall k | k in schedules'
      ensures RequestTracks(schedules', lives', done, k)
    {
      assert k != r ==> RequestTracks(schedules, lives, done, k);
    }
  }

  ghost predicate Differ(s: seq<nat>, i: int, j: int) {
    0 <= i < |s| && 0 <= j < |s| && s[i] != s[j]
  }

  ghost predicate Distinct(s: seq<nat>) {
    forall i, j {:trigger Differ(s, i, j)} :: 0 <= i < j < |s| ==> Differ(s, i, j)
  }

  ghost predicate ActiveFits(active: seq<nat>, completed: seq<nat>, schedules: map<nat, seq<Item>>, i: int) {
    0 <= i < |active| && active[i] in schedules && active[i] !in completed
  }

  ghost predicate CompletedFits(completed: seq<nat>, schedules: map<nat, seq<Item>>, i: int) {
    0 <= i < |completed| && completed[i] in schedules && schedules[completed[i]] == []
  }

  /** Active and completed requests are known, none is both, and none is there twice. */
  ghost predicate Listed(active: seq<nat>, completed: seq<nat>, schedules: map<nat, seq<Item>>) {
    && Distinct(active) && Distinct(completed)
    && (forall i {:trigger ActiveFits(active, completed, schedules, i)} :: 0 <= i < |active| ==> ActiveFits(active, completed, schedules, i))
    && (forall i {:trigger CompletedFits(completed, schedules, i)} :: 0 <= i < |completed| ==> CompletedFits(completed, schedules, i))
  }

  lemma CompletedIsEmpty(active: seq<nat>, completed: seq<nat>, schedules: map<nat, seq<Item>>, r: nat)
    requires Listed(active, completed, schedules) && r in completed
    ensures r in schedules && schedules[r] == [] && r !in active
  {
    var k :| 0 <= k < |completed| && completed[k] == r;
    assert CompletedFits(completed, schedules, k);
    forall i | 0 <= i < |active|
      ensures active[i] != r
    {
      assert ActiveFits(active, completed, schedules, i);
    }
  }

  /** A part of a list without repetitions. */
  lemma DistinctPart(s: seq<nat>, t: seq<nat>, from: nat)
    requires Distinct(s) && from + |t| <= |s| && t == s[from..from + |t|]
    ensures Distinct(t)
  {
    forall i, j | 0 <= i < j < |t|
      ensures Differ(t, i, j)
    {
      DistinctAt(s, from + i, from + j);
    }
  }

  lemma DistinctAt(s: seq<nat>, i: nat, j: nat)
    requires Distinct(s) && i < |s| && j < |s| && i != j
    ensures s[i] != s[j]
  {
    assert Differ(s, if i < j then i else j, if i < j then j else i);
  }

  function RemoveAt(s: seq<nat>, i: nat): seq<nat>
    requires i < |s|
  {
    s[..i] + s[i + 1..]
  }

  lemma RemoveFirst(s: seq<nat>, t: seq<nat>, i: nat)
    requires i < |s|
    ensures RemoveAt(s + t, i) == RemoveAt(s, i) + t
  {
  }

  lemma DistinctRemove(s: seq<nat>, i: nat)
    requires Distinct(s) && i < |s|
    ensures Distinct(RemoveAt(s, i)) && s[i] !in RemoveAt(s, i)
  {
    var t := RemoveAt(s, i);
    forall j, k | 0 <= j < k < |t|
      ensures Differ(t, j, k)
    {
      DistinctAt(s, if j < i then j else j + 1, if k < i then k else k + 1);
    }
    forall j | 0 <= j < |t|
      ensures t[j] != s[i]
    {
      DistinctAt(s, if j < i then j else j + 1, i);
    }
  }

  lemma DistinctAppend(s: seq<nat>, r: nat)
    requires Distinct(s) && r !in s
    ensures Distinct(s + [r])
  {
    forall j, k | 0 <= j < k < |s + [r]|
      ensures Differ(s + [r], j, k)
    {
      if k < |s| {
        assert Differ(s, j, k);
      }
    }
  }

  lemma ListedComplete(active: seq<nat>, completed: seq<nat>, schedules: map<nat, seq<Item>>, i: nat)
    requires Listed(active, completed, schedules) && i < |active| && active[i] in schedules && schedules[active[i]] == []
    ensures Listed(RemoveAt(active, i), completed + [active[i]], schedules)
  {
    var rest, more := RemoveAt(active, i), completed + [active[i]];
    assert ActiveFits(active, completed, schedules, i);
    DistinctRemove(active, i);
    DistinctAppend(completed, active[i]);
    forall j | 0 <= j < |rest|
      ensures ActiveFits(rest, more, schedules, j)
    {
      assert rest[j] == active[if j < i then j else j + 1];
      assert ActiveFits(active, completed, schedules, if j < i then j else j + 1);
    }
    forall j | 0 <= j < |more|
      ensures CompletedFits(more, schedules, j)
    {
      assert j < |completed| ==> CompletedFits(completed, schedules, j);
    }
  }

  lemma ListedStart(active: seq<nat>, completed: seq<nat>, schedules: map<nat, seq<Item>>, r: nat)
    requires Listed(active, completed, schedules) && r in schedules && r !in active && r !in completed
    ensures Listed(active + [r], completed, schedules)
  {
    DistinctAppend(active, r);
    forall j | 0 <= j < |active + [r]|
      ensures ActiveFits(active + [r], completed, schedules, j)
    {
      assert j < |active| ==> ActiveFits(active, completed, schedules, j);
    }
  }

  lemma ListedUpdate(active: seq<nat>, completed: seq<nat>, schedules: map<nat, seq<Item>>, r: nat, schedule: seq<Item>)
    requires Listed(active, completed, schedules) && r !in completed
    ensures Listed(active, completed, schedules[r := schedule])
  {
    var schedules' := schedules[r := schedule];
    forall j | 0 <= j < |active|
      ensures ActiveFits(active, completed, schedules', j)
    {
      assert ActiveFits(active, completed, schedules, j);
    }
    forall j | 0 <= j < |completed|
      ensures CompletedFits(completed, schedules', j)
    {
      assert CompletedFits(completed, schedules, j);
    }
  }

  // ------------------------------------------------------------- what callbacks do

  /** Whether a callback succeeds: as its reaction says, and when it has none. */
  predicate Succeeds(script: seq<Reaction>) {
    script == [] || script[0].ok
  }

  /** A callback is due: the first item can be finished and has one. */
  predicate CallDue(schedule: seq<Item>, complete: set<nat>) {
    Due(schedule, complete) && schedule[0].callback
  }

  function SchedulesAfter(schedules: map<nat, seq<Item>>, completed: seq<nat>, action: Action): map<nat, seq<Item>> {
    match action
    case Append(r, item) =>
      if r in schedules && r !in completed && |item.subreqs| <= MAX_SUBREQ then schedules[r := schedules[r] + [item]] else schedules
    case Start(_) => schedules
  }

  function ActiveAfter(schedules: map<nat, seq<Item>>, active: seq<nat>, completed: seq<nat>, action: Action): seq<nat> {
    match action
    case Append(_, _) => active
    case Start(r) => if r in schedules && r !in active && r !in completed then active + [r] else active
  }

  /** The items appended to `r`, in order; an item with too many subrequests is refused. */
  function ItemsFor(actions: seq<Action>, r: nat): seq<Item> {
    if actions == [] then []
    else
      var last := actions[|actions| - 1];
      ItemsFor(actions[..|actions| - 1], r)
      + if last.Append? && last.request == r && |last.item.subreqs| <= MAX_SUBREQ then [last.item] else []
  }

  ghost predicate ScheduledAt(actions: seq<Action>, before: map<nat, seq<Item>>, after: map<nat, seq<Item>>, completed: seq<nat>, r: nat) {
    r in before && r in after && after[r] == before[r] + if r in completed then [] else ItemsFor(actions, r)
  }

  ghost predicate StartedAt(actions: seq<Action>, schedules: map<nat, seq<Item>>, before: seq<nat>, after: seq<nat>, completed: seq<nat>, r: nat) {
    r in after <==> r in before || (r in schedules && r !in completed && Start(r) in actions)
  }

  /** Every request that is not completed got the items appended to it, and of the known
      ones exactly those told to start are active besides those that were. */
  ghost predicate Performed(actions: seq<Action>, schedules: map<nat, seq<Item>>, active: seq<nat>,
                            schedules': map<nat, seq<Item>>, active': seq<nat>, completed: seq<nat>) {
    && schedules'.Keys == schedules.Keys
    && (forall r {:trigger ScheduledAt(actions, schedules, schedules', completed, r)} ::
          r in schedules ==> ScheduledAt(actions, schedules, schedules', completed, r))
    && (forall r {:trigger StartedAt(actions, schedules, active, active', completed, r)} ::
          StartedAt(actions, schedules, active, active', completed, r))
  }

  lemma PerformedMore(actions: seq<Action>, action: Action, schedules: map<nat, seq<Item>>, active: seq<nat>,
                      schedules': map<nat, seq<Item>>, active': seq<nat>, completed: seq<nat>)
    requires Performed(actions, schedules, active, schedules', active', completed)
    ensures Performed(actions + [action], schedules, active, SchedulesAfter(schedules', completed, action),
                      ActiveAfter(schedules', active', completed, action), completed)
  {
    var more := actions + [action];
    assert more[..|actions|] == actions;
    forall r | r in schedules
      ensures ScheduledAt(more, schedules, SchedulesAfter(schedules', completed, action), completed, r)
    {
      assert ScheduledAt(actions, schedules, schedules', completed, r);
    }
    forall r
      ensures StartedAt(more, schedules, active, ActiveAfter(schedules', active', completed, action), completed, r)
    {
      assert StartedAt(actions, schedules, active, active', completed, r);
    }
  }

  function LivesAfter(lives: map<nat, Life>, completed: seq<nat>, action: Action): map<nat, Life> {
    match action
    case Append(r, item) =>
      if r in lives && r !in completed && |item.subreqs| <= MAX_SUBREQ then lives[r := lives[r].(items := lives[r].items + [item])] else lives
    case Start(_) => lives
  }

  ghost predicate ItemsAt(actions: seq<Action>, before: map<nat, Life>, after: map<nat, Life>, completed: seq<nat>, r: nat) {
    r in before && r in after && after[r].items == before[r].items + if r in completed then [] else ItemsFor(actions, r)
  }

  /** Every request that is not completed has the items appended to it. */
  ghost predicate ItemsGrow(actions: seq<Action>, before: map<nat, Life>, after: map<nat, Life>, completed: seq<nat>) {
    && after.Keys == before.Keys
    && forall r {:trigger ItemsAt(actions, before, after, completed, r)} :: r in before ==> ItemsAt(actions, before, after, completed, r)
  }

  lemma ItemsGrowMore(actions: seq<Action>, action: Action, before: map<nat, Life>, after: map<nat, Life>, completed: seq<nat>)
    requires ItemsGrow(actions, before, after, completed)
    ensures ItemsGrow(actions + [action], before, LivesAfter(after, completed, action), completed)
  {
    assert (actions + [action])[..|actions|] == actions;
    forall r | r in before
      ensures ItemsAt(actions + [action], before, LivesAfter(after, completed, action), completed, r)
    {
      assert ItemsAt(actions, before, after, completed, r);
    }
  }

  lemma ItemsStay(before: map<nat, Life>, after: map<nat, Life>, completed: seq<nat>, r: nat)
    requires r in before && r in after && after == before[r := after[r]] && after[r].items == before[r].items
    ensures ItemsGrow([], before, after, completed)
  {
    forall k | k in before
      ensures ItemsAt([], before, after, completed, k)
    {
    }
  }

  lemma ItemsGrowOn(actions: seq<Action>, before: map<nat, Life>, mid: map<nat, Life>, after: map<nat, Life>, completed: seq<nat>)
    requires ItemsGrow([], before, mid, completed) && ItemsGrow(actions, mid, after, completed)
    ensures ItemsGrow(actions, before, after, completed)
  {
    forall r | r in before
      ensures ItemsAt(actions, before, after, completed, r)
    {
      assert ItemsAt([], before, mid, completed, r) && ItemsAt(actions, mid, after, completed, r);
    }
  }

  lemma NothingPerformed(schedules: map<nat, seq<Item>>, active: seq<nat>, completed: seq<nat>)
    ensures Performed([], schedules, active, schedules, active, completed)
  {
    forall r | r in schedules
      ensures ScheduledAt([], schedules, schedules, completed, r)
    {
    }
    forall r
      ensures StartedAt([], schedules, active, active, completed, r)
    {
    }
  }

  /** What a callback does that is called, if it is. */
  function Reacts(called: bool, script: seq<Reaction>): seq<Action> {
    if called && script != [] then script[0].actions else []
  }

  function RestAfter(called: bool, script: seq<Reaction>): seq<Reaction> {
    if called && script != [] then script[1..] else script
  }

  /** A schedule after its first item has been looked at: the completed subrequests at its
      end are gone, and the item is when none is left. */
  function AfterWork(schedule: seq<Item>, complete: set<nat>): seq<Item> {
    if schedule == [] then []
    else if Left(schedule[0].subreqs, complete) == [] then schedule[1..]
    else [Item(schedule[0].callback, Left(schedule[0].subreqs, complete))] + schedule[1..]
  }

  // ------------------------------------------------------------------ what a pass does

  /** One visit of a pass: whose, whether a callback was called, whether it succeeded, and
      whether the request was completed. */
  datatype Turn = Turn(request: nat, called: bool, ok: bool, completed: bool)

  function Completions(trace: seq<Turn>): seq<nat> {
    if trace == [] then []
    else
      var last := trace[|trace| - 1];
      Completions(trace[..|trace| - 1]) + if last.completed then [last.request] else []
  }

  /** A completed request has the status of the callback called for it, and succeeds when none was. */
  function StatusAfter(status: map<nat, bool>, trace: seq<Turn>): map<nat, bool> {
    if trace == [] then status
    else
      var last, before := trace[|trace| - 1], StatusAfter(status, trace[..|trace| - 1]);
      if last.completed then before[last.request := last.called ==> last.ok] else before
  }

  /** What the callbacks called have returned, in order. */
  function Answers(trace: seq<Turn>): seq<bool> {
    if trace == [] then []
    else
      var last := trace[|trace| - 1];
      Answers(trace[..|trace| - 1]) + if last.called then [last.ok] else []
  }

  /** They are those of the script, and successes behind its end. */
  predicate AnswersFit(answers: seq<bool>, script: seq<Reaction>) {
    forall k :: 0 <= k < |answers| ==> answers[k] == (k < |script| ==> script[k].ok)
  }

  function RestOf(script: seq<Reaction>, n: nat): seq<Reaction> {
    if n <= |script| then script[n..] else []
  }

  /** What the first `n` reactions append to `r`. */
  function AppendedBy(script: seq<Reaction>, n: nat, r: nat): seq<Item> {
    if n == 0 then [] else AppendedBy(script, n - 1, r) + if n <= |script| then ItemsFor(script[n - 1].actions, r) else []
  }

  /** One of the first `n` reactions starts `r`. */
  predicate ToldBy(script: seq<Reaction>, n: nat, r: nat) {
    n > 0 && (ToldBy(script, n - 1, r) || (n <= |script| && Start(r) in script[n - 1].actions))
  }

  /** The state of a scheduler. */
  datatype Snap = Snap(schedules: map<nat, seq<Item>>, active: seq<nat>, completed: seq<nat>, status: map<nat, bool>,
                       lives: map<nat, Life>, done: set<nat>)

  ghost predicate Sound(s: Snap) {
    AllTrack(s.schedules, s.lives, s.done) && Listed(s.active, s.completed, s.schedules)
  }

  /** The progress function's work on the request at place `i`. */
  ghost predicate Visited(s: Snap, t: Snap, i: nat, complete: set<nat>, script: seq<Reaction>,
                          removed: bool, started: seq<nat>, script': seq<Reaction>)
  {
    && i < |s.active| && s.active[i] in s.schedules
    && var r := s.active[i];
       var called := CallDue(s.schedules[r], complete);
       && r in t.schedules && (removed <==> t.schedules[r] == [])
       && OnlyMoved(s.lives, t.lives, r, if Due(s.schedules[r], complete) then 1 else 0)
       && t.active == (if removed then RemoveAt(s.active, i) else s.active) + started
       && t.completed == s.completed + (if removed then [r] else [])
       && t.status == (if removed then s.status[r := called ==> Succeeds(script)] else s.status)
       && script' == RestAfter(called, script) && (!called || script == [] ==> started == [])
       && ItemsGrow(Reacts(called, script), s.lives, t.lives, s.completed)
       && Performed(Reacts(called, script), s.schedules[r := AfterWork(s.schedules[r], complete)], s.active,
                    t.schedules, s.active + started, s.completed)
       && t.done <= s.done + complete
  }

  // --------------------------------------------------------------------- the scheduler

  class Scheduler {
    var schedules: map<nat, seq<Item>>
    var active: seq<nat>
    /** Whether the progress function is registered. */
    var registered: bool
    /** The requests completed, in order, and whether each succeeded. */
    var completed: seq<nat>
    var status: map<nat, bool>
    ghost var lives: map<nat, Life>
    /** The subrequests that have been seen complete. */
    ghost var done: set<nat>

    ghost predicate Valid()
      reads this
    {
      Sound(Now()) && (active != [] ==> registered)
    }

    ghost function Now(): Snap
      reads this
    {
      Snap(schedules, active, completed, status, lives, done)
    }

    constructor ()
      ensures Valid() && Now() == Snap(map[], [], [], map[], map[], {}) && !registered && Prompt(Now())
    {
      schedules, lives, status := map[], map[], map[];
      active, completed, registered, done := [], [], false, {};
    }

    /** ompi_comm_request_get. */
    method Get(r: nat)
      requires Valid() && r !in schedules
      modifies this`schedules, this`lives
      ensures Valid() && schedules == old(schedules)[r := []] && lives == old(lives)[r := UNBORN]
    {
      TrackOne(schedules, lives, done, r, [], UNBORN);
      if r in completed {
        CompletedIsEmpty(active, completed, schedules, r);
      }
      ListedUpdate(active, completed, schedules, r, []);
      schedules, lives := schedules[r := []], lives[r := UNBORN];
    }

    /** ompi_comm_request_schedule_append. */
    method ScheduleAppend(r: nat, item: Item) returns (ret: Ret)
      requires Valid() && r in schedules && r !in completed
      modifies this`schedules, this`lives
      ensures Valid() && ret == (if |item.subreqs| > MAX_SUBREQ then BadParam else Success)
      ensures ret == BadParam ==> schedules == old(schedules) && lives == old(lives)
      ensures r in old(lives)
      ensures ret == Success ==> schedules == old(schedules)[r := old(schedules[r]) + [item]]
      ensures ret == Success ==> lives == old(lives)[r := old(lives)[r].(items := old(lives)[r].items + [item])]
    {
      if |item.subreqs| > MAX_SUBREQ {
        return BadParam;
      }
      assert RequestTracks(schedules, lives, done, r);
      TracksAppend(schedules[r], lives[r], item);
      TrackOne(schedules, lives, done, r, schedules[r] + [item], lives[r].(items := lives[r].items + [item]));
      ListedUpdate(active, completed, schedules, r, schedules[r] + [item]);
      lives := lives[r := lives[r].(items := lives[r].items + [item])];
      schedules := schedules[r := schedules[r] + [item]];
      ret := Success;
    }

    /** ompi_comm_request_start. */
    method Begin(r: nat)
      requires Valid() && r in schedules && r !in active && r !in completed
      modifies this`active, this`registered
      ensures Valid() && active == old(active) + [r]
    {
      ListedStart(active, completed, schedules, r);
      active := active + [r];
      if !registered {
        registered := true;
      }
    }

    /** One action of a callback, if it is legal: on a known request that is not completed. */
    method PerformOne(action: Action, ghost first: map<nat, Life>, ghost base: seq<nat>, started: seq<nat>) returns (started': seq<nat>)
      requires Valid() && OnlyAppended(first, lives) && active == base + started
      modifies this`schedules, this`lives, this`active, this`registered
      ensures Valid() && OnlyAppended(first, lives) && active == base + started'
      ensures schedules == SchedulesAfter(old(schedules), completed, action)
      ensures active == ActiveAfter(old(schedules), old(active), completed, action)
      ensures lives == LivesAfter(old(lives), completed, action)
    {
      started' := started;
      ghost var before := lives;
      match action
      case Append(r, item) =>
        if r in schedules && r !in completed {
          var ret := ScheduleAppend(r, item);
          OnlyAppendedOne(first, before, lives, r, item);
        }
      case Start(r) =>
        if r in schedules && r !in active && r !in completed {
          Begin(r);
          started' := started + [r];
        }
    }

    /** All actions of a callback, of which the legal ones take effect. */
    method Perform(actions: seq<Action>) returns (started: seq<nat>)
      requires Valid()
      modifies this`schedules, this`lives, this`active, this`registered
      ensures Valid() && active == old(active) + started && OnlyAppended(old(lives), lives)
      ensures Performed(actions, old(schedules), old(active), schedules, active, completed)
      ensures ItemsGrow(actions, old(lives), lives, completed)
    {
      started := [];
      var i := 0;
      OnlyAppendedRefl(lives);
      NothingPerformed(schedules, active, completed);
      forall r | r in lives
        ensures ItemsAt([], lives, lives, completed, r)
      {
      }
      while i < |actions|
        invariant 0 <= i <= |actions| && Valid() && active == old(active) + started && OnlyAppended(old(lives), lives)
        invariant Performed(actions[..i], old(schedules), old(active), schedules, active, completed)
        invariant ItemsGrow(actions[..i], old(lives), lives, completed)
      {
        ItemsGrowMore(actions[..i], actions[i], old(lives), lives, completed);
        PerformedMore(actions[..i], actions[i], old(schedules), old(active), schedules, active, completed);
        assert actions[..i + 1] == actions[..i] + [actions[i]];
        started := PerformOne(actions[i], old(lives), old(active), started);
        i := i + 1;
      }
      assert actions[..i] == actions;
    }

    /** Frees the completed subrequests of a request's first item, from the last one on. */
    method FreeCompleted(r: nat, complete: set<nat>, ghost first: map<nat, Life>)
      requires Valid() && Grows(first, lives) && r in schedules && r !in completed && schedules[r] != []
      modifies this`schedules, this`lives, this`done
      ensures Valid() && Grows(first, lives) && done == old(done) + complete
      ensures schedules == old(schedules)[r := [Item(old(schedules[r])[0].callback, Left(old(schedules[r][0].subreqs), complete))] + old(schedules[r])[1..]]
      ensures OnlyMoved(old(lives), lives, r, 0) && ItemsGrow([], old(lives), lives, completed)
    {
      DoneGrows(schedules, lives, done, complete);
      done := done + complete;
      assert RequestTracks(schedules, lives, done, r);
      OnlyMovedRefl(lives, r);
      ItemsStay(lives, lives, completed, r);
      while schedules[r][0].subreqs != [] && schedules[r][0].subreqs[|schedules[r][0].subreqs| - 1] in complete
        invariant Valid() && Grows(first, lives) && done == old(done) + complete && r in schedules && r !in completed && schedules[r] != []
        invariant Left(schedules[r][0].subreqs, complete) == Left(old(schedules[r][0].subreqs), complete)
        invariant schedules[r][0].callback == old(schedules[r][0].callback) && OnlyMoved(old(lives), lives, r, 0)
        invariant schedules == old(schedules)[r := schedules[r]] && schedules[r][1..] == old(schedules[r])[1..]
        invariant ItemsGrow([], old(lives), lives, completed)
        decreases |schedules[r][0].subreqs|
      {
        ghost var mid := lives;
        FreeLast(r, first);
        MovedMore(old(lives), mid, lives, r, 0, 0);
        ItemsStay(mid, lives, completed, r);
        ItemsGrowOn([], old(lives), mid, lives, completed);
      }
      assert schedules[r] == [schedules[r][0]] + schedules[r][1..];
    }

    method FreeLast(r: nat, ghost first: map<nat, Life>)
      requires Valid() && Grows(first, lives) && r in schedules && r !in completed && schedules[r] != [] && schedules[r][0].subreqs != []
      requires schedules[r][0].subreqs[|schedules[r][0].subreqs| - 1] in done
      modifies this`schedules, this`lives
      ensures Valid() && Grows(first, lives)
      ensures schedules == old(schedules)[r := AfterFree(old(schedules[r]))]
      ensures r in old(lives) && lives == old(lives)[r := LifeFree(old(lives)[r], Last(old(schedules[r])))]
    {
      assert RequestTracks(schedules, lives, done, r);
      ghost var life := LifeFree(lives[r], Last(schedules[r]));
      TracksFree(schedules[r], lives[r]);
      FreeGrows(lives[r], Last(schedules[r]), done);
      Change(r, AfterFree(schedules[r]), life, first);
    }

    /** One request goes on. */
    method Change(r: nat, schedule: seq<Item>, ghost life: Life, ghost first: map<nat, Life>)
      requires Valid() && Grows(first, lives) && r in schedules && r !in completed
      requires Tracks(schedule, life) && FreedAre(life, done) && GrowsLife(lives[r], life)
      modifies this`schedules, this`lives
      ensures Valid() && Grows(first, lives) && schedules == old(schedules)[r := schedule] && lives == old(lives)[r := life]
    {
      ChangeOne(schedules, lives, done, active, completed, r, schedule, life, first);
      schedules, lives := schedules[r := schedule], lives[r := life];
    }

    /** An item with no subrequest left is done: it leaves the schedule, and its callback is due if it has one. */
    method FinishItem(r: nat, ghost first: map<nat, Life>) returns (callback: bool)
      requires Valid() && Grows(first, lives) && r in schedules && r !in completed && schedules[r] != []
      modifies this`schedules, this`lives
      ensures Valid() && Grows(first, lives)
      ensures callback == (old(schedules[r][0].subreqs == [] && schedules[r][0].callback))
      ensures old(schedules[r][0].subreqs != []) ==> schedules == old(schedules) && lives == old(lives)
      ensures r in old(lives)
      ensures old(schedules[r][0].subreqs == []) ==>
                schedules == old(schedules)[r := old(schedules[r])[1..]] && lives == old(lives)[r := LifeFinish(old(lives)[r], callback)]
    {
      assert RequestTracks(schedules, lives, done, r);
      if schedules[r][0].subreqs != [] {
        return false;
      }
      callback := schedules[r][0].callback;
      ghost var life := LifeFinish(lives[r], callback);
      TracksFinish(schedules[r], lives[r]);
      FinishGrows(lives[r], callback, done);
      Change(r, schedules[r][1..], life, first);
    }

    /** A callback takes the next reaction of the script, and does nothing when there is none. */
    method RunCallback(script: seq<Reaction>, ghost first: map<nat, Life>) returns (ok: bool, started: seq<nat>, script': seq<Reaction>)
      requires Valid() && Grows(first, lives)
      modifies this`schedules, this`lives, this`active, this`registered
      ensures Valid() && Grows(first, lives) && active == old(active) + started && OnlyAppended(old(lives), lives)
      ensures script' == RestAfter(true, script) && ok == Succeeds(script) && (script == [] ==> started == [])
      ensures Performed(Reacts(true, script), old(schedules), old(active), schedules, active, completed)
      ensures ItemsGrow(Reacts(true, script), old(lives), lives, completed)
    {
      ok, started, script' := true, [], script;
      OnlyAppendedRefl(lives);
      NothingPerformed(schedules, active, completed);
      forall r | r in lives
        ensures ItemsAt([], lives, lives, completed, r)
      {
      }
      if script != [] {
        ghost var mid := lives;
        started := Perform(script[0].actions);
        AppendedGrows(first, mid, lives);
        ok, script' := script[0].ok, script[1..];
      }
    }

    /** The first item of a request's schedule, if any: wait for it, or finish it and call its callback. */
    method Work(r: nat, complete: set<nat>, script: seq<Reaction>, ghost first: map<nat, Life>)
      returns (ok: bool, started: seq<nat>, script': seq<Reaction>)
      requires Valid() && Grows(first, lives) && r in schedules && r !in completed
      modifies this`schedules, this`lives, this`done, this`active, this`registered
      ensures Valid() && Grows(first, lives) && active == old(active) + started
      ensures OnlyMoved(old(lives), lives, r, if Due(old(schedules[r]), complete) then 1 else 0)
      ensures done <= old(done) + complete
      ensures var called := CallDue(old(schedules[r]), complete);
              && ok == (called ==> Succeeds(script)) && script' == RestAfter(called, script) && (!called || script == [] ==> started == [])
              && ItemsGrow(Reacts(called, script), old(lives), lives, completed)
              && Performed(Reacts(called, script), old(schedules)[r := AfterWork(old(schedules[r]), complete)], old(active), schedules, active, completed)
    {
      ghost var before, due := lives, if Due(schedules[r], complete) then 1 else 0;
      var callback := FreeAndFinish(r, complete, first);
      if callback {
        ghost var mid := lives;
        ok, started, script' := RunCallback(script, first);
        MovedThenAppended(before, mid, lives, r, due);
        ItemsGrowOn(Reacts(true, script), before, mid, lives, completed);
      } else {
        ok, started, script' := true, [], script;
        NothingPerformed(schedules, active, completed);
      }
    }

    /** Whether a first item's callback is due: all its subrequests are complete and it has one. */
    method FreeAndFinish(r: nat, complete: set<nat>, ghost first: map<nat, Life>) returns (callback: bool)
      requires Valid() && Grows(first, lives) && r in schedules && r !in completed
      modifies this`schedules, this`lives, this`done
      ensures Valid() && Grows(first, lives) && done <= old(done) + complete
      ensures callback == CallDue(old(schedules[r]), complete)
      ensures schedules == old(schedules)[r := AfterWork(old(schedules[r]), complete)]
      ensures OnlyMoved(old(lives), lives, r, if Due(old(schedules[r]), complete) then 1 else 0)
      ensures ItemsGrow([], old(lives), lives, completed)
    {
      ghost var before := lives;
      assert RequestTracks(schedules, lives, done, r);
      OnlyMovedRefl(lives, r);
      ItemsStay(lives, lives, completed, r);
      if schedules[r] == [] {
        return false;
      }
      FreeCompleted(r, complete, first);
      ghost var mid := lives;
      callback := FinishItem(r, first);
      if lives != mid {
        MovedMore(before, mid, lives, r, 0, 1);
        ItemsStay(mid, lives, completed, r);
        ItemsGrowOn([], before, mid, lives, completed);
      }
    }

    /** The progress function's work on the request at place `i`. */
    method Visit(i: nat, complete: set<nat>, script: seq<Reaction>, ghost first: map<nat, Life>)
      returns (removed: bool, started: seq<nat>, script': seq<Reaction>)
      requires Valid() && Grows(first, lives) && i < |active|
      modifies this
      ensures Valid() && Grows(first, lives)
      ensures Visited(old(Now()), Now(), i, complete, script, removed, started, script')
    {
      var ok;
      assert ActiveFits(active, completed, schedules, i);
      ok, started, script' := Work(active[i], complete, script, first);
      RemoveFirst(old(active), started, i);
      removed := CompleteIfEmpty(i, ok);
    }

    /** A request whose schedule is empty is complete. */
    method CompleteIfEmpty(i: nat, ok: bool) returns (removed: bool)
      requires Valid() && i < |active| && active[i] in schedules
      modifies this`active, this`completed, this`status
      ensures Valid() && removed == (schedules[old(active)[i]] == [])
      ensures active == (if removed then RemoveAt(old(active), i) else old(active))
      ensures completed == old(completed) + if removed then [old(active)[i]] else []
      ensures status == if removed then old(status)[old(active)[i] := ok] else old(status)
    {
      removed := schedules[active[i]] == [];
      if removed {
        ListedComplete(active, completed, schedules, i);
        status := status[active[i] := ok];
        completed := completed + [active[i]];
        active := RemoveAt(active, i);
      }
    }

    /** A visit in the course of a pass. */
    method VisitNext(i: nat, now: set<nat>, rest: seq<Reaction>, ghost b: Begun, ghost trace: seq<Turn>, ghost served: nat)
      returns (removed: bool, rest': seq<Reaction>, ghost trace': seq<Turn>, ghost served': nat, ghost upto: nat)
      requires Valid() && i < |active| && Underway(b, Now(), trace, served, i, rest) && now == Known(b.complete, b.news, |trace|)
      requires b.s.active[served..] <= active[i..]
      modifies this
      ensures Valid() && Underway(b, Now(), trace', served', upto, rest') && upto == PlaceAfter(i, removed) <= |active|
      ensures b.s.active[served'..] <= active[upto..] && done <= old(done) + now
      ensures |active| >= |old(active)| - (if removed then 1 else 0) && |trace'| == |trace| + 1
      ensures |rest'| < |rest| || (rest' == rest && |active| == |old(active)| - if removed then 1 else 0)
      ensures i + 1 == |old(active)| ==> served' == |b.s.active| && LateFits(b, active[upto..], trace')
    {
      ghost var was := Now();
      var started;
      if served < |b.s.active| {
        NextIsMine(b.s.active, served, active, i);
      }
      removed, started, rest' := Visit(i, now, rest, b.s.lives);
      NextPlace(b.s.active, served, was.active, i, removed, started);
      trace', served', upto := UnderwayNext(b, was, Now(), trace, served, i, now, rest, removed, started, rest');
      if i + 1 == |was.active| {
        LateLast(b, was, Now(), trace', i, now, rest, removed, started, rest');
      }
    }

    /** The loop of the progress function. */
    method VisitAll(complete: set<nat>, news: seq<set<nat>>, script: seq<Reaction>, ghost b: Begun)
      returns (ghost trace: seq<Turn>, ghost served: nat, ghost upto: nat, ghost rest': seq<Reaction>)
      requires Valid() && b == Begun(Now(), complete, news, script)
      modifies this
      ensures Valid() && Underway(b, Now(), trace, served, upto, rest') && served == |b.s.active|
      ensures upto <= |active| && LateFits(b, active[upto..], trace) && done <= old(done) + complete + Union(news)
    {
      var i, more, rest, now, k := 0, active != [], script, complete, 0;
      trace, served, upto := [], 0, 0;
      UnderwayFirst(b);
      while more
        invariant Valid() && upto <= |active| && (more ==> upto == i < |active|) && Underway(b, Now(), trace, served, upto, rest)
        invariant if more then b.s.active[served..] <= active[i..] else served == |b.s.active| && LateFits(b, active[upto..], trace)
        invariant k == |trace| && now == KnownBefore(complete, news, k) && done <= old(done) + complete + Union(news)
        decreases if more then 1 else 0, |rest|, |active| - i
      {
        var last, removed := i + 1 == |active|, false;
        if k < |news| {
          now := now + news[k];
        }
        KnownBounded(complete, news, k);
        k := k + 1;
        removed, rest, trace, served, upto := VisitNext(i, now, rest, b, trace, served);
        if last {
          more := false;
        } else if !removed {
          i := i + 1;
        }
      }
      rest' := rest;
    }

    method PassOver(complete: set<nat>, news: seq<set<nat>>, script: seq<Reaction>, ghost b: Begun) returns (ghost trace: seq<Turn>, ghost late: nat)
      requires Valid() && b == Begun(Now(), complete, news, script)
      modifies this
      ensures Valid() && Grows(old(lives), lives) && done <= old(done) + complete + Union(news)
      ensures old(completed) <= completed && (old(Prompt(Now())) ==> Prompt(Now()))
      ensures PassDone(b, Now(), trace, late)
    {
      ghost var served, upto, rest;
      trace, served, upto, rest := VisitAll(complete, news, script, b);
      late := |active| - upto;
      PassEnds(b, Now(), trace, served, upto, rest);
    }

    /** ompi_comm_request_progress: one pass over the active requests, in which those
        started meanwhile take part unless the last one started them. `complete` are the
        subrequests complete when it begins, and `news[k]` completes before the visit
        number `k`. Every request that was active is visited, goes on by one item if its
        first one can be finished, and is completed if and only if nothing is left of its
        schedule; callbacks do what the script says, in order. */
    method Progress(complete: set<nat>, news: seq<set<nat>>, script: seq<Reaction>) returns (ghost trace: seq<Turn>, ghost late: nat)
      requires Valid()
      modifies this
      ensures Valid() && Grows(old(lives), lives) && registered == (active != []) && done <= old(done) + complete + Union(news)
      ensures old(completed) <= completed && (old(Prompt(Now())) ==> Prompt(Now()))
      ensures PassDone(Begun(old(Now()), complete, news, script), Now(), trace, late)
    {
      ghost var b := Begun(Now(), complete, news, script);
      trace, late := PassOver(complete, news, script, b);
      if active == [] {
        Unregister();
      }
    }

    method Unregister()
      requires Valid() && active == []
      modifies this`registered
      ensures Valid() && !registered
    {
      registered := false;
    }

    /** One call, if it is legal. */
    method Make(call: Call)
      requires Valid()
      modifies this
      ensures Valid() && old(completed) <= completed && Keeps(old(lives), lives) && (old(Prompt(Now())) ==> Prompt(Now()))
      ensures done <= (old(done) + if call.Pass? then call.complete + Union(call.news) else {}) && Made(call, old(Now()), Now())
    {
      GrowsRefl(lives);
      match call
      case GetRequest(r) =>
        if r !in schedules {
          Get(r);
          KeepsNew(old(lives), r);
          PromptNew(old(Now()), Now(), r);
        }
      case AppendItem(r, item) =>
        if r in schedules && r !in completed {
          var ret := ScheduleAppend(r, item);
          OnlyAppendedRefl(old(lives));
          OnlyAppendedOne(old(lives), old(lives), lives, r, item);
          AppendedGrows(old(lives), old(lives), lives);
          PromptOther(old(Now()), Now(), r);
        }
      case StartRequest(r) =>
        if r in schedules && r !in active && r !in completed {
          Begin(r);
          PromptOther(old(Now()), Now(), r);
        }
      case Pass(complete, news, script) =>
        MakePass(complete, news, script);
    }

    method MakePass(complete: set<nat>, news: seq<set<nat>>, script: seq<Reaction>)
      requires Valid()
      modifies this
      ensures Valid() && old(completed) <= completed && Keeps(old(lives), lives) && (old(Prompt(Now())) ==> Prompt(Now()))
      ensures done <= old(done) + complete + Union(news) && Passed(Begun(old(Now()), complete, news, script), Now())
    {
      ghost var trace, late;
      trace, late := Progress(complete, news, script);
    }

    /** Any sequence of calls: each has its effect, what has been done stays done, requests
        stay completed, a request is completed as soon as its last item is finished, and a
        callback is called only when a pass has seen each subrequest of its item complete. */
    method Run(calls: seq<Call>) returns (ghost states: seq<Snap>)
      requires Valid() && Prompt(Now())
      modifies this
      ensures Valid() && old(completed) <= completed && Keeps(old(lives), lives) && Prompt(Now())
      ensures forall r :: r in lives ==> CalledRight(lives[r], old(done) + Reported(calls))
      ensures Ran(calls, states) && states[0] == old(Now()) && states[|calls|] == Now()
    {
      GrowsRefl(lives);
      var i := 0;
      states := [Now()];
      while i < |calls|
        invariant 0 <= i <= |calls| && Valid() && old(completed) <= completed && Keeps(old(lives), lives) && Prompt(Now())
        invariant done <= old(done) + Reported(calls[..i])
        invariant Ran(calls[..i], states) && states[0] == old(Now()) && states[i] == Now()
      {
        assert calls[..i + 1][..i] == calls[..i];
        ghost var mid := lives;
        Make(calls[i]);
        KeepsMore(old(lives), mid, lives);
        assert calls[..i + 1] == calls[..i] + [calls[i]];
        RanOnce(calls[..i], states, calls[i], Now());
        states := states + [Now()];
        i := i + 1;
      }
      assert calls[..i] == calls;
      AllCalledRight(schedules, lives, done, old(done) + Reported(calls));
    }
  }

  /** The effect of a call. */
  ghost predicate Made(call: Call, s: Snap, s': Snap) {
    match call
    case GetRequest(r) => s' == if r in s.schedules then s else s.(schedules := s.schedules[r := []], lives := s.lives[r := UNBORN])
    case AppendItem(r, item) =>
      if r in s.schedules && r in s.lives && r !in s.completed && |item.subreqs| <= MAX_SUBREQ
      then s' == s.(schedules := s.schedules[r := s.schedules[r] + [item]], lives := s.lives[r := s.lives[r].(items := s.lives[r].items + [item])])
      else s' == s
    case StartRequest(r) => s' == if r in s.schedules && r !in s.active && r !in s.completed then s.(active := s.active + [r]) else s
    case Pass(complete, news, script) => Passed(Begun(s, complete, news, script), s')
  }

  ghost predicate Passed(b: Begun, s: Snap) {
    Sound(s) && exists trace, late :: PassDone(b, s, trace, late)
  }

  /** The states before and after each call. */
  ghost predicate Ran(calls: seq<Call>, states: seq<Snap>) {
    |states| == |calls| + 1 && forall i :: 0 <= i < |calls| ==> Made(calls[i], states[i], states[i + 1])
  }

  lemma RanOnce(calls: seq<Call>, states: seq<Snap>, call: Call, s: Snap)
    requires Ran(calls, states) && Made(call, states[|calls|], s)
    ensures Ran(calls + [call], states + [s])
  {
    var all, after := calls + [call], states + [s];
    forall i | 0 <= i < |all|
      ensures Made(all[i], after[i], after[i + 1])
    {
      if i < |calls| {
        assert Made(calls[i], states[i], states[i + 1]);
      }
    }
  }

  lemma KeepsNew(lives: map<nat, Life>, r: nat)
    requires r !in lives
    ensures Keeps(lives, lives[r := UNBORN])
  {
    forall k | k in lives
      ensures GrowsAt(lives, lives[r := UNBORN], k)
    {
    }
  }

  // ---------------------------------------------------------------------- whole runs

  /** The subrequests that some pass has seen complete. */
  function Reported(calls: seq<Call>): set<nat> {
    if calls == [] then {}
    else
      var last := calls[|calls| - 1];
      Reported(calls[..|calls| - 1]) + if last.Pass? then last.complete + Union(last.news) else {}
  }

  /** New requests may have come; what has been done for the others stays done. */
  ghost predicate Keeps(before: map<nat, Life>, after: map<nat, Life>) {
    forall r {:trigger GrowsAt(before, after, r)} :: r in before ==> GrowsAt(before, after, r)
  }

  lemma KeepsMore(before: map<nat, Life>, mid: map<nat, Life>, after: map<nat, Life>)
    requires Keeps(before, mid) && Keeps(mid, after)
    ensures Keeps(before, after)
  {
    forall r | r in before
      ensures GrowsAt(before, after, r)
    {
      assert GrowsAt(before, mid, r) && GrowsAt(mid, after, r);
      LifeGrows(before[r], mid[r], after[r]);
    }
  }

  /** Every callback called was the callback of an item whose subrequests are all done. */
  ghost predicate CalledRight(life: Life, done: set<nat>) {
    forall k, sub :: k in life.called && k < |life.items| && sub in life.items[k].subreqs ==> sub in done
  }

  lemma AllCalledRight(schedules: map<nat, seq<Item>>, lives: map<nat, Life>, done: set<nat>, all: set<nat>)
    requires AllTrack(schedules, lives, done) && done <= all
    ensures forall r :: r in lives ==> CalledRight(lives[r], all)
  {
    forall r | r in lives
      ensures CalledRight(lives[r], all)
    {
      assert RequestTracks(schedules, lives, done, r);
      forall k, sub | k in lives[r].called && k < |lives[r].items| && sub in lives[r].items[k].subreqs
        ensures sub in all
      {
        CalledAfterDone(schedules[r], lives[r], done, k, sub);
      }
    }
  }

  function Union(sets: seq<set<nat>>): set<nat> {
    if sets == [] then {} else sets[0] + Union(sets[1..])
  }

  lemma {:induction false} InUnion(sets: seq<set<nat>>, k: nat)
    requires k < |sets|
    ensures sets[k] <= Union(sets)
  {
    if k > 0 {
      InUnion(sets[1..], k - 1);
    }
  }

  /** What has been done stays done. */
  ghost predicate Grows(before: map<nat, Life>, after: map<nat, Life>) {
    && before.Keys == after.Keys
    && forall r {:trigger GrowsAt(before, after, r)} :: r in before ==> GrowsAt(before, after, r)
  }

  ghost predicate GrowsAt(before: map<nat, Life>, after: map<nat, Life>, r: nat) {
    r in before && r in after && GrowsLife(before[r], after[r])
  }

  lemma GrowsRefl(lives: map<nat, Life>)
    ensures Grows(lives, lives)
  {
    forall r | r in lives
      ensures GrowsAt(lives, lives, r)
    {
    }
  }

  lemma GrowsOne(first: map<nat, Life>, lives: map<nat, Life>, r: nat, life: Life)
    requires Grows(first, lives) && r in lives && GrowsLife(lives[r], life)
    ensures Grows(first, lives[r := life])
  {
    var lives' := lives[r := life];
    forall k | k in first
      ensures GrowsAt(first, lives', k)
    {
      assert GrowsAt(first, lives, k);
      if k == r {
        LifeGrows(first[r], lives[r], life);
      }
    }
  }

  lemma ChangeOne(schedules: map<nat, seq<Item>>, lives: map<nat, Life>, done: set<nat>, active: seq<nat>, completed: seq<nat>,
                  r: nat, schedule: seq<Item>, life: Life, first: map<nat, Life>)
    requires AllTrack(schedules, lives, done) && Listed(active, completed, schedules) && Grows(first, lives)
    requires r in schedules && r !in completed && Tracks(schedule, life) && FreedAre(life, done) && GrowsLife(lives[r], life)
    ensures AllTrack(schedules[r := schedule], lives[r := life], done)
    ensures Listed(active, completed, schedules[r := schedule]) && Grows(first, lives[r := life])
  {
    TrackOne(schedules, lives, done, r, schedule, life);
    ListedUpdate(active, completed, schedules, r, schedule);
    GrowsOne(first, lives, r, life);
  }

  lemma LifeGrows(a: Life, b: Life, c: Life)
    requires GrowsLife(a, b) && GrowsLife(b, c)
    ensures GrowsLife(a, c)
  {
  }

  lemma AppendedGrows(first: map<nat, Life>, mid: map<nat, Life>, last: map<nat, Life>)
    requires Grows(first, mid) && OnlyAppended(mid, last)
    ensures Grows(first, last)
  {
    forall r | r in first
      ensures GrowsAt(first, last, r)
    {
      assert GrowsAt(first, mid, r) && AppendedAt(mid, last, r);
      LifeGrows(first[r], mid[r], last[r]);
    }
  }

  lemma DoneGrows(schedules: map<nat, seq<Item>>, lives: map<nat, Life>, done: set<nat>, more: set<nat>)
    requires AllTrack(schedules, lives, done)
    ensures AllTrack(schedules, lives, done + more)
  {
    forall r | r in schedules
      ensures RequestTracks(schedules, lives, done + more, r)
    {
      assert RequestTracks(schedules, lives, done, r);
    }
  }

  /** Nothing but new items happened to the requests. */
  ghost predicate OnlyAppended(before: map<nat, Life>, after: map<nat, Life>) {
    && before.Keys == after.Keys
    && forall r {:trigger AppendedAt(before, after, r)} :: r in before ==> AppendedAt(before, after, r)
  }

  ghost predicate AppendedAt(before: map<nat, Life>, after: map<nat, Life>, r: nat) {
    && r in before && r in after && before[r].items <= after[r].items
    && after[r].finished == before[r].finished && after[r].freed == before[r].freed && after[r].called == before[r].called
  }

  lemma OnlyAppendedRefl(lives: map<nat, Life>)
    ensures OnlyAppended(lives, lives)
  {
    forall r | r in lives
      ensures AppendedAt(lives, lives, r)
    {
    }
  }

  lemma OnlyAppendedOne(first: map<nat, Life>, before: map<nat, Life>, after: map<nat, Life>, r: nat, item: Item)
    requires OnlyAppended(first, before) && r in before
    requires after == before || after == before[r := before[r].(items := before[r].items + [item])]
    ensures OnlyAppended(first, after)
  {
    forall k | k in first
      ensures AppendedAt(first, after, k)
    {
      assert AppendedAt(first, before, k);
    }
  }

  /** Request `r` has finished `n` more items; nothing but new items happened to the others. */
  ghost predicate OnlyMoved(before: map<nat, Life>, after: map<nat, Life>, r: nat, n: nat) {
    && r in before && before.Keys == after.Keys && after[r].finished == before[r].finished + n
    && forall k {:trigger AppendedAt(before, after, k)} :: k in before && k != r ==> AppendedAt(before, after, k)
  }

  lemma OnlyMovedRefl(lives: map<nat, Life>, r: nat)
    requires r in lives
    ensures OnlyMoved(lives, lives, r, 0)
  {
    OnlyAppendedRefl(lives);
  }

  lemma MovedMore(before: map<nat, Life>, mid: map<nat, Life>, after: map<nat, Life>, r: nat, n: nat, m: nat)
    requires OnlyMoved(before, mid, r, n) && r in after && after == mid[r := after[r]] && after[r].finished == mid[r].finished + m
    ensures OnlyMoved(before, after, r, n + m)
  {
    forall k | k in before && k != r
      ensures AppendedAt(before, after, k)
    {
      assert AppendedAt(before, mid, k);
    }
  }

  lemma AppendedTwice(before: map<nat, Life>, mid: map<nat, Life>, after: map<nat, Life>, k: nat)
    requires AppendedAt(before, mid, k) && AppendedAt(mid, after, k)
    ensures AppendedAt(before, after, k)
  {
  }

  lemma MovedThenAppended(before: map<nat, Life>, mid: map<nat, Life>, after: map<nat, Life>, r: nat, n: nat)
    requires OnlyMoved(before, mid, r, n) && OnlyAppended(mid, after)
    ensures OnlyMoved(before, after, r, n)
  {
    assert AppendedAt(mid, after, r);
    forall k | k in before && k != r
      ensures AppendedAt(before, after, k)
    {
      AppendedTwice(before, mid, after, k);
    }
  }

  // ---------------------------------------------------------------- a whole pass

  /** What is complete at visit `k`. */
  function Known(complete: set<nat>, news: seq<set<nat>>, k: nat): set<nat>
    decreases k, 1
  {
    KnownBefore(complete, news, k) + if k < |news| then news[k] else {}
  }

  function KnownBefore(complete: set<nat>, news: seq<set<nat>>, k: nat): set<nat>
    decreases k, 0
  {
    if k == 0 then complete else Known(complete, news, k - 1)
  }

  lemma {:induction false} KnownBounded(complete: set<nat>, news: seq<set<nat>>, k: nat)
    ensures Known(complete, news, k) <= complete + Union(news)
  {
    if k < |news| {
      InUnion(news, k);
    }
    if k > 0 {
      KnownBounded(complete, news, k - 1);
    }
  }

  /** A request whose schedule was not empty when the pass began has gone on exactly if its first item
      could be finished when it was visited. */
  ghost predicate Served(all: map<nat, seq<Item>>, before: map<nat, Life>, after: map<nat, Life>, complete: set<nat>, r: nat) {
    r in all && r in before && r in after && (all[r] != [] ==> (Due(all[r], complete) <==> before[r].finished < after[r].finished))
  }

  ghost predicate ServedTo(all: map<nat, seq<Item>>, before: map<nat, Life>, after: map<nat, Life>,
                           complete: set<nat>, news: seq<set<nat>>, todo: seq<nat>, n: nat)
  {
    && n <= |todo|
    && forall j: nat {:trigger Served(all, before, after, Known(complete, news, j), todo[j])} :: j < n ==>
         Served(all, before, after, Known(complete, news, j), todo[j])
  }

  /** From number `n` on, nothing but new items happened to the requests of the pass. */
  ghost predicate Untouched(before: map<nat, Life>, after: map<nat, Life>, todo: seq<nat>, n: nat) {
    forall j {:trigger AppendedAt(before, after, todo[j])} :: n <= j < |todo| ==> AppendedAt(before, after, todo[j])
  }

  ghost predicate TracksStart(all: map<nat, seq<Item>>, before: map<nat, Life>, todo: seq<nat>) {
    forall j :: 0 <= j < |todo| ==> todo[j] in all && todo[j] in before && Tracks(all[todo[j]], before[todo[j]])
  }

  lemma UntouchedAll(all: map<nat, seq<Item>>, before: map<nat, Life>, done: set<nat>, todo: seq<nat>)
    requires AllTrack(all, before, done) && forall j :: 0 <= j < |todo| ==> todo[j] in all
    ensures Untouched(before, before, todo, 0) && TracksStart(all, before, todo)
  {
    OnlyAppendedRefl(before);
    forall j | 0 <= j < |todo|
      ensures todo[j] in before && Tracks(all[todo[j]], before[todo[j]])
    {
      assert RequestTracks(all, before, done, todo[j]);
    }
  }

  lemma SameFirst(schedule: seq<Item>, schedule': seq<Item>, life: Life, life': Life)
    requires Tracks(schedule, life) && Tracks(schedule', life') && schedule != []
    requires life.items <= life'.items && life'.finished == life.finished && life'.freed == life.freed
    ensures schedule' != [] && schedule'[0] == schedule[0]
  {
    var first := life.items[life.finished];
    var done := FreedBy(life.items, life.finished);
    PrefixFreed(life.items, life'.items, life.finished);
    assert |life.freed| == |done| + (|first.subreqs| - |schedule[0].subreqs|);
    assert |life'.freed| == |done| + (|first.subreqs| - |schedule'[0].subreqs|);
    assert schedule[0].subreqs == first.subreqs[..|schedule[0].subreqs|] == schedule'[0].subreqs;
  }

  lemma {:induction false} PrefixFreed(items: seq<Item>, items': seq<Item>, n: nat)
    requires items <= items' && n <= |items|
    ensures FreedBy(items, n) == FreedBy(items', n)
  {
    if n > 0 {
      PrefixFreed(items, items', n - 1);
    }
  }

  /** The first item is still the same. */
  lemma StillDue(all: map<nat, seq<Item>>, before: map<nat, Life>, now: map<nat, seq<Item>>, lives: map<nat, Life>, done: set<nat>,
                 complete: set<nat>, todo: seq<nat>, n: nat)
    requires TracksStart(all, before, todo) && AllTrack(now, lives, done) && Untouched(before, lives, todo, n) && n < |todo|
    ensures todo[n] in all && todo[n] in now && (all[todo[n]] != [] ==> (Due(all[todo[n]], complete) <==> Due(now[todo[n]], complete)))
  {
    var r := todo[n];
    assert AppendedAt(before, lives, r) && RequestTracks(now, lives, done, r);
    if all[r] != [] {
      SameFirst(all[r], now[r], before[r], lives[r]);
    }
  }

  lemma NextIsMine(todo: seq<nat>, n: nat, active: seq<nat>, i: nat)
    requires n < |todo| && i < |active| && todo[n..] <= active[i..]
    ensures active[i] == todo[n]
  {
    assert todo[n..][0] == active[i..][0];
  }

  function Following(todo: seq<nat>, n: nat): nat {
    if n < |todo| then n + 1 else n
  }

  /** The requests of the pass that are left are still the next ones in the list. */
  lemma NextPlace(todo: seq<nat>, n: nat, active: seq<nat>, i: nat, removed: bool, started: seq<nat>)
    requires n <= |todo| && i < |active| && todo[n..] <= active[i..]
    ensures var active' := (if removed then RemoveAt(active, i) else active) + started;
            var i' := if removed then i else i + 1;
            i' <= |active'| && Following(todo, n) <= |todo| && todo[Following(todo, n)..] <= active'[i'..]
    ensures i + 1 == |active| ==> Following(todo, n) == |todo|
  {
    var active' := (if removed then RemoveAt(active, i) else active) + started;
    var i' := if removed then i else i + 1;
    assert active'[i'..] == active[i + 1..] + started;
    assert active[i..][1..] == active[i + 1..];
    if n < |todo| {
      assert todo[n..][1..] == todo[n + 1..];
    }
  }

  lemma MoveOn(all: map<nat, seq<Item>>, before: map<nat, Life>, mid: map<nat, Life>, after: map<nat, Life>, complete: set<nat>,
               news: seq<set<nat>>, todo: seq<nat>, n: nat, r: nat, moved: nat)
    requires Distinct(todo) && Untouched(before, mid, todo, n) && ServedTo(all, before, mid, complete, news, todo, n)
    requires OnlyMoved(mid, after, r, moved) && (n == |todo| ==> r !in todo)
    requires n < |todo| ==> r == todo[n] && r in all && (all[r] != [] ==> (Due(all[r], Known(complete, news, n)) <==> moved > 0))
    ensures Untouched(before, after, todo, Following(todo, n)) && ServedTo(all, before, after, complete, news, todo, Following(todo, n))
  {
    forall j | Following(todo, n) <= j < |todo|
      ensures AppendedAt(before, after, todo[j])
    {
      if n < |todo| {
        DistinctAt(todo, n, j);
      }
      assert AppendedAt(before, mid, todo[j]);
      AppendedTwice(before, mid, after, todo[j]);
    }
    forall j: nat | j < Following(todo, n)
      ensures Served(all, before, after, Known(complete, news, j), todo[j])
    {
      if j < n {
        assert Served(all, before, mid, Known(complete, news, j), todo[j]);
        if n < |todo| {
          DistinctAt(todo, j, n);
        }
        assert todo[j] != r ==> AppendedAt(mid, after, todo[j]);
      } else {
        assert AppendedAt(before, mid, todo[n]);
      }
    }
  }

  /** How a pass began, and what completes before each visit. */
  datatype Begun = Begun(s: Snap, complete: set<nat>, news: seq<set<nat>>, script: seq<Reaction>)

  /** The first visits are those of the requests that were active. */
  predicate TraceFits(todo: seq<nat>, trace: seq<Turn>, served: nat) {
    && served <= |trace| && served <= |todo| && (served < |todo| ==> |trace| == served)
    && forall j :: 0 <= j < served ==> trace[j].request == todo[j]
  }

  /** A visited request is completed, or among the active ones passed with something left. */
  ghost predicate SettledAt(s: Snap, upto: nat, r: nat)
    requires upto <= |s.active|
  {
    && r in s.schedules
    && if r in s.completed then s.schedules[r] == [] else r in s.active[..upto] && s.schedules[r] != []
  }

  ghost predicate SettledTo(s: Snap, upto: nat, todo: seq<nat>, served: nat) {
    upto <= |s.active| && served <= |todo| && forall j {:trigger SettledAt(s, upto, todo[j])} :: 0 <= j < served ==> SettledAt(s, upto, todo[j])
  }

  /** A visit finished one item or none, and called its callback if it has one. */
  ghost predicate TurnFits(b: Begun, lives: map<nat, Life>, turn: Turn) {
    var r := turn.request;
    && r in b.s.lives && r in lives && r in b.s.schedules
    && var f, g := b.s.lives[r].finished, lives[r].finished;
       && f <= g <= f + 1 && (g == f + 1 ==> f < |lives[r].items|)
       && (turn.called <==> g == f + 1 && lives[r].items[f].callback)
  }

  ghost predicate TurnsFit(b: Begun, lives: map<nat, Life>, trace: seq<Turn>, served: nat) {
    served <= |trace| && forall j {:trigger TurnFits(b, lives, trace[j])} :: 0 <= j < served ==> TurnFits(b, lives, trace[j])
  }

  ghost predicate GrownAt(b: Begun, s: Snap, n: nat, r: nat) {
    r in s.lives && r in b.s.lives && (r !in s.completed ==> s.lives[r].items == b.s.lives[r].items + AppendedBy(b.script, n, r))
  }

  /** A request that is not completed has got what the first `n` reactions append to it. */
  ghost predicate Grown(b: Begun, s: Snap, n: nat) {
    forall r {:trigger GrownAt(b, s, n, r)} :: r in s.lives ==> GrownAt(b, s, n, r)
  }

  /** It is active if it was or one of the first `n` reactions starts it. */
  ghost predicate ToldAt(b: Begun, s: Snap, n: nat, r: nat) {
    r in s.schedules && (r !in s.completed ==> (r in s.active <==> r in b.s.active || ToldBy(b.script, n, r)))
  }

  ghost predicate Told(b: Begun, s: Snap, n: nat) {
    forall r {:trigger ToldAt(b, s, n, r)} :: r in s.schedules ==> ToldAt(b, s, n, r)
  }

  ghost predicate HasTurn(trace: seq<Turn>, r: nat) {
    exists j :: 0 <= j < |trace| && trace[j].request == r
  }

  /** The active requests passed have been visited. */
  ghost predicate Seen(active: seq<nat>, upto: nat, trace: seq<Turn>) {
    upto <= |active| && forall k {:trigger HasTurn(trace, active[k])} :: 0 <= k < upto ==> HasTurn(trace, active[k])
  }

  /** Those not visited were started by the last callback. */
  ghost predicate LateFits(b: Begun, late: seq<nat>, trace: seq<Turn>) {
    late != [] ==> 1 <= |Answers(trace)| <= |b.script| && forall k :: 0 <= k < |late| ==> Start(late[k]) in b.script[|Answers(trace)| - 1].actions
  }

  /** What holds after some visits. */
  ghost predicate Underway(b: Begun, s: Snap, trace: seq<Turn>, served: nat, upto: nat, rest: seq<Reaction>) {
    && Sound(b.s) && Sound(s) && Grows(b.s.lives, s.lives)
    && TraceFits(b.s.active, trace, served) && SettledTo(s, upto, b.s.active, served)
    && Untouched(b.s.lives, s.lives, b.s.active, served)
    && ServedTo(b.s.schedules, b.s.lives, s.lives, b.complete, b.news, b.s.active, served)
    && TurnsFit(b, s.lives, trace, served) && Noted(b.s.active, s.completed, trace, served)
    && Recorded(b, s, trace, rest)
    && Grown(b, s, |Answers(trace)|) && Told(b, s, |Answers(trace)|) && Seen(s.active, upto, trace)
    && (Prompt(b.s) ==> Prompt(s))
  }

  ghost predicate NotedAt(todo: seq<nat>, completed: seq<nat>, trace: seq<Turn>, j: int) {
    0 <= j < |trace| && j < |todo| && (trace[j].completed <==> todo[j] in completed)
  }

  /** The requests completed are those whose visits completed them. */
  ghost predicate Noted(todo: seq<nat>, completed: seq<nat>, trace: seq<Turn>, served: nat) {
    served <= |trace| && served <= |todo| && forall j {:trigger NotedAt(todo, completed, trace, j)} :: 0 <= j < served ==> NotedAt(todo, completed, trace, j)
  }

  ghost predicate Recorded(b: Begun, s: Snap, trace: seq<Turn>, rest: seq<Reaction>) {
    && s.completed == b.s.completed + Completions(trace) && s.status == StatusAfter(b.s.status, trace)
    && AnswersFit(Answers(trace), b.script) && rest == RestOf(b.script, |Answers(trace)|)
  }

  /** What a whole pass has done. */
  ghost predicate PassDone(b: Begun, s: Snap, trace: seq<Turn>, late: nat) {
    && late <= |s.active| && Seen(s.active, |s.active| - late, trace) && LateFits(b, s.active[|s.active| - late..], trace)
    && (Prompt(b.s) ==> Prompt(s))
    && |b.s.active| <= |trace| && s.completed == b.s.completed + Completions(trace) && s.status == StatusAfter(b.s.status, trace)
    && AnswersFit(Answers(trace), b.script)
    && Grown(b, s, |Answers(trace)|) && Told(b, s, |Answers(trace)|)
    && forall j {:trigger Attended(b, s, trace[j], j)} :: 0 <= j < |b.s.active| ==> Attended(b, s, trace[j], j)
  }

  /** What it has done for a request that was active. */
  ghost predicate Attended(b: Begun, s: Snap, turn: Turn, j: nat)
    requires j < |b.s.active|
  {
    var r := b.s.active[j];
    && turn.request == r && TurnFits(b, s.lives, turn) && Served(b.s.schedules, b.s.lives, s.lives, Known(b.complete, b.news, j), r)
    && r in s.schedules && (r in s.completed <==> s.schedules[r] == [])
    && (r in s.completed ==> r in s.status && s.status[r] == (turn.called ==> turn.ok))
  }

  lemma ActiveKnown(s: Snap)
    requires Sound(s)
    ensures forall j :: 0 <= j < |s.active| ==> s.active[j] in s.schedules
  {
    forall j | 0 <= j < |s.active|
      ensures s.active[j] in s.schedules
    {
      assert ActiveFits(s.active, s.completed, s.schedules, j);
    }
  }

  lemma UnderwayFirst(b: Begun)
    requires Sound(b.s)
    ensures Underway(b, b.s, [], 0, 0, b.script)
  {
    GrowsRefl(b.s.lives);
    ActiveKnown(b.s);
    UntouchedAll(b.s.schedules, b.s.lives, b.s.done, b.s.active);
    forall r | r in b.s.lives
      ensures GrownAt(b, b.s, 0, r)
    {
    }
    forall r | r in b.s.schedules
      ensures ToldAt(b, b.s, 0, r)
    {
    }
  }

  lemma RecordedNext(b: Begun, s: Snap, t: Snap, trace: seq<Turn>, rest: seq<Reaction>, turn: Turn, rest': seq<Reaction>)
    requires Recorded(b, s, trace, rest) && rest' == RestAfter(turn.called, rest) && turn.ok == Succeeds(rest)
    requires t.completed == s.completed + (if turn.completed then [turn.request] else [])
    requires t.status == if turn.completed then s.status[turn.request := turn.called ==> turn.ok] else s.status
    ensures Recorded(b, t, trace + [turn], rest')
    ensures |Answers(trace + [turn])| == |Answers(trace)| + if turn.called then 1 else 0
  {
    assert (trace + [turn])[..|trace|] == trace;
    var n := |Answers(trace)|;
    assert n < |b.script| ==> rest != [] && rest[0] == b.script[n];
    assert n >= |b.script| ==> rest == [];
  }

  /** A request that only gained items stays settled. */
  lemma SettledOther(s: Snap, t: Snap, i: nat, upto: nat, r: nat)
    requires Sound(s) && Sound(t) && i <= |s.active| && SettledAt(s, i, r) && i <= upto <= |t.active| && s.active[..i] == t.active[..i]
    requires AppendedAt(s.lives, t.lives, r) && s.completed <= t.completed && (r in t.completed ==> r in s.completed)
    ensures SettledAt(t, upto, r)
  {
    assert RequestTracks(s.schedules, s.lives, s.done, r) && RequestTracks(t.schedules, t.lives, t.done, r);
    if r in s.completed {
      assert r in t.completed;
      CompletedIsEmpty(t.active, t.completed, t.schedules, r);
    } else {
      var k :| 0 <= k < i && s.active[k] == r;
      assert t.active[..i][k] == r && t.active[..upto][k] == r;
    }
  }

  /** Where the pass stands after a visit. */
  function PlaceAfter(i: nat, removed: bool): nat {
    if removed then i else i + 1
  }

  lemma SettledNext(b: Begun, s: Snap, t: Snap, served: nat, i: nat, complete: set<nat>, script: seq<Reaction>,
                    removed: bool, started: seq<nat>, script': seq<Reaction>)
    requires Sound(s) && Sound(t) && SettledTo(s, i, b.s.active, served) && Visited(s, t, i, complete, script, removed, started, script')
    requires served < |b.s.active| ==> s.active[i] == b.s.active[served]
    ensures SettledTo(t, PlaceAfter(i, removed), b.s.active, Following(b.s.active, served))
  {
    var todo, r, upto := b.s.active, s.active[i], PlaceAfter(i, removed);
    assert t.active[..i] == s.active[..i];
    forall j | 0 <= j < Following(todo, served)
      ensures SettledAt(t, upto, todo[j])
    {
      if j < served {
        assert SettledAt(s, i, todo[j]);
        SettledIsOther(s, i, todo[j]);
        assert AppendedAt(s.lives, t.lives, todo[j]);
        SettledOther(s, t, i, upto, todo[j]);
      } else if removed {
        assert t.completed[|t.completed| - 1] == r;
      } else {
        assert t.active[..i + 1][i] == r;
        VisitedNotCompleted(s, i);
      }
    }
  }

  lemma VisitedNotCompleted(s: Snap, i: nat)
    requires Sound(s) && i < |s.active|
    ensures s.active[i] !in s.completed
  {
    assert ActiveFits(s.active, s.completed, s.schedules, i);
  }

  lemma SettledIsOther(s: Snap, i: nat, r: nat)
    requires Sound(s) && i < |s.active| && SettledAt(s, i, r)
    ensures r != s.active[i] && r in s.lives
  {
    assert RequestTracks(s.schedules, s.lives, s.done, r);
    VisitedNotCompleted(s, i);
    if r !in s.completed {
      var k :| 0 <= k < i && s.active[..i][k] == r;
      DistinctAt(s.active, k, i);
    }
  }

  lemma TurnFitsNow(b: Begun, s: Snap, t: Snap, served: nat, now: set<nat>, turn: Turn, r: nat)
    requires Sound(b.s) && Sound(s) && Untouched(b.s.lives, s.lives, b.s.active, served) && served < |b.s.active| && r == b.s.active[served]
    requires r in s.schedules && OnlyMoved(s.lives, t.lives, r, if Due(s.schedules[r], now) then 1 else 0)
    requires r in t.lives && s.lives[r].items <= t.lives[r].items
    requires turn.request == r && turn.called == CallDue(s.schedules[r], now)
    ensures TurnFits(b, t.lives, turn)
  {
    assert AppendedAt(b.s.lives, s.lives, r);
    assert RequestTracks(b.s.schedules, b.s.lives, b.s.done, r) && RequestTracks(s.schedules, s.lives, s.done, r);
  }

  lemma TurnFitsStill(b: Begun, s: Snap, t: Snap, turn: Turn)
    requires TurnFits(b, s.lives, turn) && AppendedAt(s.lives, t.lives, turn.request)
    ensures TurnFits(b, t.lives, turn)
  {
  }

  lemma TurnsFitNext(b: Begun, s: Snap, t: Snap, trace: seq<Turn>, served: nat, i: nat, now: set<nat>, script: seq<Reaction>,
                     removed: bool, started: seq<nat>, script': seq<Reaction>, turn: Turn)
    requires Sound(b.s) && Sound(s) && Visited(s, t, i, now, script, removed, started, script')
    requires TraceFits(b.s.active, trace, served) && TurnsFit(b, s.lives, trace, served) && SettledTo(s, i, b.s.active, served)
    requires Untouched(b.s.lives, s.lives, b.s.active, served)
    requires served < |b.s.active| ==> s.active[i] == b.s.active[served]
    requires turn.request == s.active[i] && turn.called == CallDue(s.schedules[s.active[i]], now)
    ensures TraceFits(b.s.active, trace + [turn], Following(b.s.active, served))
    ensures TurnsFit(b, t.lives, trace + [turn], Following(b.s.active, served))
  {
    forall j | 0 <= j < Following(b.s.active, served)
      ensures TurnFits(b, t.lives, (trace + [turn])[j])
    {
      if j < served {
        assert SettledAt(s, i, b.s.active[j]);
        SettledIsOther(s, i, b.s.active[j]);
        assert AppendedAt(s.lives, t.lives, trace[j].request);
        TurnFitsStill(b, s, t, trace[j]);
      } else {
        assert RequestTracks(s.schedules, s.lives, s.done, turn.request);
        assert ItemsAt(Reacts(turn.called, script), s.lives, t.lives, s.completed, turn.request);
        TurnFitsNow(b, s, t, served, now, turn, turn.request);
      }
    }
  }

  lemma NotedNext(b: Begun, s: Snap, t: Snap, trace: seq<Turn>, served: nat, i: nat, removed: bool, turn: Turn)
    requires Sound(s) && i < |s.active| && TraceFits(b.s.active, trace, served)
    requires Noted(b.s.active, s.completed, trace, served) && SettledTo(s, i, b.s.active, served)
    requires served < |b.s.active| ==> s.active[i] == b.s.active[served]
    requires turn.completed == removed && t.completed == s.completed + if removed then [s.active[i]] else []
    ensures Noted(b.s.active, t.completed, trace + [turn], Following(b.s.active, served))
  {
    VisitedNotCompleted(s, i);
    forall j | 0 <= j < Following(b.s.active, served)
      ensures NotedAt(b.s.active, t.completed, trace + [turn], j)
    {
      if j < served {
        assert NotedAt(b.s.active, s.completed, trace, j);
        assert SettledAt(s, i, b.s.active[j]);
        SettledIsOther(s, i, b.s.active[j]);
        assert b.s.active[j] in t.completed <==> b.s.active[j] in s.completed;
      }
    }
  }

  lemma GrownNext(b: Begun, s: Snap, t: Snap, n: nat, called: bool, rest: seq<Reaction>)
    requires Grown(b, s, n) && rest == RestOf(b.script, n) && ItemsGrow(Reacts(called, rest), s.lives, t.lives, s.completed)
    requires s.completed <= t.completed
    ensures Grown(b, t, if called then n + 1 else n)
  {
    var n' := if called then n + 1 else n;
    forall r | r in t.lives
      ensures GrownAt(b, t, n', r)
    {
      assert GrownAt(b, s, n, r) && ItemsAt(Reacts(called, rest), s.lives, t.lives, s.completed, r);
      assert r in s.completed ==> r in t.completed;
    }
  }

  lemma KeepsMember(s: seq<nat>, i: nat, r: nat)
    requires i < |s| && r != s[i]
    ensures r in RemoveAt(s, i) <==> r in s
  {
    if r in s {
      var k :| 0 <= k < |s| && s[k] == r;
      assert RemoveAt(s, i)[if k < i then k else k - 1] == r;
    }
  }

  lemma ToldNext(b: Begun, s: Snap, t: Snap, n: nat, i: nat, now: set<nat>, rest: seq<Reaction>,
                 removed: bool, started: seq<nat>, rest': seq<Reaction>, called: bool)
    requires Told(b, s, n) && rest == RestOf(b.script, n) && Visited(s, t, i, now, rest, removed, started, rest')
    requires called == CallDue(s.schedules[s.active[i]], now)
    ensures Told(b, t, if called then n + 1 else n)
  {
    var n', v := if called then n + 1 else n, s.active[i];
    var before, actions := s.schedules[v := AfterWork(s.schedules[v], now)], Reacts(called, rest);
    assert before.Keys == s.schedules.Keys;
    forall r | r in t.schedules
      ensures ToldAt(b, t, n', r)
    {
      assert ToldAt(b, s, n, r) && StartedAt(actions, before, s.active, s.active + started, s.completed, r);
      if removed && r == v {
        assert t.completed[|t.completed| - 1] == r;
      } else if removed {
        KeepsMember(s.active, i, r);
      }
      assert r in s.completed ==> r in t.completed;
    }
  }

  /** A visit keeps all that. */
  lemma UnderwayNext(b: Begun, s: Snap, t: Snap, trace: seq<Turn>, served: nat, i: nat, now: set<nat>, rest: seq<Reaction>,
                     removed: bool, started: seq<nat>, rest': seq<Reaction>) returns (trace': seq<Turn>, served': nat, upto: nat)
    requires Underway(b, s, trace, served, i, rest) && Sound(t) && Grows(b.s.lives, t.lives) && now == Known(b.complete, b.news, |trace|)
    requires Visited(s, t, i, now, rest, removed, started, rest')
    requires served < |b.s.active| ==> s.active[i] == b.s.active[served]
    ensures Underway(b, t, trace', served', upto, rest')
    ensures served' == Following(b.s.active, served) && upto == PlaceAfter(i, removed)
    ensures |trace'| == |trace| + 1 && trace'[..|trace|] == trace && trace'[|trace|].called == CallDue(s.schedules[s.active[i]], now)
  {
    var r := s.active[i];
    var called := CallDue(s.schedules[r], now);
    var turn := Turn(r, called, Succeeds(rest), removed);
    trace', served', upto := trace + [turn], Following(b.s.active, served), PlaceAfter(i, removed);
    RecordedNext(b, s, t, trace, rest, turn, rest');
    SettledNext(b, s, t, served, i, now, rest, removed, started, rest');
    TurnsFitNext(b, s, t, trace, served, i, now, rest, removed, started, rest', turn);
    GrownNext(b, s, t, |Answers(trace)|, called, rest);
    ToldNext(b, s, t, |Answers(trace)|, i, now, rest, removed, started, rest', called);
    NoneAgain(b, s, served, i);
    ServedNext(b, s, t, served, r, now);
    NotedNext(b, s, t, trace, served, i, removed, turn);
    SeenNext(s.active, t.active, i, removed, started, trace, turn);
    if Prompt(b.s) {
      PromptNext(s, t, i, now, rest, removed, started, rest');
    }
  }

  lemma SeenNext(active: seq<nat>, active': seq<nat>, i: nat, removed: bool, started: seq<nat>, trace: seq<Turn>, turn: Turn)
    requires i < |active| && Seen(active, i, trace) && turn.request == active[i]
    requires active' == (if removed then RemoveAt(active, i) else active) + started
    ensures Seen(active', PlaceAfter(i, removed), trace + [turn])
  {
    forall k | 0 <= k < PlaceAfter(i, removed)
      ensures HasTurn(trace + [turn], active'[k])
    {
      if k < i {
        assert HasTurn(trace, active[k]);
        var j :| 0 <= j < |trace| && trace[j].request == active[k];
        assert (trace + [turn])[j].request == active'[k];
      } else {
        assert (trace + [turn])[|trace|].request == active'[k];
      }
    }
  }

  /** Behind the last request there is only what its callback has started. */
  lemma LateLast(b: Begun, s: Snap, t: Snap, trace: seq<Turn>, i: nat, now: set<nat>, rest: seq<Reaction>,
                 removed: bool, started: seq<nat>, rest': seq<Reaction>)
    requires Sound(t) && Visited(s, t, i, now, rest, removed, started, rest') && i + 1 == |s.active| && trace != []
    requires var n, last := |Answers(trace)|, trace[|trace| - 1];
             && last.called == CallDue(s.schedules[s.active[i]], now) && rest == RestOf(b.script, |Answers(trace[..|trace| - 1])|)
    ensures PlaceAfter(i, removed) <= |t.active| && LateFits(b, t.active[PlaceAfter(i, removed)..], trace)
  {
    var late := t.active[PlaceAfter(i, removed)..];
    assert late == started;
    var v, called := s.active[i], CallDue(s.schedules[s.active[i]], now);
    if started != [] {
      assert rest != [] && called && rest[0] == b.script[|Answers(trace)| - 1];
      var before := s.schedules[v := AfterWork(s.schedules[v], now)];
      forall k | 0 <= k < |started|
        ensures Start(started[k]) in rest[0].actions
      {
        assert StartedAt(rest[0].actions, before, s.active, s.active + started, s.completed, started[k]);
        assert (s.active + started)[|s.active| + k] == started[k];
        StartedIsNew(s, t, i, removed, started, k);
      }
    }
  }

  lemma StartedIsNew(s: Snap, t: Snap, i: nat, removed: bool, started: seq<nat>, k: nat)
    requires Sound(t) && i < |s.active| && k < |started|
    requires t.active == (if removed then RemoveAt(s.active, i) else s.active) + started
    requires t.completed == s.completed + if removed then [s.active[i]] else []
    ensures started[k] !in s.active
  {
    var front := if removed then RemoveAt(s.active, i) else s.active;
    VisitedNotCompleted(t, |front| + k);
    assert t.active[|front| + k] == started[k];
    forall j | 0 <= j < |front|
      ensures front[j] != started[k]
    {
      DistinctAt(t.active, j, |front| + k);
    }
    if removed {
      assert t.completed[|t.completed| - 1] == s.active[i];
      KeepsMember(s.active, i, started[k]);
    }
  }

  /** A request with some items finished and none left is completed. */
  ghost predicate PromptAt(s: Snap, r: nat) {
    r in s.schedules && r in s.lives && (s.schedules[r] == [] && s.lives[r].finished > 0 ==> r in s.completed)
  }

  ghost predicate Prompt(s: Snap) {
    forall r {:trigger PromptAt(s, r)} :: r in s.schedules ==> PromptAt(s, r)
  }

  lemma PromptNew(s: Snap, t: Snap, r: nat)
    requires t.schedules == s.schedules[r := []] && t.lives == s.lives[r := UNBORN] && t.completed == s.completed
    ensures Prompt(s) ==> Prompt(t)
  {
    if Prompt(s) {
      forall k | k in t.schedules
        ensures PromptAt(t, k)
      {
        assert k != r ==> PromptAt(s, k);
      }
    }
  }

  /** Appending to a request or starting it finishes nothing. */
  lemma PromptOther(s: Snap, t: Snap, r: nat)
    requires r in s.schedules && r in s.lives && r in t.schedules && r in t.lives && t.completed == s.completed
    requires t.schedules == s.schedules[r := t.schedules[r]] && t.lives == s.lives[r := t.lives[r]]
    requires (t.schedules[r] == [] ==> s.schedules[r] == []) && t.lives[r].finished == s.lives[r].finished
    ensures Prompt(s) ==> Prompt(t)
  {
    if Prompt(s) {
      forall k | k in t.schedules
        ensures PromptAt(t, k)
      {
        assert PromptAt(s, k);
      }
    }
  }

  lemma PromptNext(s: Snap, t: Snap, i: nat, now: set<nat>, rest: seq<Reaction>, removed: bool, started: seq<nat>, rest': seq<Reaction>)
    requires Sound(s) && Sound(t) && Prompt(s) && Visited(s, t, i, now, rest, removed, started, rest')
    ensures Prompt(t)
  {
    forall r | r in t.schedules
      ensures PromptAt(t, r)
    {
      assert RequestTracks(t.schedules, t.lives, t.done, r);
      if r == s.active[i] {
        assert removed ==> t.completed[|t.completed| - 1] == r;
      } else {
        assert AppendedAt(s.lives, t.lives, r) && RequestTracks(s.schedules, s.lives, s.done, r) && PromptAt(s, r);
        assert r in s.completed ==> r in t.completed;
      }
    }
  }

  /** Once all requests of the pass have been visited, none of them is visited again. */
  lemma NoneAgain(b: Begun, s: Snap, served: nat, i: nat)
    requires Sound(s) && i < |s.active| && SettledTo(s, i, b.s.active, served)
    ensures served == |b.s.active| ==> s.active[i] !in b.s.active
  {
    if served == |b.s.active| && s.active[i] in b.s.active {
      var j :| 0 <= j < |b.s.active| && b.s.active[j] == s.active[i];
      assert SettledAt(s, i, b.s.active[j]);
      SettledIsOther(s, i, b.s.active[j]);
    }
  }

  lemma ServedNext(b: Begun, s: Snap, t: Snap, served: nat, r: nat, now: set<nat>)
    requires Sound(b.s) && Sound(s) && r in s.schedules && served <= |b.s.active|
    requires Untouched(b.s.lives, s.lives, b.s.active, served)
    requires ServedTo(b.s.schedules, b.s.lives, s.lives, b.complete, b.news, b.s.active, served)
    requires OnlyMoved(s.lives, t.lives, r, if Due(s.schedules[r], now) then 1 else 0)
    requires served == |b.s.active| ==> r !in b.s.active
    requires served < |b.s.active| ==> r == b.s.active[served] && now == Known(b.complete, b.news, served)
    ensures Untouched(b.s.lives, t.lives, b.s.active, Following(b.s.active, served))
    ensures ServedTo(b.s.schedules, b.s.lives, t.lives, b.complete, b.news, b.s.active, Following(b.s.active, served))
  {
    ActiveKnown(b.s);
    UntouchedAll(b.s.schedules, b.s.lives, b.s.done, b.s.active);
    if served < |b.s.active| {
      StillDue(b.s.schedules, b.s.lives, s.schedules, s.lives, s.done, now, b.s.active, served);
    }
    MoveOn(b.s.schedules, b.s.lives, s.lives, t.lives, b.complete, b.news, b.s.active, served, r, if Due(s.schedules[r], now) then 1 else 0);
  }

  lemma {:induction false} CompletionOf(trace: seq<Turn>, status: map<nat, bool>, j: nat)
    requires j < |trace| && trace[j].completed && Distinct(Completions(trace))
    ensures trace[j].request in Completions(trace)
    ensures var r := trace[j].request; r in StatusAfter(status, trace) && StatusAfter(status, trace)[r] == (trace[j].called ==> trace[j].ok)
  {
    var n := |trace| - 1;
    var front := trace[..n];
    assert Completions(front) == Completions(trace)[0..|Completions(front)|];
    DistinctPart(Completions(trace), Completions(front), 0);
    if j < n {
      CompletionOf(front, status, j);
      var i :| 0 <= i < |Completions(front)| && Completions(front)[i] == trace[j].request;
      assert Completions(trace)[i] == trace[j].request;
      if trace[n].completed {
        assert Completions(trace)[|Completions(front)|] == trace[n].request;
        DistinctAt(Completions(trace), i, |Completions(front)|);
      }
    } else {
      assert Completions(trace)[|Completions(front)|] == trace[n].request;
    }
  }

  /** Once all have been visited the pass is done. */
  lemma PassEnds(b: Begun, s: Snap, trace: seq<Turn>, served: nat, upto: nat, rest: seq<Reaction>)
    requires Underway(b, s, trace, served, upto, rest) && served == |b.s.active|
    requires LateFits(b, s.active[upto..], trace)
    ensures PassDone(b, s, trace, |s.active| - upto)
  {
    var n := |b.s.completed|;
    assert Completions(trace) == s.completed[n..n + |Completions(trace)|];
    DistinctPart(s.completed, Completions(trace), n);
    forall j | 0 <= j < |b.s.active|
      ensures Attended(b, s, trace[j], j)
    {
      assert SettledAt(s, upto, b.s.active[j]) && NotedAt(b.s.active, s.completed, trace, j) && TurnFits(b, s.lives, trace[j]);
      assert Served(b.s.schedules, b.s.lives, s.lives, Known(b.complete, b.news, j), b.s.active[j]);
      if trace[j].completed {
        CompletionOf(trace, b.s.status, j);
      }
    }
  }
}
