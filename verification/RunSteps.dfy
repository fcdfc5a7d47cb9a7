/** The first and the last steps of a run: filling the schedule, enqueueing the first target, and
    telling when all jobs are done. */
module RunSteps {
  import opened Sequences
  import opened Wrappers
  import opened Jobs
  import opened SchedulerState
  import opened Dependencies
  import opened SchedulerSteps
  import opened PollSteps
  import opened DispatchSteps

  // ----- add_to_scheduled -----

  /** Adds an item to the list of its target and configuration, unless it is there already. */
  function Schedule1(s: Schedule, x: Item): Schedule {
    var list := SlotAt(s, x.target, x.cfg);
    var cfgs := if x.target in s then s[x.target] else map[];
    s[x.target := cfgs[x.cfg := if x in list then list else list + [x]]]
  }

  lemma Schedule1Slots(s: Schedule, x: Item, t: Target, c: Cfg)
    ensures SlotAt(Schedule1(s, x), t, c) ==
            if t == x.target && c == x.cfg && x !in SlotAt(s, t, c) then SlotAt(s, t, c) + [x] else SlotAt(s, t, c)
  {
  }

  lemma Schedule1Holds(s: Schedule, own: set<Item>, x: Item)
    requires ScheduleHolds(s, own)
    ensures ScheduleHolds(Schedule1(s, x), own + {x})
  {
    var s' := Schedule1(s, x);
    forall t, c
      ensures SlotAt(s', t, c) ==
              if t == x.target && c == x.cfg && x !in SlotAt(s, t, c) then SlotAt(s, t, c) + [x] else SlotAt(s, t, c)
    {
      Schedule1Slots(s, x, t, c);
    }
    forall t, c | t in s' && c in s'[t]
      ensures s'[t][c] != []
    {
      if t == x.target && c == x.cfg {
        assert x in s'[t][c];
      } else {
        assert t in s && c in s[t];
      }
    }
  }

  lemma Schedule1InOrder(items: seq<Item>, s: Schedule, n: nat)
    requires n < |items| && ScheduleHolds(s, Members(items[..n])) && SlotsInOrder(items[..n], s)
    ensures SlotsInOrder(items[..n + 1], Schedule1(s, items[n]))
  {
    hide InOrder, Schedule1, SlotAt;
    var (init, x) := (items[..n], items[n]);
    assert items[..n + 1] == init + [x];
    forall t, c
      ensures InOrder(init + [x], SlotAt(Schedule1(s, x), t, c))
    {
      Schedule1Slots(s, x, t, c);
      assert x in SlotAt(s, x.target, x.cfg) <==> x in Members(init);
      InOrderMore(init, SlotAt(s, t, c), x);
    }
  }

  /** The body of the loop of `add_to_scheduled`. */
  method AddItem(schedule: Schedule, item: Item) returns (scheduled: Schedule)
    ensures scheduled == Schedule1(schedule, item)
  {
    scheduled := schedule;
    if item.target !in scheduled {
      scheduled := scheduled[item.target := map[]];
    }
    var targetDict := scheduled[item.target];
    ghost var cfgs, list := targetDict, if item.cfg in targetDict then targetDict[item.cfg] else [];
    if item.cfg !in targetDict {
      targetDict := targetDict[item.cfg := []];
    }
    if item !in targetDict[item.cfg] {
      targetDict := targetDict[item.cfg := targetDict[item.cfg] + [item]];
    }
    assert targetDict == cfgs[item.cfg := if item in list then list else list + [item]];
    scheduled := scheduled[item.target := targetDict];
    assert scheduled == Schedule1(schedule, item);
  }

  /** `add_to_scheduled`, from the empty schedule; `targets` are its keys in insertion order. */
  method AddToScheduled(items: seq<Item>) returns (scheduled: Schedule, targets: seq<Target>)
    ensures ScheduleHolds(scheduled, Members(items)) && SlotsInOrder(items, scheduled)
    ensures targets == TargetsOf(items) && forall t :: t in scheduled <==> t in targets
  {
    hide ScheduleHolds, SlotAt, SlotsInOrder;
    scheduled, targets := map[], [];
    NothingScheduled();
    assert items[..0] == [];
    for n := 0 to |items|
      invariant ScheduleHolds(scheduled, Members(items[..n])) && SlotsInOrder(items[..n], scheduled)
      invariant targets == TargetsOf(items[..n]) && forall t :: t in scheduled <==> t in targets
    {
      var item := items[n];
      assert items[..n + 1][..n] == items[..n];
      Schedule1Holds(scheduled, Members(items[..n]), item);
      Schedule1InOrder(items, scheduled, n);
      assert Members(items[..n + 1]) == Members(items[..n]) + {item} by {
        assert items[..n + 1] == items[..n] + [item];
      }
      if item.target !in scheduled {
        targets := targets + [item.target];
      }
      scheduled := AddItem(scheduled, item);
    }
    assert items[..|items|] == items;
  }

  lemma NothingScheduled()
    ensures ScheduleHolds(map[], Members([])) && SlotsInOrder([], map[])
  {
    assert Members<Item>([]) == {};
  }

  // ----- the start of a run -----

  ghost function OfTarget(own: set<Item>, t: Target): set<Item> {
    set i | i in own && i.target == t
  }

  lemma TargetElements(s: Schedule, own: set<Item>, t: Target)
    requires ScheduleHolds(s, own) && t in s
    ensures Elements(s[t]) == OfTarget(own, t) && Separate(s[t])
  {
    forall c | c in s[t]
      ensures s[t][c] == SlotAt(s, t, c)
    {
    }
    forall i | i in OfTarget(own, t)
      ensures i in Elements(s[t])
    {
      assert i in SlotAt(s, t, i.cfg);
    }
    forall c, i | c in s[t] && i in s[t][c]
      ensures i in OfTarget(own, t) && i.cfg == c
    {
      assert i in SlotAt(s, t, c);
    }
    assert forall c :: c in s[t] ==> Distinct(SlotAt(s, t, c));
    forall c, d, i | c in s[t] && d in s[t] && c != d && i in s[t][c]
      ensures i !in s[t][d]
    {
      assert i.cfg == c;
    }
  }

  /** Every dictionary has an entry for every target, and nothing has happened yet. */
  function Blank(scheduled: Schedule, targets: seq<Target>): State {
    var lists := map t | t in targets :: [];
    var groups := map t | t in targets :: {};
    State(scheduled, lists, lists, groups, groups, groups, map[])
  }

  lemma BlankGood(items: seq<Item>, scheduled: Schedule)
    requires ScheduleHolds(scheduled, Members(items)) && SlotsInOrder(items, scheduled)
    requires forall t :: t in TargetsOf(items) ==> t in scheduled
    ensures Good(items, Blank(scheduled, TargetsOf(items)), {}, {})
    ensures HasKeys(TargetsOf(items), Blank(scheduled, TargetsOf(items)))
  {
    hide ListsHold, GroupsHold, ScheduleHolds, SlotsInOrder, TargetsOf, WithStatus, Unseen, Members;
    NoStatus(items);
    NoLists(TargetsOf(items));
    ghost var none: set<Item> := {};
    assert none - none == none;
  }

  lemma NoLists(targets: seq<Target>)
    ensures ListsHold(map t | t in targets :: [], {}) && GroupsHold(map t | t in targets :: {}, {})
  {
    var l: Lists := map t | t in targets :: [];
    var g: Groups := map t | t in targets :: {};
    assert forall t :: ListAt(l, t) == [] && GroupAt(g, t) == {};
  }

  lemma NoStatus(items: seq<Item>)
    ensures Unseen(items, map[]) == Members(items)
    ensures forall s :: WithStatus(map[], s) == {}
  {
  }

  /** At the start the lists of a target hold all its items, by configuration. */
  lemma FirstSlots(items: seq<Item>, st: State, t: Target)
    requires Partition(items, st, {}) && st.status == map[]
    ensures forall c :: Distinct(SlotAt(st.scheduled, t, c))
    ensures forall c, i :: i in SlotAt(st.scheduled, t, c) <==> i in items && i.target == t && i.cfg == c
    ensures forall i :: i in items && i.target == t ==> t in st.scheduled && i.cfg in st.scheduled[t]
  {
    forall c, i
      ensures i in SlotAt(st.scheduled, t, c) <==> i in items && i.target == t && i.cfg == c
    {
      SlotMember(items, st, {}, t, c, i);
    }
  }

  lemma DistinctJoin<T(!new)>(a: seq<T>, b: seq<T>)
    requires Distinct(a) && Distinct(b) && forall x :: x in a ==> x !in b
    ensures Distinct(a + b)
  {
    assert forall n :: 0 <= n < |a| ==> (a + b)[n] in a;
    assert forall n :: |a| <= n < |a + b| ==> (a + b)[n] in b;
  }

  /** The items of one configuration come together, in the order in which they were given. */
  ghost predicate ByConfiguration(items: seq<Item>, xs: seq<Item>) {
    && (forall a, b :: 0 <= a < b < |xs| && xs[a].cfg == xs[b].cfg ==> IndexOf(items, xs[a]) < IndexOf(items, xs[b]))
    && (forall a, b, c :: 0 <= a < b < c < |xs| && xs[a].cfg == xs[c].cfg ==> xs[b].cfg == xs[a].cfg)
  }

  lemma NoConfiguration(items: seq<Item>)
    ensures ByConfiguration(items, [])
  {
  }

  lemma NextConfiguration(items: seq<Item>, xs: seq<Item>, list: seq<Item>, c: Cfg)
    requires ByConfiguration(items, xs) && InOrder(items, list)
    requires (forall i :: i in xs ==> i.cfg != c) && (forall i :: i in list ==> i.cfg == c)
    ensures ByConfiguration(items, xs + list)
  {
    hide IndexOf;
    assert forall n :: 0 <= n < |xs| ==> (xs + list)[n] in xs;
    assert forall n :: |xs| <= n < |xs + list| ==> (xs + list)[n] in list && (xs + list)[n] == list[n - |xs|];
  }

  /** The first items enqueued are alone in their queue, and the others are empty. */
  lemma FirstQueues(items: seq<Item>, st: State, xs: seq<Item>, u: Target)
    requires Partition(items, st, {}) && st.status == map[] && forall i :: i in xs ==> i.target == u
    ensures forall t :: ListAt(EnqueueAll(st, xs).queued, t) == if t == u then xs else []
  {
    hide EnqueueAll, Partition, ListAt;
    EnqueueAllQueues(st, xs, u);
    forall t
      ensures ListAt(st.queued, t) == []
    {
      if ListAt(st.queued, t) != [] {
        HeadOfQueue(items, st, {}, t, ListAt(st.queued, t));
      }
    }
    assert [] + xs == xs;
  }

  lemma InOrderSlots(items: seq<Item>, st: State, limbo: set<Item>, t: Target, c: Cfg)
    requires Partition(items, st, limbo)
    ensures InOrder(items, SlotAt(st.scheduled, t, c))
  {
    hide InOrder, SlotAt, ListsHold, GroupsHold, ScheduleHolds;
  }

  /** At the start of a run exactly the items of the first target are ready. */
  lemma FirstReady(items: seq<Item>, i: Item)
    requires WellFormed(items) && i in items && TargetsOf(items) != []
    ensures Ready(items, map[], i) <==> i.target == TargetsOf(items)[0]
  {
    hide TargetsOf, Pos, EarlierHaveDependents;
    TargetKnown(items, i);
    DistinctTargets(items);
    PosAt(TargetsOf(items), 0);
    if i.target == TargetsOf(items)[0] {
      assert forall d :: !DependsOn(items, i, d);
    } else {
      assert Pos(TargetsOf(items), i.target) > 0;
      var d :| DependsOn(items, i, d);
      assert !Complete(map[], d);
    }
  }

  /** Enqueueing all items of the first target leaves no item orphaned. */
  lemma FirstStep(items: seq<Item>, st: State, xs: seq<Item>)
    requires WellFormed(items) && TargetsOf(items) != [] && Distinct(xs)
    requires Good(items, st, {}, {}) && st.status == map[]
    requires forall i :: i in xs <==> i in items && i.target == TargetsOf(items)[0]
    ensures Good(items, EnqueueAll(st, xs), {}, {})
    ensures NoOrphan(items, EnqueueAll(st, xs).status, {})
    ensures forall i :: !Complete(EnqueueAll(st, xs).status, i)
  {
    hide Partition, WellFormed, TargetsOf, Ready;
    var st' := EnqueueAll(st, xs);
    forall i | i in items
      ensures Ready(items, map[], i) <==> i in xs
    {
      FirstReady(items, i);
    }
    EnqueueAllKeeps(items, st, {}, xs);
    hide EnqueueAll;
    QueueingKeeps(items, st.status, st'.status, Members(xs));
    forall i | i in items && i !in st'.status
      ensures !Ready(items, st'.status, i)
    {
      assert Ready(items, st'.status, i) <==> Ready(items, st.status, i);
    }
    LaunchesPersist(items, st.status, st'.status, {});
  }

  // ----- the end of a run -----

  /** The number of items of a target. */
  ghost predicate Totals(items: seq<Item>, targets: seq<Target>, total: map<Target, nat>) {
    forall t :: t in targets ==> t in total && total[t] == |OfTarget(Members(items), t)|
  }

  lemma NoTotals(items: seq<Item>, targets: seq<Target>)
    ensures Totals(items, targets[..0], map[])
  {
  }

  lemma MoreTotals(items: seq<Item>, targets: seq<Target>, n: nat, total: map<Target, nat>, count: nat)
    requires n < |targets| && Totals(items, targets[..n], total)
    requires count == |OfTarget(Members(items), targets[n])|
    ensures Totals(items, targets[..n + 1], total[targets[n] := count])
  {
    hide OfTarget;
    assert targets[..n + 1] == targets[..n] + [targets[n]];
  }

  lemma NoneFaithful(items: seq<Item>, outcome: StatusMap, status: StatusMap)
    requires forall i :: !Complete(status, i)
    ensures Faithful(items, outcome, status)
  {
  }

  /** As many items of a target are filed as it has in all exactly when all are complete. */
  lemma DoneCount(items: seq<Item>, st: State, limbo: set<Item>, t: Target)
    requires Partition(items, st, limbo)
    ensures var done := |GroupAt(st.passed, t)| + |GroupAt(st.failed, t)| + |GroupAt(st.killed, t)|;
            done == |OfTarget(Members(items), t)| <==>
                forall i :: i in items && i.target == t ==> Complete(st.status, i)
  {
    var p, f, k := GroupAt(st.passed, t), GroupAt(st.failed, t), GroupAt(st.killed, t);
    var all := OfTarget(Members(items), t);
    InGroup(st.passed, st.status, P, t);
    InGroup(st.failed, st.status, F, t);
    InGroup(st.killed, st.status, K, t);
    assert forall i :: i in st.status ==> i in items;
    hide *;
    ThreeGroups(items, st.status, t, p, f, k);
  }

  lemma ThreeGroups(items: seq<Item>, status: StatusMap, t: Target, p: set<Item>, f: set<Item>, k: set<Item>)
    requires forall i :: i in status ==> i in items
    requires forall i :: i in p <==> i in status && status[i] == P && i.target == t
    requires forall i :: i in f <==> i in status && status[i] == F && i.target == t
    requires forall i :: i in k <==> i in status && status[i] == K && i.target == t
    ensures |p| + |f| + |k| == |OfTarget(Members(items), t)| <==>
            forall i :: i in items && i.target == t ==> Complete(status, i)
  {
    var all := OfTarget(Members(items), t);
    assert forall i :: i in p + f + k <==> i in all && Complete(status, i);
    assert |p + f + k| == |p + f| + |k| && |p + f| == |p| + |f|;
    SameSize(p + f + k, all);
    assert forall i :: i in all <==> i in items && i.target == t;
  }

  lemma SameSize<T>(part: set<T>, all: set<T>)
    requires part <= all
    ensures |part| == |all| <==> part == all
  {
    assert all == part + (all - part);
    if |part| == |all| {
      assert all - part == {};
    }
  }

  lemma InGroup(g: Groups, status: StatusMap, s: Status, t: Target)
    requires GroupsHold(g, WithStatus(status, s))
    ensures forall i :: i in GroupAt(g, t) <==> i in status && status[i] == s && i.target == t
  {
    forall i
      ensures i in GroupAt(g, t) <==> i in status && status[i] == s && i.target == t
    {
      assert i in GroupAt(g, t) ==> i.target == t;
      assert i in WithStatus(status, s) <==> i in GroupAt(g, i.target);
    }
  }

  // ----- what the steps of a round give -----

  /** Nothing is queued or running, and every item is complete. */
  ghost predicate Quiet(items: seq<Item>, targets: seq<Target>, st: State) {
    && |Elements(st.running)| == 0 && !AnyQueued(targets, st.queued)
    && forall i :: i in items ==> Complete(st.status, i)
  }

  lemma QuietGives(items: seq<Item>, targets: seq<Target>, st: State)
    ensures Quiet(items, targets, st) ==> |Elements(st.running)| == 0 && !AnyQueued(targets, st.queued)
    ensures Quiet(items, targets, st) ==> forall i :: i in items ==> Complete(st.status, i)
  {
  }

  lemma NothingActive(items: seq<Item>, targets: seq<Target>, st: State)
    requires forall t :: ListAt(st.queued, t) == [] && ListAt(st.running, t) == []
    requires forall i :: i in items ==> Complete(st.status, i)
    ensures Quiet(items, targets, st)
  {
    hide Complete;
    forall t | t in st.running
      ensures st.running[t] == []
    {
      assert ListAt(st.running, t) == [];
    }
    assert Elements(st.running) == {};
  }

  /** The poll history stays right, and no work is added, as statuses advance. */
  lemma Onward(items: seq<Item>, outcome: StatusMap, targets: seq<Target>, lastTarget: int, lastItem: map<Target, int>,
               delay: map<Item, nat>, trace: seq<(Item, Status)>, s0: StatusMap, s1: StatusMap)
    requires PollOk(items, outcome, targets, lastTarget, lastItem, delay, trace, s0)
    requires Advances(s0, s1) && NoNewResults(s0, s1)
    ensures PollOk(items, outcome, targets, lastTarget, lastItem, delay, trace, s1)
    ensures Work(items, s1) <= Work(items, s0)
  {
    WorkFalls(items, s0, s1);
    HistoryStays(outcome, trace, s0, s1);
  }

  lemma ProgressGives(items: seq<Item>, outcome: StatusMap, s0: State, s1: State, r0: nat, r1: nat, n: nat)
    requires Progress(items, outcome, s0, s1, r0, r1, n)
    ensures r1 + n <= r0 && Advances(s0.status, s1.status)
    ensures Faithful(items, outcome, s0.status) ==> Faithful(items, outcome, s1.status)
  {
  }

  lemma FirstElement(l: Lists, t: Target)
    ensures ListAt(l, t) != [] ==> ListAt(l, t)[0] in Elements(l)
  {
    if t in l && l[t] != [] {
      assert l[t][0] in l[t];
    }
  }

  /** When nothing is queued and nothing is running, every item has finished. */
  lemma IdleIsDone(items: seq<Item>, st: State, limbo: set<Item>, launched: set<Item>)
    requires Good(items, st, {}, launched) && NoOrphan(items, st.status, {})
    requires |Elements(st.running)| == 0 && !AnyQueued(TargetsOf(items), st.queued)
    ensures forall i :: i in items ==> Complete(st.status, i)
  {
    hide Partition, DepsDone, LaunchesSafe, TargetsOf, NoOrphan;
    forall t
      ensures ListAt(st.queued, t) == [] && ListAt(st.running, t) == []
    {
      if t !in TargetsOf(items) {
        StrayLists(items, st, {}, t);
      }
      FirstElement(st.running, t);
    }
    AllOver(items, st);
  }

  /** What can be read off the results of a finished run. */
  lemma Results(items: seq<Item>, outcome: StatusMap, st: State, launched: set<Item>)
    requires Good(items, st, {}, launched) && forall i :: i in items ==> Complete(st.status, i)
    ensures st.status.Keys == Members(items)
    ensures forall i :: i in st.status ==> Finished(st.status[i])
    ensures LaunchesSafe(items, st.status, launched)
    ensures Faithful(items, outcome, st.status) ==> forall i :: i in items ==> st.status[i] == Final(items, outcome, i)
  {
    hide Final, DepsDone, LaunchesSafe;
  }

  /** Every result but killed was answered by the launcher. */
  lemma ResultsAnswered(outcome: StatusMap, trace: seq<(Item, Status)>, results: StatusMap)
    requires HistoryOk(outcome, trace, results) && forall i :: i in results ==> Finished(results[i])
    ensures forall i :: i in results && results[i] != K ==>
              (i, results[i]) in trace && i in outcome && results[i] == outcome[i]
  {
    forall i | i in results && results[i] != K
      ensures (i, results[i]) in trace && i in outcome && results[i] == outcome[i]
    {
      var n :| 0 <= n < |trace| && trace[n] == (i, results[i]);
      assert Answered(outcome, trace[n]);
    }
  }
}
