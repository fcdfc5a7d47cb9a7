/** What a pass of dispatching achieves: how the slots are shared, and how many items run then. */
module PassResults {
  import opened Sequences
  import opened Jobs
  import opened SchedulerState
  import opened Dependencies
  import opened SchedulerSteps
  import opened DispatchSteps
  import opened DispatchPass
  import opened QueueFill

  // ----- how many items run after a pass -----

  /** How many items of the queues `seen` are started when they are given the slots `alloc`. */
  ghost function Started(items: seq<Item>, fails: set<Item>, status: StatusMap, seen: seq<seq<Item>>,
                         alloc: seq<nat>): nat
    requires |seen| == |alloc|
  {
    if seen == [] then 0
    else
      var k := |seen| - 1;
      Started(items, fails, status, seen[..k], alloc[..k]) +
      |Launching(Chosen(items, status, seen[k], alloc[k]), fails)|
  }

  lemma {:induction false} LaunchingAtMost(xs: seq<Item>, fails: set<Item>)
    ensures |Launching(xs, fails)| <= |xs|
    decreases |xs|
  {
    if xs != [] {
      LaunchingAtMost(xs[..|xs| - 1], fails);
    }
  }

  lemma {:induction false} StartedAtMost(items: seq<Item>, fails: set<Item>, status: StatusMap, seen: seq<seq<Item>>,
                                         alloc: seq<nat>)
    requires |seen| == |alloc|
    ensures Started(items, fails, status, seen, alloc) <= Sum(alloc)
    decreases |seen|
  {
    hide Chosen, Launching;
    if seen != [] {
      var k := |seen| - 1;
      StartedAtMost(items, fails, status, seen[..k], alloc[..k]);
      assert alloc == alloc[..k] + [alloc[k]];
      SumSnoc(alloc[..k], alloc[k]);
      LaunchingAtMost(Chosen(items, status, seen[k], alloc[k]), fails);
    }
  }

  /** The items in the lists of some targets. */
  ghost function Listed(l: Lists, ts: seq<Target>): set<Item> {
    set t, i | t in ts && i in ListAt(l, t) :: i
  }

  function Lengths(l: Lists, ts: seq<Target>): nat {
    if ts == [] then 0 else Lengths(l, ts[..|ts| - 1]) + |ListAt(l, ts[|ts| - 1])|
  }

  lemma {:induction false} ListedSize(l: Lists, own: set<Item>, ts: seq<Target>)
    requires ListsHold(l, own) && Distinct(ts)
    ensures |Listed(l, ts)| == Lengths(l, ts)
    decreases |ts|
  {
    if ts == [] {
      assert Listed(l, ts) == {};
    } else {
      var init, t := ts[..|ts| - 1], ts[|ts| - 1];
      assert ts == init + [t];
      assert t !in init;
      ListedSize(l, own, init);
      DistinctSize(ListAt(l, t));
      ListedSnoc(l, own, init, t);
    }
  }

  lemma ListedSnoc(l: Lists, own: set<Item>, init: seq<Target>, t: Target)
    requires ListsHold(l, own) && t !in init
    ensures Listed(l, init + [t]) == Listed(l, init) + set i | i in ListAt(l, t)
    ensures Listed(l, init) !! set i | i in ListAt(l, t)
  {
    assert forall u :: u in init + [t] <==> u in init || u == t;
    forall i | i in Listed(l, init)
      ensures i !in ListAt(l, t)
    {
      var u :| u in init && i in ListAt(l, u);
      assert i.target == u;
      assert i in ListAt(l, t) ==> i.target == t;
    }
  }

  /** The running items are those in the lists of the targets. */
  lemma RunningSize(items: seq<Item>, st: State, limbo: set<Item>)
    requires Partition(items, st, limbo)
    ensures |Elements(st.running)| == Lengths(st.running, TargetsOf(items))
  {
    hide TargetsOf;
    DistinctTargets(items);
    var own := WithStatus(st.status, D);
    ListedSize(st.running, own, TargetsOf(items));
    ListsMembers(st.running, own);
    forall i | i in own
      ensures i in Listed(st.running, TargetsOf(items))
    {
      assert i in ListAt(st.running, i.target);
      assert i in items;
      TargetKnown(items, i);
    }
    assert forall t, i :: i in ListAt(st.running, t) ==> i in own;
    assert Listed(st.running, TargetsOf(items)) == own;
  }

  lemma {:induction false} ServedLengths(items: seq<Item>, fails: set<Item>, targets: seq<Target>, st0: State,
                                         st: State, seen: seq<seq<Item>>, alloc: seq<nat>, n: nat)
    requires Served(items, fails, targets, st0, st, seen, alloc) && n <= |seen|
    ensures Lengths(st.running, targets[..n]) ==
            Lengths(st0.running, targets[..n]) + Started(items, fails, st.status, seen[..n], alloc[..n])
  {
    hide Chosen, Launching, Left, Ready;
    if n > 0 {
      ServedLengths(items, fails, targets, st0, st, seen, alloc, n - 1);
      assert ServedOne(items, fails, st0, st, targets[n - 1], seen[n - 1], alloc[n - 1]);
      assert targets[..n][..n - 1] == targets[..n - 1] && seen[..n][..n - 1] == seen[..n - 1];
      assert alloc[..n][..n - 1] == alloc[..n - 1];
    }
  }

  // ----- what a pass achieves -----

  /** A whole pass from `st0` to `st`, which is what `DispatchOf` makes of `st0`. Without free slots,
      or with nothing queued, nothing happens. Otherwise the free slots are allocated by weight,
      every target is served accordingly, and some item moves on. More slots are allocated than
      were free exactly when the weights of queues that were empty at the start round up. While the
      dependencies of all queued items let them run, the queues seen are those at the start and
      max_parallel is kept. */
  ghost predicate Pass(items: seq<Item>, outcome: StatusMap, fails: set<Item>, targets: seq<Target>, maxParallel: nat,
                       st0: State, st: State) {
    var o := DispatchOf(items, targets, fails, maxParallel, st0);
    && st == o.state
    && Dispatching(items, outcome, fails, st0.status, st.status, Sum(o.alloc))
    && (if maxParallel <= |Elements(st0.running)| || !AnyQueued(targets, st0.queued) then st == st0
        else Shared(items, fails, targets, maxParallel - |Elements(st0.running)|, st0, o))
    && (AllQueuedPass(items, targets, st0) && |Elements(st0.running)| <= maxParallel ==>
          |Elements(st.running)| <= maxParallel)
  }

  /** The slots are shared between the targets. */
  ghost predicate Shared(items: seq<Item>, fails: set<Item>, targets: seq<Target>, slots: nat, st0: State, o: Outcome) {
    var start := QueuesOf(targets, st0.queued);
    && |o.seen| == |o.alloc| == |targets|
    && Served(items, fails, targets, st0, o.state, o.seen, o.alloc)
    && Extends(start, o.seen) && (AllQueuedPass(items, targets, st0) ==> o.seen == start)
    && HeadWeights(o.seen) >= HeadWeights(start)
    && Fair(slots, HeadWeights(start), o.seen, o.alloc) && EachFair(slots, HeadWeights(start), o.seen, o.alloc)
    && (Sum(o.alloc) > slots <==> RoundsUp(slots, HeadWeights(o.seen) - HeadWeights(start), HeadWeights(start)))
    && (NoneFilled(start, o.seen) ==> Sum(o.alloc) == slots)
    && |Elements(o.state.running)| == |Elements(st0.running)| +
                                      Started(items, fails, o.state.status, o.seen, o.alloc)
    && Started(items, fails, o.state.status, o.seen, o.alloc) <= Sum(o.alloc)
    && Work(items, o.state.status) < Work(items, st0.status)
  }

  lemma PassGives(items: seq<Item>, outcome: StatusMap, fails: set<Item>, targets: seq<Target>, maxParallel: nat,
                  st0: State, st: State)
    requires Pass(items, outcome, fails, targets, maxParallel, st0, st)
    ensures !AnyQueued(targets, st0.queued) ==> st == st0
    ensures AnyQueued(targets, st0.queued) && |Elements(st0.running)| < maxParallel ==>
              Work(items, st.status) < Work(items, st0.status)
    ensures Advances(st0.status, st.status) && NoNewResults(st0.status, st.status)
    ensures fails == {} && Faithful(items, outcome, st0.status) ==> Faithful(items, outcome, st.status)
  {
    hide Elements, AnyQueued, Served, Extends, Fair, EachFair, NoneFilled, Work, AllQueuedPass, Started, RoundsUp;
    hide DispatchOf;
    hide Faithful, Advances, NoNewResults, Sum, HeadWeights, QueuesOf, WithStatus;
  }

  lemma PassIdle(items: seq<Item>, outcome: StatusMap, fails: set<Item>, targets: seq<Target>, maxParallel: nat,
                 st: State)
    requires maxParallel <= |Elements(st.running)|
    ensures Pass(items, outcome, fails, targets, maxParallel, st, st)
  {
    hide Elements, AnyQueued, AllQueuedPass, Dispatching, PassOver;
    DispatchingNone(items, outcome, fails, st.status, 0);
  }

  /** Part of the way through a pass: the targets served are those whose queues were `seen`. */
  ghost predicate Midway(items: seq<Item>, outcome: StatusMap, fails: set<Item>, targets: seq<Target>, slots: nat,
                         total: nat, st0: State, st: State, seen: seq<seq<Item>>, alloc: seq<nat>) {
    && |seen| == |alloc| <= |targets|
    && Served(items, fails, targets, st0, st, seen, alloc)
    && (if total > 0 then Allocated(slots, total, seen, alloc) else st == st0)
    && Dispatching(items, outcome, fails, st0.status, st.status, Sum(alloc))
    && (Sum(alloc) > 0 ==> Work(items, st.status) < Work(items, st0.status))
    && PassOver(items, targets, fails, slots, total, st0, |seen|) == Outcome(st, seen, alloc)
  }

  lemma MidwayStart(items: seq<Item>, outcome: StatusMap, fails: set<Item>, targets: seq<Target>, slots: nat,
                    total: nat, st: State)
    ensures Midway(items, outcome, fails, targets, slots, total, st, st, [], [])
  {
    hide Served, Allocated, Dispatching, Sum, Work, PassOver;
    SumNone();
    DispatchingNone(items, outcome, fails, st.status, 0);
    ServedNone(items, fails, targets, st);
    AllocatedNone(slots, total);
    OverNone(items, targets, fails, slots, total, st);
  }

  lemma MidwayWeighs(items: seq<Item>, outcome: StatusMap, fails: set<Item>, targets: seq<Target>, slots: nat,
                     total: nat, st0: State, st: State, seen: seq<seq<Item>>, alloc: seq<nat>, t: Target)
    requires Midway(items, outcome, fails, targets, slots, total, st0, st, seen, alloc)
    requires (total > 0 <==> AnyQueued(targets, st0.queued)) && t in targets
    ensures ListAt(st.queued, t) != [] ==> total > 0
  {
    hide Served, Allocated, Dispatching, Sum, Work, PassOver;
  }

  /** A target without slots is passed over. */
  lemma MidwaySkip(items: seq<Item>, outcome: StatusMap, fails: set<Item>, targets: seq<Target>, slots: nat, total: nat,
                   st0: State, st: State, launched: set<Item>, seen: seq<seq<Item>>, alloc: seq<nat>)
    requires Midway(items, outcome, fails, targets, slots, total, st0, st, seen, alloc)
    requires Good(items, st, {}, launched) && |seen| < |targets|
    requires SlotsFor(slots, total, seen, alloc, ListAt(st.queued, targets[|seen|])) == 0
    ensures Midway(items, outcome, fails, targets, slots, total, st0, st,
                   seen + [ListAt(st.queued, targets[|seen|])], alloc + [0])
  {
    hide Served, Allocated, Dispatching, Sum, Work, PassOver, Good, SlotsFor, ServeState, ListAt;
    var q := ListAt(st.queued, targets[|seen|]);
    ServedQueue(items, fails, targets, st0, st, seen, alloc, {}, launched);
    OverUnfolds(items, targets, fails, slots, total, st0, |seen|, st, seen, alloc);
    SlotsAllocate(slots, total, seen, alloc, q);
    ServedSkip(items, fails, targets, st0, st, seen, alloc);
  }

  /** A target is served. */
  lemma MidwayServe(items: seq<Item>, outcome: StatusMap, fails: set<Item>, targets: seq<Target>, slots: nat,
                    total: nat, st0: State, launched0: set<Item>, st: State, launched: set<Item>, st': State,
                    seen: seq<seq<Item>>, alloc: seq<nat>, a: nat)
    requires Midway(items, outcome, fails, targets, slots, total, st0, st, seen, alloc) && total > 0
    requires Good(items, st0, {}, launched0) && Good(items, st, {}, launched) && |seen| < |targets| && Distinct(targets)
    requires var t := targets[|seen|];
             var q := ListAt(st.queued, t);
             && a == SlotsFor(slots, total, seen, alloc, q)
             && st' == ServeState(items, targets, fails, st, t, a)
             && st'.running == st.running[t := ListAt(st.running, t) + Launching(Chosen(items, st.status, q, a), fails)]
             && ListAt(st'.queued, t) == Left(items, st.status, q, a)
             && QueuesGrow(targets, t, st.queued, st'.queued)
             && Dispatching(items, outcome, fails, st.status, st'.status, a)
             && Work(items, st'.status) < Work(items, st.status)
    ensures Midway(items, outcome, fails, targets, slots, total, st0, st',
                   seen + [ListAt(st.queued, targets[|seen|])], alloc + [a])
  {
    hide Served, Allocated, Dispatching, Sum, Work, PassOver, Good, SlotsFor, ServeState, ListAt;
    hide Chosen, Left, Launching, QueuesGrow, Distinct;
    var q := ListAt(st.queued, targets[|seen|]);
    ServedQueue(items, fails, targets, st0, st, seen, alloc, {}, launched);
    OverUnfolds(items, targets, fails, slots, total, st0, |seen|, st, seen, alloc);
    SlotsAllocate(slots, total, seen, alloc, q);
    DispatchingAdvances(items, outcome, fails, st.status, st'.status, a);
    DispatchingAdvances(items, outcome, fails, st0.status, st.status, Sum(alloc));
    ServedStep(items, fails, targets, st0, st, st', seen, alloc, a);
    DispatchingTrans(items, outcome, fails, st0.status, st.status, st'.status, Sum(alloc), a);
  }

  lemma PassDone(items: seq<Item>, outcome: StatusMap, fails: set<Item>, targets: seq<Target>, maxParallel: nat,
                 st0: State, launched: set<Item>, st: State, seen: seq<seq<Item>>, alloc: seq<nat>)
    requires targets == TargetsOf(items) && |seen| == |targets|
    requires Steady(items, st0, {}, launched) && Partition(items, st, {})
    requires |Elements(st0.running)| < maxParallel
    requires var slots, total := maxParallel - |Elements(st0.running)|, HeadWeights(QueuesOf(targets, st0.queued));
             && Midway(items, outcome, fails, targets, slots, total, st0, st, seen, alloc)
             && (total > 0 <==> AnyQueued(targets, st0.queued))
    ensures Pass(items, outcome, fails, targets, maxParallel, st0, st)
  {
    hide Elements, Partition, TargetsOf, PassOver, Served, AllQueuedPass, Allocated, Fair, EachFair, AnyQueued;
    hide HeadWeights, Work;
    hide Extends, Started, RoundsUp, Sum, NoneFilled, Lengths, QueuesOf, Dispatching, Steady;
    var start := QueuesOf(targets, st0.queued);
    if AnyQueued(targets, st0.queued) {
      SteadyParts(items, st0, {}, launched);
      ServedExtends(items, fails, targets, st0, st, seen, alloc);
      AllocationTotal(maxParallel - |Elements(st0.running)|, start, seen, alloc);
      AllocatedIsFair(maxParallel - |Elements(st0.running)|, HeadWeights(start), seen, alloc);
      ServedLengths(items, fails, targets, st0, st, seen, alloc, |targets|);
      assert targets[..|targets|] == targets && seen[..|seen|] == seen && alloc[..|alloc|] == alloc;
      RunningSize(items, st0, {});
      RunningSize(items, st, {});
      StartedAtMost(items, fails, st.status, seen, alloc);
      if AllQueuedPass(items, targets, st0) {
        OverAllPass(items, fails, maxParallel - |Elements(st0.running)|, HeadWeights(start), st0, launched, |targets|);
        assert start[..|targets|] == start;
        SameNotFilled(start);
      }
    }
  }

  lemma SameNotFilled(start: seq<seq<Item>>)
    ensures NoneFilled(start, start)
  {
  }
}
