/** What a pass of dispatching does to the queues: each one it comes to is the old queue, followed
    by the jobs released by what was dropped from the queue before it. */
module QueueFill {
  import opened Sequences
  import opened Wrappers
  import opened Jobs
  import opened SchedulerState
  import opened Dependencies
  import opened SchedulerSteps
  import opened DispatchSteps
  import opened DispatchPass

  /** What holds between the steps of a pass. */
  ghost predicate Steady(items: seq<Item>, st: State, limbo: set<Item>, launched: set<Item>) {
    WellFormed(items) && Good(items, st, limbo, launched) && NoOrphan(items, st.status, {})
  }

  // ----- dropping items from a queue -----

  /** From `st` to `st'`, the items of `dropped` were cancelled while the queue of `t` was being
      emptied, and what that made ready was enqueued. */
  ghost predicate Drops(targets: seq<Target>, t: Target, st: State, st': State, dropped: set<Item>)
    requires t in targets
  {
    && Advances(st.status, st'.status) && QueuesGrow(targets, t, st.queued, st'.queued)
    && st'.running == st.running
    && (forall i :: i in dropped ==> i.target == t)
    && (forall i :: Complete(st'.status, i) <==> Complete(st.status, i) || i in dropped)
  }

  lemma DropsNothing(targets: seq<Target>, t: Target, st: State, st': State)
    requires t in targets
    requires st'.status == st.status && st'.running == st.running
    requires forall u :: u != t ==> ListAt(st'.queued, u) == ListAt(st.queued, u)
    ensures Drops(targets, t, st, st', {})
  {
    hide ListAt;
  }

  lemma DropsTrans(targets: seq<Target>, t: Target, s0: State, s1: State, s2: State, d1: set<Item>, d2: set<Item>)
    requires t in targets && Drops(targets, t, s0, s1, d1) && Drops(targets, t, s1, s2, d2)
    ensures Drops(targets, t, s0, s2, d1 + d2)
  {
    hide QueuesGrow, Complete;
    QueuesGrowTrans(targets, t, s0.queued, s1.queued, s2.queued);
    AdvancesTrans(s0.status, s1.status, s2.status);
  }

  lemma SteadyParts(items: seq<Item>, st: State, limbo: set<Item>, launched: set<Item>)
    requires Steady(items, st, limbo, launched)
    ensures WellFormed(items) && Good(items, st, limbo, launched) && NoOrphan(items, st.status, {})
    ensures Partition(items, st, limbo)
  {
    hide WellFormed, Partition, NoOrphan;
  }

  lemma PoppedQueues(st: State, t: Target)
    requires ListAt(st.queued, t) != []
    ensures forall u :: ListAt(Pop(st, t).queued, u) ==
                        if u == t then ListAt(st.queued, t)[1..] else ListAt(st.queued, u)
    ensures Pop(st, t).status == st.status && Pop(st, t).running == st.running
  {
  }

  lemma PopSteady(items: seq<Item>, st: State, limbo: set<Item>, launched: set<Item>, t: Target)
    requires Steady(items, st, limbo, launched) && ListAt(st.queued, t) != []
    ensures var x := ListAt(st.queued, t)[0];
            var st' := PopState(items, TargetsOf(items), st, t);
            var ok := Passing(items, st.status, x);
            && x in items && x.target == t && t in TargetsOf(items)
            && x in st.status && Ready(items, st.status, x)
            && Steady(items, st', if ok then limbo + {x} else limbo, launched)
            && Drops(TargetsOf(items), t, st, st', if ok then {} else {x})
            && ListAt(st'.queued, t) == ListAt(st.queued, t)[1..]
  {
    hide WellFormed, Good, Partition, NoOrphan, Advances, TargetsOf, Ready, Passing, DependsOn, NextOf, Successors;
    hide EnqueueAll, PendingOn, DependentsUnseen, JustCompleted, Cancel, Pop, Complete, QueuesGrow;
    SteadyParts(items, st, limbo, launched);
    var x, targets := ListAt(st.queued, t)[0], TargetsOf(items);
    PopStep(items, st, limbo, launched, t);
    PoppedQueues(st, t);
    TargetKnown(items, x);
    var popped := Pop(st, t);
    DropsNothing(targets, t, st, popped);
    hide Drops;
    if !Passing(items, st.status, x) {
      DroppedSteady(items, popped, limbo, launched, x);
      DropsTrans(targets, t, st, popped, PopState(items, targets, st, t), {}, {x});
      assert {} + {x} == {x};
    }
  }

  lemma DroppedSteady(items: seq<Item>, st: State, limbo: set<Item>, launched: set<Item>, x: Item)
    requires WellFormed(items) && Good(items, st, limbo + {x}, launched) && NoOrphan(items, st.status, {})
    requires x in items && x.target in TargetsOf(items) && x !in limbo && x in st.status && st.status[x] == Q
    ensures var mid := Cancel(st, x);
            var st' := EnqueueAll(mid, Successors(items, TargetsOf(items), mid, x));
            && Steady(items, st', limbo, launched)
            && Drops(TargetsOf(items), x.target, st, st', {x})
            && ListAt(st'.queued, x.target) == ListAt(st.queued, x.target)
  {
    hide WellFormed, Good, Partition, NoOrphan, Advances, TargetsOf, Ready, DependsOn, NextOf, Successors;
    hide EnqueueAll, PendingOn, DependentsUnseen, JustCompleted, Cancel;
    var mid := Cancel(st, x);
    var xs := Successors(items, TargetsOf(items), mid, x);
    var st' := EnqueueAll(mid, xs);
    CancelPoppedStep(items, st, limbo + {x}, launched, x);
    assert limbo + {x} - {x} == limbo;
    GoodPartition(items, st, limbo + {x}, launched);
    GoodPartition(items, mid, limbo, launched);
    CancelOfPopped(items, st, limbo + {x}, x);
    Completed(items, st.status, mid.status, x, {});
    SuccessorsMembers(items, mid, limbo, x);
    EnqueueStep(items, mid, limbo, launched, x, xs);
    SuccessorQueues(items, mid, limbo, x);
    EnqueueAllStatus(mid, xs);
    AdvancesTrans(st.status, mid.status, st'.status);
  }

  /** A queue is emptied while slots are left: what is dropped on the way is cancelled, what is
      chosen is popped. */
  lemma {:induction false} FillSteady(items: seq<Item>, st: State, limbo: set<Item>, launched: set<Item>, t: Target,
                                      n: nat)
    requires Steady(items, st, limbo, launched) && t in TargetsOf(items)
    ensures var q := ListAt(st.queued, t);
            var st' := FillState(items, TargetsOf(items), st, t, n, |q|);
            && Steady(items, st', limbo + Members(Chosen(items, st.status, q, n)), launched)
            && Drops(TargetsOf(items), t, st, st', Dropped(items, st.status, q, n))
            && ListAt(st'.queued, t) == Left(items, st.status, q, n)
    decreases |ListAt(st.queued, t)|
  {
    hide TargetsOf, Steady, Drops, Passing, PopState, FillState, Ready;
    var q, targets := ListAt(st.queued, t), TargetsOf(items);
    if q == [] || n == 0 {
      FillEnds(items, targets, st, t, n);
      DropsNothing(targets, t, st, st);
      assert limbo + Members([]) == limbo;
    } else {
      var x, ok := q[0], Passing(items, st.status, q[0]);
      var n', limbo' := if ok then n - 1 else n, if ok then limbo + {x} else limbo;
      PopSteady(items, st, limbo, launched, t);
      var mid := PopState(items, targets, st, t);
      FillUnfolds(items, targets, st, t, n);
      FillSteady(items, mid, limbo', launched, t, n');
      QueueReady(items, st, limbo, launched, t);
      DropsAdvances(targets, t, st, mid, if ok then {} else {x});
      assert forall i :: i in q[1..] ==> i in q;
      ChosenPersists(items, st.status, mid.status, q[1..], n');
      DropsTrans(targets, t, st, mid, FillState(items, targets, st, t, n, |q|), if ok then {} else {x},
                 Dropped(items, st.status, q[1..], n'));
      hide Left;
      assert limbo + Members(Chosen(items, st.status, q, n)) == limbo' + Members(Chosen(items, st.status, q[1..], n'));
      assert (if ok then {} else {x}) + Dropped(items, st.status, q[1..], n') == Dropped(items, st.status, q, n);
    }
  }

  lemma QueueReady(items: seq<Item>, st: State, limbo: set<Item>, launched: set<Item>, t: Target)
    requires Steady(items, st, limbo, launched)
    ensures forall i :: i in ListAt(st.queued, t) ==> Ready(items, st.status, i)
  {
    hide WellFormed, NoOrphan;
    forall i | i in ListAt(st.queued, t)
      ensures Ready(items, st.status, i)
    {
      assert i in WithStatus(st.status, Q) - limbo;
    }
  }

  lemma DropsAdvances(targets: seq<Target>, t: Target, st: State, st': State, dropped: set<Item>)
    requires t in targets && Drops(targets, t, st, st', dropped)
    ensures st'.running == st.running
    ensures Advances(st.status, st'.status) && QueuesGrow(targets, t, st.queued, st'.queued)
  {
  }

  /** Once the items of `dropped` are cancelled, nothing keeps `i` waiting any more. */
  ghost predicate Released(items: seq<Item>, status: StatusMap, dropped: set<Item>, i: Item) {
    i in items && i !in status && forall d :: DependsOn(items, i, d) ==> Complete(status, d) || d in dropped
  }

  /** What is released waited for something dropped, so it belongs to the next target. */
  lemma ReleasedTarget(items: seq<Item>, st: State, limbo: set<Item>, launched: set<Item>, dropped: set<Item>,
                       t: Target, i: Item)
    requires Steady(items, st, limbo, launched) && t in TargetsOf(items) && Released(items, st.status, dropped, i)
    requires forall d :: d in dropped ==> d.target == t
    ensures NextOf(TargetsOf(items), t) == Some(i.target)
  {
    hide WellFormed, Good, TargetsOf, NextOf;
    var d :| DependsOn(items, i, d) && !Complete(st.status, d);
    DependentTarget(items, i, d);
  }

  lemma ReleasedQueued(items: seq<Item>, st: State, st': State, limbo: set<Item>, launched: set<Item>, t: Target,
                       dropped: set<Item>, i: Item)
    requires Steady(items, st, {}, launched) && Steady(items, st', limbo, launched) && t in TargetsOf(items)
    requires Drops(TargetsOf(items), t, st, st', dropped) && Released(items, st.status, dropped, i)
    requires (forall j :: j in limbo ==> j.target == t) && i.target != t
    ensures i in ListAt(st'.queued, i.target)
  {
    hide WellFormed, TargetsOf, LaunchesSafe, DepsDone, QueuesGrow, Advances;
    assert Ready(items, st'.status, i);
    assert i in st'.status;
    assert i in WithStatus(st'.status, D) <==> i in ListAt(st'.running, i.target);
    assert i in WithStatus(st.status, D) <==> i in ListAt(st.running, i.target);
    assert !Complete(st'.status, i);
    assert i in WithStatus(st'.status, Q) - limbo;
  }

  lemma QueuedReleased(items: seq<Item>, st: State, st': State, limbo: set<Item>, launched: set<Item>, t: Target,
                       dropped: set<Item>, u: Target, i: Item)
    requires Steady(items, st, {}, launched) && Steady(items, st', limbo, launched) && t in TargetsOf(items)
    requires Drops(TargetsOf(items), t, st, st', dropped) && i in ListAt(st'.queued, u)
    ensures i in ListAt(st.queued, u) || Released(items, st.status, dropped, i)
  {
    hide WellFormed, TargetsOf, LaunchesSafe, NoOrphan, QueuesGrow;
    assert i in WithStatus(st'.status, Q) - limbo;
    if i in st.status {
      assert i in WithStatus(st.status, Q) - {};
    } else {
      assert Ready(items, st'.status, i);
    }
  }

  lemma QueueDistinct(items: seq<Item>, st: State, limbo: set<Item>, launched: set<Item>, u: Target)
    requires Steady(items, st, limbo, launched)
    ensures Distinct(ListAt(st.queued, u))
    ensures forall i :: i in ListAt(st.queued, u) ==> i.target == u
  {
    hide WellFormed, NoOrphan, DepsDone, LaunchesSafe;
  }

  /** Emptying the queue of a target fills that of the next: the scheduled items released by what is
      dropped, and no others, join it behind the items already there. All other queues stay. */
  lemma QueueFilled(items: seq<Item>, st: State, launched: set<Item>, t: Target, n: nat, u: Target)
    requires Steady(items, st, {}, launched) && t in TargetsOf(items) && u != t
    ensures var q := ListAt(st.queued, t);
            var q1 := ListAt(FillState(items, TargetsOf(items), st, t, n, |q|).queued, u);
            && ListAt(st.queued, u) <= q1 && Distinct(q1)
            && (if NextOf(TargetsOf(items), t) == Some(u)
                then forall i :: i in q1 <==> i in ListAt(st.queued, u) ||
                                              Released(items, st.status, Dropped(items, st.status, q, n), i)
                else q1 == ListAt(st.queued, u))
  {
    hide TargetsOf, NextOf, FillState, Dropped, Chosen, Left, Released, Steady;
    var q, targets := ListAt(st.queued, t), TargetsOf(items);
    var st' := FillState(items, targets, st, t, n, |q|);
    var limbo, dropped := Members(Chosen(items, st.status, q, n)), Dropped(items, st.status, q, n);
    FillSteady(items, st, {}, launched, t, n);
    assert {} + limbo == limbo;
    var taken := ChosenIsFirst(items, st.status, q, n);
    QueueDistinct(items, st, {}, launched, t);
    forall i | i in limbo
      ensures i.target == t
    {
      assert i in Chosen(items, st.status, q, n);
      assert i in q[..taken];
      assert i in q;
    }
    DropsAdvances(targets, t, st, st', dropped);
    QueueDistinct(items, st', limbo, launched, u);
    forall i | i in ListAt(st'.queued, u)
      ensures i in ListAt(st.queued, u) || Released(items, st.status, dropped, i)
    {
      QueuedReleased(items, st, st', limbo, launched, t, dropped, u, i);
    }
    forall i | Released(items, st.status, dropped, i) && NextOf(targets, t) == Some(u)
      ensures i in ListAt(st'.queued, u)
    {
      ReleasedTarget(items, st, {}, launched, dropped, t, i);
      ReleasedQueued(items, st, st', limbo, launched, t, dropped, i);
    }
  }

  // ----- launching leaves the queues alone -----

  lemma {:induction false} CascadeSteady(items: seq<Item>, st: State, limbo: set<Item>, launched: set<Item>,
                                         work: seq<Item>)
    requires WellFormed(items) && Good(items, st, limbo, launched) && Worklist(items, st, work)
    ensures Steady(items, Cascade(items, TargetsOf(items), st, work), limbo, launched)
    ensures OnlyCancels(st, Cascade(items, TargetsOf(items), st, work))
    decreases Work(items, st.status)
  {
    hide WellFormed, Good, Partition, TargetsOf, Worklist, OnlyCancels, JustCompleted, Cancel, Successors, NoOrphan;
    hide Cascade, Work;
    var targets := TargetsOf(items);
    if work == [] {
      EmptyWorklist(items, st, work);
      CascadeEnds(items, targets, st);
      CancelsNothing(st);
    } else {
      var rest, x := work[..|work| - 1], work[|work| - 1];
      assert work == rest + [x];
      CascadeStep(items, st, limbo, launched, rest, x);
      TargetKnown(items, x);
      var mid := Cancel(st, x);
      GoodPartition(items, mid, limbo, launched);
      CascadeNext(items, st, limbo, rest, x, Successors(items, targets, mid, x));
      CancelFalls(items, st, x);
      CascadeUnfolds(items, targets, st, rest, x);
      CascadeSteady(items, mid, limbo, launched, rest + Successors(items, targets, mid, x));
      OnlyCancelsTrans(st, mid, Cascade(items, targets, st, work));
    }
  }

  lemma KillSteady(items: seq<Item>, st: State, limbo: set<Item>, launched: set<Item>, x: Item)
    requires Steady(items, st, limbo, launched) && x in st.status && st.status[x] == D && x.target in TargetsOf(items)
    ensures Steady(items, KillState(items, TargetsOf(items), st, x), limbo, launched)
    ensures KillState(items, TargetsOf(items), st, x).queued == st.queued
    ensures KillState(items, TargetsOf(items), st, x).running ==
            st.running[x.target := RemoveItem(ListAt(st.running, x.target), x)]
    ensures OnlyKills(st, KillState(items, TargetsOf(items), st, x))
  {
    hide WellFormed, Good, Partition, TargetsOf, OnlyCancels, OnlyKills, JustCompleted, Cascade, Successors, NoOrphan;
    hide PendingOn, DependentsUnseen;
    SteadyParts(items, st, limbo, launched);
    PartitionItems(items, st, limbo, x);
    FinishStep(items, st, limbo, launched, x, K);
    var mid := Finish(st, x, K);
    Completed(items, st.status, mid.status, x, {});
    GoodPartition(items, mid, limbo, launched);
    var work := Successors(items, TargetsOf(items), mid, x);
    WorklistStart(items, mid, limbo, x, work);
    CascadeSteady(items, mid, limbo, launched, work);
    CancelsAreKills(st, x, mid, KillState(items, TargetsOf(items), st, x));
    OnlyCancelsLists(mid, KillState(items, TargetsOf(items), st, x));
  }

  /** The items `more` have joined the running list of `t`. */
  ghost predicate Runs(st: State, st': State, t: Target, more: seq<Item>) {
    forall u :: ListAt(st'.running, u) == if u == t then ListAt(st.running, u) + more else ListAt(st.running, u)
  }

  lemma RunsNone(st: State, t: Target, fails: set<Item>)
    ensures Runs(st, st, t, Launching([], fails))
  {
    assert ListAt(st.running, t) + [] == ListAt(st.running, t);
  }

  lemma RunsTrans(s0: State, s1: State, s2: State, t: Target, a: seq<Item>, b: seq<Item>)
    requires Runs(s0, s1, t, a) && Runs(s1, s2, t, b)
    ensures Runs(s0, s2, t, a + b)
  {
    hide ListAt;
    assert ListAt(s0.running, t) + (a + b) == ListAt(s0.running, t) + a + b;
  }

  lemma LaunchingSnoc(xs: seq<Item>, n: nat, fails: set<Item>)
    requires n < |xs|
    ensures Launching(xs[..n + 1], fails) == Launching(xs[..n], fails) + if xs[n] in fails then [] else [xs[n]]
  {
    assert xs[..n + 1][..n] == xs[..n];
  }

  lemma LaunchSteady(items: seq<Item>, fails: set<Item>, st: State, limbo: set<Item>, launched: set<Item>, x: Item)
    requires Steady(items, st, limbo, launched) && x in limbo && Passing(items, st.status, x)
    ensures var st' := LaunchState(items, TargetsOf(items), fails, st, x);
            && Steady(items, st', limbo - {x}, launched + {x})
            && st'.queued == st.queued && Advances(st.status, st'.status)
            && Runs(st, st', x.target, if x in fails then [] else [x])
  {
    hide WellFormed, Good, Partition, TargetsOf, OnlyKills, NoOrphan, KillState, Passing, Ready, Advances, WithStatus;
    hide RemoveItem;
    SteadyParts(items, st, limbo, launched);
    LimboItem(items, st, limbo, x);
    PartitionItems(items, st, limbo, x);
    TargetKnown(items, x);
    StartStep(items, st, limbo, launched, x);
    var mid := Start(st, x);
    if x in fails {
      RemoveLast(ListAt(st.running, x.target), x);
      KillSteady(items, mid, limbo - {x}, launched + {x}, x);
      var st' := KillState(items, TargetsOf(items), mid, x);
      OnlyKillsAdvances(mid, st');
      AdvancesTrans(st.status, mid.status, st'.status);
    }
  }

  lemma {:induction false} LaunchesSteady(items: seq<Item>, fails: set<Item>, st: State, launched: set<Item>,
                                          t: Target, xs: seq<Item>, n: nat)
    requires Steady(items, st, Members(xs), launched) && Distinct(xs) && n <= |xs|
    requires forall i :: i in xs ==> Passing(items, st.status, i) && i.target == t
    ensures var st' := LaunchStates(items, TargetsOf(items), fails, st, xs[..n]);
            && Steady(items, st', Members(xs[n..]), launched + Members(xs[..n]))
            && st'.queued == st.queued && Advances(st.status, st'.status)
            && Runs(st, st', t, Launching(xs[..n], fails))
  {
    hide TargetsOf, LaunchStates, LaunchState, Steady, Passing, Distinct, Runs, Launching, Advances;
    if n == 0 {
      LaunchNone(items, TargetsOf(items), fails, st);
      RunsNone(st, t, fails);
      NoAdvance(st.status);
      assert xs[..0] == [] && xs[0..] == xs && launched + Members([]) == launched;
    } else {
      LaunchesSteady(items, fails, st, launched, t, xs, n - 1);
      var mid, x := LaunchStates(items, TargetsOf(items), fails, st, xs[..n - 1]), xs[n - 1];
      PassingLater(items, st, launched, xs, mid.status);
      LaunchNext(items, fails, mid, launched, xs, n - 1);
      LaunchUnfolds(items, TargetsOf(items), fails, st, xs, n - 1);
      var st' := LaunchState(items, TargetsOf(items), fails, mid, x);
      RunsTrans(st, mid, st', t, Launching(xs[..n - 1], fails), if x in fails then [] else [x]);
      LaunchingSnoc(xs, n - 1, fails);
      AdvancesTrans(st.status, mid.status, st'.status);
    }
  }

  lemma PassingLater(items: seq<Item>, st: State, launched: set<Item>, xs: seq<Item>, s1: StatusMap)
    requires Steady(items, st, Members(xs), launched) && Advances(st.status, s1)
    requires forall i :: i in xs ==> Passing(items, st.status, i)
    ensures forall i :: i in xs ==> Passing(items, s1, i)
  {
    hide Steady, Passing, Advances;
    SteadyParts(items, st, Members(xs), launched);
    LimboPasses(items, st, Members(xs), launched, s1);
  }

  lemma LaunchNext(items: seq<Item>, fails: set<Item>, st: State, launched: set<Item>, xs: seq<Item>, n: nat)
    requires n < |xs| && Distinct(xs) && Passing(items, st.status, xs[n])
    requires Steady(items, st, Members(xs[n..]), launched + Members(xs[..n]))
    ensures var st' := LaunchState(items, TargetsOf(items), fails, st, xs[n]);
            && Steady(items, st', Members(xs[n + 1..]), launched + Members(xs[..n + 1]))
            && st'.queued == st.queued && Advances(st.status, st'.status)
            && Runs(st, st', xs[n].target, if xs[n] in fails then [] else [xs[n]])
  {
    hide TargetsOf, LaunchState, Steady, Passing, Distinct, Runs, Advances;
    NextToLaunch(xs, n);
    LaunchSteady(items, fails, st, Members(xs[n..]), launched + Members(xs[..n]), xs[n]);
    assert launched + Members(xs[..n]) + {xs[n]} == launched + Members(xs[..n + 1]);
  }

  /** Serving a target changes the queues as emptying its queue does. */
  lemma ServeSteady(items: seq<Item>, fails: set<Item>, st: State, launched: set<Item>, t: Target, n: nat)
      returns (launched': set<Item>)
    requires Steady(items, st, {}, launched) && t in TargetsOf(items)
    ensures var q := ListAt(st.queued, t);
            var st' := ServeState(items, TargetsOf(items), fails, st, t, n);
            && Steady(items, st', {}, launched')
            && st'.queued == FillState(items, TargetsOf(items), st, t, n, |q|).queued
            && Runs(st, st', t, Launching(Chosen(items, st.status, q, n), fails))
            && Advances(st.status, st'.status)
  {
    hide TargetsOf, LaunchStates, FillState, Steady, Passing, Left, Dropped, Chosen, Drops;
    var q := ListAt(st.queued, t);
    var xs, mid := Chosen(items, st.status, q, n), FillState(items, TargetsOf(items), st, t, n, |q|);
    FillSteady(items, st, {}, launched, t, n);
    DropsAdvances(TargetsOf(items), t, st, mid, Dropped(items, st.status, q, n));
    QueueDistinct(items, st, {}, launched, t);
    QueueReady(items, st, {}, launched, t);
    var taken := ChosenIsFirst(items, st.status, q, n);
    forall i | i in xs
      ensures Passing(items, mid.status, i) && i.target == t
    {
      assert i in q[..taken];
      assert i in q;
      ReadyPersists(items, st.status, mid.status, i);
    }
    assert {} + Members(xs) == Members(xs);
    LaunchesSteady(items, fails, mid, launched, t, xs, |xs|);
    assert xs[..|xs|] == xs && Members(xs[|xs|..]) == {};
    launched' := launched + Members(xs);
    AdvancesTrans(st.status, mid.status, LaunchStates(items, TargetsOf(items), fails, mid, xs).status);
  }

  // ----- the queues a pass comes to -----

  /** The state in which the n-th target gets its turn, and the queue it then has. */
  lemma {:induction false} OverSteady(items: seq<Item>, fails: set<Item>, slots: nat, total: nat, st: State,
                                      launched: set<Item>, n: nat) returns (launched': set<Item>)
    requires Steady(items, st, {}, launched) && n <= |TargetsOf(items)|
    ensures var o := PassOver(items, TargetsOf(items), fails, slots, total, st, n);
            Steady(items, o.state, {}, launched') && Advances(st.status, o.state.status)
    ensures forall m :: n < m < |TargetsOf(items)| ==>
              ListAt(PassOver(items, TargetsOf(items), fails, slots, total, st, n).state.queued, TargetsOf(items)[m]) ==
              ListAt(st.queued, TargetsOf(items)[m])
  {
    hide TargetsOf, Steady, Advances, ServeState, SlotsFor, FillState, Dropped, Released, ListAt;
    var targets := TargetsOf(items);
    if n == 0 {
      launched' := launched;
      NoAdvance(st.status);
    } else {
      var before := PassOver(items, targets, fails, slots, total, st, n - 1);
      var launched1 := OverSteady(items, fails, slots, total, st, launched, n - 1);
      var t := targets[n - 1];
      var a := SlotsFor(slots, total, before.seen, before.alloc, ListAt(before.state.queued, t));
      launched' := ServeSteady(items, fails, before.state, launched1, t, a);
      AdvancesTrans(st.status, before.state.status, ServeState(items, targets, fails, before.state, t, a).status);
      DistinctTargets(items);
      forall m | n < m < |targets|
        ensures ListAt(ServeState(items, targets, fails, before.state, t, a).queued, targets[m]) ==
                ListAt(st.queued, targets[m])
      {
        QueueFilled(items, before.state, launched1, t, a, targets[m]);
        NextAfter(targets, n - 1, m);
      }
    }
  }

  lemma NoAdvance(status: StatusMap)
    ensures Advances(status, status)
  {
  }

  lemma NextAfter(targets: seq<Target>, k: nat, m: nat)
    requires Distinct(targets) && k < m < |targets|
    ensures NextOf(targets, targets[k]) == Some(targets[m]) <==> m == k + 1
    ensures targets[m] != targets[k]
  {
    PosAt(targets, k);
  }

  lemma {:induction false} OverPrefix(items: seq<Item>, targets: seq<Target>, fails: set<Item>, slots: nat, total: nat,
                                      st: State, m: nat, n: nat)
    requires m <= n <= |targets|
    ensures PassOver(items, targets, fails, slots, total, st, m).seen ==
            PassOver(items, targets, fails, slots, total, st, n).seen[..m]
    ensures PassOver(items, targets, fails, slots, total, st, m).alloc ==
            PassOver(items, targets, fails, slots, total, st, n).alloc[..m]
  {
    hide ServeState, SlotsFor, ListAt;
    if m < n {
      OverPrefix(items, targets, fails, slots, total, st, m, n - 1);
    }
  }

  /** The slots that the n-th target is given. */
  lemma SlotsGiven(items: seq<Item>, targets: seq<Target>, fails: set<Item>, slots: nat, total: nat, st: State, n: nat)
    requires n < |targets|
    ensures var o := PassOver(items, targets, fails, slots, total, st, |targets|);
            o.alloc[n] == SlotsFor(slots, total, o.seen[..n], o.alloc[..n], o.seen[n])
  {
    hide ServeState, SlotsFor, ListAt;
    var at := PassOver(items, targets, fails, slots, total, st, n);
    OverUnfolds(items, targets, fails, slots, total, st, n, at.state, at.seen, at.alloc);
    OverPrefix(items, targets, fails, slots, total, st, n, |targets|);
    OverPrefix(items, targets, fails, slots, total, st, n + 1, |targets|);
    hide PassOver;
    var o := PassOver(items, targets, fails, slots, total, st, |targets|);
    assert o.seen[..n + 1][n] == o.seen[n] && o.alloc[..n + 1][n] == o.alloc[n];
  }

  /** The state in which a pass comes to the n-th target. */
  ghost function Before(items: seq<Item>, fails: set<Item>, maxParallel: nat, st: State, n: nat): State
    requires |Elements(st.running)| < maxParallel && n <= |TargetsOf(items)|
  {
    PassOver(items, TargetsOf(items), fails, maxParallel - |Elements(st.running)|,
             HeadWeights(QueuesOf(TargetsOf(items), st.queued)), st, n).state
  }

  /** The queues a pass comes to: that of the first target is the one at the start. That of a later
      one is the queue at the start, followed by the scheduled items, each once, that are released
      by what the pass drops from the queue of the preceding target. */
  lemma SeenQueues(items: seq<Item>, fails: set<Item>, maxParallel: nat, st: State, launched: set<Item>, n: nat)
    requires Steady(items, st, {}, launched) && |Elements(st.running)| < maxParallel && n < |TargetsOf(items)|
    ensures var targets := TargetsOf(items);
            var o := DispatchOf(items, targets, fails, maxParallel, st);
            && |o.seen| == |o.alloc| == |targets|
            && ListAt(st.queued, targets[n]) <= o.seen[n] && Distinct(o.seen[n])
            && (n == 0 ==> o.seen[0] == ListAt(st.queued, targets[0]))
            && (n > 0 ==>
                  var status := Before(items, fails, maxParallel, st, n - 1).status;
                  var dropped := Dropped(items, status, o.seen[n - 1], o.alloc[n - 1]);
                  forall i :: i in o.seen[n] <==>
                              i in ListAt(st.queued, targets[n]) || Released(items, status, dropped, i))
  {
    hide TargetsOf, Steady, Elements, ServeState, SlotsFor, FillState, Dropped, Released, ListAt, QueuesOf, HeadWeights;
    hide PassOver, Distinct, Advances;
    var targets, slots := TargetsOf(items), maxParallel - |Elements(st.running)|;
    var total := HeadWeights(QueuesOf(targets, st.queued));
    var at := PassOver(items, targets, fails, slots, total, st, n);
    OverUnfolds(items, targets, fails, slots, total, st, n, at.state, at.seen, at.alloc);
    OverPrefix(items, targets, fails, slots, total, st, n, |targets|);
    OverPrefix(items, targets, fails, slots, total, st, n + 1, |targets|);
    if n == 0 {
      OverNone(items, targets, fails, slots, total, st);
      QueueDistinct(items, st, {}, launched, targets[0]);
    } else {
      SeenNext(items, fails, slots, total, st, launched, n);
    }
  }

  lemma SeenNext(items: seq<Item>, fails: set<Item>, slots: nat, total: nat, st: State, launched: set<Item>, n: nat)
    requires Steady(items, st, {}, launched) && 0 < n < |TargetsOf(items)|
    ensures var targets := TargetsOf(items);
            var before := PassOver(items, targets, fails, slots, total, st, n - 1);
            var at := PassOver(items, targets, fails, slots, total, st, n);
            var dropped := Dropped(items, before.state.status, at.seen[n - 1], at.alloc[n - 1]);
            var q := ListAt(at.state.queued, targets[n]);
            && ListAt(st.queued, targets[n]) <= q && Distinct(q)
            && forall i :: i in q <==>
                           i in ListAt(st.queued, targets[n]) || Released(items, before.state.status, dropped, i)
  {
    hide TargetsOf, Steady, ServeState, SlotsFor, FillState, Dropped, Released, ListAt, PassOver, Distinct, Advances;
    var targets := TargetsOf(items);
    var before := PassOver(items, targets, fails, slots, total, st, n - 1);
    OverUnfolds(items, targets, fails, slots, total, st, n - 1, before.state, before.seen, before.alloc);
    var launched' := OverSteady(items, fails, slots, total, st, launched, n - 1);
    var a := SlotsFor(slots, total, before.seen, before.alloc, ListAt(before.state.queued, targets[n - 1]));
    var _ := ServeSteady(items, fails, before.state, launched', targets[n - 1], a);
    DistinctTargets(items);
    NextAfter(targets, n - 1, n);
    QueueFilled(items, before.state, launched', targets[n - 1], a, targets[n]);
  }

  /** What a pass starts: from the queue it comes to, the items chosen when given the slots, apart
      from those that fail to launch. */
  lemma {:induction false} OverRunning(items: seq<Item>, fails: set<Item>, slots: nat, total: nat, st: State,
                                       launched: set<Item>, n: nat, m: nat)
    requires Steady(items, st, {}, launched) && n <= |TargetsOf(items)| && m < |TargetsOf(items)|
    ensures var targets := TargetsOf(items);
            var o := PassOver(items, targets, fails, slots, total, st, n);
            var status := PassOver(items, targets, fails, slots, total, st, m).state.status;
            ListAt(o.state.running, targets[m]) == ListAt(st.running, targets[m]) +
              if m < n then Launching(Chosen(items, status, o.seen[m], o.alloc[m]), fails) else []
  {
    hide TargetsOf, Steady, ServeState, SlotsFor, FillState, ListAt, Launching, Chosen, Distinct;
    var targets := TargetsOf(items);
    if n > 0 {
      var before := PassOver(items, targets, fails, slots, total, st, n - 1);
      OverRunning(items, fails, slots, total, st, launched, n - 1, m);
      var launched' := OverSteady(items, fails, slots, total, st, launched, n - 1);
      var t := targets[n - 1];
      var _ := ServeSteady(items, fails, before.state, launched', t,
                           SlotsFor(slots, total, before.seen, before.alloc, ListAt(before.state.queued, t)));
      DistinctTargets(items);
      if m != n - 1 {
        Differ(targets, m, n - 1);
      }
    }
  }

  lemma Differ(targets: seq<Target>, m: nat, k: nat)
    requires Distinct(targets) && m < |targets| && k < |targets| && m != k
    ensures targets[m] != targets[k]
  {
  }

  // ----- passes that drop nothing -----

  /** The dependencies of all queued items let them run. */
  ghost predicate AllQueuedPass(items: seq<Item>, targets: seq<Target>, st: State) {
    forall t :: t in targets ==> AllPass(items, st.status, ListAt(st.queued, t))
  }

  /** Emptying a queue from which nothing is dropped leaves the other queues alone. */
  lemma NothingReleased(items: seq<Item>, st: State, launched: set<Item>, t: Target, n: nat, u: Target)
    requires Steady(items, st, {}, launched) && t in TargetsOf(items) && u != t
    requires AllPass(items, st.status, ListAt(st.queued, t))
    ensures var q := ListAt(st.queued, t);
            ListAt(FillState(items, TargetsOf(items), st, t, n, |q|).queued, u) == ListAt(st.queued, u)
  {
    hide TargetsOf, NextOf, FillState, Left, Chosen, Passing, ListAt, Good, WellFormed, Dropped;
    var q := ListAt(st.queued, t);
    var q0, q1 := ListAt(st.queued, u), ListAt(FillState(items, TargetsOf(items), st, t, n, |q|).queued, u);
    QueueFilled(items, st, launched, t, n, u);
    var taken := ChosenIsFirst(items, st.status, q, n);
    assert forall i :: i in q[..taken] ==> i in q;
    assert Dropped(items, st.status, q, n) == {};
    forall i | i in items && i !in st.status
      ensures !Released(items, st.status, {}, i)
    {
      assert !Ready(items, st.status, i);
    }
    SamePrefix(q0, q1);
  }

  lemma SamePrefix(s: seq<Item>, r: seq<Item>)
    requires s <= r && Distinct(r) && forall i :: i in r ==> i in s
    ensures r == s
  {
    assert Distinct(s);
    DistinctSize(s);
    DistinctSize(r);
    assert (set i | i in r) == (set i | i in s);
    assert s == r[..|s|];
  }

  /** If the dependencies of all queued items let them run, a pass finds the queues as they were. */
  lemma {:induction false} OverAllPass(items: seq<Item>, fails: set<Item>, slots: nat, total: nat, st: State,
                                       launched: set<Item>, n: nat)
    requires Steady(items, st, {}, launched) && n <= |TargetsOf(items)| && AllQueuedPass(items, TargetsOf(items), st)
    ensures var targets := TargetsOf(items);
            var o := PassOver(items, targets, fails, slots, total, st, n);
            && o.seen == QueuesOf(targets, st.queued)[..n]
            && forall m :: n <= m < |targets| ==> ListAt(o.state.queued, targets[m]) == ListAt(st.queued, targets[m])
  {
    hide TargetsOf, Steady, ServeState, SlotsFor, FillState, ListAt, Advances, AllPass, Distinct;
    var targets := TargetsOf(items);
    if n > 0 {
      var before := PassOver(items, targets, fails, slots, total, st, n - 1);
      OverAllPass(items, fails, slots, total, st, launched, n - 1);
      var launched' := OverSteady(items, fails, slots, total, st, launched, n - 1);
      SteadyParts(items, st, {}, launched);
      AllPassLater(items, st, {}, launched, before.state.status, targets[n - 1]);
      ServeAllPass(items, fails, before.state, launched', n - 1,
                   SlotsFor(slots, total, before.seen, before.alloc, ListAt(before.state.queued, targets[n - 1])));
      var qs := QueuesOf(targets, st.queued);
      assert qs[..n] == qs[..n - 1] + [ListAt(st.queued, targets[n - 1])];
    }
  }

  lemma ServeAllPass(items: seq<Item>, fails: set<Item>, st: State, launched: set<Item>, k: nat, n: nat)
    requires Steady(items, st, {}, launched) && k < |TargetsOf(items)|
    requires AllPass(items, st.status, ListAt(st.queued, TargetsOf(items)[k]))
    ensures var targets := TargetsOf(items);
            var st' := ServeState(items, targets, fails, st, targets[k], n);
            forall m :: k < m < |targets| ==> ListAt(st'.queued, targets[m]) == ListAt(st.queued, targets[m])
  {
    hide TargetsOf, Steady, ServeState, FillState, ListAt, AllPass, Distinct, NextOf;
    var targets := TargetsOf(items);
    var _ := ServeSteady(items, fails, st, launched, targets[k], n);
    DistinctTargets(items);
    forall m | k < m < |targets|
      ensures ListAt(ServeState(items, targets, fails, st, targets[k], n).queued, targets[m]) ==
              ListAt(st.queued, targets[m])
    {
      NextAfter(targets, k, m);
      NothingReleased(items, st, launched, targets[k], n, targets[m]);
    }
  }

  lemma AllPassLater(items: seq<Item>, st: State, limbo: set<Item>, launched: set<Item>, s1: StatusMap, t: Target)
    requires Good(items, st, limbo, launched) && Advances(st.status, s1)
    requires AllPass(items, st.status, ListAt(st.queued, t))
    ensures AllPass(items, s1, ListAt(st.queued, t))
  {
    forall i | i in ListAt(st.queued, t)
      ensures Passing(items, s1, i)
    {
      assert i in WithStatus(st.status, Q) - limbo;
      ReadyPersists(items, st.status, s1, i);
    }
  }
}
