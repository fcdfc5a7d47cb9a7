/** The scheduler's atomic changes, together with what they keep along the dependency graph. */
module SchedulerSteps {
  import opened Sequences
  import opened Wrappers
  import opened Jobs
  import opened SchedulerState
  import opened Dependencies

  /** What holds after every single change, interrupted runs and all. */
  ghost predicate Good(items: seq<Item>, st: State, limbo: set<Item>, launched: set<Item>) {
    && Partition(items, st, limbo)
    && DepsDone(items, st.status)
    && LaunchesSafe(items, st.status, launched)
  }

  /** Ready items that are still scheduled depend on `x` or are in `pending`. */
  ghost predicate PendingOn(items: seq<Item>, status: StatusMap, x: Item, pending: set<Item>) {
    forall i :: i in items && i !in status && Ready(items, status, i) ==> DependsOn(items, i, x) || i in pending
  }

  ghost predicate DependentsUnseen(items: seq<Item>, status: StatusMap, x: Item) {
    forall i :: i in items && DependsOn(items, i, x) ==> i !in status
  }

  /** `x` has just completed: its successors have yet to be looked at. */
  ghost predicate JustCompleted(items: seq<Item>, s0: StatusMap, s1: StatusMap, x: Item, pending: set<Item>) {
    && Advances(s0, s1)
    && Complete(s1, x) && !Complete(s0, x)
    && PendingOn(items, s1, x, pending)
    && DependentsUnseen(items, s1, x)
  }

  function NextOf(targets: seq<Target>, t: Target): Option<Target>
    requires t in targets
  {
    var p := Pos(targets, t);
    if p + 1 < |targets| then Some(targets[p + 1]) else None
  }

  /** The items of a list that depend on `x` and are ready, in order. */
  ghost function ReadyDependents(items: seq<Item>, status: StatusMap, list: seq<Item>, x: Item): seq<Item> {
    if list == [] then []
    else
      var init, last := list[..|list| - 1], list[|list| - 1];
      ReadyDependents(items, status, init, x) +
      if x in last.dependencies && Ready(items, status, last) then [last] else []
  }

  /** The successors of a completed item that can now be enqueued. */
  ghost function Successors(items: seq<Item>, targets: seq<Target>, st: State, x: Item): seq<Item>
    requires x.target in targets
  {
    match NextOf(targets, x.target)
    case None => []
    case Some(t) => ReadyDependents(items, st.status, SlotAt(st.scheduled, t, x.cfg), x)
  }

  lemma {:induction false} ReadyDependentsMembers(items: seq<Item>, status: StatusMap, list: seq<Item>, x: Item)
    requires Distinct(list)
    ensures Distinct(ReadyDependents(items, status, list, x))
    ensures forall i :: i in ReadyDependents(items, status, list, x) <==>
                        i in list && x in i.dependencies && Ready(items, status, i)
    decreases |list|
  {
    if list != [] {
      var init, last := list[..|list| - 1], list[|list| - 1];
      assert list == init + [last];
      assert last !in init;
      ReadyDependentsMembers(items, status, init, x);
      assert forall i :: i in list <==> i in init || i == last;
    }
  }

  lemma {:induction false} ReadyDependentsInOrder(items: seq<Item>, status: StatusMap, list: seq<Item>, x: Item)
    requires Distinct(list)
    ensures InOrder(list, ReadyDependents(items, status, list, x))
    decreases |list|
  {
    hide InOrder, Ready;
    if list == [] {
      InOrderSelf(list);
    } else {
      var init, last := list[..|list| - 1], list[|list| - 1];
      assert list == init + [last];
      assert last !in init;
      ReadyDependentsInOrder(items, status, init, x);
      InOrderBack(init, ReadyDependents(items, status, init, x), last);
      assert ReadyDependents(items, status, init, x) + [] == ReadyDependents(items, status, init, x);
    }
  }

  lemma TargetKnown(items: seq<Item>, x: Item)
    requires x in items
    ensures x.target in TargetsOf(items)
  {
    TargetsOfShape(items);
  }

  lemma DependentTarget(items: seq<Item>, i: Item, x: Item)
    requires WellFormed(items) && i in items && DependsOn(items, i, x)
    ensures x.target in TargetsOf(items) && NextOf(TargetsOf(items), x.target) == Some(i.target) && i.cfg == x.cfg
  {
    hide TargetsOf, Pos, LaterDepend, EarlierHaveDependents;
  }

  lemma HasDependent(items: seq<Item>, x: Item) returns (n: Item)
    requires WellFormed(items) && x in items && x.target in TargetsOf(items)
    requires NextOf(TargetsOf(items), x.target).Some?
    ensures n in items && DependsOn(items, n, x)
  {
    hide TargetsOf, Pos, LaterDepend, EdgesGoBack;
    n :| n in items && DependsOn(items, n, x);
  }

  lemma SlotMember(items: seq<Item>, st: State, limbo: set<Item>, t: Target, c: Cfg, i: Item)
    requires Partition(items, st, limbo)
    ensures i in SlotAt(st.scheduled, t, c) <==> i in items && i !in st.status && i.target == t && i.cfg == c
    ensures Distinct(SlotAt(st.scheduled, t, c))
  {
    assert i in Unseen(items, st.status) <==> i in items && i !in st.status;
  }

  /** The dependents of an item are where the scheduler looks for them. */
  lemma SuccessorsMembers(items: seq<Item>, st: State, limbo: set<Item>, x: Item)
    requires WellFormed(items) && Partition(items, st, limbo) && x in items
    ensures x.target in TargetsOf(items)
    ensures var xs := Successors(items, TargetsOf(items), st, x);
            && Distinct(xs)
            && forall i :: i in xs <==>
                i in items && i !in st.status && DependsOn(items, i, x) && Ready(items, st.status, i)
  {
    hide WellFormed, Partition, Ready;
    TargetKnown(items, x);
    var targets := TargetsOf(items);
    var xs := Successors(items, targets, st, x);
    if NextOf(targets, x.target).Some? {
      var t := NextOf(targets, x.target).value;
      SlotMember(items, st, limbo, t, x.cfg, x);
      ReadyDependentsMembers(items, st.status, SlotAt(st.scheduled, t, x.cfg), x);
    }
    hide NextOf, ReadyDependents;
    forall i
      ensures i in xs <==> i in items && i !in st.status && DependsOn(items, i, x) && Ready(items, st.status, i)
    {
      if i in items && DependsOn(items, i, x) {
        DependentTarget(items, i, x);
      }
      if NextOf(targets, x.target).Some? {
        SlotMember(items, st, limbo, NextOf(targets, x.target).value, x.cfg, i);
      }
    }
  }

  /** They come in the order in which the jobs were given to the scheduler. */
  lemma SuccessorsInOrder(items: seq<Item>, st: State, limbo: set<Item>, x: Item)
    requires Partition(items, st, limbo) && x.target in TargetsOf(items)
    ensures InOrder(items, Successors(items, TargetsOf(items), st, x))
  {
    hide InOrder, TargetsOf, NextOf, ReadyDependents, ScheduleHolds, ListsHold, GroupsHold, SlotAt;
    match NextOf(TargetsOf(items), x.target) {
      case None =>
        NoneInOrder(items);
      case Some(t) =>
        var list := SlotAt(st.scheduled, t, x.cfg);
        assert InOrder(items, list);
        InOrderDistinct(items, list);
        ReadyDependentsInOrder(items, st.status, list, x);
        InOrderPart(items, list, ReadyDependents(items, st.status, list, x));
    }
  }

  lemma NoneInOrder(items: seq<Item>)
    ensures InOrder(items, [])
  {
  }

  /** The dictionary lookup for the successors of a completed item never fails. */
  lemma SlotExists(items: seq<Item>, st: State, limbo: set<Item>, x: Item)
    requires WellFormed(items) && Partition(items, st, limbo) && x in items
    requires DependentsUnseen(items, st.status, x)
    ensures x.target in TargetsOf(items)
    ensures match NextOf(TargetsOf(items), x.target)
            case None => true
            case Some(t) => t in st.scheduled && x.cfg in st.scheduled[t]
  {
    hide WellFormed, Partition;
    TargetKnown(items, x);
    if NextOf(TargetsOf(items), x.target).Some? {
      var n := HasDependent(items, x);
      DependentTarget(items, n, x);
      SlotMember(items, st, limbo, n.target, n.cfg, n);
    }
  }

  lemma HasDependency(items: seq<Item>, i: Item)
    requires WellFormed(items) && i in items && i.target in TargetsOf(items) && Pos(TargetsOf(items), i.target) > 0
    ensures i.dependencies != []
  {
    hide TargetsOf, Pos, EdgesGoBack, EarlierHaveDependents;
    var d :| DependsOn(items, i, d);
  }

  /** Items looked up as successors have dependencies. */
  lemma SuccessorsHaveDependencies(items: seq<Item>, x: Item, i: Item)
    requires WellFormed(items) && i in items && x.target in TargetsOf(items)
    requires NextOf(TargetsOf(items), x.target) == Some(i.target)
    ensures i.dependencies != []
  {
    hide WellFormed;
    TargetKnown(items, i);
    TargetsOfShape(items);
    hide TargetsOf;
    PosAt(TargetsOf(items), Pos(TargetsOf(items), x.target) + 1);
    HasDependency(items, i);
  }

  // ----- single changes -----

  lemma FinishStep(items: seq<Item>, st: State, limbo: set<Item>, launched: set<Item>, x: Item, s: Status)
    requires Good(items, st, limbo, launched) && NoOrphan(items, st.status, {})
    requires Finished(s) && x in st.status && st.status[x] == D
    ensures Good(items, Finish(st, x, s), limbo, launched)
    ensures JustCompleted(items, st.status, Finish(st, x, s).status, x, {})
  {
    hide Partition;
    FinishKeeps(items, st, limbo, x, s);
    PartitionItems(items, st, limbo, x);
    CompleteStep(items, st.status, launched, x, s, {});
  }

  lemma PartitionItems(items: seq<Item>, st: State, limbo: set<Item>, x: Item)
    requires Partition(items, st, limbo) && x in st.status
    ensures x in items
  {
  }

  lemma CompleteStep(items: seq<Item>, status: StatusMap, launched: set<Item>, x: Item, s: Status, pending: set<Item>)
    requires DepsDone(items, status) && LaunchesSafe(items, status, launched) && NoOrphan(items, status, pending)
    requires Finished(s) && x in items && !Complete(status, x)
    requires x !in status ==> Ready(items, status, x)
    requires s == K || Started(status, x)
    ensures DepsDone(items, status[x := s]) && LaunchesSafe(items, status[x := s], launched)
    ensures JustCompleted(items, status, status[x := s], x, pending)
  {
    CompleteOne(items, status, pending, x, s);
    LaunchesPersist(items, status, status[x := s], launched);
    assert Ready(items, status, x);
    assert !DependsOn(items, x, x);
  }

  lemma CancelScheduledStep(items: seq<Item>, st: State, limbo: set<Item>, launched: set<Item>, x: Item,
      pending: set<Item>)
    requires Good(items, st, limbo, launched) && NoOrphan(items, st.status, pending + {x})
    requires x in items && x !in st.status && Ready(items, st.status, x)
    ensures Good(items, Cancel(st, x), limbo, launched)
    ensures JustCompleted(items, st.status, Cancel(st, x).status, x, pending + {x})
  {
    hide Partition;
    CancelScheduledKeeps(items, st, limbo, x);
    CompleteStep(items, st.status, launched, x, K, pending + {x});
  }

  lemma CancelQueuedStep(items: seq<Item>, st: State, limbo: set<Item>, launched: set<Item>, x: Item)
    requires Good(items, st, limbo, launched) && NoOrphan(items, st.status, {})
    requires x in st.status && st.status[x] == Q && x !in limbo
    ensures Good(items, Cancel(st, x), limbo, launched)
    ensures JustCompleted(items, st.status, Cancel(st, x).status, x, {})
  {
    hide Partition;
    CancelQueuedKeeps(items, st, limbo, x);
    PartitionItems(items, st, limbo, x);
    CompleteStep(items, st.status, launched, x, K, {});
  }

  lemma CancelPoppedStep(items: seq<Item>, st: State, limbo: set<Item>, launched: set<Item>, x: Item)
    requires Good(items, st, limbo, launched) && NoOrphan(items, st.status, {})
    requires x in limbo && x in st.status && st.status[x] == Q
    ensures Good(items, Cancel(st, x), limbo - {x}, launched)
    ensures JustCompleted(items, st.status, Cancel(st, x).status, x, {})
  {
    hide Partition;
    CancelPoppedKeeps(items, st, limbo, x);
    PartitionItems(items, st, limbo, x);
    CompleteStep(items, st.status, launched, x, K, {});
  }

  lemma StartStep(items: seq<Item>, st: State, limbo: set<Item>, launched: set<Item>, x: Item)
    requires Good(items, st, limbo, launched) && NoOrphan(items, st.status, {})
    requires x in limbo && x in st.status && st.status[x] == Q && Passing(items, st.status, x)
    ensures Good(items, Start(st, x), limbo - {x}, launched + {x})
    ensures NoOrphan(items, Start(st, x).status, {})
    ensures Advances(st.status, Start(st, x).status)
    ensures forall i :: Ready(items, Start(st, x).status, i) <==> Ready(items, st.status, i)
  {
    hide Partition;
    StartKeeps(items, st, limbo, x);
    var s0, s1 := st.status, Start(st, x).status;
    assert forall i :: Complete(s1, i) <==> Complete(s0, i);
    forall i | i in s1
      ensures Ready(items, s1, i)
    {
      assert Ready(items, s0, i);
    }
    forall i | i in launched + {x}
      ensures i in s1 && s1[i] != Q && Passing(items, s1, i)
    {
      ReadyPersists(items, s0, s1, i);
    }
  }

  // ----- enqueueing the successors of a completed item -----

  lemma {:induction false} EnqueueAllKeeps(items: seq<Item>, st: State, limbo: set<Item>, xs: seq<Item>)
    requires Partition(items, st, limbo) && Distinct(xs)
    requires forall i :: i in xs ==> i in items && i !in st.status
    ensures Partition(items, EnqueueAll(st, xs), limbo)
    ensures EnqueueAll(st, xs).status.Keys == st.status.Keys + set i | i in xs
    ensures forall i :: i in st.status ==> EnqueueAll(st, xs).status[i] == st.status[i]
    ensures forall i :: i in xs ==> EnqueueAll(st, xs).status[i] == Q
    decreases |xs|
  {
    hide Partition;
    if xs != [] {
      var init, last := xs[..|xs| - 1], xs[|xs| - 1];
      assert xs == init + [last];
      assert last !in init;
      EnqueueAllKeeps(items, st, limbo, init);
      EnqueueKeeps(items, EnqueueAll(st, init), limbo, last);
    }
  }

  lemma EnqueueAllStatus(st: State, xs: seq<Item>)
    ensures EnqueueAll(st, xs).running == st.running && EnqueueAll(st, xs).passed == st.passed
    ensures EnqueueAll(st, xs).failed == st.failed && EnqueueAll(st, xs).killed == st.killed
    decreases |xs|
  {
    if xs != [] {
      EnqueueAllStatus(st, xs[..|xs| - 1]);
    }
  }

  /** Enqueueing exactly the ready dependents of a completed item leaves no orphan behind. */
  lemma EnqueueStep(items: seq<Item>, st: State, limbo: set<Item>, launched: set<Item>, x: Item, xs: seq<Item>)
    requires Good(items, st, limbo, launched) && PendingOn(items, st.status, x, {}) && Distinct(xs)
    requires forall i :: i in xs <==>
        i in items && i !in st.status && DependsOn(items, i, x) && Ready(items, st.status, i)
    ensures var st' := EnqueueAll(st, xs);
            && Good(items, st', limbo, launched)
            && NoOrphan(items, st'.status, {})
            && Advances(st.status, st'.status)
            && (forall i :: Complete(st'.status, i) <==> Complete(st.status, i))
  {
    hide Partition;
    var st' := EnqueueAll(st, xs);
    EnqueueAllKeeps(items, st, limbo, xs);
    hide EnqueueAll;
    QueueingKeeps(items, st.status, st'.status, set i | i in xs);
    LaunchesPersist(items, st.status, st'.status, launched);
    forall i | i in items && i !in st'.status
      ensures !Ready(items, st'.status, i)
    {
      assert Ready(items, st'.status, i) <==> Ready(items, st.status, i);
      assert i !in xs;
    }
  }

  // ----- cancelling a cascade -----

  /** From `s0` to `s1`, scheduled items were cancelled and nothing else happened. */
  ghost predicate OnlyCancels(s0: State, s1: State) {
    && s1.queued == s0.queued && s1.running == s0.running && s1.passed == s0.passed && s1.failed == s0.failed
    && (forall i :: i in s0.status ==> i in s1.status && s1.status[i] == s0.status[i])
    && (forall i :: i in s1.status && i !in s0.status ==> s1.status[i] == K)
  }

  lemma OnlyCancelsTrans(s0: State, s1: State, s2: State)
    requires OnlyCancels(s0, s1) && OnlyCancels(s1, s2)
    ensures OnlyCancels(s0, s2)
  {
  }

  /** The worklist of a cascade: exactly the scheduled items that nothing keeps waiting. */
  ghost predicate Worklist(items: seq<Item>, st: State, work: seq<Item>) {
    && Distinct(work)
    && (forall i :: i in work ==> i in items && i !in st.status && Ready(items, st.status, i))
    && NoOrphan(items, st.status, set i | i in work)
  }

  lemma WorklistStart(items: seq<Item>, st: State, limbo: set<Item>, x: Item, work: seq<Item>)
    requires WellFormed(items) && Partition(items, st, limbo) && x in items && x.target in TargetsOf(items)
    requires PendingOn(items, st.status, x, {})
    requires work == Successors(items, TargetsOf(items), st, x)
    ensures Worklist(items, st, work)
  {
    hide WellFormed, Partition, Successors, Ready, DependsOn, TargetsOf;
    SuccessorsMembers(items, st, limbo, x);
  }

  lemma WorklistSplit(items: seq<Item>, st: State, work: seq<Item>, next: Item)
    requires Worklist(items, st, work + [next])
    ensures Distinct(work) && next !in work
    ensures next in items && next !in st.status && Ready(items, st.status, next)
    ensures NoOrphan(items, st.status, (set i | i in work) + {next})
  {
    assert next in work + [next];
    assert (set i | i in work + [next]) == (set i | i in work) + {next};
    forall n | 0 <= n < |work|
      ensures work[n] != next
    {
      assert (work + [next])[n] != (work + [next])[|work|];
    }
    assert forall n :: 0 <= n < |work| ==> work[n] == (work + [next])[n];
  }

  /** One step of the cascade: cancel `next`, then append its ready dependents to the worklist. */
  lemma CascadeStep(items: seq<Item>, st: State, limbo: set<Item>, launched: set<Item>, work: seq<Item>, next: Item)
    requires Good(items, st, limbo, launched) && Worklist(items, st, work + [next])
    ensures next in items && next !in st.status
    ensures Good(items, Cancel(st, next), limbo, launched)
    ensures JustCompleted(items, st.status, Cancel(st, next).status, next, (set i | i in work) + {next})
    ensures OnlyCancels(st, Cancel(st, next))
  {
    WorklistSplit(items, st, work, next);
    CancelScheduledStep(items, st, limbo, launched, next, set i | i in work);
    assert Partition(items, st, limbo);
    hide Good, Worklist, Partition, Cancel;
    CancelsScheduled(items, st, limbo, next);
  }

  lemma CascadeNext(items: seq<Item>, st: State, limbo: set<Item>, work: seq<Item>, next: Item, more: seq<Item>)
    requires Worklist(items, st, work + [next])
    requires JustCompleted(items, st.status, Cancel(st, next).status, next, (set i | i in work) + {next})
    requires WellFormed(items) && Partition(items, Cancel(st, next), limbo)
    requires next in items && next.target in TargetsOf(items)
    requires more == Successors(items, TargetsOf(items), Cancel(st, next), next)
    ensures Worklist(items, Cancel(st, next), work + more)
  {
    hide WellFormed, Partition, Successors, NoOrphan, PendingOn, DependentsUnseen, DependsOn, Ready, TargetsOf;
    var st' := Cancel(st, next);
    assert st'.status == st.status[next := K];
    hide Cancel;
    WorklistSplit(items, st, work, next);
    SuccessorsMembers(items, st', limbo, next);
    forall i | i in work
      ensures i in items && i !in st'.status && Ready(items, st'.status, i) && !DependsOn(items, i, next)
    {
      assert i in work + [next];
      assert Ready(items, st.status, i);
      ReadyPersists(items, st.status, st'.status, i);
      if DependsOn(items, i, next) {
        ReadyNeeds(items, st.status, i, next);
      }
    }
    WorklistJoin(items, st'.status, work, next, more);
  }

  lemma ReadyNeeds(items: seq<Item>, status: StatusMap, i: Item, d: Item)
    requires Ready(items, status, i) && DependsOn(items, i, d)
    ensures Complete(status, d)
  {
  }

  lemma WorklistJoin(items: seq<Item>, status: StatusMap, work: seq<Item>, next: Item, more: seq<Item>)
    requires next in status && Distinct(work) && Distinct(more)
    requires forall i :: i in work ==>
        i in items && i !in status && Ready(items, status, i) && !DependsOn(items, i, next)
    requires forall i :: i in more <==>
        i in items && i !in status && DependsOn(items, i, next) && Ready(items, status, i)
    requires PendingOn(items, status, next, (set i | i in work) + {next})
    ensures Distinct(work + more)
    ensures forall i :: i in work + more ==> i in items && i !in status && Ready(items, status, i)
    ensures NoOrphan(items, status, set i | i in work + more)
  {
    hide Ready, DependsOn;
    assert forall n :: 0 <= n < |work| ==> work[n] in work;
    assert forall n :: 0 <= n < |more| ==> more[n] in more;
    forall i | i in items && i !in status && Ready(items, status, i)
      ensures i in work + more
    {
      assert i != next;
    }
  }

  lemma CancelsScheduled(items: seq<Item>, st: State, limbo: set<Item>, x: Item)
    requires Partition(items, st, limbo) && x !in st.status
    ensures OnlyCancels(st, Cancel(st, x))
  {
    assert x !in WithStatus(st.status, Q) - limbo;
    assert x !in ListAt(st.queued, x.target);
  }

  /** From `s0` to `s1`, unfinished items were killed and nothing else happened. */
  ghost predicate OnlyKills(s0: State, s1: State) {
    && s1.passed == s0.passed && s1.failed == s0.failed
    && (forall i :: i in s0.status ==>
          i in s1.status && (s1.status[i] == s0.status[i] || (!Finished(s0.status[i]) && s1.status[i] == K)))
    && (forall i :: i in s1.status && i !in s0.status ==> s1.status[i] == K)
  }

  lemma OnlyKillsTrans(s0: State, s1: State, s2: State)
    requires OnlyKills(s0, s1) && OnlyKills(s1, s2)
    ensures OnlyKills(s0, s2)
  {
  }

  lemma CancelsAreKills(s0: State, x: Item, s1: State, s2: State)
    requires s1.passed == s0.passed && s1.failed == s0.failed
    requires s1.status == s0.status[x := K] && (x in s0.status ==> !Finished(s0.status[x]))
    requires OnlyCancels(s1, s2)
    ensures OnlyKills(s0, s2)
  {
  }

  lemma OnlyKillsAdvances(s0: State, s1: State)
    requires OnlyKills(s0, s1)
    ensures Advances(s0.status, s1.status) && NoNewResults(s0.status, s1.status)
  {
  }

  /** With nothing queued, running or orphaned, the schedule is empty and every item complete. */
  lemma AllOver(items: seq<Item>, st: State)
    requires Partition(items, st, {}) && NoOrphan(items, st.status, {})
    requires forall t :: ListAt(st.queued, t) == [] && ListAt(st.running, t) == []
    ensures forall i :: i in items ==> Complete(st.status, i)
    ensures forall t :: t in st.scheduled ==> st.scheduled[t] == map[]
  {
    forall j | j in st.status
      ensures Complete(st.status, j)
    {
      assert j in WithStatus(st.status, Q) - {} <==> j in ListAt(st.queued, j.target);
      assert j in WithStatus(st.status, D) <==> j in ListAt(st.running, j.target);
      assert st.status[j] in {Q, D, P, F, K};
    }
    forall i | i in items
      ensures Complete(st.status, i)
    {
      NothingLeft(items, st.status, i);
    }
    assert Unseen(items, st.status) == {};
    forall t, c | t in st.scheduled && c in st.scheduled[t]
      ensures false
    {
      var i := SlotHasMember(st.scheduled, Unseen(items, st.status), t, c);
    }
  }

  lemma SlotHasMember(s: Schedule, own: set<Item>, t: Target, c: Cfg) returns (i: Item)
    requires ScheduleHolds(s, own) && t in s && c in s[t]
    ensures i in own
  {
    i := s[t][c][0];
    assert i in SlotAt(s, t, c);
  }

  // ----- facts the scheduler's methods look up -----

  ghost predicate HasKeys(targets: seq<Target>, st: State) {
    forall t :: t in targets ==>
      t in st.scheduled && t in st.queued && t in st.running && t in st.passed && t in st.failed && t in st.killed
  }

  lemma KeysOf(targets: seq<Target>, st: State, t: Target)
    requires HasKeys(targets, st) && t in targets
    ensures t in st.scheduled && t in st.queued && t in st.running && t in st.passed && t in st.failed && t in st.killed
  {
  }

  lemma PopHasKeys(targets: seq<Target>, st: State, t: Target)
    requires HasKeys(targets, st) && ListAt(st.queued, t) != []
    ensures HasKeys(targets, Pop(st, t))
  {
  }

  lemma NotQueued(items: seq<Item>, st: State, limbo: set<Item>, x: Item)
    requires Partition(items, st, limbo) && x !in st.status
    ensures x !in ListAt(st.queued, x.target)
  {
    assert x !in WithStatus(st.status, Q) - limbo;
  }

  lemma NextIsNew(items: seq<Item>, st: State, limbo: set<Item>, xs: seq<Item>, n: nat)
    requires Partition(items, st, limbo) && Distinct(xs) && n < |xs|
    requires forall i :: i in xs ==> i in items && i !in st.status
    ensures var st' := EnqueueAll(st, xs[..n]);
            xs[n] in items && xs[n] !in st'.status && xs[n] !in ListAt(st'.queued, xs[n].target)
  {
    hide Partition, EnqueueAll;
    assert forall h :: 0 <= h < n ==> xs[..n][h] in xs && xs[h] != xs[n];
    EnqueueAllKeeps(items, st, limbo, xs[..n]);
    NotQueued(items, EnqueueAll(st, xs[..n]), limbo, xs[n]);
  }

  lemma Completed(items: seq<Item>, s0: StatusMap, s1: StatusMap, x: Item, pending: set<Item>)
    requires JustCompleted(items, s0, s1, x, pending)
    ensures Complete(s1, x) && PendingOn(items, s1, x, pending) && DependentsUnseen(items, s1, x)
    ensures Advances(s0, s1)
  {
  }

  lemma DistinctTargets(items: seq<Item>)
    ensures Distinct(TargetsOf(items))
  {
    TargetsOfShape(items);
  }

  lemma GoodPartition(items: seq<Item>, st: State, limbo: set<Item>, launched: set<Item>)
    requires Good(items, st, limbo, launched)
    ensures Partition(items, st, limbo)
  {
  }

  lemma EmptyWorklist(items: seq<Item>, st: State, work: seq<Item>)
    requires Worklist(items, st, work) && work == []
    ensures NoOrphan(items, st.status, {})
  {
    assert (set i | i in work) == {};
  }

  lemma CancelFalls(items: seq<Item>, st: State, x: Item)
    requires x in items && x !in st.status
    ensures Work(items, Cancel(st, x).status) < Work(items, st.status)
  {
    hide Cancel, Work, Advances;
    CancelStatus(st, x);
    RankFalls(items, st.status, x, K);
  }

  lemma CancelStatus(st: State, x: Item)
    ensures Cancel(st, x).status == st.status[x := K]
  {
  }

  /** An item that moves on leaves less work. */
  lemma RankFalls(items: seq<Item>, status: StatusMap, x: Item, s: Status)
    requires x in items && Rank(status[x := s], x) < Rank(status, x)
    ensures Work(items, status[x := s]) < Work(items, status)
  {
    hide Work;
    WorkFalls(items, status, status[x := s]);
  }

  lemma OnlyCancelsLists(s0: State, s1: State)
    requires OnlyCancels(s0, s1)
    ensures s1.queued == s0.queued && s1.running == s0.running
    ensures forall i :: i in s0.status ==> i in s1.status && s1.status[i] == s0.status[i]
  {
  }

  lemma CancelsNothing(st: State)
    ensures OnlyCancels(st, st)
  {
  }

  lemma KillsNothing(st: State)
    ensures OnlyKills(st, st)
  {
  }

  lemma HeadOfQueue(items: seq<Item>, st: State, limbo: set<Item>, t: Target, l: seq<Item>)
    requires Partition(items, st, limbo) && ListAt(st.queued, t) == l && l != []
    ensures l[0] in items && l[0].target == t && l[0] in st.status && st.status[l[0]] == Q && l[0] !in limbo
    ensures RemoveItem(l, l[0]) == l[1..]
  {
    assert l[0] in l;
    assert l[0] in WithStatus(st.status, Q) - limbo;
  }

  lemma HeadOfRunning(items: seq<Item>, st: State, limbo: set<Item>, t: Target, l: seq<Item>)
    requires Partition(items, st, limbo) && ListAt(st.running, t) == l && l != []
    ensures l[0] in items && l[0].target == t && l[0] in st.status && st.status[l[0]] == D
    ensures RemoveItem(l, l[0]) == l[1..]
  {
    assert l[0] in l;
    assert l[0] in WithStatus(st.status, D);
  }

  /** Lists of targets that no item has are empty. */
  lemma StrayLists(items: seq<Item>, st: State, limbo: set<Item>, t: Target)
    requires Partition(items, st, limbo) && t !in TargetsOf(items)
    ensures ListAt(st.queued, t) == [] && ListAt(st.running, t) == []
  {
    TargetsOfShape(items);
    if ListAt(st.queued, t) != [] {
      HeadOfQueue(items, st, limbo, t, ListAt(st.queued, t));
    }
    if ListAt(st.running, t) != [] {
      HeadOfRunning(items, st, limbo, t, ListAt(st.running, t));
    }
  }
}
