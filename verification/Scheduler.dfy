/** The regression job scheduler. */
module Scheduling {
  import opened Sequences
  import opened Wrappers
  import opened Jobs
  import opened SchedulerState
  import opened Dependencies
  import opened SchedulerSteps
  import opened Polling
  import opened PollSteps
  import opened DispatchSteps
  import opened DispatchPass
  import opened QueueFill
  import opened PassResults
  import opened RunSteps

  class Scheduler {
    const items: seq<Item>
    // The keys of `scheduled`, in insertion order; no target is ever removed.
    const targets: seq<Target>

    // The launchers: how each job will end, and which ones fail to launch.
    const outcome: StatusMap
    const launchFails: set<Item>
    const maxParallel: nat
    const maxPoll: nat

    var scheduled: Schedule
    var queued: Lists
    var running: Lists
    var passed: Groups
    var failed: Groups
    var killed: Groups
    var total: map<Target, nat>
    var lastTargetPolled: int
    var lastItemPolled: map<Target, int>
    var itemToStatus: StatusMap

    // How often each launcher will still answer that its job is running.
    var delay: map<Item, nat>

    // The items ever started, and the launcher polls made with their answers.
    ghost var launched: set<Item>
    ghost var trace: seq<(Item, Status)>

    ghost function St(): State
      reads `scheduled, `queued, `running, `passed, `failed, `killed, `itemToStatus
    {
      State(scheduled, queued, running, passed, failed, killed, itemToStatus)
    }

    /** What the scheduler is built with: launchers that answer, and positive limits. */
    ghost predicate Built() {
      && targets == TargetsOf(items)
      && (forall i :: i in items ==> i in outcome && Finished(outcome[i]))
      && maxParallel > 0 && maxPoll > 0
    }

    /** What a run needs: the job graph has the shape that the flow gives it. */
    ghost predicate Setup() {
      WellFormed(items) && Built()
    }

    lemma SetupGives()
      requires Setup()
      ensures WellFormed(items) && targets == TargetsOf(items) && maxParallel > 0 && maxPoll > 0
    {
    }

    lemma HasOutcome(item: Item)
      requires Setup() && item in items
      ensures item in outcome && Answered(outcome, (item, outcome[item]))
    {
    }

    /** Every target has its entry in every dictionary. */
    ghost predicate HaveKeys()
      reads `scheduled, `queued, `running, `passed, `failed, `killed, `itemToStatus
    {
      HasKeys(targets, St())
    }

    ghost predicate PollState()
      reads `lastTargetPolled, `lastItemPolled, `delay, `trace, `itemToStatus
    {
      PollOk(items, outcome, targets, lastTargetPolled, lastItemPolled, delay, trace, itemToStatus)
    }

    /** Between steps: everything is in its place and no item is forgotten. */
    ghost predicate Sound(limbo: set<Item>)
      reads `scheduled, `queued, `running, `passed, `failed, `killed, `itemToStatus, `launched
    {
      Setup() && HaveKeys() && Good(items, St(), limbo, launched) && NoOrphan(items, itemToStatus, {})
    }

    lemma SoundGives(limbo: set<Item>)
      requires Sound(limbo)
      ensures WellFormed(items) && targets == TargetsOf(items) && HasKeys(targets, St())
      ensures Steady(items, St(), limbo, launched) && Partition(items, St(), limbo)
      ensures Good(items, St(), limbo, launched)
    {
      hide WellFormed, TargetsOf, HasKeys, NoOrphan, Partition;
    }

    /** What is left to do: the work on the items and the answers the launchers still owe. */
    ghost function Remaining(): nat
      reads `itemToStatus, `delay
    {
      Work(items, itemToStatus) + Delays(items, delay)
    }

    /** The state before a run: everything is scheduled. */
    ghost predicate Fresh()
      reads this
    {
      && Built() && HaveKeys() && Good(items, St(), {}, launched) && PollState()
      && itemToStatus == map[] && launched == {} && trace == []
      && Totals(items, targets, total)
    }

    constructor (items: seq<Item>, outcome: StatusMap, launchFails: set<Item>, delay: map<Item, nat>,
                 maxParallel: nat, maxPoll: nat)
      requires maxParallel > 0 && maxPoll > 0
      requires forall i :: i in items ==> i in outcome && Finished(outcome[i]) && i in delay
      ensures Fresh()
      ensures this.items == items && this.outcome == outcome && this.launchFails == launchFails
      ensures this.maxParallel == maxParallel && this.maxPoll == maxPoll && this.delay == delay
      ensures St() == Blank(scheduled, targets)
      ensures lastTargetPolled == -1 && lastItemPolled == map t | t in targets :: -1
    {
      hide WellFormed, Good, TargetsOf, HasKeys, ScheduleHolds, Totals, OfTarget, Elements, Separate;
      this.items, this.outcome, this.launchFails, this.delay := items, outcome, launchFails, delay;
      this.maxParallel, this.maxPoll := maxParallel, maxPoll;
      var schedule, keys := AddToScheduled(items);
      BlankGood(items, schedule);
      scheduled, targets := schedule, keys;
      var lists: Lists := map t | t in keys :: [];
      var groups: Groups := map t | t in keys :: {};
      queued, running := lists, lists;
      passed, failed, killed := groups, groups, groups;
      lastTargetPolled := -1;
      lastItemPolled := map t | t in keys :: -1;
      itemToStatus := map[];
      launched, trace := {}, [];
      var totals: map<Target, nat> := map[];
      NoTotals(items, keys);
      for n := 0 to |keys|
        invariant Totals(items, keys[..n], totals)
      {
        TargetElements(schedule, Members(items), keys[n]);
        var count := SumDictLists(schedule[keys[n]]);
        MoreTotals(items, keys, n, totals, count);
        totals := totals[keys[n] := count];
      }
      assert keys[..|keys|] == keys;
      total := totals;
    }

    /** `_get_successors` at the start: the items of the first target, one configuration after
        the other in any order. */
    method GetFirst() returns (successors: seq<Item>)
      requires Fresh() && WellFormed(items)
      ensures targets != [] && Distinct(successors)
      ensures forall i :: i in successors <==> i in items && i.target == targets[0]
      ensures ByConfiguration(items, successors)
    {
      hide WellFormed, Good, Partition, TargetsOf, HasKeys, Totals, Ready, PollState, ByConfiguration, InOrder;
      ghost var st := St();
      TargetsExist(items);
      DistinctTargets(items);
      GoodPartition(items, st, {}, launched);
      KeysOf(targets, st, targets[0]);
      FirstSlots(items, st, targets[0]);
      var target := GetNextTarget(None);
      var cfgs := scheduled[target.value].Keys;
      successors := [];
      NoConfiguration(items);
      while cfgs != {}
        invariant cfgs <= scheduled[target.value].Keys
        invariant Distinct(successors) && ByConfiguration(items, successors)
        invariant forall i :: i in successors <==> i in items && i.target == target.value && i.cfg !in cfgs
        decreases cfgs
      {
        var cfg :| cfg in cfgs;
        cfgs := cfgs - {cfg};
        var list := scheduled[target.value][cfg];
        ghost var before := successors;
        assert list == SlotAt(scheduled, target.value, cfg);
        for n := 0 to |list|
          invariant successors == before + list[..n]
        {
          var nextItem := list[n];
          assert nextItem in list;
          FirstReady(items, nextItem);
          var ok := OkToEnqueue(nextItem);
          if ok {
            successors := successors + [nextItem];
          }
        }
        assert successors == before + list;
        DistinctJoin(before, list);
        InOrderSlots(items, st, {}, target.value, cfg);
        NextConfiguration(items, before, list, cfg);
      }
    }

    /** `_enqueue_successors` at the start: enqueues the items of the first target. */
    method EnqueueFirst()
      requires Fresh() && WellFormed(items)
      modifies `scheduled, `queued, `itemToStatus
      ensures Sound({}) && PollState()
      ensures forall i :: !Complete(itemToStatus, i)
      ensures forall i :: i in itemToStatus <==> i in items && i.target == targets[0]
      ensures ByConfiguration(items, ListAt(queued, targets[0]))
      ensures forall t :: t != targets[0] ==> ListAt(queued, t) == []
    {
      hide WellFormed, Good, Partition, TargetsOf, HasKeys, Totals, Ready, NoOrphan, Complete, DependsOn, Unschedule;
      hide Answering, Indexed, Finished, Enqueue, Distinct, ByConfiguration;
      ghost var st := St();
      GoodPartition(items, st, {}, launched);
      var successors := GetFirst();
      assert successors[..0] == [];
      for n := 0 to |successors|
        invariant HaveKeys()
        invariant St() == EnqueueAll(st, successors[..n])
      {
        var nextItem := successors[n];
        assert nextItem in successors;
        NextIsNew(items, st, {}, successors, n);
        TargetKnown(items, nextItem);
        KeysOf(targets, St(), nextItem.target);
        assert nextItem !in itemToStatus;
        assert nextItem !in queued[nextItem.target];
        assert successors[..n + 1][..n] == successors[..n];
        EnqueueItem(nextItem);
      }
      assert successors[..|successors|] == successors;
      FirstStep(items, st, successors);
      EnqueueAllKeeps(items, st, {}, successors);
      FirstQueues(items, st, successors, targets[0]);
    }

    /** `_remove_from_scheduled` */
    method RemoveFromScheduled(item: Item)
      requires item.target in scheduled
      modifies `scheduled
      ensures scheduled == Unschedule(old(scheduled), item)
    {
      var targetDict := scheduled[item.target];
      if item.cfg in targetDict {
        var cfgList := RemoveItem(targetDict[item.cfg], item);
        if cfgList == [] {
          targetDict := targetDict - {item.cfg};
        } else {
          targetDict := targetDict[item.cfg := cfgList];
        }
        scheduled := scheduled[item.target := targetDict];
      }
    }

    /** `_get_next_target` */
    method GetNextTarget(currTarget: Option<Target>) returns (next: Option<Target>)
      requires targets != [] && Distinct(targets)
      requires currTarget.Some? ==> currTarget.value in targets
      ensures next == if currTarget.None? then Some(targets[0]) else NextOf(targets, currTarget.value)
    {
      if currTarget.None? {
        return Some(targets[0]);
      }
      var n := 0;
      var found := false;
      while !found
        invariant 0 <= n < |targets|
        invariant !found ==> n <= Pos(targets, currTarget.value)
        invariant found ==> n == Pos(targets, currTarget.value) + 1
        decreases |targets| - n, !found
      {
        PosAt(targets, n);
        if targets[n] == currTarget.value {
          found := true;
        }
        if n + 1 == |targets| {
          return None;
        }
        n := n + 1;
      }
      return Some(targets[n]);
    }

    /** `_ok_to_enqueue` */
    method OkToEnqueue(item: Item) returns (ok: bool)
      ensures ok <==> Ready(items, itemToStatus, item)
    {
      for n := 0 to |item.dependencies|
        invariant forall h :: 0 <= h < n && item.dependencies[h] in items ==>
            Complete(itemToStatus, item.dependencies[h])
      {
        var dep := item.dependencies[n];
        if dep !in items {
          continue;
        }
        if dep !in itemToStatus || !Finished(itemToStatus[dep]) {
          assert DependsOn(items, item, dep);
          return false;
        }
      }
      return true;
    }

    /** `_ok_to_run`; the dependencies' statuses are known because the item was enqueued. */
    method OkToRun(item: Item) returns (ok: bool)
      requires Ready(items, itemToStatus, item)
      ensures ok <==> Passing(items, itemToStatus, item)
    {
      for n := 0 to |item.dependencies|
        invariant forall h :: 0 <= h < n && item.dependencies[h] in items ==>
          item.dependencies[h] in itemToStatus && (itemToStatus[item.dependencies[h]] == P <==> item.needsAll)
      {
        var dep := item.dependencies[n];
        if dep !in items {
          continue;
        }
        assert DependsOn(items, item, dep);
        var depStatus := itemToStatus[dep];
        assert Finished(depStatus);
        if item.needsAll {
          if depStatus == F || depStatus == K {
            return false;
          }
        } else if depStatus == P {
          return true;
        }
      }
      return item.needsAll;
    }

    /** `_get_successors` of a completed item. */
    method GetSuccessors(item: Item, ghost limbo: set<Item>) returns (successors: seq<Item>)
      requires Setup() && Good(items, St(), limbo, launched)
      requires item in items && item.target in targets && DependentsUnseen(items, itemToStatus, item)
      ensures successors == Successors(items, targets, St(), item) && InOrder(items, successors)
    {
      hide WellFormed, Partition, Good, Ready, DependentsUnseen, Pos, DepsDone, LaunchesSafe, DependsOn, TargetsOf,
          NextOf, InOrder;
      GoodPartition(items, St(), limbo, launched);
      DistinctTargets(items);
      SuccessorsInOrder(items, St(), limbo, item);
      var target := GetNextTarget(Some(item.target));
      if target.None? {
        return [];
      }
      SlotExists(items, St(), limbo, item);
      var list := scheduled[target.value][item.cfg];
      assert list == SlotAt(scheduled, target.value, item.cfg);
      successors := [];
      for n := 0 to |list|
        invariant successors == ReadyDependents(items, itemToStatus, list[..n], item)
      {
        var nextItem := list[n];
        assert list[..n + 1][..n] == list[..n];
        SlotMember(items, St(), limbo, target.value, item.cfg, nextItem);
        SuccessorsHaveDependencies(items, item, nextItem);
        assert nextItem.dependencies != [];
        if item !in nextItem.dependencies {
          continue;
        }
        var ok := OkToEnqueue(nextItem);
        if ok {
          successors := successors + [nextItem];
        }
      }
      assert list[..|list|] == list;
    }

    /** `_enqueue_successors` of a completed item. */
    method EnqueueSuccessors(item: Item, ghost limbo: set<Item>)
      requires Setup() && HaveKeys() && Good(items, St(), limbo, launched)
      requires item in items && item.target in targets
      requires PendingOn(items, itemToStatus, item, {}) && DependentsUnseen(items, itemToStatus, item)
      modifies `scheduled, `queued, `itemToStatus
      ensures St() == EnqueueAll(old(St()), Successors(items, targets, old(St()), item))
      ensures AppendsInOrder(items, old(queued), queued)
      ensures HaveKeys() && Good(items, St(), limbo, launched)
      ensures NoOrphan(items, itemToStatus, {}) && Advances(old(itemToStatus), itemToStatus)
      ensures forall i :: Complete(itemToStatus, i) <==> Complete(old(itemToStatus), i)
    {
      ghost var st := St();
      hide WellFormed, Partition, Good, Ready, DependentsUnseen, PendingOn, Successors, NoOrphan, Advances, DependsOn;
      hide TargetsOf, Enqueue, Finished, AppendsInOrder, InOrder;
      GoodPartition(items, st, limbo, launched);
      var successors := GetSuccessors(item, limbo);
      SuccessorsMembers(items, st, limbo, item);
      assert successors[..0] == [];
      for n := 0 to |successors|
        invariant HaveKeys()
        invariant St() == EnqueueAll(st, successors[..n])
      {
        var nextItem := successors[n];
        NextIsNew(items, st, limbo, successors, n);
        TargetKnown(items, nextItem);
        assert nextItem !in itemToStatus;
        assert nextItem !in queued[nextItem.target];
        assert successors[..n + 1][..n] == successors[..n];
        EnqueueItem(nextItem);
      }
      assert successors[..|successors|] == successors;
      SuccessorsJoin(items, st, limbo, item);
      EnqueueStep(items, st, limbo, launched, item, successors);
    }

    /** The body of the loop of `_enqueue_successors`. */
    method EnqueueItem(nextItem: Item)
      requires nextItem.target in queued && nextItem.target in scheduled
      modifies `scheduled, `queued, `itemToStatus
      ensures St() == Enqueue(old(St()), nextItem)
      ensures old(HaveKeys()) ==> HaveKeys()
    {
      itemToStatus := itemToStatus[nextItem := Q];
      queued := queued[nextItem.target := queued[nextItem.target] + [nextItem]];
      RemoveFromScheduled(nextItem);
    }

    /** `_cancel_item` with `cancel_successors` false. */
    method CancelItemOnly(item: Item)
      requires item.target in scheduled && item.target in queued && item.target in killed
      modifies `scheduled, `queued, `killed, `itemToStatus
      ensures St() == Cancel(old(St()), item)
      ensures old(HaveKeys()) ==> HaveKeys()
    {
      itemToStatus := itemToStatus[item := K];
      killed := killed[item.target := killed[item.target] + {item}];
      if item in queued[item.target] {
        queued := queued[item.target := RemoveItem(queued[item.target], item)];
      } else {
        RemoveFromScheduled(item);
      }
    }

    /** `_cancel_successors` of a completed item: cancels whatever becomes ready, transitively. */
    method CancelSuccessors(item: Item, ghost limbo: set<Item>)
      requires Setup() && HaveKeys() && Good(items, St(), limbo, launched)
      requires item in items && item.target in targets
      requires PendingOn(items, itemToStatus, item, {}) && DependentsUnseen(items, itemToStatus, item)
      modifies `scheduled, `queued, `killed, `itemToStatus
      ensures HaveKeys() && Good(items, St(), limbo, launched)
      ensures NoOrphan(items, itemToStatus, {})
      ensures OnlyCancels(old(St()), St())
      ensures St() == Cascade(items, targets, old(St()), Successors(items, targets, old(St()), item))
    {
      hide WellFormed, Partition, Good, Ready, DependentsUnseen, PendingOn, Successors, Cancel, DependsOn, TargetsOf,
          HasKeys;
      hide Worklist, OnlyCancels, JustCompleted, Work, NoOrphan, Cascade;
      GoodPartition(items, St(), limbo, launched);
      TargetKnown(items, item);
      var work := GetSuccessors(item, limbo);
      WorklistStart(items, St(), limbo, item, work);
      CancelsNothing(St());
      ghost var st0, work0 := St(), work;
      while work != []
        invariant HaveKeys() && Good(items, St(), limbo, launched)
        invariant OnlyCancels(old(St()), St())
        invariant Worklist(items, St(), work)
        invariant Cascade(items, targets, St(), work) == Cascade(items, targets, st0, work0)
        decreases Work(items, itemToStatus)
      {
        ghost var st := St();
        var nextItem := work[|work| - 1];
        assert work == work[..|work| - 1] + [nextItem];
        work := work[..|work| - 1];
        CascadeStep(items, st, limbo, launched, work, nextItem);
        TargetKnown(items, nextItem);
        KeysOf(targets, St(), nextItem.target);
        CancelItemOnly(nextItem);
        Completed(items, st.status, itemToStatus, nextItem, (set i | i in work) + {nextItem});
        GoodPartition(items, St(), limbo, launched);
        var more := GetSuccessors(nextItem, limbo);
        CascadeNext(items, st, limbo, work, nextItem, more);
        CascadeUnfolds(items, targets, st, work, nextItem);
        OnlyCancelsTrans(old(St()), st, St());
        CancelFalls(items, st, nextItem);
        work := work + more;
      }
      EmptyWorklist(items, St(), work);
      CascadeEnds(items, targets, St());
    }

    /** `_cancel_item` of a queued item, with its successors. */
    method CancelItem(item: Item)
      requires Sound({})
      requires item in items && item in itemToStatus && itemToStatus[item] == Q
      modifies `scheduled, `queued, `killed, `itemToStatus
      ensures Sound({})
      ensures OnlyKills(old(St()), St())
      ensures queued == old(queued)[item.target := RemoveItem(ListAt(old(queued), item.target), item)]
    {
      hide WellFormed, Partition, Good, Ready, DependentsUnseen, PendingOn, Successors, NoOrphan, Advances, DependsOn;
      hide TargetsOf, OnlyCancels, JustCompleted, OnlyKills;
      ghost var st := St();
      TargetKnown(items, item);
      GoodPartition(items, st, {}, launched);
      QueuedHere(items, st, {}, item);
      CancelQueuedStep(items, st, {}, launched, item);
      CancelItemOnly(item);
      Completed(items, st.status, itemToStatus, item, {});
      ghost var mid := St();
      CancelSuccessors(item, {});
      CancelsAreKills(st, item, mid, St());
      OnlyCancelsLists(mid, St());
    }

    /** `_kill_item` */
    method KillItem(item: Item, ghost limbo: set<Item>)
      requires Sound(limbo)
      requires item in items && item in itemToStatus && itemToStatus[item] == D
      modifies `scheduled, `queued, `running, `killed, `itemToStatus
      ensures Sound(limbo)
      ensures OnlyKills(old(St()), St()) && queued == old(queued)
      ensures running == old(running)[item.target := RemoveItem(ListAt(old(running), item.target), item)]
      ensures item in itemToStatus && itemToStatus[item] == K
      ensures item.target in targets && St() == KillState(items, targets, old(St()), item)
    {
      hide WellFormed, Partition, Good, Ready, DependentsUnseen, PendingOn, Successors, NoOrphan, Advances, DependsOn;
      hide TargetsOf, OnlyCancels, JustCompleted, OnlyKills, Cascade;
      ghost var st := St();
      TargetKnown(items, item);
      FinishStep(items, st, limbo, launched, item, K);
      itemToStatus := itemToStatus[item := K];
      killed := killed[item.target := killed[item.target] + {item}];
      running := running[item.target := RemoveItem(running[item.target], item)];
      ghost var mid := St();
      assert mid == Finish(st, item, K);
      Completed(items, st.status, itemToStatus, item, {});
      CancelSuccessors(item, limbo);
      CancelsAreKills(st, item, mid, St());
      OnlyCancelsLists(mid, St());
    }

    /** Cancels the waiting items of one target, from a copy of its queue. */
    method CancelQueue(target: Target)
      requires Sound({})
      requires target in targets
      modifies `scheduled, `queued, `killed, `itemToStatus
      ensures Sound({})
      ensures OnlyKills(old(St()), St())
      ensures queued == old(queued)[target := []]
    {
      hide WellFormed, Partition, Good, Ready, NoOrphan, Advances, DependsOn, TargetsOf, OnlyKills, Distinct,
          RemoveItem;
      ghost var st := St();
      var copy := queued[target];
      KillsNothing(st);
      for n := 0 to |copy|
        invariant Sound({})
        invariant OnlyKills(st, St())
        invariant queued == st.queued[target := copy[n..]]
      {
        ghost var before := St();
        GoodPartition(items, before, {}, launched);
        HeadOfQueue(items, before, {}, target, copy[n..]);
        CancelItem(copy[n]);
        OnlyKillsTrans(st, before, St());
      }
    }

    /** Kills the running items of one target, from a copy of its list. */
    method KillRunning(target: Target)
      requires Sound({})
      requires target in targets
      modifies `scheduled, `queued, `running, `killed, `itemToStatus
      ensures Sound({})
      ensures OnlyKills(old(St()), St()) && queued == old(queued)
      ensures running == old(running)[target := []]
    {
      hide WellFormed, Partition, Good, Ready, NoOrphan, Advances, DependsOn, TargetsOf, OnlyKills, Distinct,
          RemoveItem;
      ghost var st := St();
      var copy := running[target];
      KillsNothing(st);
      for n := 0 to |copy|
        invariant Sound({})
        invariant OnlyKills(st, St()) && queued == st.queued
        invariant running == st.running[target := copy[n..]]
      {
        ghost var before := St();
        GoodPartition(items, before, {}, launched);
        HeadOfRunning(items, before, {}, target, copy[n..]);
        KillItem(copy[n], {});
        OnlyKillsTrans(st, before, St());
      }
    }

    /** `_kill`: afterwards nothing is queued, running or scheduled, every item that had not
        finished is killed, and no earlier outcome has changed. */
    method Kill()
      requires Sound({})
      modifies `scheduled, `queued, `running, `killed, `itemToStatus
      ensures Sound({})
      ensures OnlyKills(old(St()), St())
      ensures forall t :: ListAt(queued, t) == [] && ListAt(running, t) == []
      ensures forall t :: t in scheduled ==> scheduled[t] == map[]
      ensures forall i :: i in items ==> Complete(itemToStatus, i)
    {
      hide WellFormed, Partition, Good, Ready, NoOrphan, Advances, DependsOn, TargetsOf, OnlyKills, Distinct;
      ghost var st := St();
      assert OnlyKills(st, St()) by { KillsNothing(st); }
      for n := 0 to |targets|
        invariant Sound({})
        invariant OnlyKills(st, St())
        invariant forall h :: 0 <= h < n ==> queued[targets[h]] == []
      {
        ghost var before := St();
        CancelQueue(targets[n]);
        OnlyKillsTrans(st, before, St());
      }
      for n := 0 to |targets|
        invariant Sound({})
        invariant OnlyKills(st, St())
        invariant forall t :: t in targets ==> queued[t] == []
        invariant forall h :: 0 <= h < n ==> running[targets[h]] == []
      {
        ghost var before := St();
        KillRunning(targets[n]);
        OnlyKillsTrans(st, before, St());
      }
      GoodPartition(items, St(), {}, launched);
      forall t
        ensures ListAt(queued, t) == [] && ListAt(running, t) == []
      {
        if t !in targets {
          StrayLists(items, St(), {}, t);
        }
      }
      AllOver(items, St());
    }

    /** `launcher.poll()` */
    method LauncherPoll(item: Item) returns (status: Status)
      requires item in delay && item in outcome
      modifies `delay, `trace
      ensures status == if old(delay)[item] > 0 then D else outcome[item]
      ensures delay == if old(delay)[item] > 0 then old(delay)[item := old(delay)[item] - 1] else old(delay)
      ensures trace == old(trace) + [(item, status)]
    {
      if delay[item] > 0 {
        delay := delay[item := delay[item] - 1];
        status := D;
      } else {
        status := outcome[item];
      }
      trace := trace + [(item, status)];
    }

    /** Files a running item that has finished, and enqueues its successors. */
    method FileResult(target: Target, index: nat, status: Status)
      requires Sound({}) && target in targets && index < |ListAt(running, target)| && Finished(status)
      modifies `scheduled, `queued, `running, `passed, `failed, `killed, `itemToStatus
      ensures Sound({})
      ensures running == old(running)[target := Drop(ListAt(old(running), target), index, true)]
      ensures AppendsInOrder(items, old(queued), queued)
      ensures Polled(items, targets, old(St()), St(), ListAt(old(running), target)[index], status)
      ensures Advances(old(itemToStatus), itemToStatus)
      ensures OnlyResult(old(itemToStatus), itemToStatus, ListAt(old(running), target)[index], status)
      ensures Work(items, itemToStatus) < Work(items, old(itemToStatus))
      ensures outcome[ListAt(old(running), target)[index]] == status && Faithful(items, outcome, old(itemToStatus))
              ==> Faithful(items, outcome, itemToStatus)
    {
      hide WellFormed, Partition, Good, Ready, NoOrphan, Advances, DependsOn, TargetsOf, JustCompleted, PendingOn;
      hide DependentsUnseen, Successors, EnqueueAll, Faithful, Work, RemoveItem, Distinct, Final, AppendsInOrder;
      ghost var st := St();
      GoodPartition(items, st, {}, launched);
      var item := running[target][index];
      RunningItem(items, st, {}, target, index);
      FinishStep(items, st, {}, launched, item, status);
      if status == P {
        passed := passed[target := passed[target] + {item}];
      } else if status == F {
        failed := failed[target := failed[target] + {item}];
      } else {
        killed := killed[target := killed[target] + {item}];
      }
      running := running[target := running[target][..index] + running[target][index + 1..]];
      itemToStatus := itemToStatus[item := status];
      ghost var mid := St();
      assert mid == Finish(st, item, status);
      hide Finish;
      Completed(items, st.status, itemToStatus, item, {});
      FinishFaithful(items, outcome, st, {}, launched, item);
      FinishFalls(items, st, item, status);
      EnqueueSuccessors(item, {});
      PollDone(items, outcome, st, mid, St(), item, status);
      EnqueueAllStatus(mid, Successors(items, targets, mid, item));
    }

    /** One round of the inner loop of `_poll`. */
    method PollOne(target: Target) returns (status: Status)
      requires Sound({}) && PollState() && target in targets && ListAt(running, target) != []
      modifies `scheduled, `queued, `running, `passed, `failed, `killed, `itemToStatus, `lastItemPolled, `delay, `trace
      ensures Sound({}) && PollState()
      ensures |trace| == |old(trace)| + 1 && trace[..|old(trace)|] == old(trace) && trace[|old(trace)|].1 == status
      ensures PolledNext(ListAt(old(running), target), IndexAt(old(lastItemPolled), target),
                         ListAt(running, target), IndexAt(lastItemPolled, target), trace[|old(trace)|])
      ensures forall t :: t != target ==> ListAt(running, t) == ListAt(old(running), t)
      ensures forall t :: t != target ==> IndexAt(lastItemPolled, t) == IndexAt(old(lastItemPolled), t)
      ensures Polled(items, targets, old(St()), St(), trace[|old(trace)|].0, status)
      ensures Advances(old(itemToStatus), itemToStatus) && Remaining() < old(Remaining())
      ensures Faithful(items, outcome, old(itemToStatus)) ==> Faithful(items, outcome, itemToStatus)
    {
      hide WellFormed, Good, Partition, NoOrphan, Advances, Faithful, HistoryOk, Work, Delays, Distinct, TargetsOf,
          Final;
      hide Polled, RemoveItem, Complete, Progress, Drop, PolledNext, ListsHold, GroupsHold, ScheduleHolds, DependsOn;
      hide HasKeys, Answers, PolledItems, Enqueue, Successors, Indexed, Answering, Setup, OnlyResult;
      SetupGives();
      IndexedAt(targets, lastItemPolled, target);
      KeysOf(targets, St(), target);
      ghost var st := St();
      GoodPartition(items, st, {}, launched);
      var next := GetNextItem(running[target], lastItemPolled[target]);
      var item, index := next.value.0, next.value.1;
      RunningItem(items, st, {}, target, index);
      AnsweringAt(items, delay, item);
      HasOutcome(item);
      PolledStill(items, targets, st, item);
      ghost var l0, i0 := running[target], lastItemPolled[target];
      lastItemPolled := lastItemPolled[target := index];
      status := LauncherPoll(item);
      DelayFalls(items, old(delay), item);
      IndexedSet(targets, old(lastItemPolled), target, index);
      NextIntro(l0, i0, index, (item, status));
      if status == D {
        NoChange(itemToStatus);
        HistoryOfRunning(outcome, old(trace), itemToStatus, item);
        return;
      }
      FileResult(target, index, status);
      IndexedSet(targets, lastItemPolled, target, index - 1);
      lastItemPolled := lastItemPolled[target := lastItemPolled[target] - 1];
      HistoryStep(outcome, old(trace), st.status, itemToStatus, item, status);
    }

    /** The inner loop of `_poll`: polls one target's items until none is running or the budget
        is used up. What is polled is described by `PollRun`. */
    method PollTarget(target: Target, budget: nat) returns (left: nat, changed: bool)
      requires Sound({}) && PollState() && target in targets
      modifies `scheduled, `queued, `running, `passed, `failed, `killed, `itemToStatus, `lastItemPolled, `delay, `trace
      ensures Sound({}) && PollState()
      ensures left <= budget && (left == 0 || ListAt(running, target) == [])
      ensures budget > 0 && ListAt(old(running), target) != [] ==> left < budget
      ensures |trace| == |old(trace)| + budget - left && trace[..|old(trace)|] == old(trace)
      ensures PolledRun(ListAt(old(running), target), IndexAt(old(lastItemPolled), target),
                        ListAt(running, target), IndexAt(lastItemPolled, target), trace[|old(trace)|..])
      ensures forall t :: t != target ==> ListAt(running, t) == ListAt(old(running), t)
      ensures forall t :: t != target ==> IndexAt(lastItemPolled, t) == IndexAt(old(lastItemPolled), t)
      ensures changed <==> Found(trace, |old(trace)|)
      ensures Progress(items, outcome, old(St()), St(), old(Remaining()), Remaining(), budget - left)
    {
      hide WellFormed, Good, NoOrphan, HistoryOk, Answering, Work, Delays, TargetsOf, Progress, Polled, PolledNext,
          PolledRun, Found, Advances, Faithful, StillRunning;
      FoundMore(trace, trace, |trace|);
      left := budget;
      changed := false;
      ghost var start, l0, i0 := |trace|, ListAt(running, target), IndexAt(lastItemPolled, target);
      ghost var st0, r0 := St(), Remaining();
      ProgressNone(items, outcome, st0, r0);
      assert trace[start..] == [];
      PolledNothing(l0, i0);
      while ListAt(running, target) != [] && left > 0
        invariant Sound({}) && PollState()
        invariant left <= budget && |trace| == start + budget - left && trace[..start] == old(trace)
        invariant left == budget ==> ListAt(running, target) == l0
        invariant PolledRun(l0, i0, ListAt(running, target), IndexAt(lastItemPolled, target), trace[start..])
        invariant forall t :: t != target ==> ListAt(running, t) == ListAt(old(running), t)
        invariant forall t :: t != target ==> IndexAt(lastItemPolled, t) == IndexAt(old(lastItemPolled), t)
        invariant changed <==> Found(trace, start)
        invariant Progress(items, outcome, st0, St(), r0, Remaining(), budget - left)
        decreases left
      {
        ghost var st, t0, r := St(), trace, Remaining();
        ghost var l, i := ListAt(running, target), IndexAt(lastItemPolled, target);
        left := left - 1;
        var status := PollOne(target);
        StillStep(items, targets, st, St(), launched, trace[|t0|].0, status);
        ProgressOne(items, outcome, st, St(), r, Remaining());
        assert trace[start..] == t0[start..] + [trace[|t0|]];
        PolledStep(l0, i0, l, i, ListAt(running, target), IndexAt(lastItemPolled, target), t0[start..], trace[|t0|]);
        ProgressTrans(items, outcome, st0, st, St(), r0, r, Remaining(), budget - left - 1, 1);
        if status != D {
          changed := true;
        }
        FoundMore(t0, trace, start);
      }
    }

    /** `_poll`: polls exactly as many jobs as are running, but at most `maxPoll`. */
    method Poll() returns (changed: bool, ghost visits: nat, ghost cuts: seq<nat>)
      requires Sound({}) && PollState()
      modifies `scheduled, `queued, `running, `passed, `failed, `killed, `itemToStatus, `lastItemPolled, `delay, `trace,
               `lastTargetPolled
      ensures Sound({}) && PollState()
      ensures |trace| == |old(trace)| + Min(maxPoll, |Elements(old(running))|) && trace[..|old(trace)|] == old(trace)
      ensures Swept(old(running), running, targets, old(lastTargetPolled), lastTargetPolled, visits, true)
      ensures Turns(old(running), old(lastItemPolled), running, lastItemPolled, targets, old(lastTargetPolled),
                    visits, cuts, trace) && cuts[0] == |old(trace)|
      ensures changed <==> |trace| == |old(trace)| || Found(trace, |old(trace)|)
      ensures |trace| == |old(trace)| ==> St() == old(St()) && Remaining() == old(Remaining())
      ensures Progress(items, outcome, old(St()), St(), old(Remaining()), Remaining(), |trace| - |old(trace)|)
    {
      hide WellFormed, Good, NoOrphan, HistoryOk, Work, Delays, TargetsOf, Progress, PolledRun, Partition;
      hide Elements, WithStatus, Separate, Answers, PolledItems, IndexAt, Swept, Found, HasKeys, Distinct, Turns;
      FoundMore(trace, trace, |trace|);
      ghost var st0, r0, start, first := St(), Remaining(), |trace|, lastTargetPolled;
      TargetsExist(items);
      DistinctTargets(items);
      GoodPartition(items, st0, {}, launched);
      RunningMembers(items, st0, {});
      var live := SumDictLists(running);
      var budget := Min(maxPoll, live);
      ProgressNone(items, outcome, st0, r0);
      SweepStart(running, targets, first, budget == 0);
      visits, cuts := 0, [start];
      TurnsStart(running, lastItemPolled, targets, first, trace);
      ghost var i0 := lastItemPolled;
      if budget == 0 {
        assert trace[..start] == trace;
        return true, 0, [start];
      }
      var left: nat := budget;
      changed := false;
      while left > 0
        invariant Sound({}) && PollState()
        invariant left <= budget && |trace| == start + budget - left && trace[..start] == old(trace)
        invariant changed <==> Found(trace, start)
        invariant Progress(items, outcome, st0, St(), r0, Remaining(), budget - left)
        invariant visits <= |targets|
        invariant Swept(st0.running, running, targets, first, lastTargetPolled, visits, left == 0)
        invariant Turns(st0.running, i0, running, lastItemPolled, targets, first, visits, cuts, trace)
        invariant |cuts| > 0 && cuts[0] == start
        decreases |targets| - visits
      {
        ghost var st, t0, r := St(), trace, Remaining();
        SomeRunning(items, outcome, targets, st0, st, {}, launched, r0, r, budget - left, budget, first,
            lastTargetPolled, visits);
        var next := GetNextItem(targets, lastTargetPolled);
        var target, before := next.value.0, left;
        ghost var last, i := lastTargetPolled, lastItemPolled;
        lastTargetPolled := next.value.1;
        SweptNext(st0.running, st.running, targets, first, last, lastTargetPolled, visits);
        var found;
        left, found := PollTarget(target, left);
        FoundMore(t0, trace, start);
        changed := changed || found;
        ProgressTrans(items, outcome, st0, st, St(), r0, r, Remaining(), budget - before, before - left);
        SweepStep(st0.running, st.running, running, targets, first, last, lastTargetPolled, visits, left == 0);
        TurnsStep(st0.running, i0, st.running, i, running, lastItemPolled, targets, first, lastTargetPolled, visits,
                  cuts, t0, trace);
        visits, cuts := visits + 1, cuts + [|trace|];
      }
    }

    /** One round of the loop that empties a queue: the item is kept for dispatch, or cancelled
        when its dependencies do not let it run. */
    method PopNext(target: Target, ghost limbo: set<Item>) returns (item: Item, ok: bool)
      requires Sound(limbo) && target in targets && ListAt(queued, target) != []
      modifies `scheduled, `queued, `killed, `itemToStatus
      ensures item == ListAt(old(queued), target)[0] && item.target == target
      ensures item in items && item !in limbo && item in itemToStatus
      ensures ok <==> Passing(items, old(itemToStatus), item)
      ensures Sound(if ok then limbo + {item} else limbo)
      ensures if ok then itemToStatus == old(itemToStatus) && itemToStatus[item] == Q
              else itemToStatus[item] == K && Work(items, itemToStatus) < Work(items, old(itemToStatus))
      ensures ok ==> queued == old(queued)[target := ListAt(queued, target)]
      ensures ListAt(queued, target) == ListAt(old(queued), target)[1..]
      ensures QueuesGrow(targets, target, old(queued), queued)
      ensures AppendsInOrder(items, old(queued)[target := ListAt(queued, target)], queued)
      ensures Dispatching(items, outcome, launchFails, old(itemToStatus), itemToStatus, 0)
      ensures St() == PopState(items, targets, old(St()), target)
    {
      hide WellFormed, Good, Partition, NoOrphan, Advances, Faithful, Work, TargetsOf, Final, Ready, Passing,
          DependsOn, HasKeys;
      hide NextOf, Successors, EnqueueAll, PendingOn, DependentsUnseen, JustCompleted, Dispatching, Cancel,
          WithStatus, Complete, AppendsInOrder, InOrder;
      ghost var st := St();
      KeysOf(targets, St(), target);
      PopStep(items, st, limbo, launched, target);
      PopHasKeys(targets, st, target);
      item := queued[target][0];
      queued := queued[target := queued[target][1..]];
      ghost var popped := St();
      ok := OkToRun(item);
      if ok {
        DispatchingNone(items, outcome, launchFails, itemToStatus, 0);
        AppendsNothing(items, queued);
        return;
      }
      CancelPoppedStep(items, popped, limbo + {item}, launched, item);
      assert limbo + {item} - {item} == limbo;
      CancelItemOnly(item);
      ghost var mid := St();
      GoodPartition(items, popped, limbo + {item}, launched);
      CancelOfPopped(items, popped, limbo + {item}, item);
      Completed(items, popped.status, mid.status, item, {});
      EnqueueSuccessors(item, limbo);
      GoodPartition(items, mid, limbo, launched);
      SuccessorQueues(items, mid, limbo, item);
      EnqueuesStartNothing(items, mid, limbo, item);
      CancelMoves(items, outcome, launchFails, st.status, mid.status, itemToStatus, item);
    }

    /** Takes items from a queue until `slots` of them can be started or it is empty. */
    method FillSlots(target: Target, slots: nat) returns (toDispatch: seq<Item>)
      requires Sound({}) && target in targets
      modifies `scheduled, `queued, `killed, `itemToStatus
      ensures Sound(Members(toDispatch))
      ensures toDispatch == Chosen(items, old(itemToStatus), ListAt(old(queued), target), slots)
      ensures ListAt(queued, target) == Left(items, old(itemToStatus), ListAt(old(queued), target), slots)
      ensures QueuesGrow(targets, target, old(queued), queued)
      ensures Dispatching(items, outcome, launchFails, old(itemToStatus), itemToStatus, 0)
      ensures Distinct(toDispatch)
      ensures forall i :: i in toDispatch ==> i in items && i.target == target && Passing(items, itemToStatus, i)
      ensures slots > 0 && ListAt(old(queued), target) != [] ==>
                toDispatch != [] || Work(items, itemToStatus) < Work(items, old(itemToStatus))
      ensures St() == FillState(items, targets, old(St()), target, slots, |ListAt(old(queued), target)|)
    {
      hide WellFormed, Good, NoOrphan, Faithful, Work, TargetsOf, Passing, HasKeys, Filling, QueuesGrow, Dispatching,
          FillState, PopState, Drops;
      ghost var st0, q0 := St(), ListAt(queued, target);
      toDispatch := [];
      var left := slots;
      FillingStart(items, st0, {}, launched, target, slots);
      DispatchingNone(items, outcome, launchFails, itemToStatus, 0);
      assert Members(toDispatch) == {};
      while ListAt(queued, target) != [] && left > 0
        invariant Sound(Members(toDispatch))
        invariant Filling(items, st0.status, q0, slots, toDispatch, ListAt(queued, target), left)
        invariant Dispatching(items, outcome, launchFails, st0.status, itemToStatus, 0)
        invariant Distinct(toDispatch)
        invariant forall i :: i in toDispatch ==> i in items && i.target == target
        invariant toDispatch != [] || Work(items, itemToStatus) < Work(items, st0.status) ||
                  (ListAt(queued, target) == q0 && left == slots)
        invariant FillState(items, targets, St(), target, left, |ListAt(queued, target)|) ==
                  FillState(items, targets, st0, target, slots, |q0|)
        decreases ListAt(queued, target)
      {
        ghost var st := St();
        DispatchingAdvances(items, outcome, launchFails, st0.status, st.status, 0);
        FillingStep(items, st0.status, st.status, q0, slots, toDispatch, ListAt(queued, target), left);
        FillUnfolds(items, targets, st, target, left);
        var nextItem, ok := PopNext(target, Members(toDispatch));
        DispatchingTrans(items, outcome, launchFails, st0.status, st.status, itemToStatus, 0, 0);
        if ok {
          assert Members(toDispatch + [nextItem]) == Members(toDispatch) + {nextItem};
          toDispatch := toDispatch + [nextItem];
          left := left - 1;
        }
      }
      DispatchingAdvances(items, outcome, launchFails, st0.status, itemToStatus, 0);
      FillEnds(items, targets, St(), target, left);
      FillSteady(items, st0, {}, launched, target, slots);
      DropsAdvances(targets, target, st0, St(), Dropped(items, st0.status, q0, slots));
      FillingEnd(items, st0.status, itemToStatus, q0, slots, toDispatch, ListAt(queued, target), left);
    }

    /** Starts one item; if its launcher fails, the item is killed. */
    method LaunchItem(item: Item, ghost limbo: set<Item>)
      requires Sound(limbo) && item in limbo && item in items && Passing(items, itemToStatus, item)
      modifies `scheduled, `queued, `running, `killed, `itemToStatus, `launched
      ensures Sound(limbo - {item})
      ensures queued == old(queued) && launched == old(launched) + {item}
      ensures running == old(running)[item.target := ListAt(old(running), item.target) +
                                        if item in launchFails then [] else [item]]
      ensures item in itemToStatus && itemToStatus[item] == if item in launchFails then K else D
      ensures Dispatching(items, outcome, launchFails, old(itemToStatus), itemToStatus, 1)
      ensures Work(items, itemToStatus) < Work(items, old(itemToStatus))
      ensures St() == LaunchState(items, targets, launchFails, old(St()), item)
    {
      hide WellFormed, Good, Partition, NoOrphan, Advances, Faithful, Work, TargetsOf, Final, Ready, Passing,
          DependsOn, HasKeys;
      hide Dispatching, WithStatus, Complete, OnlyKills, RemoveItem, KillState;
      ghost var st := St();
      GoodPartition(items, st, limbo, launched);
      LimboItem(items, st, limbo, item);
      TargetKnown(items, item);
      KeysOf(targets, st, item.target);
      StartStep(items, st, limbo, launched, item);
      StartHasKeys(targets, st, item);
      StartDispatches(items, outcome, launchFails, st, item);
      running := running[item.target := running[item.target] + [item]];
      itemToStatus := itemToStatus[item := D];
      launched := launched + {item};
      ghost var mid := St();
      assert mid == Start(st, item);
      if item in launchFails {
        GoodPartition(items, mid, limbo - {item}, launched);
        KillItem(item, limbo - {item});
        RemoveLast(ListAt(st.running, item.target), item);
        assert ListAt(st.running, item.target) + [] == ListAt(st.running, item.target);
        KillDispatches(items, outcome, launchFails, mid, St());
        DispatchingTrans(items, outcome, launchFails, st.status, mid.status, itemToStatus, 1, 0);
      }
    }

    /** Starts the items taken from a queue. */
    method LaunchAll(target: Target, toDispatch: seq<Item>)
      requires Sound(Members(toDispatch)) && target in targets && Distinct(toDispatch)
      requires forall i :: i in toDispatch ==> i in items && i.target == target && Passing(items, itemToStatus, i)
      modifies `scheduled, `queued, `running, `killed, `itemToStatus, `launched
      ensures Sound({})
      ensures queued == old(queued) && launched == old(launched) + Members(toDispatch)
      ensures running == old(running)[target := ListAt(old(running), target) + Launching(toDispatch, launchFails)]
      ensures Dispatching(items, outcome, launchFails, old(itemToStatus), itemToStatus, |toDispatch|)
      ensures toDispatch != [] ==> Work(items, itemToStatus) < Work(items, old(itemToStatus))
      ensures St() == LaunchStates(items, targets, launchFails, old(St()), toDispatch)
    {
      hide WellFormed, Good, NoOrphan, Faithful, Work, TargetsOf, Passing, HasKeys, Dispatching, LaunchStates,
          LaunchState;
      LaunchNone(items, targets, launchFails, St());
      ghost var st0 := St();
      KeysOf(targets, st0, target);
      DispatchingNone(items, outcome, launchFails, itemToStatus, 0);
      assert toDispatch[..0] == [] && toDispatch[0..] == toDispatch;
      assert ListAt(running, target) + Launching(toDispatch[..0], launchFails) == running[target];
      for n := 0 to |toDispatch|
        invariant Sound(Members(toDispatch[n..]))
        invariant forall i :: i in toDispatch[n..] ==> Passing(items, itemToStatus, i)
        invariant queued == st0.queued && launched == old(launched) + Members(toDispatch[..n])
        invariant running == st0.running[target := ListAt(st0.running, target) + Launching(toDispatch[..n],
            launchFails)]
        invariant Dispatching(items, outcome, launchFails, st0.status, itemToStatus, n)
        invariant n > 0 ==> Work(items, itemToStatus) < Work(items, st0.status)
        invariant St() == LaunchStates(items, targets, launchFails, st0, toDispatch[..n])
      {
        ghost var st, limbo := St(), Members(toDispatch[n..]);
        var item := toDispatch[n];
        NextToLaunch(toDispatch, n);
        LaunchItem(item, limbo);
        DispatchingTrans(items, outcome, launchFails, st0.status, st.status, itemToStatus, n, 1);
        DispatchingAdvances(items, outcome, launchFails, st.status, itemToStatus, 1);
        LimboPasses(items, st, limbo, old(launched) + Members(toDispatch[..n]), itemToStatus);
        LaunchUnfolds(items, targets, launchFails, st0, toDispatch, n);
        LaunchingStep(ListAt(st0.running, target), toDispatch, n, launchFails);
      }
      assert toDispatch[..|toDispatch|] == toDispatch && Members(toDispatch[|toDispatch|..]) == {};
    }

    /** The body of the loop of `_dispatch`: gives `slots` to one target. */
    method DispatchTarget(target: Target, slots: nat)
      requires Sound({}) && target in targets
      modifies `scheduled, `queued, `running, `killed, `itemToStatus, `launched
      ensures Sound({})
      ensures var chosen := Chosen(items, old(itemToStatus), ListAt(old(queued), target), slots);
              && launched == old(launched) + Members(chosen)
              && running == old(running)[target := ListAt(old(running), target) + Launching(chosen, launchFails)]
      ensures ListAt(queued, target) == Left(items, old(itemToStatus), ListAt(old(queued), target), slots)
      ensures QueuesGrow(targets, target, old(queued), queued)
      ensures Dispatching(items, outcome, launchFails, old(itemToStatus), itemToStatus, slots)
      ensures slots > 0 && ListAt(old(queued), target) != [] ==>
                Work(items, itemToStatus) < Work(items, old(itemToStatus))
      ensures St() == ServeState(items, targets, launchFails, old(St()), target, slots)
    {
      hide WellFormed, Good, NoOrphan, Faithful, Work, TargetsOf, Passing, HasKeys, Dispatching, QueuesGrow, Chosen,
          Left, AllPass, FillState, LaunchStates;
      ghost var st0 := St();
      var toDispatch := FillSlots(target, slots);
      ghost var mid := St();
      LaunchAll(target, toDispatch);
      DispatchingTrans(items, outcome, launchFails, st0.status, mid.status, itemToStatus, 0, |toDispatch|);
      DispatchingMore(items, outcome, launchFails, st0.status, itemToStatus, |toDispatch|, slots);
    }

    /** The sum of the weights at the heads of the queues. */
    method TotalWeight() returns (total: nat)
      requires forall t :: t in targets ==> t in queued
      ensures total == HeadWeights(QueuesOf(targets, queued))
    {
      total := 0;
      ghost var qs := QueuesOf(targets, queued);
      for n := 0 to |targets|
        invariant total == HeadWeights(qs[..n])
      {
        assert qs[..n + 1][..n] == qs[..n];
        if queued[targets[n]] != [] {
          total := total + queued[targets[n]][0].weight;
        }
      }
      assert qs[..|targets|] == qs;
    }

    /** One round of the loop of `_dispatch`: the target gets its share of the slots, less what has
        been given away already. */
    method DispatchNext(target: Target, slots: nat, totalWeight: nat, sumWeight: nat, slotsFilled: nat,
                        ghost st0: State, ghost launched0: set<Item>, ghost seen: seq<seq<Item>>,
                        ghost alloc: seq<nat>)
        returns (sumWeight': nat, slotsFilled': nat, ghost alloc': seq<nat>)
      requires Sound({}) && Good(items, st0, {}, launched0) && |seen| < |targets| && target == targets[|seen|]
      requires Midway(items, outcome, launchFails, targets, slots, totalWeight, st0, St(), seen, alloc)
      requires sumWeight == HeadWeights(seen) && slotsFilled == Sum(alloc)
      requires totalWeight > 0 <==> AnyQueued(targets, st0.queued)
      modifies `scheduled, `queued, `running, `killed, `itemToStatus, `launched
      ensures Sound({})
      ensures Midway(items, outcome, launchFails, targets, slots, totalWeight, st0, St(),
                     seen + [ListAt(old(queued), target)], alloc')
      ensures sumWeight' == HeadWeights(seen + [ListAt(old(queued), target)]) && slotsFilled' == Sum(alloc')
    {
      hide WellFormed, Good, NoOrphan, Faithful, Work, TargetsOf, HasKeys, Dispatching, QueuesGrow, Midway, Chosen;
      hide Left, HeadWeights, Share, WithStatus, Partition, Sum, Distinct, AnyQueued, QueuesOf, Members, ServeState;
      hide Steady;
      hide Sound, SlotsFor, HeadWeight, Launching;
      ghost var st, q, launched1 := St(), ListAt(queued, target), launched;
      SoundGives({});
      DistinctTargets(items);
      KeysOf(targets, st, target);
      SlotsAre(slots, totalWeight, seen, alloc, q);
      sumWeight', slotsFilled', alloc' := sumWeight, slotsFilled, alloc + [0];
      if queued[target] == [] {
        MidwaySkip(items, outcome, launchFails, targets, slots, totalWeight, st0, st, launched, seen, alloc);
        return;
      }
      MidwayWeighs(items, outcome, launchFails, targets, slots, totalWeight, st0, st, seen, alloc, target);
      sumWeight' := sumWeight + queued[target][0].weight;
      var targetSlots := Share(slots, sumWeight', totalWeight) - slotsFilled;
      if targetSlots <= 0 {
        MidwaySkip(items, outcome, launchFails, targets, slots, totalWeight, st0, st, launched, seen, alloc);
        return;
      }
      slotsFilled' := slotsFilled + targetSlots;
      SumSnoc(alloc, targetSlots);
      alloc' := alloc + [targetSlots];
      DispatchTarget(target, targetSlots);
      MidwayServe(items, outcome, launchFails, targets, slots, totalWeight, st0, launched0, st, launched1, St(), seen,
                  alloc, targetSlots);
    }

    /** `_dispatch`: the new state is that of `DispatchOf`, a function of the state before. While the
        dependencies of all queued items let them run, max_parallel is kept. */
    method Dispatch()
      requires Sound({})
      modifies `scheduled, `queued, `running, `killed, `itemToStatus, `launched
      ensures Sound({})
      ensures Pass(items, outcome, launchFails, targets, maxParallel, old(St()), St())
    {
      hide WellFormed, Good, NoOrphan, Faithful, Work, TargetsOf, HasKeys, Dispatching, QueuesGrow, Midway, Chosen;
      hide Left, HeadWeights, Share, WithStatus, Elements, Partition, Separate, Sum, Distinct, AnyQueued, DispatchOf;
      hide QueuesOf, Members, ServeState, Steady, Pass, Sound, HasKeys, HeadWeight;
      ghost var st0 := St();
      SoundGives({});
      RunningMembers(items, st0, {});
      AllQueuesKnown(targets, st0);
      QueuedWeighs(items, targets, st0, {});
      var live := SumDictLists(running);
      var totalWeight := TotalWeight();
      var slots := maxParallel - live;
      if slots <= 0 {
        PassIdle(items, outcome, launchFails, targets, maxParallel, st0);
        return;
      }
      var sumWeight: nat := 0;
      var slotsFilled: nat := 0;
      ghost var seen: seq<seq<Item>>, alloc: seq<nat> := [], [];
      SumNone();
      HeadWeightsNone();
      MidwayStart(items, outcome, launchFails, targets, slots, totalWeight, st0);
      for n := 0 to |targets|
        invariant Sound({})
        invariant |seen| == n && sumWeight == HeadWeights(seen) && slotsFilled == Sum(alloc)
        invariant Midway(items, outcome, launchFails, targets, slots, totalWeight, st0, St(), seen, alloc)
      {
        ghost var q := ListAt(queued, targets[n]);
        sumWeight, slotsFilled, alloc := DispatchNext(targets[n], slots, totalWeight, sumWeight, slotsFilled, st0,
                                                      old(launched), seen, alloc);
        seen := seen + [q];
      }
      SoundGives({});
      PassDone(items, outcome, launchFails, targets, maxParallel, st0, old(launched), St(), seen, alloc);
    }

    /** `_check_if_done`: compares the number of filed items of each target with its total. */
    method CheckIfDone() returns (done: bool)
      requires Sound({}) && Totals(items, targets, total)
      ensures done <==> forall i :: i in items ==> Complete(itemToStatus, i)
    {
      hide WellFormed, Good, Partition, TargetsOf, HasKeys, NoOrphan, Complete, OfTarget;
      GoodPartition(items, St(), {}, launched);
      done := true;
      for n := 0 to |targets|
        invariant done <==> forall i :: i in items && i.target in targets[..n] ==> Complete(itemToStatus, i)
      {
        var target := targets[n];
        KeysOf(targets, St(), target);
        DoneCount(items, St(), {}, target);
        var doneCnt := |passed[target]| + |failed[target]| + |killed[target]|;
        done := done && doneCnt == total[target];
        assert targets[..n + 1] == targets[..n] + [target];
      }
      assert targets[..|targets|] == targets;
      forall i | i in items
        ensures i.target in targets
      {
        TargetKnown(items, i);
      }
    }

    /** Kills everything when the interrupt has been seen. */
    method KillIf(stop: bool)
      requires Sound({}) && PollState()
      modifies `scheduled, `queued, `running, `killed, `itemToStatus
      ensures Sound({}) && PollState() && Remaining() <= old(Remaining())
      ensures Advances(old(itemToStatus), itemToStatus)
      ensures if stop then OnlyKills(old(St()), St()) && Quiet(items, targets, St()) else St() == old(St())
    {
      hide WellFormed, Good, TargetsOf, HasKeys, NoOrphan, Work, Delays, Complete, PollOk, Advances, OnlyKills;
      hide Finished, ListAt, Quiet;
      ghost var st := St();
      NoChange(itemToStatus);
      if stop {
        Kill();
        OnlyKillsAdvances(st, St());
        NothingActive(items, targets, St());
      }
      Onward(items, outcome, targets, lastTargetPolled, lastItemPolled, delay, trace, st.status, itemToStatus);
    }

    /** Polls as many jobs as are running, up to the limit, and dispatches jobs from the state
        `polled` after that. */
    method PollAndDispatch() returns (changed: bool, ghost polled: State)
      requires Sound({}) && PollState()
      modifies `scheduled, `queued, `running, `passed, `failed, `killed, `itemToStatus, `lastItemPolled,
               `lastTargetPolled, `delay, `trace, `launched
      ensures Sound({}) && PollState()
      ensures |trace| == |old(trace)| + Min(maxPoll, |Elements(old(running))|) && trace[..|old(trace)|] == old(trace)
      ensures Pass(items, outcome, launchFails, targets, maxParallel, polled, St())
      ensures Quiet(items, targets, old(St())) ==> St() == old(St())
      ensures changed <==> |trace| == |old(trace)| || Found(trace, |old(trace)|)
      ensures Remaining() < old(Remaining()) || (changed && forall i :: i in items ==> Complete(itemToStatus, i))
      ensures Remaining() <= old(Remaining()) && Advances(old(itemToStatus), itemToStatus)
      ensures launchFails == {} && Faithful(items, outcome, old(itemToStatus)) ==>
                Faithful(items, outcome, itemToStatus)
    {
      hide WellFormed, Good, Partition, TargetsOf, HasKeys, NoOrphan, Faithful, Work, Delays, Final,
          Complete, PollOk;
      hide Progress, Dispatching, Advances, Elements, AnyQueued, Found, Finished, Ready, Separate, ListAt, Pass, Setup;
      hide Quiet, Swept, Turns;
      SetupGives();
      ghost var st := St();
      QuietGives(items, targets, st);
      var found, _, _ := Poll();
      changed := found;
      polled := St();
      ghost var r := Remaining();
      ProgressGives(items, outcome, st, polled, old(Remaining()), r, |trace| - |old(trace)|);
      Dispatch();
      PassGives(items, outcome, launchFails, targets, maxParallel, polled, St());
      Onward(items, outcome, targets, lastTargetPolled, lastItemPolled, delay, trace, polled.status, itemToStatus);
      AdvancesTrans(st.status, polled.status, itemToStatus);
      if |trace| == |old(trace)| && !AnyQueued(targets, polled.queued) {
        IdleIsDone(items, polled, {}, launched);
      }
    }

    /** One round of the loop of `run`: an interrupt kills everything, which ends the run; otherwise
        jobs are polled and dispatched. The end is noticed when the timer calls for an update, when
        a poll has found that a job is over, or when there was nothing to poll. */
    method Round(stop: bool, tick: bool) returns (done: bool, ghost polled: State)
      requires Sound({}) && PollState() && Totals(items, targets, total)
      modifies `scheduled, `queued, `running, `passed, `failed, `killed, `itemToStatus, `lastItemPolled,
               `lastTargetPolled, `delay, `trace, `launched
      ensures Sound({}) && PollState()
      ensures |trace| == |old(trace)| + if stop then 0 else Min(maxPoll, |Elements(old(running))|)
      ensures trace[..|old(trace)|] == old(trace)
      ensures stop ==> OnlyKills(old(St()), St()) && done
      ensures Pass(items, outcome, launchFails, targets, maxParallel, polled, St())
      ensures done <==> (tick || |trace| == |old(trace)| || Found(trace, |old(trace)|)) &&
                        forall i :: i in items ==> Complete(itemToStatus, i)
      ensures !done ==> Remaining() < old(Remaining())
      ensures Advances(old(itemToStatus), itemToStatus)
      ensures !stop && launchFails == {} && Faithful(items, outcome, old(itemToStatus)) ==>
                Faithful(items, outcome, itemToStatus)
    {
      hide WellFormed, Good, Partition, TargetsOf, HasKeys, NoOrphan, Faithful, Totals, Work, Delays, Final,
          Complete, PollOk;
      hide Progress, Advances, Elements, AnyQueued, OnlyKills, Found, Finished, ListAt, Pass, Quiet, Setup;
      ghost var st0 := St();
      KillIf(stop);
      ghost var st1 := St();
      QuietGives(items, targets, st1);
      var changed;
      changed, polled := PollAndDispatch();
      changed := changed || tick;
      AdvancesTrans(st0.status, st1.status, itemToStatus);
      done := false;
      if changed {
        done := CheckIfDone();
      }
    }

    /** `run`. `stopped` tells in which rounds the interrupt is seen, `tick` when the timer calls
        for an update. The run ends, whatever the launchers answer, at the latest in the first round
        in which the interrupt is seen: every item has finished; only items whose dependencies let
        them run were started; no launcher was polled after its job was over; and without interrupts
        and launch failures, the results are those of the recursive evaluation. */
    method Run(stopped: nat -> bool, tick: nat -> bool) returns (results: StatusMap, ghost last: nat)
      requires Fresh() && WellFormed(items)
      modifies this
      ensures Sound({}) && PollState() && results == itemToStatus
      ensures forall r: nat :: r < last ==> !stopped(r)
      ensures results.Keys == Members(items)
      ensures forall i :: i in results ==> Finished(results[i])
      ensures LaunchesSafe(items, results, launched)
      ensures HistoryOk(outcome, trace, results)
      ensures forall i :: i in results && results[i] != K ==> (i, results[i]) in trace && results[i] == outcome[i]
      ensures (forall r :: !stopped(r)) && launchFails == {} ==> forall i :: i in items ==>
          results[i] == Final(items, outcome, i)
    {
      hide WellFormed, Good, Partition, TargetsOf, HasKeys, NoOrphan, Faithful, Totals, Work, Delays, Final, Complete;
      hide LaunchesSafe, Advances, HistoryOk, Members, OnlyKills, Pass, Found, Elements, ListAt, ByConfiguration, Setup;
      EnqueueFirst();
      NoneFaithful(items, outcome, itemToStatus);
      ghost var undisturbed := (forall r :: !stopped(r)) && launchFails == {};
      var round: nat := 0;
      while true
        invariant forall r: nat :: r < round ==> !stopped(r)
        invariant Sound({}) && PollState() && Totals(items, targets, total)
        invariant undisturbed ==> Faithful(items, outcome, itemToStatus)
        decreases Remaining()
      {
        var stop := stopped(round);
        var done, _ := Round(stop, tick(round));
        if done {
          break;
        }
        round := round + 1;
      }
      Results(items, outcome, St(), launched);
      ResultsAnswered(outcome, trace, itemToStatus);
      return itemToStatus, round;
    }
  }
}
