/** What dispatching takes from the queues, and how the free slots are shared between targets. */
module DispatchSteps {
  import opened Sequences
  import opened Wrappers
  import opened Jobs
  import opened SchedulerState
  import opened Dependencies
  import opened SchedulerSteps
  import opened Polling

  // ----- which items of a queue are started -----

  /** The items started when a queue is given `n` slots: its first `n` whose dependencies pass. */
  ghost function Chosen(items: seq<Item>, status: StatusMap, q: seq<Item>, n: nat): (r: seq<Item>)
    ensures |r| <= n
  {
    if q == [] || n == 0 then []
    else if Passing(items, status, q[0]) then [q[0]] + Chosen(items, status, q[1..], n - 1)
    else Chosen(items, status, q[1..], n)
  }

  /** What is left of that queue: items whose dependencies do not pass are dropped on the way. */
  ghost function Left(items: seq<Item>, status: StatusMap, q: seq<Item>, n: nat): seq<Item> {
    if q == [] || n == 0 then q
    else Left(items, status, q[1..], if Passing(items, status, q[0]) then n - 1 else n)
  }

  /** The items dropped from it. */
  ghost function Dropped(items: seq<Item>, status: StatusMap, q: seq<Item>, n: nat): set<Item> {
    if q == [] || n == 0 then {}
    else if Passing(items, status, q[0]) then Dropped(items, status, q[1..], n - 1)
    else {q[0]} + Dropped(items, status, q[1..], n)
  }

  /** The items of `xs` that launch. */
  function Launching(xs: seq<Item>, fails: set<Item>): seq<Item> {
    if xs == [] then []
    else Launching(xs[..|xs| - 1], fails) + if xs[|xs| - 1] in fails then [] else [xs[|xs| - 1]]
  }

  /** Slots stay unused only when the queue runs empty; what is taken is a prefix of the queue,
      and of that prefix exactly the items whose dependencies pass are started, in order. */
  lemma {:induction false} ChosenIsFirst(items: seq<Item>, status: StatusMap, q: seq<Item>, n: nat) returns (taken: nat)
    ensures taken <= |q| && Left(items, status, q, n) == q[taken..]
    ensures forall i :: i in Chosen(items, status, q, n) <==> i in q[..taken] && Passing(items, status, i)
    ensures forall i :: i in Dropped(items, status, q, n) <==> i in q[..taken] && !Passing(items, status, i)
    ensures |Chosen(items, status, q, n)| < n ==> taken == |q|
    ensures taken > 0 <==> q != [] && n > 0
    ensures Distinct(q) ==> Distinct(Chosen(items, status, q, n))
  {
    if q == [] || n == 0 {
      taken := 0;
    } else {
      var n' := if Passing(items, status, q[0]) then n - 1 else n;
      var more := ChosenIsFirst(items, status, q[1..], n');
      taken := more + 1;
      assert q[..taken] == [q[0]] + q[1..][..more];
      assert Distinct(q) ==> forall i :: i in q[1..][..more] ==> i != q[0];
    }
  }

  /** The items are started in the order in which they are queued. */
  lemma {:induction false} ChosenInOrder(items: seq<Item>, status: StatusMap, q: seq<Item>, n: nat)
    requires Distinct(q)
    ensures InOrder(q, Chosen(items, status, q, n))
  {
    hide InOrder, Passing;
    if q == [] || n == 0 {
      NoneInOrder(q);
    } else {
      assert q == [q[0]] + q[1..];
      assert q[0] !in q[1..];
      var n' := if Passing(items, status, q[0]) then n - 1 else n;
      ChosenInOrder(items, status, q[1..], n');
      InOrderFront(q[1..], Chosen(items, status, q[1..], n'), q[0]);
    }
  }

  /** No more is taken from a queue than needed: with all slots used, the last item taken is one
      that is started. */
  lemma {:induction false} LastTaken(items: seq<Item>, status: StatusMap, q: seq<Item>, n: nat)
    ensures |Chosen(items, status, q, n)| + |Left(items, status, q, n)| <= |q|
    ensures |Chosen(items, status, q, n)| == n && |Left(items, status, q, n)| < |q| ==>
              Passing(items, status, q[|q| - |Left(items, status, q, n)| - 1])
  {
    hide Passing;
    if q != [] && n > 0 {
      var n' := if Passing(items, status, q[0]) then n - 1 else n;
      LastTaken(items, status, q[1..], n');
      var left := Left(items, status, q[1..], n');
      assert |left| < |q| - 1 ==> q[1..][|q| - 1 - |left| - 1] == q[|q| - |left| - 1];
    }
  }

  /** The items that launch, in order. */
  lemma {:induction false} LaunchingIs(xs: seq<Item>, fails: set<Item>)
    requires Distinct(xs)
    ensures InOrder(xs, Launching(xs, fails))
    ensures forall i :: i in Launching(xs, fails) <==> i in xs && i !in fails
    decreases |xs|
  {
    hide InOrder;
    if xs == [] {
      NoneInOrder(xs);
    } else {
      var init, last := xs[..|xs| - 1], xs[|xs| - 1];
      assert xs == init + [last];
      assert last !in init;
      LaunchingIs(init, fails);
      InOrderBack(init, Launching(init, fails), last);
      assert Launching(init, fails) + [] == Launching(init, fails);
    }
  }

  /** The choice does not depend on what else happens in the meantime. */
  lemma {:induction false} ChosenPersists(items: seq<Item>, s0: StatusMap, s1: StatusMap, q: seq<Item>, n: nat)
    requires Advances(s0, s1) && forall i :: i in q ==> Ready(items, s0, i)
    ensures Chosen(items, s1, q, n) == Chosen(items, s0, q, n)
    ensures Left(items, s1, q, n) == Left(items, s0, q, n)
    ensures Dropped(items, s1, q, n) == Dropped(items, s0, q, n)
  {
    hide Advances, Ready, Passing;
    if q != [] && n > 0 {
      ReadyPersists(items, s0, s1, q[0]);
      ChosenPersists(items, s0, s1, q[1..], if Passing(items, s0, q[0]) then n - 1 else n);
    }
  }

  // ----- slot allocation -----

  function HeadWeight(q: seq<Item>): nat {
    if q == [] then 0 else q[0].weight
  }

  function HeadWeights(qs: seq<seq<Item>>): nat {
    if qs == [] then 0 else HeadWeights(qs[..|qs| - 1]) + HeadWeight(qs[|qs| - 1])
  }

  function QueuesOf(targets: seq<Target>, queued: Lists): (qs: seq<seq<Item>>)
    ensures |qs| == |targets|
  {
    seq(|targets|, n requires 0 <= n < |targets| => ListAt(queued, targets[n]))
  }

  /** The rounded share that a weight has in the slots. */
  function Share(slots: nat, weight: nat, total: nat): nat
    requires total > 0
  {
    Round(slots * weight, total)
  }

  /** Half a slot or more, by the share of `late` in `total`, ties counting for odd `slots`. */
  predicate RoundsUp(slots: nat, late: nat, total: nat) {
    2 * (slots * late) > total || (2 * (slots * late) == total && slots % 2 == 1)
  }

  /** The slots given to the targets add up, after every target, to the rounded share that the
      weights seen so far have in all of the slots. */
  ghost predicate Allocated(slots: nat, total: nat, seen: seq<seq<Item>>, alloc: seq<nat>) {
    && |seen| == |alloc| && total > 0
    && forall n :: 0 <= n <= |alloc| ==> Sum(alloc[..n]) == Share(slots, HeadWeights(seen[..n]), total)
  }

  /** Queues seen later: what was queued at first is still at the front. */
  ghost predicate Extends(start: seq<seq<Item>>, seen: seq<seq<Item>>) {
    |start| == |seen| && forall n :: 0 <= n < |start| ==> start[n] <= seen[n]
  }

  /** No queue was empty at first and filled later. */
  ghost predicate NoneFilled(start: seq<seq<Item>>, seen: seq<seq<Item>>)
    requires |start| == |seen|
  {
    forall n :: 0 <= n < |start| && start[n] == [] ==> seen[n] == []
  }

  lemma {:induction false} HeadWeightsDiffer(q0: seq<seq<Item>>, q1: seq<seq<Item>>)
    requires Extends(q0, q1)
    ensures HeadWeights(q1) >= HeadWeights(q0)
    ensures NoneFilled(q0, q1) ==> HeadWeights(q1) == HeadWeights(q0)
    decreases |q0|
  {
    if q0 != [] {
      var k := |q0| - 1;
      assert q0[k] <= q1[k];
      assert q0[k] != [] ==> q1[k][0] == q0[k][0];
      HeadWeightsDiffer(q0[..k], q1[..k]);
    }
  }

  /** After every target, the slots given away are the whole number nearest to the share that the
      weights seen so far have in all of the slots. */
  ghost predicate Fair(slots: nat, total: nat, seen: seq<seq<Item>>, alloc: seq<nat>) {
    && |seen| == |alloc|
    && forall n :: 0 <= n <= |alloc| ==> Nearest(Sum(alloc[..n]), slots * HeadWeights(seen[..n]), total)
  }

  /** Every target is given its own share of the slots, by the weight of the first job in its queue,
      give or take one slot at most. */
  ghost predicate EachFair(slots: nat, total: nat, seen: seq<seq<Item>>, alloc: seq<nat>) {
    && |seen| == |alloc|
    && forall n :: 0 <= n < |alloc| ==>
         var share := slots * if seen[n] == [] then 0 else seen[n][0].weight;
         alloc[n] * total <= share + total && share <= alloc[n] * total + total
  }

  /** The rounded running shares are those. */
  lemma AllocatedIsFair(slots: nat, total: nat, seen: seq<seq<Item>>, alloc: seq<nat>)
    requires total > 0
    ensures Allocated(slots, total, seen, alloc) <==> Fair(slots, total, seen, alloc)
    ensures Allocated(slots, total, seen, alloc) ==> EachFair(slots, total, seen, alloc)
  {
    hide Sum, HeadWeights, HeadWeight, Nearest, Round;
    if |seen| == |alloc| {
      forall n | 0 <= n <= |alloc|
        ensures Sum(alloc[..n]) == Share(slots, HeadWeights(seen[..n]), total) <==>
                Nearest(Sum(alloc[..n]), slots * HeadWeights(seen[..n]), total)
      {
        RoundIsNearest(Sum(alloc[..n]), slots * HeadWeights(seen[..n]), total);
      }
    }
    hide Share;
    if Fair(slots, total, seen, alloc) {
      forall n | 0 <= n < |alloc|
        ensures var share := slots * if seen[n] == [] then 0 else seen[n][0].weight;
                alloc[n] * total <= share + total && share <= alloc[n] * total + total
      {
        FairStep(slots, total, seen, alloc, n);
      }
    }
  }

  lemma FairStep(slots: nat, total: nat, seen: seq<seq<Item>>, alloc: seq<nat>, n: nat)
    requires Fair(slots, total, seen, alloc) && n < |alloc|
    ensures var share := slots * if seen[n] == [] then 0 else seen[n][0].weight;
            alloc[n] * total <= share + total && share <= alloc[n] * total + total
  {
    hide Sum, HeadWeights;
    var (a0, a1, w0, w1) := (Sum(alloc[..n]), Sum(alloc[..n + 1]), HeadWeights(seen[..n]), HeadWeights(seen[..n + 1]));
    assert Nearest(a0, slots * w0, total) && Nearest(a1, slots * w1, total);
    assert alloc[..n + 1] == alloc[..n] + [alloc[n]] && seen[..n + 1] == seen[..n] + [seen[n]];
    SumSnoc(alloc[..n], alloc[n]);
    HeadWeightsSnoc(seen[..n], seen[n]);
    assert a1 * total == a0 * total + alloc[n] * total;
    assert slots * w1 == slots * w0 + slots * HeadWeight(seen[n]);
  }

  /** All slots are handed out: exactly `slots` when every queue seen was there from the start,
      and one or more too many exactly when the weights of the queues that filled up later
      amount to half a slot or more. */
  lemma AllocationTotal(slots: nat, start: seq<seq<Item>>, seen: seq<seq<Item>>, alloc: seq<nat>)
    requires Allocated(slots, HeadWeights(start), seen, alloc)
    requires Extends(start, seen)
    ensures Sum(alloc) >= slots
    ensures NoneFilled(start, seen) ==> Sum(alloc) == slots
    ensures HeadWeights(seen) >= HeadWeights(start)
    ensures Sum(alloc) > slots <==> RoundsUp(slots, HeadWeights(seen) - HeadWeights(start), HeadWeights(start))
  {
    hide HeadWeights, Sum, Share, RoundsUp, Allocated, Extends, NoneFilled;
    assert |start| == |seen| by { ExtendsLength(start, seen); }
    HeadWeightsDiffer(start, seen);
    AllocatedEnd(slots, HeadWeights(start), seen, alloc);
    ShareOfAll(slots, HeadWeights(start), HeadWeights(seen) - HeadWeights(start));
  }

  lemma ExtendsLength(start: seq<seq<Item>>, seen: seq<seq<Item>>)
    requires Extends(start, seen)
    ensures |start| == |seen|
  {
  }

  lemma AllocatedEnd(slots: nat, total: nat, seen: seq<seq<Item>>, alloc: seq<nat>)
    requires Allocated(slots, total, seen, alloc)
    ensures total > 0 && Sum(alloc) == Share(slots, HeadWeights(seen), total)
  {
    hide HeadWeights, Sum, Share;
    assert alloc[..|alloc|] == alloc && seen[..|seen|] == seen;
  }

  lemma ShareOfAll(slots: nat, total: nat, late: nat)
    requires total > 0
    ensures Share(slots, total + late, total) >= slots
    ensures late == 0 ==> Share(slots, total + late, total) == slots
    ensures Share(slots, total + late, total) > slots <==> RoundsUp(slots, late, total)
  {
    hide Round;
    assert slots * (total + late) == slots * total + slots * late;
    RoundExceeds(slots, slots * late, total);
  }

  lemma ShareGrows(slots: nat, w0: nat, w1: nat, total: nat)
    requires total > 0 && w0 <= w1
    ensures Share(slots, w0, total) <= Share(slots, w1, total)
  {
    hide Round;
    assert slots * w1 == slots * w0 + slots * (w1 - w0);
    RoundMonotone(slots * w0, slots * w1, total);
  }

  // ----- what dispatching keeps -----

  /** Statuses advance, nothing passes or fails, the outcomes stay those of the recursive evaluation
      unless launches fail, no work is added, and at most `n` items start running. */
  ghost predicate Dispatching(items: seq<Item>, outcome: StatusMap, fails: set<Item>, s0: StatusMap, s1: StatusMap,
      n: nat) {
    && Advances(s0, s1) && NoNewResults(s0, s1)
    && (fails == {} && Faithful(items, outcome, s0) ==> Faithful(items, outcome, s1))
    && Work(items, s1) <= Work(items, s0)
    && |WithStatus(s1, D)| <= |WithStatus(s0, D)| + n
  }

  lemma DispatchingNone(items: seq<Item>, outcome: StatusMap, fails: set<Item>, s: StatusMap, n: nat)
    ensures Dispatching(items, outcome, fails, s, s, n)
  {
  }

  lemma DispatchingTrans(items: seq<Item>, outcome: StatusMap, fails: set<Item>, s0: StatusMap, s1: StatusMap,
      s2: StatusMap,
                         m: nat, n: nat)
    requires Dispatching(items, outcome, fails, s0, s1, m) && Dispatching(items, outcome, fails, s1, s2, n)
    ensures Dispatching(items, outcome, fails, s0, s2, m + n)
    ensures Work(items, s1) < Work(items, s0) || Work(items, s2) < Work(items, s1) ==> Work(items, s2) < Work(items, s0)
  {
    hide Faithful, Work, Finished;
    AdvancesTrans(s0, s1, s2);
  }

  /** Apart from `target`, whose queue is being emptied, only the queue of the next target grows. */
  ghost predicate QueuesGrow(targets: seq<Target>, target: Target, q0: Lists, q1: Lists)
    requires target in targets
  {
    && (forall t :: t != target ==> ListAt(q0, t) <= ListAt(q1, t))
    && (forall t :: t != target && NextOf(targets, target) != Some(t) ==> ListAt(q1, t) == ListAt(q0, t))
  }

  lemma {:induction false} EnqueueAllQueues(st: State, xs: seq<Item>, u: Target)
    requires forall i :: i in xs ==> i.target == u
    ensures forall t :: ListAt(EnqueueAll(st, xs).queued, t) ==
                        if t == u then ListAt(st.queued, t) + xs else ListAt(st.queued, t)
    decreases |xs|
  {
    hide Unschedule;
    if xs != [] {
      var init, last := xs[..|xs| - 1], xs[|xs| - 1];
      assert last in xs;
      assert xs == init + [last];
      EnqueueAllQueues(st, init, u);
    }
  }

  lemma NextDiffers(targets: seq<Target>, t: Target)
    requires Distinct(targets) && t in targets
    ensures NextOf(targets, t) != Some(t)
  {
  }

  /** The successors of a cancelled item join the queue of the next target. */
  lemma SuccessorQueues(items: seq<Item>, st: State, limbo: set<Item>, x: Item)
    requires WellFormed(items) && Partition(items, st, limbo) && x in items
    ensures x.target in TargetsOf(items)
    ensures var q1 := EnqueueAll(st, Successors(items, TargetsOf(items), st, x)).queued;
            ListAt(q1, x.target) == ListAt(st.queued, x.target) && QueuesGrow(TargetsOf(items), x.target, st.queued, q1)
  {
    hide WellFormed, Partition, Successors, NextOf, TargetsOf, EnqueueAll;
    TargetKnown(items, x);
    SuccessorsMembers(items, st, limbo, x);
    DistinctTargets(items);
    NextDiffers(TargetsOf(items), x.target);
    var xs := Successors(items, TargetsOf(items), st, x);
    var u := if NextOf(TargetsOf(items), x.target).Some? then NextOf(TargetsOf(items), x.target).value else "";
    forall i | i in xs
      ensures i.target == u && NextOf(TargetsOf(items), x.target) == Some(u)
    {
      DependentTarget(items, i, x);
    }
    EnqueueAllQueues(st, xs, u);
    if xs == [] {
      assert forall t :: ListAt(st.queued, t) + xs == ListAt(st.queued, t);
    } else {
      assert xs[0] in xs;
    }
  }

  /** Every queue is extended, at its end, by items in the order in which they were given to the
      scheduler. */
  ghost predicate AppendsInOrder(items: seq<Item>, q0: Lists, q1: Lists) {
    forall t :: ListAt(q0, t) <= ListAt(q1, t) && InOrder(items, ListAt(q1, t)[|ListAt(q0, t)|..])
  }

  lemma AppendsNothing(items: seq<Item>, q: Lists)
    ensures AppendsInOrder(items, q, q)
  {
    forall t
      ensures ListAt(q, t)[|ListAt(q, t)|..] == []
    {
    }
  }

  /** The successors of an item join their queue in that order. */
  lemma SuccessorsJoin(items: seq<Item>, st: State, limbo: set<Item>, x: Item)
    requires WellFormed(items) && Partition(items, st, limbo) && x in items
    ensures x.target in TargetsOf(items)
    ensures AppendsInOrder(items, st.queued, EnqueueAll(st, Successors(items, TargetsOf(items), st, x)).queued)
  {
    hide WellFormed, Partition, Successors, NextOf, TargetsOf, EnqueueAll, InOrder;
    TargetKnown(items, x);
    SuccessorsMembers(items, st, limbo, x);
    SuccessorsInOrder(items, st, limbo, x);
    var xs := Successors(items, TargetsOf(items), st, x);
    var u := if NextOf(TargetsOf(items), x.target).Some? then NextOf(TargetsOf(items), x.target).value else "";
    forall i | i in xs
      ensures i.target == u
    {
      DependentTarget(items, i, x);
    }
    EnqueueAllQueues(st, xs, u);
    NoneInOrder(items);
    hide ListAt;
    var q0, q1 := st.queued, EnqueueAll(st, xs).queued;
    forall t
      ensures ListAt(q0, t) <= ListAt(q1, t) && InOrder(items, ListAt(q1, t)[|ListAt(q0, t)|..])
    {
      assert ListAt(q1, t)[|ListAt(q0, t)|..] == if t == u then xs else [];
    }
  }

  lemma PopStep(items: seq<Item>, st: State, limbo: set<Item>, launched: set<Item>, t: Target)
    requires Good(items, st, limbo, launched) && ListAt(st.queued, t) != []
    ensures var x := ListAt(st.queued, t)[0];
            && x in items && x.target == t && x in st.status && st.status[x] == Q && x !in limbo
            && Good(items, Pop(st, t), limbo + {x}, launched)
            && Ready(items, st.status, x)
  {
    hide Partition;
    PopKeeps(items, st, limbo, t);
  }

  lemma CancelOfPopped(items: seq<Item>, st: State, limbo: set<Item>, x: Item)
    requires Partition(items, st, limbo) && x in limbo
    ensures Cancel(st, x).queued == st.queued && Cancel(st, x).running == st.running
    ensures Cancel(st, x).status == st.status[x := K]
  {
    assert x !in WithStatus(st.status, Q) - limbo;
    assert x !in ListAt(st.queued, x.target);
  }

  /** Cancelling an item whose dependencies do not pass. */
  lemma CancelMoves(items: seq<Item>, outcome: StatusMap, fails: set<Item>, s0: StatusMap, s1: StatusMap,
      s2: StatusMap, x: Item)
    requires x in items && x in outcome && x in s0 && s0[x] == Q && Ready(items, s0, x) && !Passing(items, s0, x)
    requires s1 == s0[x := K] && Advances(s0, s1) && Advances(s1, s2)
    requires forall i :: Complete(s2, i) <==> Complete(s1, i)
    requires WithStatus(s2, D) == WithStatus(s1, D)
    ensures Dispatching(items, outcome, fails, s0, s2, 0)
    ensures Work(items, s2) < Work(items, s0)
    ensures x in s2 && s2[x] == K
  {
    AdvancesTrans(s0, s1, s2);
    WorkFalls(items, s1, s2);
    RankFalls(items, s0, x, K);
    hide Work;
    assert Complete(s1, x);
    assert WithStatus(s1, D) == WithStatus(s0, D);
    forall i | i in s2 && (s2[i] == P || s2[i] == F)
      ensures i in s0 && s0[i] == s2[i]
    {
      assert Complete(s2, i);
      assert Complete(s1, i);
    }
    if Faithful(items, outcome, s0) {
      FinalOfReady(items, outcome, s0, x);
      forall i | Complete(s2, i)
        ensures s2[i] == Final(items, outcome, i)
      {
        assert Complete(s1, i);
      }
    }
  }

  /** Enqueueing starts nothing. */
  lemma EnqueuesStartNothing(items: seq<Item>, st: State, limbo: set<Item>, x: Item)
    requires WellFormed(items) && Partition(items, st, limbo) && x in items && x.target in TargetsOf(items)
    ensures WithStatus(EnqueueAll(st, Successors(items, TargetsOf(items), st, x)).status, D) == WithStatus(st.status, D)
  {
    hide WellFormed, Partition, Successors, TargetsOf, DependsOn, Ready;
    SuccessorsMembers(items, st, limbo, x);
    var xs := Successors(items, TargetsOf(items), st, x);
    EnqueueAllKeeps(items, st, limbo, xs);
    hide EnqueueAll;
    var s0, s1 := st.status, EnqueueAll(st, xs).status;
    assert forall i :: i in s1 && i !in s0 ==> i in xs;
  }

  // ----- emptying a queue -----

  /** Part of the way through a queue: `done` is kept so far, `q` and `n` slots are left. */
  ghost predicate Filling(items: seq<Item>, status: StatusMap, q0: seq<Item>, n0: nat, done: seq<Item>, q: seq<Item>,
      n: nat) {
    && done + Chosen(items, status, q, n) == Chosen(items, status, q0, n0)
    && Left(items, status, q, n) == Left(items, status, q0, n0)
    && (forall i :: i in q ==> Ready(items, status, i))
    && (forall i :: i in done ==> Ready(items, status, i) && Passing(items, status, i))
  }

  lemma FillingStart(items: seq<Item>, st: State, limbo: set<Item>, launched: set<Item>, t: Target, n: nat)
    requires Good(items, st, limbo, launched)
    ensures Filling(items, st.status, ListAt(st.queued, t), n, [], ListAt(st.queued, t), n)
  {
    hide Chosen, Left;
    forall i | i in ListAt(st.queued, t)
      ensures Ready(items, st.status, i)
    {
      assert i in WithStatus(st.status, Q) - limbo;
    }
  }

  lemma FillingStep(items: seq<Item>, s0: StatusMap, s1: StatusMap, q0: seq<Item>, n0: nat, done: seq<Item>,
      q: seq<Item>, n: nat)
    requires Filling(items, s0, q0, n0, done, q, n) && Advances(s0, s1) && q != [] && n > 0
    ensures if Passing(items, s1, q[0]) then Filling(items, s0, q0, n0, done + [q[0]], q[1..], n - 1)
            else Filling(items, s0, q0, n0, done, q[1..], n)
  {
    hide Ready, Passing, Advances;
    assert q[0] in q;
    assert forall i :: i in q[1..] ==> i in q;
    ReadyPersists(items, s0, s1, q[0]);
    assert done + [q[0]] + Chosen(items, s0, q[1..], n - 1) == done + ([q[0]] + Chosen(items, s0, q[1..], n - 1));
  }

  lemma FillingEnd(items: seq<Item>, s0: StatusMap, s1: StatusMap, q0: seq<Item>, n0: nat, done: seq<Item>,
      q: seq<Item>, n: nat)
    requires Filling(items, s0, q0, n0, done, q, n) && Advances(s0, s1) && (q == [] || n == 0)
    ensures done == Chosen(items, s0, q0, n0) && q == Left(items, s0, q0, n0)
    ensures forall i :: i in done ==> Passing(items, s1, i)
  {
    hide Ready, Passing, Advances;
    forall i | i in done
      ensures Passing(items, s1, i)
    {
      ReadyPersists(items, s0, s1, i);
    }
  }

  /** The dependencies of all items of a queue let them run. */
  ghost predicate AllPass(items: seq<Item>, status: StatusMap, q: seq<Item>) {
    forall i :: i in q ==> Passing(items, status, i)
  }

  lemma QueuesGrowTrans(targets: seq<Target>, t: Target, q0: Lists, q1: Lists, q2: Lists)
    requires t in targets && QueuesGrow(targets, t, q0, q1) && QueuesGrow(targets, t, q1, q2)
    ensures QueuesGrow(targets, t, q0, q2)
  {
  }

  lemma DispatchingAdvances(items: seq<Item>, outcome: StatusMap, fails: set<Item>, s0: StatusMap, s1: StatusMap,
      n: nat)
    requires Dispatching(items, outcome, fails, s0, s1, n)
    ensures Advances(s0, s1) && NoNewResults(s0, s1)
  {
  }

  // ----- starting an item -----

  lemma LimboItem(items: seq<Item>, st: State, limbo: set<Item>, x: Item)
    requires Partition(items, st, limbo) && x in limbo
    ensures x in st.status && st.status[x] == Q
    ensures x !in ListAt(st.running, x.target)
  {
    assert x in WithStatus(st.status, Q);
    assert x !in WithStatus(st.status, D);
  }

  lemma StartHasKeys(targets: seq<Target>, st: State, x: Item)
    requires HasKeys(targets, st)
    ensures HasKeys(targets, Start(st, x))
  {
  }

  lemma StartDispatches(items: seq<Item>, outcome: StatusMap, fails: set<Item>, st: State, x: Item)
    requires x in items && x in st.status && st.status[x] == Q
    ensures Dispatching(items, outcome, fails, st.status, Start(st, x).status, 1)
    ensures Work(items, Start(st, x).status) < Work(items, st.status)
  {
    var s0, s1 := st.status, Start(st, x).status;
    RankFalls(items, s0, x, D);
    hide Work, Final;
    assert WithStatus(s1, D) == WithStatus(s0, D) + {x};
    assert forall i :: Complete(s1, i) ==> Complete(s0, i) && s1[i] == s0[i];
  }

  lemma {:induction false} RemoveLast(s: seq<Item>, x: Item)
    requires x !in s
    ensures RemoveItem(s + [x], x) == s
  {
    if s != [] {
      RemoveLast(s[1..], x);
      assert (s + [x])[1..] == s[1..] + [x];
    }
  }

  /** Kills start nothing; they are excluded from the recursive evaluation. */
  lemma KillDispatches(items: seq<Item>, outcome: StatusMap, fails: set<Item>, s0: State, s1: State)
    requires OnlyKills(s0, s1) && fails != {}
    ensures Dispatching(items, outcome, fails, s0.status, s1.status, 0)
  {
    OnlyKillsAdvances(s0, s1);
    WorkFalls(items, s0.status, s1.status);
    hide Work, Faithful;
    assert WithStatus(s1.status, D) <= WithStatus(s0.status, D);
    SubsetSize(WithStatus(s1.status, D), WithStatus(s0.status, D));
  }

  lemma SubsetSize(a: set<Item>, b: set<Item>)
    requires a <= b
    ensures |a| <= |b|
  {
    assert b == a + (b - a);
  }

  lemma DispatchingMore(items: seq<Item>, outcome: StatusMap, fails: set<Item>, s0: StatusMap, s1: StatusMap, m: nat,
      n: nat)
    requires Dispatching(items, outcome, fails, s0, s1, m) && m <= n
    ensures Dispatching(items, outcome, fails, s0, s1, n)
  {
  }

  lemma NextToLaunch(xs: seq<Item>, n: nat)
    requires Distinct(xs) && n < |xs|
    ensures xs[n] in xs[n..]
    ensures Members(xs[n..]) - {xs[n]} == Members(xs[n + 1..])
    ensures Members(xs[..n]) + {xs[n]} == Members(xs[..n + 1])
    ensures forall i :: i in xs[n + 1..] ==> i in xs[n..]
  {
    assert xs[n..] == [xs[n]] + xs[n + 1..];
    assert xs[..n + 1] == xs[..n] + [xs[n]];
    assert xs[n] !in xs[n + 1..];
  }

  /** Popped items that may run stay so. */
  lemma LimboPasses(items: seq<Item>, st: State, limbo: set<Item>, launched: set<Item>, s1: StatusMap)
    requires Good(items, st, limbo, launched) && Advances(st.status, s1)
    ensures forall i :: i in limbo && Passing(items, st.status, i) ==> Passing(items, s1, i)
  {
    forall i | i in limbo && Passing(items, st.status, i)
      ensures Passing(items, s1, i)
    {
      assert i in WithStatus(st.status, Q);
      ReadyPersists(items, st.status, s1, i);
    }
  }

  lemma LaunchingStep(l: seq<Item>, xs: seq<Item>, n: nat, fails: set<Item>)
    requires n < |xs|
    ensures l + Launching(xs[..n + 1], fails) ==
            l + Launching(xs[..n], fails) + if xs[n] in fails then [] else [xs[n]]
  {
    assert xs[..n + 1][..n] == xs[..n];
  }

  // ----- one pass over the targets -----

  /** What a pass has done so far. `seen[m]` is the queue of the m-th target when its turn came and
      `alloc[m]` the slots it got: the chosen items of that queue were started, the rest is left;
      the queues of the targets still to come have only grown. */
  ghost predicate Served(items: seq<Item>, fails: set<Item>, targets: seq<Target>, st0: State, st: State,
                         seen: seq<seq<Item>>, alloc: seq<nat>) {
    && |seen| == |alloc| <= |targets|
    && (forall m :: 0 <= m < |seen| ==> ServedOne(items, fails, st0, st, targets[m], seen[m], alloc[m]))
    && (forall m :: |seen| <= m < |targets| ==> Untouched(st0, st, targets[m]))
  }

  ghost predicate ServedOne(items: seq<Item>, fails: set<Item>, st0: State, st: State, t: Target, q: seq<Item>,
      n: nat) {
    && ListAt(st0.queued, t) <= q
    && (forall i :: i in q ==> Ready(items, st.status, i))
    && ListAt(st.queued, t) == Left(items, st.status, q, n)
    && ListAt(st.running, t) == ListAt(st0.running, t) + Launching(Chosen(items, st.status, q, n), fails)
  }

  ghost predicate Untouched(st0: State, st: State, t: Target) {
    ListAt(st0.queued, t) <= ListAt(st.queued, t) && ListAt(st.running, t) == ListAt(st0.running, t)
  }

  lemma ServedNone(items: seq<Item>, fails: set<Item>, targets: seq<Target>, st: State)
    ensures Served(items, fails, targets, st, st, [], [])
    ensures HeadWeights([]) == 0
  {
  }

  lemma AllocatedNone(slots: nat, total: nat)
    ensures total > 0 ==> Allocated(slots, total, [], [])
  {
    assert slots * 0 == 0;
    assert total > 0 ==> Round(0, total) == 0;
  }

  lemma ServedSkip(items: seq<Item>, fails: set<Item>, targets: seq<Target>, st0: State, st: State,
                   seen: seq<seq<Item>>, alloc: seq<nat>)
    requires Served(items, fails, targets, st0, st, seen, alloc) && |seen| < |targets|
    requires forall i :: i in ListAt(st.queued, targets[|seen|]) ==> Ready(items, st.status, i)
    ensures Served(items, fails, targets, st0, st, seen + [ListAt(st.queued, targets[|seen|])], alloc + [0])
  {
    hide Ready;
    var t := targets[|seen|];
    assert Untouched(st0, st, t);
    assert ListAt(st0.running, t) + [] == ListAt(st0.running, t);
    assert ServedOne(items, fails, st0, st, t, ListAt(st.queued, t), 0);
    hide ServedOne, Untouched;
  }

  /** A served target stays served when others are, as long as its queue and running list stay. */
  lemma ServedStays(items: seq<Item>, fails: set<Item>, st0: State, st: State, st': State, t: Target, q: seq<Item>,
      n: nat)
    requires ServedOne(items, fails, st0, st, t, q, n) && Advances(st.status, st'.status)
    requires ListAt(st'.queued, t) == ListAt(st.queued, t) && ListAt(st'.running, t) == ListAt(st.running, t)
    ensures ServedOne(items, fails, st0, st', t, q, n)
  {
    hide Ready, Advances, Chosen, Left, Launching, Passing, ListAt;
    ChosenPersists(items, st.status, st'.status, q, n);
    forall i | i in q
      ensures Ready(items, st'.status, i)
    {
      ReadyPersists(items, st.status, st'.status, i);
    }
  }

  lemma ServedStep(items: seq<Item>, fails: set<Item>, targets: seq<Target>, st0: State, st: State, st': State,
                   seen: seq<seq<Item>>, alloc: seq<nat>, n: nat)
    requires Served(items, fails, targets, st0, st, seen, alloc) && |seen| < |targets| && Distinct(targets)
    requires Advances(st.status, st'.status)
    requires var t := targets[|seen|];
             var q := ListAt(st.queued, t);
             && (forall i :: i in q ==> Ready(items, st.status, i))
             && st'.running == st.running[t := ListAt(st.running, t) + Launching(Chosen(items, st.status, q, n), fails)]
             && ListAt(st'.queued, t) == Left(items, st.status, q, n)
             && QueuesGrow(targets, t, st.queued, st'.queued)
    ensures Served(items, fails, targets, st0, st', seen + [ListAt(st.queued, targets[|seen|])], alloc + [n])
  {
    hide Ready, Advances, Chosen, Left, Launching, Passing, ServedOne, NextOf;
    var k := |seen|;
    var t := targets[k];
    var q := ListAt(st.queued, t);
    assert Untouched(st0, st, t);
    NewlyServed(items, fails, st0, st, st', t, n);
    forall m | 0 <= m < k
      ensures ServedOne(items, fails, st0, st', targets[m], seen[m], alloc[m])
    {
      NextIsLater(targets, k, m);
      assert targets[m] != t;
      ServedStays(items, fails, st0, st, st', targets[m], seen[m], alloc[m]);
    }
    forall m | k + 1 <= m < |targets|
      ensures Untouched(st0, st', targets[m])
    {
      assert targets[m] != t;
      assert Untouched(st0, st, targets[m]);
    }
  }

  lemma NewlyServed(items: seq<Item>, fails: set<Item>, st0: State, st: State, st': State, t: Target, n: nat)
    requires Untouched(st0, st, t) && Advances(st.status, st'.status)
    requires var q := ListAt(st.queued, t);
             && (forall i :: i in q ==> Ready(items, st.status, i))
             && st'.running == st.running[t := ListAt(st.running, t) + Launching(Chosen(items, st.status, q, n), fails)]
             && ListAt(st'.queued, t) == Left(items, st.status, q, n)
    ensures ServedOne(items, fails, st0, st', t, ListAt(st.queued, t), n)
  {
    hide Ready, Advances, Chosen, Left, Launching, Passing;
    var q := ListAt(st.queued, t);
    ChosenPersists(items, st.status, st'.status, q, n);
    forall i | i in q
      ensures Ready(items, st'.status, i)
    {
      ReadyPersists(items, st.status, st'.status, i);
    }
  }

  lemma NextIsLater(targets: seq<Target>, k: nat, m: nat)
    requires Distinct(targets) && m < k < |targets|
    ensures NextOf(targets, targets[k]) != Some(targets[m])
  {
    PosAt(targets, k);
  }

  lemma ServedQueue(items: seq<Item>, fails: set<Item>, targets: seq<Target>, st0: State, st: State,
                    seen: seq<seq<Item>>, alloc: seq<nat>, limbo: set<Item>, launched: set<Item>)
    requires Served(items, fails, targets, st0, st, seen, alloc) && |seen| < |targets|
    requires Good(items, st, limbo, launched)
    ensures |alloc| == |seen|
    ensures forall i :: i in ListAt(st.queued, targets[|seen|]) ==> Ready(items, st.status, i)
  {
    hide ServedOne, Untouched;
    forall i | i in ListAt(st.queued, targets[|seen|])
      ensures Ready(items, st.status, i)
    {
      assert i in WithStatus(st.status, Q) - limbo;
    }
  }

  lemma ServedExtends(items: seq<Item>, fails: set<Item>, targets: seq<Target>, st0: State, st: State,
                      seen: seq<seq<Item>>, alloc: seq<nat>)
    requires Served(items, fails, targets, st0, st, seen, alloc) && |seen| == |targets|
    ensures Extends(QueuesOf(targets, st0.queued), seen)
  {
    hide Left, Chosen, Launching, Ready;
    forall n | 0 <= n < |seen|
      ensures QueuesOf(targets, st0.queued)[n] <= seen[n]
    {
      assert ServedOne(items, fails, st0, st, targets[n], seen[n], alloc[n]);
    }
  }

  lemma AllocatedStep(slots: nat, total: nat, seen: seq<seq<Item>>, alloc: seq<nat>, q: seq<Item>, a: nat)
    requires total > 0 ==> Allocated(slots, total, seen, alloc)
    requires total > 0 ==> Sum(alloc) + a == Share(slots, HeadWeights(seen) + HeadWeight(q), total)
    ensures total > 0 ==> Allocated(slots, total, seen + [q], alloc + [a])
    ensures Sum(alloc + [a]) == Sum(alloc) + a
  {
    hide HeadWeights, Sum, Share, HeadWeight;
    HeadWeightsSnoc(seen, q);
    SumSnoc(alloc, a);
    var seen', alloc' := seen + [q], alloc + [a];
    forall n | total > 0 && 0 <= n <= |alloc'|
      ensures Sum(alloc'[..n]) == Share(slots, HeadWeights(seen'[..n]), total)
    {
      if n <= |alloc| {
        assert alloc'[..n] == alloc[..n] && seen'[..n] == seen[..n];
      } else {
        assert alloc'[..n] == alloc' && seen'[..n] == seen';
      }
    }
  }

  lemma HeadWeightsSnoc(qs: seq<seq<Item>>, q: seq<Item>)
    ensures HeadWeights(qs + [q]) == HeadWeights(qs) + HeadWeight(q)
  {
    assert (qs + [q])[..|qs|] == qs;
  }

  ghost predicate AnyQueued(targets: seq<Target>, queued: Lists) {
    exists t :: t in targets && ListAt(queued, t) != []
  }

  /** Weights are positive, so the queues weigh something unless nothing is queued. */
  lemma QueuedWeighs(items: seq<Item>, targets: seq<Target>, st: State, limbo: set<Item>)
    requires WellFormed(items) && Partition(items, st, limbo)
    ensures AnyQueued(targets, st.queued) <==> HeadWeights(QueuesOf(targets, st.queued)) > 0
  {
    hide Partition, EdgesGoBack, LaterDepend, EarlierHaveDependents, HeadWeights;
    var qs := QueuesOf(targets, st.queued);
    forall n | 0 <= n < |qs|
      ensures HeadWeight(qs[n]) > 0 <==> qs[n] != []
    {
      if qs[n] != [] {
        HeadOfQueue(items, st, limbo, targets[n], qs[n]);
      }
    }
    HeadWeightsPositive(qs);
    if n :| 0 <= n < |qs| && qs[n] != [] {
      assert ListAt(st.queued, targets[n]) != [];
    }
    if t :| t in targets && ListAt(st.queued, t) != [] {
      var n :| 0 <= n < |targets| && targets[n] == t;
      assert qs[n] != [];
    }
  }

  lemma {:induction false} HeadWeightsPositive(qs: seq<seq<Item>>)
    requires forall n :: 0 <= n < |qs| ==> (HeadWeight(qs[n]) > 0 <==> qs[n] != [])
    ensures HeadWeights(qs) > 0 <==> exists n :: 0 <= n < |qs| && qs[n] != []
    decreases |qs|
  {
    hide HeadWeight;
    if qs != [] {
      var k := |qs| - 1;
      HeadWeightsPositive(qs[..k]);
      assert forall n :: 0 <= n < k ==> qs[..k][n] == qs[n];
    }
  }

  lemma HeadWeightsNone()
    ensures HeadWeights([]) == 0
  {
  }

  lemma SumNone()
    ensures Sum([]) == 0
  {
  }

  lemma AllQueuesKnown(targets: seq<Target>, st: State)
    requires HasKeys(targets, st)
    ensures forall t :: t in targets ==> t in st.queued
  {
  }
}
