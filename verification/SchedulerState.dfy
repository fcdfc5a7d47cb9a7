/** The scheduler's collections as one value, the atomic changes made to them, and the
    invariants those changes keep. */
module SchedulerState {
  import opened Sequences
  import opened Jobs

  datatype State = State(
    scheduled: Schedule,
    queued: Lists,
    running: Lists,
    passed: Groups,
    failed: Groups,
    killed: Groups,
    status: StatusMap)

  ghost function WithStatus(status: StatusMap, s: Status): set<Item> {
    set i | i in status && status[i] == s
  }

  ghost function Unseen(items: seq<Item>, status: StatusMap): set<Item> {
    set i | i in items && i !in status
  }

  // ----- the partition invariant -----

  /** Every item is in exactly one collection, the one its status letter names, under its own
      target, and scheduled items are in the order in which they were given; `limbo` are queued items
      that dispatch has popped but not yet disposed of. */
  ghost predicate Partition(items: seq<Item>, st: State, limbo: set<Item>) {
    && (forall i :: i in st.status ==> i in items)
    && ScheduleHolds(st.scheduled, Unseen(items, st.status)) && SlotsInOrder(items, st.scheduled)
    && limbo <= WithStatus(st.status, Q)
    && ListsHold(st.queued, WithStatus(st.status, Q) - limbo)
    && ListsHold(st.running, WithStatus(st.status, D))
    && GroupsHold(st.passed, WithStatus(st.status, P))
    && GroupsHold(st.failed, WithStatus(st.status, F))
    && GroupsHold(st.killed, WithStatus(st.status, K))
  }

  ghost function GroupMembers(g: Groups): set<Item> {
    set t, i | t in g && i in g[t] :: i
  }

  ghost function ScheduleMembers(s: Schedule): set<Item> {
    set t, c, i | t in s && c in s[t] && i in s[t][c] :: i
  }

  lemma ListsMembers(l: Lists, own: set<Item>)
    requires ListsHold(l, own)
    ensures Elements(l) == own && Separate(l)
  {
    forall i | i in own
      ensures i in Elements(l)
    {
      assert i in ListAt(l, i.target);
    }
    forall t, i | t in l && i in l[t]
      ensures i in own && i.target == t
    {
      assert i in ListAt(l, t);
    }
    forall t | t in l
      ensures Distinct(l[t])
    {
      assert Distinct(ListAt(l, t));
    }
    forall t, u, i | t in l && u in l && t != u && i in l[t]
      ensures i !in l[u]
    {
      assert i.target == t;
      assert i in l[u] ==> i.target == u;
    }
  }

  lemma GroupsMembers(g: Groups, own: set<Item>)
    requires GroupsHold(g, own)
    ensures GroupMembers(g) == own
  {
    forall i | i in own
      ensures i in GroupMembers(g)
    {
      assert i in GroupAt(g, i.target);
    }
    forall t, i | t in g && i in g[t]
      ensures i in own
    {
      assert i in GroupAt(g, t);
    }
  }

  lemma ScheduleMembersAre(s: Schedule, own: set<Item>)
    requires ScheduleHolds(s, own)
    ensures ScheduleMembers(s) == own
  {
    forall i | i in own
      ensures i in ScheduleMembers(s)
    {
      assert i in SlotAt(s, i.target, i.cfg);
    }
    forall t, c, i | t in s && c in s[t] && i in s[t][c]
      ensures i in own
    {
      assert i in SlotAt(s, t, c);
    }
  }

  lemma StatusClasses(items: seq<Item>, status: StatusMap)
    requires forall i :: i in status ==> i in items
    ensures var q, d, p := WithStatus(status, Q), WithStatus(status, D), WithStatus(status, P);
            var f, k, u := WithStatus(status, F), WithStatus(status, K), Unseen(items, status);
            && u !! q !! d !! p !! f !! k
            && u + q + d + p + f + k == set i | i in items
  {
    forall i | i in status
      ensures i in WithStatus(status, status[i]) && status[i] in {Q, D, P, F, K}
    {
    }
  }

  /** Between steps the six collections are pairwise disjoint and cover all items. */
  lemma PartitionCovers(items: seq<Item>, st: State)
    requires Partition(items, st, {})
    ensures var s, q, r := ScheduleMembers(st.scheduled), Elements(st.queued), Elements(st.running);
            var p, f, k := GroupMembers(st.passed), GroupMembers(st.failed), GroupMembers(st.killed);
            && s !! q !! r !! p !! f !! k
            && s + q + r + p + f + k == set i | i in items
  {
    hide ListsHold, GroupsHold, ScheduleHolds, SlotsInOrder, WithStatus, Unseen;
    hide Elements, GroupMembers, ScheduleMembers;
    ScheduleMembersAre(st.scheduled, Unseen(items, st.status));
    ListsMembers(st.queued, WithStatus(st.status, Q) - {});
    ListsMembers(st.running, WithStatus(st.status, D));
    GroupsMembers(st.passed, WithStatus(st.status, P));
    GroupsMembers(st.failed, WithStatus(st.status, F));
    GroupsMembers(st.killed, WithStatus(st.status, K));
    assert WithStatus(st.status, Q) - {} == WithStatus(st.status, Q);
    StatusClasses(items, st.status);
  }

  // ----- atomic changes -----

  /** `_enqueue_successors`, one item. */
  function Enqueue(st: State, x: Item): State {
    st.(status := st.status[x := Q],
        queued := st.queued[x.target := ListAt(st.queued, x.target) + [x]],
        scheduled := Unschedule(st.scheduled, x))
  }

  function EnqueueAll(st: State, xs: seq<Item>): State {
    if xs == [] then st else Enqueue(EnqueueAll(st, xs[..|xs| - 1]), xs[|xs| - 1])
  }

  /** `_cancel_item` without successors: the item leaves the queue or the schedule. */
  function Cancel(st: State, x: Item): State {
    var st' := st.(status := st.status[x := K], killed := st.killed[x.target := GroupAt(st.killed, x.target) + {x}]);
    if x in ListAt(st.queued, x.target) then
      st'.(queued := st.queued[x.target := RemoveItem(ListAt(st.queued, x.target), x)])
    else
      st'.(scheduled := Unschedule(st.scheduled, x))
  }

  /** Dispatch starts a popped item. */
  function Start(st: State, x: Item): State {
    st.(status := st.status[x := D], running := st.running[x.target := ListAt(st.running, x.target) + [x]])
  }

  /** Dispatch pops the first item of a queue. */
  function Pop(st: State, t: Target): State
    requires ListAt(st.queued, t) != []
  {
    st.(queued := st.queued[t := ListAt(st.queued, t)[1..]])
  }

  /** A running item finishes with the given outcome. */
  function Finish(st: State, x: Item, outcome: Status): State
    requires Finished(outcome)
  {
    var st' := st.(status := st.status[x := outcome],
                   running := st.running[x.target := RemoveItem(ListAt(st.running, x.target), x)]);
    match outcome
    case P => st'.(passed := st.passed[x.target := GroupAt(st.passed, x.target) + {x}])
    case F => st'.(failed := st.failed[x.target := GroupAt(st.failed, x.target) + {x}])
    case _ => st'.(killed := st.killed[x.target := GroupAt(st.killed, x.target) + {x}])
  }

  /** The items of status `r` after `x` changed to status `s`. */
  ghost function Changed(status: StatusMap, x: Item, s: Status, r: Status): set<Item> {
    if r == s then WithStatus(status, r) + {x}
    else if x in status && status[x] == r then WithStatus(status, r) - {x}
    else WithStatus(status, r)
  }

  lemma StatusUpdate(items: seq<Item>, status: StatusMap, x: Item, s: Status)
    ensures WithStatus(status[x := s], Q) == Changed(status, x, s, Q)
    ensures WithStatus(status[x := s], D) == Changed(status, x, s, D)
    ensures WithStatus(status[x := s], P) == Changed(status, x, s, P)
    ensures WithStatus(status[x := s], F) == Changed(status, x, s, F)
    ensures WithStatus(status[x := s], K) == Changed(status, x, s, K)
    ensures Unseen(items, status[x := s]) == if x in status then Unseen(items, status) else Unseen(items, status) - {x}
  {
  }

  lemma EnqueueKeeps(items: seq<Item>, st: State, limbo: set<Item>, x: Item)
    requires Partition(items, st, limbo) && x in items && x !in st.status
    ensures Partition(items, Enqueue(st, x), limbo)
  {
    hide Unschedule, ListsHold, GroupsHold, ScheduleHolds, SlotsInOrder, WithStatus, Unseen;
    NewItem(items, st, limbo, x);
    StatusUpdate(items, st.status, x, Q);
    ListsAppend(st.queued, WithStatus(st.status, Q) - limbo, x);
    ScheduleRemove(st.scheduled, Unseen(items, st.status), x);
    UnscheduleInOrder(items, st.scheduled, x);
    assert WithStatus(st.status, Q) + {x} - limbo == WithStatus(st.status, Q) - limbo + {x};
    assert limbo <= WithStatus(st.status, Q) + {x};
  }

  lemma QueuedHere(items: seq<Item>, st: State, limbo: set<Item>, x: Item)
    requires Partition(items, st, limbo) && x in st.status && st.status[x] == Q && x !in limbo
    ensures x in WithStatus(st.status, Q)
    ensures x in ListAt(st.queued, x.target)
  {
    assert x in WithStatus(st.status, Q) - limbo;
  }

  /** Cancelling a queued item. */
  lemma CancelQueuedKeeps(items: seq<Item>, st: State, limbo: set<Item>, x: Item)
    requires Partition(items, st, limbo) && x !in limbo
    requires x in st.status && st.status[x] == Q
    ensures Partition(items, Cancel(st, x), limbo)
  {
    hide ListsHold, GroupsHold, ScheduleHolds, SlotsInOrder, WithStatus, Unseen;
    QueuedHere(items, st, limbo, x);
    StatusUpdate(items, st.status, x, K);
    ListsRemove(st.queued, WithStatus(st.status, Q) - limbo, x);
    GroupsAdd(st.killed, WithStatus(st.status, K), x);
    assert WithStatus(st.status, Q) - {x} - limbo == WithStatus(st.status, Q) - limbo - {x};
  }

  /** Cancelling a scheduled item. */
  lemma CancelScheduledKeeps(items: seq<Item>, st: State, limbo: set<Item>, x: Item)
    requires Partition(items, st, limbo) && x in items && x !in st.status
    ensures Partition(items, Cancel(st, x), limbo)
  {
    hide ListsHold, GroupsHold, ScheduleHolds, SlotsInOrder, WithStatus, Unseen;
    NewItem(items, st, limbo, x);
    StatusUpdate(items, st.status, x, K);
    ScheduleRemove(st.scheduled, Unseen(items, st.status), x);
    UnscheduleInOrder(items, st.scheduled, x);
    GroupsAdd(st.killed, WithStatus(st.status, K), x);
  }

  lemma PoppedItem(items: seq<Item>, st: State, limbo: set<Item>, x: Item)
    requires Partition(items, st, limbo) && x in limbo
    ensures x in st.status && st.status[x] == Q
    ensures x in WithStatus(st.status, Q) && x !in WithStatus(st.status, D) && x !in Unseen(items, st.status)
    ensures x !in ListAt(st.queued, x.target)
  {
    assert x in WithStatus(st.status, Q);
    assert x !in WithStatus(st.status, Q) - limbo;
  }

  lemma NewItem(items: seq<Item>, st: State, limbo: set<Item>, x: Item)
    requires Partition(items, st, limbo) && x !in st.status
    ensures x !in WithStatus(st.status, Q) && x !in limbo
    ensures x !in ListAt(st.queued, x.target)
  {
    assert x !in WithStatus(st.status, Q) - limbo;
  }

  /** Cancelling an item that dispatch has popped. */
  lemma CancelPoppedKeeps(items: seq<Item>, st: State, limbo: set<Item>, x: Item)
    requires Partition(items, st, limbo) && x in limbo
    ensures Partition(items, Cancel(st, x), limbo - {x})
  {
    hide ListsHold, GroupsHold, ScheduleHolds, SlotsInOrder, WithStatus, Unseen;
    PoppedItem(items, st, limbo, x);
    ScheduleAbsent(st.scheduled, Unseen(items, st.status), x);
    StatusUpdate(items, st.status, x, K);
    GroupsAdd(st.killed, WithStatus(st.status, K), x);
    assert WithStatus(st.status, Q) - {x} - (limbo - {x}) == WithStatus(st.status, Q) - limbo;
    assert limbo - {x} <= WithStatus(st.status, Q) - {x};
  }

  lemma StartKeeps(items: seq<Item>, st: State, limbo: set<Item>, x: Item)
    requires Partition(items, st, limbo) && x in limbo
    ensures Partition(items, Start(st, x), limbo - {x})
  {
    hide ListsHold, GroupsHold, ScheduleHolds, SlotsInOrder, WithStatus, Unseen;
    PoppedItem(items, st, limbo, x);
    StatusUpdate(items, st.status, x, D);
    ListsAppend(st.running, WithStatus(st.status, D), x);
    assert WithStatus(st.status, Q) - {x} - (limbo - {x}) == WithStatus(st.status, Q) - limbo;
    assert limbo - {x} <= WithStatus(st.status, Q) - {x};
  }

  lemma PopKeeps(items: seq<Item>, st: State, limbo: set<Item>, t: Target)
    requires Partition(items, st, limbo) && ListAt(st.queued, t) != []
    ensures var x := ListAt(st.queued, t)[0];
            x in items && x.target == t && x in st.status && st.status[x] == Q && x !in limbo
            && Partition(items, Pop(st, t), limbo + {x})
  {
    var l := ListAt(st.queued, t);
    var x := l[0];
    assert x in l;
    assert x.target == t;
    assert x in WithStatus(st.status, Q) - limbo;
    assert x in st.status;
    hide ListsHold, GroupsHold, ScheduleHolds, SlotsInOrder, WithStatus, Unseen;
    ListsRemove(st.queued, WithStatus(st.status, Q) - limbo, x);
    assert RemoveItem(l, x) == l[1..];
    assert WithStatus(st.status, Q) - (limbo + {x}) == WithStatus(st.status, Q) - limbo - {x};
  }

  lemma FinishKeeps(items: seq<Item>, st: State, limbo: set<Item>, x: Item, outcome: Status)
    requires Partition(items, st, limbo) && Finished(outcome) && x in st.status && st.status[x] == D
    ensures Partition(items, Finish(st, x, outcome), limbo)
  {
    hide ListsHold, GroupsHold, ScheduleHolds, SlotsInOrder, WithStatus, Unseen;
    StatusUpdate(items, st.status, x, outcome);
    ListsRemove(st.running, WithStatus(st.status, D), x);
    match outcome {
      case P => GroupsAdd(st.passed, WithStatus(st.status, P), x);
      case F => GroupsAdd(st.failed, WithStatus(st.status, F), x);
      case _ => GroupsAdd(st.killed, WithStatus(st.status, K), x);
    }
  }
}
