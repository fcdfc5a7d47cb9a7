/** What holds of the statuses of jobs along the dependency graph: nothing is enqueued before its
    dependencies are complete, nothing is forgotten, and the outcome is determined. */
module Dependencies {
  import opened Sequences
  import opened Jobs

  // ----- statuses over time -----

  /** Statuses only move forward, and a finished one never changes. */
  ghost predicate Advances(s0: StatusMap, s1: StatusMap) {
    forall i :: i in s0 ==> i in s1 && (Finished(s0[i]) ==> s1[i] == s0[i]) && (s0[i] == D ==> s1[i] != Q)
  }

  lemma AdvancesTrans(s0: StatusMap, s1: StatusMap, s2: StatusMap)
    requires Advances(s0, s1) && Advances(s1, s2)
    ensures Advances(s0, s2)
  {
  }

  /** Nothing has passed or failed in the meantime. */
  ghost predicate NoNewResults(s0: StatusMap, s1: StatusMap) {
    forall i :: i in s1 && (s1[i] == P || s1[i] == F) ==> i in s0 && s0[i] == s1[i]
  }

  /** Every item that has been enqueued has all its dependencies complete. */
  ghost predicate DepsDone(items: seq<Item>, status: StatusMap) {
    forall i :: i in status ==> Ready(items, status, i)
  }

  /** Every item still scheduled, but for those of `pending`, waits for some dependency. */
  ghost predicate NoOrphan(items: seq<Item>, status: StatusMap, pending: set<Item>) {
    forall i :: i in items && i !in status && i !in pending ==> !Ready(items, status, i)
  }

  predicate Started(status: StatusMap, i: Item) {
    i in status && (status[i] == D || status[i] == P || status[i] == F)
  }

  /** Every item that was ever started had dependencies that let it run, and only items that were
      started run, pass or fail. */
  ghost predicate LaunchesSafe(items: seq<Item>, status: StatusMap, launched: set<Item>) {
    && (forall i :: i in launched ==> i in status && status[i] != Q && Passing(items, status, i))
    && (forall i :: Started(status, i) ==> i in launched)
  }

  lemma ReadyPersists(items: seq<Item>, s0: StatusMap, s1: StatusMap, i: Item)
    requires Advances(s0, s1) && Ready(items, s0, i)
    ensures Ready(items, s1, i)
    ensures Passing(items, s1, i) <==> Passing(items, s0, i)
  {
  }

  /** Launch safety survives any progress that starts only items whose dependencies pass. */
  lemma LaunchesPersist(items: seq<Item>, s0: StatusMap, s1: StatusMap, launched: set<Item>)
    requires DepsDone(items, s0) && Advances(s0, s1) && LaunchesSafe(items, s0, launched)
    requires forall i :: Started(s1, i) ==> Started(s0, i)
    ensures LaunchesSafe(items, s1, launched)
  {
    forall i | i in launched
      ensures i in s1 && s1[i] != Q && Passing(items, s1, i)
    {
      ReadyPersists(items, s0, s1, i);
    }
  }

  /** Completing an item leaves only its dependents possibly ready and not enqueued. */
  lemma CompleteOne(items: seq<Item>, status: StatusMap, pending: set<Item>, x: Item, s: Status)
    requires DepsDone(items, status) && NoOrphan(items, status, pending)
    requires x in items && !Complete(status, x) && Finished(s)
    requires x !in status ==> Ready(items, status, x)
    ensures var status' := status[x := s];
            && Advances(status, status')
            && DepsDone(items, status')
            && (forall i :: i in items && i !in status' && i !in pending && Ready(items, status', i) ==>
                DependsOn(items, i, x))
            && (forall i :: DependsOn(items, i, x) && i != x ==> i !in status')
  {
    var status' := status[x := s];
    forall i | i in status'
      ensures Ready(items, status', i)
    {
      ReadyPersists(items, status, status', i);
    }
    forall i | i in items && i !in status' && i !in pending && Ready(items, status', i)
      ensures DependsOn(items, i, x)
    {
      var d :| DependsOn(items, i, d) && !Complete(status, d);
      assert Complete(status', d);
    }
    forall i | DependsOn(items, i, x) && i != x
      ensures i !in status'
    {
      assert i in status ==> Ready(items, status, i);
    }
  }

  /** Enqueueing changes no completion. */
  lemma QueueingKeeps(items: seq<Item>, s0: StatusMap, s1: StatusMap, xs: set<Item>)
    requires DepsDone(items, s0)
    requires s1.Keys == s0.Keys + xs && xs !! s0.Keys
    requires forall i :: i in s0 ==> s1[i] == s0[i]
    requires forall i :: i in xs ==> s1[i] == Q && Ready(items, s0, i)
    ensures Advances(s0, s1) && DepsDone(items, s1)
    ensures forall i :: Ready(items, s1, i) <==> Ready(items, s0, i)
  {
    assert forall i :: Complete(s1, i) <==> Complete(s0, i);
  }

  // ----- progress -----

  function Rank(status: StatusMap, i: Item): nat {
    if i !in status then 3 else match status[i] case Q => 2 case D => 1 case _ => 0
  }

  /** Three for each scheduled item, two for each queued and one for each running one. */
  function Work(items: seq<Item>, status: StatusMap): nat {
    if items == [] then 0 else Rank(status, items[0]) + Work(items[1..], status)
  }

  lemma {:induction false} WorkFalls(items: seq<Item>, s0: StatusMap, s1: StatusMap)
    requires Advances(s0, s1)
    ensures Work(items, s1) <= Work(items, s0)
    ensures (exists i :: i in items && Rank(s1, i) < Rank(s0, i)) ==> Work(items, s1) < Work(items, s0)
  {
    if items != [] {
      WorkFalls(items[1..], s0, s1);
      if i :| i in items && Rank(s1, i) < Rank(s0, i) {
        assert i == items[0] || i in items[1..];
      }
    }
  }

  /** The items that are scheduled (3), queued (2), running (1) or finished (0). */
  ghost function OfRank(items: seq<Item>, status: StatusMap, r: nat): set<Item> {
    set i | i in items && Rank(status, i) == r
  }

  lemma OfRankStep(items: seq<Item>, status: StatusMap, r: nat)
    requires Distinct(items) && items != []
    ensures |OfRank(items, status, r)| ==
            |OfRank(items[1..], status, r)| + if Rank(status, items[0]) == r then 1 else 0
  {
    var x, rest := items[0], items[1..];
    assert x !in rest;
    assert forall i :: i in items <==> i == x || i in rest;
    assert OfRank(items, status, r) == OfRank(rest, status, r) + if Rank(status, x) == r then {x} else {};
  }

  lemma {:induction false} WorkIsCount(items: seq<Item>, status: StatusMap)
    requires Distinct(items)
    ensures Work(items, status) == 3 * |OfRank(items, status, 3)| + 2 * |OfRank(items, status, 2)|
                                 + |OfRank(items, status, 1)|
  {
    if items == [] {
      assert forall r: nat :: OfRank(items, status, r) == {};
    } else {
      OfRankStep(items, status, 3);
      OfRankStep(items, status, 2);
      OfRankStep(items, status, 1);
      WorkIsCount(items[1..], status);
    }
  }

  // ----- no deadlock -----

  /** If nothing is queued or running and no item is orphaned, every item is complete. */
  lemma {:induction false} NothingLeft(items: seq<Item>, status: StatusMap, i: Item)
    requires NoOrphan(items, status, {}) && i in items
    requires forall j :: j in status ==> Complete(status, j)
    ensures Complete(status, i)
    decreases i
  {
    if i !in status {
      var d :| DependsOn(items, i, d) && !Complete(status, d);
      NothingLeft(items, status, d);
    }
  }

  // ----- the outcome -----

  /** Recursive evaluation over the dependency graph: a job's own outcome if its dependencies
      let it run, killed otherwise. */
  ghost function Final(items: seq<Item>, outcome: StatusMap, i: Item): Status
    decreases i
  {
    if (if i.needsAll then forall d | d in i.dependencies :: d in items ==> Final(items, outcome, d) == P
        else exists d | d in i.dependencies :: d in items && Final(items, outcome, d) == P)
       && i in outcome
    then outcome[i] else K
  }

  /** Completed items have the status the recursive evaluation gives them. */
  ghost predicate Faithful(items: seq<Item>, outcome: StatusMap, status: StatusMap) {
    forall i :: Complete(status, i) ==> status[i] == Final(items, outcome, i)
  }

  lemma FinalOfReady(items: seq<Item>, outcome: StatusMap, status: StatusMap, i: Item)
    requires Faithful(items, outcome, status) && Ready(items, status, i) && i in outcome
    ensures Final(items, outcome, i) == if Passing(items, status, i) then outcome[i] else K
  {
    assert forall d :: DependsOn(items, i, d) ==> d in status && status[d] == Final(items, outcome, d);
    if i.needsAll {
      if Passing(items, status, i) {
        assert forall d | d in i.dependencies :: d in items ==> DependsOn(items, i, d);
      } else {
        var d :| DependsOn(items, i, d) && !(d in status && status[d] == P);
        assert d in i.dependencies && d in items && Final(items, outcome, d) != P;
      }
    } else {
      if Passing(items, status, i) {
        var d :| DependsOn(items, i, d) && d in status && status[d] == P;
        assert d in i.dependencies && d in items && Final(items, outcome, d) == P;
      } else {
        assert forall d | d in i.dependencies :: d in items ==> DependsOn(items, i, d);
      }
    }
  }
}
