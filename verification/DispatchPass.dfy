/** A pass of dispatching as a function of the state it starts in: what `_dispatch` does, one
    change after the other. */
module DispatchPass {
  import opened Sequences
  import opened Jobs
  import opened SchedulerState
  import opened SchedulerSteps
  import opened DispatchSteps

  // ----- cancelling and killing -----

  lemma CancelSees(items: seq<Item>, st: State, x: Item)
    requires x in items && x !in st.status
    ensures |Unseen(items, Cancel(st, x).status)| < |Unseen(items, st.status)|
  {
    CancelStatus(st, x);
    hide Cancel;
    assert Unseen(items, Cancel(st, x).status) == Unseen(items, st.status) - {x};
    assert x in Unseen(items, st.status);
  }

  /** `_cancel_successors`: cancels the last item of the worklist and appends its successors. */
  ghost function Cascade(items: seq<Item>, targets: seq<Target>, st: State, work: seq<Item>): State
    decreases |Unseen(items, st.status)|
  {
    if work == [] then st
    else
      var x := work[|work| - 1];
      if x !in items || x in st.status || x.target !in targets then st
      else
        CancelSees(items, st, x);
        var st' := Cancel(st, x);
        Cascade(items, targets, st', work[..|work| - 1] + Successors(items, targets, st', x))
  }

  lemma CascadeUnfolds(items: seq<Item>, targets: seq<Target>, st: State, work: seq<Item>, x: Item)
    requires x in items && x !in st.status && x.target in targets
    ensures Cascade(items, targets, st, work + [x]) ==
            Cascade(items, targets, Cancel(st, x), work + Successors(items, targets, Cancel(st, x), x))
  {
    hide Cancel, Successors;
    assert (work + [x])[..|work + [x]| - 1] == work;
  }

  lemma CascadeEnds(items: seq<Item>, targets: seq<Target>, st: State)
    ensures Cascade(items, targets, st, []) == st
  {
  }

  /** `_kill_item`. */
  ghost function KillState(items: seq<Item>, targets: seq<Target>, st: State, x: Item): State
    requires x.target in targets
  {
    var st' := Finish(st, x, K);
    Cascade(items, targets, st', Successors(items, targets, st', x))
  }

  // ----- one target -----

  /** One item is popped; it is kept for dispatch, or cancelled and its successors enqueued. */
  ghost function PopState(items: seq<Item>, targets: seq<Target>, st: State, t: Target): State
    requires ListAt(st.queued, t) != []
  {
    var x := ListAt(st.queued, t)[0];
    if Passing(items, st.status, x) || x.target !in targets then Pop(st, t)
    else
      var st' := Cancel(Pop(st, t), x);
      EnqueueAll(st', Successors(items, targets, st', x))
  }

  /** Items are popped until `n` are kept or the queue, of `len` items, is empty. */
  ghost function FillState(items: seq<Item>, targets: seq<Target>, st: State, t: Target, n: nat, len: nat): State
    decreases len
  {
    if len == 0 || n == 0 || ListAt(st.queued, t) == [] then st
    else
      var n' := if Passing(items, st.status, ListAt(st.queued, t)[0]) then n - 1 else n;
      FillState(items, targets, PopState(items, targets, st, t), t, n', len - 1)
  }

  /** An item is started, and killed if its launcher fails. */
  ghost function LaunchState(items: seq<Item>, targets: seq<Target>, fails: set<Item>, st: State, x: Item): State {
    if x in fails && x.target in targets then KillState(items, targets, Start(st, x), x) else Start(st, x)
  }

  ghost function LaunchStates(items: seq<Item>, targets: seq<Target>, fails: set<Item>, st: State, xs: seq<Item>): State
  {
    if xs == [] then st
    else LaunchState(items, targets, fails, LaunchStates(items, targets, fails, st, xs[..|xs| - 1]), xs[|xs| - 1])
  }

  /** A target is given `n` slots. */
  ghost function ServeState(items: seq<Item>, targets: seq<Target>, fails: set<Item>, st: State, t: Target,
                            n: nat): State
  {
    var q := ListAt(st.queued, t);
    LaunchStates(items, targets, fails, FillState(items, targets, st, t, n, |q|), Chosen(items, st.status, q, n))
  }

  lemma ServeNothing(items: seq<Item>, targets: seq<Target>, fails: set<Item>, st: State, t: Target)
    ensures ServeState(items, targets, fails, st, t, 0) == st
  {
    hide Passing;
  }

  lemma FillUnfolds(items: seq<Item>, targets: seq<Target>, st: State, t: Target, n: nat)
    requires ListAt(st.queued, t) != [] && n > 0
    ensures FillState(items, targets, st, t, n, |ListAt(st.queued, t)|) ==
            FillState(items, targets, PopState(items, targets, st, t), t,
                      if Passing(items, st.status, ListAt(st.queued, t)[0]) then n - 1 else n,
                      |ListAt(st.queued, t)| - 1)
  {
    hide PopState, Passing;
  }

  lemma FillEnds(items: seq<Item>, targets: seq<Target>, st: State, t: Target, n: nat)
    requires ListAt(st.queued, t) == [] || n == 0
    ensures FillState(items, targets, st, t, n, |ListAt(st.queued, t)|) == st
  {
    hide PopState, Passing;
  }

  lemma LaunchNone(items: seq<Item>, targets: seq<Target>, fails: set<Item>, st: State)
    ensures LaunchStates(items, targets, fails, st, []) == st
  {
  }

  lemma LaunchUnfolds(items: seq<Item>, targets: seq<Target>, fails: set<Item>, st: State, xs: seq<Item>, n: nat)
    requires n < |xs|
    ensures LaunchStates(items, targets, fails, st, xs[..n + 1]) ==
            LaunchState(items, targets, fails, LaunchStates(items, targets, fails, st, xs[..n]), xs[n])
  {
    hide LaunchState;
    assert xs[..n + 1][..n] == xs[..n];
  }

  // ----- all targets -----

  datatype Outcome = Outcome(state: State, seen: seq<seq<Item>>, alloc: seq<nat>)

  /** The slots of a target whose queue is `q`, after the slots `alloc` were given for the queues
      `seen`: what the rounded share of all weights so far leaves. */
  function SlotsFor(slots: nat, total: nat, seen: seq<seq<Item>>, alloc: seq<nat>, q: seq<Item>): nat {
    if q == [] || total == 0 then 0
    else
      var share := Share(slots, HeadWeights(seen) + HeadWeight(q), total);
      if share <= Sum(alloc) then 0 else share - Sum(alloc)
  }

  lemma SlotsAre(slots: nat, total: nat, seen: seq<seq<Item>>, alloc: seq<nat>, q: seq<Item>)
    ensures HeadWeights(seen + [q]) == HeadWeights(seen) + if q == [] then 0 else q[0].weight
    ensures Sum(alloc + [0]) == Sum(alloc)
    ensures q == [] ==> SlotsFor(slots, total, seen, alloc, q) == 0
    ensures q != [] && total > 0 ==>
              var share := Share(slots, HeadWeights(seen) + q[0].weight, total);
              SlotsFor(slots, total, seen, alloc, q) == if share <= Sum(alloc) then 0 else share - Sum(alloc)
  {
    hide HeadWeights, Sum, Share;
    HeadWeightsSnoc(seen, q);
    SumSnoc(alloc, 0);
  }

  /** The slots of the next target keep the allocation right. */
  lemma SlotsAllocate(slots: nat, total: nat, seen: seq<seq<Item>>, alloc: seq<nat>, q: seq<Item>)
    requires |seen| == |alloc| && (total > 0 ==> Allocated(slots, total, seen, alloc))
    ensures var a := SlotsFor(slots, total, seen, alloc, q);
            && (total > 0 ==> Allocated(slots, total, seen + [q], alloc + [a]))
            && Sum(alloc + [a]) == Sum(alloc) + a
  {
    hide Allocated, HeadWeights, Sum, Share;
    var a := SlotsFor(slots, total, seen, alloc, q);
    if total > 0 {
      AllocatedEnd(slots, total, seen, alloc);
      ShareGrows(slots, HeadWeights(seen), HeadWeights(seen) + HeadWeight(q), total);
    }
    AllocatedStep(slots, total, seen, alloc, q, a);
  }

  /** The first `n` targets are served in turn. */
  ghost function PassOver(items: seq<Item>, targets: seq<Target>, fails: set<Item>, slots: nat, total: nat, st: State,
                          n: nat): (o: Outcome)
    requires n <= |targets|
    ensures |o.seen| == |o.alloc| == n
  {
    if n == 0 then Outcome(st, [], [])
    else
      var o := PassOver(items, targets, fails, slots, total, st, n - 1);
      var q := ListAt(o.state.queued, targets[n - 1]);
      var a := SlotsFor(slots, total, o.seen, o.alloc, q);
      Outcome(ServeState(items, targets, fails, o.state, targets[n - 1], a), o.seen + [q], o.alloc + [a])
  }

  /** What `_dispatch` makes of a state. */
  ghost function DispatchOf(items: seq<Item>, targets: seq<Target>, fails: set<Item>, maxParallel: nat,
                            st: State): Outcome
  {
    var live := |Elements(st.running)|;
    if maxParallel <= live then Outcome(st, [], [])
    else PassOver(items, targets, fails, maxParallel - live, HeadWeights(QueuesOf(targets, st.queued)), st, |targets|)
  }

  lemma OverNone(items: seq<Item>, targets: seq<Target>, fails: set<Item>, slots: nat, total: nat, st: State)
    ensures PassOver(items, targets, fails, slots, total, st, 0) == Outcome(st, [], [])
  {
  }

  lemma OverUnfolds(items: seq<Item>, targets: seq<Target>, fails: set<Item>, slots: nat, total: nat, st0: State,
                    n: nat, st: State, seen: seq<seq<Item>>, alloc: seq<nat>)
    requires n < |targets| && PassOver(items, targets, fails, slots, total, st0, n) == Outcome(st, seen, alloc)
    ensures var q := ListAt(st.queued, targets[n]);
            var a := SlotsFor(slots, total, seen, alloc, q);
            && PassOver(items, targets, fails, slots, total, st0, n + 1) ==
               Outcome(ServeState(items, targets, fails, st, targets[n], a), seen + [q], alloc + [a])
            && ServeState(items, targets, fails, st, targets[n], 0) == st
  {
    hide SlotsFor;
    ServeNothing(items, targets, fails, st, targets[n]);
    hide ServeState;
  }

  /** The slots given away are fair after every target, in every pass. */
  lemma {:induction false} OverFair(items: seq<Item>, targets: seq<Target>, fails: set<Item>, slots: nat, total: nat,
                                    st: State, n: nat)
    requires n <= |targets| && total > 0
    ensures var o := PassOver(items, targets, fails, slots, total, st, n);
            Allocated(slots, total, o.seen, o.alloc) && Fair(slots, total, o.seen, o.alloc) &&
            EachFair(slots, total, o.seen, o.alloc)
  {
    hide ServeState, SlotsFor, ListAt, Allocated, Fair, EachFair;
    var o := PassOver(items, targets, fails, slots, total, st, n);
    if n == 0 {
      AllocatedNone(slots, total);
    } else {
      OverFair(items, targets, fails, slots, total, st, n - 1);
      var before := PassOver(items, targets, fails, slots, total, st, n - 1);
      SlotsAllocate(slots, total, before.seen, before.alloc, ListAt(before.state.queued, targets[n - 1]));
    }
    AllocatedIsFair(slots, total, o.seen, o.alloc);
  }
}
