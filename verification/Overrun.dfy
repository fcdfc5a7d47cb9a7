/** A pass after which more jobs run than max_parallel allows. */
module Overrun {
  import opened Sequences
  import opened Jobs
  import opened SchedulerState
  import opened Dependencies
  import opened Polling
  import opened DispatchSteps
  import opened DispatchPass
  import opened QueueFill
  import opened PassResults
  import opened RunSteps

  /** Target A holds z and c, of configuration p, and x, of configuration q. In target B, y needs
      one of z and c, and w needs x. The job c has no dependency that could let it run. */
  ghost predicate Scene(z: Item, c: Item, x: Item, y: Item, w: Item) {
    && z.target == c.target == x.target == "A" && y.target == w.target == "B"
    && z.cfg == c.cfg == y.cfg == "p" && x.cfg == w.cfg == "q"
    && z.dependencies == c.dependencies == x.dependencies == [] && y.dependencies == [z, c] && w.dependencies == [x]
    && z.needsAll && !c.needsAll && x.needsAll && !y.needsAll && w.needsAll
    && z.weight == c.weight == x.weight == y.weight == w.weight == 1
    && Distinct([z, c, x, y, w])
  }

  lemma SceneExists() returns (z: Item, c: Item, x: Item, y: Item, w: Item)
    ensures Scene(z, c, x, y, w)
  {
    z := Item("z", "A", "p", [], true, 1);
    c := Item("c", "A", "p", [], false, 1);
    x := Item("x", "A", "q", [], true, 1);
    y := Item("y", "B", "p", [z, c], false, 1);
    w := Item("w", "B", "q", [x], true, 1);
    assert x.cfg[0] == 'q' && z.cfg[0] == 'p';
    assert y.target[0] == 'B' && z.target[0] == 'A';
  }

  function Jobs5(z: Item, c: Item, x: Item, y: Item, w: Item): (r: seq<Item>) {
    [z, c, x, y, w]
  }

  /** z has passed, c and x are queued, y and w are scheduled. */
  ghost function Stage(z: Item, c: Item, x: Item, y: Item, w: Item): State {
    State(map["A" := map[], "B" := map["p" := [y], "q" := [w]]],
          map["A" := [c, x], "B" := []],
          map["A" := [], "B" := []],
          map["A" := {z}, "B" := {}],
          map["A" := {}, "B" := {}],
          map["A" := {}, "B" := {}],
          map[z := P, c := Q, x := Q])
  }

  lemma Two()
    ensures "A" != "B" && "p" != "q"
  {
    assert "A"[0] != "B"[0] && "p"[0] != "q"[0];
  }

  lemma SceneTargets(z: Item, c: Item, x: Item, y: Item, w: Item)
    requires Scene(z, c, x, y, w)
    ensures TargetsOf(Jobs5(z, c, x, y, w)) == ["A", "B"]
  {
    Two();
    assert [z, c, x, y, w][..4] == [z, c, x, y];
    assert [z, c, x, y][..3] == [z, c, x];
    assert [z, c, x][..2] == [z, c];
    assert [z, c][..1] == [z];
    assert [z][..0] == [];
    assert TargetsOf([z]) == ["A"];
    assert TargetsOf([z, c]) == ["A"];
    assert TargetsOf([z, c, x]) == ["A"];
    assert TargetsOf([z, c, x, y]) == ["A", "B"];
  }

  lemma SceneDepends(z: Item, c: Item, x: Item, y: Item, w: Item, i: Item, d: Item)
    requires Scene(z, c, x, y, w) && i in Jobs5(z, c, x, y, w)
    ensures DependsOn(Jobs5(z, c, x, y, w), i, d) <==> (i == y && (d == z || d == c)) || (i == w && d == x)
  {
  }

  lemma SceneWellFormed(z: Item, c: Item, x: Item, y: Item, w: Item)
    requires Scene(z, c, x, y, w)
    ensures WellFormed(Jobs5(z, c, x, y, w))
  {
    hide DependsOn, TargetsOf;
    var items := Jobs5(z, c, x, y, w);
    SceneTargets(z, c, x, y, w);
    Two();
    assert Pos(["A", "B"], "A") == 0;
    assert ["A", "B"][1..] == ["B"];
    assert Pos(["A", "B"], "B") == 1;
    forall i, d | i in items && DependsOn(items, i, d)
      ensures i.target == "B" && d.target == "A" && d.cfg == i.cfg
    {
      SceneDepends(z, c, x, y, w, i, d);
    }
    SceneDepends(z, c, x, y, w, y, z);
    SceneDepends(z, c, x, y, w, y, c);
    SceneDepends(z, c, x, y, w, w, x);
    hide Pos;
  }

  lemma StageSteady(z: Item, c: Item, x: Item, y: Item, w: Item)
    requires Scene(z, c, x, y, w)
    ensures Steady(Jobs5(z, c, x, y, w), Stage(z, c, x, y, w), {}, {z})
  {
    SceneWellFormed(z, c, x, y, w);
    StagePartition(z, c, x, y, w);
    StageDependencies(z, c, x, y, w);
    hide WellFormed, Partition, Scene, Stage, DepsDone, LaunchesSafe, NoOrphan;
  }

  lemma StageDependencies(z: Item, c: Item, x: Item, y: Item, w: Item)
    requires Scene(z, c, x, y, w)
    ensures DepsDone(Jobs5(z, c, x, y, w), Stage(z, c, x, y, w).status)
    ensures LaunchesSafe(Jobs5(z, c, x, y, w), Stage(z, c, x, y, w).status, {z})
    ensures NoOrphan(Jobs5(z, c, x, y, w), Stage(z, c, x, y, w).status, {})
  {
    hide DependsOn;
    var items, status := Jobs5(z, c, x, y, w), Stage(z, c, x, y, w).status;
    forall i, d | i in items
      ensures DependsOn(items, i, d) <==> (i == y && (d == z || d == c)) || (i == w && d == x)
    {
      SceneDepends(z, c, x, y, w, i, d);
    }
    assert DependsOn(items, y, c) && !Complete(status, c);
    assert DependsOn(items, w, x) && !Complete(status, x);
  }

  lemma StageClasses(z: Item, c: Item, x: Item, y: Item, w: Item)
    requires Scene(z, c, x, y, w)
    ensures var status := Stage(z, c, x, y, w).status;
            && WithStatus(status, Q) - {} == {c, x} && WithStatus(status, D) == {} && WithStatus(status, P) == {z}
            && WithStatus(status, F) == {} && WithStatus(status, K) == {}
  {
  }

  lemma StageUnseen(z: Item, c: Item, x: Item, y: Item, w: Item)
    requires Scene(z, c, x, y, w)
    ensures var items, status := Jobs5(z, c, x, y, w), Stage(z, c, x, y, w).status;
            Unseen(items, status) == {y, w} && forall i :: i in status ==> i in items
  {
  }

  lemma StagePartition(z: Item, c: Item, x: Item, y: Item, w: Item)
    requires Scene(z, c, x, y, w)
    ensures Partition(Jobs5(z, c, x, y, w), Stage(z, c, x, y, w), {})
  {
    hide WithStatus, Unseen, ListsHold, GroupsHold, ScheduleHolds, SlotsInOrder, Scene, Stage, Jobs5;
    StageClasses(z, c, x, y, w);
    StageUnseen(z, c, x, y, w);
    StageQueued(z, c, x, y, w);
    StageScheduled(z, c, x, y, w);
    StageInOrder(z, c, x, y, w);
    StagePassed(z, c, x, y, w);
    StageEmpty(z, c, x, y, w);
  }

  lemma StageInOrder(z: Item, c: Item, x: Item, y: Item, w: Item)
    ensures SlotsInOrder(Jobs5(z, c, x, y, w), Stage(z, c, x, y, w).scheduled)
  {
    hide IndexOf;
    var s := Stage(z, c, x, y, w).scheduled;
    assert forall t, g, i :: i in SlotAt(s, t, g) ==> i == y || i == w;
    assert forall t, g :: |SlotAt(s, t, g)| <= 1;
  }

  lemma StageEmpty(z: Item, c: Item, x: Item, y: Item, w: Item)
    ensures var st := Stage(z, c, x, y, w);
            ListsHold(st.running, {}) && GroupsHold(st.failed, {}) && GroupsHold(st.killed, {})
  {
    hide ListsHold, GroupsHold;
    NoLists(["A", "B"]);
    assert Stage(z, c, x, y, w).running == map t | t in ["A", "B"] :: [];
    assert Stage(z, c, x, y, w).failed == map t | t in ["A", "B"] :: {};
  }

  lemma StagePassed(z: Item, c: Item, x: Item, y: Item, w: Item)
    requires Scene(z, c, x, y, w)
    ensures GroupsHold(Stage(z, c, x, y, w).passed, {z})
  {
  }

  lemma StageQueued(z: Item, c: Item, x: Item, y: Item, w: Item)
    requires Scene(z, c, x, y, w)
    ensures ListsHold(Stage(z, c, x, y, w).queued, {c, x})
  {
    Two();
    var l := Stage(z, c, x, y, w).queued;
    assert forall t :: ListAt(l, t) == if t == "A" then [c, x] else [];
  }

  lemma StageScheduled(z: Item, c: Item, x: Item, y: Item, w: Item)
    requires Scene(z, c, x, y, w)
    ensures ScheduleHolds(Stage(z, c, x, y, w).scheduled, {y, w})
  {
    Two();
    var s := Stage(z, c, x, y, w).scheduled;
    assert forall t, g :: SlotAt(s, t, g) ==
                          if t != "B" then [] else if g == "p" then [y] else if g == "q" then [w] else [];
  }

  // ----- the pass -----

  lemma StageStart(z: Item, c: Item, x: Item, y: Item, w: Item)
    requires Scene(z, c, x, y, w)
    ensures Elements(Stage(z, c, x, y, w).running) == {}
    ensures QueuesOf(["A", "B"], Stage(z, c, x, y, w).queued) == [[c, x], []]
    ensures HeadWeights([[c, x], []]) == 1 && HeadWeights([[c, x]]) == 1
  {
    Two();
    HeadWeightsNone();
    HeadWeightsSnoc([], [c, x]);
    assert [] + [[c, x]] == [[c, x]];
    HeadWeightsSnoc([[c, x]], []);
    assert [[c, x]] + [[]] == [[c, x], []];
  }

  /** The queue of A is given one slot: c is dropped and x started. */
  lemma FirstTurn(z: Item, c: Item, x: Item, y: Item, w: Item)
    requires Scene(z, c, x, y, w)
    ensures var items, status := Jobs5(z, c, x, y, w), Stage(z, c, x, y, w).status;
            && Chosen(items, status, [c, x], 1) == [x]
            && Dropped(items, status, [c, x], 1) == {c}
  {
    var items, status := Jobs5(z, c, x, y, w), Stage(z, c, x, y, w).status;
    assert !Passing(items, status, c) && Passing(items, status, x);
    hide Passing, Stage, Jobs5;
    assert [c, x][1..] == [x];
    assert [x][1..] == [];
    assert Chosen(items, status, [x], 1) == [x];
    assert Dropped(items, status, [x], 1) == {};
  }

  /** That releases y alone. */
  lemma YReleased(z: Item, c: Item, x: Item, y: Item, w: Item, i: Item)
    requires Scene(z, c, x, y, w)
    ensures Released(Jobs5(z, c, x, y, w), Stage(z, c, x, y, w).status, {c}, i) <==> i == y
  {
    var items, status := Jobs5(z, c, x, y, w), Stage(z, c, x, y, w).status;
    hide DependsOn;
    forall j, d | j in items
      ensures DependsOn(items, j, d) <==> (j == y && (d == z || d == c)) || (j == w && d == x)
    {
      SceneDepends(z, c, x, y, w, j, d);
    }
    assert DependsOn(items, w, x);
  }

  /** The slots: one for A, and one more for B, whose queue was empty when the weights were summed. */
  lemma SceneSlots(c: Item, x: Item, y: Item)
    requires c.weight == y.weight == 1
    ensures SlotsFor(1, 1, [], [], [c, x]) == 1
    ensures SlotsFor(1, 1, [[c, x]], [1], [y]) == 1
  {
    assert [[c, x]][..0] == [];
    assert HeadWeights([[c, x]]) == 1;
    assert Sum([1]) == 1;
    assert Round(1, 1) == 1 && Round(2, 1) == 2;
  }

  lemma YPasses(z: Item, c: Item, x: Item, y: Item, w: Item, status: StatusMap)
    requires Scene(z, c, x, y, w) && Advances(Stage(z, c, x, y, w).status, status)
    ensures Chosen(Jobs5(z, c, x, y, w), status, [y], 1) == [y]
  {
    var items := Jobs5(z, c, x, y, w);
    SceneDepends(z, c, x, y, w, y, z);
    assert z in status && status[z] == P;
    assert Passing(items, status, y);
    hide Passing, DependsOn;
    assert [y][1..] == [];
    assert Chosen(items, status, [], 0) == [];
  }

  lemma LaunchedOne(i: Item)
    ensures Launching([i], {}) == [i]
  {
    assert [i][..0] == [];
  }

  /** A pass with max_parallel 1 in which every launch succeeds. */
  ghost function ThePass(z: Item, c: Item, x: Item, y: Item, w: Item): Outcome {
    DispatchOf(Jobs5(z, c, x, y, w), TargetsOf(Jobs5(z, c, x, y, w)), {}, 1, Stage(z, c, x, y, w))
  }

  lemma ThePassIs(z: Item, c: Item, x: Item, y: Item, w: Item)
    requires Scene(z, c, x, y, w)
    ensures var items, st := Jobs5(z, c, x, y, w), Stage(z, c, x, y, w);
            && TargetsOf(items) == ["A", "B"] && Elements(st.running) == {}
            && ListAt(st.queued, "A") == [c, x] && ListAt(st.queued, "B") == []
            && ListAt(st.running, "A") == [] && ListAt(st.running, "B") == []
            && ThePass(z, c, x, y, w) == PassOver(items, ["A", "B"], {}, 1, 1, st, 2)
            && Before(items, {}, 1, st, 0) == st
  {
    hide PassOver, TargetsOf, Jobs5, Scene;
    StageStart(z, c, x, y, w);
    SceneTargets(z, c, x, y, w);
    hide QueuesOf, HeadWeights, Elements;
    Two();
    OverNone(Jobs5(z, c, x, y, w), ["A", "B"], {}, 1, 1, Stage(z, c, x, y, w));
  }

  lemma FirstQueue(z: Item, c: Item, x: Item, y: Item, w: Item)
    requires Scene(z, c, x, y, w)
    ensures var o := ThePass(z, c, x, y, w);
            |o.seen| == |o.alloc| == 2 && o.seen[0] == [c, x] && o.alloc[0] == 1
  {
    var items, st, o := Jobs5(z, c, x, y, w), Stage(z, c, x, y, w), ThePass(z, c, x, y, w);
    ThePassIs(z, c, x, y, w);
    StageSteady(z, c, x, y, w);
    SceneSlots(c, x, y);
    hide Steady, TargetsOf, Elements, SlotsFor, Stage, Jobs5, PassOver, Scene, ListAt, ThePass, Before, Released;
    hide Dropped, Distinct, DispatchOf;
    assert ThePass(z, c, x, y, w) == DispatchOf(items, ["A", "B"], {}, 1, st) by { PassOf(z, c, x, y, w); }
    SeenQueues(items, {}, 1, st, {z}, 0);
    SlotsGiven(items, ["A", "B"], {}, 1, 1, st, 0);
    assert o.seen[..0] == [] && o.alloc[..0] == [];
  }

  lemma PassOf(z: Item, c: Item, x: Item, y: Item, w: Item)
    ensures ThePass(z, c, x, y, w) ==
            DispatchOf(Jobs5(z, c, x, y, w), TargetsOf(Jobs5(z, c, x, y, w)), {}, 1, Stage(z, c, x, y, w))
  {
  }

  lemma SecondQueue(z: Item, c: Item, x: Item, y: Item, w: Item)
    requires Scene(z, c, x, y, w)
    ensures var o := ThePass(z, c, x, y, w);
            |o.seen| == |o.alloc| == 2 && o.seen[1] == [y] && o.alloc[1] == 1
  {
    var items, st, o := Jobs5(z, c, x, y, w), Stage(z, c, x, y, w), ThePass(z, c, x, y, w);
    ThePassIs(z, c, x, y, w);
    StageSteady(z, c, x, y, w);
    FirstQueue(z, c, x, y, w);
    FirstTurn(z, c, x, y, w);
    SceneSlots(c, x, y);
    hide Steady, TargetsOf, Elements, SlotsFor, Stage, Jobs5, PassOver, ListAt, ThePass, Before, Released, Dropped;
    hide Distinct, DispatchOf, Chosen;
    PassOf(z, c, x, y, w);
    SeenQueues(items, {}, 1, st, {z}, 1);
    forall i
      ensures i in o.seen[1] <==> i == y
    {
      YReleased(z, c, x, y, w, i);
    }
    hide Scene;
    OneMember(o.seen[1], y);
    SlotsGiven(items, ["A", "B"], {}, 1, 1, st, 1);
    assert o.seen[..1] == [[c, x]] && o.alloc[..1] == [1];
  }

  lemma OneMember(s: seq<Item>, x: Item)
    requires Distinct(s) && forall i :: i in s <==> i == x
    ensures s == [x]
  {
    DistinctSize(s);
    assert (set i | i in s) == {x};
    assert s[0] in s;
  }

  lemma BothRun(z: Item, c: Item, x: Item, y: Item, w: Item)
    requires Scene(z, c, x, y, w)
    ensures ListAt(ThePass(z, c, x, y, w).state.running, "A") == [x]
    ensures ListAt(ThePass(z, c, x, y, w).state.running, "B") == [y]
  {
    var items, st, o := Jobs5(z, c, x, y, w), Stage(z, c, x, y, w), ThePass(z, c, x, y, w);
    ThePassIs(z, c, x, y, w);
    StageSteady(z, c, x, y, w);
    FirstQueue(z, c, x, y, w);
    SecondQueue(z, c, x, y, w);
    FirstTurn(z, c, x, y, w);
    hide Steady, TargetsOf, Elements, SlotsFor, Stage, Jobs5, PassOver, ListAt, ThePass, Before, Released, Dropped;
    hide Chosen, Scene, Launching, Advances;
    OverNone(items, ["A", "B"], {}, 1, 1, st);
    OverRunning(items, {}, 1, 1, st, {z}, 2, 0);
    LaunchedOne(x);
    var _ := OverSteady(items, {}, 1, 1, st, {z}, 1);
    YPasses(z, c, x, y, w, PassOver(items, ["A", "B"], {}, 1, 1, st, 1).state.status);
    OverRunning(items, {}, 1, 1, st, {z}, 2, 1);
    LaunchedOne(y);
  }

  lemma TwoRun(z: Item, c: Item, x: Item, y: Item, w: Item)
    requires Scene(z, c, x, y, w)
    ensures |Elements(ThePass(z, c, x, y, w).state.running)| == 2
  {
    var items, st, o := Jobs5(z, c, x, y, w), Stage(z, c, x, y, w), ThePass(z, c, x, y, w);
    ThePassIs(z, c, x, y, w);
    StageSteady(z, c, x, y, w);
    hide Steady, TargetsOf, Elements, Stage, Jobs5, PassOver, ListAt, ThePass, Lengths, Partition, Scene;
    BothRun(z, c, x, y, w);
    var launched := OverSteady(items, {}, 1, 1, st, {z}, 2);
    SteadyParts(items, o.state, {}, launched);
    RunningSize(items, o.state, {});
    TwoLengths(o.state.running, x, y);
  }

  /** max_parallel is 1 and nothing runs, and yet the pass starts both x and y: c, dropped from the
      queue of A, puts y into that of B after the slots were shared. */
  lemma TwoStarted(z: Item, c: Item, x: Item, y: Item, w: Item)
    requires Scene(z, c, x, y, w)
    ensures Steady(Jobs5(z, c, x, y, w), Stage(z, c, x, y, w), {}, {z})
    ensures Elements(Stage(z, c, x, y, w).running) == {}
    ensures var o := ThePass(z, c, x, y, w);
            && o.seen == [[c, x], [y]] && o.alloc == [1, 1]
            && ListAt(o.state.running, "A") == [x] && ListAt(o.state.running, "B") == [y]
            && |Elements(o.state.running)| == 2
  {
    hide Steady, TargetsOf, Elements, Stage, Jobs5, PassOver, ListAt, ThePass, DispatchOf, Scene, Before;
    var o := ThePass(z, c, x, y, w);
    ThePassIs(z, c, x, y, w);
    StageSteady(z, c, x, y, w);
    FirstQueue(z, c, x, y, w);
    SecondQueue(z, c, x, y, w);
    assert o.seen == [o.seen[0], o.seen[1]] && o.alloc == [o.alloc[0], o.alloc[1]];
    BothRun(z, c, x, y, w);
    TwoRun(z, c, x, y, w);
  }

  lemma TwoLengths(l: Lists, x: Item, y: Item)
    requires ListAt(l, "A") == [x] && ListAt(l, "B") == [y]
    ensures Lengths(l, ["A", "B"]) == 2
  {
    hide ListAt;
    assert ["A", "B"][..1] == ["A"];
    assert ["A"][..0] == [];
    assert Lengths(l, ["A"]) == 1;
  }
}
