/** Jobs, their statuses, and the collections the scheduler keeps them in. */
module Jobs {
  import opened Sequences

  type Target = string
  type Cfg = string

  /** A Deploy object. `dependencies` may name jobs that are not scheduled to run. */
  datatype Item = Item(name: string, target: Target, cfg: Cfg, dependencies: seq<Item>, needsAll: bool, weight: nat)

  /** Queued, dispatched, passed, failed, killed. */
  datatype Status = Q | D | P | F | K

  type StatusMap = map<Item, Status>
  type Lists = map<Target, seq<Item>>
  type Groups = map<Target, set<Item>>
  type Schedule = map<Target, map<Cfg, seq<Item>>>

  predicate Finished(s: Status) {
    s.P? || s.F? || s.K?
  }

  predicate Complete(status: StatusMap, i: Item) {
    i in status && Finished(status[i])
  }

  /** `d` is a dependency of `i` that is scheduled to run. */
  predicate DependsOn(items: seq<Item>, i: Item, d: Item) {
    d in i.dependencies && d in items
  }

  /** All dependencies are complete. */
  ghost predicate Ready(items: seq<Item>, status: StatusMap, i: Item) {
    forall d :: DependsOn(items, i, d) ==> Complete(status, d)
  }

  /** The dependencies' outcomes allow the job to run. */
  ghost predicate Passing(items: seq<Item>, status: StatusMap, i: Item) {
    if i.needsAll then forall d :: DependsOn(items, i, d) ==> d in status && status[d] == P
    else exists d :: DependsOn(items, i, d) && d in status && status[d] == P
  }

  // ----- the order of targets -----

  /** Targets in the order in which the items first mention them. */
  function TargetsOf(items: seq<Item>): seq<Target> {
    if items == [] then []
    else
      var ts := TargetsOf(items[..|items| - 1]);
      var t := items[|items| - 1].target;
      if t in ts then ts else ts + [t]
  }

  function Pos(targets: seq<Target>, t: Target): (p: nat)
    requires t in targets
    ensures p < |targets| && targets[p] == t
  {
    if targets[0] == t then 0 else 1 + Pos(targets[1..], t)
  }

  lemma {:induction false} PosAt(targets: seq<Target>, p: nat)
    requires Distinct(targets) && p < |targets|
    ensures Pos(targets, targets[p]) == p
  {
    if p > 0 {
      assert targets[0] != targets[p];
      PosAt(targets[1..], p - 1);
    }
  }

  lemma {:induction false} TargetsOfShape(items: seq<Item>)
    ensures Distinct(TargetsOf(items))
    ensures forall t :: t in TargetsOf(items) <==> exists i :: i in items && i.target == t
  {
    if items != [] {
      var init, last := items[..|items| - 1], items[|items| - 1];
      assert items == init + [last];
      TargetsOfShape(init);
      forall t
        ensures t in TargetsOf(items) <==> exists i :: i in items && i.target == t
      {
        if t in TargetsOf(items) {
          if t == last.target {
            assert last in items;
          } else {
            var i :| i in init && i.target == t;
            assert i in items;
          }
        }
        if i :| i in items && i.target == t {
          assert i in init || i == last;
        }
      }
    }
  }

  function Mentioned(items: seq<Item>): seq<Target> {
    if items == [] then [] else Mentioned(items[..|items| - 1]) + [items[|items| - 1].target]
  }

  /** The targets come in the order in which they are first mentioned. */
  lemma {:induction false} TargetsInOrder(items: seq<Item>)
    ensures |Mentioned(items)| == |items| && forall i :: 0 <= i < |items| ==> Mentioned(items)[i] == items[i].target
    ensures InOrder(Mentioned(items), TargetsOf(items))
    ensures forall t :: t in Mentioned(items) ==> t in TargetsOf(items)
    decreases |items|
  {
    hide InOrder;
    if items == [] {
      InOrderSelf(Mentioned(items));
    } else {
      var init, t := items[..|items| - 1], items[|items| - 1].target;
      TargetsInOrder(init);
      InOrderMore(Mentioned(init), TargetsOf(init), t);
      if t in Mentioned(init) {
        assert t in TargetsOf(init);
      } else if t in TargetsOf(init) {
        InOrderMembers(Mentioned(init), TargetsOf(init));
      }
    }
  }

  /** Jobs depend on scheduled jobs of the same configuration in the preceding target only. */
  ghost predicate EdgesGoBack(items: seq<Item>, targets: seq<Target>) {
    forall i, d :: i in items && DependsOn(items, i, d) ==>
      i.target in targets && d.target in targets && Pos(targets, d.target) + 1 == Pos(targets, i.target) &&
          d.cfg == i.cfg
  }

  /** Jobs of all targets but the first have a scheduled dependency. */
  ghost predicate LaterDepend(items: seq<Item>, targets: seq<Target>) {
    forall i :: i in items && i.target in targets && Pos(targets, i.target) > 0 ==> exists d :: DependsOn(items, i, d)
  }

  /** Jobs of all targets but the last have a scheduled dependent. */
  ghost predicate EarlierHaveDependents(items: seq<Item>, targets: seq<Target>) {
    forall i :: i in items && i.target in targets && Pos(targets, i.target) + 1 < |targets| ==>
      exists n :: n in items && DependsOn(items, n, i)
  }

  /** The shape of the job graph that the simulation flow hands to the scheduler. */
  ghost predicate WellFormed(items: seq<Item>) {
    && items != [] && Distinct(items)
    && (forall i :: i in items ==> i.weight > 0)
    && EdgesGoBack(items, TargetsOf(items))
    && LaterDepend(items, TargetsOf(items))
    && EarlierHaveDependents(items, TargetsOf(items))
  }

  // ----- collections -----

  function ListAt(l: Lists, t: Target): seq<Item> {
    if t in l then l[t] else []
  }

  function GroupAt(g: Groups, t: Target): set<Item> {
    if t in g then g[t] else {}
  }

  function SlotAt(s: Schedule, t: Target, c: Cfg): seq<Item> {
    if t in s && c in s[t] then s[t][c] else []
  }

  /** The lists hold exactly the items of `own`, each once and under its own target. */
  ghost predicate ListsHold(l: Lists, own: set<Item>) {
    && (forall i :: i in own <==> i in ListAt(l, i.target))
    && (forall t, i :: i in ListAt(l, t) ==> i.target == t)
    && (forall t :: Distinct(ListAt(l, t)))
  }

  ghost predicate GroupsHold(g: Groups, own: set<Item>) {
    && (forall i :: i in own <==> i in GroupAt(g, i.target))
    && (forall t, i :: i in GroupAt(g, t) ==> i.target == t)
  }

  /** The schedule holds exactly the items of `own`, and has no empty list. */
  ghost predicate ScheduleHolds(s: Schedule, own: set<Item>) {
    && (forall i :: i in own <==> i in SlotAt(s, i.target, i.cfg))
    && (forall t, c, i :: i in SlotAt(s, t, c) ==> i.target == t && i.cfg == c)
    && (forall t, c :: Distinct(SlotAt(s, t, c)))
    && (forall t, c :: t in s && c in s[t] ==> s[t][c] != [])
  }

  /** `list.remove(x)`: drops the first occurrence, if any. */
  function RemoveItem(s: seq<Item>, x: Item): (r: seq<Item>)
  {
    if s == [] then []
    else if s[0] == x then s[1..]
    else [s[0]] + RemoveItem(s[1..], x)
  }

  lemma {:induction false} RemoveItemMembers(s: seq<Item>, x: Item)
    requires Distinct(s)
    ensures Distinct(RemoveItem(s, x))
    ensures forall i :: i in RemoveItem(s, x) <==> i in s && i != x
  {
    if s != [] {
      assert forall i :: i in s <==> i == s[0] || i in s[1..];
      assert s[0] !in s[1..];
      RemoveItemMembers(s[1..], x);
    }
  }

  lemma {:induction false} RemoveItemAt(s: seq<Item>, n: nat)
    requires Distinct(s) && n < |s|
    ensures RemoveItem(s, s[n]) == s[..n] + s[n + 1..]
  {
    if n > 0 {
      assert s[0] != s[n];
      RemoveItemAt(s[1..], n - 1);
      assert s[..n] == [s[0]] + s[1..][..n - 1];
    }
  }

  lemma {:induction false} RemoveItemAbsent(s: seq<Item>, x: Item)
    requires x !in s
    ensures RemoveItem(s, x) == s
  {
    if s != [] {
      RemoveItemAbsent(s[1..], x);
    }
  }

  lemma ListsAppend(l: Lists, own: set<Item>, x: Item)
    requires ListsHold(l, own) && x !in own
    ensures ListsHold(l[x.target := ListAt(l, x.target) + [x]], own + {x})
  {
    var l' := l[x.target := ListAt(l, x.target) + [x]];
    forall t
      ensures ListAt(l', t) == if t == x.target then ListAt(l, t) + [x] else ListAt(l, t)
    {
    }
  }

  lemma ListsRemove(l: Lists, own: set<Item>, x: Item)
    requires ListsHold(l, own)
    ensures ListsHold(l[x.target := RemoveItem(ListAt(l, x.target), x)], own - {x})
  {
    var l' := l[x.target := RemoveItem(ListAt(l, x.target), x)];
    RemoveItemMembers(ListAt(l, x.target), x);
    forall t
      ensures ListAt(l', t) == if t == x.target then RemoveItem(ListAt(l, t), x) else ListAt(l, t)
    {
    }
  }

  lemma GroupsAdd(g: Groups, own: set<Item>, x: Item)
    requires GroupsHold(g, own)
    ensures GroupsHold(g[x.target := GroupAt(g, x.target) + {x}], own + {x})
  {
    var g' := g[x.target := GroupAt(g, x.target) + {x}];
    forall t
      ensures GroupAt(g', t) == if t == x.target then GroupAt(g, t) + {x} else GroupAt(g, t)
    {
    }
  }

  /** `_remove_from_scheduled`: drops the item, and its configuration's entry when that was the last one. */
  function Unschedule(s: Schedule, x: Item): Schedule {
    if x.target in s && x.cfg in s[x.target] then
      var rest := RemoveItem(s[x.target][x.cfg], x);
      if rest == [] then s[x.target := s[x.target] - {x.cfg}]
      else s[x.target := s[x.target][x.cfg := rest]]
    else s
  }

  lemma UnscheduleSlots(s: Schedule, x: Item, t: Target, c: Cfg)
    ensures SlotAt(Unschedule(s, x), t, c) ==
            if t == x.target && c == x.cfg then RemoveItem(SlotAt(s, t, c), x) else SlotAt(s, t, c)
  {
  }

  lemma ScheduleRemove(s: Schedule, own: set<Item>, x: Item)
    requires ScheduleHolds(s, own)
    ensures ScheduleHolds(Unschedule(s, x), own - {x})
  {
    var s' := Unschedule(s, x);
    RemoveItemMembers(SlotAt(s, x.target, x.cfg), x);
    forall t, c
      ensures SlotAt(s', t, c) ==
              if t == x.target && c == x.cfg then RemoveItem(SlotAt(s, t, c), x) else SlotAt(s, t, c)
    {
      UnscheduleSlots(s, x, t, c);
    }
    forall t, c | t in s' && c in s'[t]
      ensures s'[t][c] != []
    {
      assert t in s;
    }
  }

  lemma ScheduleAbsent(s: Schedule, own: set<Item>, x: Item)
    requires ScheduleHolds(s, own) && x !in own
    ensures Unschedule(s, x) == s
  {
    if x.target in s && x.cfg in s[x.target] {
      assert SlotAt(s, x.target, x.cfg) == s[x.target][x.cfg];
      RemoveItemAbsent(s[x.target][x.cfg], x);
      assert s[x.target][x.cfg := s[x.target][x.cfg]] == s[x.target];
    }
  }

  /** Every list of the schedule is in the order of the items. */
  ghost predicate SlotsInOrder(items: seq<Item>, s: Schedule) {
    forall t, c :: InOrder(items, SlotAt(s, t, c))
  }

  lemma UnscheduleInOrder(items: seq<Item>, s: Schedule, x: Item)
    requires SlotsInOrder(items, s)
    ensures SlotsInOrder(items, Unschedule(s, x))
  {
    hide Unschedule, InOrder, SlotAt, RemoveItem;
    forall t, c
      ensures InOrder(items, SlotAt(Unschedule(s, x), t, c))
    {
      UnscheduleSlots(s, x, t, c);
      RemoveInOrder(items, SlotAt(s, t, c), x);
    }
  }

  lemma RemoveInOrder(items: seq<Item>, l: seq<Item>, x: Item)
    requires InOrder(items, l)
    ensures InOrder(items, RemoveItem(l, x))
  {
    hide RemoveItem, InOrder;
    if x in l {
      var n := IndexOf(l, x);
      InOrderDistinct(items, l);
      RemoveItemAt(l, n);
      InOrderWithout(items, l, n);
    } else {
      RemoveItemAbsent(l, x);
    }
  }

  /** All items of a dictionary of lists. */
  ghost function Elements<T(!new)>(l: map<T, seq<Item>>): set<Item> {
    set t, i | t in l && i in l[t] :: i
  }

  /** Distinct lists that share no item. */
  ghost predicate Separate<T(!new)>(l: map<T, seq<Item>>) {
    && (forall t :: t in l ==> Distinct(l[t]))
    && (forall t, u, i :: t in l && u in l && t != u && i in l[t] ==> i !in l[u])
  }

  lemma {:induction false} DistinctSize(s: seq<Item>)
    requires Distinct(s)
    ensures |set i | i in s| == |s|
  {
    if s != [] {
      DistinctSize(s[1..]);
      assert (set i | i in s) == {s[0]} + set i | i in s[1..];
      assert s[0] !in s[1..];
    }
  }

  /** `sum_dict_lists`: the lists' lengths add up to the number of their items. */
  method SumDictLists<T(!new)>(l: map<T, seq<Item>>) returns (n: nat)
    requires Separate(l)
    ensures n == |Elements(l)|
  {
    n := 0;
    var rest := l.Keys;
    ghost var seen: set<Item> := {};
    while rest != {}
      invariant rest <= l.Keys
      invariant n == |seen|
      invariant seen == set t, i | t in l && t !in rest && i in l[t] :: i
      decreases rest
    {
      var t :| t in rest;
      n := n + |l[t]|;
      ghost var here := set i | i in l[t];
      DistinctSize(l[t]);
      assert seen !! here;
      rest := rest - {t};
      seen := seen + here;
    }
    assert seen == Elements(l);
  }
}
