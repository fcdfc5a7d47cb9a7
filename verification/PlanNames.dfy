/** Which tests a testplan lists, and how many it counts for each stage. */
module PlanNames {
  import opened Counting

  // ----- selections -----

  /** `at` are the places, in ascending order, of those of the first `n` elements to be kept. */
  ghost predicate Selects(at: seq<nat>, n: nat, keep: set<nat>) {
    && (forall i, j :: 0 <= i < j < |at| ==> at[i] < at[j]) && (forall i :: 0 <= i < |at| ==> at[i] < n)
    && (forall i :: i in at <==> i < n && i in keep)
  }

  lemma SelectsNone(keep: set<nat>)
    ensures Selects([], 0, keep)
  {
  }

  lemma SelectsMore(at: seq<nat>, n: nat, keep: set<nat>)
    requires Selects(at, n, keep)
    ensures Selects(if n in keep then at + [n] else at, n + 1, keep)
  {
    forall i | 0 <= i < |at|
      ensures at[i] < n
    {
      assert at[i] in at;
    }
  }

  /** The results of the listed tests are shown in the order of the results. */
  lemma {:induction false} MatchingIs(tests: seq<string>, rs: seq<Entry>, all: seq<Entry>) returns (at: seq<nat>)
    requires rs <= all
    ensures Selects(at, |rs|, set i | 0 <= i < |all| && all[i].name in tests)
    ensures |Matching(tests, rs)| == |at| && forall i :: 0 <= i < |at| ==> Matching(tests, rs)[i] == all[at[i]]
    decreases |rs|
  {
    hide Selects, MappedBySome;
    var keep := set i | 0 <= i < |all| && all[i].name in tests;
    if rs == [] {
      at := [];
      SelectsNone(keep);
    } else {
      var n := |rs| - 1;
      var more := MatchingIs(tests, rs[..n], all);
      SelectsMore(more, n, keep);
      assert rs[n] == all[n];
      at := if rs[n].name in tests then more + [n] else more;
    }
  }

  /** The results that no testpoint maps, likewise. */
  lemma {:induction false} UnmappedIs(ps: seq<Point>, rs: seq<Entry>, all: seq<Entry>) returns (at: seq<nat>)
    requires rs <= all
    ensures Selects(at, |rs|, set i | 0 <= i < |all| && !MappedBySome(ps, all[i].name))
    ensures |Unmapped(ps, rs)| == |at| && forall i :: 0 <= i < |at| ==> Unmapped(ps, rs)[i] == all[at[i]]
    decreases |rs|
  {
    hide Selects, MappedBySome;
    var keep := set i | 0 <= i < |all| && !MappedBySome(ps, all[i].name);
    if rs == [] {
      at := [];
      SelectsNone(keep);
    } else {
      var n := |rs| - 1;
      var more := UnmappedIs(ps, rs[..n], all);
      SelectsMore(more, n, keep);
      assert rs[n] == all[n];
      at := if !MappedBySome(ps, rs[n].name) then more + [n] else more;
    }
  }

  /** Each listed test without a result is added, in the order of the list, with no runs. */
  lemma {:induction false} MissingIs(tests: seq<string>, found: seq<Entry>, all: seq<string>) returns (at: seq<nat>)
    requires tests <= all
    ensures Selects(at, |tests|, set i | 0 <= i < |all| && !HasName(found, all[i]))
    ensures |Missing(tests, found)| == |at|
    ensures forall i :: 0 <= i < |at| ==> Missing(tests, found)[i] == Entry(all[at[i]], 0, 0)
    decreases |tests|
  {
    hide Selects, HasName;
    var keep := set i | 0 <= i < |all| && !HasName(found, all[i]);
    if tests == [] {
      at := [];
      SelectsNone(keep);
    } else {
      var n := |tests| - 1;
      var more := MissingIs(tests[..n], found, all);
      SelectsMore(more, n, keep);
      assert tests[n] == all[n];
      at := if !HasName(found, tests[n]) then more + [n] else more;
    }
  }

  // ----- what a testpoint shows -----

  lemma MatchingNames(tests: seq<string>, rs: seq<Entry>, name: string)
    ensures HasName(Matching(tests, rs), name) <==> HasName(rs, name) && name in tests
  {
    var at := MatchingIs(tests, rs, rs);
    hide Matching;
    var m := Matching(tests, rs);
    if i :| 0 <= i < |m| && m[i].name == name {
      assert at[i] in at;
      assert rs[at[i]].name == name;
    }
    if i :| 0 <= i < |rs| && rs[i].name == name && name in tests {
      var n: nat := i;
      assert n in at;
      var k :| 0 <= k < |at| && at[k] == n;
      assert m[k].name == name;
    }
  }

  lemma MissingNames(tests: seq<string>, found: seq<Entry>, name: string)
    ensures Entry(name, 0, 0) in Missing(tests, found) <==> name in tests && !HasName(found, name)
    ensures HasName(Missing(tests, found), name) <==> name in tests && !HasName(found, name)
  {
    var at := MissingIs(tests, found, tests);
    hide Missing, HasName;
    var m := Missing(tests, found);
    HasNameIs(m, name);
    if i :| 0 <= i < |m| && m[i].name == name {
      assert at[i] in at;
    }
    if name in tests && !HasName(found, name) {
      var i :| 0 <= i < |tests| && tests[i] == name;
      var n: nat := i;
      assert n in at;
      var k :| 0 <= k < |at| && at[k] == n;
      assert m[k] == Entry(name, 0, 0);
    }
  }

  lemma HasNameIs(es: seq<Entry>, name: string)
    ensures HasName(es, name) <==> exists i :: 0 <= i < |es| && es[i].name == name
  {
  }

  lemma HasNameAppend(a: seq<Entry>, b: seq<Entry>, name: string)
    ensures HasName(a + b, name) <==> HasName(a, name) || HasName(b, name)
  {
    if i :| 0 <= i < |a| && a[i].name == name {
      assert (a + b)[i].name == name;
    }
    if i :| 0 <= i < |b| && b[i].name == name {
      assert (a + b)[|a| + i].name == name;
    }
    if i :| 0 <= i < |a + b| && (a + b)[i].name == name {
      assert if i < |a| then a[i].name == name else b[i - |a|].name == name;
    }
  }

  /** A testpoint shows exactly the names of its tests, or its own if it has none: the results of
      its tests, and a test without a result as one that has not run. One marked as not mapped
      shows nothing. */
  lemma ListingNames(p: Point, rs: seq<Entry>, name: string)
    ensures HasName(Listing(p, rs), name) <==> Names(p, name)
    ensures p.tests == [] ==> Listing(p, rs) == [Entry(p.name, 0, 0)]
    ensures p.tests == ["N/A"] ==> Listing(p, rs) == []
    ensures Maps(p, name) && !HasName(rs, name) ==> Entry(name, 0, 0) in Listing(p, rs)
    ensures forall r :: r in rs && Maps(p, r.name) ==> r in Listing(p, rs)
  {
    if Maps(p, name) || (p.tests != [] && !NotMapped(p)) {
      var found := Matching(p.tests, rs);
      MatchingNames(p.tests, rs, name);
      MissingNames(p.tests, found, name);
      HasNameAppend(found, Missing(p.tests, found), name);
    } else if p.tests == [] {
      assert Listing(p, rs)[0].name == p.name;
    }
    forall r | r in rs && Maps(p, r.name)
      ensures r in Listing(p, rs)
    {
      var at := MatchingIs(p.tests, rs, rs);
      var i :| 0 <= i < |rs| && rs[i] == r;
      var n: nat := i;
      assert n in at;
      var k :| 0 <= k < |at| && at[k] == n;
      assert Matching(p.tests, rs)[k] == r;
    }
  }

  /** In full: a testpoint with tests shows first the results of its tests, in the order of the
      results, then the tests without a result, in the order of its list. */
  lemma ListingIs(p: Point, rs: seq<Entry>) returns (at: seq<nat>, more: seq<nat>)
    requires p.tests != [] && !NotMapped(p)
    ensures Selects(at, |rs|, set i | 0 <= i < |rs| && rs[i].name in p.tests)
    ensures Selects(more, |p.tests|, set i | 0 <= i < |p.tests| && !HasName(rs, p.tests[i]))
    ensures |Listing(p, rs)| == |at| + |more|
    ensures forall i :: 0 <= i < |at| ==> Listing(p, rs)[i] == rs[at[i]]
    ensures forall i :: 0 <= i < |more| ==> Listing(p, rs)[|at| + i] == Entry(p.tests[more[i]], 0, 0)
  {
    hide Matching, Missing, HasName;
    var found := Matching(p.tests, rs);
    at := MatchingIs(p.tests, rs, rs);
    more := MissingIs(p.tests, found, p.tests);
    forall i | 0 <= i < |p.tests|
      ensures HasName(found, p.tests[i]) <==> HasName(rs, p.tests[i])
    {
      MatchingNames(p.tests, rs, p.tests[i]);
    }
  }

  // ----- the names of a plan -----

  lemma {:induction false} FirstOfStage(es: seq<Entry>, ms: Stage, name: string)
    ensures First(Place(ms, es), name).Some? <==> HasName(es, name)
    ensures First(Place(ms, es), name).Some? ==> First(Place(ms, es), name).value.stage == ms
    decreases |es|
  {
    var f := Place(ms, es);
    if es != [] {
      var init := es[..|es| - 1];
      assert f[..|f| - 1] == Place(ms, init);
      FirstOfStage(init, ms, name);
      HasNameSnoc(es, name);
    }
  }

  /** The first entry of a name comes from the first testpoint that names it. */
  lemma {:induction false} PlacesNames(ps: seq<Point>, rs: seq<Entry>, name: string)
    ensures var (f, k) := (First(Places(ps, rs), name), Home(ps, name));
            if k == |ps| then f.None? else f.Some? && f.value.stage == ps[k].stage
  {
    hide First, Listing, Names, HasName;
    if ps == [] {
      FirstOfNone(name);
    } else {
      ListingNames(ps[0], rs, name);
      FirstOfStage(Listing(ps[0], rs), ps[0].stage, name);
      FirstAppend(Place(ps[0].stage, Listing(ps[0], rs)), Places(ps[1..], rs), name);
      PlacesNames(ps[1..], rs, name);
    }
  }

  lemma UnmappedNames(ps: seq<Point>, rs: seq<Entry>, name: string)
    requires Home(ps, name) == |ps|
    ensures HasName(Unmapped(ps, rs), name) <==> HasName(rs, name)
  {
    var at := UnmappedIs(ps, rs, rs);
    var u := Unmapped(ps, rs);
    assert !MappedBySome(ps, name);
    hide Unmapped, MappedBySome;
    if i :| 0 <= i < |u| && u[i].name == name {
      assert at[i] in at;
      assert rs[at[i]].name == name;
    }
    if i :| 0 <= i < |rs| && rs[i].name == name {
      var n: nat := i;
      assert n in at;
      var k :| 0 <= k < |at| && at[k] == n;
      assert u[k].name == name;
    }
  }

  lemma FlowNames(ps: seq<Point>, rs: seq<Entry>, name: string)
    ensures var (f, k) := (First(Flow(ps, rs), name), Home(ps, name));
            if k < |ps| then f.Some? && f.value.stage == ps[k].stage
            else if HasName(rs, name) then f.Some? && f.value.stage == NA else f.None?
  {
    hide First, Places, Unmapped, HasName, Home;
    PlacesNames(ps, rs, name);
    FirstAppend(Places(ps, rs), Place(NA, Unmapped(ps, rs)), name);
    FirstOfStage(Unmapped(ps, rs), NA, name);
    if Home(ps, name) == |ps| {
      UnmappedNames(ps, rs, name);
    }
  }

  /** The names in a plan: of tests, and of testpoints without tests. */
  ghost function AllNames(ps: seq<Point>): set<string> {
    set p, name | p in ps && name in p.tests + [p.name] :: name
  }

  /** The names whose first testpoint belongs to the stage. */
  ghost function StageNames(ps: seq<Point>, ms: Stage): set<string> {
    set name | name in AllNames(ps) && Home(ps, name) < |ps| && ps[Home(ps, name)].stage == ms
  }

  /** The names of results that no testpoint names. */
  ghost function StrayNames(ps: seq<Point>, rs: seq<Entry>): set<string> {
    set r | r in rs && Home(ps, r.name) == |ps| :: r.name
  }

  lemma StageNamesAre(ps: seq<Point>, ms: Stage, name: string)
    ensures name in StageNames(ps, ms) <==> Home(ps, name) < |ps| && ps[Home(ps, name)].stage == ms
  {
    var k := Home(ps, name);
    if k < |ps| {
      assert ps[k] in ps && Names(ps[k], name);
      assert name in ps[k].tests + [ps[k].name];
    }
  }

  lemma StrayNamesAre(ps: seq<Point>, rs: seq<Entry>, name: string)
    ensures name in StrayNames(ps, rs) <==> Home(ps, name) == |ps| && HasName(rs, name)
  {
    if i :| 0 <= i < |rs| && rs[i].name == name {
      assert rs[i] in rs;
    }
  }

  /** The total of a stage is the number of names whose first testpoint, of those that list the name
      or have no tests and are called so, belongs to the stage, whatever the results are. Results
      that no testpoint names count where there is no stage. */
  lemma StageTotal(ps: seq<Point>, rs: seq<Entry>, ms: Stage)
    ensures CountPlan(ps, rs).progress[ms].total ==
            |StageNames(ps, ms)| + if ms == NA then |StrayNames(ps, rs)| else 0
  {
    hide Flow, CountPlan, NamesIn, Home, First, StageNames, StrayNames, HasName;
    ProgressTotal(ps, rs, ms);
    NamesInMembers(Flow(ps, rs), ms);
    var names := StageNames(ps, ms) + if ms == NA then StrayNames(ps, rs) else {};
    forall name
      ensures name in NamesIn(Flow(ps, rs), ms) <==> name in names
      ensures !(name in StageNames(ps, ms) && name in StrayNames(ps, rs))
    {
      FlowNames(ps, rs, name);
      StageNamesAre(ps, ms, name);
      StrayNamesAre(ps, rs, name);
    }
    assert NamesIn(Flow(ps, rs), ms) == names;
    assert StageNames(ps, ms) !! StrayNames(ps, rs);
  }
}
