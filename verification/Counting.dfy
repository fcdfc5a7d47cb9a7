/** How the results of tests are counted towards the stages of a testplan. */
module Counting {
  import opened Wrappers

  /** Not assigned to a stage, or one of the verification stages. */
  datatype Stage = NA | V1 | V2 | V2S | V3

  /** A test's name, how many of its runs passed, and how many there were. */
  datatype Entry = Entry(name: string, passing: nat, total: nat)

  /** What a testpoint says: which tests, by name, verify a feature. */
  datatype Point = Point(name: string, stage: Stage, tests: seq<string>)

  // ----- Testpoint.map_test_results -----

  predicate NotMapped(p: Point) {
    p.tests == ["N/A"]
  }

  /** The results whose tests the testpoint lists. */
  function Matching(tests: seq<string>, rs: seq<Entry>): seq<Entry> {
    if rs == [] then []
    else Matching(tests, rs[..|rs| - 1]) + if rs[|rs| - 1].name in tests then [rs[|rs| - 1]] else []
  }

  predicate HasName(es: seq<Entry>, name: string) {
    exists i :: 0 <= i < |es| && es[i].name == name
  }

  /** The listed tests that are not found, as entries that have not run. */
  function Missing(tests: seq<string>, found: seq<Entry>): seq<Entry> {
    if tests == [] then []
    else
      Missing(tests[..|tests| - 1], found) +
      if HasName(found, tests[|tests| - 1]) then [] else [Entry(tests[|tests| - 1], 0, 0)]
  }

  /** The entries mapped to a testpoint; one without tests stands for itself. */
  function Listing(p: Point, rs: seq<Entry>): seq<Entry> {
    if p.tests == [] then [Entry(p.name, 0, 0)]
    else if NotMapped(p) then []
    else Matching(p.tests, rs) + Missing(p.tests, Matching(p.tests, rs))
  }

  /** The testpoint maps results of that name. */
  predicate Maps(p: Point, name: string) {
    p.tests != [] && !NotMapped(p) && name in p.tests
  }

  predicate MappedBySome(ps: seq<Point>, name: string) {
    exists i :: 0 <= i < |ps| && Maps(ps[i], name)
  }

  /** The results that no testpoint maps. */
  function Unmapped(ps: seq<Point>, rs: seq<Entry>): seq<Entry> {
    if rs == [] then []
    else Unmapped(ps, rs[..|rs| - 1]) + if MappedBySome(ps, rs[|rs| - 1].name) then [] else [rs[|rs| - 1]]
  }

  // ----- counting -----

  datatype Progress = Progress(total: nat, written: nat, passing: nat)

  /** Names counted so far, the progress of the stages, and the sums over their results. */
  datatype Tally = Tally(seen: set<string>, progress: map<Stage, Progress>, passing: map<Stage, nat>,
      total: map<Stage, nat>)

  predicate FullTally(t: Tally) {
    forall ms: Stage :: ms in t.progress && ms in t.passing && ms in t.total
  }

  function AddProgress(p: Progress, e: Entry): Progress {
    Progress(p.total + 1,
             if e.total != 0 then p.written + 1 else p.written,
             if e.total != 0 && e.passing == e.total then p.passing + 1 else p.passing)
  }

  function Add(sums: map<Stage, nat>, ms: Stage, n: nat): map<Stage, nat>
    requires ms in sums
  {
    sums[ms := sums[ms] + n]
  }

  /** Sums per stage; those of no stage are the grand total, and get what any stage gets. */
  function AddAt(sums: map<Stage, nat>, ms: Stage, n: nat): (r: map<Stage, nat>)
    requires forall s: Stage :: s in sums
    ensures forall s: Stage :: s in r && r[s] == if s == ms || s == NA then sums[s] + n else sums[s]
  {
    if ms == NA then Add(sums, ms, n) else Add(Add(sums, ms, n), NA, n)
  }

  /** One entry of a testpoint of stage `ms`; only the first entry of a name counts. */
  function CountOne(t: Tally, ms: Stage, e: Entry): (r: Tally)
    requires FullTally(t)
    ensures FullTally(r)
  {
    if e.name in t.seen then t
    else Tally(t.seen + {e.name}, t.progress[ms := AddProgress(t.progress[ms], e)],
               AddAt(t.passing, ms, e.passing), AddAt(t.total, ms, e.total))
  }

  function Count(t: Tally, ms: Stage, es: seq<Entry>): (r: Tally)
    requires FullTally(t)
    ensures FullTally(r)
  {
    if es == [] then t else CountOne(Count(t, ms, es[..|es| - 1]), ms, es[|es| - 1])
  }

  function CountPoints(t: Tally, ps: seq<Point>, rs: seq<Entry>): (r: Tally)
    requires FullTally(t)
    ensures FullTally(r)
  {
    if ps == [] then t
    else Count(CountPoints(t, ps[..|ps| - 1], rs), ps[|ps| - 1].stage, Listing(ps[|ps| - 1], rs))
  }

  const STAGES: set<Stage> := {NA, V1, V2, V2S, V3}

  lemma AllStages(ms: Stage)
    ensures ms in STAGES
  {
  }

  function Start(): (t: Tally)
    ensures FullTally(t) && t.seen == {}
    ensures forall ms: Stage :: t.progress[ms] == Progress(0, 0, 0) && t.passing[ms] == 0 && t.total[ms] == 0
  {
    assert forall ms: Stage :: ms in STAGES by {
      forall ms: Stage ensures ms in STAGES { AllStages(ms); }
    }
    Tally({}, map ms | ms in STAGES :: Progress(0, 0, 0), map ms | ms in STAGES :: 0, map ms | ms in STAGES :: 0)
  }

  /** The whole count: testpoint by testpoint, then the unmapped results. */
  function CountPlan(ps: seq<Point>, rs: seq<Entry>): (t: Tally)
    ensures FullTally(t)
  {
    Count(CountPoints(Start(), ps, rs), NA, Unmapped(ps, rs))
  }

  // ----- the count as a sum over the entries, in order -----

  /** An entry and the stage of the testpoint it is mapped to. */
  datatype Placed = Placed(stage: Stage, entry: Entry)

  function Place(ms: Stage, es: seq<Entry>): (f: seq<Placed>)
    ensures |f| == |es| && forall i :: 0 <= i < |f| ==> f[i] == Placed(ms, es[i])
  {
    seq(|es|, i requires 0 <= i < |es| => Placed(ms, es[i]))
  }

  function Places(ps: seq<Point>, rs: seq<Entry>): seq<Placed> {
    if ps == [] then [] else Place(ps[0].stage, Listing(ps[0], rs)) + Places(ps[1..], rs)
  }

  function Flow(ps: seq<Point>, rs: seq<Entry>): seq<Placed> {
    Places(ps, rs) + Place(NA, Unmapped(ps, rs))
  }

  function CountFlow(t: Tally, f: seq<Placed>): (r: Tally)
    requires FullTally(t)
    ensures FullTally(r)
  {
    if f == [] then t
    else CountOne(CountFlow(t, f[..|f| - 1]), f[|f| - 1].stage, f[|f| - 1].entry)
  }

  lemma {:induction false} CountFlowAppend(t: Tally, a: seq<Placed>, b: seq<Placed>)
    requires FullTally(t)
    ensures CountFlow(t, a + b) == CountFlow(CountFlow(t, a), b)
    decreases |b|
  {
    hide CountOne, FullTally;
    if b == [] {
      assert a + b == a;
    } else {
      assert (a + b)[..|a + b| - 1] == a + b[..|b| - 1];
      CountFlowAppend(t, a, b[..|b| - 1]);
    }
  }

  lemma {:induction false} CountIsFlow(t: Tally, ms: Stage, es: seq<Entry>)
    requires FullTally(t)
    ensures Count(t, ms, es) == CountFlow(t, Place(ms, es))
    decreases |es|
  {
    hide CountOne, FullTally;
    if es != [] {
      CountIsFlow(t, ms, es[..|es| - 1]);
      assert Place(ms, es)[..|es| - 1] == Place(ms, es[..|es| - 1]);
    }
  }

  lemma {:induction false} PlacesSnoc(ps: seq<Point>, p: Point, rs: seq<Entry>)
    ensures Places(ps + [p], rs) == Places(ps, rs) + Place(p.stage, Listing(p, rs))
  {
    hide Listing;
    if ps == [] {
      assert ps + [p] == [p];
      assert [p][1..] == [];
      assert Places([p], rs) == Place(p.stage, Listing(p, rs)) + [];
    } else {
      assert (ps + [p])[1..] == ps[1..] + [p];
      PlacesSnoc(ps[1..], p, rs);
      var (a, b, c) := (Place(ps[0].stage, Listing(ps[0], rs)), Places(ps[1..], rs), Place(p.stage, Listing(p, rs)));
      assert a + (b + c) == a + b + c;
    }
  }

  lemma {:induction false} CountPointsIsFlow(t: Tally, ps: seq<Point>, rs: seq<Entry>)
    requires FullTally(t)
    ensures CountPoints(t, ps, rs) == CountFlow(t, Places(ps, rs))
    decreases |ps|
  {
    hide Count, CountFlow, FullTally, Listing;
    if ps == [] {
      NothingCounted(t);
    } else {
      var init, last := ps[..|ps| - 1], ps[|ps| - 1];
      CountPointsIsFlow(t, init, rs);
      assert ps == init + [last];
      PlacesSnoc(init, last, rs);
      CountIsFlow(CountFlow(t, Places(init, rs)), last.stage, Listing(last, rs));
      CountFlowAppend(t, Places(init, rs), Place(last.stage, Listing(last, rs)));
    }
  }

  lemma NothingCounted(t: Tally)
    requires FullTally(t)
    ensures CountFlow(t, []) == t
  {
  }

  lemma CountPlanIsFlow(ps: seq<Point>, rs: seq<Entry>)
    ensures CountPlan(ps, rs) == CountFlow(Start(), Flow(ps, rs))
  {
    hide Count, CountFlow, CountPoints, FullTally, Places, Unmapped;
    CountPointsIsFlow(Start(), ps, rs);
    CountIsFlow(CountPoints(Start(), ps, rs), NA, Unmapped(ps, rs));
    CountFlowAppend(Start(), Places(ps, rs), Place(NA, Unmapped(ps, rs)));
  }

  /** The first entry of that name. */
  function First(f: seq<Placed>, name: string): Option<Placed> {
    if f == [] then None
    else
      var before := First(f[..|f| - 1], name);
      if before.Some? then before
      else if f[|f| - 1].entry.name == name then Some(f[|f| - 1]) else None
  }

  lemma {:induction false} FirstAppend(a: seq<Placed>, b: seq<Placed>, name: string)
    ensures First(a + b, name) == if First(a, name).Some? then First(a, name) else First(b, name)
    decreases |b|
  {
    if b == [] {
      assert a + b == a;
    } else {
      assert (a + b)[..|a + b| - 1] == a + b[..|b| - 1];
      FirstAppend(a, b[..|b| - 1], name);
    }
  }

  /** What a placed entry adds to the sum of a stage; `NA` stands for the grand total. */
  function Adds(p: Placed, ms: Stage, g: Entry -> nat): nat {
    if ms == NA || p.stage == ms then g(p.entry) else 0
  }

  function Passes(e: Entry): nat {
    e.passing
  }

  function Runs(e: Entry): nat {
    e.total
  }

  /** 1 for a test that was written, that is, has run. */
  function Written(e: Entry): nat {
    if e.total != 0 then 1 else 0
  }

  /** 1 for a test that has run and passed every time. */
  function AllPass(e: Entry): nat {
    if e.total != 0 && e.passing == e.total then 1 else 0
  }

  /** The quantities that are summed; a test that has not run has none of them. */
  ghost predicate Quantity(g: Entry -> nat) {
    g == Passes || g == Runs || g == Written || g == AllPass
  }

  /** The sum over the entries that come first of their names. */
  function SumFirsts(f: seq<Placed>, ms: Stage, g: Entry -> nat): nat {
    if f == [] then 0
    else
      var last := f[|f| - 1];
      SumFirsts(f[..|f| - 1], ms, g) + if First(f[..|f| - 1], last.entry.name).None? then Adds(last, ms, g) else 0
  }

  lemma {:induction false} TallyIsSum(f: seq<Placed>, ms: Stage)
    ensures var t := CountFlow(Start(), f);
            && t.passing[ms] == SumFirsts(f, ms, Passes)
            && t.total[ms] == SumFirsts(f, ms, Runs)
            && (forall name :: name in t.seen <==> First(f, name).Some?)
    decreases |f|
  {
    hide AddProgress, AddAt, Add;
    if f != [] {
      TallyIsSum(f[..|f| - 1], ms);
    }
  }

  // ----- the count as a sum over the results -----

  ghost predicate DistinctNames(rs: seq<Entry>) {
    forall i, j :: 0 <= i < j < |rs| ==> rs[i].name != rs[j].name
  }

  /** What the first entry of a name adds to the sum of a stage. */
  function Worth(f: seq<Placed>, name: string, ms: Stage, g: Entry -> nat): nat {
    match First(f, name)
    case None => 0
    case Some(p) => Adds(p, ms, g)
  }

  function SumWorth(rs: seq<Entry>, f: seq<Placed>, ms: Stage, g: Entry -> nat): nat {
    if rs == [] then 0 else SumWorth(rs[..|rs| - 1], f, ms, g) + Worth(f, rs[|rs| - 1].name, ms, g)
  }

  /** One more entry changes the worth of its own name only, and only if it is the first. */
  lemma {:induction false} SumWorthSnoc(rs: seq<Entry>, f: seq<Placed>, p: Placed, ms: Stage, g: Entry -> nat)
    requires DistinctNames(rs)
    ensures SumWorth(rs, f + [p], ms, g) == SumWorth(rs, f, ms, g) +
            if HasName(rs, p.entry.name) && First(f, p.entry.name).None? then Adds(p, ms, g) else 0
    decreases |rs|
  {
    hide Adds;
    if rs != [] {
      var init, last := rs[..|rs| - 1], rs[|rs| - 1];
      SumWorthSnoc(init, f, p, ms, g);
      FirstSnoc(f, p, last.name);
      hide First;
      HasNameSnoc(rs, p.entry.name);
      if last.name == p.entry.name {
        NotBefore(rs);
      }
    }
  }

  lemma FirstSnoc(f: seq<Placed>, p: Placed, name: string)
    ensures First(f + [p], name) == if First(f, name).Some? then First(f, name)
                                    else if p.entry.name == name then Some(p) else None
  {
    assert (f + [p])[..|f|] == f;
  }

  lemma HasNameSnoc(rs: seq<Entry>, name: string)
    requires rs != []
    ensures HasName(rs, name) <==> HasName(rs[..|rs| - 1], name) || rs[|rs| - 1].name == name
  {
    var init := rs[..|rs| - 1];
    assert forall i :: 0 <= i < |init| ==> init[i] == rs[i];
  }

  lemma NotBefore(rs: seq<Entry>)
    requires DistinctNames(rs) && rs != []
    ensures !HasName(rs[..|rs| - 1], rs[|rs| - 1].name)
  {
  }

  /** Entries that are not results count for nothing. */
  ghost predicate OthersAreZero(f: seq<Placed>, rs: seq<Entry>) {
    forall i :: 0 <= i < |f| ==> HasName(rs, f[i].entry.name) || (f[i].entry.passing == 0 && f[i].entry.total == 0)
  }

  lemma {:induction false} SumByResults(f: seq<Placed>, rs: seq<Entry>, ms: Stage, g: Entry -> nat)
    requires DistinctNames(rs) && OthersAreZero(f, rs) && Quantity(g)
    ensures SumFirsts(f, ms, g) == SumWorth(rs, f, ms, g)
    decreases |f|
  {
    hide HasName, DistinctNames;
    if f == [] {
      NoWorth(rs, ms, g);
    } else {
      var init, last := f[..|f| - 1], f[|f| - 1];
      SumByResults(init, rs, ms, g);
      assert f == init + [last];
      SumWorthSnoc(rs, init, last, ms, g);
    }
  }

  lemma {:induction false} NoWorth(rs: seq<Entry>, ms: Stage, g: Entry -> nat)
    ensures SumWorth(rs, [], ms, g) == 0
    decreases |rs|
  {
    if rs != [] {
      NoWorth(rs[..|rs| - 1], ms, g);
    }
  }

  // ----- where a result is counted -----

  /** The testpoint lists tests of the name, or has no tests and is called so. */
  predicate Names(p: Point, name: string) {
    Maps(p, name) || (p.tests == [] && p.name == name)
  }

  /** The first testpoint that does. */
  function Home(ps: seq<Point>, name: string): (k: nat)
    ensures k <= |ps| && (k < |ps| ==> Names(ps[k], name))
    ensures forall i :: 0 <= i < k ==> !Names(ps[i], name)
  {
    if ps == [] || Names(ps[0], name) then 0 else 1 + Home(ps[1..], name)
  }

  /** A testpoint without tests takes the name first, with no runs: the result is not counted. */
  predicate Lost(ps: seq<Point>, name: string) {
    var k := Home(ps, name);
    k < |ps| && ps[k].tests == []
  }

  /** The stage a result is counted for; results no testpoint maps have none. */
  function HomeStage(ps: seq<Point>, name: string): Stage {
    var k := Home(ps, name);
    if k < |ps| then ps[k].stage else NA
  }

  lemma {:induction false} MatchingFirst(tests: seq<string>, rs: seq<Entry>, ms: Stage, r: Entry)
    requires DistinctNames(rs)
    ensures forall i :: 0 <= i < |Matching(tests, rs)| ==>
        Matching(tests, rs)[i] in rs && Matching(tests, rs)[i].name in tests
    ensures r in rs && r.name in tests ==> First(Place(ms, Matching(tests, rs)), r.name) == Some(Placed(ms, r))
    ensures r.name !in tests ==> First(Place(ms, Matching(tests, rs)), r.name).None?
    decreases |rs|
  {
    if rs != [] {
      var init, last := rs[..|rs| - 1], rs[|rs| - 1];
      var m := Matching(tests, init);
      MatchingFirst(tests, init, ms, r);
      assert rs == init + [last];
      if last.name in tests {
        assert Place(ms, m + [last]) == Place(ms, m) + [Placed(ms, last)];
        FirstSnoc(Place(ms, m), Placed(ms, last), r.name);
        if r == last {
          NotIn(init, m, ms, r.name);
        }
      } else {
        assert m + [] == m;
      }
    }
  }

  lemma {:induction false} FirstIsThere(f: seq<Placed>, name: string) returns (i: nat)
    requires First(f, name).Some?
    ensures i < |f| && First(f, name) == Some(f[i]) && f[i].entry.name == name
    decreases |f|
  {
    if First(f[..|f| - 1], name).Some? {
      i := FirstIsThere(f[..|f| - 1], name);
    } else {
      i := |f| - 1;
    }
  }

  lemma NotIn(rs: seq<Entry>, m: seq<Entry>, ms: Stage, name: string)
    requires forall i :: 0 <= i < |m| ==> m[i] in rs
    requires forall i :: 0 <= i < |rs| ==> rs[i].name != name
    ensures First(Place(ms, m), name).None?
  {
    forall i | 0 <= i < |m|
      ensures m[i].name != name
    {
      assert m[i] in rs;
    }
    if First(Place(ms, m), name).Some? {
      var i := FirstIsThere(Place(ms, m), name);
    }
  }

  lemma {:induction false} MissingAre(tests: seq<string>, found: seq<Entry>)
    ensures forall i :: 0 <= i < |Missing(tests, found)| ==>
              var e := Missing(tests, found)[i];
              e.name in tests && !HasName(found, e.name) && e.passing == 0 && e.total == 0
    decreases |tests|
  {
    hide HasName;
    if tests != [] {
      MissingAre(tests[..|tests| - 1], found);
      assert forall t :: t in tests[..|tests| - 1] ==> t in tests;
    }
  }

  lemma NotNamed(es: seq<Entry>, ms: Stage, name: string)
    requires forall i :: 0 <= i < |es| ==> es[i].name != name
    ensures First(Place(ms, es), name).None?
  {
    if First(Place(ms, es), name).Some? {
      var i := FirstIsThere(Place(ms, es), name);
    }
  }

  lemma PlaceAppend(ms: Stage, a: seq<Entry>, b: seq<Entry>)
    ensures Place(ms, a + b) == Place(ms, a) + Place(ms, b)
  {
  }

  /** The first entry of a result's name in a testpoint's listing. */
  lemma ListingFirst(p: Point, rs: seq<Entry>, r: Entry)
    requires DistinctNames(rs) && r in rs
    ensures First(Place(p.stage, Listing(p, rs)), r.name) ==
            if p.tests == [] && p.name == r.name then Some(Placed(p.stage, Entry(r.name, 0, 0)))
            else if Maps(p, r.name) then Some(Placed(p.stage, r)) else None
  {
    hide First, Matching, Missing, DistinctNames;
    if p.tests == [] {
      FirstSnoc([], Placed(p.stage, Entry(p.name, 0, 0)), r.name);
      assert Place(p.stage, Listing(p, rs)) == [] + [Placed(p.stage, Entry(p.name, 0, 0))];
      NotNamed([], p.stage, r.name);
      assert Place(p.stage, []) == [];
    } else if NotMapped(p) {
      NotNamed([], p.stage, r.name);
    } else {
      var found := Matching(p.tests, rs);
      var missing := Missing(p.tests, found);
      MatchingFirst(p.tests, rs, p.stage, r);
      MissingAre(p.tests, found);
      PlaceAppend(p.stage, found, missing);
      FirstAppend(Place(p.stage, found), Place(p.stage, missing), r.name);
      if r.name !in p.tests {
        NotNamed(missing, p.stage, r.name);
      }
    }
  }

  lemma {:induction false} PlacesFirst(ps: seq<Point>, rs: seq<Entry>, r: Entry)
    requires DistinctNames(rs) && r in rs
    ensures var k := Home(ps, r.name);
            First(Places(ps, rs), r.name) ==
            if k == |ps| then None else Some(Placed(ps[k].stage, if ps[k].tests == [] then Entry(r.name, 0, 0) else r))
  {
    hide First, Listing, DistinctNames;
    if ps == [] {
      assert First([], r.name).None? by { FirstOfNone(r.name); }
    } else {
      ListingFirst(ps[0], rs, r);
      PlacesFirst(ps[1..], rs, r);
      FirstAppend(Place(ps[0].stage, Listing(ps[0], rs)), Places(ps[1..], rs), r.name);
    }
  }

  lemma FirstOfNone(name: string)
    ensures First([], name).None?
  {
  }

  lemma {:induction false} UnmappedFirst(ps: seq<Point>, rs: seq<Entry>, r: Entry)
    requires DistinctNames(rs)
    ensures forall i :: 0 <= i < |Unmapped(ps, rs)| ==> Unmapped(ps, rs)[i] in rs
    ensures r in rs && !MappedBySome(ps, r.name) ==> First(Place(NA, Unmapped(ps, rs)), r.name) == Some(Placed(NA, r))
    decreases |rs|
  {
    hide MappedBySome;
    if rs != [] {
      var init, last := rs[..|rs| - 1], rs[|rs| - 1];
      var u := Unmapped(ps, init);
      UnmappedFirst(ps, init, r);
      assert rs == init + [last];
      if !MappedBySome(ps, last.name) {
        assert Place(NA, u + [last]) == Place(NA, u) + [Placed(NA, last)];
        FirstSnoc(Place(NA, u), Placed(NA, last), r.name);
        if r == last {
          NotIn(init, u, NA, r.name);
        }
      } else {
        assert u + [] == u;
      }
    }
  }

  /** The first entry of a result's name decides how it is counted. */
  lemma FlowFirst(ps: seq<Point>, rs: seq<Entry>, r: Entry)
    requires DistinctNames(rs) && r in rs
    ensures First(Flow(ps, rs), r.name) ==
            Some(Placed(HomeStage(ps, r.name), if Lost(ps, r.name) then Entry(r.name, 0, 0) else r))
  {
    hide First, Places, Unmapped, DistinctNames;
    PlacesFirst(ps, rs, r);
    UnmappedFirst(ps, rs, r);
    FirstAppend(Places(ps, rs), Place(NA, Unmapped(ps, rs)), r.name);
  }

  lemma ListingZero(p: Point, rs: seq<Entry>)
    requires DistinctNames(rs)
    ensures OthersAreZero(Place(p.stage, Listing(p, rs)), rs)
  {
    hide Matching, Missing, DistinctNames;
    if p.tests != [] && !NotMapped(p) {
      var found := Matching(p.tests, rs);
      MissingAre(p.tests, found);
      MatchingFirst(p.tests, rs, p.stage, Entry("", 0, 0));
      forall i | 0 <= i < |found|
        ensures HasName(rs, found[i].name)
      {
        assert found[i] in rs;
      }
    }
  }

  lemma {:induction false} PlacesZero(ps: seq<Point>, rs: seq<Entry>)
    requires DistinctNames(rs)
    ensures OthersAreZero(Places(ps, rs), rs)
  {
    hide Listing, DistinctNames, HasName;
    if ps != [] {
      ListingZero(ps[0], rs);
      PlacesZero(ps[1..], rs);
    }
  }

  lemma FlowZero(ps: seq<Point>, rs: seq<Entry>)
    requires DistinctNames(rs)
    ensures OthersAreZero(Flow(ps, rs), rs)
  {
    hide Places, Unmapped, DistinctNames;
    PlacesZero(ps, rs);
    var u := Unmapped(ps, rs);
    UnmappedFirst(ps, rs, Entry("", 0, 0));
    forall i | 0 <= i < |u|
      ensures HasName(rs, u[i].name)
    {
      assert u[i] in rs;
    }
  }

  /** The sum over the results that count for a stage; `NA` stands for all of them. */
  function SumCounted(ps: seq<Point>, rs: seq<Entry>, ms: Stage, g: Entry -> nat): nat {
    if rs == [] then 0
    else
      var last := rs[|rs| - 1];
      SumCounted(ps, rs[..|rs| - 1], ms, g) +
      if !Lost(ps, last.name) && (ms == NA || HomeStage(ps, last.name) == ms) then g(last) else 0
  }

  lemma {:induction false} WorthIsCounted(ps: seq<Point>, all: seq<Entry>, rs: seq<Entry>, ms: Stage, g: Entry -> nat)
    requires DistinctNames(all) && rs <= all && Quantity(g)
    ensures SumWorth(rs, Flow(ps, all), ms, g) == SumCounted(ps, rs, ms, g)
    decreases |rs|
  {
    hide Flow, First, Lost, HomeStage, DistinctNames;
    if rs != [] {
      var last := rs[|rs| - 1];
      assert last == all[|rs| - 1];
      WorthIsCounted(ps, all, rs[..|rs| - 1], ms, g);
      FlowFirst(ps, all, last);
    }
  }

  /** Every result is counted once, for the stage of the first testpoint that maps it, or as
      unmapped; but not at all if a testpoint without tests has its name first. The grand total
      is the sum over all results that are counted. */
  lemma CountedOnce(ps: seq<Point>, rs: seq<Entry>, ms: Stage)
    requires DistinctNames(rs)
    ensures CountPlan(ps, rs).passing[ms] == SumCounted(ps, rs, ms, Passes)
    ensures CountPlan(ps, rs).total[ms] == SumCounted(ps, rs, ms, Runs)
  {
    hide Flow, CountPlan, DistinctNames;
    CountPlanIsFlow(ps, rs);
    TallyIsSum(Flow(ps, rs), ms);
    FlowZero(ps, rs);
    SumByResults(Flow(ps, rs), rs, ms, Passes);
    SumByResults(Flow(ps, rs), rs, ms, Runs);
    WorthIsCounted(ps, rs, rs, ms, Passes);
    WorthIsCounted(ps, rs, rs, ms, Runs);
  }

  function SumAll(rs: seq<Entry>, g: Entry -> nat): nat {
    if rs == [] then 0 else SumAll(rs[..|rs| - 1], g) + g(rs[|rs| - 1])
  }

  lemma {:induction false} CountedAtMost(ps: seq<Point>, rs: seq<Entry>, g: Entry -> nat)
    ensures SumCounted(ps, rs, NA, g) <= SumAll(rs, g)
    ensures SumCounted(ps, rs, NA, g) == SumAll(rs, g) <==>
            forall i :: 0 <= i < |rs| && Lost(ps, rs[i].name) ==> g(rs[i]) == 0
    decreases |rs|
  {
    hide Lost, HomeStage;
    if rs != [] {
      CountedAtMost(ps, rs[..|rs| - 1], g);
    }
  }

  /** The grand total is that of all results exactly when no result with runs has the name of a
      testpoint without tests that comes before every testpoint that maps it. */
  lemma Conservation(ps: seq<Point>, rs: seq<Entry>)
    requires DistinctNames(rs)
    requires forall i :: 0 <= i < |rs| ==> rs[i].passing <= rs[i].total
    ensures var t := CountPlan(ps, rs);
            t.passing[NA] == SumAll(rs, Passes) && t.total[NA] == SumAll(rs, Runs) <==>
            forall i :: 0 <= i < |rs| && rs[i].total > 0 ==> !Lost(ps, rs[i].name)
  {
    hide CountPlan, Lost, DistinctNames, SumCounted, SumAll;
    CountedOnce(ps, rs, NA);
    CountedAtMost(ps, rs, Passes);
    CountedAtMost(ps, rs, Runs);
  }

  /** In particular when no testpoint without tests is called like a result. */
  lemma NoneLost(ps: seq<Point>, rs: seq<Entry>)
    requires DistinctNames(rs)
    requires forall k, i :: 0 <= k < |ps| && ps[k].tests == [] && 0 <= i < |rs| ==> ps[k].name != rs[i].name
    ensures CountPlan(ps, rs).passing[NA] == SumAll(rs, Passes) && CountPlan(ps, rs).total[NA] == SumAll(rs, Runs)
  {
    hide CountPlan, DistinctNames, SumCounted, SumAll;
    CountedOnce(ps, rs, NA);
    CountedAtMost(ps, rs, Passes);
    CountedAtMost(ps, rs, Runs);
  }

  /** A testpoint without tests that is called like a result makes the grand total too small. */
  lemma ResultLost()
    ensures var (ps, rs) := ([Point("smoke", V1, [])], [Entry("smoke", 5, 5)]);
            CountPlan(ps, rs).total[NA] == 0 && SumAll(rs, Runs) == 5
  {
    var (ps, rs) := ([Point("smoke", V1, [])], [Entry("smoke", 5, 5)]);
    assert Lost(ps, "smoke") && rs[..0] == [];
    CountedOnce(ps, rs, NA);
  }

  // ----- progress -----

  /** In every stage as many tests pass as are written at most, and as many are written as there
      are at most. */
  ghost predicate ProgressOrdered(t: Tally)
    requires FullTally(t)
  {
    forall ms: Stage :: t.progress[ms].passing <= t.progress[ms].written <= t.progress[ms].total
  }

  lemma {:induction false} ProgressStaysOrdered(f: seq<Placed>)
    ensures ProgressOrdered(CountFlow(Start(), f))
    decreases |f|
  {
    if f != [] {
      ProgressStaysOrdered(f[..|f| - 1]);
    }
  }

  lemma PlanProgressOrdered(ps: seq<Point>, rs: seq<Entry>)
    ensures ProgressOrdered(CountPlan(ps, rs))
  {
    hide CountPlan, Flow, CountFlow;
    CountPlanIsFlow(ps, rs);
    ProgressStaysOrdered(Flow(ps, rs));
  }

  lemma {:induction false} ProgressIsSum(f: seq<Placed>, ms: Stage)
    requires ms != NA
    ensures var t := CountFlow(Start(), f);
            && t.progress[ms].written == SumFirsts(f, ms, Written)
            && t.progress[ms].passing == SumFirsts(f, ms, AllPass)
    decreases |f|
  {
    if f != [] {
      ProgressIsSum(f[..|f| - 1], ms);
      TallyIsSum(f[..|f| - 1], ms);
    }
  }

  /** The names whose first entry lies in a stage. */
  ghost function NamesIn(f: seq<Placed>, ms: Stage): set<string> {
    set p | p in f && First(f, p.entry.name).Some? && First(f, p.entry.name).value.stage == ms :: p.entry.name
  }

  lemma NamesInMembers(f: seq<Placed>, ms: Stage)
    ensures forall name :: name in NamesIn(f, ms) <==> First(f, name).Some? && First(f, name).value.stage == ms
  {
    hide First;
    forall name | First(f, name).Some?
      ensures exists p :: p in f && p.entry.name == name
    {
      var i := FirstIsThere(f, name);
      assert f[i] in f;
    }
  }

  lemma {:induction false} TotalIsNames(f: seq<Placed>, ms: Stage)
    ensures CountFlow(Start(), f).progress[ms].total == |NamesIn(f, ms)|
    decreases |f|
  {
    if f != [] {
      var init, last := f[..|f| - 1], f[|f| - 1];
      assert f == init + [last];
      TotalIsNames(init, ms);
      TallyIsSum(init, ms);
      NamesInMembers(init, ms);
      NamesInMembers(f, ms);
      forall name
        ensures First(f, name) == if First(init, name).Some? then First(init, name)
                                  else if last.entry.name == name then Some(last) else None
      {
        FirstSnoc(init, last, name);
      }
      hide First, NamesIn, CountFlow, Start;
      NamesGrow(init, last, f, ms);
      CountFlowStep(init, last);
      assert (init + [last])[..|init|] == init;
    }
  }

  lemma NamesGrow(init: seq<Placed>, last: Placed, f: seq<Placed>, ms: Stage)
    requires forall name :: name in NamesIn(init, ms) <==>
                            First(init, name).Some? && First(init, name).value.stage == ms
    requires forall name :: name in NamesIn(f, ms) <==> First(f, name).Some? && First(f, name).value.stage == ms
    requires forall name :: First(f, name) == if First(init, name).Some? then First(init, name)
                                              else if last.entry.name == name then Some(last) else None
    ensures |NamesIn(f, ms)| == |NamesIn(init, ms)| +
                                if First(init, last.entry.name).None? && last.stage == ms then 1 else 0
  {
    hide First, NamesIn;
    var name := last.entry.name;
    if First(init, name).None? && last.stage == ms {
      assert NamesIn(f, ms) == NamesIn(init, ms) + {name};
    } else {
      assert NamesIn(f, ms) == NamesIn(init, ms);
    }
  }

  lemma CountFlowStep(init: seq<Placed>, last: Placed)
    ensures CountFlow(Start(), init + [last]) == CountOne(CountFlow(Start(), init), last.stage, last.entry)
  {
    assert (init + [last])[..|init|] == init;
  }

  /** The total of a stage's progress is the number of test names first mentioned for it, by a
      testpoint of the stage; unmapped results are first mentioned for no stage. */
  lemma ProgressTotal(ps: seq<Point>, rs: seq<Entry>, ms: Stage)
    ensures CountPlan(ps, rs).progress[ms].total == |NamesIn(Flow(ps, rs), ms)|
  {
    hide Flow, CountPlan, CountFlow, NamesIn;
    CountPlanIsFlow(ps, rs);
    TotalIsNames(Flow(ps, rs), ms);
  }

  /** The progress of a verification stage counts the results that count for it: those that have
      run are written, those that passed every time are passing. */
  lemma ProgressCounts(ps: seq<Point>, rs: seq<Entry>, ms: Stage)
    requires DistinctNames(rs) && ms != NA
    ensures CountPlan(ps, rs).progress[ms].written == SumCounted(ps, rs, ms, Written)
    ensures CountPlan(ps, rs).progress[ms].passing == SumCounted(ps, rs, ms, AllPass)
  {
    hide Flow, CountPlan, DistinctNames;
    CountPlanIsFlow(ps, rs);
    ProgressIsSum(Flow(ps, rs), ms);
    FlowZero(ps, rs);
    SumByResults(Flow(ps, rs), rs, ms, Written);
    SumByResults(Flow(ps, rs), rs, ms, AllPass);
    WorthIsCounted(ps, rs, rs, ms, Written);
    WorthIsCounted(ps, rs, rs, ms, AllPass);
  }
}
