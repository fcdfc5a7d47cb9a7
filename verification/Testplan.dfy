/** Mapping the results of a simulation to a testplan. */
module Testplans {
  import opened Counting

  class Result {
    const name: string
    var passing: nat
    var total: nat
    var mapped: bool

    constructor (name: string, passing: nat, total: nat)
      ensures Is(Entry(name, passing, total)) && !mapped
    {
      this.name, this.passing, this.total, this.mapped := name, passing, total, false;
    }

    ghost predicate Is(e: Entry)
      reads `passing, `total
    {
      name == e.name && passing == e.passing && total == e.total
    }
  }

  /** The results show these entries. */
  ghost predicate Shows(rs: seq<Result>, es: seq<Entry>)
    reads rs`passing, rs`total
  {
    |rs| == |es| && forall i :: 0 <= i < |rs| ==> rs[i].Is(es[i])
  }

  class Testpoint {
    const name: string
    const stage: Stage
    const tests: seq<string>
    var testResults: seq<Result>

    constructor (name: string, stage: Stage, tests: seq<string>)
      ensures Says() == Point(name, stage, tests) && testResults == []
    {
      this.name, this.stage, this.tests := name, stage, tests;
      testResults := [];
    }

    function Says(): Point {
      Point(name, stage, tests)
    }

    /** The testpoint shows the entries mapped to it. */
    ghost predicate ShowsListing(rs: seq<Entry>)
      reads `testResults, testResults`passing, testResults`total
    {
      Shows(testResults, Listing(Says(), rs))
    }

    /** None of the results shown is one of `others`. */
    ghost predicate Avoids(others: set<Result>)
      reads `testResults
    {
      forall r :: r in testResults ==> r !in others
    }

    /** Marks the results of the listed tests as mapped, and adds them to the testpoint. */
    method MapListed(results: seq<Result>, ghost rs: seq<Entry>)
      requires testResults == [] && Shows(results, rs)
      modifies `testResults, results`mapped
      ensures Shows(results, rs) && Shows(testResults, Matching(tests, rs))
      ensures forall r :: r in results ==> r.mapped == (old(r.mapped) || r.name in tests)
      ensures forall r :: r in testResults ==> r in results
    {
      for n := 0 to |results|
        invariant Shows(results, rs) && Shows(testResults, Matching(tests, rs[..n]))
        invariant forall r :: r in testResults ==> r in results
        invariant forall i :: 0 <= i < |results| ==>
          results[i].mapped == (old(results[i].mapped) || (results[i] in results[..n] && results[i].name in tests))
      {
        assert rs[..n + 1][..n] == rs[..n];
        assert results[..n + 1] == results[..n] + [results[n]];
        var tr := results[n];
        if tr.name in tests {
          tr.mapped := true;
          testResults := testResults + [tr];
        }
      }
      assert rs[..|results|] == rs && results[..|results|] == results;
    }

    /** Adds a result without runs for each listed test that was not found. */
    method AddMissing(ghost found: seq<Entry>)
      requires Shows(testResults, found)
      modifies `testResults
      ensures Shows(testResults, found + Missing(tests, found))
      ensures forall r :: r in testResults ==> r in old(testResults) || fresh(r)
    {
      hide HasName;
      var mapped := testResults;
      for n := 0 to |tests|
        invariant Shows(testResults, found + Missing(tests[..n], found))
        invariant forall r :: r in testResults ==> r in mapped || fresh(r)
      {
        var test := tests[n];
        assert tests[..n + 1][..n] == tests[..n];
        SameNames(mapped, found, test);
        if forall i :: 0 <= i < |mapped| ==> mapped[i].name != test {
          var r := new Result(test, 0, 0);
          testResults := testResults + [r];
        }
      }
      assert tests[..|tests|] == tests;
    }

    lemma SameNames(rs: seq<Result>, es: seq<Entry>, test: string)
      requires |rs| == |es| && forall i :: 0 <= i < |rs| ==> rs[i].name == es[i].name
      ensures HasName(es, test) <==> exists i :: 0 <= i < |rs| && rs[i].name == test
    {
    }

    /** `Testpoint.map_test_results` */
    method MapTestResults(results: seq<Result>, ghost rs: seq<Entry>)
      requires testResults == [] && Shows(results, rs)
      modifies `testResults, results`mapped
      ensures Shows(results, rs) && ShowsListing(rs)
      ensures forall r :: r in results ==> r.mapped == (old(r.mapped) || Maps(Says(), r.name))
      ensures forall r :: r in testResults ==> r in results || fresh(r)
    {
      if tests == [] {
        var r := new Result(name, 0, 0);
        testResults := [r];
        return;
      }
      if NotMapped(Says()) {
        return;
      }
      MapListed(results, rs);
      AddMissing(Matching(tests, rs));
    }
  }

  /** The totals show the sums of the tally. */
  ghost predicate Sums(totals: map<Stage, Result>, t: Tally)
    reads totals.Values
  {
    && FullTally(t)
    && (forall ms: Stage :: ms in totals && totals[ms].Is(Entry("**TOTAL**", t.passing[ms], t.total[ms])))
    && (forall m, n: Stage :: m in totals && n in totals && m != n ==> totals[m] != totals[n])
  }

  function Points(tps: seq<Testpoint>): (ps: seq<Point>)
    ensures |ps| == |tps| && forall i :: 0 <= i < |ps| ==> ps[i] == tps[i].Says()
  {
    seq(|tps|, i requires 0 <= i < |tps| => tps[i].Says())
  }

  // ----- _sort -----

  /** The testpoints of a stage, in order. */
  function OfStage(tps: seq<Testpoint>, ms: Stage): seq<Testpoint> {
    if tps == [] then []
    else OfStage(tps[..|tps| - 1], ms) + if tps[|tps| - 1].stage == ms then [tps[|tps| - 1]] else []
  }

  /** `list.sort` by the names of the stages, which are in this order; it is stable. */
  function SortByStage(tps: seq<Testpoint>): seq<Testpoint> {
    OfStage(tps, NA) + OfStage(tps, V1) + OfStage(tps, V2) + OfStage(tps, V2S) + OfStage(tps, V3)
  }

  function Rank(ms: Stage): nat {
    match ms
    case NA => 0
    case V1 => 1
    case V2 => 2
    case V2S => 3
    case V3 => 4
  }

  function StageName(ms: Stage): string {
    match ms
    case NA => "N.A."
    case V1 => "V1"
    case V2 => "V2"
    case V2S => "V2S"
    case V3 => "V3"
  }

  /** The order of strings: where they first differ, or one of them ends. */
  ghost predicate Before(a: string, b: string) {
    exists n :: 0 <= n <= |a| && n < |b| && a[..n] == b[..n] && (n == |a| || a[n] < b[n])
  }

  lemma BeforeAt(a: string, b: string, n: nat)
    requires n <= |a| && n < |b| && a[..n] == b[..n] && (n == |a| || a[n] < b[n])
    ensures Before(a, b)
  {
  }

  /** Stages are ranked by their names. */
  lemma RankIsByName(m: Stage, n: Stage)
    ensures Rank(m) < Rank(n) ==> Before(StageName(m), StageName(n))
    ensures Rank(m) == Rank(n) ==> m == n
  {
    if Rank(m) < Rank(n) {
      match m {
        case NA => BeforeAt("N.A.", StageName(n), 0);
        case V1 => BeforeAt("V1", StageName(n), 1);
        case V2 => BeforeAt("V2", StageName(n), if n == V2S then 2 else 1);
        case V2S => BeforeAt("V2S", StageName(n), 1);
      }
    }
  }

  lemma {:induction false} OfStageMembers(tps: seq<Testpoint>, ms: Stage)
    ensures forall tp :: tp in OfStage(tps, ms) ==> tp.stage == ms
    ensures OfStage(OfStage(tps, ms), ms) == OfStage(tps, ms)
    ensures forall n: Stage :: n != ms ==> OfStage(OfStage(tps, ms), n) == []
    decreases |tps|
  {
    if tps != [] {
      var init, last := tps[..|tps| - 1], tps[|tps| - 1];
      OfStageMembers(init, ms);
      if last.stage == ms {
        var s := OfStage(init, ms);
        assert (s + [last])[..|s|] == s;
      } else {
        assert OfStage(init, ms) + [] == OfStage(init, ms);
      }
    }
  }

  lemma {:induction false} OfStageAppend(a: seq<Testpoint>, b: seq<Testpoint>, ms: Stage)
    ensures OfStage(a + b, ms) == OfStage(a, ms) + OfStage(b, ms)
    decreases |b|
  {
    if b == [] {
      assert a + b == a;
    } else {
      assert (a + b)[..|a + b| - 1] == a + b[..|b| - 1];
      OfStageAppend(a, b[..|b| - 1], ms);
    }
  }

  lemma {:induction false} OfStageCount(tps: seq<Testpoint>, ms: Stage, x: Testpoint)
    ensures multiset(OfStage(tps, ms))[x] == if x.stage == ms then multiset(tps)[x] else 0
    decreases |tps|
  {
    if tps != [] {
      var init, last := tps[..|tps| - 1], tps[|tps| - 1];
      OfStageCount(init, ms, x);
      assert tps == init + [last];
    }
  }

  lemma StagesPermute(tps: seq<Testpoint>)
    ensures multiset(SortByStage(tps)) == multiset(tps)
  {
    hide OfStage;
    var (a, b, c, d, e) := (OfStage(tps, NA), OfStage(tps, V1), OfStage(tps, V2), OfStage(tps, V2S), OfStage(tps, V3));
    assert multiset(a + b + c + d + e) == multiset(a) + multiset(b) + multiset(c) + multiset(d) + multiset(e);
    forall x: Testpoint
      ensures multiset(SortByStage(tps))[x] == multiset(tps)[x]
    {
      AllStages(x.stage);
      OfStageCount(tps, NA, x);
      OfStageCount(tps, V1, x);
      OfStageCount(tps, V2, x);
      OfStageCount(tps, V2S, x);
      OfStageCount(tps, V3, x);
    }
  }

  /** Sorting orders the testpoints by stage, keeps those of a stage in their order, and neither
      loses nor adds any. */
  lemma SortIsStable(tps: seq<Testpoint>, ms: Stage)
    ensures forall i, j :: 0 <= i < j < |SortByStage(tps)| ==>
              Rank(SortByStage(tps)[i].stage) <= Rank(SortByStage(tps)[j].stage)
    ensures OfStage(SortByStage(tps), ms) == OfStage(tps, ms)
    ensures multiset(SortByStage(tps)) == multiset(tps)
  {
    StagesPermute(tps);
    OfStageMembers(tps, NA);
    OfStageMembers(tps, V1);
    OfStageMembers(tps, V2);
    OfStageMembers(tps, V2S);
    OfStageMembers(tps, V3);
    hide OfStage;
    var (a, b, c, d, e) := (OfStage(tps, NA), OfStage(tps, V1), OfStage(tps, V2), OfStage(tps, V2S), OfStage(tps, V3));
    OfStageAppend(a + b + c + d, e, ms);
    OfStageAppend(a + b + c, d, ms);
    OfStageAppend(a + b, c, ms);
    OfStageAppend(a, b, ms);
    assert forall s: seq<Testpoint>, i :: 0 <= i < |s| ==> s[i] in s;
  }

  /** The testpoint shows the total of a stage. */
  ghost predicate IsTotal(tp: Testpoint, ms: Stage, t: Tally)
    requires FullTally(t)
    reads tp, tp.testResults
  {
    tp.Says() == Point("N.A.", ms, []) && Shows(tp.testResults, [Entry("**TOTAL**", t.passing[ms], t.total[ms])])
  }

  /** The totals of the verification stages, and the grand total. */
  ghost predicate AreTotals(totals: seq<Testpoint>, t: Tally)
    requires FullTally(t) && |totals| == 5
    reads totals, totals[0].testResults, totals[1].testResults, totals[2].testResults, totals[3].testResults,
          totals[4].testResults
  {
    && IsTotal(totals[0], V1, t) && IsTotal(totals[1], V2, t) && IsTotal(totals[2], V2S, t) && IsTotal(totals[3], V3, t)
    && IsTotal(totals[4], NA, t)
  }

  class Testplan {
    var testpoints: seq<Testpoint>
    var progress: map<Stage, Progress>

    constructor (testpoints: seq<Testpoint>)
      ensures this.testpoints == testpoints && progress == Start().progress
    {
      this.testpoints := testpoints;
      progress := Start().progress;
    }

    /** `_process_testpoint`: counts the results of a testpoint that were not seen before. */
    method ProcessTestpoint(testpoint: Testpoint, totals: map<Stage, Result>, testsSeen: set<string>,
                            ghost es: seq<Entry>, ghost t: Tally) returns (seen: set<string>)
      requires Shows(testpoint.testResults, es) && Sums(totals, t) && progress == t.progress && testsSeen == t.seen
      requires forall r :: r in testpoint.testResults ==> r !in totals.Values
      modifies `progress, totals.Values
      ensures var t' := Count(t, testpoint.stage, es);
              Sums(totals, t') && progress == t'.progress && seen == t'.seen
    {
      assert FullTally(t);
      hide CountOne, Result.Is;
      seen := testsSeen;
      for n := 0 to |testpoint.testResults|
        invariant Shows(testpoint.testResults, es)
        invariant var t' := Count(t, testpoint.stage, es[..n]);
                  Sums(totals, t') && progress == t'.progress && seen == t'.seen
      {
        assert es[..n + 1][..n] == es[..n];
        seen := CountResult(testpoint.stage, testpoint.testResults[n], totals, seen, es[n], Count(t, testpoint.stage,
            es[..n]));
      }
      assert es[..|testpoint.testResults|] == es;
    }

    /** The body of the loop of `_process_testpoint`. */
    method CountResult(ms: Stage, tr: Result, totals: map<Stage, Result>, testsSeen: set<string>,
                       ghost e: Entry, ghost t: Tally) returns (seen: set<string>)
      requires tr.Is(e) && Sums(totals, t) && progress == t.progress && testsSeen == t.seen && tr !in totals.Values
      modifies `progress, totals.Values
      ensures var t' := CountOne(t, ms, e);
              Sums(totals, t') && progress == t'.progress && seen == t'.seen
    {
      hide AddProgress, AddAt;
      seen := testsSeen;
      if tr.name in seen {
        return;
      }
      seen := seen + {tr.name};
      ProgressOne(ms, tr, e);
      AddToTotals(totals, ms, tr, e, t);
    }

    /** Adds one result to the total of a stage. */
    static method AddToTotal(totals: map<Stage, Result>, ms: Stage, tr: Result, ghost e: Entry, ghost t: Tally)
      requires Sums(totals, t) && tr.Is(e) && tr !in totals.Values
      modifies totals.Values
      ensures Sums(totals, t.(passing := Add(t.passing, ms, e.passing), total := Add(t.total, ms, e.total)))
    {
      var stageTotal := totals[ms];
      stageTotal.passing := stageTotal.passing + tr.passing;
      stageTotal.total := stageTotal.total + tr.total;
    }

    /** Adds one result to the total of its stage and to the grand total. */
    static method AddToTotals(totals: map<Stage, Result>, ms: Stage, tr: Result, ghost e: Entry, ghost t: Tally)
      requires Sums(totals, t) && tr.Is(e) && tr !in totals.Values
      modifies totals.Values
      ensures Sums(totals, t.(passing := AddAt(t.passing, ms, e.passing), total := AddAt(t.total, ms, e.total)))
    {
      assert FullTally(t);
      hide Sums, Add, Result.Is;
      AddToTotal(totals, ms, tr, e, t);
      if ms != NA {
        ghost var mid := t.(passing := Add(t.passing, ms, e.passing), total := Add(t.total, ms, e.total));
        AddToTotal(totals, NA, tr, e, mid);
      }
    }

    /** Counts one result towards the progress of a stage. */
    method ProgressOne(ms: Stage, tr: Result, ghost e: Entry)
      requires tr.Is(e) && ms in progress
      modifies `progress
      ensures progress == old(progress)[ms := AddProgress(old(progress)[ms], e)]
    {
      var stat := progress[ms];
      stat := stat.(total := stat.total + 1);
      if tr.total != 0 {
        if tr.passing == tr.total {
          stat := stat.(passing := stat.passing + 1);
        }
        stat := stat.(written := stat.written + 1);
      }
      progress := progress[ms := stat];
    }

    /** A testpoint that shows the total of a stage. */
    static method TotalPoint(totals: map<Stage, Result>, ms: Stage, ghost t: Tally) returns (tp: Testpoint)
      requires Sums(totals, t)
      ensures fresh(tp) && IsTotal(tp, ms, t)
    {
      tp := new Testpoint("N.A.", ms, []);
      tp.testResults := [totals[ms]];
    }

    /** The testpoints for all totals, the grand total last. */
    static method TotalPoints(totals: map<Stage, Result>, ghost t: Tally) returns (points: seq<Testpoint>)
      requires Sums(totals, t)
      ensures |points| == 5 && AreTotals(points, t)
    {
      hide Sums, IsTotal;
      var v1 := TotalPoint(totals, V1, t);
      var v2 := TotalPoint(totals, V2, t);
      var v2s := TotalPoint(totals, V2S, t);
      var v3 := TotalPoint(totals, V3, t);
      var na := TotalPoint(totals, NA, t);
      points := [v1, v2, v2s, v3, na];
    }

    static method NewTotals() returns (totals: map<Stage, Result>)
      ensures Sums(totals, Start()) && fresh(totals.Values)
    {
      hide Start;
      totals := map[];
      var rest := STAGES;
      while rest != {}
        invariant totals.Keys == STAGES - rest && forall ms :: ms in totals ==> fresh(totals[ms])
        invariant forall ms :: ms in totals ==> totals[ms].Is(Entry("**TOTAL**", 0, 0))
        invariant forall m, n :: m in totals && n in totals && m != n ==> totals[m] != totals[n]
        decreases rest
      {
        var ms :| ms in rest;
        var r := new Result("**TOTAL**", 0, 0);
        totals := totals[ms := r];
        rest := rest - {ms};
      }
      forall ms: Stage
        ensures ms in totals
      {
        AllStages(ms);
      }
    }

    /** The results that are not mapped. */
    static method NotMappedResults(results: seq<Result>, ghost ps: seq<Point>,
        ghost rs: seq<Entry>) returns (u: seq<Result>)
      requires Shows(results, rs)
      requires forall r :: r in results ==> r.mapped == MappedBySome(ps, r.name)
      ensures Shows(u, Unmapped(ps, rs)) && |u| == |Unmapped(ps, rs)| && forall r :: r in u ==> r in results
    {
      hide MappedBySome;
      u := [];
      for n := 0 to |results|
        invariant Shows(u, Unmapped(ps, rs[..n])) && forall r :: r in u ==> r in results
      {
        assert rs[..n + 1][..n] == rs[..n];
        assert results[n] in results;
        if !results[n].mapped {
          u := u + [results[n]];
        }
      }
      assert rs[..|results|] == rs;
    }

    /** Maps the results to one testpoint and counts those that it shows. */
    method MapOne(tp: Testpoint, results: seq<Result>, totals: map<Stage, Result>, testsSeen: set<string>,
                  ghost rs: seq<Entry>, ghost t: Tally) returns (seen: set<string>)
      requires Shows(results, rs) && tp.testResults == [] && Sums(totals, t) && progress == t.progress
      requires testsSeen == t.seen && forall r :: r in results ==> r !in totals.Values
      modifies `progress, tp`testResults, results`mapped, totals.Values
      ensures Shows(results, rs) && tp.ShowsListing(rs)
      ensures forall r :: r in results ==> r.mapped == (old(r.mapped) || Maps(tp.Says(), r.name))
      ensures tp.Avoids(totals.Values)
      ensures var t' := Count(t, tp.stage, Listing(tp.Says(), rs));
              Sums(totals, t') && progress == t'.progress && seen == t'.seen
    {
      hide Count, Listing, Maps, Sums;
      tp.MapTestResults(results, rs);
      seen := ProcessTestpoint(tp, totals, testsSeen, Listing(tp.Says(), rs), t);
    }

    /** Maps the results to all testpoints and counts them. */
    method MapAll(results: seq<Result>, totals: map<Stage, Result>, ghost rs: seq<Entry>) returns (seen: set<string>)
      requires Shows(results, rs) && Sums(totals, Start()) && progress == Start().progress
      requires forall tp :: tp in testpoints ==> tp.testResults == []
      requires forall i, j :: 0 <= i < j < |testpoints| ==> testpoints[i] != testpoints[j]
      requires forall r :: r in results ==> r !in totals.Values && !r.mapped
      modifies `progress, testpoints`testResults, results`mapped, totals.Values
      ensures Shows(results, rs)
      ensures forall r :: r in results ==> r.mapped == MappedBySome(Points(testpoints), r.name)
      ensures forall tp :: tp in testpoints ==> tp.ShowsListing(rs) && tp.Avoids(totals.Values)
      ensures var t := CountPoints(Start(), Points(testpoints), rs);
              Sums(totals, t) && progress == t.progress && seen == t.seen
    {
      hide Count, CountPoints, Listing, Maps, MappedBySome, Start, Sums, Shows, Testpoint.ShowsListing;
      var tps := testpoints;
      ghost var ps := Points(tps);
      seen := {};
      NothingMapped(ps, rs);
      for n := 0 to |tps|
        invariant testpoints == tps && Shows(results, rs)
        invariant forall i :: n <= i < |tps| ==> tps[i].testResults == []
        invariant forall i :: 0 <= i < n ==> tps[i].ShowsListing(rs) && tps[i].Avoids(totals.Values)
        invariant forall r :: r in results ==> r.mapped == MappedBySome(ps[..n], r.name)
        invariant var t := CountPoints(Start(), ps[..n], rs);
                  Sums(totals, t) && progress == t.progress && seen == t.seen
      {
        var tp := tps[n];
        assert ps[n] == tp.Says();
        CountOneMore(ps, n, rs);
        MappedByOneMore(ps, n);
        seen := MapOne(tp, results, totals, seen, rs, CountPoints(Start(), ps[..n], rs));
      }
      assert ps[..|tps|] == ps;
    }

    /** Counts all results: the totals, the progress, and the unmapped results. */
    method CountAll(results: seq<Result>, ghost rs: seq<Entry>) returns (totals: map<Stage, Result>,
        unmapped: Testpoint)
      requires Shows(results, rs) && progress == Start().progress
      requires forall tp :: tp in testpoints ==> tp.testResults == []
      requires forall i, j :: 0 <= i < j < |testpoints| ==> testpoints[i] != testpoints[j]
      requires forall r :: r in results ==> !r.mapped
      modifies `progress, testpoints`testResults, results`mapped
      ensures Shows(results, rs)
      ensures forall r :: r in results ==> r.mapped == MappedBySome(Points(testpoints), r.name)
      ensures forall tp :: tp in testpoints ==> tp.ShowsListing(rs)
      ensures var t := CountPlan(Points(testpoints), rs);
              Sums(totals, t) && progress == t.progress
      ensures unmapped.Says() == Point("Unmapped tests", NA, [])
      ensures Shows(unmapped.testResults, Unmapped(Points(testpoints), rs))
      ensures |unmapped.testResults| == |Unmapped(Points(testpoints), rs)|
    {
      hide Unmapped, CountPoints, MappedBySome, Start, Sums, Shows, Count, Testpoint.ShowsListing;
      ghost var ps := Points(testpoints);
      totals := NewTotals();
      var seen := MapAll(results, totals, rs);
      unmapped := new Testpoint("Unmapped tests", NA, []);
      unmapped.testResults := NotMappedResults(results, ps, rs);
      seen := ProcessTestpoint(unmapped, totals, seen, Unmapped(ps, rs), CountPoints(Start(), ps, rs));
    }

    /** `Testplan.map_test_results`: the counts are those of `CountPlan`. A testpoint with the
        total of each verification stage is added and the testpoints are sorted; one with the
        unmapped results, if there are any, and one with the grand total are appended; stages
        without any test lose their progress. */
    method MapTestResults(results: seq<Result>, ghost rs: seq<Entry>) returns (ghost totals: seq<Testpoint>)
      requires Shows(results, rs) && progress == Start().progress
      requires forall tp :: tp in testpoints ==> tp.testResults == []
      requires forall i, j :: 0 <= i < j < |testpoints| ==> testpoints[i] != testpoints[j]
      requires forall r :: r in results ==> !r.mapped
      modifies this, testpoints`testResults, results`mapped
      ensures forall tp :: tp in old(testpoints) ==> tp.ShowsListing(rs)
      ensures var ps := Points(old(testpoints));
              var t := CountPlan(ps, rs);
              && Shows(results, rs)
              && (forall r :: r in results ==> r.mapped == MappedBySome(ps, r.name))
              && |totals| == 5 && AreTotals(totals, t)
              && (if Unmapped(ps, rs) == [] then testpoints == SortByStage(old(testpoints) + totals[..4]) + [totals[4]]
                  else |testpoints| >= 2 &&
                       var u := testpoints[|testpoints| - 2];
                       && testpoints == SortByStage(old(testpoints) + totals[..4]) + [u, totals[4]]
                       && u.Says() == Point("Unmapped tests", NA, []) && Shows(u.testResults, Unmapped(ps, rs)))
              && progress == map ms | ms in t.progress && t.progress[ms].total != 0 :: t.progress[ms]
    {
      hide Unmapped, MappedBySome, Start, Sums, Shows, AreTotals, CountPlan, SortByStage;
      var sums, unmapped := CountAll(results, rs);
      totals := AppendTotals(sums, unmapped, CountPlan(Points(testpoints), rs));
      progress := map ms | ms in progress && progress[ms].total != 0 :: progress[ms];
    }

    /** Adds the testpoints for the totals and the unmapped results. */
    method AppendTotals(sums: map<Stage, Result>, unmapped: Testpoint, ghost t: Tally)
        returns (ghost totals: seq<Testpoint>)
      requires Sums(sums, t)
      modifies `testpoints
      ensures |totals| == 5 && AreTotals(totals, t)
      ensures testpoints == SortByStage(old(testpoints) + totals[..4]) +
                            (if unmapped.testResults == [] then [] else [unmapped]) + [totals[4]]
    {
      hide Sums, AreTotals, SortByStage;
      var points := TotalPoints(sums, t);
      totals := points;
      testpoints := testpoints + points[..4];
      testpoints := SortByStage(testpoints);
      if unmapped.testResults != [] {
        testpoints := testpoints + [unmapped];
      }
      testpoints := testpoints + [points[4]];
    }

    lemma NothingMapped(ps: seq<Point>, rs: seq<Entry>)
      ensures CountPoints(Start(), ps[..0], rs) == Start()
      ensures forall name :: !MappedBySome(ps[..0], name)
    {
    }

    lemma CountOneMore(ps: seq<Point>, n: nat, rs: seq<Entry>)
      requires n < |ps|
      ensures CountPoints(Start(), ps[..n + 1], rs) ==
              Count(CountPoints(Start(), ps[..n], rs), ps[n].stage, Listing(ps[n], rs))
    {
      assert ps[..n + 1][..n] == ps[..n];
    }

    lemma MappedByOneMore(ps: seq<Point>, n: nat)
      requires n < |ps|
      ensures forall name :: MappedBySome(ps[..n + 1], name) <==> MappedBySome(ps[..n], name) || Maps(ps[n], name)
    {
      hide Maps;
      forall name
        ensures MappedBySome(ps[..n + 1], name) <==> MappedBySome(ps[..n], name) || Maps(ps[n], name)
      {
        assert ps[..n + 1] == ps[..n] + [ps[n]];
        if Maps(ps[n], name) {
          assert Maps(ps[..n + 1][n], name);
        }
        if i :| 0 <= i < n && Maps(ps[..n][i], name) {
          assert Maps(ps[..n + 1][i], name);
        }
      }
    }
  }
}
