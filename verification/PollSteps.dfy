/** What single polls and runs of polls achieve. */
module PollSteps {
  import opened Sequences
  import opened Jobs
  import opened SchedulerState
  import opened Dependencies
  import opened SchedulerSteps
  import opened Polling

  /** The poll history and the statuses agree. The answers of the launchers are theirs; a job that
      was over has the status its launcher answered, and no launcher was polled after that; and
      every job that passed or failed did so by the answer of its launcher. */
  ghost predicate HistoryOk(outcome: StatusMap, trace: seq<(Item, Status)>, status: StatusMap) {
    && (forall n :: 0 <= n < |trace| && trace[n].1 != D ==>
          Answered(outcome, trace[n]) && trace[n].0 in status && status[trace[n].0] == trace[n].1)
    && (forall m, n :: 0 <= m < n < |trace| && trace[m].0 == trace[n].0 ==> trace[m].1 == D)
    && (forall i :: i in status && (status[i] == P || status[i] == F) ==> (i, status[i]) in trace)
  }

  predicate Answered(outcome: StatusMap, entry: (Item, Status)) {
    Finished(entry.1) && entry.0 in outcome && outcome[entry.0] == entry.1
  }

  function Delays(items: seq<Item>, delay: map<Item, nat>): nat {
    if items == [] then 0 else (if items[0] in delay then delay[items[0]] else 0) + Delays(items[1..], delay)
  }

  lemma {:induction false} DelaysMonotone(items: seq<Item>, d: map<Item, nat>, x: Item)
    requires x in d && d[x] > 0
    ensures Delays(items, d[x := d[x] - 1]) <= Delays(items, d)
    ensures x in items ==> Delays(items, d[x := d[x] - 1]) < Delays(items, d)
  {
    if items != [] {
      DelaysMonotone(items[1..], d, x);
    }
  }

  /** Every target has the index of its last poll. */
  ghost predicate Indexed(targets: seq<Target>, last: map<Target, int>) {
    forall t :: t in targets ==> t in last && last[t] >= -1
  }

  lemma IndexedAt(targets: seq<Target>, last: map<Target, int>, t: Target)
    requires Indexed(targets, last) && t in targets
    ensures t in last && last[t] >= -1
  {
  }

  lemma IndexedSet(targets: seq<Target>, last: map<Target, int>, t: Target, v: int)
    requires Indexed(targets, last) && v >= -1
    ensures Indexed(targets, last[t := v])
  {
  }

  /** Every launcher knows how often it will still answer that its job is running. */
  ghost predicate Answering(items: seq<Item>, delay: map<Item, nat>) {
    forall i :: i in items ==> i in delay
  }

  lemma AnsweringAt(items: seq<Item>, delay: map<Item, nat>, x: Item)
    requires Answering(items, delay) && x in items
    ensures x in delay && (delay[x] > 0 ==> Answering(items, delay[x := delay[x] - 1]))
  {
  }

  /** The indices, the launchers' answers to come, and the history of polls. */
  ghost predicate PollOk(items: seq<Item>, outcome: StatusMap, targets: seq<Target>, lastTarget: int,
                         lastItem: map<Target, int>, delay: map<Item, nat>, trace: seq<(Item, Status)>,
                         status: StatusMap) {
    && -1 <= lastTarget < |targets|
    && Indexed(targets, lastItem)
    && Answering(items, delay)
    && HistoryOk(outcome, trace, status)
  }

  lemma DelayFalls(items: seq<Item>, d: map<Item, nat>, x: Item)
    requires x in d && x in items
    ensures d[x] > 0 ==> Delays(items, d[x := d[x] - 1]) < Delays(items, d)
  {
    if d[x] > 0 {
      DelaysMonotone(items, d, x);
    }
  }

  /** The effect of one poll answer: nothing while the job runs; otherwise it is filed under its
      outcome and its ready dependents are enqueued. */
  ghost predicate Polled(items: seq<Item>, targets: seq<Target>, s0: State, s1: State, x: Item, status: Status) {
    && x in s0.status && s0.status[x] == D && x.target in targets
    && if status == D then s1 == s0
       else Finished(status) &&
            s1 == EnqueueAll(Finish(s0, x, status), Successors(items, targets, Finish(s0, x, status), x))
  }

  lemma PolledStill(items: seq<Item>, targets: seq<Target>, st: State, x: Item)
    requires x in st.status && st.status[x] == D && x.target in targets
    ensures Polled(items, targets, st, st, x, D) && !Complete(st.status, x)
  {
  }

  lemma RunningItem(items: seq<Item>, st: State, limbo: set<Item>, t: Target, n: nat)
    requires Partition(items, st, limbo) && n < |ListAt(st.running, t)|
    ensures var x := ListAt(st.running, t)[n];
            && x in items && x.target == t && x in st.status && st.status[x] == D
            && RemoveItem(ListAt(st.running, t), x) == Drop(ListAt(st.running, t), n, true)
  {
    var l := ListAt(st.running, t);
    assert l[n] in l;
    assert l[n] in WithStatus(st.status, D);
    RemoveItemAt(l, n);
  }

  lemma NoChange(status: StatusMap)
    ensures Advances(status, status)
  {
  }

  /** Only `x` has passed or failed in the meantime, if anything has. */
  ghost predicate OnlyResult(s0: StatusMap, s1: StatusMap, x: Item, status: Status) {
    && x in s1 && s1[x] == status
    && forall i :: i in s1 && i != x && (s1[i] == P || s1[i] == F) ==> i in s0 && s0[i] == s1[i]
  }

  lemma HistoryStep(outcome: StatusMap, trace: seq<(Item, Status)>, s0: StatusMap, s1: StatusMap, x: Item,
                    answer: Status)
    requires HistoryOk(outcome, trace, s0) && Advances(s0, s1) && !Complete(s0, x)
    requires answer != D && Answered(outcome, (x, answer)) && OnlyResult(s0, s1, x, answer)
    ensures HistoryOk(outcome, trace + [(x, answer)], s1)
  {
    var more := trace + [(x, answer)];
    assert forall n :: 0 <= n < |trace| ==> more[n] == trace[n];
    forall i | i in s1 && (s1[i] == P || s1[i] == F)
      ensures (i, s1[i]) in more
    {
      if i == x {
        assert more[|trace|] == (i, s1[i]);
      } else {
        assert (i, s1[i]) in trace;
      }
    }
  }

  lemma HistoryOfRunning(outcome: StatusMap, trace: seq<(Item, Status)>, status: StatusMap, x: Item)
    requires HistoryOk(outcome, trace, status) && !Complete(status, x)
    ensures HistoryOk(outcome, trace + [(x, D)], status)
  {
    var more := trace + [(x, D)];
    assert forall n :: 0 <= n < |trace| ==> more[n] == trace[n];
    forall i | i in status && (status[i] == P || status[i] == F)
      ensures (i, status[i]) in more
    {
      assert (i, status[i]) in trace;
    }
  }

  /** The history stays right when nothing is polled. */
  lemma HistoryStays(outcome: StatusMap, trace: seq<(Item, Status)>, s0: StatusMap, s1: StatusMap)
    requires HistoryOk(outcome, trace, s0) && Advances(s0, s1) && NoNewResults(s0, s1)
    ensures HistoryOk(outcome, trace, s1)
  {
  }

  lemma FinishFaithful(items: seq<Item>, outcome: StatusMap, st: State, limbo: set<Item>, launched: set<Item>, x: Item)
    requires Good(items, st, limbo, launched) && x in st.status && st.status[x] == D && x in outcome
    ensures Faithful(items, outcome, st.status) ==> outcome[x] == Final(items, outcome, x)
  {
    if Faithful(items, outcome, st.status) {
      FinalOfReady(items, outcome, st.status, x);
    }
  }

  lemma FinishFalls(items: seq<Item>, st: State, x: Item, s: Status)
    requires x in items && x in st.status && st.status[x] == D && Finished(s)
    ensures Work(items, Finish(st, x, s).status) < Work(items, st.status)
  {
    hide Work, Advances;
    RankFalls(items, st.status, x, s);
  }

  lemma PollDone(items: seq<Item>, outcome: StatusMap, st: State, mid: State, end: State, x: Item, status: Status)
    requires Advances(st.status, mid.status) && Advances(mid.status, end.status)
    requires mid.status == st.status[x := status] && Finished(status)
    requires forall i :: Complete(end.status, i) <==> Complete(mid.status, i)
    requires Work(items, mid.status) < Work(items, st.status)
    ensures Advances(st.status, end.status)
    ensures OnlyResult(st.status, end.status, x, status)
    ensures Faithful(items, outcome, st.status) && status == Final(items, outcome, x) ==>
        Faithful(items, outcome, end.status)
    ensures Work(items, end.status) < Work(items, st.status)
  {
    WorkFalls(items, mid.status, end.status);
    hide Work;
    AdvancesTrans(st.status, mid.status, end.status);
    assert Complete(mid.status, x);
    forall i | i in end.status && i != x && (end.status[i] == P || end.status[i] == F)
      ensures i in st.status && st.status[i] == end.status[i]
    {
      assert Complete(mid.status, i);
    }
    if Faithful(items, outcome, st.status) && status == Final(items, outcome, x) {
      forall i | Complete(end.status, i)
        ensures end.status[i] == Final(items, outcome, i)
      {
        assert Complete(mid.status, i);
      }
    }
  }

  /** Which of the polls of a trace found a job that was over. */
  function Answers(trace: seq<(Item, Status)>): (a: seq<bool>)
    ensures |a| == |trace|
  {
    seq(|trace|, n requires 0 <= n < |trace| => trace[n].1 != D)
  }

  function PolledItems(trace: seq<(Item, Status)>): (l: seq<Item>)
    ensures |l| == |trace|
  {
    seq(|trace|, n requires 0 <= n < |trace| => trace[n].0)
  }

  /** At most `n` running items have finished, and none was started. */
  ghost predicate StillRunning(s0: StatusMap, s1: StatusMap, n: nat) {
    && WithStatus(s1, D) <= WithStatus(s0, D)
    && |WithStatus(s0, D)| <= |WithStatus(s1, D)| + n
  }

  lemma StillStep(items: seq<Item>, targets: seq<Target>, s0: State, s1: State, launched: set<Item>, x: Item,
      status: Status)
    requires WellFormed(items) && targets == TargetsOf(items) && NoOrphan(items, s0.status, {})
    requires Good(items, s0, {}, launched)
    requires Polled(items, targets, s0, s1, x, status)
    ensures StillRunning(s0.status, s1.status, 1)
  {
    hide WellFormed, NoOrphan, Good, Successors, JustCompleted, TargetsOf, Partition, EnqueueAll, DependsOn, Ready;
    hide Finish, WithStatus;
    if status != D {
      var mid := Finish(s0, x, status);
      FinishStep(items, s0, {}, launched, x, status);
      GoodPartition(items, s0, {}, launched);
      PartitionItems(items, s0, {}, x);
      GoodPartition(items, mid, {}, launched);
      SuccessorsMembers(items, mid, {}, x);
      EnqueueAllKeeps(items, mid, {}, Successors(items, targets, mid, x));
      FinishStatus(s0, x, status);
      FewerRunning(s0.status, mid.status, s1.status, x, status);
    }
  }

  lemma FinishStatus(st: State, x: Item, s: Status)
    requires Finished(s)
    ensures Finish(st, x, s).status == st.status[x := s]
  {
  }

  lemma FewerRunning(s0: StatusMap, mid: StatusMap, s1: StatusMap, x: Item, status: Status)
    requires x in s0 && s0[x] == D && status != D && mid == s0[x := status]
    requires forall i :: i in mid ==> i in s1 && s1[i] == mid[i]
    requires forall i :: i in s1 && i !in mid ==> s1[i] == Q
    ensures StillRunning(s0, s1, 1)
  {
    assert WithStatus(s1, D) == WithStatus(s0, D) - {x};
  }

  /** What `n` polls achieve: statuses advance, at least `n` less is left to do, the outcomes
      stay those of the recursive evaluation, and at most `n` items stop running. */
  ghost predicate Progress(items: seq<Item>, outcome: StatusMap, s0: State, s1: State, r0: nat, r1: nat, n: nat) {
    && Advances(s0.status, s1.status)
    && r1 + n <= r0
    && (Faithful(items, outcome, s0.status) ==> Faithful(items, outcome, s1.status))
    && StillRunning(s0.status, s1.status, n)
  }

  lemma ProgressNone(items: seq<Item>, outcome: StatusMap, s: State, r: nat)
    ensures Progress(items, outcome, s, s, r, r, 0)
  {
  }

  lemma ProgressOne(items: seq<Item>, outcome: StatusMap, s0: State, s1: State, r0: nat, r1: nat)
    requires Advances(s0.status, s1.status) && r1 < r0
    requires Faithful(items, outcome, s0.status) ==> Faithful(items, outcome, s1.status)
    requires StillRunning(s0.status, s1.status, 1)
    ensures Progress(items, outcome, s0, s1, r0, r1, 1)
  {
  }

  lemma ProgressTrans(items: seq<Item>, outcome: StatusMap, s0: State, s1: State, s2: State, r0: nat, r1: nat, r2: nat,
                      m: nat, n: nat)
    requires Progress(items, outcome, s0, s1, r0, r1, m) && Progress(items, outcome, s1, s2, r1, r2, n)
    ensures Progress(items, outcome, s0, s2, r0, r2, m + n)
  {
    hide Faithful, Finished;
    AdvancesTrans(s0.status, s1.status, s2.status);
  }

  function IndexAt(last: map<Target, int>, t: Target): int {
    if t in last then last[t] else -1
  }

  /** One poll moves on circularly and drops the polled item if its job was over. */
  ghost predicate PolledNext(l0: seq<Item>, i0: int, l1: seq<Item>, i1: int, entry: (Item, Status)) {
    var n := NextIndex(|l0|, i0);
    && 0 <= n < |l0|
    && entry.0 == l0[n]
    && l1 == Drop(l0, n, entry.1 != D)
    && i1 == if entry.1 != D then n - 1 else n
  }

  lemma NextIntro(l0: seq<Item>, i0: int, n: nat, entry: (Item, Status))
    requires n < |l0| && n == (if 0 <= i0 + 1 < |l0| then i0 + 1 else 0) && entry.0 == l0[n]
    ensures entry.1 != D ==> PolledNext(l0, i0, Drop(l0, n, true), n - 1, entry)
    ensures entry.1 == D ==> PolledNext(l0, i0, l0, n, entry)
  {
  }

  /** A stretch of the poll history of one target is a circular run over its list. */
  ghost predicate PolledRun(l0: seq<Item>, i0: int, l1: seq<Item>, i1: int, trace: seq<(Item, Status)>) {
    i0 >= -1 && PollRun(l0, i0, Answers(trace)) == Run(PolledItems(trace), l1, i1)
  }

  lemma PolledNothing(l: seq<Item>, i: int)
    requires i >= -1
    ensures PolledRun(l, i, l, i, [])
  {
  }

  lemma PolledStep(l0: seq<Item>, i0: int, l: seq<Item>, i: int, l1: seq<Item>, i1: int, trace: seq<(Item, Status)>,
                   entry: (Item, Status))
    requires PolledRun(l0, i0, l, i, trace) && PolledNext(l, i, l1, i1, entry)
    ensures PolledRun(l0, i0, l1, i1, trace + [entry])
  {
    hide PollRun, Drop;
    PollRunSnoc(l0, i0, Answers(trace), entry.1 != D);
    assert Answers(trace + [entry]) == Answers(trace) + [entry.1 != D];
    assert PolledItems(trace + [entry]) == PolledItems(trace) + [entry.0];
  }

  /** The first polls of a stretch, as many as the target has running items when it starts, poll
      each of those exactly once. */
  lemma EachPolledOnce(l0: seq<Item>, i0: int, l1: seq<Item>, i1: int, trace: seq<(Item, Status)>)
    requires PolledRun(l0, i0, l1, i1, trace) && |trace| >= |l0|
    ensures multiset(PolledItems(trace[..|l0|])) == multiset(l0)
  {
    var n := |l0|;
    hide PollRun;
    VisitedPrefix(l0, i0, Answers(trace), n);
    assert PolledItems(trace)[..n] == PolledItems(trace[..n]);
    RoundRobin(l0, i0, Answers(trace)[..n]);
  }

  /** Some poll since the history had length `start` found a job that was over. */
  ghost predicate Found(trace: seq<(Item, Status)>, start: nat) {
    exists n :: start <= n < |trace| && trace[n].1 != D
  }

  lemma FoundMore(t0: seq<(Item, Status)>, t1: seq<(Item, Status)>, start: nat)
    requires start <= |t0| <= |t1| && t1[..|t0|] == t0
    ensures Found(t1, start) <==> Found(t0, start) || Found(t1, |t0|)
    ensures |t1| == |t0| + 1 ==> (Found(t1, |t0|) <==> t1[|t0|].1 != D)
    ensures !Found(t0, |t0|)
    ensures t1[..start] == t0[..start]
  {
    assert forall n :: start <= n < |t0| ==> t1[n] == t0[n];
  }

  function Min(a: nat, b: nat): nat {
    if a <= b then a else b
  }

  /** How many steps it takes from index `first` to index `p` on a circle of `n`. */
  function Distance(n: nat, first: int, p: nat): int {
    if p > first then p - first else p - first + n
  }

  /** From `first` on, `visits` targets were polled in circular order, up to index `last`: those
      passed have no running item left, and neither has the last one unless polling is `done`;
      the running items of the others are untouched. */
  ghost predicate Swept(r0: Lists, r1: Lists, targets: seq<Target>, first: int, last: int, visits: nat, done: bool) {
    && -1 <= first < |targets| && -1 <= last < |targets| && visits <= |targets|
    && (if visits == 0 then last == first else last >= 0 && Distance(|targets|, first, last) == visits)
    && (forall p :: 0 <= p < |targets| && Distance(|targets|, first, p) > visits ==>
          ListAt(r1, targets[p]) == ListAt(r0, targets[p]))
    && (forall p :: 0 <= p < |targets| && Distance(|targets|, first, p) < visits ==> ListAt(r1, targets[p]) == [])
    && (visits > 0 && !done ==> ListAt(r1, targets[last]) == [])
  }

  lemma SweepStart(r: Lists, targets: seq<Target>, first: int, done: bool)
    requires -1 <= first < |targets|
    ensures Swept(r, r, targets, first, first, 0, done)
  {
  }

  lemma SweepStep(r0: Lists, r1: Lists, r2: Lists, targets: seq<Target>, first: int, last: int, next: int,
      visits: nat, done: bool)
    requires Swept(r0, r1, targets, first, last, visits, false) && visits < |targets| && Distinct(targets)
    requires next == if last + 1 < |targets| then last + 1 else 0
    requires !done ==> ListAt(r2, targets[next]) == []
    requires forall t :: t != targets[next] ==> ListAt(r2, t) == ListAt(r1, t)
    ensures Swept(r0, r2, targets, first, next, visits + 1, done)
  {
    hide ListAt;
    assert Distance(|targets|, first, next) == visits + 1;
    forall p | 0 <= p < |targets| && p != next
      ensures ListAt(r2, targets[p]) == ListAt(r1, targets[p])
    {
    }
    forall p | 0 <= p < |targets| && Distance(|targets|, first, p) == visits
      ensures p == last
    {
    }
  }

  /** The index `h` steps after `first` on a circle of `n`. */
  function After(n: nat, first: int, h: nat): int {
    if first + h < n then first + h else first + h - n
  }

  /** A stretch of polls of one target, from its list and index at the start to those at the end. */
  ghost predicate Turn(r0: Lists, i0: map<Target, int>, r1: Lists, i1: map<Target, int>, t: Target,
                       stretch: seq<(Item, Status)>) {
    PolledRun(ListAt(r0, t), IndexAt(i0, t), ListAt(r1, t), IndexAt(i1, t), stretch)
  }

  /** The h-th turn lasts from `cuts[h]` to `cuts[h + 1]`. */
  ghost predicate TurnAt(r0: Lists, i0: map<Target, int>, r1: Lists, i1: map<Target, int>, targets: seq<Target>,
                         first: int, cuts: seq<nat>, trace: seq<(Item, Status)>, h: nat) {
    && h + 1 < |cuts| && cuts[h] <= cuts[h + 1] <= |trace| && 0 <= After(|targets|, first, h + 1) < |targets|
    && Turn(r0, i0, r1, i1, targets[After(|targets|, first, h + 1)], trace[cuts[h]..cuts[h + 1]])
  }

  /** The polls since the history had length `cuts[0]` are the turns of the targets visited, in
      circular order. */
  ghost predicate Turns(r0: Lists, i0: map<Target, int>, r1: Lists, i1: map<Target, int>, targets: seq<Target>,
                        first: int, visits: nat, cuts: seq<nat>, trace: seq<(Item, Status)>) {
    && -1 <= first < |targets| && visits <= |targets|
    && |cuts| == visits + 1 && cuts[visits] == |trace|
    && (forall h :: 0 <= h < visits ==> TurnAt(r0, i0, r1, i1, targets, first, cuts, trace, h))
    && (forall p :: 0 <= p < |targets| && Distance(|targets|, first, p) > visits ==>
          ListAt(r1, targets[p]) == ListAt(r0, targets[p]) && IndexAt(i1, targets[p]) == IndexAt(i0, targets[p]))
  }

  lemma TurnsStart(r: Lists, i: map<Target, int>, targets: seq<Target>, first: int, trace: seq<(Item, Status)>)
    requires -1 <= first < |targets|
    ensures Turns(r, i, r, i, targets, first, 0, [|trace|], trace)
  {
  }

  lemma SamePart<T>(a: seq<T>, b: seq<T>, lo: nat, hi: nat)
    requires |a| <= |b| && b[..|a|] == a && lo <= hi <= |a|
    ensures b[lo..hi] == a[lo..hi]
  {
    assert forall n :: 0 <= n < |a| ==> b[n] == b[..|a|][n];
  }

  lemma TurnsStep(r0: Lists, i0: map<Target, int>, r1: Lists, i1: map<Target, int>, r2: Lists, i2: map<Target, int>,
                  targets: seq<Target>, first: int, next: int, visits: nat, cuts: seq<nat>,
                  t1: seq<(Item, Status)>, t2: seq<(Item, Status)>)
    requires Turns(r0, i0, r1, i1, targets, first, visits, cuts, t1) && visits < |targets| && Distinct(targets)
    requires 0 <= next < |targets| && Distance(|targets|, first, next) == visits + 1
    requires |t1| <= |t2| && t2[..|t1|] == t1 && Turn(r1, i1, r2, i2, targets[next], t2[|t1|..])
    requires forall t :: t != targets[next] ==> ListAt(r2, t) == ListAt(r1, t) && IndexAt(i2, t) == IndexAt(i1, t)
    ensures Turns(r0, i0, r2, i2, targets, first, visits + 1, cuts + [|t2|], t2)
  {
    hide PolledRun, ListAt, IndexAt, TurnAt, Turn;
    var n, cuts' := |targets|, cuts + [|t2|];
    assert After(n, first, visits + 1) == next;
    assert targets[next] in targets;
    forall h | 0 <= h < visits + 1
      ensures TurnAt(r0, i0, r2, i2, targets, first, cuts', t2, h)
    {
      if h < visits {
        assert TurnAt(r0, i0, r1, i1, targets, first, cuts, t1, h);
        TurnStays(r0, i0, r1, i1, r2, i2, targets, first, next, visits, cuts, t1, t2, h);
      } else {
        TurnAdded(r0, i0, r1, i1, r2, i2, targets, first, next, visits, cuts, t1, t2);
      }
    }
  }

  /** Earlier turns stay as they were. */
  lemma TurnStays(r0: Lists, i0: map<Target, int>, r1: Lists, i1: map<Target, int>, r2: Lists, i2: map<Target, int>,
                  targets: seq<Target>, first: int, next: int, visits: nat, cuts: seq<nat>, t1: seq<(Item, Status)>,
                  t2: seq<(Item, Status)>, h: nat)
    requires TurnAt(r0, i0, r1, i1, targets, first, cuts, t1, h) && h < visits < |targets| && Distinct(targets)
    requires |cuts| == visits + 1 && -1 <= first < |targets|
    requires 0 <= next < |targets| && Distance(|targets|, first, next) == visits + 1
    requires |t1| <= |t2| && t2[..|t1|] == t1
    requires forall t :: t != targets[next] ==> ListAt(r2, t) == ListAt(r1, t) && IndexAt(i2, t) == IndexAt(i1, t)
    ensures TurnAt(r0, i0, r2, i2, targets, first, cuts + [|t2|], t2, h)
  {
    hide PolledRun, ListAt, IndexAt;
    var p := After(|targets|, first, h + 1);
    assert Distance(|targets|, first, p) == h + 1;
    assert targets[p] != targets[next];
    SamePart(t1, t2, cuts[h], cuts[h + 1]);
  }

  lemma TurnAdded(r0: Lists, i0: map<Target, int>, r1: Lists, i1: map<Target, int>, r2: Lists, i2: map<Target, int>,
                  targets: seq<Target>, first: int, next: int, visits: nat, cuts: seq<nat>, t1: seq<(Item, Status)>,
                  t2: seq<(Item, Status)>)
    requires |cuts| == visits + 1 && cuts[visits] == |t1| <= |t2|
    requires 0 <= next < |targets| && After(|targets|, first, visits + 1) == next
    requires ListAt(r1, targets[next]) == ListAt(r0, targets[next])
    requires IndexAt(i1, targets[next]) == IndexAt(i0, targets[next])
    requires Turn(r1, i1, r2, i2, targets[next], t2[|t1|..])
    ensures TurnAt(r0, i0, r2, i2, targets, first, cuts + [|t2|], t2, visits)
  {
    hide PolledRun, ListAt, IndexAt;
    assert t2[|t1|..|t2|] == t2[|t1|..];
  }

  /** The index of the next target is one step further. */
  lemma SweptNext(r0: Lists, r1: Lists, targets: seq<Target>, first: int, last: int, next: int, visits: nat)
    requires Swept(r0, r1, targets, first, last, visits, false) && visits < |targets|
    requires next == if last + 1 < |targets| then last + 1 else 0
    ensures Distance(|targets|, first, next) == visits + 1
  {
  }

  lemma TargetsExist(items: seq<Item>)
    requires WellFormed(items)
    ensures TargetsOf(items) != []
  {
    TargetKnown(items, items[0]);
  }

  lemma RunningMembers(items: seq<Item>, st: State, limbo: set<Item>)
    requires Partition(items, st, limbo)
    ensures Elements(st.running) == WithStatus(st.status, D) && Separate(st.running)
  {
    ListsMembers(st.running, WithStatus(st.status, D));
  }

  /** While there are polls left some target not yet visited has running items. */
  lemma SomeRunning(items: seq<Item>, outcome: StatusMap, targets: seq<Target>, s0: State, s1: State, limbo: set<Item>,
                    launched: set<Item>, r0: nat, r1: nat, polled: nat, budget: nat, first: int, last: int, visits: nat)
    requires Good(items, s1, limbo, launched) && targets == TargetsOf(items) && targets != []
    requires Progress(items, outcome, s0, s1, r0, r1, polled)
    requires polled < budget <= |WithStatus(s0.status, D)|
    requires Swept(s0.running, s1.running, targets, first, last, visits, false)
    ensures visits < |targets|
  {
    hide Advances, Faithful, TargetsOf;
    var i :| i in WithStatus(s1.status, D);
    assert i in ListAt(s1.running, i.target);
    assert i in items;
    TargetKnown(items, i);
    var p := Pos(targets, i.target);
    Unvisited(s0.running, s1.running, targets, first, last, visits, p);
  }

  /** A target that has running items was not visited. */
  lemma Unvisited(r0: Lists, r1: Lists, targets: seq<Target>, first: int, last: int, visits: nat, p: nat)
    requires Swept(r0, r1, targets, first, last, visits, false) && p < |targets| && ListAt(r1, targets[p]) != []
    ensures visits < Distance(|targets|, first, p) <= |targets|
  {
    assert p != last || visits == 0;
  }
}
