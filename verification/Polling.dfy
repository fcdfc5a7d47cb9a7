/** Circular polling of a list that shrinks while it is polled, and the rounding used to share
    free slots between targets. */
module Polling {

  import opened Arith
  import opened Wrappers

  // ----- get_next_item -----

  /** The index after `index`, back to the start at the end of a list of `n` elements. */
  function NextIndex(n: nat, index: int): int {
    if 0 <= index + 1 < n then index + 1 else 0
  }

  /** `get_next_item`; nothing is returned where the original raises IndexError. */
  function GetNextItem<T>(arr: seq<T>, index: int): (r: Option<(T, int)>)
    requires index >= -1
    ensures r.None? <==> arr == []
    ensures r.Some? ==> 0 <= r.value.1 < |arr| && r.value.0 == arr[r.value.1]
    ensures r.Some? ==> r.value.1 == if index + 1 < |arr| then index + 1 else 0
  {
    var next := NextIndex(|arr|, index);
    if next < |arr| then Some((arr[next], next)) else None
  }

  /** What a run of polls does to one target's list: the items visited, the list that remains
      and the last index polled. `answers` tells for each poll whether the item had finished. */
  datatype Run<T> = Run(visited: seq<T>, rest: seq<T>, index: int)

  /** The list after its `n`-th element was polled, and whether that element is dropped. */
  function Drop<T>(l: seq<T>, n: nat, finished: bool): seq<T>
    requires n < |l|
  {
    if finished then l[..n] + l[n + 1..] else l
  }

  function PollRun<T>(l: seq<T>, index: int, answers: seq<bool>): (r: Run<T>)
    ensures index >= -1 ==> r.index >= -1
    decreases |answers|
  {
    if l == [] || answers == [] then Run([], l, index)
    else
      var n := NextIndex(|l|, index);
      var tail := PollRun(Drop(l, n, answers[0]), if answers[0] then n - 1 else n, answers[1..]);
      Run([l[n]] + tail.visited, tail.rest, tail.index)
  }

  lemma {:induction false} PollRunSnoc<T>(l: seq<T>, index: int, answers: seq<bool>, a: bool)
    requires index >= -1 && PollRun(l, index, answers).rest != []
    ensures var r := PollRun(l, index, answers);
            var n := NextIndex(|r.rest|, r.index);
            PollRun(l, index, answers + [a]) ==
            Run(r.visited + [r.rest[n]], Drop(r.rest, n, a), if a then n - 1 else n)
    decreases |answers|
  {
    if answers == [] {
      var n := NextIndex(|l|, index);
      assert ([] + [a])[1..] == [];
      assert PollRun(l, index, [] + [a]) == Run([l[n]] + [], Drop(l, n, a), if a then n - 1 else n);
    } else if l != [] {
      var n := NextIndex(|l|, index);
      var l', index' := Drop(l, n, answers[0]), if answers[0] then n - 1 else n;
      var r, r' := PollRun(l', index', answers[1..]), PollRun(l', index', answers[1..] + [a]);
      assert (answers + [a])[1..] == answers[1..] + [a];
      assert PollRun(l, index, answers) == Run([l[n]] + r.visited, r.rest, r.index);
      assert PollRun(l, index, answers + [a]) == Run([l[n]] + r'.visited, r'.rest, r'.index);
      assert index' >= -1;
      hide PollRun, Drop, NextIndex;
      PollRunSnoc(l', index', answers[1..], a);
      var x := r.rest[NextIndex(|r.rest|, r.index)];
      assert [l[n]] + (r.visited + [x]) == ([l[n]] + r.visited) + [x];
    }
  }

  function Rotate<T>(l: seq<T>, p: int): (r: seq<T>)
    requires 0 <= p <= |l|
    ensures |r| == |l|
  {
    l[p..] + l[..p]
  }

  lemma RotateStep<T>(l: seq<T>, n: nat, finished: bool)
    requires n < |l|
    ensures var l' := Drop(l, n, finished);
            var next := NextIndex(|l'|, if finished then n - 1 else n);
            next <= |l'| && Rotate(l', next) == Rotate(l, n)[1..] + if finished then [] else [l[n]]
  {
  }

  /** Polling visits the rotated list from the front. */
  lemma {:induction false} RoundRobinFrom<T>(l: seq<T>, index: int, answers: seq<bool>, unvisited: seq<T>, kept: seq<T>)
    requires index >= -1 && |answers| == |unvisited|
    requires Rotate(l, NextIndex(|l|, index)) == unvisited + kept
    ensures PollRun(l, index, answers).visited == unvisited
    decreases |answers|
  {
    if answers != [] {
      var n := NextIndex(|l|, index);
      assert |l| == |unvisited + kept|;
      assert l[n] == Rotate(l, n)[0] == unvisited[0];
      var kept' := kept + if answers[0] then [] else [l[n]];
      var l', index' := Drop(l, n, answers[0]), if answers[0] then n - 1 else n;
      assert PollRun(l, index, answers).visited == [l[n]] + PollRun(l', index', answers[1..]).visited;
      RotateStep(l, n, answers[0]);
      assert Rotate(l, n)[1..] == unvisited[1..] + kept;
      assert unvisited == [l[n]] + unvisited[1..];
      hide PollRun, Drop, Rotate, NextIndex;
      RoundRobinFrom(l', index', answers[1..], unvisited[1..], kept');
    }
  }

  /** As many consecutive polls as there were running items visit each of them exactly once,
      in circular order, whichever of them finish and are removed on the way. */
  lemma RoundRobin<T>(l: seq<T>, index: int, answers: seq<bool>)
    requires index >= -1 && |answers| == |l|
    ensures PollRun(l, index, answers).visited == Rotate(l, NextIndex(|l|, index))
    ensures multiset(PollRun(l, index, answers).visited) == multiset(l)
  {
    var n := NextIndex(|l|, index);
    assert Rotate(l, n) == Rotate(l, n) + [];
    RoundRobinFrom(l, index, answers, Rotate(l, n), []);
    assert l == l[..n] + l[n..];
  }

  lemma {:induction false} VisitedPrefix<T>(l: seq<T>, index: int, answers: seq<bool>, k: nat)
    requires k <= |answers| && |PollRun(l, index, answers).visited| == |answers|
    ensures PollRun(l, index, answers[..k]).visited == PollRun(l, index, answers).visited[..k]
    decreases |answers|
  {
    hide Drop;
    if k > 0 && l != [] {
      var n := NextIndex(|l|, index);
      var l', index' := Drop(l, n, answers[0]), if answers[0] then n - 1 else n;
      assert answers[..k][1..] == answers[1..][..k - 1];
      VisitedPrefix(l', index', answers[1..], k - 1);
    }
  }

  // ----- round() -----

  /** Python's `round(num / den)`: to the nearest integer, ties to the even one. */
  function Round(num: nat, den: nat): nat
    requires den > 0
  {
    var q, r := num / den, num % den;
    if 2 * r < den || (2 * r == den && q % 2 == 0) then q else q + 1
  }

  /** `n` is a whole number nearest to `num / den`, and even if there are two. */
  predicate Nearest(n: nat, num: nat, den: nat) {
    && 2 * num <= 2 * (n * den) + den && 2 * (n * den) <= 2 * num + den
    && (2 * num == 2 * (n * den) + den || 2 * (n * den) == 2 * num + den ==> n % 2 == 0)
  }

  /** Rounding gives that number, and there is no other. */
  lemma RoundIsNearest(n: nat, num: nat, den: nat)
    requires den > 0
    ensures n == Round(num, den) <==> Nearest(n, num, den)
  {
    var q, r := num / den, num % den;
    assert num == q * den + r;
    assert (q + 1) * den == q * den + den;
    if n < q {
      MulStep(n, q, den);
    } else if n > q + 1 {
      MulStep(q + 1, n, den);
    }
  }

  lemma RoundMonotone(a: nat, b: nat, d: nat)
    requires d > 0 && a <= b
    ensures Round(a, d) <= Round(b, d)
  {
    var q, q' := a / d, b / d;
    assert a == q * d + a % d && b == q' * d + b % d;
    if q' < q {
      MulStep(q', q, d);
    } else if q == q' {
      assert a % d <= b % d;
    }
  }

  /** A share of `s` whole slots and `x` fractions rounds to more than `s` exactly when `x` is
      more than half of one, or exactly half and `s` odd. */
  lemma RoundExceeds(s: nat, x: nat, d: nat)
    requires d > 0
    ensures Round(s * d + x, d) >= s
    ensures Round(s * d + x, d) > s <==> 2 * x > d || (2 * x == d && s % 2 == 1)
  {
    var a := s * d + x;
    var q, r := x / d, x % d;
    assert x == q * d + r;
    assert (s + q) * d == s * d + q * d;
    DivModUnique(a, d, s + q, r);
    if q > 0 {
      MulStep(0, q, d);
    }
  }
}
