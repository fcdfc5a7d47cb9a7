/** Stock notions about sequences. */
module Sequences {

  ghost predicate Distinct<T(!new)>(s: seq<T>) {
    forall i, j :: 0 <= i < j < |s| ==> s[i] != s[j]
  }

  ghost function Members<T>(s: seq<T>): set<T> {
    set i | i in s
  }

  function Reverse<T>(s: seq<T>): (r: seq<T>)
    ensures |r| == |s|
  {
    seq(|s|, i requires 0 <= i < |s| => s[|s| - 1 - i])
  }

  function Sum(s: seq<nat>): nat {
    if s == [] then 0 else s[0] + Sum(s[1..])
  }

  lemma {:induction false} SumSnoc(s: seq<nat>, n: nat)
    ensures Sum(s + [n]) == Sum(s) + n
  {
    if s == [] {
      assert [] + [n] == [n];
    } else {
      assert (s + [n])[1..] == s[1..] + [n];
      SumSnoc(s[1..], n);
    }
  }

  // ----- the order of elements -----

  /** Where an element first stands; the length of the sequence if it does not occur. */
  function IndexOf<T(==)>(s: seq<T>, x: T): (n: nat)
    ensures n <= |s| && (n < |s| <==> x in s)
    ensures n < |s| ==> s[n] == x
    ensures forall i :: 0 <= i < n ==> s[i] != x
  {
    if s == [] || s[0] == x then 0 else 1 + IndexOf(s[1..], x)
  }

  /** The elements of `part` occur in `s`, and in the order in which they first stand there. */
  ghost predicate InOrder<T(!new)>(s: seq<T>, part: seq<T>) {
    && (forall x :: x in part ==> x in s)
    && forall a, b :: 0 <= a < b < |part| ==> IndexOf(s, part[a]) < IndexOf(s, part[b])
  }

  lemma IndexHere<T>(s: seq<T>, n: nat)
    requires n < |s| && forall i :: 0 <= i < n ==> s[i] != s[n]
    ensures IndexOf(s, s[n]) == n
  {
  }

  lemma InOrderDistinct<T(!new)>(s: seq<T>, part: seq<T>)
    requires InOrder(s, part)
    ensures Distinct(part)
  {
  }

  lemma InOrderSelf<T(!new)>(s: seq<T>)
    requires Distinct(s)
    ensures InOrder(s, s)
  {
    forall a | 0 <= a < |s|
      ensures IndexOf(s, s[a]) == a
    {
      IndexHere(s, a);
    }
  }

  /** Part of a part. */
  lemma InOrderPart<T(!new)>(s: seq<T>, part: seq<T>, sub: seq<T>)
    requires InOrder(s, part) && InOrder(part, sub)
    ensures InOrder(s, sub)
  {
    forall a, b | 0 <= a < b < |sub|
      ensures IndexOf(s, sub[a]) < IndexOf(s, sub[b])
    {
      var i, j := IndexOf(part, sub[a]), IndexOf(part, sub[b]);
      assert i < j && part[i] == sub[a] && part[j] == sub[b];
    }
  }

  lemma InOrderFront<T(!new)>(s: seq<T>, part: seq<T>, x: T)
    requires InOrder(s, part) && x !in s
    ensures InOrder([x] + s, part) && InOrder([x] + s, [x] + part)
  {
    assert ([x] + s)[1..] == s;
    assert forall y :: y in part ==> IndexOf([x] + s, y) == 1 + IndexOf(s, y);
    assert IndexOf([x] + s, x) == 0;
  }

  lemma InOrderBack<T(!new)>(s: seq<T>, part: seq<T>, x: T)
    requires InOrder(s, part) && x !in s
    ensures InOrder(s + [x], part) && InOrder(s + [x], part + [x])
  {
    forall y | y in part
      ensures IndexOf(s + [x], y) == IndexOf(s, y)
    {
      var n := IndexOf(s, y);
      assert s[n] == (s + [x])[n];
      IndexHere(s + [x], n);
    }
    IndexHere(s + [x], |s|);
  }

  /** The sequence may grow by any element, the part by a new one. */
  lemma InOrderMore<T(!new)>(s: seq<T>, part: seq<T>, x: T)
    requires InOrder(s, part)
    ensures InOrder(s + [x], part) && (x !in s ==> InOrder(s + [x], part + [x]))
  {
    if x !in s {
      InOrderBack(s, part, x);
    } else {
      forall y | y in part
        ensures IndexOf(s + [x], y) == IndexOf(s, y)
      {
        var n := IndexOf(s, y);
        assert s[n] == (s + [x])[n];
        IndexHere(s + [x], n);
      }
    }
  }

  lemma InOrderMembers<T(!new)>(s: seq<T>, part: seq<T>)
    requires InOrder(s, part)
    ensures forall x :: x in part ==> x in s
  {
  }

  /** Leaving one element out. */
  lemma InOrderWithout<T(!new)>(s: seq<T>, part: seq<T>, n: nat)
    requires InOrder(s, part) && n < |part|
    ensures InOrder(s, part[..n] + part[n + 1..])
  {
    var sub := part[..n] + part[n + 1..];
    forall a | 0 <= a < |sub|
      ensures sub[a] == part[if a < n then a else a + 1]
    {
    }
  }
}
