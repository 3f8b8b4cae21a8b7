/** Small vocabulary shared by the other modules. */
module Prelude {

  datatype Option<+T> = None | Some(value: T)

  datatype Result<+T, +E> = Ok(value: T) | Err(error: E)

  /** The first `k` elements, or all of them when there are fewer. */
  function Take<T>(s: seq<T>, k: nat): seq<T> {
    if |s| <= k then s else s[..k]
  }

  function Max(x: real, y: real): real {
    if x < y then y else x
  }

  function Min(x: real, y: real): real {
    if y < x then y else x
  }

  /** Number of occurrences of `x` in `s`. */
  function Count<T(==)>(s: seq<T>, x: T): nat {
    if s == [] then 0 else (if s[0] == x then 1 else 0) + Count(s[1..], x)
  }

  lemma {:induction false} CountIsMultiplicity<T>(s: seq<T>, x: T)
    ensures Count(s, x) == multiset(s)[x]
  {
    if s != [] {
      assert s == [s[0]] + s[1..];
      CountIsMultiplicity(s[1..], x);
    }
  }

  lemma CountPositive<T>(s: seq<T>, x: T)
    ensures Count(s, x) > 0 <==> x in s
  {
    CountIsMultiplicity(s, x);
  }

  lemma CountAppend<T>(s: seq<T>, y: T, x: T)
    ensures Count(s + [y], x) == Count(s, x) + if x == y then 1 else 0
  {
    CountIsMultiplicity(s + [y], x);
    CountIsMultiplicity(s, x);
  }

  function Elements<T>(s: seq<T>): set<T> {
    set x | x in s
  }

  /** Concatenation of a list of lists. */
  function Flatten<T>(ss: seq<seq<T>>): seq<T> {
    if ss == [] then [] else ss[0] + Flatten(ss[1..])
  }

  lemma {:induction false} FlattenAppend<T>(ss: seq<seq<T>>, ts: seq<seq<T>>)
    ensures Flatten(ss + ts) == Flatten(ss) + Flatten(ts)
  {
    if ss == [] {
      assert ss + ts == ts;
    } else {
      assert (ss + ts)[1..] == ss[1..] + ts;
      FlattenAppend(ss[1..], ts);
    }
  }

  /** The state after `n` steps of a loop whose step also sees how many came before. */
  ghost function Iterate<S>(step: (nat, S) -> S, start: S, n: nat): S {
    if n == 0 then start else step(n - 1, Iterate(step, start, n - 1))
  }

  /** What holds at the start and is kept by every step holds after all of them. */
  lemma {:induction false} IterateKeeps<S(!new)>(step: (nat, S) -> S, start: S, n: nat, keeps: (nat, S) -> bool)
    requires keeps(0, start)
    requires forall i: nat, x: S {:trigger step(i, x)} :: i < n && keeps(i, x) ==> keeps(i + 1, step(i, x))
    ensures keeps(n, Iterate(step, start, n))
  {
    if n > 0 {
      IterateKeeps(step, start, n - 1, keeps);
    }
  }

  lemma FlattenSnoc<T>(ss: seq<seq<T>>, t: seq<T>)
    ensures Flatten(ss + [t]) == Flatten(ss) + t
  {
    FlattenAppend(ss, [t]);
    assert Flatten([t]) == t + Flatten<T>([]);
  }

  predicate NoDuplicates<T(==)>(s: seq<T>) {
    forall i, j :: 0 <= i < j < |s| ==> s[i] != s[j]
  }

  lemma {:induction false} DistinctLength<T>(s: seq<T>)
    requires NoDuplicates(s)
    ensures |Elements(s)| == |s|
  {
    if s != [] {
      var init, x := s[..|s| - 1], s[|s| - 1];
      DistinctLength(init);
      assert Elements(s) == Elements(init) + {x};
      assert x !in Elements(init);
    }
  }

  lemma {:induction false} DistinctMultiplicity<T>(s: seq<T>, x: T)
    requires NoDuplicates(s)
    ensures multiset(s)[x] <= 1
  {
    if s != [] {
      DistinctMultiplicity(s[1..], x);
      assert s == [s[0]] + s[1..];
      assert s[0] !in s[1..];
      assert multiset(s)[x] == (if s[0] == x then 1 else 0) + multiset(s[1..])[x];
    }
  }

  lemma RepeatedMultiplicity<T>(s: seq<T>, i: nat, j: nat)
    requires i < j < |s| && s[i] == s[j]
    ensures multiset(s)[s[i]] >= 2
  {
    var x := s[i];
    assert s == (s[..i] + [x] + s[i + 1..j]) + ([x] + s[j + 1..]);
  }

  lemma PermutedDistinct<T>(s: seq<T>, t: seq<T>)
    requires NoDuplicates(s) && multiset(s) == multiset(t)
    ensures NoDuplicates(t)
  {
    forall i, j | 0 <= i < j < |t| ensures t[i] != t[j] {
      DistinctMultiplicity(s, t[i]);
      if t[i] == t[j] {
        RepeatedMultiplicity(t, i, j);
      }
    }
  }

  function Indices(n: nat): seq<nat> {
    seq(n, i => i)
  }

  lemma IndicesMembers(n: nat)
    ensures forall u: nat :: u in Indices(n) <==> u < n
    ensures NoDuplicates(Indices(n))
  {
    forall u: nat ensures u in Indices(n) <==> u < n {
      assert u < n ==> Indices(n)[u] == u;
    }
  }

  ghost predicate Ascending(s: seq<nat>) {
    forall i, j :: 0 <= i < j < |s| ==> s[i] < s[j]
  }

  lemma AscendingSnoc(s: seq<nat>, x: nat)
    requires Ascending(s + [x])
    ensures Ascending(s)
    ensures forall y :: y in s ==> y < x
  {
    var t := s + [x];
    forall i, j | 0 <= i < j < |s| ensures s[i] < s[j] {
      assert t[i] < t[j];
    }
    forall y | y in s ensures y < x {
      var i :| 0 <= i < |s| && s[i] == y;
      assert t[i] < t[|s|];
    }
  }

  lemma LastAtMost(a: seq<nat>, b: seq<nat>)
    requires Ascending(b) && a != [] && b != [] && a[|a| - 1] in b
    ensures a[|a| - 1] <= b[|b| - 1]
  {
    var i :| 0 <= i < |b| && b[i] == a[|a| - 1];
  }

  lemma MembersOfInit(s: seq<nat>, z: nat)
    requires Ascending(s) && s != []
    ensures z in s[..|s| - 1] <==> z in s && z != s[|s| - 1]
  {
    assert s == s[..|s| - 1] + [s[|s| - 1]];
    AscendingSnoc(s[..|s| - 1], s[|s| - 1]);
  }

  /** An ascending list is determined by its members. */
  lemma {:induction false} AscendingUnique(a: seq<nat>, b: seq<nat>)
    requires Ascending(a) && Ascending(b) && forall x: nat :: x in a <==> x in b
    ensures a == b
  {
    assert a != [] ==> a[0] in b;
    assert b != [] ==> b[0] in a;
    if a != [] {
      LastAtMost(a, b);
      LastAtMost(b, a);
      var a', b' := a[..|a| - 1], b[..|b| - 1];
      forall z: nat ensures z in a' <==> z in b' {
        MembersOfInit(a, z);
        MembersOfInit(b, z);
      }
      AscendingUnique(a', b');
      assert a == a' + [a[|a| - 1]] && b == b' + [b[|b| - 1]];
    }
  }

  lemma IndicesSnoc(n: nat)
    ensures Indices(n + 1) == Indices(n) + [n]
  {
  }

  lemma {:induction false} SubsetSize<T>(a: set<T>, b: set<T>)
    requires a <= b
    ensures |a| <= |b|
    ensures |a| == |b| ==> a == b
  {
    if a != {} {
      var x :| x in a;
      SubsetSize(a - {x}, b - {x});
    }
  }

  // ---------------------------------------------------------------------
  // Spending a budget in order
  // ---------------------------------------------------------------------

  /** Takes items in order, skipping those the remaining budget does not cover. */
  function Fitting<T>(cost: T -> nat, items: seq<T>, budget: nat): seq<T> {
    if items == [] then []
    else if cost(items[0]) <= budget then [items[0]] + Fitting(cost, items[1..], budget - cost(items[0]))
    else Fitting(cost, items[1..], budget)
  }

  function TotalCost<T>(cost: T -> nat, items: seq<T>): nat {
    if items == [] then 0 else cost(items[0]) + TotalCost(cost, items[1..])
  }

  lemma {:induction false} FittingWithinBudget<T>(cost: T -> nat, items: seq<T>, budget: nat)
    ensures TotalCost(cost, Fitting(cost, items, budget)) <= budget
    ensures |Fitting(cost, items, budget)| <= |items|
    ensures forall x :: x in Fitting(cost, items, budget) ==> x in items
  {
    if items != [] {
      var left := if cost(items[0]) <= budget then budget - cost(items[0]) else budget;
      FittingWithinBudget(cost, items[1..], left);
      var rest := Fitting(cost, items[1..], left);
      assert ([items[0]] + rest)[1..] == rest;
    }
  }

  lemma FittingStep<T>(taken: seq<T>, x: T, rest: seq<T>)
    ensures taken + ([x] + rest) == (taken + [x]) + rest
  {
  }

  lemma {:induction false} TotalCostAppend<T>(cost: T -> nat, a: seq<T>, b: seq<T>)
    ensures TotalCost(cost, a + b) == TotalCost(cost, a) + TotalCost(cost, b)
  {
    if a == [] {
      assert a + b == b;
    } else {
      assert (a + b)[1..] == a[1..] + b;
      TotalCostAppend(cost, a[1..], b);
    }
  }

  /** No two items share an id. */
  ghost predicate DistinctBy<T>(id: T -> nat, items: seq<T>) {
    forall i, j :: 0 <= i < j < |items| ==> id(items[i]) != id(items[j])
  }

  lemma PermutedDistinctBy<T>(id: T -> nat, s: seq<T>, t: seq<T>)
    requires DistinctBy(id, s) && multiset(s) == multiset(t)
    ensures DistinctBy(id, t)
  {
    PermutedDistinct(s, t);
    forall i, j | 0 <= i < j < |t| ensures id(t[i]) != id(t[j]) {
      assert t[i] in multiset(t) && t[j] in multiset(t);
      var k :| 0 <= k < |s| && s[k] == t[i];
      var m :| 0 <= m < |s| && s[m] == t[j];
    }
  }
}
