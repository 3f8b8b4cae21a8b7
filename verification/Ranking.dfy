/** Descending stable sort by a real key, the order every ranking of the retrieval stack uses. */
module Ranking {
  import opened Prelude

  ghost predicate SortedDesc<T>(s: seq<T>, key: T -> real) {
    forall i, j :: 0 <= i < j < |s| ==> key(s[i]) >= key(s[j])
  }

  /** Places `x` after every element whose key is at least its own. */
  function InsertDesc<T>(s: seq<T>, key: T -> real, x: T): seq<T> {
    if s == [] then [x]
    else if key(s[0]) >= key(x) then [s[0]] + InsertDesc(s[1..], key, x)
    else [x] + s
  }

  /** Later elements are inserted behind earlier ones with the same key. */
  function SortDesc<T>(s: seq<T>, key: T -> real): seq<T> {
    if s == [] then [] else InsertDesc(SortDesc(s[..|s| - 1], key), key, s[|s| - 1])
  }

  lemma SortDescSnoc<T>(s: seq<T>, key: T -> real, x: T)
    ensures SortDesc(s + [x], key) == InsertDesc(SortDesc(s, key), key, x)
  {
    assert (s + [x])[..|s|] == s;
  }

  lemma {:induction false} InsertDescElements<T>(s: seq<T>, key: T -> real, x: T)
    ensures multiset(InsertDesc(s, key, x)) == multiset(s) + multiset{x}
  {
    if s != [] {
      assert s == [s[0]] + s[1..];
      InsertDescElements(s[1..], key, x);
    }
  }

  lemma {:induction false} InsertDescSorted<T>(s: seq<T>, key: T -> real, x: T)
    requires SortedDesc(s, key)
    ensures SortedDesc(InsertDesc(s, key, x), key)
  {
    if s != [] && key(s[0]) >= key(x) {
      var rest := InsertDesc(s[1..], key, x);
      InsertDescSorted(s[1..], key, x);
      InsertDescElements(s[1..], key, x);
      forall i | 0 <= i < |rest| ensures key(s[0]) >= key(rest[i]) {
        assert rest[i] in multiset(rest);
        assert rest[i] in s[1..] || rest[i] == x;
      }
    }
  }

  /** The sort is a permutation in descending order. */
  lemma {:induction false} SortDescCorrect<T>(s: seq<T>, key: T -> real)
    ensures SortedDesc(SortDesc(s, key), key)
    ensures multiset(SortDesc(s, key)) == multiset(s)
    ensures |SortDesc(s, key)| == |s|
  {
    if s != [] {
      var init, x := s[..|s| - 1], s[|s| - 1];
      assert s == init + [x];
      SortDescCorrect(init, key);
      InsertDescSorted(SortDesc(init, key), key, x);
      InsertDescElements(SortDesc(init, key), key, x);
    }
    assert |multiset(SortDesc(s, key))| == |multiset(s)|;
  }

  lemma SortDescMembers<T>(s: seq<T>, key: T -> real)
    ensures forall x :: x in SortDesc(s, key) <==> x in s
  {
    SortDescCorrect(s, key);
    forall x ensures x in SortDesc(s, key) <==> x in s {
      assert x in SortDesc(s, key) <==> x in multiset(SortDesc(s, key));
    }
  }

  /** The order of a ranking: larger key first, equal keys by increasing id. */
  ghost predicate Ahead<T>(x: T, y: T, key: T -> real, id: T -> int) {
    key(x) > key(y) || (key(x) == key(y) && id(x) < id(y))
  }

  ghost predicate Canonical<T>(s: seq<T>, key: T -> real, id: T -> int) {
    forall i, j :: 0 <= i < j < |s| ==> Ahead(s[i], s[j], key, id)
  }

  lemma CanonicalCons<T>(x: T, s: seq<T>, key: T -> real, id: T -> int)
    requires Canonical(s, key, id)
    requires forall y :: y in s ==> Ahead(x, y, key, id)
    ensures Canonical([x] + s, key, id)
  {
    forall i, j | 0 <= i < j < |[x] + s| ensures Ahead(([x] + s)[i], ([x] + s)[j], key, id) {
      assert ([x] + s)[j] == s[j - 1];
    }
  }

  lemma {:induction false} InsertDescCanonical<T>(s: seq<T>, key: T -> real, id: T -> int, x: T)
    requires Canonical(s, key, id)
    requires forall y :: y in s ==> id(y) < id(x)
    ensures Canonical(InsertDesc(s, key, x), key, id)
  {
    if s != [] {
      if key(s[0]) >= key(x) {
        var rest := InsertDesc(s[1..], key, x);
        InsertDescCanonical(s[1..], key, id, x);
        InsertDescElements(s[1..], key, x);
        forall y | y in rest ensures Ahead(s[0], y, key, id) {
          assert y in multiset(rest);
          assert y in s[1..] || y == x;
        }
        CanonicalCons(s[0], rest, key, id);
      } else {
        forall y | y in s ensures Ahead(x, y, key, id) {
          assert y == s[0] || Ahead(s[0], y, key, id);
        }
        CanonicalCons(x, s, key, id);
      }
    }
  }

  /** Stability: on a list of increasing ids the sort breaks ties by id. */
  lemma {:induction false} SortDescStable<T>(s: seq<T>, key: T -> real, id: T -> int)
    requires forall i, j :: 0 <= i < j < |s| ==> id(s[i]) < id(s[j])
    ensures Canonical(SortDesc(s, key), key, id)
  {
    if s != [] {
      var init, x := s[..|s| - 1], s[|s| - 1];
      SortDescStable(init, key, id);
      SortDescCorrect(init, key);
      forall y | y in SortDesc(init, key) ensures id(y) < id(x) {
        assert y in multiset(SortDesc(init, key));
        assert y in init;
      }
      InsertDescCanonical(SortDesc(init, key), key, id, x);
    }
  }

  lemma CanonicalHead<T>(s: seq<T>, t: seq<T>, key: T -> real, id: T -> int)
    requires Canonical(s, key, id) && Canonical(t, key, id)
    requires s != [] && t != [] && s[0] in t && t[0] in s
    ensures s[0] == t[0]
  {
    var i :| 0 <= i < |t| && t[i] == s[0];
    var j :| 0 <= j < |s| && s[j] == t[0];
  }

  lemma CanonicalTail<T>(s: seq<T>, key: T -> real, id: T -> int, x: T)
    requires Canonical(s, key, id) && s != []
    ensures Canonical(s[1..], key, id)
    ensures x in s[1..] <==> x in s && x != s[0]
  {
    assert s == [s[0]] + s[1..];
    assert forall j :: 0 < j < |s| ==> Ahead(s[0], s[j], key, id);
  }

  /** A canonical list is determined by its elements. */
  lemma {:induction false} CanonicalUnique<T(!new)>(s: seq<T>, t: seq<T>, key: T -> real, id: T -> int)
    requires Canonical(s, key, id) && Canonical(t, key, id)
    requires forall x :: x in s <==> x in t
    ensures s == t
  {
    assert s != [] ==> s[0] in t;
    assert t != [] ==> t[0] in s;
    if s != [] {
      CanonicalHead(s, t, key, id);
      CanonicalTail(s, key, id, s[0]);
      CanonicalTail(t, key, id, t[0]);
      var s', t' := s[1..], t[1..];
      forall x ensures x in s' <==> x in t' {
        CanonicalTail(s, key, id, x);
        CanonicalTail(t, key, id, x);
      }
      CanonicalUnique(s', t', key, id);
      assert s == [s[0]] + s' && t == [t[0]] + t';
    }
  }

  /** Only the first `k` places decide what the first `k` places are after an insertion. */
  lemma {:induction false} InsertTakeCongruence<T>(a: seq<T>, b: seq<T>, key: T -> real, x: T, k: nat)
    requires Take(a, k) == Take(b, k)
    ensures Take(InsertDesc(a, key, x), k) == Take(InsertDesc(b, key, x), k)
  {
    if k > 0 && a != [] {
      assert Take(a, k)[0] == a[0];
      assert Take(b, k)[0] == b[0];
      assert Take(a[1..], k - 1) == Take(a, k)[1..];
      assert Take(b[1..], k - 1) == Take(b, k)[1..];
      if key(a[0]) >= key(x) {
        InsertTakeCongruence(a[1..], b[1..], key, x, k - 1);
        TakeCons(a[0], InsertDesc(a[1..], key, x), k);
        TakeCons(b[0], InsertDesc(b[1..], key, x), k);
      } else {
        TakeCons(x, a, k);
        TakeCons(x, b, k);
        TakeShorter(a, b, k);
      }
    } else if k > 0 {
      assert b == [];
    }
  }

  lemma TakeCons<T>(x: T, s: seq<T>, k: nat)
    requires k > 0
    ensures Take([x] + s, k) == [x] + Take(s, k - 1)
  {
  }

  lemma TakeShorter<T>(a: seq<T>, b: seq<T>, k: nat)
    requires k > 0 && Take(a, k) == Take(b, k)
    ensures Take(a, k - 1) == Take(b, k - 1)
  {
    assert Take(Take(a, k), k - 1) == Take(a, k - 1);
    assert Take(Take(b, k), k - 1) == Take(b, k - 1);
  }

  /** An element worse than the first `k` does not enter them. */
  lemma {:induction false} InsertBelowTop<T>(s: seq<T>, key: T -> real, x: T, k: nat)
    requires k <= |s|
    requires forall i :: 0 <= i < k ==> key(s[i]) >= key(x)
    ensures Take(InsertDesc(s, key, x), k) == Take(s, k)
  {
    if k > 0 {
      InsertBelowTop(s[1..], key, x, k - 1);
      TakeCons(s[0], InsertDesc(s[1..], key, x), k);
      TakeCons(s[0], s[1..], k);
      assert s == [s[0]] + s[1..];
    }
  }
}
