/** Lexicographic order on terms, and the sorted duplicate-free term list kept per document. */
module TermOrder {
  import opened Prelude

  predicate Less(a: string, b: string) {
    if b == [] then false
    else if a == [] then true
    else if a[0] != b[0] then a[0] < b[0]
    else Less(a[1..], b[1..])
  }

  /** The strings part at position `i`, where the first ends or has the smaller character. */
  ghost predicate LessAt(a: string, b: string, i: nat) {
    && i <= |a| && i < |b| && a[..i] == b[..i]
    && (i == |a| || a[i] < b[i])
  }

  lemma LessAtTail(a: string, b: string, i: nat)
    requires a != "" && b != "" && a[0] == b[0]
    ensures LessAt(a[1..], b[1..], i) <==> LessAt(a, b, i + 1)
  {
    if i < |a| && i < |b| {
      assert a[..i + 1] == [a[0]] + a[1..][..i] && b[..i + 1] == [b[0]] + b[1..][..i];
      assert a[1..][..i] == a[..i + 1][1..] && b[1..][..i] == b[..i + 1][1..];
    }
  }

  lemma SameFront(a: string, b: string, i: nat)
    requires LessAt(a, b, i)
    ensures i > 0 ==> a != "" && b != "" && a[0] == b[0]
  {
    if i > 0 {
      assert a[..i][0] == b[..i][0];
    }
  }

  /** The order is that of dictionaries. */
  lemma {:induction false} LessMeans(a: string, b: string)
    ensures Less(a, b) <==> exists i: nat :: LessAt(a, b, i)
  {
    if a == "" || b == "" || a[0] != b[0] {
      assert Less(a, b) ==> LessAt(a, b, 0);
      if i: nat :| LessAt(a, b, i) {
        SameFront(a, b, i);
      }
    } else {
      LessMeans(a[1..], b[1..]);
      if i: nat :| LessAt(a[1..], b[1..], i) {
        LessAtTail(a, b, i);
        assert LessAt(a, b, i + 1);
      }
      if i: nat :| LessAt(a, b, i) {
        LessAtTail(a, b, i - 1);
      }
    }
  }

  lemma {:induction false} LessTotal(a: string, b: string)
    ensures a == b || Less(a, b) || Less(b, a)
  {
    if a != [] && b != [] && a[0] == b[0] {
      LessTotal(a[1..], b[1..]);
      assert a == [a[0]] + a[1..] && b == [b[0]] + b[1..];
    }
  }

  lemma {:induction false} LessTransitive(a: string, b: string, c: string)
    requires Less(a, b) && Less(b, c)
    ensures Less(a, c)
  {
    if a != [] && a[0] == b[0] == c[0] {
      LessTransitive(a[1..], b[1..], c[1..]);
    }
  }

  lemma {:induction false} LessIrreflexive(a: string)
    ensures !Less(a, a)
  {
    if a != [] {
      LessIrreflexive(a[1..]);
    }
  }

  ghost predicate StrictlySorted(s: seq<string>) {
    forall i, j :: 0 <= i < j < |s| ==> Less(s[i], s[j])
  }

  /** Inserts `t` into a sorted list unless it is already there. */
  function InsertTerm(s: seq<string>, t: string): seq<string> {
    if s == [] then [t]
    else if s[0] == t then s
    else if Less(s[0], t) then [s[0]] + InsertTerm(s[1..], t)
    else [t] + s
  }

  /** `sort` followed by `dedup`. */
  function SortDedup(tokens: seq<string>): seq<string> {
    if tokens == [] then [] else InsertTerm(SortDedup(tokens[1..]), tokens[0])
  }

  lemma {:induction false} InsertTermElements(s: seq<string>, t: string)
    ensures forall x :: x in InsertTerm(s, t) <==> x in s || x == t
  {
    if s != [] && s[0] != t && Less(s[0], t) {
      InsertTermElements(s[1..], t);
      assert s == [s[0]] + s[1..];
    }
  }

  lemma {:induction false} InsertTermSorted(s: seq<string>, t: string)
    requires StrictlySorted(s)
    ensures StrictlySorted(InsertTerm(s, t))
  {
    if s != [] && s[0] != t {
      if Less(s[0], t) {
        var rest := InsertTerm(s[1..], t);
        InsertTermSorted(s[1..], t);
        InsertTermElements(s[1..], t);
        forall i | 0 <= i < |rest| ensures Less(s[0], rest[i]) {
          assert rest[i] in s[1..] || rest[i] == t;
        }
      } else {
        LessTotal(s[0], t);
        forall i | 0 <= i < |s| ensures Less(t, s[i]) {
          if i > 0 {
            LessTransitive(t, s[0], s[i]);
          }
        }
      }
    }
  }

  lemma {:induction false} SortDedupCorrect(tokens: seq<string>)
    ensures StrictlySorted(SortDedup(tokens))
    ensures forall x :: x in SortDedup(tokens) <==> x in tokens
  {
    if tokens != [] {
      SortDedupCorrect(tokens[1..]);
      InsertTermSorted(SortDedup(tokens[1..]), tokens[0]);
      InsertTermElements(SortDedup(tokens[1..]), tokens[0]);
      assert tokens == [tokens[0]] + tokens[1..];
    }
  }

  lemma SortedHead(s: seq<string>, t: seq<string>)
    requires StrictlySorted(s) && StrictlySorted(t)
    requires s != [] && t != [] && s[0] in t && t[0] in s
    ensures s[0] == t[0]
  {
    if s[0] != t[0] {
      var i :| 0 <= i < |t| && t[i] == s[0];
      var j :| 0 <= j < |s| && s[j] == t[0];
      LessTransitive(s[0], t[0], s[0]);
      LessIrreflexive(s[0]);
    }
  }

  /** A strictly sorted list is determined by its elements. */
  lemma {:induction false} SortedUnique(s: seq<string>, t: seq<string>)
    requires StrictlySorted(s) && StrictlySorted(t)
    requires forall x :: x in s <==> x in t
    ensures s == t
  {
    assert forall i :: 0 <= i < |s| ==> s[i] in t;
    assert forall i :: 0 <= i < |t| ==> t[i] in s;
    if s != [] && t != [] {
      SortedHead(s, t);
      assert s == [s[0]] + s[1..] && t == [t[0]] + t[1..];
      LessIrreflexive(s[0]);
      assert s[0] !in s[1..] && t[0] !in t[1..];
      forall x ensures x in s[1..] <==> x in t[1..] {
        assert x in s[1..] <==> x in s && x != s[0];
        assert x in t[1..] <==> x in t && x != t[0];
      }
      SortedUnique(s[1..], t[1..]);
    }
  }

  lemma SortedIsDistinct(s: seq<string>)
    requires StrictlySorted(s)
    ensures NoDuplicates(s)
  {
    forall i, j | 0 <= i < j < |s| ensures s[i] != s[j] {
      LessIrreflexive(s[i]);
    }
  }
}
