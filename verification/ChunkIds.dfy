/** Chunk ids: the path, a colon and the chunk number in decimal. */
module ChunkIds {
  import opened Prelude

  function Digit(d: nat): char
    requires d < 10
  {
    "0123456789"[d]
  }

  function Decimal(n: nat): string {
    if n < 10 then [Digit(n)] else Decimal(n / 10) + [Digit(n % 10)]
  }

  function ChunkId(path: string, i: nat): string {
    path + ":" + Decimal(i)
  }

  lemma DigitInjective(a: nat, b: nat)
    requires a < 10 && b < 10 && Digit(a) == Digit(b)
    ensures a == b
  {
  }

  lemma {:induction false} DecimalDigits(n: nat)
    ensures |Decimal(n)| > 0 && forall k :: 0 <= k < |Decimal(n)| ==> Decimal(n)[k] != ':'
  {
    if n >= 10 {
      DecimalDigits(n / 10);
    }
  }

  /** The number a string of decimal digits stands for. */
  ghost function ValueOf(digits: string): nat
    requires forall k :: 0 <= k < |digits| ==> '0' <= digits[k] <= '9'
  {
    if digits == "" then 0
    else 10 * ValueOf(digits[..|digits| - 1]) + (digits[|digits| - 1] as int - '0' as int)
  }

  /** Decimal notation stands for the number and has no leading zero. */
  lemma {:induction false} DecimalMeans(n: nat)
    ensures forall k :: 0 <= k < |Decimal(n)| ==> '0' <= Decimal(n)[k] <= '9'
    ensures ValueOf(Decimal(n)) == n
    ensures n > 0 ==> Decimal(n)[0] != '0'
  {
    DigitMeans(n % 10);
    if n >= 10 {
      DecimalMeans(n / 10);
      assert Decimal(n)[..|Decimal(n)| - 1] == Decimal(n / 10);
    } else {
      assert [Digit(n)][..0] == "";
    }
  }

  lemma DigitMeans(d: nat)
    requires d < 10
    ensures '0' <= Digit(d) <= '9' && Digit(d) as int - '0' as int == d
  {
  }

  lemma {:induction false} DecimalInjective(a: nat, b: nat)
    requires Decimal(a) == Decimal(b)
    ensures a == b
  {
    DecimalDigits(a / 10);
    DecimalDigits(b / 10);
    var s, t := Decimal(a), Decimal(b);
    assert s[|s| - 1] == t[|t| - 1];
    assert s[|s| - 1] == Digit(a % 10) && t[|t| - 1] == Digit(b % 10);
    DigitInjective(a % 10, b % 10);
    if a >= 10 && b >= 10 {
      assert s[..|s| - 1] == Decimal(a / 10) && t[..|t| - 1] == Decimal(b / 10);
      DecimalInjective(a / 10, b / 10);
    }
  }

  lemma SameTail(p: string, d: string, q: string, e: string)
    requires p + ":" + d == q + ":" + e
    requires forall k :: 0 <= k < |e| ==> e[k] != ':'
    ensures |p| <= |q|
  {
    var s := p + ":" + d;
    assert s[|p|] == ':';
    assert s == q + ":" + e;
    assert forall k :: |q| < k < |s| ==> s[k] == e[k - |q| - 1];
  }

  /** The id determines the path and the number, even for paths that contain colons. */
  lemma ChunkIdInjective(p: string, i: nat, q: string, j: nat)
    requires ChunkId(p, i) == ChunkId(q, j)
    ensures p == q && i == j
  {
    DecimalDigits(i);
    DecimalDigits(j);
    SameTail(p, Decimal(i), q, Decimal(j));
    SameTail(q, Decimal(j), p, Decimal(i));
    var s := ChunkId(p, i);
    assert p == s[..|p|] && q == s[..|q|];
    assert Decimal(i) == s[|p| + 1..] && Decimal(j) == s[|q| + 1..];
    DecimalInjective(i, j);
  }

  /** The number an id gives within a path, if it is an id of that path. */
  ghost function NumberIn(path: string, id: string): Option<nat> {
    if exists i: nat :: id == ChunkId(path, i) then (var i: nat :| id == ChunkId(path, i); Some(i)) else None
  }

  lemma NumberOfId(path: string, i: nat)
    ensures NumberIn(path, ChunkId(path, i)) == Some(i)
  {
    var j: nat :| ChunkId(path, i) == ChunkId(path, j) && NumberIn(path, ChunkId(path, i)) == Some(j);
    ChunkIdInjective(path, i, path, j);
  }

  /** Ids of different paths never meet. */
  lemma NumberInOtherPath(path: string, i: nat, other: string)
    requires NumberIn(other, ChunkId(path, i)).Some?
    ensures other == path
  {
    var j: nat :| ChunkId(path, i) == ChunkId(other, j);
    ChunkIdInjective(path, i, other, j);
  }
}
