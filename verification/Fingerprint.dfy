/**
  The content fingerprint on bytes: the FNV-1a scheme of section 2 of draft-eastlake-fnv, with the multiplier the
  program uses. That multiplier is 2^44 + 2^8 + 0xb3, not the 2^40 + 2^8 + 0xb3 of the draft; it is odd all the same.
 */
module Fingerprints {
  const OFFSET: nat := 0xcbf2_9ce4_8422_2325
  const PRIME: nat := 0x1000_0000_01b3
  const MODULUS: nat := 0x1_0000_0000_0000_0000
  /** The inverse of the prime: their product is one more than a multiple of the modulus. */
  const INVERSE: nat := 0xb46dd957aff6957b

  const QUOTIENT: nat := 0xb46dd957c32

  newtype Byte = n: int | 0 <= n < 256

  /** Exclusive or of the low `bits` bits, digit by digit; the higher digits of `a` stay. */
  function Xor(a: nat, b: nat, bits: nat): nat {
    if bits == 0 then a
    else (if a % 2 == b % 2 then 0 else 1) + 2 * Xor(a / 2, b / 2, bits - 1)
  }

  function WrappingMul(x: nat, p: nat, m: nat): nat
    requires m > 0
  {
    (x * p) % m
  }

  function Mix(h: nat, b: Byte): nat {
    WrappingMul(Xor(h, b as nat, 8), PRIME, MODULUS)
  }

  function FingerprintFrom(h: nat, text: seq<Byte>): nat
    decreases |text|
  {
    if text == [] then h else FingerprintFrom(Mix(h, text[0]), text[1..])
  }

  function ContentFingerprintOf(text: seq<Byte>): nat {
    FingerprintFrom(OFFSET, text)
  }

  method ContentFingerprint(text: seq<Byte>) returns (h: nat)
    ensures h == ContentFingerprintOf(text)
  {
    h := OFFSET;
    for i := 0 to |text|
      invariant FingerprintFrom(h, text[i..]) == ContentFingerprintOf(text)
    {
      assert text[i..][1..] == text[i + 1..];
      h := Mix(h, text[i]);
    }
  }

  // ---------------------------------------------------------------------
  // Every step is a bijection on 64-bit states
  // ---------------------------------------------------------------------

  function Pow2(k: nat): nat {
    if k == 0 then 1 else 2 * Pow2(k - 1)
  }

  lemma {:induction false} XorUndo(a: nat, b: nat, bits: nat)
    ensures Xor(Xor(a, b, bits), b, bits) == a
  {
    if bits > 0 {
      XorUndo(a / 2, b / 2, bits - 1);
    }
  }

  /** Binary digit number `i`. */
  ghost function Bit(x: nat, i: nat): nat {
    if i == 0 then x % 2 else Bit(x / 2, i - 1)
  }

  /** Digit by digit: one exactly where the digits differ, and the higher digits of `a`. */
  lemma {:induction false} XorBits(a: nat, b: nat, bits: nat, i: nat)
    ensures Bit(Xor(a, b, bits), i) ==
            if i >= bits then Bit(a, i) else if Bit(a, i) == Bit(b, i) then 0 else 1
  {
    if bits > 0 && i > 0 {
      XorBits(a / 2, b / 2, bits - 1, i - 1);
    }
  }

  lemma {:induction false} XorByteInjective(a: nat, b: nat, c: nat, bits: nat)
    requires b < Pow2(bits) && c < Pow2(bits) && Xor(a, b, bits) == Xor(a, c, bits)
    ensures b == c
  {
    if bits > 0 {
      XorByteInjective(a / 2, b / 2, c / 2, bits - 1);
    }
  }

  lemma {:induction false} XorRange(a: nat, b: nat, bits: nat, n: nat)
    requires a < n * Pow2(bits)
    ensures Xor(a, b, bits) < n * Pow2(bits)
  {
    if bits > 0 {
      assert n * Pow2(bits) == 2 * (n * Pow2(bits - 1));
      XorRange(a / 2, b / 2, bits - 1, n);
    }
  }

  lemma XorStaysInRange(h: nat, b: Byte)
    requires h < MODULUS
    ensures Xor(h, b as nat, 8) < MODULUS
  {
    assert Pow2(8) == 256 by {
      assert Pow2(4) == 16;
    }
    XorRange(h, b as nat, 8, 0x100_0000_0000_0000);
  }

  /** A factor with an inverse modulo `m` can be cancelled modulo `m`. */
  lemma CancelFactor(x: nat, y: nat, p: nat, inverse: nat, q: nat, m: nat)
    requires x < m && y < m && p * inverse == 1 + q * m && WrappingMul(x, p, m) == WrappingMul(y, p, m)
    ensures x == y
  {
    var t := (x * p) / m - (y * p) / m;
    assert x * p - y * p == t * m;
    calc {
      (x - y) * (1 + q * m);
      (x - y) * (p * inverse);
      (x * p - y * p) * inverse;
      (t * m) * inverse;
      (t * inverse) * m;
    }
    var k := t * inverse - (x - y) * q;
    assert x - y == k * m by {
      assert (x - y) * (q * m) == ((x - y) * q) * m;
      assert k * m == (t * inverse) * m - ((x - y) * q) * m;
    }
    SmallMultiple(x - y, k, m);
  }

  lemma SmallMultiple(d: int, k: int, m: int)
    requires d == k * m && -m < d < m
    ensures d == 0
  {
    assert k >= 1 ==> k * m >= m;
    assert k <= -1 ==> k * m <= -m;
  }

  lemma InverseOfPrime()
    ensures PRIME * INVERSE == 1 + QUOTIENT * MODULUS
  {
  }

  lemma MultiplyInjective(x: nat, y: nat)
    requires x < MODULUS && y < MODULUS && WrappingMul(x, PRIME, MODULUS) == WrappingMul(y, PRIME, MODULUS)
    ensures x == y
  {
    InverseOfPrime();
    CancelFactor(x, y, PRIME, INVERSE, QUOTIENT, MODULUS);
  }

  /** For a fixed byte, different states stay different; for a fixed state, different bytes lead to different states. */
  lemma MixInjective(g: nat, h: nat, b: Byte, c: Byte)
    requires g < MODULUS && h < MODULUS && Mix(g, b) == Mix(h, c)
    ensures b == c ==> g == h
    ensures g == h ==> b == c
  {
    XorStaysInRange(g, b);
    XorStaysInRange(h, c);
    MultiplyInjective(Xor(g, b as nat, 8), Xor(h, c as nat, 8));
    if b == c {
      XorUndo(g, b as nat, 8);
      XorUndo(h, b as nat, 8);
    }
    if g == h {
      assert Pow2(8) == 256 by {
        assert Pow2(4) == 16;
      }
      XorByteInjective(g, b as nat, c as nat, 8);
    }
  }

  lemma {:induction false} FromInjective(g: nat, h: nat, text: seq<Byte>)
    requires g < MODULUS && h < MODULUS && FingerprintFrom(g, text) == FingerprintFrom(h, text)
    ensures g == h
    decreases |text|
  {
    if text != [] {
      FromInjective(Mix(g, text[0]), Mix(h, text[0]), text[1..]);
      MixInjective(g, h, text[0], text[0]);
    }
  }

  lemma {:induction false} FromSplit(h: nat, a: seq<Byte>, b: seq<Byte>)
    ensures FingerprintFrom(h, a + b) == FingerprintFrom(FingerprintFrom(h, a), b)
    decreases |a|
  {
    if a == [] {
      assert a + b == b;
    } else {
      assert (a + b)[1..] == a[1..] + b;
      FromSplit(Mix(h, a[0]), a[1..], b);
    }
  }

  /** One more byte: exclusive or into the low eight bits, then multiplication modulo 2^64. */
  lemma FingerprintSnoc(text: seq<Byte>, b: Byte)
    ensures ContentFingerprintOf([]) == 0xcbf29ce484222325
    ensures ContentFingerprintOf(text + [b])
         == Xor(ContentFingerprintOf(text), b as nat, 8) * 0x1000000001b3 % 0x1_0000_0000_0000_0000
  {
    FromSplit(OFFSET, text, [b]);
    assert [b][1..] == [];
  }

  lemma {:induction false} FromRange(h: nat, a: seq<Byte>)
    requires h < MODULUS
    ensures FingerprintFrom(h, a) < MODULUS
    decreases |a|
  {
    if a != [] {
      FromRange(Mix(h, a[0]), a[1..]);
    }
  }

  /** Texts of the same length that differ in exactly one byte never share a fingerprint. */
  lemma OneByteApart(a: seq<Byte>, b: seq<Byte>, i: nat)
    requires |a| == |b| && i < |a| && a[i] != b[i]
    requires forall k :: 0 <= k < |a| && k != i ==> a[k] == b[k]
    ensures ContentFingerprintOf(a) != ContentFingerprintOf(b)
  {
    var prefix, suffix := a[..i], a[i + 1..];
    assert a == prefix + ([a[i]] + suffix) && b == prefix + ([b[i]] + suffix);
    FromSplit(OFFSET, prefix, [a[i]] + suffix);
    FromSplit(OFFSET, prefix, [b[i]] + suffix);
    FromRange(OFFSET, prefix);
    var h := FingerprintFrom(OFFSET, prefix);
    assert ([a[i]] + suffix)[1..] == suffix && ([b[i]] + suffix)[1..] == suffix;
    if FingerprintFrom(Mix(h, a[i]), suffix) == FingerprintFrom(Mix(h, b[i]), suffix) {
      FromInjective(Mix(h, a[i]), Mix(h, b[i]), suffix);
      MixInjective(h, h, a[i], b[i]);
    }
  }
}
