// Fixed-width words: u64 values, the bitwise exclusive or the dedup keys use, and
// little-endian encodings.

module Wrappers {
  datatype Option<+T> = None | Some(value: T)
}

module Words {
  const U64_LIMIT: int := 0x1_0000_0000_0000_0000

  type u64 = x: int | 0 <= x < U64_LIMIT
  type byte = x: int | 0 <= x < 256

  // The exclusive or of the lowest bits.
  function Bit(a: nat, b: nat): nat {
    if a % 2 == b % 2 then 0 else 1
  }

  // Exclusive or, bit by bit from the least significant end.
  function Xor(a: nat, b: nat): nat
    decreases a + b
  {
    if a == 0 && b == 0 then 0 else 2 * Xor(a / 2, b / 2) + Bit(a, b)
  }

  function Pow2(n: nat): nat {
    if n == 0 then 1 else 2 * Pow2(n - 1)
  }

  lemma {:induction false} XorBound(a: nat, b: nat, n: nat)
    requires a < Pow2(n) && b < Pow2(n)
    ensures Xor(a, b) < Pow2(n)
    decreases n
  {
    if n > 0 && !(a == 0 && b == 0) {
      XorBound(a / 2, b / 2, n - 1);
    }
  }

  function Xor64(a: u64, b: u64): u64 {
    PowersOf64();
    XorBound(a, b, 64);
    Xor(a, b)
  }

  lemma {:induction false} Pow2Sum(m: nat, n: nat)
    ensures Pow2(m + n) == Pow2(m) * Pow2(n)
  {
    if m > 0 {
      Pow2Sum(m - 1, n);
    }
  }

  lemma PowersOf64()
    ensures Pow2(64) == U64_LIMIT
  {
    assert Pow2(8) == 256;
    Pow2Sum(8, 8);
    Pow2Sum(16, 16);
    Pow2Sum(32, 32);
  }

  lemma {:induction false} XorZero(a: nat)
    ensures Xor(a, 0) == a
  {
    if a > 0 {
      XorZero(a / 2);
    }
  }

  lemma {:induction false} XorSelf(a: nat)
    ensures Xor(a, a) == 0
  {
    if a > 0 {
      XorSelf(a / 2);
    }
  }

  lemma {:induction false} XorCommutes(a: nat, b: nat)
    ensures Xor(a, b) == Xor(b, a)
    decreases a + b
  {
    if a + b > 0 {
      XorCommutes(a / 2, b / 2);
    }
  }

  lemma {:induction false} XorAssociates(a: nat, b: nat, c: nat)
    ensures Xor(Xor(a, b), c) == Xor(a, Xor(b, c))
    decreases a + b + c
  {
    if a + b + c > 0 {
      XorAssociates(a / 2, b / 2, c / 2);
      var ab, bc := Xor(a, b), Xor(b, c);
      XorDigits(a, b);
      XorDigits(b, c);
      XorDigits(ab, c);
      XorDigits(a, bc);
      XorHalves(Xor(ab, c), Xor(a, bc));
    }
  }

  // The lowest bit of an exclusive or, and the rest of it.
  lemma {:induction false} XorDigits(a: nat, b: nat)
    ensures Xor(a, b) / 2 == Xor(a / 2, b / 2)
    ensures Xor(a, b) % 2 == Bit(a, b)
  {
    var rest, bit := Xor(a / 2, b / 2), Bit(a, b);
    assert Xor(a, b) == 2 * rest + bit;
    assert (2 * rest + bit) / 2 == rest && (2 * rest + bit) % 2 == bit;
  }

  lemma {:induction false} XorHalves(x: nat, y: nat)
    requires x / 2 == y / 2 && x % 2 == y % 2
    ensures x == y
  {
  }

  // hi followed by the n lowest bits of lo.
  function Glue(hi: nat, lo: nat, n: nat): nat
    decreases n
  {
    if n == 0 then hi else 2 * Glue(hi, lo / 2, n - 1) + lo % 2
  }

  lemma {:induction false} GlueIs(hi: nat, lo: nat, n: nat)
    requires lo < Pow2(n)
    ensures Glue(hi, lo, n) == hi * Pow2(n) + lo
    decreases n
  {
    if n > 0 {
      GlueIs(hi, lo / 2, n - 1);
      Double(hi, Pow2(n - 1));
    }
  }

  lemma Double(a: nat, b: nat)
    ensures a * (2 * b) == 2 * (a * b)
  {
  }

  lemma {:induction false} XorGlue(hi: nat, lo: nat, hi': nat, lo': nat, n: nat)
    ensures Xor(Glue(hi, lo, n), Glue(hi', lo', n)) == Glue(Xor(hi, hi'), Xor(lo, lo'), n)
    decreases n
  {
    if n > 0 {
      XorGlue(hi, lo / 2, hi', lo' / 2, n - 1);
      XorDigits(Glue(hi, lo, n), Glue(hi', lo', n));
      XorDigits(lo, lo');
      GlueDigits(hi, lo, n);
      GlueDigits(hi', lo', n);
      GlueDigits(Xor(hi, hi'), Xor(lo, lo'), n);
      XorHalves(Xor(Glue(hi, lo, n), Glue(hi', lo', n)), Glue(Xor(hi, hi'), Xor(lo, lo'), n));
    }
  }

  lemma GlueDigits(hi: nat, lo: nat, n: nat)
    requires n > 0
    ensures Glue(hi, lo, n) / 2 == Glue(hi, lo / 2, n - 1) && Glue(hi, lo, n) % 2 == lo % 2
  {
  }

  // Exclusive or works on the digits to the base 2^n one by one.
  lemma XorSplits(hi: nat, lo: nat, hi': nat, lo': nat, n: nat)
    requires lo < Pow2(n) && lo' < Pow2(n)
    ensures Xor(hi * Pow2(n) + lo, hi' * Pow2(n) + lo') == Xor(hi, hi') * Pow2(n) + Xor(lo, lo')
  {
    GlueIs(hi, lo, n);
    GlueIs(hi', lo', n);
    XorBound(lo, lo', n);
    GlueIs(Xor(hi, hi'), Xor(lo, lo'), n);
    XorGlue(hi, lo, hi', lo', n);
  }

  // Exclusive or with ones flips every bit.
  lemma {:induction false} XorOnes(a: nat, n: nat)
    requires a < Pow2(n)
    ensures Xor(a, Pow2(n) - 1) == Pow2(n) - 1 - a
    decreases n
  {
    if n > 0 {
      XorOnes(a / 2, n - 1);
      var ones := Pow2(n) - 1;
      assert ones / 2 == Pow2(n - 1) - 1 && ones % 2 == 1;
      XorDigits(a, ones);
      XorHalves(Xor(a, ones), ones - a);
    }
  }

  // Applying one mask twice gives the word back, so a mask is a bijection.
  lemma XorCancels(a: nat, m: nat)
    ensures Xor(Xor(a, m), m) == a
  {
    XorAssociates(a, m, m);
    XorSelf(m);
    XorZero(a);
  }

  lemma XorSolve(a: nat, m: nat, b: nat, n: nat)
    ensures Xor(a, m) == Xor(b, n) <==> Xor(a, b) == Xor(m, n)
  {
    if Xor(a, m) == Xor(b, n) {
      XorMove(a, m, b, n);
    }
    if Xor(a, b) == Xor(m, n) {
      XorMove(a, b, m, n);
    }
  }

  lemma XorMove(a: nat, m: nat, b: nat, n: nat)
    requires Xor(a, m) == Xor(b, n)
    ensures Xor(a, b) == Xor(m, n)
  {
    calc {
      Xor(m, n);
      { XorCancels(m, a); XorCommutes(m, a); }
      Xor(Xor(Xor(a, m), a), n);
      { XorAssociates(Xor(b, n), a, n); XorCommutes(a, n); }
      Xor(Xor(b, n), Xor(n, a));
      { XorAssociates(b, n, Xor(n, a)); XorAssociates(n, n, a); XorSelf(n); XorZero(a); XorCommutes(0, a); }
      Xor(b, a);
      { XorCommutes(a, b); }
      Xor(a, b);
    }
  }

  // ---------- little-endian bytes ----------

  function Pow256(n: nat): nat {
    if n == 0 then 1 else 256 * Pow256(n - 1)
  }

  function LeBytes(x: nat, n: nat): (bytes: seq<byte>)
    ensures |bytes| == n
    decreases n
  {
    if n == 0 then [] else [x % 256] + LeBytes(x / 256, n - 1)
  }

  function LeValue(bytes: seq<byte>): nat {
    if bytes == [] then 0 else bytes[0] + 256 * LeValue(bytes[1..])
  }

  // Different bytes of one length denote different values.
  lemma {:induction false} LeValueInjective(a: seq<byte>, b: seq<byte>)
    requires |a| == |b| && LeValue(a) == LeValue(b)
    ensures a == b
  {
    if a != [] {
      LeValueInjective(a[1..], b[1..]);
      assert a == [a[0]] + a[1..] && b == [b[0]] + b[1..];
    }
  }

  // Reading the n bytes of a word back gives the word.
  lemma {:induction false} LeRoundTrip(x: nat, n: nat)
    requires x < Pow256(n)
    ensures LeValue(LeBytes(x, n)) == x
    decreases n
  {
    if n > 0 {
      LeRoundTrip(x / 256, n - 1);
      assert LeBytes(x, n)[1..] == LeBytes(x / 256, n - 1);
    }
  }
}
