/** Bitwise operations on unbounded non-negative integers, as Python performs them. */
module Bits {

  function Pow2(n: nat): (r: nat)
    ensures r > 0
  {
    if n == 0 then 1 else 2 * Pow2(n - 1)
  }

  // x << s
  function Shl(x: nat, s: nat): nat { x * Pow2(s) }

  function BitOr(a: nat, b: nat): nat {
    if a == 0 then b else if b == 0 then a
    else 2 * BitOr(a / 2, b / 2) + (if a % 2 == 1 || b % 2 == 1 then 1 else 0)
  }

  function BitAnd(a: nat, b: nat): nat {
    if a == 0 || b == 0 then 0
    else 2 * BitAnd(a / 2, b / 2) + (if a % 2 == 1 && b % 2 == 1 then 1 else 0)
  }

  lemma {:induction false} BitOrCommutes(a: nat, b: nat)
    ensures BitOr(a, b) == BitOr(b, a)
  {
    if a != 0 && b != 0 { BitOrCommutes(a / 2, b / 2); }
  }

  lemma {:induction false} MulTwice(a: int, b: int)
    ensures a * (2 * b) == 2 * (a * b)
  {
  }

  lemma {:induction false} Pow2Add(m: nat, n: nat)
    ensures Pow2(m + n) == Pow2(m) * Pow2(n)
  {
    if n > 0 {
      Pow2Add(m, n - 1);
      MulTwice(Pow2(m), Pow2(n - 1));
    }
  }

  lemma {:induction false} Pow2Monotone(m: nat, n: nat)
    ensures m < n ==> Pow2(m) < Pow2(n)
  {
    if m < n {
      if m < n - 1 { Pow2Monotone(m, n - 1); }
    }
  }

  /** Or-ing in bits above all bits of r adds them. */
  lemma {:induction false} OrAdds(r: nat, x: nat, s: nat)
    requires r < Pow2(s)
    ensures BitOr(r, Shl(x, s)) == r + Shl(x, s)
  {
    if s > 0 {
      MulTwice(x, Pow2(s - 1));
      OrAdds(r / 2, x, s - 1);
    }
  }

  lemma {:induction false} ShlBound(acc: nat, x: nat, m: nat, s: nat)
    requires acc < Pow2(s) && x < Pow2(m)
    ensures acc + Shl(x, s) < Pow2(s + m)
  {
    Pow2Add(s, m);
    MulGap(Pow2(s), Pow2(m), x);
  }

  lemma {:induction false} ModTwice(a: nat, p: nat)
    requires p > 0
    ensures a % (2 * p) == 2 * (a / 2 % p) + a % 2
  {
    var q, r := a / 2 / p, a / 2 % p;
    assert a / 2 == q * p + r;
    assert a == 2 * (a / 2) + a % 2;
    assert 2 * (q * p) == q * (2 * p);
    DivModUnique(a, 2 * p, q, 2 * r + a % 2);
  }

  lemma {:induction false} DivModUnique(a: int, d: nat, q: int, r: nat)
    requires d > 0 && a == q * d + r && r < d
    ensures a / d == q && a % d == r
  {
    var q', r' := a / d, a % d;
    assert a == q' * d + r' && 0 <= r' < d;
    QuotientUnique(d, q, r, q', r');
  }

  lemma {:induction false} QuotientUnique(d: nat, q: int, r: int, q': int, r': int)
    requires q * d + r == q' * d + r' && 0 <= r < d && 0 <= r' < d
    ensures q == q' && r == r'
  {
    if q > q' {
      MulGap(d, q, q');
    } else if q < q' {
      MulGap(d, q', q);
    }
  }

  lemma {:induction false} DivTwice(n: nat, a: nat, b: nat)
    requires a > 0 && b > 0
    ensures a * b > 0 && n / a / b == n / (a * b)
  {
    var q, r := n / a / b, n / a % b;
    MulAtLeast(a, b);
    assert n / a == q * b + r && n == a * (n / a) + n % a;
    assert a * (q * b + r) == q * (a * b) + a * r;
    assert a * r + n % a < a * b by { MulGap(a, b, r); }
    DivModUnique(n, a * b, q, a * r + n % a);
  }

  lemma {:induction false} MulGap(d: nat, x: int, y: int)
    requires x > y
    ensures x * d >= y * d + d
  {
    assert x * d - y * d == (x - y) * d;
    assert (x - y) * d >= d by { MulAtLeast(x - y, d); }
  }

  lemma {:induction false} MulAtLeast(t: nat, d: nat)
    requires t >= 1
    ensures t * d >= d
  {
  }

  /** Masking with k ones keeps the value modulo 2^k. */
  lemma {:induction false} AndMask(a: nat, k: nat)
    ensures BitAnd(a, (Pow2(k) - 1) as nat) == a % Pow2(k)
  {
    if k > 0 {
      var p := Pow2(k - 1);
      AndMask(a / 2, k - 1);
      ModTwice(a, p);
      AndOdd(a, p - 1);
    }
  }

  // One step of masking with an odd number.
  lemma {:induction false} AndOdd(a: nat, m: nat)
    ensures BitAnd(a, 2 * m + 1) == 2 * BitAnd(a / 2, m) + a % 2
  {
    assert (2 * m + 1) / 2 == m && (2 * m + 1) % 2 == 1;
  }

  /** Masking with 2^k tests bit k. */
  lemma {:induction false} AndBit(a: nat, k: nat)
    requires a < 2 * Pow2(k)
    ensures BitAnd(a, Pow2(k)) != 0 <==> a >= Pow2(k)
  {
    if k > 0 && a > 0 { AndBit(a / 2, k - 1); }
  }

  lemma {:induction false} Pow2At7()
    ensures Pow2(7) == 128 && Pow2(8) == 256
  {
    assert Pow2(4) == 16;
    Pow2Add(4, 3);
  }

  lemma {:induction false} Pow2At32()
    ensures Pow2(32) == 0x1_0000_0000
  {
    assert Pow2(4) == 16;
    Pow2Add(4, 4);
    Pow2Add(8, 8);
    Pow2Add(16, 16);
  }

  lemma {:induction false} Pow2At63()
    ensures Pow2(63) == 0x8000_0000_0000_0000 && Pow2(64) == 0x1_0000_0000_0000_0000
  {
    Pow2At32();
    Pow2Add(32, 32);
    assert Pow2(64) == 2 * Pow2(63);
  }
}
