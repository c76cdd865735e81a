/** Powers of two and the division facts the other modules share. */
module Powers {

  const TWO32: nat := 0x1_0000_0000
  const TWO64: nat := 0x1_0000_0000_0000_0000

  type u32 = x: nat | x < TWO32
  type u64 = x: nat | x < TWO64

  function Pow2(n: nat): (p: nat)
    ensures p > 0
  {
    if n == 0 then 1 else 2 * Pow2(n - 1)
  }

  function ShiftRight(x: nat, n: nat): nat {
    DivNonNegative(x, Pow2(n));
    x / Pow2(n)
  }

  lemma DivNonNegative(x: nat, d: nat)
    requires d > 0
    ensures x / d >= 0
  {
    MulMono(x / d, -1, d);
    assert x == x / d * d + x % d;
  }

  lemma {:induction false} Pow2Add(a: nat, b: nat)
    ensures Pow2(a + b) == Pow2(a) * Pow2(b)
  {
    if a > 0 {
      Pow2Add(a - 1, b);
      assert Pow2(a + b) == 2 * Pow2((a - 1) + b);
      assert 2 * (Pow2(a - 1) * Pow2(b)) == (2 * Pow2(a - 1)) * Pow2(b);
    }
  }

  lemma Pow2Split(n: nat, a: nat)
    requires a <= n
    ensures Pow2(n) == Pow2(a) * Pow2(n - a)
  {
    Pow2Add(a, n - a);
  }

  lemma {:induction false} Pow2Mono(a: nat, b: nat)
    requires a <= b
    ensures Pow2(a) <= Pow2(b)
    decreases b
  {
    if a < b { Pow2Mono(a, b - 1); }
  }

  lemma {:induction false} Pow2Of64()
    ensures Pow2(16) == 0x1_0000 && Pow2(31) == 0x8000_0000 && Pow2(32) == 0x1_0000_0000
    ensures Pow2(64) == 0x1_0000_0000_0000_0000
  {
    assert Pow2(4) == 16;
    Pow2Add(4, 4);
    Pow2Add(8, 8);
    Pow2Add(8, 7);
    Pow2Add(16, 15);
    Pow2Add(16, 16);
    Pow2Add(32, 32);
  }

  lemma MulMono(a: int, b: int, d: int)
    requires d >= 0
    ensures a <= b ==> a * d <= b * d
  {
    assert a <= b ==> (b - a) * d >= 0;
  }

  /** The quotient is determined by its bounds. */
  lemma DivUnique(x: int, d: int, q: int)
    requires d > 0 && q * d <= x < q * d + d
    ensures x / d == q
  {
    var p := x / d;
    assert x == p * d + x % d;
    MulMono(p + 1, q, d);
    MulMono(q + 1, p, d);
  }

  lemma ModUnique(x: int, d: int, q: int, r: int)
    requires d > 0 && 0 <= r < d && x == q * d + r
    ensures x / d == q && x % d == r
  {
    DivUnique(x, d, q);
  }

  lemma DivBound(x: nat, a: nat, b: nat)
    requires a > 0 && x < a * b
    ensures x / a < b
  {
    var q := x / a;
    assert x == q * a + x % a;
    MulMono(b, q, a);
  }

  /** Dividing twice is dividing by the product. */
  lemma DivDiv(x: nat, a: nat, b: nat)
    requires a > 0 && b > 0
    ensures a * b > 0
    ensures x / a / b == x / (a * b)
  {
    var q := x / a;
    var p := q / b;
    var r1, r2 := x % a, q % b;
    assert x == q * a + r1 && q == p * b + r2;
    assert x == p * (a * b) + (r2 * a + r1) by {
      assert (p * b + r2) * a == p * (a * b) + r2 * a;
    }
    assert r2 * a + r1 < a * b by {
      MulMono(r2 + 1, b, a);
    }
    assert 0 <= r2 * a + r1;
    ModUnique(x, a * b, p, r2 * a + r1);
  }

  /** Reducing modulo a multiple first changes nothing. */
  lemma ModMod(x: nat, a: nat, b: nat)
    requires a > 0 && b > 0
    ensures a * b > 0
    ensures x % (a * b) % a == x % a
  {
    var q := x / (a * b);
    var r := x % (a * b);
    assert x == q * (a * b) + r;
    var p, s := r / a, r % a;
    assert r == p * a + s;
    assert x == (q * b + p) * a + s by {
      assert q * (a * b) == (q * b) * a;
    }
    ModUnique(x, a, q * b + p, s);
  }

  /** A multiple of the divisor moves to the quotient. */
  lemma AddMultiple(b: nat, d: nat, r: nat)
    requires d > 0
    ensures (b * d + r) / d == b + r / d
    ensures (b * d + r) % d == r % d
  {
    var q, s := r / d, r % d;
    assert r == q * d + s;
    assert b * d + r == (b + q) * d + s;
    ModUnique(b * d + r, d, b + q, s);
  }

  lemma MulRegroup(a: int, b: int, c: int)
    ensures a * (b * c) == (a * c) * b
  {
  }

  /** Cutting a number off above the bits of interest does not change them. */
  lemma CutAbove(v: nat, a: nat, b: nat, c: nat)
    requires a > 0 && b > 0 && c > 0 && a * (b * c) > 0
    ensures v % (a * (b * c)) / a % b == v / a % b
  {
    var m := a * (b * c);
    var q, r := v / m, v % m;
    DivNonNegative(v, m);
    DivNonNegative(r, a);
    assert v == q * m + r;
    MulRegroup(q, a, b * c);
    AddMultiple(q * (b * c), a, r);
    MulRegroup(q, b, c);
    AddMultiple(q * c, b, r / a);
  }

  /** The middle digit of a three-digit number with mixed bases. */
  lemma MiddleDigit(v: nat, w: nat, x: nat, y: nat, z: nat, a: nat, b: nat)
    requires a > 0 && b > 0 && x < a && y < b && w == y + b * z && v == x + a * w
    ensures v / a % b == y
  {
    ModUnique(v, a, w, x);
    ModUnique(w, b, z, y);
  }

  /** Scaling number and modulus scales the remainder. */
  lemma ScaleMod(b: nat, p: nat, l: nat)
    requires p > 0 && l > 0
    ensures p * l > 0 && b * l % (p * l) == b % p * l
  {
    var q, r := b / p, b % p;
    assert b == q * p + r;
    assert b * l == (q * p) * l + r * l;
    assert (q * p) * l == q * (p * l);
    MulMono(r + 1, p, l);
    assert (r + 1) * l == r * l + l;
    ModUnique(b * l, p * l, q, r * l);
  }

  /** A product reaches a multiple of its factor exactly when the other factor does. */
  lemma ScaleOrder(x: nat, y: nat, l: nat)
    requires l > 0
    ensures x * l >= y * l <==> x >= y
  {
    MulMono(y, x, l);
    MulMono(x + 1, y, l);
  }

  /** A quotient reaches `y` exactly when the number reaches `y * d`. */
  lemma DivOrder(x: nat, y: nat, d: nat)
    requires d > 0
    ensures x / d >= y <==> x >= y * d
  {
    var q := x / d;
    assert x == q * d + x % d;
    MulMono(y, q, d);
    MulMono(q + 1, y, d);
  }

  /** The digit above the low ones, after everything higher is cut off. */
  lemma UpperDigit(b: nat, po: nat, pb: nat)
    requires po > 0 && pb > 0
    ensures po * pb > 0
    ensures b % (po * pb) / po == b / po % pb
    ensures b / po % pb < pb
  {
    var m := po * pb;
    var q, r := b / m, b % m;
    DivNonNegative(b, m);
    assert b == q * m + r;
    MulRegroup(q, po, pb);
    DivNonNegative(r, po);
    DivBound(r, po, pb);
    ModUnique(q * pb + r / po, pb, q, r / po);
    AddMultiple(q * pb, po, r);
  }

  /** Taking a multiple of the divisor off the number takes it off the quotient. */
  lemma QuotientBelow(v: int, r: nat, p: nat, m: nat)
    requires r > 0 && p * r == m
    ensures (v - m) / r == v / r - p
  {
    var f, s := v / r, v % r;
    assert v == f * r + s;
    assert (f - p) * r == f * r - p * r;
    ModUnique(v - m, r, f - p, s);
  }

  /** The quotient of a number below zero by `m`, wrapped around to 64 bits. */
  lemma WrappedQuotient(v: int, r: nat, p: nat, f: nat)
    requires r > 0 && p * r == TWO64 && v / r == f < p <= TWO64
    ensures (v - TWO64) / r % TWO64 == f - p + TWO64
  {
    QuotientBelow(v, r, p, TWO64);
    ModUnique(f - p, TWO64, -1, f - p + TWO64);
  }
}
