/**
 FIDe's fixed-point numbers: a 32-bit `number` scaled by two to the power `q`. Sums, differences
 and quotients drop fraction bits when the result has fewer significant bits than `q`.
 */
module FixedPoint {
  import opened Powers

  datatype Fixed = Fixed(number: int, q: int)

  const TWO31: int := 0x8000_0000

  predicate IsInt32(x: int) { -TWO31 <= x < TWO31 }

  /** Conversion to a 32-bit signed integer. */
  function ToInt32(x: int): (r: int)
    ensures IsInt32(r) && (IsInt32(x) ==> r == x)
    ensures x >= TWO31 ==> r < x
  {
    var m := x % TWO32;
    if m >= TWO31 then m - TWO32 else m
  }

  /** Conversion to a 64-bit unsigned integer. */
  function ToU64(x: int): u64 { x % TWO64 }

  // ----- significant bits

  function BitLength(x: nat): nat {
    if x == 0 then 0 else 1 + BitLength(x / 2)
  }

  /** Shifting out `k` bits of a number that keeps some shortens it by `k`. */
  lemma {:induction false} BitLengthShift(x: nat, k: nat)
    requires x / Pow2(k) > 0
    ensures BitLength(x) == k + BitLength(x / Pow2(k))
    decreases k
  {
    if k > 0 {
      DivDiv(x, 2, Pow2(k - 1));
      BitLengthShift(x / 2, k - 1);
      if x == 0 { ModUnique(0, Pow2(k), 0, 0); }
    }
  }

  /** A number lies between the powers of two its bit length names. */
  lemma {:induction false} BitLengthBounds(x: nat)
    ensures x < Pow2(BitLength(x))
    ensures x > 0 ==> BitLength(x) > 0 && Pow2(BitLength(x) - 1) <= x
  {
    if x > 0 {
      BitLengthBounds(x / 2);
    }
  }

  /** One halving step of the search: drop the low `k` bits if that leaves some. */
  lemma Narrow(x: nat, k: nat, d: nat)
    requires d == Pow2(k) && x < d * d
    ensures 0 <= x / d < d
    ensures x / d != 0 ==> BitLength(x) == k + BitLength(x / d)
    ensures x / d == 0 ==> x < d
  {
    DivBound(x, d, d);
    DivNonNegative(x, d);
    DivOrder(x, 1, d);
    if x / d != 0 { BitLengthShift(x, k); }
  }

  lemma {:induction false} PowersUsed()
    ensures Pow2(2) == 4 && Pow2(4) == 16 && Pow2(8) == 256 && Pow2(16) == 65536
  {
    assert Pow2(4) == 16;
    Pow2Add(4, 4);
    Pow2Of64();
  }

  /** One step of the search for the highest set bit: skip `k` low bits if a bit above them is set. */
  method Skip(n: int, x: nat, k: nat, d: nat) returns (m: int, y: nat)
    requires d == Pow2(k) && x < d * d
    ensures y < d && m + BitLength(x) == n + BitLength(y)
  {
    Narrow(x, k, d);
    y := x / d;
    if y != 0 {
      return n - k, y;
    }
    return n, x;
  }

  /** The search shared by the two counters, from 16 bits down. */
  method CountFrom(width: int, input: nat) returns (n: int)
    requires input < TWO31
    ensures n == width - BitLength(input)
  {
    PowersUsed();
    var x := input;
    n, x := Skip(width, x, 16, 65536);
    n, x := Skip(n, x, 8, 256);
    n, x := Skip(n, x, 4, 16);
    n, x := Skip(n, x, 2, 4);
    if x / 2 != 0 {
      return n - 2;
    }
    return n - x;
  }

  /** `count_zero_64`: leading zeros of a non-negative 32-bit number in a 64-bit word, -1 for any
      other 64-bit number. */
  method CountZero64(x: int) returns (n: int)
    ensures 0 <= x < TWO31 ==> n == 64 - BitLength(x)
    ensures !(0 <= x < TWO31) ==> n == -1
  {
    if x / TWO31 != 0 { return -1; }
    n := 64;
    var v := x;
    var y := v / TWO32;
    if y != 0 { n, v := n - 32, y; }
    n := CountFrom(n, v);
  }

  /** `count_zero_32`: the same in a 32-bit word. */
  method CountZero32(x: int) returns (n: int)
    ensures 0 <= x < TWO31 ==> n == 32 - BitLength(x)
    ensures !(0 <= x < TWO31) ==> n == -1
  {
    if x / TWO31 != 0 { return -1; }
    n := CountFrom(32, x);
  }

  // ----- operations

  /** `check_bit`: it raises the smaller `q` before it computes the shift distance, which is then 0. */
  function CheckBit(first: Fixed, second: Fixed): (Fixed, Fixed) {
    if first.q > second.q then
      var raised := second.(q := first.q);
      (first, raised.(number := raised.number * Pow2(Abs(first.q - raised.q))))
    else if first.q < second.q then
      var raised := first.(q := second.q);
      (raised.(number := raised.number * Pow2(Abs(second.q - raised.q))), second)
    else (first, second)
  }

  function Abs(x: int): nat { if x < 0 then -x else x }

  /** The two stand for the same value. */
  predicate SameValue(a: Fixed, b: Fixed) {
    if a.q <= b.q then a.number * Pow2(b.q - a.q) == b.number
    else b.number * Pow2(a.q - b.q) == a.number
  }

  /** Both operands come out with the greater `q`; they keep their values exactly when the `q`s
      agree already or the number with the smaller `q` is zero. */
  lemma CheckBitKeepsValuesIff(first: Fixed, second: Fixed)
    ensures var (a, b) := CheckBit(first, second);
            && a.q == b.q && a.q >= first.q && a.q >= second.q
            && (SameValue(first, a) && SameValue(second, b)
                <==> first.q == second.q || (if first.q < second.q then first.number == 0 else second.number == 0))
  {
    assert Pow2(0) == 1;
    if first.q < second.q { ScaledIsSame(first.number, second.q - first.q); }
    if first.q > second.q { ScaledIsSame(second.number, first.q - second.q); }
  }

  /** The numbers themselves never change. */
  lemma CheckBitNumbers(first: Fixed, second: Fixed)
    ensures CheckBit(first, second) ==
              (Fixed(first.number, Max(first.q, second.q)), Fixed(second.number, Max(first.q, second.q)))
  {
    assert Pow2(0) == 1;
  }

  lemma ScaledIsSame(x: int, k: nat)
    requires k > 0
    ensures x * Pow2(k) == x <==> x == 0
  {
    var p := Pow2(k);
    assert p == 2 * Pow2(k - 1) >= 2;
    if x > 0 { MulMono(2, p, x); }
    if x < 0 { MulMono(2, p, -x); assert p * (-x) == -(x * p); }
  }

  /** The common tail of `add`, `subtract` and `divide`: keep at most as many fraction bits as the
      result has significant bits. */
  method Renormalise(sum: u64, q: int) returns (r: Fixed)
    requires 0 <= q <= 31
    ensures 0 <= r.q <= q
    ensures sum < TWO31 ==> r.q == Min(q, BitLength(sum))
    ensures sum < TWO31 ==> r.number == sum / Pow2(q - r.q)
    ensures sum >= TWO31 ==> r == Fixed(ToInt32(sum), q)
  {
    var asSigned := if sum < TWO64 / 2 then sum else sum - TWO64;
    var zeros := CountZero64(asSigned);
    var allowed := 64 - zeros;
    if allowed < q {
      DivShrinks(sum, Pow2(q - allowed));
      return Fixed(ToInt32(sum / Pow2(q - allowed)), allowed);
    }
    assert Pow2(0) == 1;
    return Fixed(ToInt32(sum), q);
  }

  lemma DivShrinks(x: nat, d: nat)
    requires d > 0
    ensures 0 <= x / d <= x
  {
    DivNonNegative(x, d);
    var p := x / d;
    assert x == p * d + x % d;
    MulMono(1, d, p);
  }

  function Max(a: int, b: int): int { if a < b then b else a }

  function Min(a: int, b: int): int { if a < b then a else b }

  /** `add`: the 32-bit sum of the numbers, at the greater `q`, rounded down to the kept fraction
      bits: as many as the sum has significant bits, and all of them if it is negative. */
  method Add(first: Fixed, second: Fixed) returns (r: Fixed)
    requires 0 <= first.q <= 31 && 0 <= second.q <= 31
    ensures RoundsDown(r, ToInt32(first.number + second.number), Max(first.q, second.q))
  {
    var (a, b) := CheckBit(first, second);
    CheckBitNumbers(first, second);
    r := RenormaliseSigned(ToInt32(a.number + b.number), a.q);
  }

  /** `subtract`: the same for the difference. */
  method Subtract(first: Fixed, second: Fixed) returns (r: Fixed)
    requires 0 <= first.q <= 31 && 0 <= second.q <= 31
    ensures RoundsDown(r, ToInt32(first.number - second.number), Max(first.q, second.q))
  {
    var (a, b) := CheckBit(first, second);
    CheckBitNumbers(first, second);
    r := RenormaliseSigned(ToInt32(a.number - b.number), a.q);
  }

  /** `r` is the greatest number with its scale that is not above `sum` with scale `q`, the scale
      being `q` but at most the number of significant bits of a sum that is not negative. */
  predicate RoundsDown(r: Fixed, sum: int, q: int) {
    && 0 <= r.q <= q && r.q == (if sum < 0 then q else Min(q, BitLength(sum)))
    && r.number * Pow2(q - r.q) <= sum < (r.number + 1) * Pow2(q - r.q)
  }

  method RenormaliseSigned(sum: int, q: int) returns (r: Fixed)
    requires IsInt32(sum) && 0 <= q <= 31
    ensures RoundsDown(r, sum, q)
  {
    r := Renormalise(ToU64(sum), q);
    if sum < 0 {
      WrapTwice(sum);
      WholeRoundsDown(sum, q);
    } else {
      ModUnique(sum, TWO64, 0, sum);
      FloorBounds(sum, Pow2(q - r.q));
    }
  }

  lemma WholeRoundsDown(sum: int, q: nat)
    requires sum < 0
    ensures RoundsDown(Fixed(sum, q), sum, q)
  {
    assert Pow2(0) == 1;
  }

  lemma WrapTwice(sum: int)
    requires -TWO31 <= sum < 0
    ensures ToU64(sum) >= TWO31 && ToInt32(ToU64(sum)) == sum
  {
    ModUnique(sum, TWO64, -1, sum + TWO64);
    ModUnique(sum + TWO64, TWO32, TWO32 - 1, sum + TWO32);
  }

  lemma FloorBounds(x: int, d: nat)
    requires d > 0
    ensures x / d * d <= x < (x / d + 1) * d
  {
    assert x == x / d * d + x % d;
    assert (x / d + 1) * d == x / d * d + d;
  }

  // ----- division

  /** The 64-bit quotient `divide` computes; BPF division by zero yields 0. */
  function RawQuotient(a: int, b: int, q: nat): u64
    requires q <= 31
  {
    if ToU64(b) == 0 then 0
    else
      DivShrinks(ToU64(a) * TWO32 % TWO64, ToU64(b));
      DivShrinks(ToU64(a) * TWO32 % TWO64 / ToU64(b), Pow2(32 - q));
      ToU64(a) * TWO32 % TWO64 / ToU64(b) / Pow2(32 - q)
  }

  /** A 32-bit signed number read as an unsigned one. */
  function Unsigned(a: int): (u: nat)
    requires IsInt32(a)
    ensures u < TWO32 && (a >= 0 ==> u == a)
  {
    if a < 0 then a + TWO32 else a
  }

  /** The nested floors are one: for a positive divisor the quotient is `a * 2^q / b` rounded down,
      with a negative dividend read as an unsigned number; for any other divisor it is 0. */
  lemma {:induction false} RawQuotientIsFloor(a: int, b: int, q: nat)
    requires IsInt32(a) && IsInt32(b) && q <= 31
    ensures b > 0 ==> RawQuotient(a, b, q) == Unsigned(a) * Pow2(q) / b
    ensures b <= 0 ==> RawQuotient(a, b, q) == 0
  {
    Pow2Of64();
    Pow2Split(32, q);
    if b > 0 {
      RawQuotientPlain(a, b, q);
      NestedFloor(Unsigned(a), b, Pow2(q), Pow2(32 - q), TWO32);
    } else if b < 0 {
      Pow2Mono(1, 32 - q);
      RawQuotientSmall(a, b, Pow2(32 - q));
    }
  }

  /** The dividend as the code shifts it. */
  lemma ShiftedDividend(a: int)
    requires IsInt32(a)
    ensures ToU64(a) * TWO32 % TWO64 == Unsigned(a) * TWO32 < TWO64
  {
    var u := Unsigned(a);
    if a < 0 {
      ModUnique(a, TWO64, -1, a + TWO64);
      ModUnique((a + TWO64) * TWO32, TWO64, TWO32 - 1, u * TWO32);
    } else {
      ModUnique(a, TWO64, 0, a);
      ModUnique(a * TWO32, TWO64, 0, a * TWO32);
    }
  }

  lemma RawQuotientPlain(a: int, b: nat, q: nat)
    requires IsInt32(a) && 0 < b < TWO31 && q <= 31
    ensures RawQuotient(a, b, q) == Unsigned(a) * TWO32 / b / Pow2(32 - q)
  {
    ShiftedDividend(a);
    ModUnique(b, TWO64, 0, b);
  }

  /** A negative divisor, read as an unsigned number, is more than half of any dividend. */
  lemma RawQuotientSmall(a: int, b: int, s: nat)
    requires IsInt32(a) && IsInt32(b) && b < 0 && s >= 2
    ensures ToU64(b) > 0 && ToU64(a) * TWO32 % TWO64 / ToU64(b) / s == 0
  {
    ShiftedDividend(a);
    ModUnique(b, TWO64, -1, b + TWO64);
    SmallQuotient(Unsigned(a) * TWO32, b + TWO64, s);
  }

  lemma {:induction false} SmallQuotient(x: nat, d: nat, s: nat)
    requires x < 2 * d && s >= 2
    ensures x / d / s == 0
  {
    DivOrder(x, 2, d);
    DivNonNegative(x, d);
    ModUnique(x / d, s, 0, x / d);
  }

  lemma NestedFloor(a: nat, b: nat, p: nat, s: nat, w: nat)
    requires b > 0 && p > 0 && s > 0 && w == p * s
    ensures a * w / b / s == a * p / b
  {
    assert a * w == (a * p) * s;
    DivDiv(a * w, b, s);
    ProductsCancel(a * p, b, s);
  }

  lemma ProductsCancel(x: nat, b: nat, s: nat)
    requires b > 0 && s > 0
    ensures b * s > 0 && (x * s) / (b * s) == x / b
  {
    var n, r := x / b, x % b;
    assert x == n * b + r;
    assert x * s == (n * b) * s + r * s;
    assert (n * b) * s == n * (b * s);
    MulMono(r + 1, b, s);
    assert (r + 1) * s == r * s + s;
    ModUnique(x * s, b * s, n, r * s);
  }

  /** `r` is `a / b` rounded down to `r.q` fraction bits. */
  predicate IsQuotient(r: Fixed, a: int, b: int) {
    r.q >= 0 && r.number * b <= a * Pow2(r.q) < (r.number + 1) * b
  }

  /** Dropping fraction bits of a rounded quotient rounds the quotient itself. */
  lemma CoarserQuotient(a: nat, b: nat, q: nat, k: nat)
    requires b > 0 && k <= q
    ensures IsQuotient(Fixed(a * Pow2(q) / b / Pow2(q - k), k), a, b)
  {
    var p, s := Pow2(k), Pow2(q - k);
    Pow2Split(q, k);
    NestedFloor(a, b, p, s, Pow2(q));
    FloorBounds(a * p, b);
  }

  /** A truncated quotient is too small. */
  lemma TruncatedFails(a: nat, b: nat, q: nat, n: int)
    requires b > 0 && n < a * Pow2(q) / b
    ensures !IsQuotient(Fixed(n, q), a, b)
  {
    FloorBounds(a * Pow2(q), b);
    MulMono(n + 1, a * Pow2(q) / b, b);
  }

  /** The result for an unsigned dividend and a positive divisor: the quotient rounded down to as
      many fraction bits as it has significant bits, but at most `q`; if it does not fit 31 bits it is
      truncated to 32 and is no quotient. */
  predicate DividesInto(r: Fixed, a: nat, b: nat, q: nat)
    requires b > 0
  {
    var n := a * Pow2(q) / b;
    if n < TWO31 then r.q == Min(q, BitLength(n)) && IsQuotient(r, a, b)
    else r == Fixed(ToInt32(n), q) && !IsQuotient(r, a, b)
  }

  /** `divide`: the quotient of the numbers, rounded down to the kept fraction bits, for positive
      divisors exactly when it fits 31 bits at the greater `q`, negative dividends being read as
      unsigned; and 0 for any other divisor. */
  method Divide(first: Fixed, second: Fixed) returns (r: Fixed)
    requires IsInt32(first.number) && IsInt32(second.number)
    requires 0 <= first.q <= 31 && 0 <= second.q <= 31
    ensures second.number <= 0 ==> r == Fixed(0, 0)
    ensures second.number > 0 ==>
              DividesInto(r, Unsigned(first.number), second.number, Max(first.q, second.q))
    ensures first.number >= 0 && second.number > 0 ==>
              (IsQuotient(r, first.number, second.number)
               <==> first.number * Pow2(Max(first.q, second.q)) < TWO31 * second.number)
  {
    CheckBitNumbers(first, second);
    var (x, y) := CheckBit(first, second);
    var a, b, q := x.number, y.number, x.q;
    var sum := RawQuotient(a, b, q);
    r := Renormalise(sum, q);
    RawQuotientIsFloor(a, b, q);
    if b <= 0 { ModUnique(0, Pow2(q), 0, 0); } else { QuotientOutcome(Unsigned(a), b, q, sum, r); }
  }

  lemma {:induction false} QuotientOutcome(a: nat, b: nat, q: nat, sum: nat, r: Fixed)
    requires 0 < b < TWO31 && q <= 31 && 0 <= r.q <= q && sum == a * Pow2(q) / b
    requires if sum < TWO31 then r.q == Min(q, BitLength(sum)) && r.number == sum / Pow2(q - r.q)
             else r == Fixed(ToInt32(sum), q)
    ensures DividesInto(r, a, b, q)
    ensures IsQuotient(r, a, b) <==> a * Pow2(q) < TWO31 * b
  {
    DivOrder(a * Pow2(q), TWO31, b);
    if sum < TWO31 {
      CoarserQuotient(a, b, q, r.q);
    } else {
      TruncatedFails(a, b, q, r.number);
    }
  }
}
