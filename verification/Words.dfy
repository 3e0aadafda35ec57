/** Machine words as mathematical integers: residues, signed readings and bitwise operations.
    An n-bit value is an integer in [0, 2^n); a 4-byte slot holds a `word`. */
module Words {
  const W8 := 0x100
  const W16 := 0x1_0000
  const W32 := 0x1_0000_0000
  const W64 := 0x1_0000_0000_0000_0000

  type byte = x: int | 0 <= x < W8
  type word = x: int | 0 <= x < W32

  function Pow2(n: nat): (p: nat)
    ensures p > 0
  {
    if n == 0 then 1 else 2 * Pow2(n - 1)
  }

  function ShiftUp(x: int, n: nat): int {
    x * Pow2(n)
  }

  /** Shifting down rounds toward minus infinity, as sar and ashr do. */
  function ShiftDown(x: int, n: nat): (r: int)
    ensures x >= 0 ==> 0 <= r <= x
  {
    QuotientBound(x, Pow2(n));
    x / Pow2(n)
  }

  /** The signed reading of x, where m is 2 to the width. */
  function Signed(m: int, x: int): int {
    if 2 * x < m then x else x - m
  }

  function Abs(x: int): nat {
    if x < 0 then -x else x
  }

  /** Signed division truncating toward zero, as in C and in idiv. */
  function TruncDiv(a: int, b: int): int
    requires b != 0
  {
    var q := Abs(a) / Abs(b);
    if (a >= 0) == (b > 0) then q else -q
  }

  function TruncRem(a: int, b: int): int
    requires b != 0
  {
    a - b * TruncDiv(a, b)
  }

  datatype Logic = AndBits | OrBits | XorBits

  function Bit(op: Logic, x: int, y: int): int {
    match op
    case AndBits => if x == 1 && y == 1 then 1 else 0
    case OrBits => if x == 1 || y == 1 then 1 else 0
    case XorBits => if x != y then 1 else 0
  }

  /** Bitwise operation on the low n bits. */
  function Bitwise(op: Logic, a: nat, b: nat, n: nat): (r: nat)
    ensures r < Pow2(n)
  {
    if n == 0 then 0 else Bit(op, a % 2, b % 2) + 2 * Bitwise(op, a / 2, b / 2, n - 1)
  }

  // ----- Residues -----

  /** Quotient and remainder are determined by the division equation. */
  lemma DivModUnique(x: int, m: int, q: int, r: int)
    requires 0 <= r < m && x == m * q + r
    ensures x / m == q && x % m == r
  {
    var q', r' := x / m, x % m;
    assert m * q' + r' == x;
    assert m * (q - q') == r' - r;
    if q > q' {
      assert m * (q - q') >= m by { MulMono(m, 1, q - q'); }
    } else if q < q' {
      assert m * (q' - q) >= m by { MulMono(m, 1, q' - q); }
    }
  }

  lemma MulMono(m: int, x: int, y: int)
    requires 0 <= m && x <= y
    ensures m * x <= m * y
  {
  }

  lemma AddMultiple(x: int, m: int, k: int)
    requires m > 0
    ensures (x + m * k) % m == x % m
  {
    DivModUnique(x + m * k, m, x / m + k, x % m);
  }

  /** Reducing modulo a multiple of m first does not change the residue modulo m. */
  lemma ModMod(x: int, m: int, k: int)
    requires m > 0 && k > 0
    ensures m * k > 0 && (x % (m * k)) % m == x % m
  {
    MulMono(m, 1, k);
    var q := x / (m * k);
    assert x == m * k * q + x % (m * k);
    assert m * k * q == m * (k * q);
    AddMultiple(x % (m * k), m, k * q);
  }

  lemma ModAdd(a: int, b: int, m: int)
    requires m > 0
    ensures (a + b) % m == (a % m + b % m) % m
  {
    var qa, qb := a / m, b / m;
    assert a + b == (a % m + b % m) + m * (qa + qb);
    AddMultiple(a % m + b % m, m, qa + qb);
  }

  lemma ModSub(a: int, b: int, m: int)
    requires m > 0
    ensures (a - b) % m == (a % m - b % m) % m
  {
    var qa, qb := a / m, b / m;
    assert a - b == (a % m - b % m) + m * (qa - qb);
    AddMultiple(a % m - b % m, m, qa - qb);
  }

  lemma ModMulLeft(a: int, b: int, m: int)
    requires m > 0
    ensures (a * b) % m == ((a % m) * b) % m
  {
    var q := a / m;
    assert a * b == (a % m) * b + m * (q * b) by {
      assert a == m * q + a % m;
      assert (m * q + a % m) * b == m * (q * b) + (a % m) * b by { MulRegroup(m, q, a % m, b); }
    }
    AddMultiple((a % m) * b, m, q * b);
  }

  lemma MulRegroup(m: int, q: int, r: int, b: int)
    ensures (m * q + r) * b == m * (q * b) + r * b
  {
  }

  lemma ModMul(a: int, b: int, m: int)
    requires m > 0
    ensures (a * b) % m == ((a % m) * (b % m)) % m
  {
    ModMulLeft(a, b, m);
    assert (a % m) * b == b * (a % m);
    ModMulLeft(b, a % m, m);
    assert (b % m) * (a % m) == (a % m) * (b % m);
  }

  // ----- Powers and bits -----

  lemma Pow2Sum(a: nat, b: nat)
    ensures Pow2(a + b) == Pow2(a) * Pow2(b)
  {
    if a > 0 {
      Pow2Sum(a - 1, b);
    }
  }

  lemma Pow2Widths()
    ensures Pow2(1) == 2 && Pow2(8) == W8 && Pow2(16) == W16 && Pow2(32) == W32 && Pow2(64) == W64
  {
    assert Pow2(4) == 16;
    Pow2Sum(4, 4);
    Pow2Sum(8, 8);
    Pow2Sum(16, 16);
    Pow2Sum(32, 32);
  }

  /** Halving and taking residues commute. */
  lemma HalfMod(a: nat, n: nat)
    requires n > 0
    ensures (a % Pow2(n)) % 2 == a % 2
    ensures (a % Pow2(n)) / 2 == (a / 2) % Pow2(n - 1)
  {
    var p := Pow2(n - 1);
    assert Pow2(n) == 2 * p;
    var h := a / 2;
    assert h == p * (h / p) + h % p;
    var r := 2 * (h % p) + a % 2;
    assert a == 2 * h + a % 2;
    assert 2 * (p * (h / p)) == (2 * p) * (h / p);
    assert a == (2 * p) * (h / p) + r;
    DivModUnique(a, 2 * p, h / p, r);
  }

  /** The low k bits of a bitwise result depend on the low k bits of the operands only. */
  lemma {:induction false} BitwiseLow(op: Logic, a: nat, b: nat, n: nat, k: nat)
    requires k <= n
    ensures Bitwise(op, a, b, n) % Pow2(k) == Bitwise(op, a % Pow2(k), b % Pow2(k), k)
  {
    if k > 0 {
      HalfMod(a, k);
      HalfMod(b, k);
      var r := Bitwise(op, a, b, n);
      HalfMod(r, k);
      BitwiseLow(op, a / 2, b / 2, n - 1, k - 1);
      assert r / 2 == Bitwise(op, a / 2, b / 2, n - 1);
      var s := r % Pow2(k);
      assert s == 2 * (s / 2) + s % 2;
    }
  }

  /** Bitwise operations take zero to zero beyond the operands' bits, so 0/1 operands give 0 or 1. */
  lemma BitwiseZero(op: Logic, n: nat)
    ensures Bitwise(op, 0, 0, n) == 0
  {
    if n > 0 {
      BitwiseZero(op, n - 1);
    }
  }

  lemma BitwiseBool(op: Logic, a: nat, b: nat, n: nat)
    requires a < 2 && b < 2 && n > 0
    ensures Bitwise(op, a, b, n) == Bit(op, a, b)
  {
    BitwiseZero(op, n - 1);
    assert a / 2 == 0 && b / 2 == 0;
  }

  /** Dividing a residue by a power of two keeps it below the modulus. */
  lemma DivLess(a: nat, d: nat, m: nat)
    requires d > 0 && a < m
    ensures a / d < m
  {
    var q := a / d;
    assert a == d * q + a % d;
    MulMono(q, 1, d);
    assert q * d == d * q;
  }

  lemma QuotientBound(x: int, d: nat)
    requires d > 0
    ensures x >= 0 ==> 0 <= x / d <= x
  {
    if x >= 0 {
      DivLess(x, d, x + 1);
      DivModPositive(x, d);
    }
  }

  lemma DivModPositive(n: nat, d: nat)
    requires d > 0
    ensures 0 <= n / d && 0 <= n % d < d
  {
    DivLess(n, d, n + 1);
  }

  // ----- What the operations mean -----

  /** Division truncates toward zero: the remainder makes up the difference, is smaller than the
      divisor in size, and takes the dividend's sign. */
  lemma TruncDivRem(a: int, b: int)
    requires b != 0
    ensures a == b * TruncDiv(a, b) + TruncRem(a, b)
    ensures if b < 0 then b < TruncRem(a, b) < -b else -b < TruncRem(a, b) < b
    ensures TruncRem(a, b) != 0 ==> (TruncRem(a, b) < 0 <==> a < 0)
  {
    var x: int, y: int := Abs(a), Abs(b);
    var q, r := x / y, x % y;
    assert x == y * q + r && 0 <= r < y;
    assert (-y) * q == -(y * q) && y * (-q) == -(y * q) && (-y) * (-q) == y * q by { Negations(y, q); }
  }

  lemma Negations(y: int, q: int)
    ensures (-y) * q == -(y * q) && y * (-q) == -(y * q) && (-y) * (-q) == y * q
  {
  }

  /** The signed reading of an n-bit word is its residue in [-2^(n-1), 2^(n-1)). */
  lemma SignedIs(n: nat, x: nat)
    requires n > 0 && x < Pow2(n)
    ensures 0 - Pow2(n - 1) <= Signed(Pow2(n), x) < Pow2(n - 1)
    ensures Signed(Pow2(n), x) % Pow2(n) == x
  {
    var m := Pow2(n);
    if Signed(m, x) == x {
      DivModUnique(x, m, 0, x);
    } else {
      DivModUnique(x - m, m, -1, x);
    }
  }

  /** Bit i of a bitwise result is the operation on the operands' bits i. */
  lemma {:induction false} BitwiseBits(op: Logic, a: nat, b: nat, n: nat, i: nat)
    requires i < n
    ensures var (x, y, r) := (a / Pow2(i) % 2, b / Pow2(i) % 2, Bitwise(op, a, b, n) / Pow2(i) % 2);
      && (op.AndBits? ==> r == if x == 1 && y == 1 then 1 else 0)
      && (op.OrBits? ==> r == if x == 0 && y == 0 then 0 else 1)
      && (op.XorBits? ==> r == if x == y then 0 else 1)
  {
    var r := Bitwise(op, a, b, n);
    assert r == 2 * Bitwise(op, a / 2, b / 2, n - 1) + Bit(op, a % 2, b % 2);
    if i > 0 {
      BitwiseBits(op, a / 2, b / 2, n - 1, i - 1);
      HalfThenDivide(a, i);
      HalfThenDivide(b, i);
      HalfThenDivide(r, i);
      assert r / 2 == Bitwise(op, a / 2, b / 2, n - 1);
    }
  }

  lemma HalfThenDivide(a: nat, i: nat)
    requires i > 0
    ensures a / Pow2(i) == a / 2 / Pow2(i - 1)
  {
    var p, h := Pow2(i - 1), a / 2;
    assert Pow2(i) == 2 * p && a == 2 * h + a % 2 && h == p * (h / p) + h % p;
    assert 2 * (p * (h / p)) == (2 * p) * (h / p);
    DivModUnique(a, 2 * p, h / p, 2 * (h % p) + a % 2);
  }

  /** Shifting down is division by a power of two, rounded toward minus infinity. */
  lemma ShiftDownIs(x: int, n: nat)
    ensures ShiftDown(x, n) * Pow2(n) <= x < (ShiftDown(x, n) + 1) * Pow2(n)
  {
    hide Pow2;
    var p, q := Pow2(n), x / Pow2(n);
    assert x == p * q + x % p;
    assert q * p == p * q && (q + 1) * p == p * q + p;
  }
}
