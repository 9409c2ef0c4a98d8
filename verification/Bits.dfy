/** Powers of two, bitwise operations on natural numbers, and remainders. */
module Bits {

  function Pow2(k: nat): (r: nat)
    ensures r > 0
  {
    if k == 0 then 1 else 2 * Pow2(k - 1)
  }

  /** Bitwise and. */
  function And(a: nat, b: nat): nat
    decreases a
  {
    if a == 0 || b == 0 then 0 else 2 * And(a / 2, b / 2) + (a % 2) * (b % 2)
  }

  lemma AndStep(h: nat, n: nat)
    requires n > 0
    ensures And(h, 2 * n - 1) == 2 * And(h / 2, n - 1) + h % 2
  {
    assert (2 * n - 1) / 2 == n - 1 && (2 * n - 1) % 2 == 1;
  }

  function Rem(h: nat, n: nat): nat
    requires n > 0
  {
    h % n
  }

  /** Masking with one less than a power of two takes the remainder. */
  lemma {:induction false} AndMask(h: nat, k: nat)
    ensures And(h, Pow2(k) - 1) == Rem(h, Pow2(k))
    decreases k
  {
    if k == 0 {
      RemOne(h);
    } else {
      var n := Pow2(k - 1);
      assert Pow2(k) == 2 * n;
      hide And, Rem, Pow2;
      AndMask(h / 2, k - 1);
      AndStep(h, n);
      HalfMod(h, n);
    }
  }

  lemma RemOne(h: nat)
    ensures Rem(h, 1) == 0
  {
  }

  lemma HalfMod(h: nat, n: nat)
    requires n > 0
    ensures Rem(h, 2 * n) == 2 * Rem(h / 2, n) + h % 2
  {
    var q, r := h / 2 / n, h / 2 % n;
    assert h == 2 * (q * n + r) + h % 2 == (2 * n) * q + (2 * r + h % 2);
    ModUnique(h, 2 * n, q, 2 * r + h % 2);
  }

  lemma MulStep(n: int, a: int, b: int)
    requires n > 0 && a < b
    ensures n * a + n <= n * b
    decreases b - a
  {
    if b - a > 1 { MulStep(n, a, b - 1); }
  }

  lemma QuotientUnique(n: int, q: int, r: int, q': int, r': int)
    requires 0 <= r < n && 0 <= r' < n && n * q + r == n * q' + r'
    ensures q == q' && r == r'
  {
    if q < q' { MulStep(n, q, q'); }
    if q' < q { MulStep(n, q', q); }
  }

  lemma ModUnique(h: int, n: int, q: int, r: int)
    requires n > 0 && 0 <= r < n && h == n * q + r
    ensures h % n == r && h / n == q
  {
    QuotientUnique(n, q, r, h / n, h % n);
  }

  /** Bitwise exclusive or of the lowest k bits. */
  function XorBits(x: nat, y: nat, k: nat): (r: nat)
    ensures r < Pow2(k)
  {
    if k == 0 then 0 else 2 * XorBits(x / 2, y / 2, k - 1) + if x % 2 != y % 2 then 1 else 0
  }

  lemma {:induction false} XorTwice(x: nat, y: nat, k: nat)
    requires x < Pow2(k)
    ensures XorBits(XorBits(x, y, k), y, k) == x
  {
    if k > 0 {
      XorTwice(x / 2, y / 2, k - 1);
      var q, b := XorBits(x / 2, y / 2, k - 1), if x % 2 != y % 2 then 1 else 0;
      var z := XorBits(x, y, k);
      assert z == 2 * q + b && z / 2 == q && z % 2 == b;
      assert XorBits(z, y, k) == 2 * XorBits(q, y / 2, k - 1) + if b != y % 2 then 1 else 0;
    }
  }

  /** Right shift of an unsigned number: floor(x / 2^k). */
  function Shr(x: nat, k: nat): (r: nat)
    ensures r <= x
  {
    if k == 0 then x else Shr(x / 2, k - 1)
  }

  /** Shifting right is dividing by a power of two. */
  lemma ShrIsDivision(x: nat, k: nat)
    ensures Shr(x, k) == x / Pow2(k)
  {
    if k > 0 {
      ShrIsDivision(x / 2, k - 1);
      DivDiv(x, Pow2(k - 1));
    }
  }

  lemma DivDiv(x: nat, m: nat)
    requires m > 0
    ensures x / 2 / m == x / (2 * m)
  {
    var q := x / 2 / m;
    var r := x / 2 - m * q;
    assert 0 <= r < m;
    assert x == 2 * m * q + (2 * r + x % 2);
    ModUnique(x, 2 * m, q, 2 * r + x % 2);
  }
}
