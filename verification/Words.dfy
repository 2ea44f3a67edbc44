/** Machine words as natural numbers below a power of two, with the bitwise
    operations the ring buffer and the base64 encoder use. */
module Words {

  function Pow2(n: nat): (r: nat)
    ensures r > 0
  {
    if n == 0 then 1 else 2 * Pow2(n - 1)
  }

  /** Bitwise `a & b`. */
  function BitAnd(a: nat, b: nat): (r: nat)
    ensures r <= a && r <= b
  {
    if a == 0 || b == 0 then 0
    else 2 * BitAnd(a / 2, b / 2) + (if a % 2 == 1 && b % 2 == 1 then 1 else 0)
  }

  /** Bitwise `a | b`. */
  function BitOr(a: nat, b: nat): (r: nat)
    decreases a + b
  {
    if a == 0 then b
    else if b == 0 then a
    else 2 * BitOr(a / 2, b / 2) + (if a % 2 == 1 || b % 2 == 1 then 1 else 0)
  }

  function Shl(a: nat, n: nat): nat { a * Pow2(n) }

  function Shr(a: nat, n: nat): nat { if n == 0 then a else Shr(a / 2, n - 1) }

  lemma {:induction false} Pow2Increasing(k: nat, w: nat)
    requires k < w
    ensures 2 * Pow2(k) <= Pow2(w)
  {
    if k + 1 < w { Pow2Increasing(k, w - 1); }
  }

  lemma {:induction false} Pow2Product(k: nat, j: nat)
    ensures Pow2(k + j) == Pow2(k) * Pow2(j)
  {
    if j != 0 {
      Pow2Product(k, j - 1);
      calc {
        Pow2(k + j);
        2 * Pow2(k + (j - 1));
        2 * (Pow2(k) * Pow2(j - 1));
        Pow2(k) * (2 * Pow2(j - 1));
        Pow2(k) * Pow2(j);
      }
    }
  }

  lemma MulNonZero(d: int, m: int)
    requires m > 0 && d != 0
    ensures d * m >= m || d * m <= -m
  {
  }

  lemma DivMod(x: int, m: int)
    requires m > 0
    ensures x == (x / m) * m + x % m && 0 <= x % m < m
  {
  }

  /** The remainder is the only number of its size that differs by a multiple. */
  lemma ModUnique(x: int, q: int, r: int, m: int)
    requires m > 0 && 0 <= r < m && x == q * m + r
    ensures x % m == r && x / m == q
  {
    DivMod(x, m);
    var d := x / m - q;
    assert d * m == (x / m) * m - q * m;
    if d != 0 { MulNonZero(d, m); }
  }

  lemma ModHalve(x: nat, m: nat)
    requires m > 0
    ensures x % (2 * m) == 2 * (x / 2 % m) + x % 2
  {
    DivMod(x / 2, m);
    var q, r := x / 2 / m, x / 2 % m;
    assert q * (2 * m) == 2 * (q * m);
    ModUnique(x, q, 2 * r + x % 2, 2 * m);
  }

  /** Masking with `2^k - 1` is the remainder modulo `2^k`. */
  lemma {:induction false} MaskIsMod(x: nat, k: nat)
    ensures BitAnd(x, Pow2(k) - 1) == x % Pow2(k)
  {
    if k == 0 {
      assert x % 1 == 0;
    } else if x == 0 {
      ModUnique(0, 0, 0, Pow2(k));
    } else {
      var m := Pow2(k - 1);
      MaskIsMod(x / 2, k - 1);
      ModHalve(x, m);
      assert (2 * m - 1) / 2 == m - 1;
    }
  }

  /** Wrapping at the word size first does not change the slot index. */
  lemma ModOfMod(x: nat, k: nat, w: nat)
    requires k <= w
    ensures (x % Pow2(w)) % Pow2(k) == x % Pow2(k)
  {
    Pow2Product(k, w - k);
    ModOfMultiple(x, Pow2(k), Pow2(w - k));
  }

  lemma ModOfMultiple(x: nat, m: nat, f: nat)
    requires m > 0 && m * f > 0
    ensures (x % (m * f)) % m == x % m
  {
    var W := m * f;
    DivMod(x, W);
    var q, y := x / W, x % W;
    DivMod(y, m);
    var p, r := y / m, y % m;
    assert q * W == (q * f) * m;
    assert (q * f + p) * m == (q * f) * m + p * m;
    ModUnique(x, q * f + p, r, m);
  }

  /** Wrapped subtraction recovers a true difference below the word size. */
  lemma WrapDifference(a: nat, b: nat, m: nat)
    requires 0 <= a - b < m
    ensures ((a % m) - (b % m)) % m == a - b
  {
    DivMod(a, m);
    DivMod(b, m);
    var p, q := a / m, b / m;
    assert (q - p) * m == q * m - p * m;
    ModUnique((a % m) - (b % m), q - p, a - b, m);
  }

  /** Two numbers closer than `m` and congruent modulo `m` are equal. */
  lemma CloseCongruent(a: nat, b: nat, m: nat)
    requires m > 0 && b <= a < b + m && a % m == b % m
    ensures a == b
  {
    WrapDifference(a, b, m);
    ModUnique(0, 0, 0, m);
  }

  /** Incrementing commutes with wrapping. */
  lemma WrapSucc(x: nat, m: nat)
    requires m > 0
    ensures (x % m + 1) % m == (x + 1) % m
  {
    DivMod(x, m);
    var q, r := x / m, x % m;
    if r + 1 == m {
      assert (q + 1) * m == q * m + m;
      ModUnique(x + 1, q + 1, 0, m);
      ModUnique(r + 1, 1, 0, m);
    } else {
      ModUnique(x + 1, q, r + 1, m);
      ModUnique(r + 1, 0, r + 1, m);
    }
  }

  lemma Halves(a: nat, b: nat)
    ensures (2 * a + b) / 2 == a + b / 2 && (2 * a + b) % 2 == b % 2
  {
  }

  lemma DoubleProduct(a: nat, m: nat)
    ensures a * (2 * m) == 2 * (a * m)
  {
  }

  /** Shifting out bits that are all below the shift leaves the rest. */
  lemma {:induction false} ShrField(high: nat, low: nat, n: nat)
    requires low < Pow2(n)
    ensures Shr(high * Pow2(n) + low, n) == high
  {
    if n == 0 {
    } else {
      var m := Pow2(n - 1);
      var x := high * Pow2(n) + low;
      DoubleProduct(high, m);
      Halves(high * m, low);
      ShrField(high, low / 2, n - 1);
    }
  }
}
