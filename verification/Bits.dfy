/** Unsigned machine words as naturals: the shifts and masks CIDR arithmetic is made of. */
module Bits {

  function Pow2(n: nat): (r: nat)
    ensures r >= 1
  {
    if n == 0 then 1 else 2 * Pow2(n - 1)
  }

  function BitAnd(x: nat, y: nat): nat {
    if x == 0 || y == 0 then 0
    else (if x % 2 == 1 && y % 2 == 1 then 1 else 0) + 2 * BitAnd(x / 2, y / 2)
  }

  function BitOr(x: nat, y: nat): nat {
    if x == 0 then y else if y == 0 then x
    else (if x % 2 == 1 || y % 2 == 1 then 1 else 0) + 2 * BitOr(x / 2, y / 2)
  }

  /** The largest word of `width` bits. */
  function MaxWord(width: nat): nat {
    Pow2(width) - 1
  }

  /** `x << k` on words of `width` bits, bit by bit: what is shifted out is lost. */
  function Shl(width: nat, x: nat, k: nat): nat
    decreases k
  {
    if k == 0 then x
    else Shl(width, if 2 * x >= Pow2(width) then 2 * x - Pow2(width) else 2 * x, k - 1)
  }

  /** The low `k` bits of `x` are zero. */
  predicate Aligned(x: nat, k: nat) {
    k == 0 || (x % 2 == 0 && Aligned(x / 2, k - 1))
  }

  /** `x` with its low `k` bits cleared. */
  function Clear(x: nat, k: nat): nat {
    if k == 0 then x else 2 * Clear(x / 2, k - 1)
  }

  /** `x` times 2^k. */
  function Up(x: nat, k: nat): nat {
    if k == 0 then x else 2 * Up(x, k - 1)
  }

  lemma {:induction false} PowMonotone(a: nat, b: nat)
    requires a <= b
    ensures Pow2(a) <= Pow2(b)
  {
    if a < b { PowMonotone(a, b - 1); }
  }

  /** Shifting the mask of the bits from `j` up by `k` gives the mask of the bits from `j + k` up. */
  lemma {:induction false} ShiftMask(width: nat, j: nat, k: nat)
    requires j + k < width
    ensures Pow2(width) >= Pow2(j + k) && Pow2(width) >= Pow2(j)
    ensures Shl(width, Pow2(width) - Pow2(j), k) == Pow2(width) - Pow2(j + k)
    decreases k
  {
    PowMonotone(j + k, width);
    PowMonotone(j, width);
    if k > 0 {
      PowMonotone(j + 1, width);
      ShiftMask(width, j + 1, k - 1);
    }
  }

  /** Shifting a single bit within the word. */
  lemma {:induction false} ShiftOne(width: nat, j: nat, k: nat)
    requires j + k < width
    ensures Shl(width, Pow2(j), k) == Pow2(j + k)
    decreases k
  {
    if k > 0 {
      PowMonotone(j + 2, width);
      ShiftOne(width, j + 1, k - 1);
    }
  }

  /** A shift that loses nothing multiplies. */
  lemma {:induction false} ShiftUp(width: nat, x: nat, k: nat)
    requires k <= width && x < Pow2(width - k)
    ensures Shl(width, x, k) == Up(x, k)
    decreases k
  {
    if k > 0 {
      PowMonotone(width - k + 1, width);
      ShiftUp(width, 2 * x, k - 1);
      UpTwice(x, k - 1);
    }
  }

  lemma {:induction false} UpTwice(x: nat, k: nat)
    ensures Up(2 * x, k) == 2 * Up(x, k)
  {
    if k > 0 { UpTwice(x, k - 1); }
  }

  /** Masking with a prefix mask clears the low bits. */
  lemma {:induction false} AndMask(width: nat, x: nat, k: nat)
    requires k <= width && x < Pow2(width)
    ensures Pow2(width) >= Pow2(k)
    ensures BitAnd(x, Pow2(width) - Pow2(k)) == Clear(x, k)
    decreases width
  {
    PowMonotone(k, width);
    if width > 0 {
      var m := Pow2(width) - Pow2(k);
      if k == 0 {
        AndMask(width - 1, x / 2, 0);
        assert m % 2 == 1 && m / 2 == Pow2(width - 1) - 1;
      } else {
        AndMask(width - 1, x / 2, k - 1);
        assert m % 2 == 0 && m / 2 == Pow2(width - 1) - Pow2(k - 1);
        if x == 0 { ClearZero(k); }
        if m == 0 { ClearSmall(x, k); }
      }
    }
  }

  lemma {:induction false} ClearZero(k: nat)
    ensures Clear(0, k) == 0
  {
    if k > 0 { ClearZero(k - 1); }
  }

  lemma {:induction false} ClearSmall(x: nat, k: nat)
    requires x < Pow2(k)
    ensures Clear(x, k) == 0
  {
    if k > 0 { ClearSmall(x / 2, k - 1); }
  }

  lemma {:induction false} ClearAligned(x: nat, k: nat)
    requires Aligned(x, k)
    ensures Clear(x, k) == x
  {
    if k > 0 { ClearAligned(x / 2, k - 1); }
  }

  /** Clearing gives the aligned block of 2^k words that holds `x`. */
  lemma {:induction false} ClearIs(x: nat, k: nat, width: nat)
    requires k <= width && x < Pow2(width)
    ensures Aligned(Clear(x, k), k) && Clear(x, k) <= x < Clear(x, k) + Pow2(k) <= Pow2(width)
    decreases k
  {
    if k > 0 { ClearIs(x / 2, k - 1, width - 1); }
  }

  /** Setting bits below an aligned word adds them. */
  lemma {:induction false} OrLow(n: nat, h: nat, k: nat)
    requires Aligned(n, k) && h < Pow2(k)
    ensures BitOr(n, h) == n + h
    decreases k
  {
    if k > 0 { OrLow(n / 2, h / 2, k - 1); }
  }

  /** Two aligned blocks nest, or lie apart. */
  lemma {:induction false} NestOrApart(a: nat, j: nat, b: nat, k: nat)
    requires j <= k && Aligned(a, j) && Aligned(b, k)
    ensures || a + Pow2(j) <= b || b + Pow2(k) <= a
            || (b <= a && a + Pow2(j) <= b + Pow2(k))
    decreases j
  {
    if j > 0 { NestOrApart(a / 2, j - 1, b / 2, k - 1); }
  }

  /** An aligned word plus a smaller aligned word is aligned to the smaller. */
  lemma {:induction false} AlignedSum(a: nat, k: nat, b: nat, j: nat)
    requires j <= k && Aligned(a, k) && Aligned(b, j)
    ensures Aligned(a + b, j)
    decreases j
  {
    if j > 0 {
      AlignedSum(a / 2, k - 1, b / 2, j - 1);
      assert (a + b) / 2 == a / 2 + b / 2;
    }
  }

  lemma {:induction false} UpAligned(x: nat, k: nat)
    ensures Aligned(Up(x, k), k)
  {
    if k > 0 {
      UpAligned(x, k - 1);
      assert Up(x, k) / 2 == Up(x, k - 1);
    }
  }

  lemma {:induction false} UpBelow(x: nat, k: nat, n: nat)
    requires x < Pow2(n)
    ensures Up(x, k) + Pow2(k) <= Pow2(n + k)
    decreases k
  {
    if k > 0 { UpBelow(x, k - 1, n); }
  }

  lemma {:induction false} UpInjective(x: nat, y: nat, k: nat)
    requires Up(x, k) == Up(y, k)
    ensures x == y
  {
    if k > 0 { UpInjective(x, y, k - 1); }
  }

  /** A shifted index is a multiple of 2^k that stays inside 2^m. */
  lemma ShiftFits(width: nat, m: nat, k: nat, idx: nat)
    requires k <= m <= width && idx < Pow2(m - k)
    ensures var up := Shl(width, idx, k);
            up == Up(idx, k) && Aligned(up, k) && up + Pow2(k) <= Pow2(m)
  {
    PowMonotone(m - k, width - k);
    ShiftUp(width, idx, k);
    UpBelow(idx, k, m - k);
    UpAligned(idx, k);
  }

  /** Block `idx` of 2^k words inside an aligned block of 2^m: where it starts, and that it fits. */
  lemma SubBlock(width: nat, n: nat, m: nat, k: nat, idx: nat)
    requires k <= m <= width && Aligned(n, m) && idx < Pow2(m - k)
    ensures BitOr(n, Shl(width, idx, k)) == n + Up(idx, k)
    ensures Aligned(n + Up(idx, k), k) && n + Up(idx, k) + Pow2(k) <= n + Pow2(m)
  {
    ShiftFits(width, m, k, idx);
    OrLow(n, Up(idx, k), m);
    AlignedSum(n, m, Up(idx, k), k);
  }

  lemma TwiceOrMore(q: nat, n: nat)
    requires q >= 2
    ensures q * n >= 2 * n
  {
    assert q * n == (q - 2) * n + 2 * n;
  }

  /** One subtraction reduces a sum of two residues. */
  lemma ReduceOnce(x: nat, n: nat)
    requires x < 2 * n
    ensures x % n == if x < n then x else x - n
  {
    var q := x / n;
    assert x == q * n + x % n;
    if q >= 2 { TwiceOrMore(q, n); }
  }
}
