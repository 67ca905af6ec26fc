/** The fixed-width integers of the source and the operations C++ performs on them. */
module Words {
  const TWO_31: int := 0x8000_0000
  const TWO_32: int := 0x1_0000_0000

  type UInt8 = x: int | 0 <= x < 0x100
  type UInt32 = x: int | 0 <= x < TWO_32
  type Int32 = x: int | -TWO_31 <= x < TWO_31

  /** Conversion to `uint32_t`: the value modulo 2^32. */
  function U32(x: int): UInt32 {
    x % TWO_32
  }

  /** Conversion to `int32_t`: the two's-complement reading of the low 32 bits. */
  function S32(x: int): Int32 {
    var u := x % TWO_32;
    if u < TWO_31 then u else u - TWO_32
  }

  function Pow2(n: nat): (r: nat)
    ensures r >= 1
  {
    if n == 0 then 1 else 2 * Pow2(n - 1)
  }

  /** Bitwise `&`, `|` and `^` on non-negative integers. */
  function BitAnd(a: nat, b: nat): nat
    decreases a
  {
    if a == 0 || b == 0 then 0
    else 2 * BitAnd(a / 2, b / 2) + (if a % 2 == 1 && b % 2 == 1 then 1 else 0)
  }

  function BitOr(a: nat, b: nat): nat
    decreases a
  {
    if a == 0 then b
    else if b == 0 then a
    else 2 * BitOr(a / 2, b / 2) + (if a % 2 == 1 || b % 2 == 1 then 1 else 0)
  }

  function BitXor(a: nat, b: nat): nat
    decreases a
  {
    if a == 0 then b
    else if b == 0 then a
    else 2 * BitXor(a / 2, b / 2) + (if a % 2 != b % 2 then 1 else 0)
  }

  lemma MaskHalves(h: nat)
    requires h >= 1
    ensures (2 * h - 1) / 2 == h - 1 && (2 * h - 1) % 2 == 1
  {
  }

  lemma HalveMod(x: nat, h: nat)
    requires h >= 1
    ensures x % (2 * h) == 2 * ((x / 2) % h) + x % 2
  {
    var q, r := (x / 2) / h, (x / 2) % h;
    assert x / 2 == h * q + r;
    assert x == (2 * h) * q + (2 * r + x % 2) by {
      assert x == 2 * (x / 2) + x % 2;
      assert 2 * (h * q) == (2 * h) * q;
    }
    ModUnique(x, 2 * h, q, 2 * r + x % 2);
  }

  lemma BitAndOdd(x: nat, h: nat)
    requires h >= 1
    ensures BitAnd(x, 2 * h - 1) == 2 * BitAnd(x / 2, h - 1) + x % 2
  {
    MaskHalves(h);
  }

  /** Masking with `k` one bits keeps the remainder modulo 2^k. */
  lemma {:induction false} BitAndMask(x: nat, k: nat)
    ensures BitAnd(x, Pow2(k) - 1) == x % Pow2(k)
  {
    hide BitAnd;
    if k == 0 {
      BitAndZero(x);
      assert x % 1 == 0;
    } else {
      var h := Pow2(k - 1);
      BitAndMask(x / 2, k - 1);
      HalveMod(x, h);
      BitAndOdd(x, h);
    }
  }

  lemma BitAndZero(x: nat)
    ensures BitAnd(x, 0) == 0
  {
  }

  lemma MultipleInside(d: int, k: int)
    requires -d < d * k < d
    ensures k == 0
  {
  }

  lemma ModUnique(x: int, d: int, q: int, r: int)
    requires 0 <= r < d
    requires x == d * q + r
    ensures x % d == r && x / d == q
  {
    var q', r' := x / d, x % d;
    assert x == d * q' + r';
    assert d * (q - q') == r' - r by {
      assert d * (q - q') == d * q - d * q';
    }
    MultipleInside(d, q - q');
  }

  lemma BitOrEven(a: nat, low: nat)
    requires a > 0 && low > 0
    ensures BitOr(2 * a, low) == 2 * BitOr(a, low / 2) + low % 2
  {
    assert (2 * a) / 2 == a && (2 * a) % 2 == 0;
  }

  lemma ProductPositive(h: nat, b: nat)
    requires h > 0 && b > 0
    ensures h * b > 0 && h * (2 * b) == 2 * (h * b)
  {
  }

  /** Or-ing a field into bits that are still clear adds it. */
  lemma {:induction false} BitOrDisjoint(h: nat, low: nat, k: nat)
    requires low < Pow2(k)
    ensures BitOr(h * Pow2(k), low) == h * Pow2(k) + low
  {
    if k > 0 && h > 0 && low > 0 {
      var b := Pow2(k - 1);
      BitOrDisjoint(h, low / 2, k - 1);
      ProductPositive(h, b);
      BitOrEven(h * b, low);
    } else if h == 0 {
      assert h * Pow2(k) == 0;
    }
  }

  /** Flipping bit `k` of a value below 2^(k+1). */
  lemma {:induction false} BitXorTop(v: nat, k: nat)
    requires v < 2 * Pow2(k)
    ensures BitXor(v, Pow2(k)) == if v < Pow2(k) then v + Pow2(k) else v - Pow2(k)
  {
    if k > 0 && v > 0 {
      BitXorTop(v / 2, k - 1);
      var h := Pow2(k - 1);
      assert (2 * h) / 2 == h && (2 * h) % 2 == 0;
    } else if k == 0 && v == 1 {
      assert BitXor(1, 1) == 2 * BitXor(0, 0) + 0;
    }
  }

  lemma U32OfS32(x: int)
    ensures U32(S32(x)) == U32(x)
    ensures S32(U32(x)) == S32(x)
  {
  }

  /** An effective address computed in signed arithmetic and then truncated is the
      wrapped unsigned address. */
  lemma AddressArithmetic(base: int, offset: int)
    ensures U32(S32(base + offset)) == U32(U32(base) + offset)
  {
    U32OfS32(base + offset);
    ModUnique(U32(base) + offset, TWO_32, (U32(base) + offset) / TWO_32, U32(U32(base) + offset));
    var q := base / TWO_32 + (U32(base) + offset) / TWO_32;
    assert base + offset == TWO_32 * q + U32(U32(base) + offset);
    ModUnique(base + offset, TWO_32, q, U32(U32(base) + offset));
  }
}
