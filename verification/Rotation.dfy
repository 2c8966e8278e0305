/** The character cipher of A3: a rotation of a signed 32-bit integer, written with C's
    arithmetic right shift and wrapping left shift. */
module Rotation {

  const WORD := 0x1_0000_0000
  const HALF := 0x8000_0000

  function Pow2(k: nat): (p: nat)
    ensures p > 0
  {
    if k == 0 then 1 else 2 * Pow2(k - 1)
  }

  /** Bitwise or, bit by bit from the lowest. */
  function BitOr(a: nat, b: nat): nat
    decreases a + b
  {
    if a == 0 && b == 0 then 0
    else 2 * BitOr(a / 2, b / 2) + (if a % 2 == 1 || b % 2 == 1 then 1 else 0)
  }

  predicate IsInt32(n: int) {
    -HALF <= n < HALF
  }

  function Unsigned(n: int): (u: nat)
    ensures u < WORD
  {
    n % WORD
  }

  function Signed(u: nat): (n: int)
    requires u < WORD
    ensures IsInt32(n)
  {
    if u < HALF then u else u - WORD
  }

  function ShiftRight(n: int, k: nat): int {
    n / Pow2(k)
  }

  function ShiftLeft(n: int, k: nat): int {
    Signed(Unsigned(n * Pow2(k)))
  }

  function Or(a: int, b: int): int {
    var u := BitOr(Unsigned(a), Unsigned(b));
    Signed(u % WORD)
  }

  /** Rotation as both programs spell it: what falls out on the left should come in on the right,
      but the right shift is arithmetic. */
  function Rotate(n: int, k: nat): int
    requires k <= 32
  {
    Or(ShiftRight(n, 32 - k), ShiftLeft(n, k))
  }

  /** `n >> (32 - key) | n << key` */
  function Encode(n: int, key: nat): int
    requires key <= 32
  {
    Rotate(n, key)
  }

  /** `n >> key | n << (32 - key)` */
  function Decode(n: int, key: nat): int
    requires key <= 32
  {
    Rotate(n, 32 - key)
  }

  // ---------- powers of two and bitwise or ----------

  lemma TwiceProduct(p: nat, q: nat)
    ensures (2 * p) * q == 2 * (p * q)
  {
  }

  lemma {:induction false} Pow2Sum(a: nat, b: nat)
    ensures Pow2(a) * Pow2(b) == Pow2(a + b)
  {
    if a == 0 {
    } else {
      Pow2Sum(a - 1, b);
      TwiceProduct(Pow2(a - 1), Pow2(b));
    }
  }

  lemma Pow2Of32()
    ensures Pow2(32) == WORD
  {
    assert Pow2(8) == 256;
    Pow2Sum(8, 8);
    Pow2Sum(16, 16);
  }

  lemma WordIsProduct(key: nat)
    requires key <= 32
    ensures Pow2(key) * Pow2(32 - key) == WORD
  {
    Pow2Sum(key, 32 - key);
    Pow2Of32();
  }

  lemma {:induction false} OrWithZero(b: nat)
    ensures BitOr(0, b) == b
  {
    if b == 0 {
    } else {
      OrWithZero(b / 2);
    }
  }

  lemma OrWithOdd(a: nat, b: nat)
    ensures BitOr(2 * a + 1, b) == 2 * BitOr(a, b / 2) + 1
  {
    assert (2 * a + 1) / 2 == a && (2 * a + 1) % 2 == 1;
  }

  lemma {:induction false} OrWithOnes(k: nat, b: nat)
    requires b < Pow2(k)
    ensures BitOr(Pow2(k) - 1, b) == Pow2(k) - 1
  {
    if k == 0 {
      assert BitOr(0, 0) == 0;
    } else {
      var p := Pow2(k - 1);
      OrWithOdd(p - 1, b);
      OrWithOnes(k - 1, b / 2);
    }
  }

  /** Low bits that only one side has are passed through. */
  lemma {:induction false} OrAligned(a: nat, r: nat, b: nat, k: nat)
    requires r < Pow2(k)
    ensures BitOr(a * Pow2(k) + r, b * Pow2(k)) == BitOr(a, b) * Pow2(k) + r
  {
    if k == 0 {
    } else {
      var p := Pow2(k - 1);
      OrAligned(a, r / 2, b, k - 1);
      Doubled(a, p);
      Doubled(b, p);
      Doubled(BitOr(a, b), p);
      var x, y := a * Pow2(k) + r, b * Pow2(k);
      assert x / 2 == a * p + r / 2 && x % 2 == r % 2;
      assert y / 2 == b * p && y % 2 == 0;
      if x == 0 && y == 0 {
        ZeroOr(a, b, p, r);
      }
    }
  }

  lemma Doubled(a: nat, p: nat)
    ensures a * (2 * p) == 2 * (a * p)
  {
  }

  lemma ZeroOr(a: nat, b: nat, p: nat, r: nat)
    requires p > 0 && a * (2 * p) + r == 0 && b * (2 * p) == 0
    ensures a == 0 && b == 0 && r == 0
  {
  }

  // ---------- one rotation step on the two halves of a word ----------

  /** Shifting high * q + low left by the key drops the high part. */
  lemma LeftShiftDropsHigh(high: int, low: nat, p: nat, q: nat)
    requires p * q == WORD && low < q
    ensures 0 <= low * p < WORD
    ensures Unsigned((high * q + low) * p) == low * p
  {
    assert low * p <= (q - 1) * p;
    assert (high * q + low) * p == high * WORD + low * p by {
      assert (high * q + low) * p == high * q * p + low * p;
      assert high * q * p == high * (p * q);
    }
  }

  lemma MultipleAtLeast(e: int, q: nat)
    ensures e >= 1 ==> e * q >= q
    ensures e <= -1 ==> e * q + q <= 0
  {
    if e >= 1 {
      assert e * q == q + (e - 1) * q;
    } else if e <= -1 {
      assert e * q + q == (e + 1) * q;
    }
  }

  lemma RightShift(high: int, low: nat, q: nat)
    requires low < q
    ensures (high * q + low) / q == high
  {
    var d, m := (high * q + low) / q, (high * q + low) % q;
    var e := d - high;
    assert high * q + low == d * q + m;
    assert e * q == d * q - high * q;
    MultipleAtLeast(e, q);
  }

  lemma UnsignedOfSigned(u: nat)
    requires u < WORD
    ensures Unsigned(Signed(u)) == u
  {
  }

  /** Both shifts of high * 2^(32-k) + low, where k is the left shift's amount. */
  lemma ShiftsOfHalves(k: nat, high: int, low: nat)
    requires k <= 32 && low < Pow2(32 - k)
    ensures ShiftRight(high * Pow2(32 - k) + low, 32 - k) == high
    ensures 0 <= low * Pow2(k) < WORD
    ensures Unsigned(ShiftLeft(high * Pow2(32 - k) + low, k)) == low * Pow2(k)
  {
    WordIsProduct(k);
    LeftShiftDropsHigh(high, low, Pow2(k), Pow2(32 - k));
    RightShift(high, low, Pow2(32 - k));
    UnsignedOfSigned(low * Pow2(k));
  }

  lemma OrOfWords(x: int, y: int, u: nat)
    requires BitOr(Unsigned(x), Unsigned(y)) == u && u < WORD
    ensures Or(x, y) == Signed(u)
  {
  }

  /** Or of a right-shifted part and a left-shifted part, when the right-shifted part is
      `a * 2^k + r` as an unsigned word and the other one is `b * 2^k`. */
  lemma OrOfShifts(x: int, y: int, a: nat, r: nat, b: nat, k: nat)
    requires r < Pow2(k) && Unsigned(x) == a * Pow2(k) + r && Unsigned(y) == b * Pow2(k)
    requires BitOr(a, b) * Pow2(k) + r < WORD
    ensures Or(x, y) == Signed(BitOr(a, b) * Pow2(k) + r)
  {
    OrAligned(a, r, b, k);
    OrOfWords(x, y, BitOr(a, b) * Pow2(k) + r);
  }

  lemma ProductBelow(b: nat, r: nat, p: nat, q: nat)
    requires p * q == WORD && b < q && r < p
    ensures b * p + r < WORD
  {
    assert b * p <= (q - 1) * p;
    assert (q - 1) * p == WORD - p;
  }

  lemma FactorBound(p: nat, q: nat)
    requires p * q == WORD && p > 0 && q > 0
    ensures p <= WORD && q <= WORD
  {
    assert p * q >= p * 1 && p * q >= 1 * q;
  }

  /** Without sign bits in play the two parts of the word change places. */
  lemma RotateNonNegative(n: int, k: nat, high: nat, low: nat)
    requires k <= 32 && low < Pow2(32 - k) && high < Pow2(k) && n == high * Pow2(32 - k) + low
    ensures 0 <= low * Pow2(k) + high < WORD
    ensures Rotate(n, k) == Signed(low * Pow2(k) + high)
  {
    WordIsProduct(k);
    FactorBound(Pow2(k), Pow2(32 - k));
    ShiftsOfHalves(k, high, low);
    ProductBelow(low, high, Pow2(k), Pow2(32 - k));
    OrWithZero(low);
    assert Unsigned(high) == high;
    OrOfShifts(ShiftRight(n, 32 - k), ShiftLeft(n, k), 0, high, low, k);
  }

  lemma NegativeWord(high: int, p: nat, q: nat)
    requires p * q == WORD && p > 0 && q > 0 && 0 <= high + p && high < 0
    ensures (q - 1) * p + (high + p) == high + WORD
    ensures Unsigned(high) == high + WORD
  {
    FactorBound(p, q);
    assert (q - 1) * p == WORD - p;
  }

  /** Sign bits swallow everything shifted left: only the right shift's result remains. */
  lemma RotateNegative(n: int, k: nat, j: nat, high: int, low: nat)
    requires k + j == 32 && low < Pow2(j) && 0 <= high + Pow2(k) && high < 0 && n == high * Pow2(j) + low
    requires IsInt32(high)
    ensures Rotate(n, k) == high
  {
    assert j == 32 - k;
    WordIsProduct(k);
    ShiftsOfHalves(k, high, low);
    OrWithOnes(j, low);
    NegativeWord(high, Pow2(k), Pow2(j));
    OrOfShifts(ShiftRight(n, j), ShiftLeft(n, k), Pow2(j) - 1, high + Pow2(k), low, k);
  }

  // ---------- encode and decode ----------

  lemma HalfOfWord(key: nat)
    requires 1 <= key <= 31
    ensures Pow2(32 - key) == 2 * Pow2(31 - key)
    ensures Pow2(key) * Pow2(31 - key) == HALF
    ensures 2 <= Pow2(key) && Pow2(32 - key) <= HALF && Pow2(key) <= HALF
  {
    WordIsProduct(key);
    assert Pow2(key) == 2 * Pow2(key - 1);
    Halved(Pow2(key), Pow2(31 - key));
    FactorBound(Pow2(key), Pow2(32 - key));
  }

  lemma Halved(p: nat, b: nat)
    requires p * (2 * b) == WORD && p >= 2 && b > 0
    ensures p * b == HALF && 2 * b <= HALF && p <= HALF
  {
    assert p * (2 * b) == 2 * (p * b);
    assert p * b >= p * 1 && p * b >= 2 * b;
  }

  /** The bit that encoding moves into the sign position. */
  predicate TopBitClear(n: nat, key: nat)
    requires key <= 31
  {
    n / Pow2(31 - key) % 2 == 0
  }

  lemma TopBitOfHalves(n: nat, high: nat, low: nat, b: nat)
    requires b > 0 && low < 2 * b && n == high * (2 * b) + low
    ensures n / b % 2 == 0 <==> low < b
  {
    var r := if low < b then low else low - b;
    var h := 2 * high + if low < b then 0 else 1;
    assert n == h * b + r by {
      assert high * (2 * b) == (2 * high) * b;
    }
    RightShift(h, r, b);
  }

  /** Cuts n before its lowest bits, those below q. */
  lemma Cut(n: int, q: nat) returns (high: int, low: nat)
    requires q > 0
    ensures n == high * q + low && low < q
  {
    high, low := n / q, n % q;
  }

  lemma HighPartBounds(n: int, high: int, low: nat, p: nat, q: nat)
    requires p * q == WORD && n == high * q + low && low < q && -WORD <= n < WORD
    ensures 0 <= high + p && high < p
    ensures n < 0 <==> high < 0
  {
    MultipleAtLeast(high, q);
    MultipleAtLeast(high - p, q);
    MultipleAtLeast(high + p, q);
    assert (high - p) * q == high * q - WORD;
    assert (high + p) * q == high * q + WORD;
  }

  lemma LowHalfBelow(low: nat, high: nat, p: nat, b: nat)
    requires p * b == HALF && low < b && high < p
    ensures low * p + high < HALF
  {
    assert low * p <= (b - 1) * p == HALF - p;
  }

  lemma HighHalfIsNegative(low: nat, high: nat, p: nat, b: nat)
    requires p * b == HALF && b <= low && low * p + high < WORD
    ensures HALF <= low * p + high
    ensures Signed(low * p + high) == (low - 2 * b) * p + high
  {
    assert low * p >= b * p;
    assert (low - 2 * b) * p == low * p - 2 * (b * p);
  }

  /** Encoding a non-negative number exchanges its two halves. */
  lemma EncodeNonNegative(n: nat, key: nat) returns (high: nat, low: nat)
    requires 1 <= key <= 31 && n < HALF
    ensures n == high * Pow2(32 - key) + low && low < Pow2(32 - key) && high < Pow2(key)
    ensures 0 <= low * Pow2(key) + high < WORD && Encode(n, key) == Signed(low * Pow2(key) + high)
    ensures TopBitClear(n, key) <==> low < Pow2(31 - key)
  {
    WordIsProduct(key);
    var h, l := Cut(n, Pow2(32 - key));
    HighPartBounds(n, h, l, Pow2(key), Pow2(32 - key));
    high, low := h, l;
    RotateNonNegative(n, key, high, low);
    TopBitOfHalves(n, high, low, Pow2(31 - key));
  }

  lemma RotateBack(m: nat, k: nat, high: nat, low: nat, q: nat)
    requires k <= 32 && q == Pow2(32 - k) && m == high * q + low && low < q && high < Pow2(k)
    ensures 0 <= low * Pow2(k) + high < WORD && Rotate(m, k) == Signed(low * Pow2(k) + high)
  {
    RotateNonNegative(m, k, high, low);
  }

  lemma DecodeNonNegative(m: nat, key: nat, high: nat, low: nat)
    requires 1 <= key <= 31 && m == high * Pow2(key) + low && low < Pow2(key) && high < Pow2(32 - key)
    ensures 0 <= low * Pow2(32 - key) + high < WORD && Decode(m, key) == Signed(low * Pow2(32 - key) + high)
  {
    RotateBack(m, 32 - key, high, low, Pow2(key));
  }

  lemma DecodeNegative(m: int, key: nat, high: int, low: nat)
    requires 1 <= key <= 31 && m == high * Pow2(key) + low && low < Pow2(key)
    requires 0 <= high + Pow2(32 - key) && high < 0
    ensures Decode(m, key) == high
  {
    HalfOfWord(key);
    RotateNegative(m, 32 - key, key, high, low);
  }

  lemma NonNegativeRoundTrip(n: nat, key: nat)
    requires 1 <= key <= 31 && n < HALF
    ensures Decode(Encode(n, key), key) == n <==> TopBitClear(n, key)
  {
    HalfOfWord(key);
    var high, low := EncodeNonNegative(n, key);
    if low < Pow2(31 - key) {
      LowHalfBelow(low, high, Pow2(key), Pow2(31 - key));
      DecodeNonNegative(low * Pow2(key) + high, key, low, high);
    } else {
      HighHalfIsNegative(low, high, Pow2(key), Pow2(31 - key));
      DecodeNegative(low * Pow2(key) + high - WORD, key, low - Pow2(32 - key), high);
    }
  }

  /** A negative number is not rotated but divided: the sign bits cover what comes in. */
  lemma NegativeIsDivided(n: int, key: nat)
    requires 1 <= key <= 31 && -HALF <= n < 0
    ensures Encode(n, key) == ShiftRight(n, 32 - key)
    ensures ShiftRight(n, 32 - key) < 0 <= ShiftRight(n, 32 - key) + Pow2(key)
  {
    HalfOfWord(key);
    WordIsProduct(key);
    var high, low := Cut(n, Pow2(32 - key));
    HighPartBounds(n, high, low, Pow2(key), Pow2(32 - key));
    RightShift(high, low, Pow2(32 - key));
    RotateNegative(n, key, 32 - key, high, low);
  }

  /** Decoding then leaves only sign bits. */
  lemma NegativeDecodesToMinusOne(n: int, key: nat)
    requires 1 <= key <= 31 && -HALF <= n < 0
    ensures Decode(Encode(n, key), key) == -1
  {
    HalfOfWord(key);
    NegativeIsDivided(n, key);
    var high := ShiftRight(n, 32 - key);
    DecodeNegative(high, key, -1, high + Pow2(key));
  }

  /** Decoding undoes encoding exactly for the non-negative numbers whose bit 31 - key is clear,
      and for -1. */
  lemma DecodeUndoesEncodeIff(n: int, key: nat)
    requires 1 <= key <= 31 && IsInt32(n)
    ensures Decode(Encode(n, key), key) == n <==> n == -1 || (n >= 0 && TopBitClear(n, key))
  {
    if n >= 0 {
      NonNegativeRoundTrip(n, key);
    } else {
      NegativeDecodesToMinusOne(n, key);
    }
  }

  /** Below 2^(31 - key) encoding is multiplication by 2^key. */
  lemma EncodeMultiplies(n: nat, key: nat)
    requires 1 <= key <= 31 && n < Pow2(31 - key)
    ensures Encode(n, key) == n * Pow2(key)
    ensures TopBitClear(n, key)
  {
    HalfOfWord(key);
    RotateNonNegative(n, key, 0, n);
    LowHalfBelow(n, 0, Pow2(key), Pow2(31 - key));
    TopBitOfHalves(n, 0, n, Pow2(31 - key));
  }
}
