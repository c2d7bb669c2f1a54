/** Machine-word arithmetic of the ring: powers of two, bitwise and, and 64-bit wrap-around.
    `std::size_t` is 64 bits wide on the platforms the plugin is built for. */
module Bits {

  /** Number of values of a `std::size_t`. */
  const WORD: nat := 0x1_0000_0000_0000_0000

  type Word = x: nat | x < WORD

  function Pow2(k: nat): (p: nat)
    ensures p >= 1
  {
    if k == 0 then 1 else 2 * Pow2(k - 1)
  }

  /** The `&` operator on naturals, bit by bit. */
  function BitAnd(x: nat, y: nat): (r: nat)
    ensures r <= y
  {
    if x == 0 || y == 0 then 0
    else 2 * BitAnd(x / 2, y / 2) + (if x % 2 == 1 && y % 2 == 1 then 1 else 0)
  }

  /** `size_t` increment. */
  function Inc(x: nat): nat
    requires x < WORD
  {
    if x + 1 == WORD then 0 else x + 1
  }

  /** `size_t` subtraction, which wraps instead of going negative. */
  function Sub(x: nat, y: nat): nat
    requires x < WORD && y < WORD
  {
    if y <= x then x - y else x + WORD - y
  }

  // ----- division facts -----

  lemma MulGap(a: int, b: int, d: nat)
    requires a > b
    ensures a * d >= b * d + d
  {
    var e := a - b - 1;
    assert e * d >= 0;
    assert a * d == (b + 1 + e) * d == b * d + d + e * d;
  }

  lemma MulMonotone(a: int, b: int, d: nat)
    requires a <= b
    ensures a * d <= b * d
  {
    if a < b { MulGap(b, a, d); }
  }

  lemma ModUnique(x: int, q: int, d: nat, r: nat)
    requires r < d
    requires x == q * d + r
    ensures x % d == r
  {
    var q', r' := x / d, x % d;
    assert x == q' * d + r';
    if q > q' { MulGap(q, q', d); } else if q < q' { MulGap(q', q, d); }
  }

  lemma ModAddMultiple(x: int, m: int, d: nat)
    requires d > 0
    ensures (x + m * d) % d == x % d
  {
    assert x + m * d == (x / d + m) * d + x % d;
    ModUnique(x + m * d, x / d + m, d, x % d);
  }

  lemma ModOfMod(x: int, m: nat, d: nat)
    requires d > 0 && m > 0
    ensures (x % (m * d)) % d == x % d
  {
    var q := x / (m * d);
    assert x == q * (m * d) + x % (m * d);
    assert x % (m * d) == x + (-q * m) * d;
    ModAddMultiple(x, -q * m, d);
  }

  lemma ModOfWrapped(x: nat, i: nat, m: nat, d: nat)
    requires d > 0 && m > 0
    ensures (x % (m * d) + i) % d == (x + i) % d
  {
    var w := m * d;
    var q := x / w;
    assert x == q * w + x % w;
    assert q * w == (q * m) * d;
    ModAddMultiple(x % w + i, q * m, d);
  }

  /** Two indices less than a period apart fall on different residues. */
  lemma ModDistinct(a: int, b: int, d: nat)
    requires 0 < b - a < d
    ensures a % d != b % d
  {
    var qa, qb := a / d, b / d;
    assert a == qa * d + a % d && b == qb * d + b % d;
    if qb > qa { MulGap(qb, qa, d); } else if qb < qa { MulGap(qa, qb, d); }
    if qb > qa + 1 { MulGap(qb, qa + 1, d); }
  }

  // ----- powers of two -----

  lemma {:induction false} Pow2Add(a: nat, b: nat)
    ensures Pow2(a + b) == Pow2(a) * Pow2(b)
  {
    if a > 0 { Pow2Add(a - 1, b); }
  }

  lemma {:induction false} Pow2Monotone(a: nat, b: nat)
    requires a <= b
    ensures Pow2(a) <= Pow2(b)
    ensures a < b ==> Pow2(a) < Pow2(b)
  {
    if a < b { Pow2Monotone(a, b - 1); }
  }

  lemma WordIsPow2()
    ensures Pow2(64) == WORD && Pow2(63) == 0x8000_0000_0000_0000
  {
    assert Pow2(4) == 16;
    Pow2Add(4, 4);
    Pow2Add(8, 8);
    Pow2Add(16, 16);
    Pow2Add(32, 32);
    assert Pow2(64) == 2 * Pow2(63);
  }

  /** Masking with 2^k - 1 is reduction modulo 2^k. */
  lemma {:induction false} MaskIsMod(x: nat, k: nat)
    ensures BitAnd(x, Pow2(k) - 1) == x % Pow2(k)
  {
    if k > 0 {
      var m := Pow2(k - 1);
      MaskIsMod(x / 2, k - 1);
      assert Pow2(k) == 2 * m;
      AndLow(x, m);
      HalveMod(x, m);
      hide *;
    }
  }

  lemma AndLow(x: nat, m: nat)
    requires m > 0
    ensures BitAnd(x, 2 * m - 1) == 2 * BitAnd(x / 2, m - 1) + x % 2
  {
    assert (2 * m - 1) / 2 == m - 1 && (2 * m - 1) % 2 == 1;
  }

  lemma HalveMod(x: nat, m: nat)
    requires m > 0
    ensures x % (2 * m) == 2 * ((x / 2) % m) + x % 2
  {
    var q, r := (x / 2) / m, (x / 2) % m;
    assert x / 2 == q * m + r;
    assert x == 2 * (x / 2) + x % 2;
    assert 2 * (q * m) == q * (2 * m);
    ModUnique(x, q, 2 * m, 2 * r + x % 2);
  }

  // ----- wrapped counters agree with unbounded ones -----

  /** The wrapped difference of two counters is their true difference, as long as that fits a word. */
  lemma SubAgrees(h: nat, t: nat)
    requires t <= h && h - t < WORD
    ensures Sub(h % WORD, t % WORD) == h - t
  {
    var qh, qt := h / WORD, t / WORD;
    assert h == qh * WORD + h % WORD && t == qt * WORD + t % WORD;
  }

  lemma IncAgrees(h: nat)
    ensures Inc(h % WORD) == (h + 1) % WORD
  {
  }

  lemma WordFactor(k: nat)
    requires k <= 63
    ensures Pow2(64 - k) * Pow2(k) == WORD
    ensures Pow2(k) < WORD
  {
    WordIsPow2();
    Pow2Add(64 - k, k);
    Pow2Monotone(k, 64);
  }

  /** Masking the wrapped counter picks the same slot as reducing the unbounded one. */
  lemma MaskAgrees(h: nat, k: nat)
    requires k <= 63
    ensures BitAnd(h % WORD, Pow2(k) - 1) == h % Pow2(k)
  {
    MaskIsMod(h % WORD, k);
    WordFactor(k);
    ModOfMod(h, Pow2(64 - k), Pow2(k));
  }
}
