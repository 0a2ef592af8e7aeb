/** Unsigned machine-word arithmetic on natural numbers.

    The runtime works on `StgWord`s with C's `&`, `|` and `~`.  Words are
    modelled as naturals below `Pow2(w)`; `BitAnd` and `BitOr` are the bitwise
    operators defined digit by digit, and the lemmas below connect them to
    division and remainder by powers of two, which is how the tagging and
    forwarding code is reasoned about.
 */
module Bits {

  function Pow2(k: nat): (r: nat)
    ensures r >= 1
  {
    if k == 0 then 1 else 2 * Pow2(k - 1)
  }

  /** A value that fits in an unsigned word of `w` bits. */
  predicate IsWord(p: nat, w: nat) {
    p < Pow2(w)
  }

  /** C's `a & b` on unsigned integers. */
  function BitAnd(a: nat, b: nat): nat
    decreases a
  {
    if a == 0 || b == 0 then 0
    else 2 * BitAnd(a / 2, b / 2) + (if a % 2 == 1 && b % 2 == 1 then 1 else 0)
  }

  /** C's `a | b` on unsigned integers. */
  function BitOr(a: nat, b: nat): nat
    decreases a + b
  {
    if a == 0 then b
    else if b == 0 then a
    else 2 * BitOr(a / 2, b / 2) + (if a % 2 == 1 || b % 2 == 1 then 1 else 0)
  }

  /** C's `~m` on an unsigned word of `w` bits. */
  function BitNot(m: nat, w: nat): (r: nat)
    requires IsWord(m, w)
    ensures IsWord(r, w) && r + m == Pow2(w) - 1
  {
    Pow2(w) - 1 - m
  }

  // ---------------------------------------------------------------------
  // Arithmetic helpers

  lemma DivModUnique(a: nat, d: nat, q: nat, r: nat)
    requires 0 <= r < d && a == d * q + r
    ensures a / d == q && a % d == r
  {
    var q', r' := a / d, a % d;
    assert d * (q - q') == r' - r;
    MulBoundsZero(d, q - q');
  }

  lemma MulBoundsZero(d: int, x: int)
    requires d > 0
    ensures x >= 1 ==> d * x >= d
    ensures x <= -1 ==> d * x <= -d
  {
    if x >= 1 {
      MulMono(d, 1, x);
    } else if x <= -1 {
      MulMono(d, 1, -x);
      assert d * x == -(d * -x);
    }
  }

  /** The low `k + 1` bits of `a` are bit 0 followed by the low `k` bits of `a / 2`. */
  lemma ModDouble(a: nat, p: nat)
    requires p >= 1
    ensures a % (2 * p) == 2 * ((a / 2) % p) + a % 2
    ensures a / (2 * p) == (a / 2) / p
  {
    var h, b := a / 2, a % 2;
    var q, r := h / p, h % p;
    assert a == 2 * h + b;
    assert h == p * q + r;
    assert a == (2 * p) * q + (2 * r + b);
    DivModUnique(a, 2 * p, q, 2 * r + b);
  }

  lemma {:induction false} Pow2Monotone(k: nat, w: nat)
    requires k <= w
    ensures Pow2(k) <= Pow2(w)
    decreases w
  {
    if k < w {
      Pow2Monotone(k, w - 1);
    }
  }

  // ---------------------------------------------------------------------
  // Bitwise operators against masks made of powers of two

  /** `a & (2^k - 1)` keeps the low `k` bits. */
  lemma {:induction false} AndLowMask(a: nat, k: nat)
    ensures BitAnd(a, Pow2(k) - 1) == a % Pow2(k)
    decreases k
  {
    if k > 0 {
      var p := Pow2(k - 1);
      ModDouble(a, p);
      AndLowMask(a / 2, k - 1);
      AndLowMaskStep(a, p - 1, (a / 2) % p, a % (2 * p));
      assert Pow2(k) - 1 == 2 * (p - 1) + 1;
    }
  }

  /** One bit of AndLowMask, with the low parts named: a mask of the form
      `2 * q + 1` keeps bit 0 of `a` and masks `a / 2` by `q`. */
  lemma AndLowMaskStep(a: nat, q: nat, lowHalf: int, low: int)
    requires BitAnd(a / 2, q) == lowHalf
    requires low == 2 * lowHalf + a % 2
    ensures BitAnd(a, 2 * q + 1) == low
  {
    if a != 0 {
      DivModUnique(2 * q + 1, 2, q, 1);
    }
  }

  /** `a & ~(2^k - 1)` on a `w`-bit word clears the low `k` bits. */
  lemma AndHighMask(a: nat, k: nat, w: nat)
    requires k <= w && IsWord(a, w)
    ensures Pow2(k) <= Pow2(w)
    ensures BitAnd(a, Pow2(w) - Pow2(k)) == a - a % Pow2(k)
  {
    Pow2Monotone(k, w);
    AndComplement(a, Pow2(k) - 1, w);
    AndLowMask(a, k);
  }

  /** On a `w`-bit word, the bits `a` shares with a mask and the bits it
      shares with the mask's complement add up to `a`. */
  lemma {:induction false} AndComplement(a: nat, m: nat, w: nat)
    requires IsWord(a, w) && IsWord(m, w)
    ensures BitAnd(a, m) + BitAnd(a, Pow2(w) - 1 - m) == a
    decreases w
  {
    if w > 0 {
      var half := Pow2(w - 1);
      var n := Pow2(w) - 1 - m;
      HalfIsWord(a, half);
      HalfIsWord(m, half);
      DivModUnique(n, 2, half - 1 - m / 2, 1 - m % 2);
      AndComplement(a / 2, m / 2, w - 1);
      AndComplementStep(a, m, n);
    }
  }

  /** One bit of AndComplement: masks whose bit 0 differ and whose higher
      bits split `a / 2` between them split `a` between them. */
  lemma AndComplementStep(a: nat, m: nat, n: nat)
    requires m % 2 + n % 2 == 1
    requires BitAnd(a / 2, m / 2) + BitAnd(a / 2, n / 2) == a / 2
    ensures BitAnd(a, m) + BitAnd(a, n) == a
  {
    AndUnfold(a, m);
    AndUnfold(a, n);
  }

  /** One step of `&`: bit 0 and the rest. */
  lemma AndUnfold(a: nat, b: nat)
    ensures BitAnd(a, b) == 2 * BitAnd(a / 2, b / 2) + (if a % 2 == 1 && b % 2 == 1 then 1 else 0)
  {
    if a == 0 || b == 0 {
      assert BitAnd(a / 2, b / 2) == 0;
    }
  }

  lemma HalfIsWord(a: nat, h: nat)
    requires a < 2 * h
    ensures a / 2 < h
  {
    DivModUnique(a, 2, a / 2, a % 2);
  }

  /** Or-ing a value below `2^k` into a multiple of `2^k` is addition. */
  lemma {:induction false} OrDisjoint(a: nat, t: nat, k: nat)
    requires a % Pow2(k) == 0 && t < Pow2(k)
    ensures BitOr(a, t) == a + t
    decreases k
  {
    if k > 0 && a != 0 && t != 0 {
      var p := Pow2(k - 1);
      ModDouble(a, p);
      ModDouble(t, p);
      OrDisjoint(a / 2, t / 2, k - 1);
    }
  }

  lemma OrDisjointWhen(a: nat, t: nat, k: nat)
    ensures a % Pow2(k) == 0 && t < Pow2(k) ==> BitOr(a, t) == a + t
  {
    if a % Pow2(k) == 0 && t < Pow2(k) {
      OrDisjoint(a, t, k);
    }
  }

  /** Or-ing two `w`-bit words gives a `w`-bit word. */
  lemma {:induction false} OrIsWord(a: nat, b: nat, w: nat)
    requires IsWord(a, w) && IsWord(b, w)
    ensures IsWord(BitOr(a, b), w)
    decreases w
  {
    if w > 0 && a != 0 && b != 0 {
      OrIsWord(a / 2, b / 2, w - 1);
    }
  }

  /** Bit 0 of `a`. */
  lemma AndOne(a: nat)
    ensures BitAnd(a, 1) == a % 2
  {
    if a != 0 {
      assert BitAnd(a / 2, 0) == 0;
    }
  }

  /** Setting bit 0 of `a`. */
  lemma OrOne(a: nat)
    ensures BitOr(a, 1) == a + 1 - a % 2
  {
    if a != 0 {
      assert BitOr(a / 2, 0) == a / 2;
    }
  }

  lemma MulMono(c: nat, x: nat, y: nat)
    requires x <= y
    ensures c * x <= c * y
  {
  }
}
