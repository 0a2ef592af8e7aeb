/** The card table of a mutable pointer array.

    One card is a byte covering `2^MUT_ARR_PTRS_CARD_BITS` consecutive
    elements; the write barrier marks the card of a mutated slot and a minor
    collection rescans only marked cards.  The table sits directly after the
    array's last element slot and is rounded up to whole words.
 */
module Cards {
  import opened Bits
  import opened Config
  import opened Sizes

  /** mutArrPtrsCards: `(elems + (1 << MUT_ARR_PTRS_CARD_BITS) - 1) >> MUT_ARR_PTRS_CARD_BITS`
      on an unsigned word, so the addition wraps.  Where it does not wrap,
      the count is the ceiling of elems / 2^MUT_ARR_PTRS_CARD_BITS: the
      fewest cards that cover the elements. */
  function MutArrPtrsCards(cfg: Config, elems: nat): (r: nat)
    requires IsWord(elems, cfg.wordBits)
    ensures NoWrap(cfg, elems) ==> r * cfg.CardSpan() >= elems
    ensures NoWrap(cfg, elems) ==> r == 0 || (r - 1) * cfg.CardSpan() < elems
  {
    CardsIsCeiling(cfg, elems);
    DivNat((elems + cfg.CardSpan() - 1) % Pow2(cfg.wordBits), cfg.CardSpan());
    ((elems + cfg.CardSpan() - 1) % Pow2(cfg.wordBits)) / cfg.CardSpan()
  }

  /** The element count is small enough that the rounding-up addition of
      mutArrPtrsCards does not wrap. */
  predicate NoWrap(cfg: Config, elems: nat) {
    elems + cfg.CardSpan() - 1 < Pow2(cfg.wordBits)
  }

  /** mutArrPtrsCardTableSize: the card table's size in words. */
  function MutArrPtrsCardTableSize(cfg: Config, elems: nat): (r: nat)
    requires cfg.Valid() && IsWord(elems, cfg.wordBits)
    ensures r * cfg.wordBytes >= MutArrPtrsCards(cfg, elems)
    ensures r == 0 || (r - 1) * cfg.wordBytes < MutArrPtrsCards(cfg, elems)
  {
    RoundupBytesToWds(cfg, MutArrPtrsCards(cfg, elems))
  }

  /** mutArrPtrsCard(a, n): the byte address of card `n` of the array at
      byte address `a` with `ptrs` element slots, `n` bytes past the end of
      the last slot; no card lies inside the header or the slots. */
  function MutArrPtrsCard(cfg: Config, a: nat, ptrs: nat, n: nat): (r: nat)
    ensures r >= a + (cfg.mutArrPtrsW + ptrs) * cfg.wordBytes
  {
    a + (cfg.mutArrPtrsW + ptrs) * cfg.wordBytes + n
  }

  // ---------------------------------------------------------------------
  // Card count

  /** Without wrap, the wrapped rounding-up division is the plain one. */
  lemma CardsIsCeiling(cfg: Config, elems: nat)
    ensures NoWrap(cfg, elems) ==>
      var r := ((elems + cfg.CardSpan() - 1) % Pow2(cfg.wordBits)) / cfg.CardSpan();
      r * cfg.CardSpan() >= elems && (r == 0 || (r - 1) * cfg.CardSpan() < elems)
  {
    if NoWrap(cfg, elems) {
      SmallModIdentity(elems + cfg.CardSpan() - 1, Pow2(cfg.wordBits));
      CeilDivBounds(elems, cfg.CardSpan());
    }
  }

  /** A non-negative dividend over a positive divisor gives a natural quotient. */
  lemma DivNat(a: int, d: int)
    requires a >= 0 && d >= 1
    ensures a / d >= 0
  {
  }

  lemma SmallModIdentity(a: nat, d: nat)
    requires a < d
    ensures a % d == a
  {
    DivModUnique(a, d, 0, a);
  }

  /** The ceiling is unique: any count meeting both bounds is it. */
  lemma CeilingUnique(n: nat, d: nat, r1: nat, r2: nat)
    requires d >= 1
    requires r1 * d >= n && (r1 == 0 || (r1 - 1) * d < n)
    requires r2 * d >= n && (r2 == 0 || (r2 - 1) * d < n)
    ensures r1 == r2
  {
    if r1 < r2 {
      MulMono(d, r1, r2 - 1);
    } else if r2 < r1 {
      MulMono(d, r2, r1 - 1);
    }
  }

  /** No elements need no cards; k full spans need exactly k cards, and one
      element more needs one card more. */
  lemma CardsOfMultiples(cfg: Config, k: nat)
    requires NoWrap(cfg, k * cfg.CardSpan() + 1)
    ensures IsWord(0, cfg.wordBits) && MutArrPtrsCards(cfg, 0) == 0
    ensures IsWord(k * cfg.CardSpan(), cfg.wordBits) && MutArrPtrsCards(cfg, k * cfg.CardSpan()) == k
    ensures IsWord(k * cfg.CardSpan() + 1, cfg.wordBits) && MutArrPtrsCards(cfg, k * cfg.CardSpan() + 1) == k + 1
  {
    var d := cfg.CardSpan();
    CeilingUnique(0, d, MutArrPtrsCards(cfg, 0), 0);
    if k > 0 {
      assert (k - 1) * d == k * d - d;
    }
    CeilingUnique(k * d, d, MutArrPtrsCards(cfg, k * d), k);
    assert (k + 1) * d == k * d + d;
    CeilingUnique(k * d + 1, d, MutArrPtrsCards(cfg, k * d + 1), k + 1);
  }

  /** More elements never need fewer cards. */
  lemma CardsMonotone(cfg: Config, m: nat, n: nat)
    requires m <= n && IsWord(n, cfg.wordBits) && NoWrap(cfg, n)
    ensures IsWord(m, cfg.wordBits)
    ensures MutArrPtrsCards(cfg, m) <= MutArrPtrsCards(cfg, n)
  {
    CeilingMonotone(m, n, cfg.CardSpan(), MutArrPtrsCards(cfg, m), MutArrPtrsCards(cfg, n));
  }

  /** A count whose predecessor falls short of `m` is at most any count
      that covers `n >= m`. */
  lemma CeilingMonotone(m: nat, n: nat, d: nat, rm: nat, rn: nat)
    requires d >= 1 && m <= n
    requires rn * d >= n
    requires rm == 0 || (rm - 1) * d < m
    ensures rm <= rn
  {
    if rn < rm {
      MulMono(d, rn, rm - 1);
    }
  }

  // ---------------------------------------------------------------------
  // Card placement

  /** Cards follow the last element slot one byte apart: card 0 is the first
      byte past the element slots, and card addresses strictly increase with
      unit stride. */
  lemma CardPlacement(cfg: Config, a: nat, ptrs: nat, i: nat, j: nat)
    requires i < j
    ensures MutArrPtrsCard(cfg, a, ptrs, 0) == a + (cfg.mutArrPtrsW + ptrs) * cfg.wordBytes
    ensures MutArrPtrsCard(cfg, a, ptrs, i + 1) == MutArrPtrsCard(cfg, a, ptrs, i) + 1
    ensures MutArrPtrsCard(cfg, a, ptrs, i) < MutArrPtrsCard(cfg, a, ptrs, j)
    ensures MutArrPtrsCard(cfg, a, ptrs, j) - MutArrPtrsCard(cfg, a, ptrs, i) == j - i
  {
  }

  /** When an array's `size` field is its element count plus its card-table
      size (how arrays are allocated), every card lies inside the closure's
      footprint of mut_arr_ptrs_sizeW words, after all element slots. */
  lemma CardsInsideClosure(cfg: Config, a: nat, ptrs: nat, size: nat, i: nat)
    requires cfg.Valid() && IsWord(ptrs, cfg.wordBits)
    requires size == ptrs + MutArrPtrsCardTableSize(cfg, ptrs)
    requires i < MutArrPtrsCards(cfg, ptrs)
    ensures a + (cfg.mutArrPtrsW + ptrs) * cfg.wordBytes <= MutArrPtrsCard(cfg, a, ptrs, i)
    ensures MutArrPtrsCard(cfg, a, ptrs, i) < a + MutArrPtrsSizeW(cfg, size) * cfg.wordBytes
  {
    var e := cfg.mutArrPtrsW + ptrs;
    var t := MutArrPtrsCardTableSize(cfg, ptrs);
    assert MutArrPtrsSizeW(cfg, size) == e + t;
    assert (e + t) * cfg.wordBytes == e * cfg.wordBytes + t * cfg.wordBytes;
  }

  /** The card table's word count is the fewest words whose bytes hold all
      the cards. */
  lemma CardTableSizeIsLeast(cfg: Config, elems: nat, words: nat)
    requires cfg.Valid() && IsWord(elems, cfg.wordBits)
    requires words * cfg.wordBytes >= MutArrPtrsCards(cfg, elems)
    ensures MutArrPtrsCardTableSize(cfg, elems) <= words
  {
    var r := MutArrPtrsCardTableSize(cfg, elems);
    if words < r {
      MulMono(cfg.wordBytes, words, r - 1);
    }
  }
}
