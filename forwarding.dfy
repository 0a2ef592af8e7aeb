/** Forwarding pointers.  When the copying collector evacuates a closure it
    overwrites the old closure's info-pointer word with a forwarding marker:
    the new address with bit 0 set.  Info pointers are word aligned, hence
    even, so bit 0 tells a marker from an info pointer.
 */
module Forwarding {
  import opened Bits
  import opened Config

  /** IS_FORWARDING_PTR: `(p & 1) != 0`. */
  predicate IsForwardingPtr(p: nat) {
    BitAnd(p, 1) != 0
  }

  /** MK_FORWARDING_PTR: `p | 1`. */
  function MkForwardingPtr(cfg: Config, p: nat): (w: nat)
    requires cfg.Valid() && IsWord(p, cfg.wordBits)
    ensures IsWord(w, cfg.wordBits)
    ensures w == p + 1 - p % 2
  {
    OrIsWord(p, 1, cfg.wordBits);
    OrOne(p);
    BitOr(p, 1)
  }

  /** UN_FORWARDING_PTR: `p - 1` on an unsigned word, which wraps at 0. */
  function UnForwardingPtr(cfg: Config, w: nat): (p: nat)
    requires IsWord(w, cfg.wordBits)
    ensures IsWord(p, cfg.wordBits)
    ensures w >= 1 ==> p + 1 == w
    ensures w == 0 ==> p == Pow2(cfg.wordBits) - 1
  {
    DecrementWraps(w, Pow2(cfg.wordBits));
    (w + Pow2(cfg.wordBits) - 1) % Pow2(cfg.wordBits)
  }

  /** Subtracting one modulo `d` from a value below `d`: one less, except
      that 0 wraps to `d - 1`. */
  lemma DecrementWraps(w: nat, d: nat)
    requires w < d
    ensures (w + d - 1) % d < d
    ensures w >= 1 ==> (w + d - 1) % d + 1 == w
    ensures w == 0 ==> (w + d - 1) % d == d - 1
  {
    if w >= 1 {
      DivModUnique(w + d - 1, d, 1, w - 1);
    } else {
      DivModUnique(w + d - 1, d, 0, d - 1);
    }
  }

  /** Bit 0 decides: a word is a forwarding marker exactly when it is odd. */
  lemma ForwardingIffOdd(p: nat)
    ensures IsForwardingPtr(p) <==> p % 2 == 1
  {
    AndOne(p);
  }

  /** Marking an even (aligned) address and resolving the marker gives the
      address back; the marker is recognised as one and the address is not. */
  lemma ForwardingRoundTrip(cfg: Config, p: nat)
    requires cfg.Valid() && IsWord(p, cfg.wordBits) && p % 2 == 0
    ensures IsForwardingPtr(MkForwardingPtr(cfg, p))
    ensures !IsForwardingPtr(p)
    ensures UnForwardingPtr(cfg, MkForwardingPtr(cfg, p)) == p
  {
    ForwardingIffOdd(p);
    ForwardingIffOdd(MkForwardingPtr(cfg, p));
  }

  /** Because UN_FORWARDING_PTR subtracts rather than masks, the round trip
      holds for exactly the even words: an odd word is its own marker and
      resolving it loses one. */
  lemma ForwardingRoundTripIffEven(cfg: Config, p: nat)
    requires cfg.Valid() && IsWord(p, cfg.wordBits)
    ensures UnForwardingPtr(cfg, MkForwardingPtr(cfg, p)) == p <==> p % 2 == 0
  {
  }

  /** Resolving a marker gives an address that marks back to the same marker. */
  lemma UnMkRoundTrip(cfg: Config, w: nat)
    requires cfg.Valid() && IsWord(w, cfg.wordBits) && IsForwardingPtr(w)
    ensures !IsForwardingPtr(UnForwardingPtr(cfg, w))
    ensures MkForwardingPtr(cfg, UnForwardingPtr(cfg, w)) == w
  {
    ForwardingIffOdd(w);
    ForwardingIffOdd(UnForwardingPtr(cfg, w));
  }
}
