/** Pointer tagging: a closure pointer is word aligned, so its low `TAG_BITS`
    bits are free to cache a small discriminant (evaluatedness, or the
    constructor's index).  The tag must be stripped before the pointer is
    dereferenced.
 */
module Tagging {
  import opened Bits
  import opened Config

  /** A pointer with no tag in its low bits. */
  predicate Aligned(cfg: Config, p: nat) {
    p % Pow2(cfg.tagBits) == 0
  }

  /** GET_CLOSURE_TAG: `p & TAG_MASK`, the low `TAG_BITS` bits of the pointer. */
  function GetClosureTag(cfg: Config, p: nat): (t: nat)
    ensures t == p % Pow2(cfg.tagBits)
    ensures t <= cfg.TagMask()
  {
    AndLowMask(p, cfg.tagBits);
    BitAnd(p, cfg.TagMask())
  }

  /** UNTAG_CLOSURE: `p & ~TAG_MASK`, the aligned address the pointer carries. */
  function UntagClosure(cfg: Config, p: nat): (q: nat)
    requires cfg.Valid() && IsWord(p, cfg.wordBits)
    ensures q == p - p % Pow2(cfg.tagBits)
    ensures Aligned(cfg, q) && q <= p && IsWord(q, cfg.wordBits)
  {
    Pow2Monotone(cfg.tagBits, cfg.wordBits);
    AndHighMask(p, cfg.tagBits, cfg.wordBits);
    ClearedIsAligned(p, Pow2(cfg.tagBits));
    BitAnd(p, BitNot(cfg.TagMask(), cfg.wordBits))
  }

  /** TAG_CLOSURE: `p | tag`.  On an aligned pointer and a tag that fits in
      `TAG_BITS`, or-ing is adding. */
  function TagClosure(cfg: Config, tag: nat, p: nat): (q: nat)
    requires cfg.Valid() && IsWord(p, cfg.wordBits) && IsWord(tag, cfg.wordBits)
    ensures IsWord(q, cfg.wordBits)
    ensures Aligned(cfg, p) && tag <= cfg.TagMask() ==> q == p + tag
  {
    OrIsWord(p, tag, cfg.wordBits);
    OrDisjointWhen(p, tag, cfg.tagBits);
    BitOr(p, tag)
  }

  lemma ClearedIsAligned(p: nat, d: nat)
    requires d >= 1
    ensures (p - p % d) % d == 0
  {
    var q := p / d;
    assert p - p % d == d * q;
    DivModUnique(p - p % d, d, q, 0);
  }

  /** Tagging an aligned pointer and untagging it again gives the pointer
      back, and the tag read from it is the tag put in. */
  lemma TagRoundTrip(cfg: Config, tag: nat, p: nat)
    requires cfg.Valid() && IsWord(p, cfg.wordBits) && Aligned(cfg, p)
    requires tag <= cfg.TagMask()
    ensures IsWord(tag, cfg.wordBits)
    ensures UntagClosure(cfg, TagClosure(cfg, tag, p)) == p
    ensures GetClosureTag(cfg, TagClosure(cfg, tag, p)) == tag
  {
    Pow2Monotone(cfg.tagBits, cfg.wordBits);
    assert TagClosure(cfg, tag, p) == p + tag;
    AddToAligned(p, tag, Pow2(cfg.tagBits));
  }

  /** Adding a value below `d` to a multiple of `d`: the remainder is that
      value and clearing it gives the multiple back. */
  lemma AddToAligned(p: nat, t: nat, d: nat)
    requires d >= 1 && p % d == 0 && t < d
    ensures (p + t) % d == t && (p + t) - (p + t) % d == p
  {
    assert p == d * (p / d) + p % d;
    DivModUnique(p + t, d, p / d, t);
  }

  /** Every word splits into its untagged address and its tag, and tagging
      the one with the other rebuilds the word. */
  lemma UntagTagRoundTrip(cfg: Config, p: nat)
    requires cfg.Valid() && IsWord(p, cfg.wordBits)
    ensures UntagClosure(cfg, p) + GetClosureTag(cfg, p) == p
    ensures IsWord(GetClosureTag(cfg, p), cfg.wordBits)
    ensures TagClosure(cfg, GetClosureTag(cfg, p), UntagClosure(cfg, p)) == p
  {
    Pow2Monotone(cfg.tagBits, cfg.wordBits);
  }

  /** Untagging is idempotent and leaves tag 0. */
  lemma UntagIdempotent(cfg: Config, p: nat)
    requires cfg.Valid() && IsWord(p, cfg.wordBits)
    ensures UntagClosure(cfg, UntagClosure(cfg, p)) == UntagClosure(cfg, p)
    ensures GetClosureTag(cfg, UntagClosure(cfg, p)) == 0
  {
  }

  /** An aligned pointer is its own untagged form and carries tag 0. */
  lemma AlignedIsUntagged(cfg: Config, p: nat)
    requires cfg.Valid() && IsWord(p, cfg.wordBits)
    ensures Aligned(cfg, p) <==> UntagClosure(cfg, p) == p
    ensures Aligned(cfg, p) <==> GetClosureTag(cfg, p) == 0
  {
  }
}
