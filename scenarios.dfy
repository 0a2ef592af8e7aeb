/** Worked examples of the layer's contracts, stated for every configuration
    that has the word size, tag width or card width they need.
 */
module Scenarios {
  import opened Bits
  import opened Config
  import opened Closures
  import opened Sizes
  import opened Tagging
  import opened Forwarding
  import opened Cards

  /** A generic constructor with two pointer fields and one non-pointer
      field is its header plus three words. */
  lemma ConstructorTwoPtrsOneNonPtr(cfg: Config, f: SizeFields)
    requires cfg.Valid()
    ensures ClosureSizeW(cfg, Closure(InfoTable(CONSTR, 2, 1), f)) == cfg.headerW + 3
  {
    DefaultSizeFromLayout(cfg, f, InfoTable(CONSTR, 2, 1));
  }

  /** Tagging an aligned closure pointer with tag 2 and untagging it gives
      the pointer back, and its tag reads 2, whenever tags have two bits. */
  lemma TagTwo(cfg: Config, p: nat)
    requires cfg.Valid() && cfg.tagBits >= 2 && IsWord(p, cfg.wordBits) && Aligned(cfg, p)
    ensures IsWord(2, cfg.wordBits)
    ensures UntagClosure(cfg, TagClosure(cfg, 2, p)) == p
    ensures GetClosureTag(cfg, TagClosure(cfg, 2, p)) == 2
  {
    Pow2Monotone(2, cfg.tagBits);
    TagRoundTrip(cfg, 2, p);
  }

  /** With cards of 128 elements, an array of 300 elements has 3 cards.  The
      card table is one word on any machine with words of at least 3 bytes
      (32- and 64-bit machines) and two words on a 16-bit machine, whose
      2-byte words hold only 2 cards each. */
  lemma ThreeHundredElements(cfg: Config)
    requires cfg.Valid() && cfg.cardBits == 7 && cfg.wordBits >= 16
    ensures IsWord(300, cfg.wordBits)
    ensures MutArrPtrsCards(cfg, 300) == 3
    ensures cfg.wordBytes >= 3 ==> MutArrPtrsCardTableSize(cfg, 300) == 1
    ensures cfg.wordBytes == 2 ==> MutArrPtrsCardTableSize(cfg, 300) == 2
  {
    assert Pow2(7) == 128;
    Pow2Monotone(16, cfg.wordBits);
    assert Pow2(16) == 65536;
    CeilingUnique(300, 128, MutArrPtrsCards(cfg, 300), 3);
    if cfg.wordBytes >= 3 {
      CeilingUnique(3, cfg.wordBytes, MutArrPtrsCardTableSize(cfg, 300), 1);
    } else if cfg.wordBytes == 2 {
      CeilingUnique(3, 2, MutArrPtrsCardTableSize(cfg, 300), 2);
    }
  }

  /** Forwarding the aligned address 0x1000 gives 0x1001, which resolves to
      0x1000; 0x1000 itself is not a forwarding marker. */
  lemma ForwardingAt0x1000(cfg: Config)
    requires cfg.Valid() && cfg.wordBits >= 16
    ensures IsWord(0x1000, cfg.wordBits) && IsWord(0x1001, cfg.wordBits)
    ensures MkForwardingPtr(cfg, 0x1000) == 0x1001
    ensures UnForwardingPtr(cfg, 0x1001) == 0x1000
    ensures !IsForwardingPtr(0x1000) && IsForwardingPtr(0x1001)
  {
    Pow2Monotone(16, cfg.wordBits);
    assert Pow2(8) == 256;
    assert Pow2(16) == 65536;
    ForwardingRoundTrip(cfg, 0x1000);
  }
}
