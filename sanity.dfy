/** Debugging predicates for pointers.  They are complete but not sound: they
    say "no" only for words that certainly are not info or closure pointers,
    and may say "yes" for words that are not.  Reading the alleged info
    table is memory access outside this model, so the type code found there
    is a parameter.
 */
module Sanity {
  import opened Bits
  import opened Config
  import opened Forwarding
  import opened Tagging

  /** The numeric code of INVALID_OBJECT, the first closure type.  The type
      field read from an alleged info table is a raw number that need not
      name any closure type, so these predicates take it as a number. */
  const INVALID_OBJECT_CODE: nat := 0

  /** LOOKS_LIKE_INFO_PTR_NOT_NULL: the table's type is a real closure type.
      `tableType` is the type field of INFO_PTR_TO_STRUCT(p) and
      `nClosureTypes` is N_CLOSURE_TYPES. */
  predicate LooksLikeInfoPtrNotNull(tableType: nat, nClosureTypes: nat) {
    tableType != INVALID_OBJECT_CODE && tableType < nClosureTypes
  }

  /** LOOKS_LIKE_INFO_PTR: non-null, and a forwarding marker or a word whose
      table looks right. */
  predicate LooksLikeInfoPtr(p: nat, tableType: nat, nClosureTypes: nat) {
    p != 0 && (IsForwardingPtr(p) || LooksLikeInfoPtrNotNull(tableType, nClosureTypes))
  }

  /** LOOKS_LIKE_CLOSURE_PTR: the header word of the untagged closure looks
      like an info pointer.  `headers` maps closure addresses to the first
      word stored there; `tableType` is the type read through that word. */
  predicate LooksLikeClosurePtr(cfg: Config, p: nat, headers: map<nat, nat>, tableType: nat, nClosureTypes: nat)
    requires cfg.Valid() && IsWord(p, cfg.wordBits) && UntagClosure(cfg, p) in headers
  {
    LooksLikeInfoPtr(headers[UntagClosure(cfg, p)], tableType, nClosureTypes)
  }

  /** Null is never an info pointer; every other odd word is taken for one
      whatever it points at (the tolerated false positives); an even word
      is taken for one exactly when its table's type is a real type. */
  lemma LooksLikeInfoPtrCases(p: nat, tableType: nat, nClosureTypes: nat)
    ensures p == 0 ==> !LooksLikeInfoPtr(p, tableType, nClosureTypes)
    ensures p != 0 && p % 2 == 1 ==> LooksLikeInfoPtr(p, tableType, nClosureTypes)
    ensures p % 2 == 0 ==>
      (LooksLikeInfoPtr(p, tableType, nClosureTypes) <==>
       p != 0 && tableType != INVALID_OBJECT_CODE && tableType < nClosureTypes)
  {
    ForwardingIffOdd(p);
  }

  /** The closure-pointer check reads through the untagged address, so a
      tagged pointer passes exactly when the aligned pointer it was made from
      passes. */
  lemma ClosureCheckIgnoresTag(cfg: Config, q: nat, tag: nat, headers: map<nat, nat>, tableType: nat, nClosureTypes: nat)
    requires cfg.Valid() && IsWord(q, cfg.wordBits) && Aligned(cfg, q) && tag <= cfg.TagMask()
    requires q in headers
    ensures IsWord(tag, cfg.wordBits) && IsWord(TagClosure(cfg, tag, q), cfg.wordBits)
    ensures UntagClosure(cfg, TagClosure(cfg, tag, q)) == UntagClosure(cfg, q) == q
    ensures LooksLikeClosurePtr(cfg, TagClosure(cfg, tag, q), headers, tableType, nClosureTypes)
        <==> LooksLikeClosurePtr(cfg, q, headers, tableType, nClosureTypes)
  {
    TagRoundTrip(cfg, tag, q);
    AlignedIsUntagged(cfg, q);
  }

  /** A closure whose header was replaced by a forwarding marker during
      evacuation still looks like a closure, whatever its old table said. */
  lemma EvacuatedClosureLooksLikeClosure(cfg: Config, p: nat, headers: map<nat, nat>, newAddr: nat, tableType: nat, nClosureTypes: nat)
    requires cfg.Valid() && IsWord(p, cfg.wordBits) && IsWord(newAddr, cfg.wordBits) && newAddr % 2 == 0
    requires UntagClosure(cfg, p) in headers && headers[UntagClosure(cfg, p)] == MkForwardingPtr(cfg, newAddr)
    ensures LooksLikeClosurePtr(cfg, p, headers, tableType, nClosureTypes)
  {
    ForwardingRoundTrip(cfg, newAddr);
  }
}
