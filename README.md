# GHC runtime closure layout layer, in Dafny

This project models `rts/storage/ClosureMacros.h` of the GHC 7.6.2 runtime
system. That header defines how heap closures are laid out and measured. It
covers six things:

- **Pointer tagging.** A closure pointer's low `TAG_BITS` bits cache a small
  discriminant. `GET_CLOSURE_TAG` reads it, `UNTAG_CLOSURE` clears it and
  `TAG_CLOSURE` sets it (module `Tagging`).
- **Forwarding pointers.** An evacuated closure's header word is replaced by
  its new address with bit 0 set (module `Forwarding`).
- **Info-table addressing.** The header converts an info pointer to the
  address of its table structure, under both table placements
  (`TABLES_NEXT_TO_CODE` or not) (module `InfoTables`).
- **The size oracle.** `closure_sizeW_`, `closure_sizeW`, the `*_sizeW`
  helpers, `stack_frame_sizeW` and `STATIC_LINK` (module `Sizes`).
- **The card table** of mutable pointer arrays (module `Cards`).
- **In-place updates** (module `Overwrite`). `SET_INFO` and `SET_HDR` write a
  closure's header words; `SET_ARR_HDR` writes them and then the array's
  `bytes` field, the word after the header. `overwritingClosure` zeroes a
  closure's slop, the words past a thunk header, before its kind changes, and
  `OVERWRITE_INFO` does that and then installs the new info pointer. The heap
  is an array of words, these are methods on it, and the zeroing is a loop.

The debugging predicates `LOOKS_LIKE_*` are in module `Sanity`.

Supporting modules:

- `Bits` defines C's `&`, `|` and `~` on unsigned words, represented as
  naturals. Its induction lemmas connect these operators to remainders by
  powers of two.
- `Config` gathers the build configuration into one value. This covers the
  word size, `TAG_BITS`, `MUT_ARR_PTRS_CARD_BITS`, the build switches and the
  `sizeofW` of every `Stg*` structure the header reads. `Config.Valid` states
  the layout facts this layer relies on. For example, every closure structure
  starts with a header, and an indirection fits in a thunk header.
- `Closures` defines the closure types and, for each closure, the fields its
  size is read from.
- `Scenarios` holds worked examples.

Behaviour of the header worth noting:

- `UN_FORWARDING_PTR` subtracts 1 rather than clearing bit 0. So resolving a
  marker undoes marking only for even addresses
  (`Forwarding.ForwardingRoundTripIffEven`).
- A pointer array's size is its header plus its `size` field, not its element
  count `ptrs`.
- The slop is zeroed in whole words, from the end of a thunk header to the
  closure's size.
- The header has no operation that converts a table address back into an
  info pointer. `InfoTables.InfoPtrToStructInjective` shows that no
  information is lost.

## Model

| member | source | states |
|---|---|---|
| `Bits.AndLowMask` | ghc-7.6.2_includes_copy_darwin/rts/storage/ClosureMacros.h:182 | `p & (2^k - 1)` is `p mod 2^k`: masking with TAG_MASK keeps exactly the low tag bits |
| `Bits.AndHighMask` | ghc-7.6.2_includes_copy_darwin/rts/storage/ClosureMacros.h:188 | on a `w`-bit word, `p & ~(2^k - 1)` is `p - p mod 2^k`: it clears exactly the low `k` bits |
| `Bits.AndComplement` | ghc-7.6.2_includes_copy_darwin/rts/storage/ClosureMacros.h:188 | on a `w`-bit word, `a & m` plus `a & ~m` is `a`: a mask and its complement split the word |
| `Bits.OrDisjoint` | ghc-7.6.2_includes_copy_darwin/rts/storage/ClosureMacros.h:194 | or-ing a value below `2^k` into a multiple of `2^k` is addition |
| `Bits.OrIsWord` | ghc-7.6.2_includes_copy_darwin/rts/storage/ClosureMacros.h:194 | or-ing two `w`-bit words yields a `w`-bit word |
| `Bits.AndOne` | ghc-7.6.2_includes_copy_darwin/rts/storage/ClosureMacros.h:201 | `p & 1` is bit 0 of `p` |
| `Bits.OrOne` | ghc-7.6.2_includes_copy_darwin/rts/storage/ClosureMacros.h:202 | `p \| 1` is `p + 1` for even `p` and `p` for odd `p` |
| `Config.RoundupBytesToWds` | ghc-7.6.2_includes_copy_darwin/rts/storage/ClosureMacros.h:294-296 | ROUNDUP_BYTES_TO_WDS gives the fewest words whose bytes hold `n` bytes |
| `Tagging.GetClosureTag` | ghc-7.6.2_includes_copy_darwin/rts/storage/ClosureMacros.h:179-183 | the tag read is the pointer's low `TAG_BITS` bits and is at most TAG_MASK |
| `Tagging.UntagClosure` | ghc-7.6.2_includes_copy_darwin/rts/storage/ClosureMacros.h:185-189 | untagging gives the aligned address at or below the pointer, with the low bits cleared, and still a word |
| `Tagging.TagClosure` | ghc-7.6.2_includes_copy_darwin/rts/storage/ClosureMacros.h:191-195 | tagging yields a word; on an aligned pointer and a tag within TAG_MASK it adds the tag |
| `Tagging.TagRoundTrip` | ghc-7.6.2_includes_copy_darwin/rts/storage/ClosureMacros.h:179-195 | for aligned `p` and `t <= TAG_MASK`: `UNTAG_CLOSURE(TAG_CLOSURE(t,p)) == p` and `GET_CLOSURE_TAG(TAG_CLOSURE(t,p)) == t` |
| `Tagging.UntagTagRoundTrip` | ghc-7.6.2_includes_copy_darwin/rts/storage/ClosureMacros.h:179-195 | every word is its untagged address plus its tag, and re-tagging the untagged address with that tag rebuilds the word |
| `Tagging.UntagIdempotent` | ghc-7.6.2_includes_copy_darwin/rts/storage/ClosureMacros.h:179-189 | untagging twice is untagging once, and an untagged pointer has tag 0 |
| `Tagging.AlignedIsUntagged` | ghc-7.6.2_includes_copy_darwin/rts/storage/ClosureMacros.h:179-189 | a pointer is aligned iff untagging leaves it unchanged, iff its tag is 0 |
| `Forwarding.MkForwardingPtr` | ghc-7.6.2_includes_copy_darwin/rts/storage/ClosureMacros.h:202 | MK_FORWARDING_PTR sets bit 0 and stays a word |
| `Forwarding.UnForwardingPtr` | ghc-7.6.2_includes_copy_darwin/rts/storage/ClosureMacros.h:203 | UN_FORWARDING_PTR is one less for a non-zero word, and wraps 0 to the largest word |
| `Forwarding.ForwardingIffOdd` | ghc-7.6.2_includes_copy_darwin/rts/storage/ClosureMacros.h:201 | `IsForwardingPtr` (IS_FORWARDING_PTR) holds exactly for odd words, so no even (aligned) info pointer is taken for a marker |
| `Forwarding.ForwardingRoundTrip` | ghc-7.6.2_includes_copy_darwin/rts/storage/ClosureMacros.h:201-203 | for even `p`: the marker is recognised, `p` is not, and resolving the marker gives `p` |
| `Forwarding.ForwardingRoundTripIffEven` | ghc-7.6.2_includes_copy_darwin/rts/storage/ClosureMacros.h:201-203 | `UN_FORWARDING_PTR(MK_FORWARDING_PTR(p)) == p` iff `p` is even |
| `Forwarding.UnMkRoundTrip` | ghc-7.6.2_includes_copy_darwin/rts/storage/ClosureMacros.h:201-203 | resolving a marker gives a non-marker that marks back to the same marker |
| `InfoTables.TableEndsAtInfoPtr` | ghc-7.6.2_includes_copy_darwin/rts/storage/ClosureMacros.h:61-76 | `InfoPtrToStruct` (INFO_PTR_TO_STRUCT and its RET_, FUN_, THUNK_ and CON_ variants): with tables next to code the structure of each kind ends exactly at the info pointer; otherwise it starts there |
| `InfoTables.ItblToKindAgrees` | ghc-7.6.2_includes_copy_darwin/rts/storage/ClosureMacros.h:61-80 | `ItblToKind` (itbl_to_fun_itbl, itbl_to_ret_itbl, itbl_to_thunk_itbl, itbl_to_con_itbl): `itbl_to_X_itbl(INFO_PTR_TO_STRUCT(info)) == X_INFO_PTR_TO_STRUCT(info)` for the fun, ret, thunk and con tables, in both layouts |
| `InfoTables.ConversionsIdentityWithoutTntc` | ghc-7.6.2_includes_copy_darwin/rts/storage/ClosureMacros.h:71-80 | without TABLES_NEXT_TO_CODE every conversion, `InfoPtrToStruct` and `ItblToKind` alike, is the identity |
| `InfoTables.InfoPtrToStructInjective` | ghc-7.6.2_includes_copy_darwin/rts/storage/ClosureMacros.h:61-76 | distinct info pointers give distinct table addresses, so the info pointer can be recovered |
| `Sizes.PapSizeW` | ghc-7.6.2_includes_copy_darwin/rts/storage/ClosureMacros.h:242-244 | PAP_sizeW: a PAP covers a header and one word per argument |
| `Sizes.ApSizeW` | ghc-7.6.2_includes_copy_darwin/rts/storage/ClosureMacros.h:246-248 | AP_sizeW: an AP covers a thunk header and one word per argument |
| `Sizes.ApStackSizeW` | ghc-7.6.2_includes_copy_darwin/rts/storage/ClosureMacros.h:250-252 | AP_STACK_sizeW: an AP_STACK covers a thunk header and its saved stack words |
| `Sizes.ConstrSizeW` | ghc-7.6.2_includes_copy_darwin/rts/storage/ClosureMacros.h:254-256 | CONSTR_sizeW agrees with sizeW_fromITBL for a constructor layout with the same field counts |
| `Sizes.ThunkSelectorSizeW` | ghc-7.6.2_includes_copy_darwin/rts/storage/ClosureMacros.h:258-260 | THUNK_SELECTOR_sizeW covers a thunk header |
| `Sizes.BlackholeSizeW` | ghc-7.6.2_includes_copy_darwin/rts/storage/ClosureMacros.h:262-264 | BLACKHOLE_sizeW covers a header and fits in a thunk header, so any thunk can be overwritten by a BLACKHOLE |
| `Sizes.SizeWFromItbl` | ghc-7.6.2_includes_copy_darwin/rts/storage/ClosureMacros.h:270-274 | sizeW_fromITBL covers a header |
| `Sizes.ThunkSizeWFromItbl` | ghc-7.6.2_includes_copy_darwin/rts/storage/ClosureMacros.h:276-280 | thunk_sizeW_fromITBL covers a thunk header and is never smaller than sizeW_fromITBL of the same layout |
| `Sizes.ArrWordsWords` | ghc-7.6.2_includes_copy_darwin/rts/storage/ClosureMacros.h:294-296 | arr_words_words is the fewest words that hold the array's bytes |
| `Sizes.ArrWordsSizeW` | ghc-7.6.2_includes_copy_darwin/rts/storage/ClosureMacros.h:298-300 | arr_words_sizeW covers a header, and the words past the header hold the array's bytes |
| `Sizes.MutArrPtrsSizeW` | ghc-7.6.2_includes_copy_darwin/rts/storage/ClosureMacros.h:302-304 | mut_arr_ptrs_sizeW covers a header and `size` words |
| `Sizes.StackSizeW` | ghc-7.6.2_includes_copy_darwin/rts/storage/ClosureMacros.h:306-308 | stack_sizeW covers a header and the stack area |
| `Sizes.ClosureSizeW_` | ghc-7.6.2_includes_copy_darwin/rts/storage/ClosureMacros.h:314-369 | every closure except a BCO covers its header, and every thunk-headed closure (thunks, selectors, AP, AP_STACK) covers a thunk header |
| `Sizes.ClosureSizeW` | ghc-7.6.2_includes_copy_darwin/rts/storage/ClosureMacros.h:371-376 | the same bounds for a closure sized through its own info table |
| `Sizes.FixedAritySize` | ghc-7.6.2_includes_copy_darwin/rts/storage/ClosureMacros.h:319-337 | THUNK_x_y has thunk-header + (x+y) words; FUN_x_y and CONSTR_x_y have header + (x+y), with 1 <= x+y <= 2 |
| `Sizes.FixedSizeDependsOnlyOnKind` | ghc-7.6.2_includes_copy_darwin/rts/storage/ClosureMacros.h:319-337 | a fixed-arity closure's size is the same for any layout fields and closure fields |
| `Sizes.FastPathMatchesLayout` | ghc-7.6.2_includes_copy_darwin/rts/storage/ClosureMacros.h:254-339 | when the info table's counts match the kind's name, the fast paths equal thunk_sizeW_fromITBL (thunks, and THUNK) or sizeW_fromITBL and CONSTR_sizeW (functions, constructors) |
| `Sizes.DefaultSizeFromLayout` | ghc-7.6.2_includes_copy_darwin/rts/storage/ClosureMacros.h:270-367 | every kind without its own case is header + ptrs + nptrs |
| `Sizes.FixedShapeSizes` | ghc-7.6.2_includes_copy_darwin/rts/storage/ClosureMacros.h:340-365 | THUNK_SELECTOR is THUNK_SELECTOR_sizeW (sizeofW(StgSelector)), TSO is sizeofW(StgTSO) and TREC_CHUNK is sizeofW(StgTRecChunk), whatever the closure's fields |
| `Sizes.VariableSizes` | ghc-7.6.2_includes_copy_darwin/rts/storage/ClosureMacros.h:242-312 | PAP and AP are their header + n_args, AP_STACK its header + size, STACK its header + stack_size, and `BcoSizeW` (bco_sizeW) gives a BCO the size it stores |
| `Sizes.MutArrPtrsSize` | ghc-7.6.2_includes_copy_darwin/rts/storage/ClosureMacros.h:302-304 | all four MUT_ARR_PTRS variants are header + `size`, whatever `ptrs` is |
| `Sizes.ArrWordsSize` | ghc-7.6.2_includes_copy_darwin/rts/storage/ClosureMacros.h:294-300 | ARR_WORDS is its header + the fewest words holding its bytes |
| `Sizes.IndirectionFits` | ghc-7.6.2_includes_copy_darwin/rts/storage/ClosureMacros.h:262-264 | BLACKHOLE_sizeW is at most the size of any thunk-headed closure, and IND and IND_PERM have exactly BLACKHOLE_sizeW words |
| `Sizes.StaticLink` | ghc-7.6.2_includes_copy_darwin/rts/storage/ClosureMacros.h:147-161 | the static link slot lies in the payload, past the header |
| `Sizes.StaticLinkFixedSlots` | ghc-7.6.2_includes_copy_darwin/rts/storage/ClosureMacros.h:142-156 | the hard-coded links: FUN_STATIC's is payload[0], one header past `p`; THUNK_STATIC's and IND_STATIC's are payload[1], one word further |
| `Sizes.StaticLinkPastLayout` | ghc-7.6.2_includes_copy_darwin/rts/storage/ClosureMacros.h:147-165 | for a layout-described static closure the link is the first word past sizeW_fromITBL words, and STATIC_LINK2 is one word further |
| `Sizes.StaticLink2` | ghc-7.6.2_includes_copy_darwin/rts/storage/ClosureMacros.h:163-165 | for a layout-described static closure STATIC_LINK2 is the word after STATIC_LINK |
| `Sizes.StackFrameSizeW` | ghc-7.6.2_includes_copy_darwin/rts/storage/ClosureMacros.h:382-410 | every stack frame covers at least its info pointer |
| `Sizes.FrameSizes` | ghc-7.6.2_includes_copy_darwin/rts/storage/ClosureMacros.h:382-410 | RET_DYN is sizeofW(StgRetDyn) + the register bitmap and non-pointer register words + its live pointers and non-pointers, RET_FUN sizeofW(StgRetFun) + size, RET_BIG 1 + large bitmap, RET_BCO 2 + BCO bitmap, every other frame 1 + its bitmap size |
| `Cards.MutArrPtrsCardTableSize` | ghc-7.6.2_includes_copy_darwin/rts/storage/ClosureMacros.h:428-432 | the card table has the fewest words whose bytes hold all the cards |
| `Cards.MutArrPtrsCards` | ghc-7.6.2_includes_copy_darwin/rts/storage/ClosureMacros.h:421-426 | without wrap, mutArrPtrsCards(n) is the ceiling of n / 2^MUT_ARR_PTRS_CARD_BITS: the fewest cards covering n elements |
| `Cards.CardsOfMultiples` | ghc-7.6.2_includes_copy_darwin/rts/storage/ClosureMacros.h:421-426 | cards(0) = 0, cards(k * 2^b) = k and cards(k * 2^b + 1) = k + 1 |
| `Cards.CardsMonotone` | ghc-7.6.2_includes_copy_darwin/rts/storage/ClosureMacros.h:421-426 | more elements never need fewer cards |
| `Cards.MutArrPtrsCard` | ghc-7.6.2_includes_copy_darwin/rts/storage/ClosureMacros.h:434-438 | no card lies inside the header or the element slots |
| `Cards.CardPlacement` | ghc-7.6.2_includes_copy_darwin/rts/storage/ClosureMacros.h:434-438 | card 0 is the first byte past the element slots; card addresses strictly increase with unit stride |
| `Cards.CardsInsideClosure` | ghc-7.6.2_includes_copy_darwin/rts/storage/ClosureMacros.h:412-438 | when `size` is ptrs + card-table size, every card lies after the elements and inside the closure's mut_arr_ptrs_sizeW words |
| `Cards.CardTableSizeIsLeast` | ghc-7.6.2_includes_copy_darwin/rts/storage/ClosureMacros.h:428-432 | any word count that holds all the cards is at least mutArrPtrsCardTableSize |
| `Overwrite.ZeroSlopAt` | ghc-7.6.2_includes_copy_darwin/rts/storage/ClosureMacros.h:488-490 | zeroing the slop sets exactly the words in range to 0 and leaves every other word as it was |
| `Overwrite.ZeroSlopIdempotent` | ghc-7.6.2_includes_copy_darwin/rts/storage/ClosureMacros.h:488-490 | zeroing the slop twice is zeroing it once |
| `Overwrite.Heap.SetInfo` | ghc-7.6.2_includes_copy_darwin/rts/storage/ClosureMacros.h:49 | SET_INFO writes the info pointer word and nothing else |
| `Overwrite.Heap.SetHdr` | ghc-7.6.2_includes_copy_darwin/rts/storage/ClosureMacros.h:114-126 | SET_HDR writes the info pointer and, in profiling builds, the cost-centre stack, and nothing else |
| `Overwrite.Heap.SetArrHdr` | ghc-7.6.2_includes_copy_darwin/rts/storage/ClosureMacros.h:128-130 | SET_ARR_HDR is SET_HDR plus the byte count in the word after the header |
| `Overwrite.Heap.OverwritingClosure` | ghc-7.6.2_includes_copy_darwin/rts/storage/ClosureMacros.h:472-491 | with profiling and era <= 0 nothing changes; otherwise exactly the words from the end of the thunk header to closure_sizeW become 0, and profiling builds record the closure dead with that size |
| `Overwrite.Heap.ZeroThunkPayload` | ghc-7.6.2_includes_copy_darwin/rts/storage/ClosureMacros.h:488-490 | the loop of overwritingClosure sets the first `n` payload words after the thunk header to 0 and changes no other word |
| `Overwrite.Heap.OverwritingClosureIfEnabled` | ghc-7.6.2_includes_copy_darwin/rts/storage/ClosureMacros.h:462-466 | OVERWRITING_CLOSURE zeroes the slop only in profiling or single-threaded debugging builds |
| `Overwrite.Heap.OverwriteInfo` | ghc-7.6.2_includes_copy_darwin/rts/storage/ClosureMacros.h:132-136 | OVERWRITE_INFO zeroes the slop when that is enabled, then installs the new info pointer |
| `Overwrite.OverwriteThunkFootprint` | ghc-7.6.2_includes_copy_darwin/rts/storage/ClosureMacros.h:472-491 | overwriting a thunk-headed closure keeps its thunk header and everything outside it, zeroes the rest of it, and leaves room for the BLACKHOLE or indirection that replaces it |
| `Sanity.LooksLikeInfoPtrCases` | ghc-7.6.2_includes_copy_darwin/rts/storage/ClosureMacros.h:222-231 | `LooksLikeInfoPtr` (LOOKS_LIKE_INFO_PTR) never accepts null and accepts every non-null odd word (the tolerated false positives); on an even word it agrees with `LooksLikeInfoPtrNotNull`, which holds iff the table's type is neither INVALID_OBJECT nor at or past N_CLOSURE_TYPES |
| `Sanity.ClosureCheckIgnoresTag` | ghc-7.6.2_includes_copy_darwin/rts/storage/ClosureMacros.h:233-236 | `LooksLikeClosurePtr` (LOOKS_LIKE_CLOSURE_PTR) reads the header at the untagged address, so a tagged pointer passes exactly when its aligned pointer does |
| `Sanity.EvacuatedClosureLooksLikeClosure` | ghc-7.6.2_includes_copy_darwin/rts/storage/ClosureMacros.h:233-236 | a closure whose header holds a forwarding marker still looks like a closure |
| `Scenarios.ConstructorTwoPtrsOneNonPtr` | ghc-7.6.2_includes_copy_darwin/rts/storage/ClosureMacros.h:366-367 | a generic constructor with 2 pointer fields and 1 non-pointer field has header + 3 words |
| `Scenarios.TagTwo` | ghc-7.6.2_includes_copy_darwin/rts/storage/ClosureMacros.h:179-195 | tag 2 on an aligned pointer round-trips |
| `Scenarios.ThreeHundredElements` | ghc-7.6.2_includes_copy_darwin/rts/storage/ClosureMacros.h:421-432 | with 128-element cards, 300 elements take 3 cards, held in one table word when words have at least 3 bytes and in two on a 16-bit machine |
| `Scenarios.ForwardingAt0x1000` | ghc-7.6.2_includes_copy_darwin/rts/storage/ClosureMacros.h:201-203 | 0x1000 marks to 0x1001, which resolves to 0x1000; 0x1000 is not a marker |

## Left out

- The `sizeofW` of the `Stg*` structures and the structure layouts are defined elsewhere in the runtime. They are parameters, constrained only by `Config.Valid`. `sizeofW(StgClosure)` is taken as `sizeofW(StgHeader)` and `sizeofW(StgThunk)` as `sizeofW(StgThunkHeader)`, because the payloads are flexible arrays. `sizeofW(StgPtr)` and `sizeofW(StgWord)` are 1.
- Config.RoundupBytesToWds: the addition `n + sizeof(W_) - 1` is unbounded. In C it is done on an unsigned word, so a byte count within sizeof(W_) - 1 of 2^W wraps to a count of almost 0 words; the model gives the true ceiling there, and so do `Sizes.ArrWordsWords` and `Cards.MutArrPtrsCardTableSize`, which are built on it. Such a byte count is a whole address space, which no heap object reaches.
- `ROUNDUP_BYTES_TO_WDS` is defined elsewhere in the runtime. `Config.RoundupBytesToWds` takes it to be `(n + sizeof(W_) - 1) / sizeof(W_)`, the rounding-up division its name describes.
- `BITMAP_SIZE`, `GET_LARGE_BITMAP`, `BCO_BITMAP_SIZE`, `RET_DYN_PTRS`, `RET_DYN_NONPTRS` and the `RET_DYN_*` constants are defined elsewhere. Their values arrive as fields of the frame or its return table, or as configuration constants.
- The relation between `StgMutArrPtrs.size` and `.ptrs` is not stated in this header. The two stay independent; `Cards.CardsInsideClosure` takes the allocation relation as a hypothesis.
- The closure types the header never names (and their numeric codes) are folded into `OTHER_TYPE`. `N_CLOSURE_TYPES` is a parameter of the sanity predicates.
- Memory reads through pointers are not modelled. This covers the info table behind an info pointer (`get_itbl`, `GET_INFO`, `GET_ENTRY`, `GET_TAG`, the `get_*_itbl` family), the closure fields read by the size oracle, and the table type read by `LOOKS_LIKE_*`. They are passed in as decoded values. `LOOKS_LIKE_CLOSURE_PTR` reads the header word from a map of closure addresses to header words. `ap_stack_sizeW`, `ap_sizeW` and `pap_sizeW` only read a field and call `AP_STACK_sizeW`, `AP_sizeW` or `PAP_sizeW`; `closure_sizeW_` reads that field from the decoded closure. `ENTRY_CODE` is not part of this model.
- `Overwrite.Heap.OverwritingClosure` takes the closure's decoded view as a parameter. The model does not tie that view to the words in the heap array.
- `LDV_recordDead` is a ghost log of (closure, size) records. `LDV_RECORD_CREATE`, the retainer-profiling `flip` bit and `SET_PROF_HDR`'s third header word are profiler code defined elsewhere. `SET_HDR` is modelled writing only the info pointer and the cost-centre stack.
- `CHARLIKE_CLOSURE` and `INTLIKE_CLOSURE` index static arrays defined elsewhere.
- Thread safety of slop zeroing is a build-configuration gate only (`Config.OverwritingEnabled`). Concurrent readers of the slop are not modelled.
- Overwrite.Heap.OverwritingClosure: requires the closure to be at least a thunk header long. For a smaller closure the unsigned loop bound `size - sizeofW(StgThunkHeader)` wraps to a huge count, and that case is not modelled.
- Sizes.ClosureSizeW_: returns an unbounded natural. The source's 32-bit `nat` result and `nat` loop counter in `overwritingClosure` could truncate, and that is not modelled.
- InfoTables.InfoPtrToStruct and InfoTables.ItblToKind: pointer arithmetic that would go below address 0 is undefined in C. The model does not wrap: `InfoPtrToStruct` requires the info pointer to lie past its table, and `ItblToKind` requires the generic table to end no lower than a table of the wanted kind would start.
- Cards.MutArrPtrsCards: the rounding addition in `mutArrPtrsCards` wraps as an unsigned word in the model. Its ceiling contract and the exact-multiple and monotonicity lemmas hold only for element counts where it does not wrap.
